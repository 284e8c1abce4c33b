/**
  The recursive-descent parser of src/main.rs (`expr`, `mul`, `primary`):

    expr    = mul ("+" mul | "-" mul)*
    mul     = primary ("*" primary | "/" primary)*
    primary = num

  The peekable token iterator of the source becomes an index into the token
  sequence: each function takes the index of the next token and returns its
  tree (if any) with the index of the first token it did not consume.
  Parentheses are lexed but never parsed; `primary` rejects them like any
  other punctuation.
 */
module Parser {
  import opened Wrappers
  import opened BinaryTree
  import opened Numbers
  import opened Lexer
  import opened Ast

  predicate IsAddOp(v: string)
  {
    v == "+" || v == "-"
  }

  predicate IsMulOp(v: string)
  {
    v == "*" || v == "/"
  }

  // ---------------------------------------------------------------------
  // Shapes of the trees the parser builds.

  predicate IsLeaf(t: Ast)
  {
    t.key.kind == NodeKind.Num && t.left.None? && t.right.None?
  }

  predicate IsMulKey(k: AstNode)
  {
    k == AstNode(Mul, "*") || k == AstNode(Div, "/")
  }

  predicate IsAddKey(k: AstNode)
  {
    k == AstNode(Add, "+") || k == AstNode(Sub, "-")
  }

  /**
    A product: a left-leaning chain of `*` and `/` nodes over a number leaf,
    each right child a number leaf or (after a missing operand) absent.
   */
  predicate TermShape(t: Ast)
    decreases t
  {
    || IsLeaf(t)
    || (&& IsMulKey(t.key)
        && t.left.Some? && TermShape(t.left.value)
        && (t.right.None? || IsLeaf(t.right.value)))
  }

  /** A sum: a left-leaning chain of `+` and `-` nodes over products. */
  predicate ExprShape(t: Ast)
    decreases t
  {
    || TermShape(t)
    || (&& IsAddKey(t.key)
        && t.left.Some? && ExprShape(t.left.value)
        && (t.right.None? || TermShape(t.right.value)))
  }

  /** Every number token carries a decimal literal, as the scanner guarantees. */
  predicate NumTokensNumeral(ts: seq<Token>)
  {
    forall i :: 0 <= i < |ts| && ts[i].kind == TokenKind.Num ==> IsNumeral(ts[i].value)
  }

  // ---------------------------------------------------------------------
  // The parser.

  /**
    `primary`: consumes one token if there is one; a number token becomes a
    leaf with the same text, anything else (punctuation, parentheses
    included) yields no tree.
   */
  function ParsePrimary(ts: seq<Token>, pos: nat): (r: (Option<Ast>, nat))
    requires pos <= |ts|
    ensures pos < |ts| ==> r.1 == pos + 1
    ensures pos == |ts| ==> r.1 == pos && r.0 == None
    ensures r.0.Some? <==> pos < |ts| && ts[pos].kind == TokenKind.Num
    ensures r.0.Some? ==> r.0.value == Leaf(ts[pos].value) && IsLeaf(r.0.value)
  {
    if pos == |ts| then (None, pos)
    else
      var token := ts[pos];
      match token.kind
      case Punck => (None, pos + 1)
      case Num => (Some(Leaf(token.value)), pos + 1)
      case Ignore => (None, pos + 1)
  }

  /**
    The loop of `mul`, entered with the product `node` parsed so far.  It
    stops, without consuming it, at the end of the input or at the first
    token that is not `*` or `/`; it always returns a tree.  After an
    operator whose right operand is missing the node keeps no right child.
   */
  function MulLoop(ts: seq<Token>, pos: nat, node: Ast): (r: (Option<Ast>, nat))
    requires pos <= |ts|
    ensures pos <= r.1 <= |ts| && r.0.Some?
    decreases |ts| - pos
  {
    if pos == |ts| then (Some(node), pos)
    else
      var token := ts[pos];
      if IsMulOp(token.value) then
        var kind := if token.value == "*" then Mul else Div;
        var bt := NewBinaryWithoutRight(AstNode(kind, token.value), node);
        var (right, q) := ParsePrimary(ts, pos + 1);
        var bt' := if right.Some? then SetRight(bt, Some(right.value)) else bt;
        MulLoop(ts, q, bt')
      else
        (Some(node), pos)
  }

  /** `mul`: a product, or no tree when its first operand is missing. */
  function ParseMul(ts: seq<Token>, pos: nat): (r: (Option<Ast>, nat))
    requires pos <= |ts|
    ensures pos <= r.1 <= |ts|
    ensures pos < |ts| ==> pos < r.1
    ensures r.0.None? <==> ParsePrimary(ts, pos).0.None?
  {
    var (first, q) := ParsePrimary(ts, pos);
    if first.None? then (None, q)
    else MulLoop(ts, q, first.value)
  }

  /**
    The loop of `expr`, entered with the sum `node` parsed so far.  It stops,
    without consuming it, at the end of the input or at the first token that
    is not `+` or `-`; it always returns a tree.
   */
  function ExprLoop(ts: seq<Token>, pos: nat, node: Ast): (r: (Option<Ast>, nat))
    requires pos <= |ts|
    ensures pos <= r.1 <= |ts| && r.0.Some?
    decreases |ts| - pos
  {
    if pos == |ts| then (Some(node), pos)
    else
      var token := ts[pos];
      if IsAddOp(token.value) then
        var kind := if token.value == "+" then Add else Sub;
        var bt := NewBinaryWithoutRight(AstNode(kind, token.value), node);
        var (right, q) := ParseMul(ts, pos + 1);
        var bt' := if right.Some? then SetRight(bt, Some(right.value)) else bt;
        ExprLoop(ts, q, bt')
      else
        (Some(node), pos)
  }

  /** `expr`: a sum, or no tree when its first operand is missing. */
  function ParseExpr(ts: seq<Token>, pos: nat): (r: (Option<Ast>, nat))
    requires pos <= |ts|
    ensures pos <= r.1 <= |ts|
    ensures r.0.None? <==> ParsePrimary(ts, pos).0.None?
  {
    var (first, q) := ParseMul(ts, pos);
    if first.None? then (None, q)
    else ExprLoop(ts, q, first.value)
  }

  /** Position `q` ends an expression: end of input, or a token that is no operator. */
  predicate Stops(ts: seq<Token>, q: nat)
    requires q <= |ts|
  {
    q == |ts| || (!IsAddOp(ts[q].value) && !IsMulOp(ts[q].value))
  }

  // ---------------------------------------------------------------------
  // What the parser builds: shapes, stopping points, number leaves.

  /**
    The loop of `mul` extends a product to a product, stops in front of a
    token that is not `*` or `/`, and only adds leaves holding number
    tokens.
   */
  lemma {:induction false} MulLoopShape(ts: seq<Token>, pos: nat, node: Ast)
    requires pos <= |ts| && TermShape(node)
    ensures var (r, q) := MulLoop(ts, pos, node);
      && TermShape(r.value)
      && (q == |ts| || !IsMulOp(ts[q].value))
      && (NumTokensNumeral(ts) && NumeralLeaves(node) ==> NumeralLeaves(r.value))
    decreases |ts| - pos
  {
    if pos < |ts| && IsMulOp(ts[pos].value) {
      var token := ts[pos];
      var kind := if token.value == "*" then Mul else Div;
      var bt := NewBinaryWithoutRight(AstNode(kind, token.value), node);
      var (right, q) := ParsePrimary(ts, pos + 1);
      var bt' := if right.Some? then SetRight(bt, Some(right.value)) else bt;
      if NumTokensNumeral(ts) && right.Some? {
        assert ts[pos + 1].kind == TokenKind.Num;
      }
      assert TermShape(bt');
      assert NumTokensNumeral(ts) && NumeralLeaves(node) ==> NumeralLeaves(bt');
      MulLoopShape(ts, q, bt');
    }
  }

  /** `mul` returns a product ending in front of a token that is not `*` or `/`. */
  lemma ParseMulShape(ts: seq<Token>, pos: nat)
    requires pos <= |ts|
    ensures var (r, q) := ParseMul(ts, pos);
      r.Some? ==>
        && TermShape(r.value)
        && (q == |ts| || !IsMulOp(ts[q].value))
        && (NumTokensNumeral(ts) ==> NumeralLeaves(r.value))
  {
    var (first, q) := ParsePrimary(ts, pos);
    if first.Some? {
      MulLoopShape(ts, q, first.value);
    }
  }

  /**
    The loop of `expr` extends a sum to a sum, stops in front of a token
    that is not `+` or `-`, and only adds leaves holding number tokens.
   */
  lemma {:induction false} ExprLoopShape(ts: seq<Token>, pos: nat, node: Ast)
    requires pos <= |ts| && ExprShape(node)
    ensures var (r, q) := ExprLoop(ts, pos, node);
      && ExprShape(r.value)
      && (q == |ts| || !IsAddOp(ts[q].value))
      && (NumTokensNumeral(ts) && NumeralLeaves(node) ==> NumeralLeaves(r.value))
    decreases |ts| - pos
  {
    if pos < |ts| && IsAddOp(ts[pos].value) {
      var token := ts[pos];
      var kind := if token.value == "+" then Add else Sub;
      var bt := NewBinaryWithoutRight(AstNode(kind, token.value), node);
      var (right, q) := ParseMul(ts, pos + 1);
      var bt' := if right.Some? then SetRight(bt, Some(right.value)) else bt;
      ParseMulShape(ts, pos + 1);
      assert ExprShape(bt');
      assert NumTokensNumeral(ts) && NumeralLeaves(node) ==> NumeralLeaves(bt');
      ExprLoopShape(ts, q, bt');
    }
  }

  /**
    `expr` returns a sum ending at the end of input or in front of a token
    that is not `+` or `-`, and every leaf of it holds a number token.
   */
  lemma ParseExprShape(ts: seq<Token>, pos: nat)
    requires pos <= |ts|
    ensures var (r, q) := ParseExpr(ts, pos);
      r.Some? ==>
        && ExprShape(r.value)
        && (q == |ts| || !IsAddOp(ts[q].value))
        && (NumTokensNumeral(ts) ==> NumeralLeaves(r.value))
  {
    var (first, q) := ParseMul(ts, pos);
    if first.Some? {
      ParseMulShape(ts, pos);
      ExprLoopShape(ts, q, first.value);
    }
  }

  // ---------------------------------------------------------------------
  // The parser inverts the in-order reading of a well-shaped tree.

  function TokenOf(k: AstNode): Token
  {
    Token(if k.kind == NodeKind.Num then TokenKind.Num else Punck, k.value)
  }

  /** The tokens of a tree read in order: left subtree, the node's own token, right subtree. */
  function Unparse(t: Ast): seq<Token>
    decreases t
  {
    (if t.left.Some? then Unparse(t.left.value) else [])
    + [TokenOf(t.key)]
    + (if t.right.Some? then Unparse(t.right.value) else [])
  }

  /** Operator texts only occur on punctuation tokens, as in any scanner output. */
  predicate OperatorsArePunct(ts: seq<Token>)
  {
    forall i :: 0 <= i < |ts| && (IsAddOp(ts[i].value) || IsMulOp(ts[i].value)) ==>
      ts[i].kind == Punck
  }

  /**
    `u` occurs in `ts` from position `pos` on.  Written recursively so that
    the solver unfolds it only as far as a proof needs.
   */
  predicate TokensAt(ts: seq<Token>, pos: nat, u: seq<Token>)
    decreases |u|
  {
    && pos + |u| <= |ts|
    && (u == [] || (ts[pos] == u[0] && TokensAt(ts, pos + 1, u[1..])))
  }

  lemma {:induction false} TokensAtSlice(ts: seq<Token>, pos: nat, u: seq<Token>)
    ensures TokensAt(ts, pos, u) <==> pos + |u| <= |ts| && ts[pos..pos + |u|] == u
    decreases |u|
  {
    if u != [] && pos + |u| <= |ts| {
      TokensAtSlice(ts, pos + 1, u[1..]);
      if ts[pos..pos + |u|] == u {
        assert ts[pos + 1..pos + |u|] == ts[pos..pos + |u|][1..];
      }
    }
  }

  lemma {:induction false} TokensAtSplit(ts: seq<Token>, pos: nat, x: seq<Token>, y: seq<Token>)
    ensures TokensAt(ts, pos, x + y) <==> TokensAt(ts, pos, x) && TokensAt(ts, pos + |x|, y)
    decreases |x|
  {
    if x == [] {
      assert x + y == y;
    } else {
      assert (x + y)[0] == x[0];
      assert (x + y)[1..] == x[1..] + y;
      TokensAtSplit(ts, pos + 1, x[1..], y);
    }
  }

  /** The number of nodes of a tree, which is the length of its reading. */
  function Size(t: Ast): nat
    decreases t
  {
    LeftSize(t) + 1 + (if t.right.Some? then Size(t.right.value) else 0)
  }

  function LeftSize(t: Ast): nat
    decreases t, 0
  {
    if t.left.Some? then Size(t.left.value) else 0
  }

  /**
    The tokens of `t` sit in `ts` from position `pos` on, node by node: the
    left subtree, then the node's own token, then the right subtree.
   */
  predicate Spells(ts: seq<Token>, pos: nat, t: Ast)
    decreases t
  {
    && pos + Size(t) <= |ts|
    && (t.left.Some? ==> Spells(ts, pos, t.left.value))
    && ts[pos + LeftSize(t)] == TokenOf(t.key)
    && (t.right.Some? ==> Spells(ts, pos + LeftSize(t) + 1, t.right.value))
  }

  lemma {:induction false} UnparseSize(t: Ast)
    ensures |Unparse(t)| == Size(t)
    decreases t
  {
    if t.left.Some? {
      UnparseSize(t.left.value);
    }
    if t.right.Some? {
      UnparseSize(t.right.value);
    }
  }

  function LeftTokens(t: Ast): seq<Token>
  {
    if t.left.Some? then Unparse(t.left.value) else []
  }

  function RightTokens(t: Ast): seq<Token>
  {
    if t.right.Some? then Unparse(t.right.value) else []
  }

  /** The reading of a node sits in `ts` when each of its three parts does. */
  lemma TokensAtNode(ts: seq<Token>, pos: nat, t: Ast)
    ensures var n := |LeftTokens(t)|;
      TokensAt(ts, pos, Unparse(t)) <==>
        && TokensAt(ts, pos, LeftTokens(t))
        && pos + n < |ts| && ts[pos + n] == TokenOf(t.key)
        && TokensAt(ts, pos + n + 1, RightTokens(t))
  {
    var ul, ur := LeftTokens(t), RightTokens(t);
    UnparseParts(t);
    TokensAtSplit(ts, pos, ul, [TokenOf(t.key)] + ur);
    TokensAtCons(ts, pos + |ul|, TokenOf(t.key), ur);
  }

  lemma UnparseParts(t: Ast)
    ensures Unparse(t) == LeftTokens(t) + ([TokenOf(t.key)] + RightTokens(t))
  {
  }

  lemma TokensAtCons(ts: seq<Token>, pos: nat, x: Token, u: seq<Token>)
    ensures TokensAt(ts, pos, [x] + u) <==> pos < |ts| && ts[pos] == x && TokensAt(ts, pos + 1, u)
  {
    assert ([x] + u)[0] == x;
    assert ([x] + u)[1..] == u;
  }

  /** `Spells` says the same as `TokensAt` of the reading of the tree. */
  lemma {:induction false} SpellsTokensAt(ts: seq<Token>, pos: nat, t: Ast)
    ensures Spells(ts, pos, t) <==> TokensAt(ts, pos, Unparse(t))
    decreases t
  {
    if t.left.Some? {
      SpellsTokensAt(ts, pos, t.left.value);
      UnparseSize(t.left.value);
    }
    if t.right.Some? {
      SpellsTokensAt(ts, pos + LeftSize(t) + 1, t.right.value);
    }
    UnparseSize(t);
    TokensAtNode(ts, pos, t);
  }

  /** `Spells` says that the reading of the tree sits in `ts` at `pos`, as a slice. */
  lemma SpellsSlice(ts: seq<Token>, pos: nat, t: Ast)
    ensures |Unparse(t)| == Size(t)
    ensures Spells(ts, pos, t) <==> pos + Size(t) <= |ts| && ts[pos..pos + Size(t)] == Unparse(t)
  {
    UnparseSize(t);
    SpellsTokensAt(ts, pos, t);
    TokensAtSlice(ts, pos, Unparse(t));
  }

  /** A number leaf is read by `primary`. */
  lemma LeafReads(t: Ast, ts: seq<Token>, pos: nat)
    requires IsLeaf(t) && Spells(ts, pos, t)
    ensures Size(t) == 1
    ensures ParsePrimary(ts, pos) == (Some(t), pos + 1)
  {
    assert ts[pos] == Token(TokenKind.Num, t.key.value);
  }

  /** The parser reads a well-shaped complete product back from its tokens. */
  lemma {:induction false} MulReadsUnparse(t: Ast, ts: seq<Token>, pos: nat)
    requires TermShape(t) && Complete(t) && Spells(ts, pos, t)
    ensures ParseMul(ts, pos) == MulLoop(ts, pos + Size(t), t)
    decreases t
  {
    if IsLeaf(t) {
      LeafReads(t, ts, pos);
    } else {
      ProductParts(t, ts, pos);
      MulReadsUnparse(t.left.value, ts, pos);
    }
  }

  /**
    In the tokens of a product node, the loop of `mul` entered after the
    left operand reads the operator and the right number.
   */
  lemma ProductParts(t: Ast, ts: seq<Token>, pos: nat)
    requires TermShape(t) && !IsLeaf(t) && Complete(t) && Spells(ts, pos, t)
    ensures t.left.Some? && TermShape(t.left.value) && Complete(t.left.value)
    ensures Spells(ts, pos, t.left.value)
    ensures pos + Size(t.left.value) <= |ts|
    ensures MulLoop(ts, pos + Size(t.left.value), t.left.value) == MulLoop(ts, pos + Size(t), t)
  {
    var l, r := t.left.value, t.right.value;
    var p := pos + Size(l);
    LeafReads(r, ts, p + 1);
    assert p + 2 == pos + Size(t);
    ProductNodeStep(ts, p, t.key, l, r);
    assert Node(t.key, Some(l), Some(r)) == t;
  }

  /** One turn of the loop of `mul`, building the node of key `k`. */
  lemma ProductNodeStep(ts: seq<Token>, p: nat, k: AstNode, acc: Ast, right: Ast)
    requires p + 1 < |ts| && ts[p] == TokenOf(k) && IsMulKey(k)
    requires ParsePrimary(ts, p + 1) == (Some(right), p + 2)
    ensures MulLoop(ts, p, acc) == MulLoop(ts, p + 2, Node(k, Some(acc), Some(right)))
  {
    assert AstNode(if k.value == "*" then Mul else Div, k.value) == k;
  }

  /** `mul` stops in front of a token that is not `*` or `/`. */
  lemma MulLoopStops(ts: seq<Token>, q: nat, acc: Ast)
    requires q <= |ts|
    requires q == |ts| || !IsMulOp(ts[q].value)
    ensures MulLoop(ts, q, acc) == (Some(acc), q)
  {
  }

  /** `expr` stops in front of a token that is not `+` or `-`. */
  lemma ExprLoopStops(ts: seq<Token>, q: nat, acc: Ast)
    requires q <= |ts|
    requires q == |ts| || !IsAddOp(ts[q].value)
    ensures ExprLoop(ts, q, acc) == (Some(acc), q)
  {
  }

  /** `mul` reads a well-shaped complete product followed by a non-`*`/`/` token. */
  lemma MulReads(t: Ast, ts: seq<Token>, pos: nat, q: nat)
    requires TermShape(t) && Complete(t) && Spells(ts, pos, t)
    requires q == pos + Size(t) && (q == |ts| || !IsMulOp(ts[q].value))
    ensures ParseMul(ts, pos) == (Some(t), q)
  {
    MulReadsUnparse(t, ts, pos);
    MulLoopStops(ts, q, t);
  }

  /** The parser reads a well-shaped complete sum back from its tokens. */
  lemma {:induction false} ExprReadsUnparse(t: Ast, ts: seq<Token>, pos: nat)
    requires ExprShape(t) && Complete(t) && Spells(ts, pos, t)
    requires pos + Size(t) == |ts| || !IsMulOp(ts[pos + Size(t)].value)
    ensures ParseExpr(ts, pos) == ExprLoop(ts, pos + Size(t), t)
    decreases t
  {
    if TermShape(t) {
      MulReads(t, ts, pos, pos + Size(t));
      ExprAfterMul(ts, pos, t, pos + Size(t));
    } else {
      SumParts(t, ts, pos);
      ExprReadsUnparse(t.left.value, ts, pos);
    }
  }

  lemma ExprAfterMul(ts: seq<Token>, pos: nat, m: Ast, q: nat)
    requires pos <= |ts| && ParseMul(ts, pos) == (Some(m), q)
    ensures q <= |ts|
    ensures ParseExpr(ts, pos) == ExprLoop(ts, q, m)
  {
  }

  /**
    In the tokens of a sum node, the left operand is again a well-shaped
    complete sum, followed by the operator, which is not `*` or `/`; the
    loop of `expr` entered after it reads the operator and right operand.
   */
  lemma SumParts(t: Ast, ts: seq<Token>, pos: nat)
    requires ExprShape(t) && !TermShape(t) && Complete(t) && Spells(ts, pos, t)
    requires pos + Size(t) == |ts| || !IsMulOp(ts[pos + Size(t)].value)
    ensures t.left.Some? && ExprShape(t.left.value) && Complete(t.left.value)
    ensures Spells(ts, pos, t.left.value)
    ensures var p := pos + Size(t.left.value); p < |ts| && !IsMulOp(ts[p].value)
    ensures ExprLoop(ts, pos + Size(t.left.value), t.left.value) == ExprLoop(ts, pos + Size(t), t)
  {
    var l, r := t.left.value, t.right.value;
    var p := pos + Size(l);
    assert p + 1 + Size(r) == pos + Size(t);
    MulReads(r, ts, p + 1, pos + Size(t));
    SumNodeStep(ts, p, t.key, l, r, pos + Size(t));
    assert Node(t.key, Some(l), Some(r)) == t;
  }

  /** One turn of the loop of `expr`, building the node of key `k`. */
  lemma SumNodeStep(ts: seq<Token>, p: nat, k: AstNode, acc: Ast, right: Ast, q: nat)
    requires p < |ts| && ts[p] == TokenOf(k) && IsAddKey(k)
    requires ParseMul(ts, p + 1) == (Some(right), q)
    ensures !IsMulOp(ts[p].value)
    ensures ExprLoop(ts, p, acc) == ExprLoop(ts, q, Node(k, Some(acc), Some(right)))
  {
    assert AstNode(if k.value == "+" then Add else Sub, k.value) == k;
  }

  /**
    Completeness of the parser for the grammar: the tokens of any
    well-shaped complete tree, followed by end of input or a non-operator,
    parse back to exactly that tree, consuming exactly its tokens.  So
    `a - b - c` reads as `(a - b) - c` and `a + b * c` as `a + (b * c)`.
   */
  lemma ParseExprUnparse(t: Ast, ts: seq<Token>, pos: nat, q: nat)
    requires ExprShape(t) && Complete(t)
    requires pos <= q <= |ts| && ts[pos..q] == Unparse(t)
    requires Stops(ts, q)
    ensures ParseExpr(ts, pos) == (Some(t), q)
  {
    SpellsSlice(ts, pos, t);
    ExprReads(t, ts, pos, q);
  }

  /** `expr` reads a well-shaped complete sum followed by a non-operator. */
  lemma ExprReads(t: Ast, ts: seq<Token>, pos: nat, q: nat)
    requires ExprShape(t) && Complete(t) && Spells(ts, pos, t)
    requires q == pos + Size(t) && Stops(ts, q)
    ensures ParseExpr(ts, pos) == (Some(t), q)
  {
    ExprReadsUnparse(t, ts, pos);
    ExprLoopStops(ts, q, t);
  }

  lemma SliceJoin(ts: seq<Token>, a: nat, b: nat, c: nat)
    requires a <= b <= c <= |ts|
    ensures ts[a..b] + ts[b..c] == ts[a..c]
  {
  }

  /** The in-order reading of an operator node with both operands. */
  lemma UnparseNode(key: AstNode, l: Ast, r: Ast, token: Token)
    requires token == TokenOf(key)
    ensures Unparse(Node(key, Some(l), Some(r))) == Unparse(l) + [token] + Unparse(r)
  {
  }

  /** A number token reads back from its leaf. */
  lemma UnparseLeaf(ts: seq<Token>, p: nat)
    requires p < |ts| && ts[p].kind == TokenKind.Num
    ensures Unparse(Leaf(ts[p].value)) == ts[p..p + 1]
  {
    assert Unparse(Leaf(ts[p].value)) == [TokenOf(AstNode(NodeKind.Num, ts[p].value))];
  }

  /**
    The reading of a node whose operator sits at `q0` and whose right operand
    spells `ts[q0 + 1..q1]`, followed by `ts[q1..q]`, is the reading of its
    left operand followed by `ts[q0..q]`.
   */
  lemma UnparseGlue(
    ts: seq<Token>, acc: Ast, key: AstNode, right: Ast, q0: nat, q1: nat, q: nat, u: seq<Token>)
    requires q0 < q1 <= q <= |ts| && ts[q0] == TokenOf(key)
    requires Unparse(right) == ts[q0 + 1..q1]
    requires u == Unparse(Node(key, Some(acc), Some(right))) + ts[q1..q]
    ensures u == Unparse(acc) + ts[q0..q]
  {
    UnparseNode(key, acc, right, ts[q0]);
    Glue(ts, Unparse(acc), q0, q1, q);
  }

  lemma Glue(ts: seq<Token>, a: seq<Token>, q0: nat, q1: nat, q: nat)
    requires q0 < q1 <= q <= |ts|
    ensures a + [ts[q0]] + ts[q0 + 1..q1] + ts[q1..q] == a + ts[q0..q]
  {
    assert [ts[q0]] + ts[q0 + 1..q1] + ts[q1..q] == ts[q0..q];
  }

  /**
    One turn of the `mul` loop at a `*` or `/`: the operator becomes a node
    over the product so far.  Its right child is the next `primary`, missing
    exactly when no number token follows, and the loop resumes after the
    token `primary` consumed, even when that token was no number.
   */
  lemma MulLoopStep(ts: seq<Token>, pos: nat, node: Ast)
    requires pos < |ts| && IsMulOp(ts[pos].value)
    ensures var (right, q) := ParsePrimary(ts, pos + 1);
      var key := AstNode(if ts[pos].value == "*" then Mul else Div, ts[pos].value);
      && MulLoop(ts, pos, node) == MulLoop(ts, q, Node(key, Some(node), right))
      && (right.None? <==> pos + 1 == |ts| || ts[pos + 1].kind != TokenKind.Num)
      && q == (if pos + 1 < |ts| then pos + 2 else pos + 1)
  {
  }

  /**
    One turn of the `expr` loop at a `+` or `-`: the operator becomes a node
    over the sum so far.  Its right child is the next `mul`, missing exactly
    when no number token follows, and the loop resumes where `mul` stopped.
   */
  lemma ExprLoopStep(ts: seq<Token>, pos: nat, node: Ast)
    requires pos < |ts| && IsAddOp(ts[pos].value)
    ensures var (right, q) := ParseMul(ts, pos + 1);
      var key := AstNode(if ts[pos].value == "+" then Add else Sub, ts[pos].value);
      && ExprLoop(ts, pos, node) == ExprLoop(ts, q, Node(key, Some(node), right))
      && (right.None? <==> pos + 1 == |ts| || ts[pos + 1].kind != TokenKind.Num)
      && pos + 1 <= q
  {
  }

  lemma {:induction false} MulLoopSound(ts: seq<Token>, q0: nat, acc: Ast)
    requires q0 <= |ts| && OperatorsArePunct(ts)
    requires Complete(MulLoop(ts, q0, acc).0.value)
    ensures var (r, q) := MulLoop(ts, q0, acc);
      Complete(acc) && Unparse(r.value) == Unparse(acc) + ts[q0..q]
    decreases |ts| - q0
  {
    if q0 < |ts| && IsMulOp(ts[q0].value) {
      var token := ts[q0];
      var key := AstNode(if token.value == "*" then Mul else Div, token.value);
      var (right, q1) := ParsePrimary(ts, q0 + 1);
      MulLoopStep(ts, q0, acc);
      var bt := Node(key, Some(acc), right);
      MulLoopSound(ts, q1, bt);
      var q := MulLoop(ts, q0, acc).1;
      assert right.Some?;
      UnparseLeaf(ts, q0 + 1);
      UnparseNode(key, acc, right.value, token);
      Glue(ts, Unparse(acc), q0, q1, q);
    } else {
      assert ts[q0..q0] == [];
    }
  }

  lemma {:induction false} ExprLoopSound(ts: seq<Token>, q0: nat, acc: Ast)
    requires q0 <= |ts| && OperatorsArePunct(ts)
    requires Complete(ExprLoop(ts, q0, acc).0.value)
    requires q0 == |ts| || !IsMulOp(ts[q0].value)
    ensures var (r, q) := ExprLoop(ts, q0, acc);
      && Complete(acc)
      && Unparse(r.value) == Unparse(acc) + ts[q0..q]
      && Stops(ts, q)
    decreases |ts| - q0
  {
    if q0 < |ts| && IsAddOp(ts[q0].value) {
      var token := ts[q0];
      var key := AstNode(if token.value == "+" then Add else Sub, token.value);
      var (right, q1) := ParseMul(ts, q0 + 1);
      ExprLoopStep(ts, q0, acc);
      var bt := Node(key, Some(acc), right);
      assert ExprLoop(ts, q0, acc) == ExprLoop(ts, q1, bt);
      assert q1 == |ts| || !IsMulOp(ts[q1].value) by { ParseMulShape(ts, q0 + 1); }
      ExprLoopSound(ts, q1, bt);
      var (r, q) := ExprLoop(ts, q1, bt);
      assert right.Some?;
      ParseMulSound(ts, q0 + 1);
      ExprLoopSoundStep(ts, q0, acc, right.value, q1, r.value, q);
    } else {
      assert ts[q0..q0] == [];
    }
  }

  /** The step of `ExprLoopSound` at a `+` or `-`, given its fact for the rest of the loop. */
  lemma ExprLoopSoundStep(ts: seq<Token>, q0: nat, acc: Ast, right: Ast, q1: nat, r: Ast, q: nat)
    requires q0 < q1 <= q <= |ts| && ts[q0].kind == Punck && IsAddOp(ts[q0].value)
    requires Unparse(right) == ts[q0 + 1..q1]
    requires var key := AstNode(if ts[q0].value == "+" then Add else Sub, ts[q0].value);
      && Complete(Node(key, Some(acc), Some(right)))
      && Unparse(r) == Unparse(Node(key, Some(acc), Some(right))) + ts[q1..q]
    ensures Complete(acc) && Unparse(r) == Unparse(acc) + ts[q0..q]
  {
    var key := AstNode(if ts[q0].value == "+" then Add else Sub, ts[q0].value);
    assert ts[q0] == TokenOf(key);
    UnparseGlue(ts, acc, key, right, q0, q1, q, Unparse(r));
  }

  lemma ParseMulSound(ts: seq<Token>, pos: nat)
    requires pos <= |ts| && OperatorsArePunct(ts)
    requires ParseMul(ts, pos).0.Some? && Complete(ParseMul(ts, pos).0.value)
    ensures var (r, q) := ParseMul(ts, pos); Unparse(r.value) == ts[pos..q]
  {
    var (first, q0) := ParsePrimary(ts, pos);
    MulLoopSound(ts, q0, first.value);
    UnparseLeaf(ts, pos);
    var q := ParseMul(ts, pos).1;
    SliceJoin(ts, pos, q0, q);
  }

  /**
    Soundness of the parser for the grammar: a complete tree returned by
    `expr` is well-shaped, is exactly the in-order reading of the tokens it
    consumed, and stops at the end of input or at a non-operator token.
   */
  lemma ParseExprSound(ts: seq<Token>, pos: nat)
    requires pos <= |ts| && OperatorsArePunct(ts)
    requires ParseExpr(ts, pos).0.Some? && Complete(ParseExpr(ts, pos).0.value)
    ensures var (r, q) := ParseExpr(ts, pos);
      ExprShape(r.value) && ts[pos..q] == Unparse(r.value) && Stops(ts, q)
  {
    var (first, q0) := ParseMul(ts, pos);
    ParseMulShape(ts, pos);
    ExprLoopSound(ts, q0, first.value);
    ParseMulSound(ts, pos);
    ParseExprShape(ts, pos);
    var q := ParseExpr(ts, pos).1;
    SliceJoin(ts, pos, q0, q);
  }

  /** The scanner's tokens satisfy what the parser lemmas assume of their input. */
  lemma WellFormedTokens(ts: seq<Token>)
    requires forall t :: t in ts ==> WellFormed(t)
    ensures OperatorsArePunct(ts)
    ensures NumTokensNumeral(ts)
  {
    forall i | 0 <= i < |ts| && (IsAddOp(ts[i].value) || IsMulOp(ts[i].value))
      ensures ts[i].kind == Punck
    {
      assert WellFormed(ts[i]);
      assert Classify(ts[i].value[0]) == ts[i].kind;
    }
    forall i | 0 <= i < |ts| && ts[i].kind == TokenKind.Num
      ensures IsNumeral(ts[i].value)
    {
      assert WellFormed(ts[i]);
    }
  }
}
