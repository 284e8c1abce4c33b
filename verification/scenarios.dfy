/**
  Worked examples: the expressions of the repository's tests
  (src/main.rs:421-478) and a few more that pin down precedence, grouping,
  division, literals with a leading zero and the quirks of the lexer and
  parser, each followed through the compiler to the value the written
  program leaves in `a0`.
 */
module Scenarios {
  import opened Wrappers
  import opened Numbers
  import opened BinaryTree
  import opened Lexer
  import opened Ast
  import opened Parser
  import opened Codegen
  import opened Compiler
  import Asm

  function N(v: string): Token { Token(TokenKind.Num, v) }

  function P(v: string): Token { Token(Punck, v) }

  function Op(kind: NodeKind, v: string, l: Ast, r: Ast): Ast
  {
    Node(AstNode(kind, v), Some(l), Some(r))
  }

  /** One turn of the scanner loop. */
  lemma ScanStep(s: string, i: nat, count: int, sc: Scanner, sc': Scanner)
    requires i < |s| && Step(sc, i, s[i], count) == sc'
    ensures Scan(s, i, count, sc) == Scan(s, i + 1, count, sc')
  {
  }

  /** A parse into a complete tree compiles to a program returning its value. */
  lemma Compiles(s: string, t: Ast, st: Asm.State)
    requires |s| > 0 && Parse(s) == Some(t) && Complete(t) && PlainLeaves(t)
    ensures Outcome(s, st) == Some(Eval(t))
  {
    MainBodyWrites(s);
    CompiledProgramComputes(s, st);
  }

  lemma ScanOne(s: string)
    requires s == "1"
    ensures var before := Scanner(TokenKind.Ignore, "", []);
      var after := Scanner(TokenKind.Num, "1", [N("1")]);
      Scan(s, 0, 0, before) == Scan(s, 1, 0, after)
  {
    var sc0 := Scanner(TokenKind.Ignore, "", []);
    var sc1 := Scanner(TokenKind.Num, "1", [N("1")]);
    ScanStep(s, 0, 0, sc0, sc1);
  }

  /** The tokens of "1". */
  lemma TokensOne(s: string)
    requires s == "1"
    ensures Tokenize(s) == [N("1")]
  {
    assert Utf8Len(s) == 1;
    ScanOne(s);
  }

  /** The tree of "1". */
  lemma TreeOne()
    ensures var ts := [N("1")];
      var t := Leaf("1");
      ParseExpr(ts, 0).0 == Some(t)
  {
  }

  /** The value of that tree; its literals have no leading zero. */
  lemma ValueOne()
    ensures var t := Leaf("1");
      Eval(t) == 1 && PlainLeaves(t)
  {
    assert Decimal("1") == 1;
  }

  /** A lone number. */
  lemma CompileOne(s: string, st: Asm.State)
    requires s == "1"
    ensures Parse(s) == Some(Leaf("1"))
    ensures Outcome(s, st) == Some(1)
  {
    TokensOne(s);
    TreeOne();
    ValueOne();
    Compiles(s, Leaf("1"), st);
  }

  lemma ScanOneTwoThree(s: string)
    requires s == "123"
    ensures var before := Scanner(TokenKind.Ignore, "", []);
      var after := Scanner(TokenKind.Num, "123", [N("123")]);
      Scan(s, 0, 2, before) == Scan(s, 3, 2, after)
  {
    var sc0 := Scanner(TokenKind.Ignore, "", []);
    var sc1 := Scanner(TokenKind.Num, "1", []);
    var sc2 := Scanner(TokenKind.Num, "12", []);
    var sc3 := Scanner(TokenKind.Num, "123", [N("123")]);
    ScanStep(s, 2, 2, sc2, sc3);
    ScanStep(s, 1, 2, sc1, sc2);
    ScanStep(s, 0, 2, sc0, sc1);
  }

  /** The tokens of "123". */
  lemma TokensOneTwoThree(s: string)
    requires s == "123"
    ensures Tokenize(s) == [N("123")]
  {
    assert Utf8Len(s) == 3;
    ScanOneTwoThree(s);
  }

  /** The tree of "123". */
  lemma TreeOneTwoThree()
    ensures var ts := [N("123")];
      var t := Leaf("123");
      ParseExpr(ts, 0).0 == Some(t)
  {
  }

  /** The value of that tree; its literals have no leading zero. */
  lemma ValueOneTwoThree()
    ensures var t := Leaf("123");
      Eval(t) == 123 && PlainLeaves(t)
  {
    assert Decimal("1") == 1;
    assert Decimal("12") == 12 by { assert "12"[..1] == "1"; }
    assert Decimal("123") == 123 by { assert "123"[..2] == "12"; }
  }

  /** A number of several digits. */
  lemma CompileOneTwoThree(s: string, st: Asm.State)
    requires s == "123"
    ensures Parse(s) == Some(Leaf("123"))
    ensures Outcome(s, st) == Some(123)
  {
    TokensOneTwoThree(s);
    TreeOneTwoThree();
    ValueOneTwoThree();
    Compiles(s, Leaf("123"), st);
  }

  lemma ScanPlusMinus1(s: string)
    requires s == "1-2+3"
    ensures var before := Scanner(TokenKind.Ignore, "", []);
      var after := Scanner(TokenKind.Num, "2", [N("1"), P("-")]);
      Scan(s, 0, 4, before) == Scan(s, 3, 4, after)
  {
    var sc0 := Scanner(TokenKind.Ignore, "", []);
    var sc1 := Scanner(TokenKind.Num, "1", []);
    var sc2 := Scanner(TokenKind.Punck, "-", [N("1")]);
    var sc3 := Scanner(TokenKind.Num, "2", [N("1"), P("-")]);
    ScanStep(s, 2, 4, sc2, sc3);
    ScanStep(s, 1, 4, sc1, sc2);
    ScanStep(s, 0, 4, sc0, sc1);
  }

  lemma ScanPlusMinus2(s: string)
    requires s == "1-2+3"
    ensures var before := Scanner(TokenKind.Num, "2", [N("1"), P("-")]);
      var after := Scanner(TokenKind.Num, "3", [N("1"), P("-"), N("2"), P("+"), N("3")]);
      Scan(s, 3, 4, before) == Scan(s, 5, 4, after)
  {
    var sc3 := Scanner(TokenKind.Num, "2", [N("1"), P("-")]);
    var sc4 := Scanner(TokenKind.Punck, "+", [N("1"), P("-"), N("2")]);
    var sc5 := Scanner(TokenKind.Num, "3", [N("1"), P("-"), N("2"), P("+"), N("3")]);
    ScanStep(s, 4, 4, sc4, sc5);
    ScanStep(s, 3, 4, sc3, sc4);
  }

  /** The tokens of "1-2+3". */
  lemma TokensPlusMinus(s: string)
    requires s == "1-2+3"
    ensures Tokenize(s) == [N("1"), P("-"), N("2"), P("+"), N("3")]
  {
    assert Utf8Len(s) == 5;
    ScanPlusMinus1(s);
    ScanPlusMinus2(s);
  }

  /** The tree of "1-2+3". */
  lemma TreePlusMinus()
    ensures var ts := [N("1"), P("-"), N("2"), P("+"), N("3")];
      var t := Op(Add, "+", Op(Sub, "-", Leaf("1"), Leaf("2")), Leaf("3"));
      ParseExpr(ts, 0).0 == Some(t)
  {
  }

  /** The value of that tree; its literals have no leading zero. */
  lemma ValuePlusMinus()
    ensures var t := Op(Add, "+", Op(Sub, "-", Leaf("1"), Leaf("2")), Leaf("3"));
      Eval(t) == 2 && PlainLeaves(t)
  {
    assert Decimal("1") == 1;
    assert Decimal("2") == 2;
    assert Decimal("3") == 3;
  }

  /** Additive operators group to the left: (1 - 2) + 3. */
  lemma CompilePlusMinus(s: string, st: Asm.State)
    requires s == "1-2+3"
    ensures Parse(s) == Some(Op(Add, "+", Op(Sub, "-", Leaf("1"), Leaf("2")), Leaf("3")))
    ensures Outcome(s, st) == Some(2)
  {
    TokensPlusMinus(s);
    TreePlusMinus();
    ValuePlusMinus();
    Compiles(s, Op(Add, "+", Op(Sub, "-", Leaf("1"), Leaf("2")), Leaf("3")), st);
  }

  lemma ScanPlusMinusWide1(s: string)
    requires s == "112-22+33"
    ensures var before := Scanner(TokenKind.Ignore, "", []);
      var after := Scanner(TokenKind.Num, "112", []);
      Scan(s, 0, 8, before) == Scan(s, 3, 8, after)
  {
    var sc0 := Scanner(TokenKind.Ignore, "", []);
    var sc1 := Scanner(TokenKind.Num, "1", []);
    var sc2 := Scanner(TokenKind.Num, "11", []);
    var sc3 := Scanner(TokenKind.Num, "112", []);
    ScanStep(s, 2, 8, sc2, sc3);
    ScanStep(s, 1, 8, sc1, sc2);
    ScanStep(s, 0, 8, sc0, sc1);
  }

  lemma ScanPlusMinusWide2(s: string)
    requires s == "112-22+33"
    ensures var before := Scanner(TokenKind.Num, "112", []);
      var after := Scanner(TokenKind.Num, "22", [N("112"), P("-")]);
      Scan(s, 3, 8, before) == Scan(s, 6, 8, after)
  {
    var sc3 := Scanner(TokenKind.Num, "112", []);
    var sc4 := Scanner(TokenKind.Punck, "-", [N("112")]);
    var sc5 := Scanner(TokenKind.Num, "2", [N("112"), P("-")]);
    var sc6 := Scanner(TokenKind.Num, "22", [N("112"), P("-")]);
    ScanStep(s, 5, 8, sc5, sc6);
    ScanStep(s, 4, 8, sc4, sc5);
    ScanStep(s, 3, 8, sc3, sc4);
  }

  lemma ScanPlusMinusWide3(s: string)
    requires s == "112-22+33"
    ensures var before := Scanner(TokenKind.Num, "22", [N("112"), P("-")]);
      var after := Scanner(TokenKind.Num, "33", [N("112"), P("-"), N("22"), P("+"), N("33")]);
      Scan(s, 6, 8, before) == Scan(s, 9, 8, after)
  {
    var sc6 := Scanner(TokenKind.Num, "22", [N("112"), P("-")]);
    var sc7 := Scanner(TokenKind.Punck, "+", [N("112"), P("-"), N("22")]);
    var sc8 := Scanner(TokenKind.Num, "3", [N("112"), P("-"), N("22"), P("+")]);
    var sc9 := Scanner(TokenKind.Num, "33", [N("112"), P("-"), N("22"), P("+"), N("33")]);
    ScanStep(s, 8, 8, sc8, sc9);
    ScanStep(s, 7, 8, sc7, sc8);
    ScanStep(s, 6, 8, sc6, sc7);
  }

  /** The tokens of "112-22+33". */
  lemma TokensPlusMinusWide(s: string)
    requires s == "112-22+33"
    ensures Tokenize(s) == [N("112"), P("-"), N("22"), P("+"), N("33")]
  {
    assert Utf8Len(s) == 9;
    ScanPlusMinusWide1(s);
    ScanPlusMinusWide2(s);
    ScanPlusMinusWide3(s);
  }

  /** The tree of "112-22+33". */
  lemma TreePlusMinusWide()
    ensures var ts := [N("112"), P("-"), N("22"), P("+"), N("33")];
      var t := Op(Add, "+", Op(Sub, "-", Leaf("112"), Leaf("22")), Leaf("33"));
      ParseExpr(ts, 0).0 == Some(t)
  {
  }

  /** The value of that tree; its literals have no leading zero. */
  lemma ValuePlusMinusWide()
    ensures var t := Op(Add, "+", Op(Sub, "-", Leaf("112"), Leaf("22")), Leaf("33"));
      Eval(t) == 123 && PlainLeaves(t)
  {
    assert Decimal("1") == 1;
    assert Decimal("11") == 11 by { assert "11"[..1] == "1"; }
    assert Decimal("112") == 112 by { assert "112"[..2] == "11"; }
    assert Decimal("2") == 2;
    assert Decimal("22") == 22 by { assert "22"[..1] == "2"; }
    assert Decimal("3") == 3;
    assert Decimal("33") == 33 by { assert "33"[..1] == "3"; }
  }

  /** Numbers of several digits between operators. */
  lemma CompilePlusMinusWide(s: string, st: Asm.State)
    requires s == "112-22+33"
    ensures Parse(s) == Some(Op(Add, "+", Op(Sub, "-", Leaf("112"), Leaf("22")), Leaf("33")))
    ensures Outcome(s, st) == Some(123)
  {
    TokensPlusMinusWide(s);
    TreePlusMinusWide();
    ValuePlusMinusWide();
    Compiles(s, Op(Add, "+", Op(Sub, "-", Leaf("112"), Leaf("22")), Leaf("33")), st);
  }

  lemma ScanSpaces1(s: string)
    requires s == " 12 + 34 - 5 "
    ensures var before := Scanner(TokenKind.Ignore, "", []);
      var after := Scanner(TokenKind.Num, "12", []);
      Scan(s, 0, 12, before) == Scan(s, 3, 12, after)
  {
    var sc0 := Scanner(TokenKind.Ignore, "", []);
    var sc1 := Scanner(TokenKind.Ignore, "", []);
    var sc2 := Scanner(TokenKind.Num, "1", []);
    var sc3 := Scanner(TokenKind.Num, "12", []);
    ScanStep(s, 2, 12, sc2, sc3);
    ScanStep(s, 1, 12, sc1, sc2);
    ScanStep(s, 0, 12, sc0, sc1);
  }

  lemma ScanSpaces2(s: string)
    requires s == " 12 + 34 - 5 "
    ensures var before := Scanner(TokenKind.Num, "12", []);
      var after := Scanner(TokenKind.Ignore, "", [N("12"), P("+")]);
      Scan(s, 3, 12, before) == Scan(s, 6, 12, after)
  {
    var sc3 := Scanner(TokenKind.Num, "12", []);
    var sc4 := Scanner(TokenKind.Ignore, "", [N("12")]);
    var sc5 := Scanner(TokenKind.Punck, "+", [N("12")]);
    var sc6 := Scanner(TokenKind.Ignore, "", [N("12"), P("+")]);
    ScanStep(s, 5, 12, sc5, sc6);
    ScanStep(s, 4, 12, sc4, sc5);
    ScanStep(s, 3, 12, sc3, sc4);
  }

  lemma ScanSpaces3(s: string)
    requires s == " 12 + 34 - 5 "
    ensures var before := Scanner(TokenKind.Ignore, "", [N("12"), P("+")]);
      var after := Scanner(TokenKind.Ignore, "", [N("12"), P("+"), N("34")]);
      Scan(s, 6, 12, before) == Scan(s, 9, 12, after)
  {
    var sc6 := Scanner(TokenKind.Ignore, "", [N("12"), P("+")]);
    var sc7 := Scanner(TokenKind.Num, "3", [N("12"), P("+")]);
    var sc8 := Scanner(TokenKind.Num, "34", [N("12"), P("+")]);
    var sc9 := Scanner(TokenKind.Ignore, "", [N("12"), P("+"), N("34")]);
    ScanStep(s, 8, 12, sc8, sc9);
    ScanStep(s, 7, 12, sc7, sc8);
    ScanStep(s, 6, 12, sc6, sc7);
  }

  lemma ScanSpaces4(s: string)
    requires s == " 12 + 34 - 5 "
    ensures var before := Scanner(TokenKind.Ignore, "", [N("12"), P("+"), N("34")]);
      var after := Scanner(TokenKind.Num, "5", [N("12"), P("+"), N("34"), P("-")]);
      Scan(s, 9, 12, before) == Scan(s, 12, 12, after)
  {
    var sc9 := Scanner(TokenKind.Ignore, "", [N("12"), P("+"), N("34")]);
    var sc10 := Scanner(TokenKind.Punck, "-", [N("12"), P("+"), N("34")]);
    var sc11 := Scanner(TokenKind.Ignore, "", [N("12"), P("+"), N("34"), P("-")]);
    var sc12 := Scanner(TokenKind.Num, "5", [N("12"), P("+"), N("34"), P("-")]);
    ScanStep(s, 11, 12, sc11, sc12);
    ScanStep(s, 10, 12, sc10, sc11);
    ScanStep(s, 9, 12, sc9, sc10);
  }

  lemma ScanSpaces5(s: string)
    requires s == " 12 + 34 - 5 "
    ensures var before := Scanner(TokenKind.Num, "5", [N("12"), P("+"), N("34"), P("-")]);
      var after := Scanner(TokenKind.Ignore, "", [N("12"), P("+"), N("34"), P("-"), N("5")]);
      Scan(s, 12, 12, before) == Scan(s, 13, 12, after)
  {
    var sc12 := Scanner(TokenKind.Num, "5", [N("12"), P("+"), N("34"), P("-")]);
    var sc13 := Scanner(TokenKind.Ignore, "", [N("12"), P("+"), N("34"), P("-"), N("5")]);
    ScanStep(s, 12, 12, sc12, sc13);
  }

  /** The tokens of " 12 + 34 - 5 ". */
  lemma TokensSpaces(s: string)
    requires s == " 12 + 34 - 5 "
    ensures Tokenize(s) == [N("12"), P("+"), N("34"), P("-"), N("5")]
  {
    assert Utf8Len(s) == 13;
    ScanSpaces1(s);
    ScanSpaces2(s);
    ScanSpaces3(s);
    ScanSpaces4(s);
    ScanSpaces5(s);
  }

  /** The tree of " 12 + 34 - 5 ". */
  lemma TreeSpaces()
    ensures var ts := [N("12"), P("+"), N("34"), P("-"), N("5")];
      var t := Op(Sub, "-", Op(Add, "+", Leaf("12"), Leaf("34")), Leaf("5"));
      ParseExpr(ts, 0).0 == Some(t)
  {
  }

  /** The value of that tree; its literals have no leading zero. */
  lemma ValueSpaces()
    ensures var t := Op(Sub, "-", Op(Add, "+", Leaf("12"), Leaf("34")), Leaf("5"));
      Eval(t) == 41 && PlainLeaves(t)
  {
    assert Decimal("1") == 1;
    assert Decimal("12") == 12 by { assert "12"[..1] == "1"; }
    assert Decimal("3") == 3;
    assert Decimal("34") == 34 by { assert "34"[..1] == "3"; }
    assert Decimal("5") == 5;
  }

  /** Spaces only separate tokens. */
  lemma CompileSpaces(s: string, st: Asm.State)
    requires s == " 12 + 34 - 5 "
    ensures Parse(s) == Some(Op(Sub, "-", Op(Add, "+", Leaf("12"), Leaf("34")), Leaf("5")))
    ensures Outcome(s, st) == Some(41)
  {
    TokensSpaces(s);
    TreeSpaces();
    ValueSpaces();
    Compiles(s, Op(Sub, "-", Op(Add, "+", Leaf("12"), Leaf("34")), Leaf("5")), st);
  }

  lemma ScanMulBindsTighter1(s: string)
    requires s == "2+3*4"
    ensures var before := Scanner(TokenKind.Ignore, "", []);
      var after := Scanner(TokenKind.Num, "3", [N("2"), P("+")]);
      Scan(s, 0, 4, before) == Scan(s, 3, 4, after)
  {
    var sc0 := Scanner(TokenKind.Ignore, "", []);
    var sc1 := Scanner(TokenKind.Num, "2", []);
    var sc2 := Scanner(TokenKind.Punck, "+", [N("2")]);
    var sc3 := Scanner(TokenKind.Num, "3", [N("2"), P("+")]);
    ScanStep(s, 2, 4, sc2, sc3);
    ScanStep(s, 1, 4, sc1, sc2);
    ScanStep(s, 0, 4, sc0, sc1);
  }

  lemma ScanMulBindsTighter2(s: string)
    requires s == "2+3*4"
    ensures var before := Scanner(TokenKind.Num, "3", [N("2"), P("+")]);
      var after := Scanner(TokenKind.Num, "4", [N("2"), P("+"), N("3"), P("*"), N("4")]);
      Scan(s, 3, 4, before) == Scan(s, 5, 4, after)
  {
    var sc3 := Scanner(TokenKind.Num, "3", [N("2"), P("+")]);
    var sc4 := Scanner(TokenKind.Punck, "*", [N("2"), P("+"), N("3")]);
    var sc5 := Scanner(TokenKind.Num, "4", [N("2"), P("+"), N("3"), P("*"), N("4")]);
    ScanStep(s, 4, 4, sc4, sc5);
    ScanStep(s, 3, 4, sc3, sc4);
  }

  /** The tokens of "2+3*4". */
  lemma TokensMulBindsTighter(s: string)
    requires s == "2+3*4"
    ensures Tokenize(s) == [N("2"), P("+"), N("3"), P("*"), N("4")]
  {
    assert Utf8Len(s) == 5;
    ScanMulBindsTighter1(s);
    ScanMulBindsTighter2(s);
  }

  /** The tree of "2+3*4". */
  lemma TreeMulBindsTighter()
    ensures var ts := [N("2"), P("+"), N("3"), P("*"), N("4")];
      var t := Op(Add, "+", Leaf("2"), Op(Mul, "*", Leaf("3"), Leaf("4")));
      ParseExpr(ts, 0).0 == Some(t)
  {
    var ts := [N("2"), P("+"), N("3"), P("*"), N("4")];
    var product := Op(Mul, "*", Leaf("3"), Leaf("4"));
    var t := Op(Add, "+", Leaf("2"), product);
    assert Unparse(product) == ts[2..5];
    assert Unparse(t) == ts[..2] + ts[2..5];
    assert ts[0..5] == Unparse(t);
    assert ExprShape(t) by {
      assert TermShape(product);
    }
    ParseExprUnparse(t, ts, 0, 5);
  }

  /** The value of that tree; its literals have no leading zero. */
  lemma ValueMulBindsTighter()
    ensures var t := Op(Add, "+", Leaf("2"), Op(Mul, "*", Leaf("3"), Leaf("4")));
      Eval(t) == 14 && PlainLeaves(t)
  {
    assert Decimal("2") == 2;
    assert Decimal("3") == 3;
    assert Decimal("4") == 4;
  }

  /** A product is an operand of a sum: 2 + (3 * 4). */
  lemma CompileMulBindsTighter(s: string, st: Asm.State)
    requires s == "2+3*4"
    ensures Parse(s) == Some(Op(Add, "+", Leaf("2"), Op(Mul, "*", Leaf("3"), Leaf("4"))))
    ensures Outcome(s, st) == Some(14)
  {
    TokensMulBindsTighter(s);
    TreeMulBindsTighter();
    ValueMulBindsTighter();
    Compiles(s, Op(Add, "+", Leaf("2"), Op(Mul, "*", Leaf("3"), Leaf("4"))), st);
  }

  lemma ScanMulFirst1(s: string)
    requires s == "2*3+4"
    ensures var before := Scanner(TokenKind.Ignore, "", []);
      var after := Scanner(TokenKind.Num, "3", [N("2"), P("*")]);
      Scan(s, 0, 4, before) == Scan(s, 3, 4, after)
  {
    var sc0 := Scanner(TokenKind.Ignore, "", []);
    var sc1 := Scanner(TokenKind.Num, "2", []);
    var sc2 := Scanner(TokenKind.Punck, "*", [N("2")]);
    var sc3 := Scanner(TokenKind.Num, "3", [N("2"), P("*")]);
    ScanStep(s, 2, 4, sc2, sc3);
    ScanStep(s, 1, 4, sc1, sc2);
    ScanStep(s, 0, 4, sc0, sc1);
  }

  lemma ScanMulFirst2(s: string)
    requires s == "2*3+4"
    ensures var before := Scanner(TokenKind.Num, "3", [N("2"), P("*")]);
      var after := Scanner(TokenKind.Num, "4", [N("2"), P("*"), N("3"), P("+"), N("4")]);
      Scan(s, 3, 4, before) == Scan(s, 5, 4, after)
  {
    var sc3 := Scanner(TokenKind.Num, "3", [N("2"), P("*")]);
    var sc4 := Scanner(TokenKind.Punck, "+", [N("2"), P("*"), N("3")]);
    var sc5 := Scanner(TokenKind.Num, "4", [N("2"), P("*"), N("3"), P("+"), N("4")]);
    ScanStep(s, 4, 4, sc4, sc5);
    ScanStep(s, 3, 4, sc3, sc4);
  }

  /** The tokens of "2*3+4". */
  lemma TokensMulFirst(s: string)
    requires s == "2*3+4"
    ensures Tokenize(s) == [N("2"), P("*"), N("3"), P("+"), N("4")]
  {
    assert Utf8Len(s) == 5;
    ScanMulFirst1(s);
    ScanMulFirst2(s);
  }

  /** The tree of "2*3+4". */
  lemma TreeMulFirst()
    ensures var ts := [N("2"), P("*"), N("3"), P("+"), N("4")];
      var t := Op(Add, "+", Op(Mul, "*", Leaf("2"), Leaf("3")), Leaf("4"));
      ParseExpr(ts, 0).0 == Some(t)
  {
  }

  /** The value of that tree; its literals have no leading zero. */
  lemma ValueMulFirst()
    ensures var t := Op(Add, "+", Op(Mul, "*", Leaf("2"), Leaf("3")), Leaf("4"));
      Eval(t) == 10 && PlainLeaves(t)
  {
    assert Decimal("2") == 2;
    assert Decimal("3") == 3;
    assert Decimal("4") == 4;
  }

  /** A product on the left of a sum: (2 * 3) + 4. */
  lemma CompileMulFirst(s: string, st: Asm.State)
    requires s == "2*3+4"
    ensures Parse(s) == Some(Op(Add, "+", Op(Mul, "*", Leaf("2"), Leaf("3")), Leaf("4")))
    ensures Outcome(s, st) == Some(10)
  {
    TokensMulFirst(s);
    TreeMulFirst();
    ValueMulFirst();
    Compiles(s, Op(Add, "+", Op(Mul, "*", Leaf("2"), Leaf("3")), Leaf("4")), st);
  }

  lemma ScanDivLeft1(s: string)
    requires s == "8/2/2"
    ensures var before := Scanner(TokenKind.Ignore, "", []);
      var after := Scanner(TokenKind.Num, "2", [N("8"), P("/")]);
      Scan(s, 0, 4, before) == Scan(s, 3, 4, after)
  {
    var sc0 := Scanner(TokenKind.Ignore, "", []);
    var sc1 := Scanner(TokenKind.Num, "8", []);
    var sc2 := Scanner(TokenKind.Punck, "/", [N("8")]);
    var sc3 := Scanner(TokenKind.Num, "2", [N("8"), P("/")]);
    ScanStep(s, 2, 4, sc2, sc3);
    ScanStep(s, 1, 4, sc1, sc2);
    ScanStep(s, 0, 4, sc0, sc1);
  }

  lemma ScanDivLeft2(s: string)
    requires s == "8/2/2"
    ensures var before := Scanner(TokenKind.Num, "2", [N("8"), P("/")]);
      var after := Scanner(TokenKind.Num, "2", [N("8"), P("/"), N("2"), P("/"), N("2")]);
      Scan(s, 3, 4, before) == Scan(s, 5, 4, after)
  {
    var sc3 := Scanner(TokenKind.Num, "2", [N("8"), P("/")]);
    var sc4 := Scanner(TokenKind.Punck, "/", [N("8"), P("/"), N("2")]);
    var sc5 := Scanner(TokenKind.Num, "2", [N("8"), P("/"), N("2"), P("/"), N("2")]);
    ScanStep(s, 4, 4, sc4, sc5);
    ScanStep(s, 3, 4, sc3, sc4);
  }

  /** The tokens of "8/2/2". */
  lemma TokensDivLeft(s: string)
    requires s == "8/2/2"
    ensures Tokenize(s) == [N("8"), P("/"), N("2"), P("/"), N("2")]
  {
    assert Utf8Len(s) == 5;
    ScanDivLeft1(s);
    ScanDivLeft2(s);
  }

  /** The tree of "8/2/2". */
  lemma TreeDivLeft()
    ensures var ts := [N("8"), P("/"), N("2"), P("/"), N("2")];
      var t := Op(Div, "/", Op(Div, "/", Leaf("8"), Leaf("2")), Leaf("2"));
      ParseExpr(ts, 0).0 == Some(t)
  {
  }

  /** The value of that tree; its literals have no leading zero. */
  lemma ValueDivLeft()
    ensures var t := Op(Div, "/", Op(Div, "/", Leaf("8"), Leaf("2")), Leaf("2"));
      Eval(t) == 2 && PlainLeaves(t)
  {
    assert Decimal("8") == 8;
    assert Decimal("2") == 2;
  }

  /** Multiplicative operators group to the left too: (8 / 2) / 2. */
  lemma CompileDivLeft(s: string, st: Asm.State)
    requires s == "8/2/2"
    ensures Parse(s) == Some(Op(Div, "/", Op(Div, "/", Leaf("8"), Leaf("2")), Leaf("2")))
    ensures Outcome(s, st) == Some(2)
  {
    TokensDivLeft(s);
    TreeDivLeft();
    ValueDivLeft();
    Compiles(s, Op(Div, "/", Op(Div, "/", Leaf("8"), Leaf("2")), Leaf("2")), st);
  }

  lemma ScanDivTruncates(s: string)
    requires s == "7/2"
    ensures var before := Scanner(TokenKind.Ignore, "", []);
      var after := Scanner(TokenKind.Num, "2", [N("7"), P("/"), N("2")]);
      Scan(s, 0, 2, before) == Scan(s, 3, 2, after)
  {
    var sc0 := Scanner(TokenKind.Ignore, "", []);
    var sc1 := Scanner(TokenKind.Num, "7", []);
    var sc2 := Scanner(TokenKind.Punck, "/", [N("7")]);
    var sc3 := Scanner(TokenKind.Num, "2", [N("7"), P("/"), N("2")]);
    ScanStep(s, 2, 2, sc2, sc3);
    ScanStep(s, 1, 2, sc1, sc2);
    ScanStep(s, 0, 2, sc0, sc1);
  }

  /** The tokens of "7/2". */
  lemma TokensDivTruncates(s: string)
    requires s == "7/2"
    ensures Tokenize(s) == [N("7"), P("/"), N("2")]
  {
    assert Utf8Len(s) == 3;
    ScanDivTruncates(s);
  }

  /** The tree of "7/2". */
  lemma TreeDivTruncates()
    ensures var ts := [N("7"), P("/"), N("2")];
      var t := Op(Div, "/", Leaf("7"), Leaf("2"));
      ParseExpr(ts, 0).0 == Some(t)
  {
  }

  /** The value of that tree; its literals have no leading zero. */
  lemma ValueDivTruncates()
    ensures var t := Op(Div, "/", Leaf("7"), Leaf("2"));
      Eval(t) == 3 && PlainLeaves(t)
  {
    assert Decimal("7") == 7;
    assert Decimal("2") == 2;
  }

  /** Division truncates. */
  lemma CompileDivTruncates(s: string, st: Asm.State)
    requires s == "7/2"
    ensures Parse(s) == Some(Op(Div, "/", Leaf("7"), Leaf("2")))
    ensures Outcome(s, st) == Some(3)
  {
    TokensDivTruncates(s);
    TreeDivTruncates();
    ValueDivTruncates();
    Compiles(s, Op(Div, "/", Leaf("7"), Leaf("2")), st);
  }

  lemma ScanDivByZero(s: string)
    requires s == "1/0"
    ensures var before := Scanner(TokenKind.Ignore, "", []);
      var after := Scanner(TokenKind.Num, "0", [N("1"), P("/"), N("0")]);
      Scan(s, 0, 2, before) == Scan(s, 3, 2, after)
  {
    var sc0 := Scanner(TokenKind.Ignore, "", []);
    var sc1 := Scanner(TokenKind.Num, "1", []);
    var sc2 := Scanner(TokenKind.Punck, "/", [N("1")]);
    var sc3 := Scanner(TokenKind.Num, "0", [N("1"), P("/"), N("0")]);
    ScanStep(s, 2, 2, sc2, sc3);
    ScanStep(s, 1, 2, sc1, sc2);
    ScanStep(s, 0, 2, sc0, sc1);
  }

  /** The tokens of "1/0". */
  lemma TokensDivByZero(s: string)
    requires s == "1/0"
    ensures Tokenize(s) == [N("1"), P("/"), N("0")]
  {
    assert Utf8Len(s) == 3;
    ScanDivByZero(s);
  }

  /** The tree of "1/0". */
  lemma TreeDivByZero()
    ensures var ts := [N("1"), P("/"), N("0")];
      var t := Op(Div, "/", Leaf("1"), Leaf("0"));
      ParseExpr(ts, 0).0 == Some(t)
  {
  }

  /** The value of that tree; its literals have no leading zero. */
  lemma ValueDivByZero()
    ensures var t := Op(Div, "/", Leaf("1"), Leaf("0"));
      Eval(t) == -1 && PlainLeaves(t)
  {
    assert Decimal("1") == 1;
    assert Decimal("0") == 0;
  }

  /** Division by zero gives -1, as the target's `div` does. */
  lemma CompileDivByZero(s: string, st: Asm.State)
    requires s == "1/0"
    ensures Parse(s) == Some(Op(Div, "/", Leaf("1"), Leaf("0")))
    ensures Outcome(s, st) == Some(-1)
  {
    TokensDivByZero(s);
    TreeDivByZero();
    ValueDivByZero();
    Compiles(s, Op(Div, "/", Leaf("1"), Leaf("0")), st);
  }

  lemma ScanQuirk1(s: string)
    requires s == "1++1"
    ensures var before := Scanner(TokenKind.Ignore, "", []);
      var after := Scanner(TokenKind.Punck, "++", [N("1")]);
      Scan(s, 0, 3, before) == Scan(s, 3, 3, after)
  {
    var sc0 := Scanner(TokenKind.Ignore, "", []);
    var sc1 := Scanner(TokenKind.Num, "1", []);
    var sc2 := Scanner(TokenKind.Punck, "+", [N("1")]);
    var sc3 := Scanner(TokenKind.Punck, "++", [N("1")]);
    ScanStep(s, 2, 3, sc2, sc3);
    ScanStep(s, 1, 3, sc1, sc2);
    ScanStep(s, 0, 3, sc0, sc1);
  }

  lemma ScanQuirk2(s: string)
    requires s == "1++1"
    ensures var before := Scanner(TokenKind.Punck, "++", [N("1")]);
      var after := Scanner(TokenKind.Num, "1", [N("1"), P("++"), N("1")]);
      Scan(s, 3, 3, before) == Scan(s, 4, 3, after)
  {
    var sc3 := Scanner(TokenKind.Punck, "++", [N("1")]);
    var sc4 := Scanner(TokenKind.Num, "1", [N("1"), P("++"), N("1")]);
    ScanStep(s, 3, 3, sc3, sc4);
  }

  /** The tokens of "1++1". */
  lemma TokensQuirk(s: string)
    requires s == "1++1"
    ensures Tokenize(s) == [N("1"), P("++"), N("1")]
  {
    assert Utf8Len(s) == 4;
    ScanQuirk1(s);
    ScanQuirk2(s);
  }

  lemma ScanTrailingPlus(s: string)
    requires s == "1+"
    ensures var before := Scanner(TokenKind.Ignore, "", []);
      var after := Scanner(TokenKind.Punck, "+", [N("1")]);
      Scan(s, 0, 1, before) == Scan(s, 2, 1, after)
  {
    var sc0 := Scanner(TokenKind.Ignore, "", []);
    var sc1 := Scanner(TokenKind.Num, "1", []);
    var sc2 := Scanner(TokenKind.Punck, "+", [N("1")]);
    ScanStep(s, 1, 1, sc1, sc2);
    ScanStep(s, 0, 1, sc0, sc1);
  }

  /** The tokens of "1+". */
  lemma TokensTrailingPlus(s: string)
    requires s == "1+"
    ensures Tokenize(s) == [N("1")]
  {
    assert Utf8Len(s) == 2;
    ScanTrailingPlus(s);
  }

  lemma ScanInvalidChar(s: string)
    requires s == "1+s"
    ensures var before := Scanner(TokenKind.Ignore, "", []);
      var after := Scanner(TokenKind.Ignore, "", [N("1"), P("+")]);
      Scan(s, 0, 2, before) == Scan(s, 3, 2, after)
  {
    var sc0 := Scanner(TokenKind.Ignore, "", []);
    var sc1 := Scanner(TokenKind.Num, "1", []);
    var sc2 := Scanner(TokenKind.Punck, "+", [N("1")]);
    var sc3 := Scanner(TokenKind.Ignore, "", [N("1"), P("+")]);
    ScanStep(s, 2, 2, sc2, sc3);
    ScanStep(s, 1, 2, sc1, sc2);
    ScanStep(s, 0, 2, sc0, sc1);
  }

  /** The tokens of "1+s". */
  lemma TokensInvalidChar(s: string)
    requires s == "1+s"
    ensures Tokenize(s) == [N("1"), P("+")]
  {
    assert Utf8Len(s) == 3;
    ScanInvalidChar(s);
  }

  lemma ScanLeadingZero(s: string)
    requires s == "010"
    ensures var before := Scanner(TokenKind.Ignore, "", []);
      var after := Scanner(TokenKind.Num, "010", [N("010")]);
      Scan(s, 0, 2, before) == Scan(s, 3, 2, after)
  {
    var sc0 := Scanner(TokenKind.Ignore, "", []);
    var sc1 := Scanner(TokenKind.Num, "0", []);
    var sc2 := Scanner(TokenKind.Num, "01", []);
    var sc3 := Scanner(TokenKind.Num, "010", [N("010")]);
    ScanStep(s, 2, 2, sc2, sc3);
    ScanStep(s, 1, 2, sc1, sc2);
    ScanStep(s, 0, 2, sc0, sc1);
  }

  /** The tokens of "010". */
  lemma TokensLeadingZero(s: string)
    requires s == "010"
    ensures Tokenize(s) == [N("010")]
  {
    assert Utf8Len(s) == 3;
    ScanLeadingZero(s);
  }

  lemma ScanBadOctal(s: string)
    requires s == "08"
    ensures var before := Scanner(TokenKind.Ignore, "", []);
      var after := Scanner(TokenKind.Num, "08", [N("08")]);
      Scan(s, 0, 1, before) == Scan(s, 2, 1, after)
  {
    var sc0 := Scanner(TokenKind.Ignore, "", []);
    var sc1 := Scanner(TokenKind.Num, "0", []);
    var sc2 := Scanner(TokenKind.Num, "08", [N("08")]);
    ScanStep(s, 1, 1, sc1, sc2);
    ScanStep(s, 0, 1, sc0, sc1);
  }

  /** The tokens of "08". */
  lemma TokensBadOctal(s: string)
    requires s == "08"
    ensures Tokenize(s) == [N("08")]
  {
    assert Utf8Len(s) == 2;
    ScanBadOctal(s);
  }

  /**
    "1++1": the two plus signs form one punctuation token "++", which is no
    operator; the parser stops after the first number, the rest is
    ignored, and the program returns 1.
   */
  lemma CompileQuirk(s: string, st: Asm.State)
    requires s == "1++1"
    ensures ParseExpr(Tokenize(s), 0) == (Some(Leaf("1")), 1)
    ensures Outcome(s, st) == Some(1)
  {
    TokensQuirk(s);
    assert ParseExpr([N("1"), P("++"), N("1")], 0) == (Some(Leaf("1")), 1);
    Compiles(s, Leaf("1"), st);
    assert Decimal("1") == 1;
  }

  /** "1+": a trailing punctuation run is never pushed, so this compiles as "1". */
  lemma CompileTrailingPlus(s: string, st: Asm.State)
    requires s == "1+"
    ensures Outcome(s, st) == Some(1)
  {
    TokensTrailingPlus(s);
    assert ParseExpr([N("1")], 0).0 == Some(Leaf("1"));
    Compiles(s, Leaf("1"), st);
    assert Decimal("1") == 1;
  }

  /**
    "1+s": the letter is dropped, the sum is left without its right
    operand, and the code generator panics on it: no file is written.
   */
  lemma CompileInvalidChar(s: string)
    requires s == "1+s"
    ensures Parse(s) == Some(Node(AstNode(Add, "+"), Some(Leaf("1")), None))
    ensures MainBody(s) == None
  {
    TokensInvalidChar(s);
    assert ParseExpr([N("1"), P("+")], 0).0 == Some(Node(AstNode(Add, "+"), Some(Leaf("1")), None));
    MainBodyWrites(s);
  }

  /**
    "010": the number token keeps its leading zero, so `li a0, 010` is
    written.  The assembler reads that literal in base 8: the program
    returns 8, where the decimal value of the expression is 10.
   */
  lemma CompileLeadingZero(s: string, st: Asm.State)
    requires s == "010"
    ensures Parse(s) == Some(Leaf("010")) && Eval(Leaf("010")) == 10
    ensures Outcome(s, st) == Some(8)
  {
    TokensLeadingZero(s);
    assert ParseExpr([N("010")], 0).0 == Some(Leaf("010"));
    MainBodyWrites(s);
    CompiledProgramComputes(s, st);
    LiteralLeadingZero("010");
  }

  /** The assembler reads `010` as 8; in decimal it is 10. */
  lemma LiteralLeadingZero(v: string)
    requires v == "010"
    ensures AsmLiteral(v) == Some(8) && Decimal(v) == 10
  {
    var one, zeroOne := v[1..2], v[..2];
    assert Octal(one) == 1 by {
      assert one[..0] == [] && one[0] == '1';
    }
    assert Octal(v[1..]) == 8 by {
      assert v[1..][..1] == one && v[1..][1] == '0';
    }
    assert Decimal(zeroOne[..1]) == 0 by {
      assert zeroOne[..1][..0] == [] && zeroOne[..1][0] == '0';
    }
    assert Decimal(zeroOne) == 1 by {
      assert zeroOne[1] == '1';
    }
    assert Decimal(v) == 10 by {
      assert v[..2] == zeroOne && v[2] == '0';
    }
  }

  /**
    "08": the file is written, but its leading zero makes `li a0, 08` an
    octal literal with the digit 8, which the assembler rejects.
   */
  lemma CompileBadOctal(s: string, st: Asm.State)
    requires s == "08"
    ensures MainBody(s).Some?
    ensures Outcome(s, st) == None
  {
    TokensBadOctal(s);
    assert ParseExpr([N("08")], 0).0 == Some(Leaf("08"));
    MainBodyWrites(s);
    CompiledProgramComputes(s, st);
    assert !IsOctalDigit("08"[1]);
    assert AsmLiteral("08") == None;
  }

  /** The empty expression: `tokenize` underflows and nothing is written. */
  lemma CompileEmpty()
    ensures MainBody("") == None
  {
  }

  /**
    The tree test (src/main.rs:369-392): a number node given a left child,
    then adopted as the left child of a fresh `+` node, keeps that child.
   */
  lemma TreeLinks()
    ensures var bt1 := SetLeft(New(AstNode(NodeKind.Num, "1")), Some(Leaf("0")));
      var bt2 := NewBinaryWithoutRight(AstNode(Add, ""), bt1);
      && GetLeft(bt2) == Some(bt1)
      && GetLeft(GetLeft(bt2).value) == Some(Leaf("0"))
      && GetRight(bt2) == None
  {
  }
}
