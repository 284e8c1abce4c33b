/**
  The code generator (src/main.rs:291-327): `push`, `pop` and the
  recursive `get_expr`, which evaluates the right operand first, saves it on
  the stack, evaluates the left operand, pops the saved value into `a1` and
  combines the two in `a0`.

  The generated text is kept as the sequence of its lines (`Asm.Instr`);
  `Asm.RenderText` turns it into the string the source appends to.  A
  panic of `get_expr` (unwrapping a missing tree or child) is `None`.
 */
module Codegen {
  import opened Wrappers
  import opened BinaryTree
  import opened Numbers
  import opened Ast
  import Asm

  /** The output buffer and the stack depth counter `get_expr` threads through. */
  datatype Emitter = Emitter(asm: seq<Asm.Instr>, depth: int)

  function Push(e: Emitter): Emitter
  {
    Emitter(e.asm + [Asm.Alloc, Asm.Sd], e.depth + 1)
  }

  function Pop(e: Emitter, reg: Asm.Reg): Emitter
  {
    Emitter(e.asm + [Asm.Ld(reg), Asm.Free], e.depth - 1)
  }

  /** The instruction combining `a0` and `a1` for an operator; none for a number. */
  function Alu(kind: NodeKind): seq<Asm.Instr>
  {
    match kind
    case Add => [Asm.Add]
    case Sub => [Asm.Sub]
    case Mul => [Asm.Mul]
    case Div => [Asm.Div]
    case Num => []
  }

  function GetExpr(ast: Option<Ast>, e: Emitter): Option<Emitter>
    decreases ast
  {
    if ast.None? then None
    else
      var root := GetRoot(ast.value);
      if root.kind == Num then Some(Emitter(e.asm + [Asm.Li(root.value)], e.depth))
      else
        match GetExpr(GetRight(ast.value), e)
        case None => None
        case Some(e1) =>
          match GetExpr(GetLeft(ast.value), Push(e1))
          case None => None
          case Some(e2) =>
            var e3 := Pop(e2, Asm.A1);
            Some(Emitter(e3.asm + Alu(root.kind), e3.depth))
  }

  /**
    The code of a complete tree, written as one block per construct: the
    right operand, a push, the left operand, a pop into `a1`, the operator.
   */
  function Code(t: Ast): seq<Asm.Instr>
    requires Complete(t)
    decreases t
  {
    if t.key.kind == Num then [Asm.Li(t.key.value)]
    else
      Code(t.right.value) + ([Asm.Alloc, Asm.Sd] +
        (Code(t.left.value) + ([Asm.Ld(Asm.A1), Asm.Free] + Alu(t.key.kind))))
  }

  /**
    `get_expr` returns (does not panic) exactly on a complete tree; it then
    appends the code of the tree to the buffer and leaves the depth counter
    where it found it.
   */
  lemma {:induction false} GetExprCode(ast: Option<Ast>, e: Emitter)
    ensures GetExpr(ast, e).Some? <==> ast.Some? && Complete(ast.value)
    ensures GetExpr(ast, e).Some? ==>
      GetExpr(ast, e) == Some(Emitter(e.asm + Code(ast.value), e.depth))
    decreases ast
  {
    if ast.Some? && ast.value.key.kind != Num {
      var t := ast.value;
      GetExprCode(t.right, e);
      if GetExpr(t.right, e).Some? {
        var e1 := GetExpr(t.right, e).value;
        GetExprCode(t.left, Push(e1));
        if GetExpr(t.left, Push(e1)).Some? {
          var cr, cl := Code(t.right.value), Code(t.left.value);
          assert GetExpr(ast, e).value.asm
              == e.asm + cr + [Asm.Alloc, Asm.Sd] + cl
                + [Asm.Ld(Asm.A1), Asm.Free] + Alu(t.key.kind);
          Regroup(e.asm, cr, cl, Alu(t.key.kind));
        }
      }
    }
  }

  /** The buffer `get_expr` builds piece by piece, grouped as `Code` groups it. */
  lemma Regroup(x: seq<Asm.Instr>, cr: seq<Asm.Instr>, cl: seq<Asm.Instr>, alu: seq<Asm.Instr>)
    ensures x + cr + [Asm.Alloc, Asm.Sd] + cl + [Asm.Ld(Asm.A1), Asm.Free] + alu
         == x + (cr + ([Asm.Alloc, Asm.Sd] + (cl + ([Asm.Ld(Asm.A1), Asm.Free] + alu))))
  {
  }

  // ---------------------------------------------------------------------
  // Stack discipline.

  /** How an instruction moves the stack, in slots: a push +1, a pop -1. */
  function Delta(i: Asm.Instr): int
  {
    match i
    case Alloc => 1
    case Free => -1
    case _ => 0
  }

  function Net(code: seq<Asm.Instr>): int
  {
    if code == [] then 0 else Delta(code[0]) + Net(code[1..])
  }

  /** Starting `d` slots deep, the code never pops below the slot it started on. */
  predicate NeverBelow(code: seq<Asm.Instr>, d: int)
  {
    0 <= d && (code == [] || NeverBelow(code[1..], d + Delta(code[0])))
  }

  lemma {:induction false} NetAppend(a: seq<Asm.Instr>, b: seq<Asm.Instr>)
    ensures Net(a + b) == Net(a) + Net(b)
    decreases |a|
  {
    if a == [] {
      assert a + b == b;
    } else {
      assert (a + b)[1..] == a[1..] + b;
      NetAppend(a[1..], b);
    }
  }

  lemma {:induction false} NeverBelowAppend(a: seq<Asm.Instr>, b: seq<Asm.Instr>, d: int)
    requires NeverBelow(a, d) && NeverBelow(b, d + Net(a))
    ensures NeverBelow(a + b, d)
    decreases |a|
  {
    if a == [] {
      assert a + b == b;
    } else {
      assert (a + b)[1..] == a[1..] + b;
      NeverBelowAppend(a[1..], b, d + Delta(a[0]));
    }
  }

  lemma AluBalanced(kind: NodeKind, d: int)
    requires 0 <= d
    ensures Net(Alu(kind)) == 0 && NeverBelow(Alu(kind), d)
  {
  }

  /** The pop and the operator after the left operand drop one slot, back to `d`. */
  lemma PopBalanced(kind: NodeKind, d: int)
    requires 0 <= d
    ensures var tail := [Asm.Ld(Asm.A1), Asm.Free] + Alu(kind);
      Net(tail) == -1 && NeverBelow(tail, d + 1)
  {
    AluBalanced(kind, d);
    NetAppend([Asm.Ld(Asm.A1), Asm.Free], Alu(kind));
    NeverBelowAppend([Asm.Ld(Asm.A1), Asm.Free], Alu(kind), d + 1);
  }

  /**
    The code of a tree pushes as often as it pops, and at no point pops a
    slot it did not push: the depth counter ends where it started and never
    drops below it in between.
   */
  lemma {:induction false} CodeBalanced(t: Ast, d: int)
    requires Complete(t) && 0 <= d
    ensures Net(Code(t)) == 0
    ensures NeverBelow(Code(t), d)
    decreases t
  {
    if t.key.kind != Num {
      var cr, cl := Code(t.right.value), Code(t.left.value);
      var tail := [Asm.Ld(Asm.A1), Asm.Free] + Alu(t.key.kind);
      CodeBalanced(t.right.value, d);
      CodeBalanced(t.left.value, d + 1);
      PopBalanced(t.key.kind, d);
      NetAppend(cl, tail);
      NeverBelowAppend(cl, tail, d + 1);
      NetAppend([Asm.Alloc, Asm.Sd], cl + tail);
      NeverBelowAppend([Asm.Alloc, Asm.Sd], cl + tail, d);
      NetAppend(cr, [Asm.Alloc, Asm.Sd] + (cl + tail));
      NeverBelowAppend(cr, [Asm.Alloc, Asm.Sd] + (cl + tail), d);
    }
  }

  // ---------------------------------------------------------------------
  // Meaning.

  /**
    Between `st` and `st'` the stack pointer is back where it was and no
    word at or above it has changed: the caller's stack is intact.
   */
  ghost predicate Frame(st: Asm.State, st': Asm.State)
  {
    && st'.sp == st.sp
    && forall a :: st.sp <= a ==> Asm.Load(st'.mem, a) == Asm.Load(st.mem, a)
  }

  /** The machine operation of an operator node, as `Eval` defines it. */
  function Apply(kind: NodeKind, x: int, y: int): int
  {
    match kind
    case Add => x + y
    case Sub => x - y
    case Mul => x * y
    case Div => TruncDiv(x, y)
    case Num => x
  }

  lemma EvalNode(t: Ast)
    requires Complete(t) && t.key.kind != Num
    ensures Eval(t) == Apply(t.key.kind, Eval(t.left.value), Eval(t.right.value))
  {
  }

  /** A push stores `a0` in a fresh slot just below the stack pointer. */
  lemma RunPush(rest: seq<Asm.Instr>, st: Asm.State)
    ensures Asm.Run([Asm.Alloc, Asm.Sd] + rest, st)
         == Asm.Run(rest, st.(sp := st.sp - 8, mem := st.mem[st.sp - 8 := st.a0]))
  {
    var st1 := st.(sp := st.sp - 8);
    var st2 := st1.(mem := st1.mem[st1.sp := st1.a0]);
    assert Asm.Run([Asm.Alloc, Asm.Sd], st) == Some(st2) by {
      assert [Asm.Alloc, Asm.Sd][1..] == [Asm.Sd];
      assert Asm.Run([Asm.Sd], st1) == Some(st2);
    }
    Asm.RunAppend([Asm.Alloc, Asm.Sd], rest, st);
  }

  /** The pop into `a1` and the operator leave `kind` applied to `a0` and the saved word. */
  lemma RunPopAlu(kind: NodeKind, st: Asm.State)
    requires kind != Num
    ensures var code := [Asm.Ld(Asm.A1), Asm.Free] + Alu(kind);
      Asm.Run(code, st) == Some(st.(
        a0 := Apply(kind, st.a0, Asm.Load(st.mem, st.sp)),
        a1 := Asm.Load(st.mem, st.sp),
        sp := st.sp + 8))
  {
    var v := Asm.Load(st.mem, st.sp);
    var st1 := st.(a1 := v);
    var st2 := st1.(sp := st.sp + 8);
    assert Asm.Run([Asm.Ld(Asm.A1), Asm.Free], st) == Some(st2) by {
      assert [Asm.Ld(Asm.A1), Asm.Free][1..] == [Asm.Free];
      assert Asm.Run([Asm.Free], st1) == Some(st2);
    }
    RunAlu(kind, st2);
    Asm.RunAppend([Asm.Ld(Asm.A1), Asm.Free], Alu(kind), st);
  }

  /** The operator instruction replaces `a0` by `kind` applied to `a0` and `a1`. */
  lemma RunAlu(kind: NodeKind, st: Asm.State)
    requires kind != Num
    ensures Asm.Run(Alu(kind), st) == Some(st.(a0 := Apply(kind, st.a0, st.a1)))
  {
    match kind
    case Add => RunOne(Asm.Add, st);
    case Sub => RunOne(Asm.Sub, st);
    case Mul =>
      RunOne(Asm.Mul, st);
      assert Asm.Exec(Asm.Mul, st) == Some(st.(a0 := st.a0 * st.a1));
    case Div =>
      RunOne(Asm.Div, st);
      assert Asm.Exec(Asm.Div, st) == Some(st.(a0 := TruncDiv(st.a0, st.a1)));
  }

  lemma RunOne(i: Asm.Instr, st: Asm.State)
    ensures Asm.Run([i], st) == Asm.Exec(i, st)
  {
    assert [i][1..] == [];
  }

  /** Every number node holds a literal the assembler accepts. */
  predicate AsmLeaves(t: Ast)
    decreases t
  {
    match t.key.kind
    case Num => AsmLiteral(t.key.value).Some?
    case _ =>
      && (t.left.Some? ==> AsmLeaves(t.left.value))
      && (t.right.Some? ==> AsmLeaves(t.right.value))
  }

  /**
    The value of a complete tree when its numbers are read as the assembler
    reads the `li` immediates: like `Eval`, except that a literal with a
    leading zero is octal.
   */
  function AsmEval(t: Ast): int
    requires Complete(t) && AsmLeaves(t)
    decreases t
  {
    if t.key.kind == Num then AsmLiteral(t.key.value).value
    else Apply(t.key.kind, AsmEval(t.left.value), AsmEval(t.right.value))
  }

  /**
    Without superfluous leading zeros the assembler accepts every literal,
    and the program's value is the decimal value of the expression.
   */
  lemma {:induction false} AsmEvalPlain(t: Ast)
    requires Complete(t) && PlainLeaves(t)
    ensures AsmLeaves(t) && AsmEval(t) == Eval(t)
    decreases t
  {
    if t.key.kind == Num {
      AsmLiteralValue(t.key.value);
    } else {
      AsmEvalPlain(t.left.value);
      AsmEvalPlain(t.right.value);
      EvalNode(t);
    }
  }

  /**
    Run from any state, the code of a complete tree whose literals the
    assembler accepts finishes with the value of the tree, as the assembler
    reads its literals, in `a0`, the stack pointer restored and the caller's
    stack untouched.
   */
  lemma {:induction false} CodeComputes(t: Ast, st: Asm.State)
    requires Complete(t) && AsmLeaves(t)
    ensures Asm.Run(Code(t), st).Some?
    ensures Asm.Run(Code(t), st).value.a0 == AsmEval(t)
    ensures Frame(st, Asm.Run(Code(t), st).value)
    decreases t
  {
    if t.key.kind == Num {
      assert Asm.Run(Code(t), st) == Some(st.(a0 := AsmLiteral(t.key.value).value));
    } else {
      var cr, cl := Code(t.right.value), Code(t.left.value);
      var tail := [Asm.Ld(Asm.A1), Asm.Free] + Alu(t.key.kind);
      var rest := [Asm.Alloc, Asm.Sd] + (cl + tail);
      CodeComputes(t.right.value, st);
      var st1 := Asm.Run(cr, st).value;
      Asm.RunAppend(cr, rest, st);
      var st2 := st1.(sp := st1.sp - 8, mem := st1.mem[st1.sp - 8 := st1.a0]);
      RunPush(cl + tail, st1);
      CodeComputes(t.left.value, st2);
      var st3 := Asm.Run(cl, st2).value;
      Asm.RunAppend(cl, tail, st2);
      RunPopAlu(t.key.kind, st3);
      assert Asm.Load(st3.mem, st3.sp) == AsmEval(t.right.value);
      var st4 := Asm.Run(tail, st3).value;
      forall a | st.sp <= a
        ensures Asm.Load(st4.mem, a) == Asm.Load(st.mem, a)
      {
        assert Asm.Load(st4.mem, a) == Asm.Load(st2.mem, a);
        assert Asm.Load(st2.mem, a) == Asm.Load(st1.mem, a);
      }
    }
  }

  /**
    The partner of `CodeComputes`: the code of a complete tree runs to the
    end exactly when the assembler accepts every literal it loads.
   */
  lemma {:induction false} CodeRunsIff(t: Ast, st: Asm.State)
    requires Complete(t)
    ensures Asm.Run(Code(t), st).Some? <==> AsmLeaves(t)
    decreases t
  {
    if AsmLeaves(t) {
      CodeComputes(t, st);
    } else if t.key.kind != Num {
      var cr, cl := Code(t.right.value), Code(t.left.value);
      var tail := [Asm.Ld(Asm.A1), Asm.Free] + Alu(t.key.kind);
      var rest := [Asm.Alloc, Asm.Sd] + (cl + tail);
      Asm.RunAppend(cr, rest, st);
      CodeRunsIff(t.right.value, st);
      if Asm.Run(cr, st).Some? {
        var st1 := Asm.Run(cr, st).value;
        var st2 := st1.(sp := st1.sp - 8, mem := st1.mem[st1.sp - 8 := st1.a0]);
        RunPush(cl + tail, st1);
        Asm.RunAppend(cl, tail, st2);
        CodeRunsIff(t.left.value, st2);
      }
    }
  }
}
