/**
  The driver `main_body` (src/main.rs:329-349): tokenize the expression,
  parse one expression from the front of the token list (tokens after it
  are ignored), generate its code, and wrap the code between the
  `.global main` / `main:` header and the final `ret`.

  The string `main_body` writes to the assembly file is the result; a
  panic on the way (empty input, no expression, a missing operand) is
  `None`.
 */
module Compiler {
  import opened Wrappers
  import opened Numbers
  import opened Lexer
  import opened Ast
  import opened Parser
  import opened Codegen
  import Asm

  /** The tree `main_body` hands to the code generator. */
  function Parse(s: string): Option<Ast>
    requires |s| > 0
  {
    ParseExpr(Tokenize(s), 0).0
  }

  function MainBody(s: string): Option<string>
  {
    if |s| == 0 then None
    else
      match GetExpr(Parse(s), Emitter([], 0))
      case None => None
      case Some(e) => Some(Asm.Assembly(e.asm))
  }

  /** The value the written program leaves in `a0` when run from `st`. */
  function Outcome(s: string, st: Asm.State): Option<int>
  {
    match MainBody(s)
    case None => None
    case Some(text) =>
      match Asm.DecodeAssembly(text)
      case None => None
      case Some(code) =>
        match Asm.Run(code, st)
        case None => None
        case Some(st') => Some(st'.a0)
  }

  lemma {:induction false} ImmediatesAppend(a: seq<Asm.Instr>, b: seq<Asm.Instr>)
    requires Asm.Immediates(a) && Asm.Immediates(b)
    ensures Asm.Immediates(a + b)
  {
    forall k | 0 <= k < |a + b| && (a + b)[k].Li?
      ensures IsNumeral((a + b)[k].imm)
    {
      if k < |a| {
        assert (a + b)[k] == a[k];
      } else {
        assert (a + b)[k] == b[k - |a|];
      }
    }
  }

  /** Every `li` of generated code loads one of the tree's decimal literals. */
  lemma {:induction false} CodeImmediates(t: Ast)
    requires Complete(t) && NumeralLeaves(t)
    ensures Asm.Immediates(Code(t))
    decreases t
  {
    if t.key.kind != NodeKind.Num {
      var cr, cl := Code(t.right.value), Code(t.left.value);
      var tail := [Asm.Ld(Asm.A1), Asm.Free] + Alu(t.key.kind);
      CodeImmediates(t.right.value);
      CodeImmediates(t.left.value);
      assert Asm.Immediates(tail);
      assert Asm.Immediates([Asm.Alloc, Asm.Sd]);
      ImmediatesAppend(cl, tail);
      ImmediatesAppend([Asm.Alloc, Asm.Sd], cl + tail);
      ImmediatesAppend(cr, [Asm.Alloc, Asm.Sd] + (cl + tail));
    }
  }

  /**
    `main_body` writes a file exactly when the input is non-empty and the
    parser returns a complete tree; the file is then the header, the code
    of that tree and the return.
   */
  lemma MainBodyWrites(s: string)
    ensures MainBody(s).Some? <==> |s| > 0 && Parse(s).Some? && Complete(Parse(s).value)
    ensures MainBody(s).Some? ==> MainBody(s) == Some(Asm.Assembly(Code(Parse(s).value)))
  {
    if |s| > 0 {
      GetExprCode(Parse(s), Emitter([], 0));
      if MainBody(s).Some? {
        assert [] + Code(Parse(s).value) == Code(Parse(s).value);
      }
    }
  }

  /**
    The end-to-end property: whenever `main_body` writes a file, the file
    reads back as the code of the parsed tree.  That code, run from any
    state, runs to the end exactly when the assembler accepts every
    literal; it then returns the value of the tree, as the assembler reads
    its literals, in `a0` with the caller's stack intact.  Without
    superfluous leading zeros that is the decimal value of the expression.
   */
  lemma CompiledProgramComputes(s: string, st: Asm.State)
    requires MainBody(s).Some?
    ensures |s| > 0 && Parse(s).Some? && Complete(Parse(s).value)
    ensures var t := Parse(s).value;
      && Asm.DecodeAssembly(MainBody(s).value) == Some(Code(t))
      && (Outcome(s, st).Some? <==> AsmLeaves(t))
      && (AsmLeaves(t) ==>
            Outcome(s, st) == Some(AsmEval(t)) && Frame(st, Asm.Run(Code(t), st).value))
      && (PlainLeaves(t) ==> Outcome(s, st) == Some(Eval(t)))
  {
    MainBodyWrites(s);
    var t := Parse(s).value;
    TokenizeWellFormed(s);
    WellFormedTokens(Tokenize(s));
    ParseExprShape(Tokenize(s), 0);
    CodeImmediates(t);
    Asm.DecodeAssemblyRender(Code(t));
    CodeRunsIff(t, st);
    if AsmLeaves(t) {
      CodeComputes(t, st);
    }
    if PlainLeaves(t) {
      AsmEvalPlain(t);
    }
  }
}
