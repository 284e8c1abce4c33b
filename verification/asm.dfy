/**
  The RISC-V assembly the compiler emits (src/main.rs:291-344): the handful
  of instructions `push`, `pop` and `get_expr` write, their text, a decoder
  that reads the text back, and the machine that runs them.

  Each constructor is one emitted line.  The stack pointer only ever moves
  by one 8-byte slot, so its two `addi` forms are separate constructors.
 */
module Asm {
  import opened Wrappers
  import opened Numbers

  datatype Reg = A0 | A1

  datatype Instr =
    | Li(imm: string)   // li a0, <imm>
    | Alloc             // addi sp, sp, -8
    | Free              // addi sp, sp, 8
    | Sd                // sd a0, 0(sp)
    | Ld(rd: Reg)       // ld <rd>, 0(sp)
    | Add               // add a0, a0, a1
    | Sub               // sub a0, a0, a1
    | Mul               // mul a0, a0, a1
    | Div               // div a0, a0, a1

  // ---------------------------------------------------------------------
  // Text.

  const LiPrefix: string := "  li a0, "

  function RegName(r: Reg): string
  {
    match r
    case A0 => "a0"
    case A1 => "a1"
  }

  /** The line of an instruction, without its line break. */
  function Render(i: Instr): string
  {
    match i
    case Li(imm) => LiPrefix + imm
    case Alloc => "  addi sp, sp, -8"
    case Free => "  addi sp, sp, 8"
    case Sd => "  sd a0, 0(sp)"
    case Ld(rd) => "  ld " + RegName(rd) + ", 0(sp)"
    case Add => "  add a0, a0, a1"
    case Sub => "  sub a0, a0, a1"
    case Mul => "  mul a0, a0, a1"
    case Div => "  div a0, a0, a1"
  }

  /** The text of a sequence of instructions, one line each. */
  function RenderText(code: seq<Instr>): string
  {
    if code == [] then "" else Render(code[0]) + "\n" + RenderText(code[1..])
  }

  /** Reads one line back; `None` for a line the compiler never writes. */
  function DecodeLine(l: string): Option<Instr>
  {
    if |LiPrefix| <= |l| && l[..|LiPrefix|] == LiPrefix then Some(Li(l[|LiPrefix|..]))
    else if l == "  addi sp, sp, -8" then Some(Alloc)
    else if l == "  addi sp, sp, 8" then Some(Free)
    else if l == "  sd a0, 0(sp)" then Some(Sd)
    else if l == "  ld a0, 0(sp)" then Some(Ld(A0))
    else if l == "  ld a1, 0(sp)" then Some(Ld(A1))
    else if l == "  add a0, a0, a1" then Some(Add)
    else if l == "  sub a0, a0, a1" then Some(Sub)
    else if l == "  mul a0, a0, a1" then Some(Mul)
    else if l == "  div a0, a0, a1" then Some(Div)
    else None
  }

  /** The index of the first line break of `s`, or `|s|` when there is none. */
  function LineLength(s: string): (n: nat)
    ensures n <= |s|
    ensures forall j :: 0 <= j < n ==> s[j] != '\n'
    ensures n < |s| ==> s[n] == '\n'
  {
    if s == [] || s[0] == '\n' then 0 else 1 + LineLength(s[1..])
  }

  /** Reads a text of line-terminated instructions back. */
  function DecodeText(s: string): Option<seq<Instr>>
    decreases |s|
  {
    if s == [] then Some([])
    else
      var n := LineLength(s);
      if n == |s| then None
      else
        match DecodeLine(s[..n])
        case None => None
        case Some(i) =>
          match DecodeText(s[n + 1..])
          case None => None
          case Some(rest) => Some([i] + rest)
  }

  /** An immediate the compiler can emit: the digits of a number token. */
  predicate Immediates(code: seq<Instr>)
  {
    forall k :: 0 <= k < |code| && code[k].Li? ==> IsNumeral(code[k].imm)
  }

  lemma NoLineBreak(i: Instr)
    requires i.Li? ==> IsNumeral(i.imm)
    ensures forall j :: 0 <= j < |Render(i)| ==> Render(i)[j] != '\n'
  {
    if i.Li? {
      forall j | 0 <= j < |Render(i)|
        ensures Render(i)[j] != '\n'
      {
        if j >= |LiPrefix| {
          assert Render(i)[j] == i.imm[j - |LiPrefix|];
        }
      }
    }
  }

  /** Every line the compiler writes reads back as the instruction it came from. */
  lemma DecodeRender(i: Instr)
    ensures DecodeLine(Render(i)) == Some(i)
  {
    match i
    case Li(imm) => DecodeLoadImmediate(imm);
    case Ld(rd) => DecodeLoad(rd);
    case _ => NotLi(Render(i));
  }

  lemma DecodeLoadImmediate(imm: string)
    ensures DecodeLine(Render(Li(imm))) == Some(Li(imm))
  {
    assert (LiPrefix + imm)[..|LiPrefix|] == LiPrefix;
    assert (LiPrefix + imm)[|LiPrefix|..] == imm;
  }

  lemma DecodeLoad(rd: Reg)
    ensures DecodeLine(Render(Ld(rd))) == Some(Ld(rd))
  {
    var l := Render(Ld(rd));
    assert l[..|LiPrefix|] != LiPrefix by {
      assert l[2] == 'l' && l[3] == 'd';
    }
    if rd == A0 {
      assert l == "  ld a0, 0(sp)";
    } else {
      assert l == "  ld a1, 0(sp)";
    }
  }

  lemma NotLi(l: string)
    requires |LiPrefix| <= |l| && (l[2] != 'l' || l[3] != 'i')
    ensures l[..|LiPrefix|] != LiPrefix
  {
    assert LiPrefix[2] == 'l' && LiPrefix[3] == 'i';
  }

  lemma LineOf(line: string, rest: string)
    requires forall j :: 0 <= j < |line| ==> line[j] != '\n'
    ensures var s := line + "\n" + rest;
      && LineLength(s) == |line| < |s|
      && s[..|line|] == line
      && s[|line| + 1..] == rest
    decreases |line|
  {
    var s := line + "\n" + rest;
    if line != [] {
      assert s[1..] == line[1..] + "\n" + rest;
      LineOf(line[1..], rest);
    }
  }

  /** The text of a program reads back as that program. */
  lemma {:induction false} DecodeRenderText(code: seq<Instr>)
    requires Immediates(code)
    ensures DecodeText(RenderText(code)) == Some(code)
  {
    if code != [] {
      var line, rest := Render(code[0]), RenderText(code[1..]);
      NoLineBreak(code[0]);
      LineOf(line, rest);
      DecodeRender(code[0]);
      assert Immediates(code[1..]) by {
        forall k | 0 <= k < |code[1..]| && code[1..][k].Li?
          ensures IsNumeral(code[1..][k].imm)
        {
          assert code[1..][k] == code[k + 1];
        }
      }
      DecodeRenderText(code[1..]);
      assert [code[0]] + code[1..] == code;
    }
  }

  // ---------------------------------------------------------------------
  // The whole assembly file written by `main_body`.

  const Header: string := "  .global main\nmain:\n"
  const Footer: string := "  ret\n"

  function Assembly(body: seq<Instr>): string
  {
    Header + RenderText(body) + Footer
  }

  /** Reads an assembly file back: the header, the body, and the return. */
  function DecodeAssembly(s: string): Option<seq<Instr>>
  {
    if |s| < |Header| + |Footer| then None
    else if s[..|Header|] != Header || s[|s| - |Footer|..] != Footer then None
    else DecodeText(s[|Header|..|s| - |Footer|])
  }

  lemma DecodeAssemblyRender(body: seq<Instr>)
    requires Immediates(body)
    ensures DecodeAssembly(Assembly(body)) == Some(body)
  {
    var s := Assembly(body);
    var t := RenderText(body);
    assert s[..|Header|] == Header;
    assert s[|s| - |Footer|..] == Footer;
    assert s[|Header|..|s| - |Footer|] == t;
    DecodeRenderText(body);
  }

  // ---------------------------------------------------------------------
  // The machine.

  /**
    The registers the code uses and the memory.  Memory is a map; a word
    never written reads as zero.
   */
  datatype State = State(a0: int, a1: int, sp: int, mem: map<int, int>)

  function Load(mem: map<int, int>, addr: int): int
  {
    if addr in mem then mem[addr] else 0
  }

  /**
    One instruction; `None` when the assembler rejects the immediate of an
    `li`, which it reads as `AsmLiteral` says.
   */
  function Exec(i: Instr, st: State): Option<State>
  {
    match i
    case Li(imm) =>
      (match AsmLiteral(imm)
       case None => None
       case Some(v) => Some(st.(a0 := v)))
    case Alloc => Some(st.(sp := st.sp - 8))
    case Free => Some(st.(sp := st.sp + 8))
    case Sd => Some(st.(mem := st.mem[st.sp := st.a0]))
    case Ld(rd) =>
      var v := Load(st.mem, st.sp);
      if rd == A0 then Some(st.(a0 := v)) else Some(st.(a1 := v))
    case Add => Some(st.(a0 := st.a0 + st.a1))
    case Sub => Some(st.(a0 := st.a0 - st.a1))
    case Mul => Some(st.(a0 := st.a0 * st.a1))
    case Div => Some(st.(a0 := TruncDiv(st.a0, st.a1)))
  }

  function Run(code: seq<Instr>, st: State): Option<State>
  {
    if code == [] then Some(st)
    else
      match Exec(code[0], st)
      case None => None
      case Some(st') => Run(code[1..], st')
  }

  /** Running two pieces of code one after the other. */
  lemma {:induction false} RunAppend(a: seq<Instr>, b: seq<Instr>, st: State)
    ensures Run(a + b, st) == (if Run(a, st).Some? then Run(b, Run(a, st).value) else None)
    decreases |a|
  {
    if a == [] {
      assert a + b == b;
    } else {
      assert (a + b)[0] == a[0];
      assert (a + b)[1..] == a[1..] + b;
      match Exec(a[0], st)
      case None =>
      case Some(st') => RunAppend(a[1..], b, st');
    }
  }
}
