/**
  The scanner of src/main.rs (`tokenize`): one left-to-right pass that
  splits the input into runs of digits and runs of punctuation, dropping
  every other character.

  The scanner is written as the state machine of the source (`Step`, run by
  `Scan`) and proved equal to `Runs`, an independent definition of "the
  maximal same-class runs of the input", up to the final run, which the
  source only emits when it is a digit run of an ASCII input.
 */
module Lexer {
  import opened Numbers

  datatype TokenKind = Ignore | Punck | Num

  datatype Token = Token(kind: TokenKind, value: string)

  predicate IsPunct(c: char)
  {
    c == '+' || c == '-' || c == '*' || c == '/' || c == '(' || c == ')'
  }

  /** The character class of src/main.rs:90-100. */
  function Classify(c: char): TokenKind
  {
    if IsDigit(c) then Num
    else if IsPunct(c) then Punck
    else Ignore
  }

  /** The number of bytes of `c` in UTF-8, the unit of Rust's `str::len`. */
  function Utf8Width(c: char): nat
  {
    if c as int < 0x80 then 1
    else if c as int < 0x800 then 2
    else if c as int < 0x1_0000 then 3
    else 4
  }

  function Utf8Len(s: string): (n: nat)
    ensures n >= |s|
    ensures n == |s| <==> forall i :: 0 <= i < |s| ==> s[i] as int < 0x80
  {
    if s == [] then 0 else Utf8Width(s[0]) + Utf8Len(s[1..])
  }

  /** The loop state of `tokenize`: `token_kind_old`, `token_value`, `tokens`. */
  datatype Scanner = Scanner(kindOld: TokenKind, value: string, tokens: seq<Token>)

  /** `tokens.push` guarded by `!token_value.is_empty()`. */
  function Flush(kind: TokenKind, value: string): seq<Token>
  {
    if value == [] then [] else [Token(kind, value)]
  }

  /**
    The body of the loop up to the end-of-input check: on a change of class
    the buffer is flushed and the class remembered; a character that is not
    ignored is appended to the buffer.
   */
  function Grow(sc: Scanner, ch: char): Scanner
  {
    var kind := Classify(ch);
    var flushed :=
      if sc.kindOld != kind then Scanner(kind, "", sc.tokens + Flush(sc.kindOld, sc.value))
      else sc;
    if kind != Ignore then flushed.(value := flushed.value + [ch])
    else flushed
  }

  /**
    One iteration of the loop of src/main.rs:88-134, for character `ch` at
    `index`: a digit at index `count` also pushes the buffer.
   */
  function Step(sc: Scanner, index: nat, ch: char, count: int): Scanner
  {
    var grown := Grow(sc, ch);
    if index == count && Classify(ch) == Num then
      grown.(tokens := grown.tokens + [Token(Num, grown.value)])
    else
      grown
  }

  /** The loop itself, from character `i` on. */
  function Scan(s: string, i: nat, count: int, sc: Scanner): Scanner
    requires i <= |s|
    decreases |s| - i
  {
    if i == |s| then sc else Scan(s, i + 1, count, Step(sc, i, s[i], count))
  }

  /**
    `tokenize`.  The source computes `strings.len() - 1`, a byte count, and
    compares it with character indices; on the empty string that subtraction
    underflows, hence the precondition.
   */
  function Tokenize(s: string): (tokens: seq<Token>)
    requires |s| > 0
  {
    Scan(s, 0, Utf8Len(s) - 1, Scanner(Ignore, "", [])).tokens
  }

  // ---------------------------------------------------------------------
  // The reference definition: maximal runs of same-class characters.

  function LastClass(s: string): TokenKind
  {
    if s == [] then Ignore else Classify(s[|s| - 1])
  }

  /** The length of the longest suffix of `s` whose characters are all of class `k`. */
  function RunLen(s: string, k: TokenKind): (n: nat)
    ensures n <= |s|
    ensures LastClass(s) == k && s != [] ==> n >= 1
    ensures LastClass(s) != k ==> n == 0
  {
    if s == [] || Classify(s[|s| - 1]) != k then 0 else RunLen(s[..|s| - 1], k) + 1
  }

  /**
    The tokens of `s` read as maximal runs: each run of digits, and each run
    of punctuation, between class changes becomes one token, in order;
    characters of class `Ignore` only separate runs.
   */
  function Runs(s: string): seq<Token>
    decreases |s|
  {
    if s == [] then []
    else
      var k := LastClass(s);
      if k == Ignore then Runs(s[..|s| - 1])
      else
        var n := RunLen(s, k);
        Runs(s[..|s| - n]) + [Token(k, s[|s| - n..])]
  }

  /** A token as the scanner may produce it. */
  predicate WellFormed(t: Token)
  {
    && t.kind != Ignore
    && t.value != []
    && forall i :: 0 <= i < |t.value| ==> Classify(t.value[i]) == t.kind
  }

  lemma {:induction false} RunLenSuffix(s: string, k: TokenKind)
    ensures forall i :: |s| - RunLen(s, k) <= i < |s| ==> Classify(s[i]) == k
    ensures RunLen(s, k) < |s| ==> Classify(s[|s| - RunLen(s, k) - 1]) != k
    decreases |s|
  {
    if s != [] && Classify(s[|s| - 1]) == k {
      var p := s[..|s| - 1];
      RunLenSuffix(p, k);
      assert forall i :: 0 <= i < |p| ==> p[i] == s[i];
    }
  }

  lemma {:induction false} RunsWellFormed(s: string)
    ensures forall t :: t in Runs(s) ==> WellFormed(t)
    decreases |s|
  {
    if s != [] {
      var k := LastClass(s);
      if k == Ignore {
        RunsWellFormed(s[..|s| - 1]);
      } else {
        var n := RunLen(s, k);
        RunsWellFormed(s[..|s| - n]);
        RunLenSuffix(s, k);
        var v := s[|s| - n..];
        assert forall i :: 0 <= i < |v| ==> v[i] == s[|s| - n + i];
      }
    }
  }

  // ---------------------------------------------------------------------
  // The scanner computes the runs.

  /**
    The loop invariant after the first `i` characters: the state machine has
    emitted every run of `s[..i]` except the last one, which is still in the
    buffer when it is not a run of ignored characters.
   */
  ghost predicate Inv(s: string, i: nat, sc: Scanner)
    requires i <= |s|
  {
    var p := s[..i];
    && sc.kindOld == LastClass(p)
    && sc.value == (if sc.kindOld == Ignore then [] else p[i - RunLen(p, sc.kindOld)..])
    && sc.tokens + Flush(sc.kindOld, sc.value) == Runs(p)
  }

  /** Appending a character to a prefix extends its runs as the scanner does. */
  lemma {:induction false} RunsSnoc(p: string, c: char)
    ensures Classify(c) == Ignore ==> Runs(p + [c]) == Runs(p)
    ensures Classify(c) != Ignore && LastClass(p) == Classify(c) ==>
      Runs(p + [c]) == Runs(p[..|p| - RunLen(p, Classify(c))])
        + [Token(Classify(c), p[|p| - RunLen(p, Classify(c))..] + [c])]
    ensures Classify(c) != Ignore && LastClass(p) != Classify(c) ==>
      Runs(p + [c]) == Runs(p) + [Token(Classify(c), [c])]
    ensures RunLen(p + [c], Classify(c)) == RunLen(p, Classify(c)) + 1
  {
    var q := p + [c];
    var k := Classify(c);
    assert q[..|q| - 1] == p;
    assert LastClass(q) == k;
    if k != Ignore {
      var n := RunLen(p, k);
      assert RunLen(q, k) == n + 1;
      assert q[..|q| - (n + 1)] == p[..|p| - n];
      assert q[|q| - (n + 1)..] == p[|p| - n..] + [c];
      if LastClass(p) != k {
        assert n == 0;
        assert p[..|p| - n] == p;
      }
    }
  }

  lemma {:induction false} RunsOfPending(p: string)
    requires LastClass(p) != Ignore
    ensures Runs(p) == Runs(p[..|p| - RunLen(p, LastClass(p))])
      + [Token(LastClass(p), p[|p| - RunLen(p, LastClass(p))..])]
  {
  }

  /** An ignored character flushes the buffer and leaves the runs as they were. */
  lemma GrowIgnore(s: string, i: nat, sc: Scanner)
    requires i < |s| && Inv(s, i, sc) && Classify(s[i]) == Ignore
    ensures Inv(s, i + 1, Grow(sc, s[i]))
  {
    var p, c := s[..i], s[i];
    assert s[..i + 1] == p + [c];
    RunsSnoc(p, c);
  }

  /** A character of the buffer's class extends the last run. */
  lemma GrowSame(s: string, i: nat, sc: Scanner)
    requires i < |s| && Inv(s, i, sc) && Classify(s[i]) != Ignore && sc.kindOld == Classify(s[i])
    ensures Inv(s, i + 1, Grow(sc, s[i]))
  {
    var p, c := s[..i], s[i];
    var k := Classify(c);
    assert s[..i + 1] == p + [c];
    RunsSnoc(p, c);
    var n := RunLen(p, k);
    RunsOfPending(p);
    var before := Runs(p[..|p| - n]);
    assert sc.tokens + [Token(k, sc.value)] == before + [Token(k, sc.value)];
    assert sc.tokens == (sc.tokens + [Token(k, sc.value)])[..|sc.tokens|];
    assert (p + [c])[i + 1 - (n + 1)..] == p[|p| - n..] + [c];
  }

  /** A character of another class starts a new run after flushing the buffer. */
  lemma GrowNew(s: string, i: nat, sc: Scanner)
    requires i < |s| && Inv(s, i, sc) && Classify(s[i]) != Ignore && sc.kindOld != Classify(s[i])
    ensures Inv(s, i + 1, Grow(sc, s[i]))
  {
    var p, c := s[..i], s[i];
    assert s[..i + 1] == p + [c];
    RunsSnoc(p, c);
    assert (p + [c])[i + 1 - 1..] == [c];
  }

  lemma GrowInv(s: string, i: nat, sc: Scanner)
    requires i < |s| && Inv(s, i, sc)
    ensures Inv(s, i + 1, Grow(sc, s[i]))
  {
    var k := Classify(s[i]);
    if k == Ignore {
      GrowIgnore(s, i, sc);
    } else if sc.kindOld == k {
      GrowSame(s, i, sc);
    } else {
      GrowNew(s, i, sc);
    }
  }

  /** One step of the loop keeps the invariant, and the final flush completes the runs. */
  lemma StepInv(s: string, i: nat, count: int, sc: Scanner)
    requires i < |s| && Inv(s, i, sc)
    ensures var sc' := Step(sc, i, s[i], count);
      if i == count && Classify(s[i]) == Num then sc'.tokens == Runs(s[..i + 1])
      else Inv(s, i + 1, sc')
  {
    GrowInv(s, i, sc);
    var g := Grow(sc, s[i]);
    if i == count && Classify(s[i]) == Num {
      assert g.kindOld == Num && g.value != [];
      assert Flush(g.kindOld, g.value) == [Token(Num, g.value)];
    }
  }

  lemma {:induction false} ScanRuns(s: string, i: nat, count: int, sc: Scanner)
    requires i <= |s| && |s| - 1 <= count && Inv(s, i, sc)
    ensures var r := Scan(s, i, count, sc);
      if i < |s| && count == |s| - 1 && Classify(s[|s| - 1]) == Num then r.tokens == Runs(s)
      else Inv(s, |s|, r)
    decreases |s| - i
  {
    if i < |s| {
      StepInv(s, i, count, sc);
      var sc' := Step(sc, i, s[i], count);
      if i == count && Classify(s[i]) == Num {
        assert i == |s| - 1 && s[..i + 1] == s;
        assert Scan(s, i + 1, count, sc') == sc';
      } else {
        ScanRuns(s, i + 1, count, sc');
      }
    } else {
      assert s[..|s|] == s;
    }
  }

  /**
    What `tokenize` returns: the maximal runs of the input, except that a
    final run of punctuation is never flushed, and neither is a final run of
    digits when the input is not ASCII (the byte count the source compares
    indices with then exceeds the last index).
   */
  lemma TokenizeIsRuns(s: string)
    requires |s| > 0
    ensures var k := Classify(s[|s| - 1]);
      Tokenize(s) ==
        if k == Ignore || (k == Num && Utf8Len(s) == |s|) then Runs(s)
        else Runs(s)[..|Runs(s)| - 1]
  {
    var count := Utf8Len(s) - 1;
    var init := Scanner(Ignore, "", []);
    InitInv(s);
    ScanRuns(s, 0, count, init);
    var r := Scan(s, 0, count, init);
    assert Tokenize(s) == r.tokens;
    if Classify(s[|s| - 1]) == Num && Utf8Len(s) == |s| {
      assert r.tokens == Runs(s);
    } else {
      assert Inv(s, |s|, r);
      FinalInv(s, r);
    }
  }

  lemma InitInv(s: string)
    ensures Inv(s, 0, Scanner(Ignore, "", []))
  {
    assert s[..0] == [];
  }

  /** Once the input is exhausted, the emitted tokens are all runs but a pending one. */
  lemma {:induction false} FinalInv(s: string, r: Scanner)
    requires |s| > 0 && Inv(s, |s|, r)
    ensures var k := Classify(s[|s| - 1]);
      r.tokens == if k == Ignore then Runs(s) else Runs(s)[..|Runs(s)| - 1]
  {
    assert s[..|s|] == s;
    var k := Classify(s[|s| - 1]);
    if k != Ignore {
      RunsOfPending(s);
      assert r.value != [];
      var rs := Runs(s);
      assert r.tokens + [Token(k, r.value)] == rs;
      assert r.tokens == rs[..|rs| - 1];
    }
  }

  /**
    Every token `tokenize` emits is a non-empty run of one class: a `Num`
    token is all digits, a `Punck` token is all punctuation, and no `Ignore`
    token is ever emitted.
   */
  lemma TokenizeWellFormed(s: string)
    requires |s| > 0
    ensures forall t :: t in Tokenize(s) ==> WellFormed(t)
    ensures forall t :: t in Tokenize(s) && t.kind == Num ==> IsNumeral(t.value)
    ensures forall t :: t in Tokenize(s) && t.kind == Punck ==>
      forall i :: 0 <= i < |t.value| ==> IsPunct(t.value[i])
  {
    TokenizeIsRuns(s);
    RunsWellFormed(s);
    var rs := Runs(s);
    if |rs| > 0 {
      forall t | t in rs[..|rs| - 1] ensures t in rs {
        var j :| 0 <= j < |rs| - 1 && rs[..|rs| - 1][j] == t;
        assert rs[j] == t;
      }
    }
  }

  /**
    An ASCII input that ends in a digit yields, as its last token, a `Num`
    token holding the whole final digit run: every trailing digit, and
    nothing before the first of them.
   */
  lemma TokenizeTrailingDigits(s: string)
    requires |s| > 0 && IsDigit(s[|s| - 1])
    requires forall i :: 0 <= i < |s| ==> s[i] as int < 0x80
    ensures var ts := Tokenize(s);
      && |ts| > 0
      && ts[|ts| - 1].kind == Num
      && var v := ts[|ts| - 1].value;
        && 0 < |v| <= |s|
        && v == s[|s| - |v|..]
        && IsNumeral(v)
        && (|v| == |s| || !IsDigit(s[|s| - |v| - 1]))
  {
    TokenizeIsRuns(s);
    assert Tokenize(s) == Runs(s);
    FinalRun(s, Num);
  }

  /** The last run of an input that does not end in an ignored character. */
  lemma FinalRun(s: string, k: TokenKind)
    requires s != [] && k != Ignore && Classify(s[|s| - 1]) == k
    ensures var rs := Runs(s);
      && |rs| > 0
      && rs[|rs| - 1].kind == k
      && var v := rs[|rs| - 1].value;
        && 0 < |v| <= |s|
        && v == s[|s| - |v|..]
        && (forall i :: 0 <= i < |v| ==> Classify(v[i]) == k)
        && (|v| == |s| || Classify(s[|s| - |v| - 1]) != k)
  {
    RunLenSuffix(s, k);
    var n := RunLen(s, k);
    var v := s[|s| - n..];
    assert Runs(s) == Runs(s[..|s| - n]) + [Token(k, v)];
    assert forall i :: 0 <= i < |v| ==> v[i] == s[|s| - n + i];
  }

  /**
    A final run of punctuation is dropped: the tokens are the runs of the
    input with that last run removed.
   */
  lemma TokenizeTrailingPunct(s: string)
    requires |s| > 0 && IsPunct(s[|s| - 1])
    ensures var n := RunLen(s, Punck);
      Tokenize(s) + [Token(Punck, s[|s| - n..])] == Runs(s)
  {
    TokenizeIsRuns(s);
    RunsOfPending(s);
  }
}
