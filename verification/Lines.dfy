/** Physical lines: what a stream of bytes says, independent of how it arrives. */
module Lines {
  import opened Sequences

  type byte = x: int | 0 <= x < 256

  const NEWLINE: byte := 10
  const RETURN: byte := 13

  /** One line as handed on: the retained text and exact byte counts. */
  datatype Physical = Physical(text: seq<byte>, total: nat, omitted: nat)

  function Min(a: nat, b: nat): nat { if a < b then a else b }

  function TrimSuffix(s: seq<byte>, b: byte): seq<byte> {
    if s != [] && s[|s| - 1] == b then s[..|s| - 1] else s
  }

  /** The bytes of `raw` that fit the limit. */
  function Retained(raw: seq<byte>, limit: nat): seq<byte> {
    raw[..Min(|raw|, limit)]
  }

  /** A line within the limit loses its terminator; a longer one keeps its prefix. */
  function Described(raw: seq<byte>, limit: nat): Physical {
    if |raw| <= limit then Physical(TrimSuffix(TrimSuffix(raw, NEWLINE), RETURN), |raw|, 0)
    else Physical(Retained(raw, limit), |raw|, |raw| - limit)
  }

  // ---------- splitting ----------

  /** Index of the first newline, or the length when there is none. */
  function FirstNewline(s: seq<byte>): (n: nat)
    ensures n <= |s|
    ensures forall i :: 0 <= i < n ==> s[i] != NEWLINE
    ensures n < |s| ==> s[n] == NEWLINE
  {
    if s == [] then 0 else if s[0] == NEWLINE then 0 else 1 + FirstNewline(s[1..])
  }

  predicate Unbroken(s: seq<byte>) { NEWLINE !in s }

  /** The newline-terminated lines of a stream, terminators included. */
  function CompleteLines(s: seq<byte>): seq<seq<byte>>
    decreases |s|
  {
    var n := FirstNewline(s);
    if n == |s| then [] else [s[..n + 1]] + CompleteLines(s[n + 1..])
  }

  /** What follows the last newline. */
  function Tail(s: seq<byte>): seq<byte>
    decreases |s|
  {
    var n := FirstNewline(s);
    if n == |s| then s else Tail(s[n + 1..])
  }

  function DescribedAll(raws: seq<seq<byte>>, limit: nat): seq<Physical> {
    if raws == [] then [] else DescribedAll(raws[..|raws| - 1], limit) + [Described(raws[|raws| - 1], limit)]
  }

  lemma FirstNewlineIs(s: seq<byte>, n: nat)
    requires n <= |s| && (forall i :: 0 <= i < n ==> s[i] != NEWLINE) && (n < |s| ==> s[n] == NEWLINE)
    ensures FirstNewline(s) == n
  {
  }

  /** The first line, and the rest. */
  lemma LinesStep(s: seq<byte>, first: seq<byte>, rest: seq<byte>)
    requires FirstNewline(s) < |s| && first == s[..FirstNewline(s) + 1] && rest == s[FirstNewline(s) + 1..]
    ensures s == first + rest && |rest| < |s|
    ensures CompleteLines(s) == [first] + CompleteLines(rest) && Tail(s) == Tail(rest)
  {
  }

  /** Concatenating the lines and the tail gives the stream back. */
  lemma {:induction false} LinesAndTailAreTheStream(s: seq<byte>)
    ensures Joined(CompleteLines(s)) + Tail(s) == s
    ensures Unbroken(Tail(s))
    decreases |s|
  {
    var n := FirstNewline(s);
    if n < |s| {
      var first, rest := s[..n + 1], s[n + 1..];
      LinesStep(s, first, rest);
      LinesAndTailAreTheStream(rest);
      JoinedFront(first, CompleteLines(rest));
      Associate(first, Joined(CompleteLines(rest)), Tail(rest));
    }
  }

  function Joined(raws: seq<seq<byte>>): seq<byte> {
    if raws == [] then [] else raws[0] + Joined(raws[1..])
  }

  lemma JoinedFront(raw: seq<byte>, raws: seq<seq<byte>>)
    ensures Joined([raw] + raws) == raw + Joined(raws)
  {
    assert ([raw] + raws)[1..] == raws;
  }

  /** What is appended does not reach the first line. */
  lemma FirstLineStays(s: seq<byte>, more: seq<byte>, first: seq<byte>, rest: seq<byte>)
    requires FirstNewline(s) < |s| && first == s[..FirstNewline(s) + 1] && rest == s[FirstNewline(s) + 1..]
    ensures |rest| < |s| && s == first + rest
    ensures CompleteLines(s) == [first] + CompleteLines(rest) && Tail(s) == Tail(rest)
    ensures CompleteLines(s + more) == [first] + CompleteLines(rest + more) && Tail(s + more) == Tail(rest + more)
  {
    var n, t := FirstNewline(s), s + more;
    FirstNewlineIs(t, n);
    assert t[..n + 1] == first && t[n + 1..] == rest + more;
    LinesStep(s, first, rest);
    LinesStep(t, first, rest + more);
  }

  /** More bytes without a newline only lengthen the tail. */
  lemma {:induction false} TailGrows(s: seq<byte>, more: seq<byte>)
    requires Unbroken(more)
    ensures CompleteLines(s + more) == CompleteLines(s)
    ensures Tail(s + more) == Tail(s) + more
    decreases |s|
  {
    var n := FirstNewline(s);
    if n < |s| {
      FirstLineStays(s, more, s[..n + 1], s[n + 1..]);
      TailGrows(s[n + 1..], more);
    } else {
      FirstNewlineIs(s + more, |s + more|);
    }
  }

  /** Bytes that end in their only newline turn the tail into one more line. */
  lemma {:induction false} TailCompletes(s: seq<byte>, more: seq<byte>)
    requires more != [] && more[|more| - 1] == NEWLINE && Unbroken(more[..|more| - 1])
    ensures CompleteLines(s + more) == CompleteLines(s) + [Tail(s) + more]
    ensures Tail(s + more) == []
    decreases |s|
  {
    var n := FirstNewline(s);
    if n < |s| {
      var first, rest := s[..n + 1], s[n + 1..];
      FirstLineStays(s, more, first, rest);
      TailCompletes(rest, more);
      Associate([first], CompleteLines(rest), [Tail(rest) + more]);
    } else {
      OneLine(s, more);
    }
  }

  lemma OneLine(s: seq<byte>, more: seq<byte>)
    requires FirstNewline(s) == |s|
    requires more != [] && more[|more| - 1] == NEWLINE && Unbroken(more[..|more| - 1])
    ensures CompleteLines(s + more) == [s + more] && Tail(s + more) == []
  {
    var t := s + more;
    forall i | 0 <= i < |t| - 1 ensures t[i] != NEWLINE {
      if i >= |s| { assert t[i] == more[..|more| - 1][i - |s|]; }
    }
    FirstNewlineIs(t, |t| - 1);
    assert t[..|t|] == t && t[|t|..] == [];
    LinesStep(t, t, []);
    assert CompleteLines([]) == [] && Tail([]) == [];
  }

  /** Reading may stop at a line boundary and resume there: no line is lost or joined. */
  lemma {:induction false} BoundarySplits(s: seq<byte>, more: seq<byte>)
    requires s != [] ==> s[|s| - 1] == NEWLINE
    ensures CompleteLines(s + more) == CompleteLines(s) + CompleteLines(more)
    ensures Tail(s + more) == Tail(more)
    decreases |s|
  {
    if s == [] {
      assert s + more == more;
    } else {
      var n := FirstNewline(s);
      var first, rest := s[..n + 1], s[n + 1..];
      FirstLineStays(s, more, first, rest);
      assert rest != [] ==> rest[|rest| - 1] == s[|s| - 1];
      BoundarySplits(rest, more);
      Associate([first], CompleteLines(rest), CompleteLines(more));
    }
  }

  // ---------- a reader that keeps a bounded prefix ----------

  /** What a reader retains of an unfinished line: a prefix and a count. */
  ghost predicate Holds(partial: seq<byte>, lineBytes: nat, history: seq<byte>, limit: nat) {
    partial == Retained(Tail(history), limit) && lineBytes == |Tail(history)|
  }

  /** Appending only what still fits keeps the retained prefix exact. */
  lemma RetainMore(tail: seq<byte>, fragment: seq<byte>, limit: nat)
    ensures
      var partial := Retained(tail, limit);
      partial + fragment[..Min(|fragment|, limit - |partial|)] == Retained(tail + fragment, limit)
  {
  }

  /** The text a reader derives from its prefix and count is the line's description. */
  lemma FinishedLine(raw: seq<byte>, limit: nat)
    ensures
      var partial := Retained(raw, limit);
      var omitted := |raw| - |partial|;
      Described(raw, limit) ==
      Physical(if omitted == 0 then TrimSuffix(TrimSuffix(partial, NEWLINE), RETURN) else partial, |raw|, omitted)
  {
    assert raw[..|raw|] == raw;
  }

  /** A line within the limit is handed on without its line feed and one carriage return
      before it; of a longer one the first bytes up to the limit. */
  lemma DescribedIsExact(raw: seq<byte>, limit: nat)
    requires raw != [] && raw[|raw| - 1] == 10
    ensures
      var p := Described(raw, limit);
      && p.total == |raw|
      && (|raw| > limit ==> p.text == raw[..limit] && p.omitted == |raw| - limit)
      && (|raw| <= limit ==>
            p.omitted == 0 &&
            (p.text + [13, 10] == raw || (p.text + [10] == raw && (p.text == [] || p.text[|p.text| - 1] != 13))))
  {
    var text := raw[..|raw| - 1];
    assert raw == text + [10];
    if text != [] && text[|text| - 1] == 13 { assert raw == text[..|text| - 1] + [13, 10]; }
  }
}
