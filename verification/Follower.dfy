/** A reader of one growing file.  Whatever the buffer size and however the file
    grows between reads, the lines it returns are the newline split of the bytes. */
module Follower {
  import opened Lines
  import opened Records

  /** The consumed prefix as the content anchor samples it: its first and last
      windows, hashed in the collector, kept verbatim here. */
  const ANCHOR_WINDOW: nat := 4096

  function Anchor(prefix: seq<byte>): seq<byte> {
    var n := Min(|prefix|, ANCHOR_WINDOW);
    prefix[..n] + prefix[|prefix| - n..]
  }

  /** Equally long prefixes look the same exactly when their first and their last 4096
      bytes agree. */
  lemma AnchorSeesBothEnds(p: seq<byte>, q: seq<byte>)
    requires |p| == |q|
    ensures Anchor(p) == Anchor(q) <==>
      if |p| <= 4096 then p == q else p[..4096] == q[..4096] && p[|p| - 4096..] == q[|q| - 4096..]
  {
    var n := Min(|p|, 4096);
    assert Anchor(p)[..n] == p[..n] && Anchor(p)[n..] == p[|p| - n..];
    assert Anchor(q)[..n] == q[..n] && Anchor(q)[n..] == q[|q| - n..];
  }

  /** A line boundary: file, generation, byte offset and anchor. */
  datatype Place = Place(identity: Identity, generation: nat, offset: nat, anchor: seq<byte>)

  datatype SourceLine = SourceLine(line: Physical, start: Place, end: Place)

  /** What the system does at one read: bytes that appear first, and how many bytes
      the buffer can take. */
  datatype Read = Read(appended: seq<byte>, capacity: nat)

  /** Everything that appears, and everything the buffers can take, over some reads. */
  function Appearing(script: seq<Read>): seq<byte> {
    if script == [] then [] else Appearing(script[..|script| - 1]) + script[|script| - 1].appended
  }

  function Taking(script: seq<Read>): nat {
    if script == [] then 0 else Taking(script[..|script| - 1]) + script[|script| - 1].capacity
  }

  datatype Status = Found | BufferFull | EndOfFile

  /** The next bytes up to and including a newline, the end of the buffer or of the file. */
  function ReadSlice(rest: seq<byte>, capacity: nat): (r: (seq<byte>, Status))
    ensures r.0 <= rest
    ensures r.1.Found? ==> r.0 != [] && r.0[|r.0| - 1] == NEWLINE && Unbroken(r.0[..|r.0| - 1])
    ensures !r.1.Found? ==> Unbroken(r.0)
    ensures r.1.EndOfFile? ==> r.0 == rest
  {
    var n := FirstNewline(rest);
    if n < |rest| && n < capacity then (rest[..n + 1], Found)
    else if |rest| >= capacity then (rest[..capacity], BufferFull)
    else (rest, EndOfFile)
  }

  datatype Result = LineRead(line: SourceLine) | Idle | Cancelled

  lemma OneMoreRead(script: seq<Read>, i: nat, content: seq<byte>)
    requires i < |script|
    ensures content + Appearing(script[..i + 1]) == content + Appearing(script[..i]) + script[i].appended
    ensures Taking(script[..i + 1]) == Taking(script[..i]) + script[i].capacity
  {
    assert script[..i + 1][..i] == script[..i];
  }

  class FileFollower {
    const limit: nat
    const identity: Identity
    const generation: nat
    var content: seq<byte>
    var partial: seq<byte>
    var lineBytes: nat
    var readOffset: nat
    var origin: Identity
    var originGen: nat
    var originOffset: nat
    var originAnchor: seq<byte>
    /** Every byte read so far, in this file and in the generations before it. */
    ghost var history: seq<byte>
    /** The bytes that precede the unfinished line in the file it started in. */
    ghost var before: seq<byte>

    /** Where the unfinished line starts. */
    function Origin(): Place
      reads this
    {
      Place(origin, originGen, originOffset, originAnchor)
    }

    ghost predicate Valid()
      reads this
    {
      && 0 < limit && readOffset <= |content|
      && Holds(partial, lineBytes, history, limit)
      && originOffset == |before| && originAnchor == Anchor(before)
      && originGen <= generation
      && (lineBytes == 0 ==> originGen == generation)
      && (originGen == generation ==> origin == identity && before + Tail(history) == content[..readOffset])
    }

    /** What a result says of the bytes read since `seen`, when the unfinished line
        started at `start`: one more line that ends where the next one starts, or none. */
    ghost predicate Tells(result: Result, seen: seq<byte>, start: Place)
      requires readOffset <= |content|
      reads this
    {
      match result
      case LineRead(l) =>
        && DescribedAll(CompleteLines(history), limit) == DescribedAll(CompleteLines(seen), limit) + [l.line]
        && l.start == start
        && Origin() == l.end == Place(identity, generation, readOffset, Anchor(content[..readOffset]))
        && Tail(history) == []
      case Idle => CompleteLines(history) == CompleteLines(seen) && Origin() == start && readOffset == |content|
      case Cancelled => CompleteLines(history) == CompleteLines(seen) && Origin() == start
    }

    constructor (limit: nat, identity: Identity, generation: nat, content: seq<byte>, offset: nat)
      requires 0 < limit && offset <= |content|
      ensures Valid() && history == [] && readOffset == offset && this.content == content
      ensures this.limit == limit && this.identity == identity && this.generation == generation
      ensures Origin() == Place(identity, generation, offset, Anchor(content[..offset]))
    {
      this.limit, this.identity, this.generation, this.content := limit, identity, generation, content;
      partial, lineBytes, readOffset := [], 0, offset;
      origin, originGen, originOffset, originAnchor := identity, generation, offset, Anchor(content[..offset]);
      history, before := [], content[..offset];
    }

    /** Take a fragment in: count all of it, retain what fits. */
    method Take(fragment: seq<byte>)
      requires Valid() && fragment <= content[readOffset..]
      modifies this`partial, this`lineBytes, this`readOffset, this`history
      ensures partial == Retained(Tail(old(history)) + fragment, limit)
      ensures lineBytes == |Tail(old(history)) + fragment|
      ensures readOffset == old(readOffset) + |fragment| <= |content|
      ensures content[old(readOffset)..readOffset] == fragment
      ensures history == old(history) + fragment
    {
      RetainMore(Tail(history), fragment, limit);
      lineBytes := lineBytes + |fragment|;
      var retain := |fragment|;
      if retain > limit - |partial| {
        retain := limit - |partial|;
      }
      partial := partial + fragment[..retain];
      readOffset := readOffset + |fragment|;
      history := history + fragment;
    }

    /** Close the current line and start the next one where it ends. */
    method Deliver(ghost raw: seq<byte>) returns (line: SourceLine)
      requires partial == Retained(raw, limit) && lineBytes == |raw|
      requires readOffset <= |content|
      modifies this`partial, this`lineBytes, this`before
      modifies this`origin, this`originGen, this`originOffset, this`originAnchor
      ensures line ==
        SourceLine(Described(raw, limit), old(Origin()),
                   Place(identity, generation, readOffset, Anchor(content[..readOffset])))
      ensures Origin() == line.end && partial == [] && lineBytes == 0 && before == content[..readOffset]
    {
      FinishedLine(raw, limit);
      var omitted := lineBytes - |partial|;
      var complete := partial;
      if omitted == 0 {
        complete := TrimSuffix(TrimSuffix(complete, NEWLINE), RETURN);
      }
      var endAnchor := Anchor(content[..readOffset]);
      line := SourceLine(Physical(complete, lineBytes, omitted),
                         Place(origin, originGen, originOffset, originAnchor),
                         Place(identity, generation, readOffset, endAnchor));
      origin, originGen, originOffset, originAnchor := identity, generation, readOffset, endAnchor;
      partial, lineBytes := [], 0;
      before := content[..readOffset];
    }

    /** Read until a line is complete or the file is exhausted.  `script` is what the
        system does at each read; running out of it stands for cancellation. */
    method NextSource(script: seq<Read>) returns (result: Result, ghost made: nat)
      requires Valid() && forall r :: r in script ==> r.capacity > 0
      modifies this
      ensures Valid() && old(content) <= content && old(readOffset) <= readOffset
      ensures history == old(history) + content[old(readOffset)..readOffset]
      ensures Tells(result, old(history), old(Origin()))
      ensures made <= |script| && content == old(content) + Appearing(script[..made])
      ensures result.Cancelled? ==> made == |script| && readOffset == old(readOffset) + Taking(script)
      ensures result.LineRead? ==> readOffset > old(readOffset)
    {
      var i := 0;
      made := 0;
      while i < |script|
        invariant 0 <= i <= |script| && made == i
        invariant content == old(content) + Appearing(script[..i])
        invariant readOffset == old(readOffset) + Taking(script[..i])
        invariant Valid() && old(content) <= content && old(readOffset) <= readOffset
        invariant history == old(history) + content[old(readOffset)..readOffset]
        invariant CompleteLines(history) == CompleteLines(old(history)) && Origin() == old(Origin())
      {
        ghost var seen, from := content, readOffset;
        result := ReadOnce(script[i]);
        ConsumedGrows(old(history), seen, content, old(readOffset), from, readOffset);
        OneMoreRead(script, i, old(content));
        made := made + 1;
        if !result.Cancelled? {
          return;
        }
        i := i + 1;
      }
      assert script[..|script|] == script;
      return Cancelled, made;
    }

    /** One turn of the read loop; `Cancelled` means that the line is not finished. */
    method ReadOnce(read: Read) returns (result: Result)
      requires Valid() && read.capacity > 0
      modifies this
      ensures Valid() && old(content) <= content && old(readOffset) <= readOffset
      ensures history == old(history) + content[old(readOffset)..readOffset]
      ensures Tells(result, old(history), old(Origin()))
      ensures content == old(content) + read.appended
      ensures result.Cancelled? ==> readOffset == old(readOffset) + read.capacity
      ensures result.LineRead? ==> readOffset > old(readOffset)
    {
      Grow(read.appended);
      var slice := ReadSlice(content[readOffset..], read.capacity);
      if slice.1.Found? {
        var line := Finish(slice.0);
        return LineRead(line);
      }
      Extend(slice.0);
      return if slice.1.BufferFull? then Cancelled else Idle;
    }

    /** Hand an unfinished line over to the reader of the next generation. */
    method TransferPartialTo(next: FileFollower)
      requires Valid() && next.Valid() && next != this && next.limit == limit && generation < next.generation
      requires next.history == [] && next.readOffset == 0
      modifies this`partial, this`lineBytes
      modifies next`partial, next`lineBytes, next`history, next`before
      modifies next`origin, next`originGen, next`originOffset, next`originAnchor
      ensures next.Valid() && next.history == history && next.readOffset == 0
      ensures next.Origin() == if Tail(history) == [] then old(next.Origin()) else old(Origin())
    {
      next.history := history;
      if |partial| == 0 {
        return;
      }
      next.partial := partial;
      next.lineBytes := lineBytes;
      lineBytes := 0;
      next.origin, next.originGen := origin, originGen;
      next.originOffset, next.originAnchor := originOffset, originAnchor;
      next.before := before;
      partial := [];
    }

    /** The writer appends to the open file. */
    method Grow(appended: seq<byte>)
      requires Valid()
      modifies this`content
      ensures Valid() && content == old(content) + appended
    {
      content := content + appended;
      assert content[..readOffset] == old(content)[..readOffset];
    }

    /** A fragment without a newline. */
    method Extend(fragment: seq<byte>)
      requires Valid() && fragment <= content[readOffset..] && Unbroken(fragment)
      modifies this`partial, this`lineBytes, this`readOffset, this`history
      ensures Valid() && readOffset == old(readOffset) + |fragment|
      ensures history == old(history) + content[old(readOffset)..readOffset]
      ensures CompleteLines(history) == CompleteLines(old(history))
    {
      TailGrows(history, fragment);
      PrefixExtends(content, readOffset, fragment);
      assert before + Tail(history) + fragment == before + (Tail(history) + fragment);
      Take(fragment);
    }

    /** A fragment that ends in a newline. */
    method Finish(fragment: seq<byte>) returns (line: SourceLine)
      requires Valid() && fragment <= content[readOffset..]
      requires fragment != [] && fragment[|fragment| - 1] == NEWLINE && Unbroken(fragment[..|fragment| - 1])
      modifies this
      ensures Valid() && readOffset == old(readOffset) + |fragment| && content == old(content)
      ensures history == old(history) + content[old(readOffset)..readOffset]
      ensures DescribedAll(CompleteLines(history), limit) == DescribedAll(CompleteLines(old(history)), limit) +
        [line.line]
      ensures line.start == old(Origin()) && Tail(history) == []
      ensures Origin() == line.end == Place(identity, generation, readOffset, Anchor(content[..readOffset]))
    {
      TailCompletes(history, fragment);
      DescribedNext(CompleteLines(history), Tail(history) + fragment, limit);
      Take(fragment);
      line := Deliver(Tail(old(history)) + fragment);
    }
  }

  lemma ConsumedGrows(earlier: seq<byte>, before: seq<byte>, after: seq<byte>, base: nat, from: nat, to: nat)
    requires before <= after && base <= from <= |before| && from <= to <= |after|
    ensures earlier + before[base..from] + after[from..to] == earlier + after[base..to]
  {
  }

  lemma PrefixExtends(content: seq<byte>, offset: nat, fragment: seq<byte>)
    requires offset <= |content| && fragment <= content[offset..]
    ensures content[..offset] + fragment == content[..offset + |fragment|]
  {
    assert content[offset..offset + |fragment|] == content[offset..][..|fragment|];
  }

  lemma DescribedNext(raws: seq<seq<byte>>, raw: seq<byte>, limit: nat)
    ensures DescribedAll(raws + [raw], limit) == DescribedAll(raws, limit) + [Described(raw, limit)]
  {
    assert (raws + [raw])[..|raws|] == raws;
  }

  /** How one slice changes what a reader of `input` has seen. */
  lemma SliceEffect(input: seq<byte>, offset: nat, capacity: nat, limit: nat)
    requires offset <= |input|
    ensures
      var slice := ReadSlice(input[offset..], capacity);
      var seen, next := input[..offset], input[..offset + |slice.0|];
      var raw := Tail(seen) + slice.0;
      && (if slice.1.Found?
          then CompleteLines(next) == CompleteLines(seen) + [raw] && Tail(next) == []
          else CompleteLines(next) == CompleteLines(seen) && Tail(next) == raw)
      && DescribedAll(CompleteLines(seen) + [raw], limit) == DescribedAll(CompleteLines(seen), limit) +
        [Described(raw, limit)]
      && (slice.1.EndOfFile? ==> next == input)
  {
    var slice := ReadSlice(input[offset..], capacity);
    PrefixExtends(input, offset, slice.0);
    if slice.1.Found? { TailCompletes(input[..offset], slice.0); } else { TailGrows(input[..offset], slice.0); }
    DescribedNext(CompleteLines(input[..offset]), Tail(input[..offset]) + slice.0, limit);
  }

  /** Retain what fits of one more fragment. */
  method Absorb(partial: seq<byte>, fragment: seq<byte>, limit: nat, ghost tail: seq<byte>)
    returns (extended: seq<byte>)
    requires partial == Retained(tail, limit)
    ensures extended == Retained(tail + fragment, limit)
  {
    RetainMore(tail, fragment, limit);
    var retain := |fragment|;
    if retain > limit - |partial| {
      retain := limit - |partial|;
    }
    extended := partial + fragment[..retain];
  }

  /** A finished line, within the limit or rejected with its retained prefix. */
  method Hand(partial: seq<byte>, lineBytes: nat, limit: nat, ghost raw: seq<byte>) returns (line: Physical)
    requires partial == Retained(raw, limit) && lineBytes == |raw|
    ensures line == Described(raw, limit)
  {
    FinishedLine(raw, limit);
    if lineBytes > limit {
      return Physical(partial, lineBytes, lineBytes - |partial|);
    }
    return Physical(TrimSuffix(TrimSuffix(partial, NEWLINE), RETURN), lineBytes, 0);
  }

  /** The lines of a whole input, the final unterminated one included. */
  function AllLines(input: seq<byte>, limit: nat): seq<Physical> {
    DescribedAll(CompleteLines(input), limit) + if Tail(input) == [] then [] else [Described(Tail(input), limit)]
  }

  /** The state of the batch loop after `offset` bytes of the input. */
  datatype Batch = Batch(offset: nat, partial: seq<byte>, lineBytes: nat, lines: seq<Physical>)

  ghost predicate Reads(b: Batch, input: seq<byte>, limit: nat) {
    && b.offset <= |input|
    && Holds(b.partial, b.lineBytes, input[..b.offset], limit)
    && b.lines == DescribedAll(CompleteLines(input[..b.offset]), limit)
  }

  /** What one slice means for the lines of the whole input. */
  lemma TurnEffect(b: Batch, input: seq<byte>, slice: (seq<byte>, Status), capacity: nat, limit: nat)
    requires 0 < capacity && 0 < limit && Reads(b, input, limit) && slice == ReadSlice(input[b.offset..], capacity)
    ensures b.offset + |slice.0| <= |input|
    ensures
      var seen, raw := input[..b.offset + |slice.0|], Tail(input[..b.offset]) + slice.0;
      && (slice.1.Found? ==>
        Tail(seen) == [] && DescribedAll(CompleteLines(seen), limit) == b.lines + [Described(raw, limit)])
      && (!slice.1.Found? ==> Tail(seen) == raw && DescribedAll(CompleteLines(seen), limit) == b.lines)
      && (slice.1.EndOfFile? ==>
        AllLines(input, limit) == if raw == [] then b.lines else b.lines + [Described(raw, limit)])
      && (slice.1.Found? ==> raw != []) && (!slice.1.EndOfFile? ==> slice.0 != [])
  {
    SliceEffect(input, b.offset, capacity, limit);
  }

  /** One turn of the batch loop. */
  method BatchTurn(b: Batch, input: seq<byte>, capacity: nat, limit: nat) returns (next: Batch, status: Status)
    requires 0 < capacity && 0 < limit && Reads(b, input, limit)
    ensures b.offset <= next.offset
    ensures status.EndOfFile? ==> next.lines == AllLines(input, limit)
    ensures !status.EndOfFile? ==> Reads(next, input, limit) && b.offset < next.offset
  {
    var slice := ReadSlice(input[b.offset..], capacity);
    ghost var raw := Tail(input[..b.offset]) + slice.0;
    TurnEffect(b, input, slice, capacity, limit);
    var partial := Absorb(b.partial, slice.0, limit, Tail(input[..b.offset]));
    var lineBytes := b.lineBytes + |slice.0|;
    status := slice.1;
    next := Batch(b.offset + |slice.0|, partial, lineBytes, b.lines);
    if status.BufferFull? {
      return;
    }
    if |partial| > 0 {
      var line := Hand(partial, lineBytes, limit, raw);
      next := Batch(next.offset, [], 0, b.lines + [line]);
    }
  }

  /** The batch reader's line loop: the same rule as the follower, by another loop. */
  method BatchLines(input: seq<byte>, capacity: nat, limit: nat) returns (lines: seq<Physical>)
    requires 0 < capacity && 0 < limit
    ensures lines == AllLines(input, limit)
  {
    var b, status := Batch(0, [], 0, []), BufferFull;
    while true
      invariant Reads(b, input, limit)
      decreases |input| - b.offset
    {
      b, status := BatchTurn(b, input, capacity, limit);
      if status.EndOfFile? {
        return b.lines;
      }
    }
  }
}
