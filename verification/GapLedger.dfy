/** The durable record of source gaps and the rules a stored ledger must obey. */
module GapLedger {
  import opened Records
  import opened Numerals

  const CHECKPOINT_VERSION: int := 2
  const MAX_COUNT: nat := 0xFFFF_FFFF_FFFF_FFFF
  const KEPT_INCIDENTS: nat := 8

  /** Instants are integers; zero is the unset instant. */
  datatype Checkpoint = Checkpoint(
    version: int, inputPath: string, device: nat, inode: nat, offset: int, anchor: string, updatedAt: int)

  predicate ValidAnchor(anchor: string) {
    |anchor| == 64 && forall i :: 0 <= i < |anchor| ==> IsHexDigit(anchor[i])
  }

  predicate ValidCheckpoint(c: Checkpoint) {
    && c.version == CHECKPOINT_VERSION
    && c.inputPath != "" && c.device != 0 && c.inode != 0 && c.offset >= 0 && c.updatedAt != 0
    && ValidAnchor(c.anchor)
  }

  /** A stored position is one of the current format, about a file of the input, whose
      anchor is the hexadecimal text of a digest of 32 bytes. */
  lemma CheckpointIsExact(c: Checkpoint)
    ensures ValidCheckpoint(c) <==>
      && c.version == 2 && c.inputPath != "" && c.device > 0 && c.inode > 0 && c.offset >= 0 && c.updatedAt != 0
      && exists digest :: |digest| == 32 && HexDecode(c.anchor) == Some(digest)
  {
    HexTextDecodes(c.anchor);
    if ValidAnchor(c.anchor) { assert HexDecode(c.anchor) == Some(HexDecode(c.anchor).value); }
  }

  /** Equality of the recovery-relevant fields; version and update time do not count. */
  predicate SameCheckpoint(a: Option<Checkpoint>, b: Option<Checkpoint>) {
    if a.None? || b.None? then a.None? && b.None?
    else
      var x, y := a.value, b.value;
      x.inputPath == y.inputPath && x.device == y.device && x.inode == y.inode && x.offset == y.offset &&
        x.anchor == y.anchor
  }

  /** A gap is a missing generation or an observed shrink of the open file. */
  datatype Cause =
    | Truncated(device: nat, inode: nat, offset: int, size: int)
    | Missing(device: nat, inode: nat, reason: string)

  function Reason(cause: Cause): string {
    if cause.Truncated? then "source_truncated"
    else if cause.reason != "" then cause.reason
    else "source_generation_missing"
  }

  predicate KnownReason(reason: string) {
    reason == "source_truncated" || reason == "source_generation_missing" || reason == "missing_intermediate_generation"
  }

  datatype Incident = Incident(
    number: nat, detectedAt: int, reason: string, device: nat, inode: nat,
    observedOffset: Option<int>, observedSize: Option<int>,
    previous: Option<Checkpoint>, resume: Checkpoint, prepared: bool, superseded: bool)

  datatype Ledger = Ledger(version: int, inputPath: string, total: nat, incidents: seq<Incident>)

  predicate ValidIncident(l: Ledger, i: nat)
    requires i < |l.incidents|
  {
    var g := l.incidents[i];
    && g.device != 0 && g.inode != 0 && !(g.prepared && g.superseded)
    && 0 < g.number <= l.total
    && (i > 0 ==> g.number == l.incidents[i - 1].number + 1)
    && g.detectedAt != 0 && KnownReason(g.reason)
    && g.resume.inputPath == l.inputPath && g.resume.offset == 0 && ValidCheckpoint(g.resume)
    && (i < |l.incidents| - 1 ==> !g.prepared)
    && (g.previous.Some? ==> ValidCheckpoint(g.previous.value) && g.previous.value.inputPath == l.inputPath)
  }

  predicate Valid(l: Ledger) {
    && l.version == 1 && l.inputPath != "" && l.total != 0 && 0 < |l.incidents| <= KEPT_INCIDENTS
    && (forall i :: 0 <= i < |l.incidents| ==> ValidIncident(l, i))
    && l.incidents[|l.incidents| - 1].number == l.total
  }

  function Last(l: Ledger): Incident
    requires l.incidents != []
  {
    l.incidents[|l.incidents| - 1]
  }

  function WithLast(l: Ledger, g: Incident): Ledger
    requires l.incidents != []
  {
    l.(incidents := l.incidents[..|l.incidents| - 1] + [g])
  }

  /** A prepared decision that is being replaced is labelled, not dropped. */
  function Superseded(l: Ledger): Ledger {
    if l.incidents != [] && Last(l).prepared then WithLast(l, Last(l).(prepared := false, superseded := true)) else l
  }

  function Trimmed(incidents: seq<Incident>): seq<Incident> {
    if |incidents| > KEPT_INCIDENTS then incidents[|incidents| - KEPT_INCIDENTS..] else incidents
  }

  /** Where the new lineage starts: a retained generation, from its first byte. */
  datatype Resume = Resume(device: nat, inode: nat, offset: int, anchor: string)

  function NewIncident(number: nat, input: string, previous: Option<Checkpoint>, at: Resume, cause: Cause,
                       now: int): Incident {
    Incident(number, now, Reason(cause), cause.device, cause.inode,
             if cause.Truncated? then Some(cause.offset) else None,
             if cause.Truncated? then Some(cause.size) else None,
             previous, Checkpoint(CHECKPOINT_VERSION, input, at.device, at.inode, at.offset, at.anchor, now),
             true, false)
  }

  function Opened(ledger: Option<Ledger>, input: string): Ledger {
    if ledger.Some? then ledger.value else Ledger(1, input, 0, [])
  }

  predicate Exhausted(ledger: Option<Ledger>, input: string) {
    Opened(ledger, input).total == MAX_COUNT
  }

  /** The write-ahead entry: supersede, number, append, trim. */
  function Prepared(ledger: Option<Ledger>, input: string, previous: Option<Checkpoint>, at: Resume, cause: Cause,
                    now: int): (l: Ledger)
    ensures l.incidents != []
  {
    var s := Superseded(Opened(ledger, input));
    s.(total := s.total + 1,
       incidents := Trimmed(s.incidents + [NewIncident(s.total + 1, input, previous, at, cause, now)]))
  }

  function Completed(l: Ledger): Ledger
    requires l.incidents != []
  {
    WithLast(l, Last(l).(prepared := false))
  }

  // ---------- every reachable ledger is valid ----------

  /** What the collector knows when it prepares an incident. */
  predicate Plausible(input: string, previous: Option<Checkpoint>, at: Resume, cause: Cause, now: int) {
    && input != "" && now != 0
    && cause.device != 0 && cause.inode != 0 && KnownReason(Reason(cause))
    && at.device != 0 && at.inode != 0 && at.offset == 0 && ValidAnchor(at.anchor)
    && (previous.Some? ==> ValidCheckpoint(previous.value) && previous.value.inputPath == input)
  }

  predicate ValidOrAbsent(ledger: Option<Ledger>, input: string) {
    ledger.Some? ==> Valid(ledger.value) && ledger.value.inputPath == input
  }

  /** Incidents numbered consecutively up to `total`, all but perhaps the last settled. */
  ghost predicate Chain(incidents: seq<Incident>, input: string, total: nat) {
    && (forall i :: 0 <= i < |incidents| ==> SoundIncident(incidents[i], input))
    && (forall i :: 0 <= i < |incidents| ==> 0 < incidents[i].number == total + 1 + i - |incidents|)
    && (forall i :: 0 <= i < |incidents| - 1 ==> !incidents[i].prepared)
  }

  predicate SoundIncident(g: Incident, input: string) {
    && g.device != 0 && g.inode != 0 && !(g.prepared && g.superseded)
    && g.detectedAt != 0 && KnownReason(g.reason)
    && g.resume.inputPath == input && g.resume.offset == 0 && ValidCheckpoint(g.resume)
    && (g.previous.Some? ==> ValidCheckpoint(g.previous.value) && g.previous.value.inputPath == input)
  }

  lemma {:induction false} NumbersCountDown(l: Ledger, i: nat)
    requires Valid(l) && i < |l.incidents|
    ensures l.incidents[i].number == l.total + 1 + i - |l.incidents|
    decreases |l.incidents| - i
  {
    if i < |l.incidents| - 1 {
      NumbersCountDown(l, i + 1);
      assert ValidIncident(l, i + 1);
    }
  }

  /** The stored form of validity and the chain say the same. */
  lemma ValidIffChain(l: Ledger)
    ensures Valid(l) <==>
      l.version == 1 && l.inputPath != "" && 0 < |l.incidents| <= KEPT_INCIDENTS &&
        Chain(l.incidents, l.inputPath, l.total)
  {
    if Valid(l) {
      forall i | 0 <= i < |l.incidents|
        ensures SoundIncident(l.incidents[i], l.inputPath) &&
          0 < l.incidents[i].number == l.total + 1 + i - |l.incidents|
      {
        assert ValidIncident(l, i);
        NumbersCountDown(l, i);
      }
      forall i | 0 <= i < |l.incidents| - 1 ensures !l.incidents[i].prepared { assert ValidIncident(l, i); }
      assert Chain(l.incidents, l.inputPath, l.total);
    }
    if 0 < |l.incidents| <= KEPT_INCIDENTS && Chain(l.incidents, l.inputPath, l.total) && l.version == 1 &&
      l.inputPath != "" {
      assert l.incidents[0].number > 0;
      forall i | 0 <= i < |l.incidents| ensures ValidIncident(l, i) {}
    }
  }

  /** The theorem: preparing keeps the ledger valid, counts one more incident and
      leaves that incident, and only that one, prepared. */
  lemma PreparedIsValid(ledger: Option<Ledger>, input: string, previous: Option<Checkpoint>, at: Resume, cause: Cause,
                        now: int)
    requires ValidOrAbsent(ledger, input) && Plausible(input, previous, at, cause, now)
    ensures var l := Prepared(ledger, input, previous, at, cause, now);
            && Valid(l) && l.inputPath == input
            && l.total == Opened(ledger, input).total + 1
            && Last(l) == NewIncident(l.total, input, previous, at, cause, now)
  {
    var o := Opened(ledger, input);
    OpenedChain(ledger, input);
    NewIncidentIsSound(o.total + 1, input, previous, at, cause, now);
    PreparedChain(o, Superseded(o), NewIncident(o.total + 1, input, previous, at, cause, now), input);
    ValidIffChain(Prepared(ledger, input, previous, at, cause, now));
  }

  lemma PreparedChain(o: Ledger, s: Ledger, g: Incident, input: string)
    requires Chain(o.incidents, input, o.total) && s == Superseded(o)
    requires SoundIncident(g, input) && g.number == o.total + 1
    ensures var incidents := Trimmed(s.incidents + [g]);
            && Chain(incidents, input, o.total + 1) && 0 < |incidents| <= KEPT_INCIDENTS
            && incidents[|incidents| - 1] == g
    ensures s.total == o.total && s.version == o.version && s.inputPath == o.inputPath
  {
    SupersededChain(o, input);
    AppendedChain(s.incidents, input, s.total, g);
  }

  lemma AppendedChain(incidents: seq<Incident>, input: string, total: nat, g: Incident)
    requires Chain(incidents, input, total)
    requires forall i :: 0 <= i < |incidents| ==> !incidents[i].prepared
    requires SoundIncident(g, input) && g.number == total + 1
    ensures var all := Trimmed(incidents + [g]);
            Chain(all, input, total + 1) && 0 < |all| <= KEPT_INCIDENTS && all[|all| - 1] == g
  {
    ExtendedChain(incidents, input, total, g);
    TrimmedChain(incidents + [g], input, total + 1);
  }

  lemma OpenedChain(ledger: Option<Ledger>, input: string)
    requires ValidOrAbsent(ledger, input)
    ensures var o := Opened(ledger, input);
            Chain(o.incidents, input, o.total) && o.version == 1 && o.inputPath == input
  {
    if ledger.Some? { ValidIffChain(ledger.value); }
  }

  lemma NewIncidentIsSound(number: nat, input: string, previous: Option<Checkpoint>, at: Resume, cause: Cause, now: int)
    requires Plausible(input, previous, at, cause, now)
    ensures SoundIncident(NewIncident(number, input, previous, at, cause, now), input)
  {
  }

  lemma SupersededChain(l: Ledger, input: string)
    requires Chain(l.incidents, input, l.total)
    ensures var s := Superseded(l);
            && Chain(s.incidents, input, s.total) && s.total == l.total && |s.incidents| == |l.incidents|
            && s.version == l.version && s.inputPath == l.inputPath
            && forall i :: 0 <= i < |s.incidents| ==> !s.incidents[i].prepared
  {
  }

  lemma ExtendedChain(incidents: seq<Incident>, input: string, total: nat, g: Incident)
    requires Chain(incidents, input, total)
    requires forall i :: 0 <= i < |incidents| ==> !incidents[i].prepared
    requires SoundIncident(g, input) && g.number == total + 1
    ensures Chain(incidents + [g], input, total + 1)
  {
  }

  lemma TrimmedChain(incidents: seq<Incident>, input: string, total: nat)
    requires Chain(incidents, input, total) && incidents != []
    ensures Chain(Trimmed(incidents), input, total)
    ensures 0 < |Trimmed(incidents)| <= KEPT_INCIDENTS
    ensures Trimmed(incidents)[|Trimmed(incidents)| - 1] == incidents[|incidents| - 1]
  {
  }

  /** Completing an incident keeps the ledger valid and the count unchanged, and
      completing it twice is completing it once. */
  lemma CompletedIsValid(l: Ledger)
    requires Valid(l)
    ensures Valid(Completed(l)) && Completed(l).total == l.total && Completed(l).inputPath == l.inputPath
    ensures Last(Completed(l)) == Last(l).(prepared := false)
    ensures Completed(Completed(l)) == Completed(l)
  {
    ValidIffChain(l);
    ValidIffChain(Completed(l));
    assert Completed(l).incidents[..|l.incidents| - 1] == l.incidents[..|l.incidents| - 1];
  }

  // ---------- the documents field by field ----------

  /** The incident says what was observed, what was stored before and where reading
      goes on, and waits to be carried out. */
  predicate Tells(g: Incident, number: nat, input: string, previous: Option<Checkpoint>, at: Resume, cause: Cause,
                  now: int) {
    && g.number == number && g.detectedAt == now && g.previous == previous && g.prepared && !g.superseded
    && (match cause
        case Truncated(device, inode, offset, size) =>
          g.device == device && g.inode == inode && g.observedOffset == Some(offset) && g.observedSize == Some(size) &&
          g.reason == "source_truncated"
        case Missing(device, inode, reason) =>
          g.device == device && g.inode == inode && g.observedOffset == None && g.observedSize == None &&
          g.reason == if reason == "" then "source_generation_missing" else reason)
    && g.resume.version == 2 && g.resume.inputPath == input
    && g.resume.device == at.device && g.resume.inode == at.inode
    && g.resume.offset == at.offset && g.resume.anchor == at.anchor && g.resume.updatedAt == now
  }

  /** The earlier incident as it is kept: a decision that was never carried out is
      labelled, anything else stays. */
  predicate KeptAs(before: Incident, after: Incident) {
    after == if before.prepared then before.(prepared := false, superseded := true) else before
  }

  /** The theorem: a prepared ledger ends with the incident that tells the gap, after
      the last seven of the incidents before it. */
  lemma PreparedIsExact(ledger: Option<Ledger>, input: string, previous: Option<Checkpoint>, at: Resume, cause: Cause,
                        now: int)
    requires ValidOrAbsent(ledger, input)
    ensures
      var before := if ledger.Some? then ledger.value.incidents else [];
      var total := if ledger.Some? then ledger.value.total else 0;
      var l := Prepared(ledger, input, previous, at, cause, now);
      var kept := if |before| < 8 then |before| else 7;
      && l.version == 1 && l.inputPath == input && l.total == total + 1 && |l.incidents| == kept + 1
      && Tells(l.incidents[kept], total + 1, input, previous, at, cause, now)
      && forall i :: 0 <= i < kept ==> KeptAs(before[|before| - kept + i], l.incidents[i])
  {
    if ledger.Some? {
      var before := ledger.value.incidents;
      forall i | 0 <= i < |before| - 1 ensures !before[i].prepared { assert ValidIncident(ledger.value, i); }
    }
  }

  /** Carrying a decision out changes nothing but its label. */
  lemma CompletedIsExact(l: Ledger)
    requires l.incidents != []
    ensures
      var n, c := |l.incidents| - 1, Completed(l);
      && c.version == l.version && c.inputPath == l.inputPath && c.total == l.total && |c.incidents| == n + 1
      && c.incidents[..n] == l.incidents[..n] && c.incidents[n] == l.incidents[n].(prepared := false)
  {
  }
}
