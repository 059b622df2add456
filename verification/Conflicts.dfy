/** Singleton fields: when two spellings of a field that must be unique disagree, the
    field is withheld.  The outcome does not depend on the order of records or on
    the order in which maps are visited. */
module Conflicts {
  import opened Records
  import opened Spots

  const SINGLETONS: set<string> := {
    "auid", "AUID", "uid", "UID", "euid", "EUID", "pid", "ppid", "comm", "exe", "cwd", "tty", "exit", "arch", "ARCH",
    "syscall", "SYSCALL", "acct", "addr", "hostname", "terminal", "name", "nametype", "item", "ouid", "OUID", "ogid",
    "OGID", "cap_fp", "cap_fi", "cap_fe", "decision", "apparmor", "scontext", "subj", "tcontext", "tclass", "profile",
    "permissive", "code", "sig", "ip", "compat", "op", "operation", "unit", "service", "reason"}

  const EVENT_SINGLETONS: set<string> := {
    "auid", "AUID", "uid", "UID", "euid", "EUID", "pid", "ppid", "comm", "exe", "cwd", "tty", "exit", "arch", "ARCH",
    "syscall", "SYSCALL", "acct", "addr", "hostname", "terminal", "unit", "service", "reason", "op", "operation"}

  /** Two names for one decision; compared by their last values within a record. */
  const RIVALS: seq<(string, string)> := [("decision", "apparmor"), ("scontext", "subj"), ("op", "operation")]

  /** A raw field and its interpreted form; withheld together. */
  const ALIASES: seq<(string, string)> := [
    ("auid", "AUID"), ("uid", "UID"), ("euid", "EUID"), ("ouid", "OUID"), ("ogid", "OGID"), ("arch", "ARCH"),
    ("syscall", "SYSCALL")]

  /** Which fields must be unique in a record, and which of them in the whole event. */
  datatype Policy = Policy(single: set<string>, event: set<string>)

  const COLLECTOR := Policy(SINGLETONS, EVENT_SINGLETONS)

  /** Event singletons are singletons, and so are both names of a rival pair. */
  ghost predicate Proper(p: Policy) {
    p.event <= p.single && forall n :: 0 <= n < |RIVALS| ==> RIVALS[n].0 in p.single && RIVALS[n].1 in p.single
  }

  lemma CollectorIsProper()
    ensures Proper(COLLECTOR)
  {
  }

  /** The values of a record by field name, in its body and in its embedded message. */
  datatype Values = Values(raw: map<string, seq<string>>, embedded: map<string, seq<string>>)

  /** The fields of a record in order, in its body and in its embedded message. */
  datatype Body = Body(raw: seq<Field>, embedded: seq<Field>)

  // ---------- one field ----------

  /** What the scan remembers of one field: the last value and whether two differed. */
  datatype Memory = Memory(last: Option<string>, conflict: bool)

  const BLANK := Memory(None, false)

  function Noted(m: Memory, value: string): Memory {
    Memory(Some(value), m.conflict || (m.last.Some? && m.last.value != value))
  }

  function NotedAll(m: Memory, values: seq<string>): Memory {
    if values == [] then m else Noted(NotedAll(m, values[..|values| - 1]), values[|values| - 1])
  }

  lemma {:induction false} NotedConcat(m: Memory, a: seq<string>, b: seq<string>)
    ensures NotedAll(m, a + b) == NotedAll(NotedAll(m, a), b)
  {
    if b == [] {
      assert a + b == a;
    } else {
      NotedConcat(m, a, b[..|b| - 1]);
      assert (a + b)[..|a + b| - 1] == a + b[..|b| - 1];
    }
  }

  ghost predicate Disagree(values: seq<string>) {
    exists i, j :: 0 <= i < |values| && 0 <= j < |values| && values[i] != values[j]
  }

  /** Comparing each value with the one before it finds any disagreement. */
  lemma {:induction false} NotedMeaning(values: seq<string>)
    ensures NotedAll(BLANK, values).last == if values == [] then None else Some(values[|values| - 1])
    ensures NotedAll(BLANK, values).conflict <==> Disagree(values)
  {
    if values != [] {
      var front, v := values[..|values| - 1], values[|values| - 1];
      NotedMeaning(front);
      if Disagree(front) {
        var i, j :| 0 <= i < |front| && 0 <= j < |front| && front[i] != front[j];
        assert values[i] != values[j];
      } else if front != [] {
        assert forall i :: 0 <= i < |front| ==> front[i] == front[|front| - 1];
        if front[|front| - 1] != v { assert values[|front| - 1] != values[|front|]; }
      }
    }
  }

  // ---------- all fields ----------

  /** The scan's maps: last value per field seen, and the fields in conflict. */
  datatype Tracker = Tracker(last: map<string, string>, conflicts: set<string>)

  const NO_TRACKER := Tracker(map[], {})

  function View(t: Tracker, k: string): Memory {
    Memory(if k in t.last then Some(t.last[k]) else None, k in t.conflicts)
  }

  function Entries(m: map<string, seq<string>>, k: string): seq<string> { if k in m then m[k] else [] }

  /** All values of a field in one record. */
  function Occurrences(r: Values, k: string): seq<string> { Entries(r.raw, k) + Entries(r.embedded, k) }

  /** All values of a field in an event, in order. */
  function EventOccurrences(records: seq<Values>, k: string): seq<string> {
    if records == [] then []
    else EventOccurrences(records[..|records| - 1], k) + Occurrences(records[|records| - 1], k)
  }

  /** Note one field's values; every other field is left alone. */
  method NoteField(t: Tracker, k: string, values: seq<string>) returns (u: Tracker)
    ensures forall l :: View(u, l) == if l == k then NotedAll(View(t, k), values) else View(t, l)
  {
    u := t;
    for n := 0 to |values|
      invariant forall l :: View(u, l) == if l == k then NotedAll(View(t, k), values[..n]) else View(t, l)
    {
      assert values[..n + 1][..n] == values[..n];
      var value := values[n];
      var conflicts := if k in u.last && u.last[k] != value then u.conflicts + {k} else u.conflicts;
      u := Tracker(u.last[k := value], conflicts);
    }
    assert values[..|values|] == values;
  }

  /** Note a whole map in whatever order it is visited; only `keep` is looked at. */
  method NoteMap(t: Tracker, m: map<string, seq<string>>, keep: set<string>) returns (u: Tracker)
    ensures forall k :: View(u, k) == if k in keep then NotedAll(View(t, k), Entries(m, k)) else View(t, k)
  {
    u := t;
    var todo := m.Keys;
    while todo != {}
      invariant todo <= m.Keys
      invariant forall k ::
        View(u, k) == if k in keep && k !in todo then NotedAll(View(t, k), Entries(m, k)) else View(t, k)
      decreases todo
    {
      var k :| k in todo;
      todo := todo - {k};
      if k in keep {
        u := NoteField(u, k, m[k]);
      }
    }
  }

  // ---------- what is withheld ----------

  /** Both names occur in the record and their last values differ. */
  ghost predicate Clash(r: Values, p: (string, string)) {
    var a, b := Occurrences(r, p.0), Occurrences(r, p.1);
    a != [] && b != [] && a[|a| - 1] != b[|b| - 1]
  }

  ghost predicate Rivalled(r: Values, k: string) {
    exists i :: 0 <= i < |RIVALS| && (RIVALS[i].0 == k || RIVALS[i].1 == k) && Clash(r, RIVALS[i])
  }

  /** The field itself is ambiguous in the record or in the event. */
  ghost predicate Marked(p: Policy, records: seq<Values>, i: nat, k: string)
    requires i < |records|
  {
    || (k in p.single && Disagree(Occurrences(records[i], k)))
    || Rivalled(records[i], k)
    || (k in p.event && Disagree(EventOccurrences(records, k)))
  }

  predicate Aliased(k: string, l: string) {
    exists a :: 0 <= a < |ALIASES| && (ALIASES[a] == (k, l) || ALIASES[a] == (l, k))
  }

  /** The field or its alias is ambiguous. */
  ghost predicate Withheld(p: Policy, records: seq<Values>, i: nat, k: string)
    requires i < |records|
  {
    Marked(p, records, i, k) || exists l :: Aliased(k, l) && Marked(p, records, i, l)
  }

  // ---------- the marking as it runs ----------

  /** The tracker has seen exactly these values of the field. */
  ghost predicate Recalls(t: Tracker, k: string, values: seq<string>) {
    View(t, k) == NotedAll(BLANK, values)
  }

  lemma RecallsConflict(t: Tracker, k: string, values: seq<string>)
    requires Recalls(t, k, values)
    ensures k in t.conflicts <==> Disagree(values)
    ensures k in t.last <==> values != []
    ensures values != [] ==> t.last[k] == values[|values| - 1]
  {
    NotedMeaning(values);
    assert View(t, k).conflict == (k in t.conflicts);
    assert View(t, k).last.Some? == (k in t.last);
  }

  /** Scan one record on top of what the tracker recalls. */
  method NoteRecord(t: Tracker, r: Values, keep: set<string>) returns (u: Tracker)
    ensures forall k, values :: Recalls(t, k, values) ==>
      Recalls(u, k, if k in keep then values + Occurrences(r, k) else values)
  {
    u := NoteMap(t, r.raw, keep);
    u := NoteMap(u, r.embedded, keep);
    forall k, values | Recalls(t, k, values)
      ensures Recalls(u, k, if k in keep then values + Occurrences(r, k) else values)
    {
      NotedConcat(BLANK, values, Entries(r.raw, k));
      NotedConcat(BLANK, values + Entries(r.raw, k), Entries(r.embedded, k));
      assert values + Entries(r.raw, k) + Entries(r.embedded, k) == values + Occurrences(r, k);
    }
  }

  ghost predicate RivalledBefore(n: nat, r: Values, k: string)
    requires n <= |RIVALS|
  {
    exists i :: 0 <= i < n && (RIVALS[i].0 == k || RIVALS[i].1 == k) && Clash(r, RIVALS[i])
  }

  lemma RivalStep(n: nat, r: Values, k: string)
    requires n < |RIVALS|
    ensures RivalledBefore(n + 1, r, k) <==>
      RivalledBefore(n, r, k) || ((RIVALS[n].0 == k || RIVALS[n].1 == k) && Clash(r, RIVALS[n]))
  {
  }

  lemma ClashSeen(r: Values, t: Tracker, p: (string, string))
    requires Recalls(t, p.0, Occurrences(r, p.0)) && Recalls(t, p.1, Occurrences(r, p.1))
    ensures Clash(r, p) <==> p.0 in t.last && p.1 in t.last && t.last[p.0] != t.last[p.1]
  {
    RecallsConflict(t, p.0, Occurrences(r, p.0));
    RecallsConflict(t, p.1, Occurrences(r, p.1));
  }

  /** The rival pairs of one record. */
  method MarkRivals(p: Policy, r: Values, t: Tracker, marked: set<string>) returns (all: set<string>)
    requires Proper(p) && forall k :: k in p.single ==> Recalls(t, k, Occurrences(r, k))
    ensures forall k :: k in all <==> k in marked || Rivalled(r, k)
  {
    all := marked;
    for n := 0 to |RIVALS|
      invariant forall k :: k in all <==> k in marked || RivalledBefore(n, r, k)
    {
      var pair := RIVALS[n];
      ClashSeen(r, t, pair);
      forall k ensures RivalledBefore(n + 1, r, k) <==>
        RivalledBefore(n, r, k) || ((pair.0 == k || pair.1 == k) && Clash(r, pair)) {
        RivalStep(n, r, k);
      }
      if pair.0 in t.last && pair.1 in t.last && t.last[pair.0] != t.last[pair.1] {
        all := all + {pair.0, pair.1};
      }
    }
  }

  /** An ambiguous field must not reappear through its interpreted form. */
  method CloseAliases(marked: set<string>) returns (all: set<string>)
    ensures forall k :: k in all <==> k in marked || exists l :: Aliased(k, l) && l in marked
  {
    all := marked;
    for n := 0 to |ALIASES|
      invariant forall k :: k in all <==> k in marked || exists l :: AliasedBefore(n, k, l) && l in marked
    {
      var pair := ALIASES[n];
      AliasesAreDisjoint(n);
      ghost var before := all;
      if pair.0 in all || pair.1 in all {
        all := all + {pair.0, pair.1};
      }
      forall k ensures k in all <==> k in marked || exists l :: AliasedBefore(n + 1, k, l) && l in marked {
        AliasStep(n, k, marked, before);
      }
    }
  }

  ghost predicate AliasedBefore(n: nat, k: string, l: string)
    requires n <= |ALIASES|
  {
    exists a :: 0 <= a < n && (ALIASES[a] == (k, l) || ALIASES[a] == (l, k))
  }

  /** No field has two aliases. */
  lemma AliasesAreDisjoint(n: nat)
    requires n < |ALIASES|
    ensures ALIASES[n].0 != ALIASES[n].1
    ensures forall a :: 0 <= a < n ==> {ALIASES[a].0, ALIASES[a].1} !! {ALIASES[n].0, ALIASES[n].1}
  {
  }

  lemma AliasStep(n: nat, k: string, marked: set<string>, before: set<string>)
    requires n < |ALIASES|
    requires forall x :: x in before <==> x in marked || exists l :: AliasedBefore(n, x, l) && l in marked
    ensures var p := ALIASES[n];
            var all := if p.0 in before || p.1 in before then before + {p.0, p.1} else before;
            k in all <==> k in marked || exists l :: AliasedBefore(n + 1, k, l) && l in marked
  {
    var p := ALIASES[n];
    AliasesAreDisjoint(n);
    assert forall l :: !AliasedBefore(n, p.0, l) && !AliasedBefore(n, p.1, l);
    assert p.0 in before <==> p.0 in marked;
    assert p.1 in before <==> p.1 in marked;
    forall l ensures AliasedBefore(n + 1, k, l) <==> AliasedBefore(n, k, l) || p == (k, l) || p == (l, k) {
    }
    assert AliasedBefore(n + 1, p.0, p.1) && AliasedBefore(n + 1, p.1, p.0);
  }

  /** Conflicts within one record, before the event is known. */
  method MarkRecord(p: Policy, r: Values) returns (marked: set<string>)
    requires Proper(p)
    ensures MarkedLocally(p, r, marked)
  {
    assert forall k :: Recalls(NO_TRACKER, k, []);
    var t := NoteRecord(NO_TRACKER, r, p.single);
    forall k ensures k in p.single ==>
      Recalls(t, k, Occurrences(r, k)) && (k in t.conflicts <==> Disagree(Occurrences(r, k)))
             ensures k !in p.single ==> k !in t.conflicts
    {
      assert Recalls(NO_TRACKER, k, []);
      assert [] + Occurrences(r, k) == Occurrences(r, k);
      RecallsConflict(t, k, if k in p.single then Occurrences(r, k) else []);
    }
    marked := MarkRivals(p, r, t, t.conflicts);
  }

  ghost predicate RecallsEvent(p: Policy, t: Tracker, records: seq<Values>) {
    forall k :: Recalls(t, k, if k in p.event then EventOccurrences(records, k) else [])
  }

  method NoteEvent(p: Policy, t: Tracker, ghost before: seq<Values>, r: Values) returns (u: Tracker)
    requires RecallsEvent(p, t, before)
    ensures RecallsEvent(p, u, before + [r])
  {
    u := NoteRecord(t, r, p.event);
    assert (before + [r])[..|before|] == before;
    forall k ensures Recalls(u, k, if k in p.event then EventOccurrences(before + [r], k) else []) {
      assert Recalls(t, k, if k in p.event then EventOccurrences(before, k) else []);
    }
  }

  ghost predicate MarkedLocally(p: Policy, r: Values, marked: set<string>) {
    forall k :: k in marked <==> (k in p.single && Disagree(Occurrences(r, k))) || Rivalled(r, k)
  }

  /** The first pass: conflicts record by record, and the event's memory. */
  method ScanRecords(p: Policy, records: seq<Values>) returns (local: seq<set<string>>, event: Tracker)
    requires Proper(p)
    ensures |local| == |records| && forall i :: 0 <= i < |records| ==> MarkedLocally(p, records[i], local[i])
    ensures RecallsEvent(p, event, records)
  {
    local, event := [], NO_TRACKER;
    for n := 0 to |records|
      invariant |local| == n && forall i :: 0 <= i < n ==> MarkedLocally(p, records[i], local[i])
      invariant RecallsEvent(p, event, records[..n])
    {
      var marked := MarkRecord(p, records[n]);
      event := NoteEvent(p, event, records[..n], records[n]);
      assert records[..n + 1] == records[..n] + [records[n]];
      local := local + [marked];
    }
    assert records[..|records|] == records;
  }

  ghost predicate WithheldIn(p: Policy, records: seq<Values>, i: nat, withheld: set<string>)
    requires i < |records|
  {
    forall k :: k in withheld <==> Withheld(p, records, i, k)
  }

  /** The tracker's conflicts are the ambiguous event singletons. */
  ghost predicate ConflictsOf(p: Policy, t: Tracker, records: seq<Values>) {
    forall k :: k in t.conflicts <==> k in p.event && Disagree(EventOccurrences(records, k))
  }

  /** The second pass for one record: the event's conflicts apply everywhere. */
  method WithholdIn(p: Policy, ghost records: seq<Values>, ghost i: nat, local: set<string>, event: Tracker)
    returns (all: set<string>)
    requires i < |records| && MarkedLocally(p, records[i], local)
    requires ConflictsOf(p, event, records)
    ensures WithheldIn(p, records, i, all)
  {
    var marked := local + event.conflicts;
    assert forall k :: k in marked <==> Marked(p, records, i, k);
    all := CloseAliases(marked);
  }

  // ---------- what is reported ----------

  function Report(n: nat, f: Field, embedded: bool): Issue { FieldIssue("conflicting_singleton", n, f, embedded) }

  /** Each occurrence of a withheld field in one section of a record. */
  function SectionIssues(n: nat, fields: seq<Field>, embedded: bool, withheld: set<string>): seq<Issue> {
    if fields == [] then []
    else
      var f := fields[|fields| - 1];
      SectionIssues(n, fields[..|fields| - 1], embedded, withheld) +
      if f.key in withheld then [Report(n, f, embedded)] else []
  }

  function RecordIssues(n: nat, b: Body, withheld: set<string>): seq<Issue> {
    SectionIssues(n, b.raw, false, withheld) + SectionIssues(n, b.embedded, true, withheld)
  }

  function EventIssues(bodies: seq<Body>, conflicts: seq<set<string>>): seq<Issue>
    requires |bodies| == |conflicts|
  {
    if bodies == [] then []
    else
      var n := |bodies| - 1;
      EventIssues(bodies[..n], conflicts[..n]) + RecordIssues(n, bodies[n], conflicts[n])
  }

  lemma {:induction false} SectionIssueMembers(n: nat, fields: seq<Field>, embedded: bool, withheld: set<string>,
                                               x: Issue)
    ensures x in SectionIssues(n, fields, embedded, withheld) <==>
      x.FieldIssue? && x == Report(n, x.field, embedded) && x.field in fields && x.field.key in withheld
  {
    if fields != [] {
      SectionIssueMembers(n, fields[..|fields| - 1], embedded, withheld, x);
      assert fields == fields[..|fields| - 1] + [fields[|fields| - 1]];
    }
  }

  /** The issue reports a field of the record's section it names. */
  predicate ReportsIn(n: nat, b: Body, withheld: set<string>, x: Issue) {
    && x.FieldIssue? && x == Report(n, x.field, x.embedded)
    && x.field in (if x.embedded then b.embedded else b.raw) && x.field.key in withheld
  }

  lemma RecordIssueMembers(n: nat, b: Body, withheld: set<string>, x: Issue)
    ensures x in RecordIssues(n, b, withheld) <==> ReportsIn(n, b, withheld, x)
  {
    SectionIssueMembers(n, b.raw, false, withheld, x);
    SectionIssueMembers(n, b.embedded, true, withheld, x);
  }

  predicate Reports(bodies: seq<Body>, conflicts: seq<set<string>>, x: Issue)
    requires |bodies| == |conflicts|
  {
    x.FieldIssue? && x.record < |bodies| && ReportsIn(x.record, bodies[x.record], conflicts[x.record], x)
  }

  lemma ReportsNext(bodies: seq<Body>, conflicts: seq<set<string>>, n: nat, x: Issue)
    requires |bodies| == |conflicts| == n + 1
    ensures Reports(bodies, conflicts, x) <==>
      Reports(bodies[..n], conflicts[..n], x) || ReportsIn(n, bodies[n], conflicts[n], x)
  {
  }

  lemma {:induction false} EventIssueMembers(bodies: seq<Body>, conflicts: seq<set<string>>, x: Issue)
    requires |bodies| == |conflicts|
    ensures x in EventIssues(bodies, conflicts) <==> Reports(bodies, conflicts, x)
  {
    if bodies != [] {
      var n := |bodies| - 1;
      EventIssueMembers(bodies[..n], conflicts[..n], x);
      RecordIssueMembers(n, bodies[n], conflicts[n], x);
      ReportsNext(bodies, conflicts, n, x);
    }
  }

  /** What stands in the section the issue speaks of. */
  predicate Stands(bodies: seq<Body>, x: Issue) {
    && x.FieldIssue? && x.record < |bodies|
    && x.field in if x.embedded then bodies[x.record].embedded else bodies[x.record].raw
  }

  /** A field is reported exactly when it is withheld, in every record and in both of
      its sections. */
  lemma ReportedIffWithheld(p: Policy, records: seq<Values>, bodies: seq<Body>, conflicts: seq<set<string>>, x: Issue)
    requires |records| == |bodies| == |conflicts|
    requires forall i :: 0 <= i < |records| ==> WithheldIn(p, records, i, conflicts[i])
    ensures x in EventIssues(bodies, conflicts) <==>
      Stands(bodies, x) && x == Report(x.record, x.field, x.embedded) && Withheld(p, records, x.record, x.field.key)
  {
    EventIssueMembers(bodies, conflicts, x);
  }

  /** Where the withheld fields stand: record by record, the body before the message. */
  function RecordSpots(n: nat, b: Body, withheld: set<string>): seq<Spot> {
    SectionSpots(n, false, b.raw, (f: Field) => f.key in withheld) +
    SectionSpots(n, true, b.embedded, (f: Field) => f.key in withheld)
  }

  function EventSpots(bodies: seq<Body>, conflicts: seq<set<string>>): seq<Spot>
    requires |bodies| == |conflicts|
  {
    if bodies == [] then []
    else
      var n := |bodies| - 1;
      EventSpots(bodies[..n], conflicts[..n]) + RecordSpots(n, bodies[n], conflicts[n])
  }

  function SectionOf(b: Body, embedded: bool): seq<Field> { if embedded then b.embedded else b.raw }

  predicate IsWithheldSpot(bodies: seq<Body>, conflicts: seq<set<string>>, x: Spot)
    requires |bodies| == |conflicts|
  {
    && x.record < |bodies| && x.index < |SectionOf(bodies[x.record], x.embedded)|
    && SectionOf(bodies[x.record], x.embedded)[x.index].key in conflicts[x.record]
  }

  lemma RecordSpotsAreExact(n: nat, b: Body, withheld: set<string>)
    ensures Ascends(RecordSpots(n, b, withheld))
    ensures forall x :: x in RecordSpots(n, b, withheld) <==>
      x.record == n && x.index < |SectionOf(b, x.embedded)| && SectionOf(b, x.embedded)[x.index].key in withheld
  {
    var keep := (f: Field) => f.key in withheld;
    SectionSpotsAreExact(n, false, b.raw, keep);
    SectionSpotsAreExact(n, true, b.embedded, keep);
    JoinedAscends(SectionSpots(n, false, b.raw, keep), SectionSpots(n, true, b.embedded, keep));
  }

  lemma {:induction false} EventSpotsAreExact(bodies: seq<Body>, conflicts: seq<set<string>>)
    requires |bodies| == |conflicts|
    ensures Ascends(EventSpots(bodies, conflicts))
    ensures forall x :: x in EventSpots(bodies, conflicts) <==> IsWithheldSpot(bodies, conflicts, x)
  {
    if bodies != [] {
      var n := |bodies| - 1;
      EventSpotsAreExact(bodies[..n], conflicts[..n]);
      RecordSpotsAreExact(n, bodies[n], conflicts[n]);
      JoinedAscends(EventSpots(bodies[..n], conflicts[..n]), RecordSpots(n, bodies[n], conflicts[n]));
    }
  }

  lemma {:induction false} SectionIssuesStand(n: nat, fields: seq<Field>, embedded: bool, withheld: set<string>)
    ensures
      var spots := SectionSpots(n, embedded, fields, (f: Field) => f.key in withheld);
      var issues := SectionIssues(n, fields, embedded, withheld);
      && |issues| == |spots|
      && forall i :: 0 <= i < |spots| ==>
           spots[i].index < |fields| && spots[i] == Spot(n, embedded, spots[i].index) &&
           issues[i] == FieldIssue("conflicting_singleton", n, fields[spots[i].index], embedded)
  {
    if fields != [] { SectionIssuesStand(n, fields[..|fields| - 1], embedded, withheld); }
  }

  /** The issue of a spot. */
  ghost predicate Reported(bodies: seq<Body>, x: Spot, issue: Issue) {
    && x.record < |bodies| && x.index < |SectionOf(bodies[x.record], x.embedded)|
    && issue ==
      FieldIssue("conflicting_singleton", x.record, SectionOf(bodies[x.record], x.embedded)[x.index], x.embedded)
  }

  ghost predicate ReportedAll(bodies: seq<Body>, spots: seq<Spot>, issues: seq<Issue>) {
    |issues| == |spots| && forall i :: 0 <= i < |spots| ==> Reported(bodies, spots[i], issues[i])
  }

  lemma RecordIssuesStand(bodies: seq<Body>, n: nat, withheld: set<string>)
    requires n < |bodies|
    ensures ReportedAll(bodies, RecordSpots(n, bodies[n], withheld), RecordIssues(n, bodies[n], withheld))
  {
    SectionIssuesStand(n, bodies[n].raw, false, withheld);
    SectionIssuesStand(n, bodies[n].embedded, true, withheld);
  }

  lemma ReportedFurther(bodies: seq<Body>, n: nat, spots: seq<Spot>, issues: seq<Issue>)
    requires n <= |bodies| && ReportedAll(bodies[..n], spots, issues)
    ensures ReportedAll(bodies, spots, issues)
  {
    forall i | 0 <= i < |spots| ensures Reported(bodies, spots[i], issues[i]) {
      assert Reported(bodies[..n], spots[i], issues[i]);
    }
  }

  /** The issues list every withheld place once, in the order of records, sections and
      fields. */
  lemma {:induction false} IssuesAreInOrder(bodies: seq<Body>, conflicts: seq<set<string>>)
    requires |bodies| == |conflicts|
    ensures ReportedAll(bodies, EventSpots(bodies, conflicts), EventIssues(bodies, conflicts))
    ensures Ascends(EventSpots(bodies, conflicts))
    ensures forall x :: x in EventSpots(bodies, conflicts) <==> IsWithheldSpot(bodies, conflicts, x)
  {
    EventSpotsAreExact(bodies, conflicts);
    if bodies != [] {
      var n := |bodies| - 1;
      IssuesAreInOrder(bodies[..n], conflicts[..n]);
      ReportedFurther(bodies, n, EventSpots(bodies[..n], conflicts[..n]), EventIssues(bodies[..n], conflicts[..n]));
      RecordIssuesStand(bodies, n, conflicts[n]);
    }
  }

  lemma NextSectionIssue(n: nat, fields: seq<Field>, embedded: bool, withheld: set<string>, m: nat)
    requires m < |fields|
    ensures SectionIssues(n, fields[..m + 1], embedded, withheld) ==
            SectionIssues(n, fields[..m], embedded, withheld) +
            if fields[m].key in withheld then [Report(n, fields[m], embedded)] else []
  {
    assert fields[..m + 1][..m] == fields[..m];
  }

  method ReportSection(n: nat, fields: seq<Field>, embedded: bool, withheld: set<string>) returns (issues: seq<Issue>)
    ensures issues == SectionIssues(n, fields, embedded, withheld)
  {
    issues := [];
    for m := 0 to |fields|
      invariant issues == SectionIssues(n, fields[..m], embedded, withheld)
    {
      NextSectionIssue(n, fields, embedded, withheld, m);
      if fields[m].key in withheld {
        issues := issues + [Report(n, fields[m], embedded)];
      }
    }
    assert fields[..|fields|] == fields;
  }

  ghost predicate WithheldSoFar(p: Policy, records: seq<Values>, conflicts: seq<set<string>>) {
    var n := |conflicts|;
    n == 0 || (n <= |records| && WithheldSoFar(p, records, conflicts[..n - 1]) &&
               WithheldIn(p, records, n - 1, conflicts[n - 1]))
  }

  lemma {:induction false} WithheldAt(p: Policy, records: seq<Values>, conflicts: seq<set<string>>, i: nat)
    requires WithheldSoFar(p, records, conflicts) && i < |conflicts| <= |records|
    ensures WithheldIn(p, records, i, conflicts[i])
  {
    if i < |conflicts| - 1 { WithheldAt(p, records, conflicts[..|conflicts| - 1], i); }
  }

  lemma NextWithheld(p: Policy, records: seq<Values>, conflicts: seq<set<string>>, all: set<string>)
    requires WithheldSoFar(p, records, conflicts) && |conflicts| < |records|
    requires WithheldIn(p, records, |conflicts|, all)
    ensures WithheldSoFar(p, records, conflicts + [all])
  {
    assert (conflicts + [all])[..|conflicts|] == conflicts;
  }

  /** Report one record, its own fields before those of its message. */
  method ReportRecord(n: nat, body: Body, withheld: set<string>) returns (issues: seq<Issue>)
    ensures issues == RecordIssues(n, body, withheld)
  {
    var raw := ReportSection(n, body.raw, false, withheld);
    var embedded := ReportSection(n, body.embedded, true, withheld);
    issues := raw + embedded;
  }

  lemma NextIssues(bodies: seq<Body>, conflicts: seq<set<string>>, all: set<string>, n: nat)
    requires |conflicts| == n < |bodies|
    ensures EventIssues(bodies[..n + 1], conflicts + [all]) == EventIssues(bodies[..n], conflicts) +
      RecordIssues(n, bodies[n], all)
  {
    assert bodies[..n + 1][..n] == bodies[..n] && (conflicts + [all])[..n] == conflicts;
  }

  /** Mark every record of an event; the result per record is the set of withheld
      fields, and one issue for each of their occurrences. */
  method MarkSingletonConflicts(p: Policy, records: seq<Values>, bodies: seq<Body>)
    returns (conflicts: seq<set<string>>, issues: seq<Issue>)
    requires Proper(p) && |bodies| == |records|
    ensures |conflicts| == |records|
    ensures forall i :: 0 <= i < |records| ==> WithheldIn(p, records, i, conflicts[i])
    ensures issues == EventIssues(bodies, conflicts)
  {
    var local, event := ScanRecords(p, records);
    EventConflicts(p, event, records);
    conflicts, issues := [], [];
    for n := 0 to |records|
      invariant WithheldSoFar(p, records, conflicts) && |conflicts| == n
      invariant issues == EventIssues(bodies[..n], conflicts)
    {
      var all := WithholdIn(p, records, n, local[n], event);
      var reported := ReportRecord(n, bodies[n], all);
      NextIssues(bodies, conflicts, all, n);
      NextWithheld(p, records, conflicts, all);
      conflicts, issues := conflicts + [all], issues + reported;
    }
    assert bodies[..|records|] == bodies;
    forall i | 0 <= i < |records| ensures WithheldIn(p, records, i, conflicts[i]) {
      WithheldAt(p, records, conflicts, i);
    }
  }

  lemma EventConflicts(p: Policy, t: Tracker, records: seq<Values>)
    requires RecallsEvent(p, t, records)
    ensures ConflictsOf(p, t, records)
  {
    forall k ensures k in t.conflicts <==> k in p.event && Disagree(EventOccurrences(records, k)) {
      RecallsConflict(t, k, if k in p.event then EventOccurrences(records, k) else []);
    }
  }

  // ---------- the theorems ----------

  /** Some record of the event carries this value of the field. */
  ghost predicate Carried(records: seq<Values>, k: string, v: string) {
    exists r :: r in records && v in Occurrences(r, k)
  }

  lemma {:induction false} EventMembers(records: seq<Values>, k: string, v: string)
    ensures v in EventOccurrences(records, k) <==> Carried(records, k, v)
  {
    if records != [] {
      var front, r := records[..|records| - 1], records[|records| - 1];
      EventMembers(front, k, v);
      assert records == front + [r];
    }
  }

  /** Disagreement is about which values occur, not about where. */
  lemma EventDisagreement(records: seq<Values>, k: string)
    ensures Disagree(EventOccurrences(records, k)) <==>
      exists v, w :: v != w && Carried(records, k, v) && Carried(records, k, w)
  {
    var all := EventOccurrences(records, k);
    if Disagree(all) {
      var i, j :| 0 <= i < |all| && 0 <= j < |all| && all[i] != all[j];
      EventMembers(records, k, all[i]);
      EventMembers(records, k, all[j]);
    }
    if v, w :| v != w && Carried(records, k, v) && Carried(records, k, w) {
      EventMembers(records, k, v);
      EventMembers(records, k, w);
    }
  }

  /** Withholding is order-free: it depends on the record and on the set of records
      of its event, so reordering the records reorders the marks with them. */
  lemma MarkingIsOrderFree(p: Policy, left: seq<Values>, right: seq<Values>, i: nat, j: nat, k: string)
    requires forall r :: r in left <==> r in right
    requires i < |left| && j < |right| && left[i] == right[j]
    ensures Withheld(p, left, i, k) <==> Withheld(p, right, j, k)
  {
    forall l ensures Marked(p, left, i, l) <==> Marked(p, right, j, l) {
      EventDisagreement(left, l);
      EventDisagreement(right, l);
      forall v ensures Carried(left, l, v) <==> Carried(right, l, v) {}
    }
  }

  /** A raw field and its interpreted form are withheld together. */
  lemma AliasesAreWithheldTogether(p: Policy, records: seq<Values>, i: nat, k: string, l: string)
    requires i < |records| && Aliased(k, l)
    ensures Withheld(p, records, i, k) <==> Withheld(p, records, i, l)
  {
    assert Aliased(l, k);
    AliasIsUnique(k, l);
    AliasIsUnique(l, k);
  }

  lemma AliasIsUnique(k: string, l: string)
    requires Aliased(k, l)
    ensures forall m :: Aliased(k, m) ==> m == l
  {
  }

  lemma RecordDisagreementIsEventDisagreement(records: seq<Values>, i: nat, k: string)
    requires i < |records| && Disagree(Occurrences(records[i], k))
    ensures Disagree(EventOccurrences(records, k))
  {
    var here := Occurrences(records[i], k);
    var a, b :| 0 <= a < |here| && 0 <= b < |here| && here[a] != here[b];
    assert records[i] in records;
    assert Carried(records, k, here[a]) && Carried(records, k, here[b]);
    EventDisagreement(records, k);
  }

  /** An event-level singleton without rival or alias is withheld in a record exactly
      when two distinct values of it occur anywhere in the event. */
  lemma EventSingletonIsExact(p: Policy, records: seq<Values>, i: nat, k: string)
    requires i < |records| && k in p.event
    requires forall n :: 0 <= n < |RIVALS| ==> RIVALS[n].0 != k && RIVALS[n].1 != k
    requires forall l :: !Aliased(k, l)
    ensures Withheld(p, records, i, k) <==> exists v, w :: v != w && Carried(records, k, v) && Carried(records, k, w)
  {
    EventDisagreement(records, k);
    if Disagree(Occurrences(records[i], k)) { RecordDisagreementIsEventDisagreement(records, i, k); }
  }

  /** With an interpreted form beside it, exactly when either of the two disagrees. */
  lemma AliasedSingletonIsExact(p: Policy, records: seq<Values>, i: nat, k: string, l: string)
    requires i < |records| && Aliased(k, l)
    requires k in p.event && l in p.event
    requires forall n :: 0 <= n < |RIVALS| ==> RIVALS[n].0 !in {k, l} && RIVALS[n].1 !in {k, l}
    ensures Withheld(p, records, i, k) <==>
      Disagree(EventOccurrences(records, k)) || Disagree(EventOccurrences(records, l))
  {
    AliasIsUnique(k, l);
    if Disagree(Occurrences(records[i], k)) { RecordDisagreementIsEventDisagreement(records, i, k); }
    if Disagree(Occurrences(records[i], l)) { RecordDisagreementIsEventDisagreement(records, i, l); }
  }

  lemma DisagreeMembers(values: seq<string>)
    ensures Disagree(values) <==> exists v, w :: v != w && v in values && w in values
  {
    if Disagree(values) {
      var a, b :| 0 <= a < |values| && 0 <= b < |values| && values[a] != values[b];
      assert values[a] in values && values[b] in values;
    }
  }

  /** A field that must be unique in its record only, without rival or alias, is withheld
      exactly when the record itself carries two distinct values. */
  lemma LocalSingletonIsExact(p: Policy, records: seq<Values>, i: nat, k: string)
    requires i < |records| && k in p.single && k !in p.event
    requires forall n :: 0 <= n < |RIVALS| ==> RIVALS[n].0 != k && RIVALS[n].1 != k
    requires forall l :: !Aliased(k, l)
    ensures Withheld(p, records, i, k) <==>
      exists v, w :: v != w && v in Occurrences(records[i], k) && w in Occurrences(records[i], k)
  {
    DisagreeMembers(Occurrences(records[i], k));
  }

  // ---------- the collector's own tables ----------

  /** The method applied to the tables of the collector. */
  method MarkEvent(records: seq<Values>, bodies: seq<Body>) returns (conflicts: seq<set<string>>, issues: seq<Issue>)
    requires |bodies| == |records|
    ensures |conflicts| == |records|
    ensures forall i :: 0 <= i < |records| ==> WithheldIn(COLLECTOR, records, i, conflicts[i])
    ensures issues == EventIssues(bodies, conflicts)
  {
    CollectorIsProper();
    conflicts, issues := MarkSingletonConflicts(COLLECTOR, records, bodies);
  }

  /** The other name of the same decision, subject or operation. */
  function OtherName(k: string): string {
    if k == "decision" then "apparmor" else if k == "apparmor" then "decision"
    else if k == "scontext" then "subj" else if k == "subj" then "scontext"
    else if k == "op" then "operation" else if k == "operation" then "op" else ""
  }

  /** The interpreted form of a raw field, or the raw form of an interpreted one. */
  function OtherForm(k: string): string {
    if k == "auid" then "AUID" else if k == "AUID" then "auid"
    else if k == "uid" then "UID" else if k == "UID" then "uid"
    else if k == "euid" then "EUID" else if k == "EUID" then "euid"
    else if k == "ouid" then "OUID" else if k == "OUID" then "ouid"
    else if k == "ogid" then "OGID" else if k == "OGID" then "ogid"
    else if k == "arch" then "ARCH" else if k == "ARCH" then "arch"
    else if k == "syscall" then "SYSCALL" else if k == "SYSCALL" then "syscall" else ""
  }

  /** Two values in the record, two in the event for a field of the whole event, or a
      different last value under the other name. */
  ghost predicate Ambiguous(records: seq<Values>, i: nat, k: string)
    requires i < |records|
  {
    var own, other := Occurrences(records[i], k), Occurrences(records[i], OtherName(k));
    || (k in SINGLETONS && exists v, w :: v != w && v in own && w in own)
    || (k in EVENT_SINGLETONS && exists v, w :: v != w && Carried(records, k, v) && Carried(records, k, w))
    || (OtherName(k) != "" && own != [] && other != [] && own[|own| - 1] != other[|other| - 1])
  }

  lemma RivalsAreNames(r: Values, k: string)
    ensures Rivalled(r, k) <==>
      var own, other := Occurrences(r, k), Occurrences(r, OtherName(k));
      OtherName(k) != "" && own != [] && other != [] && own[|own| - 1] != other[|other| - 1]
  {
    RivalsAreThree(r, k);
  }

  lemma RivalsAreThree(r: Values, k: string)
    ensures Rivalled(r, k) <==>
      || ((k == "decision" || k == "apparmor") && Clash(r, ("decision", "apparmor")))
      || ((k == "scontext" || k == "subj") && Clash(r, ("scontext", "subj")))
      || ((k == "op" || k == "operation") && Clash(r, ("op", "operation")))
  {
    assert RIVALS[0] == ("decision", "apparmor") && RIVALS[1] == ("scontext", "subj");
    assert RIVALS[2] == ("op", "operation");
  }

  lemma AliasesAreForms(k: string, l: string)
    ensures Aliased(k, l) <==> OtherForm(k) != "" && l == OtherForm(k)
  {
    assert ALIASES[0] == ("auid", "AUID") && ALIASES[1] == ("uid", "UID") && ALIASES[2] == ("euid", "EUID");
    assert ALIASES[3] == ("ouid", "OUID") && ALIASES[4] == ("ogid", "OGID") && ALIASES[5] == ("arch", "ARCH");
    assert ALIASES[6] == ("syscall", "SYSCALL");
  }

  lemma MarkedIsAmbiguous(records: seq<Values>, i: nat, k: string)
    requires i < |records|
    ensures Marked(COLLECTOR, records, i, k) <==> Ambiguous(records, i, k)
  {
    RivalsAreNames(records[i], k);
    EventDisagreement(records, k);
    DisagreeMembers(Occurrences(records[i], k));
  }

  /** The theorem: the collector withholds a field exactly when it, or its other form,
      is ambiguous. */
  lemma CollectorIsExact(records: seq<Values>, i: nat, k: string)
    requires i < |records|
    ensures Withheld(COLLECTOR, records, i, k) <==>
      Ambiguous(records, i, k) || (OtherForm(k) != "" && Ambiguous(records, i, OtherForm(k)))
  {
    MarkedIsAmbiguous(records, i, k);
    MarkedIsAmbiguous(records, i, OtherForm(k));
    forall l ensures Aliased(k, l) <==> OtherForm(k) != "" && l == OtherForm(k) { AliasesAreForms(k, l); }
  }

  /** A process ID is withheld exactly when two are claimed anywhere in the event. */
  lemma ProcessIdIsExact(records: seq<Values>, i: nat)
    requires i < |records|
    ensures Withheld(COLLECTOR, records, i, "pid") <==>
            exists v, w :: v != w && Carried(records, "pid", v) && Carried(records, "pid", w)
  {
    EventSingletonIsExact(COLLECTOR, records, i, "pid");
  }

  /** The name of a path is a matter of its own record. */
  lemma PathNameIsExact(records: seq<Values>, i: nat)
    requires i < |records|
    ensures Withheld(COLLECTOR, records, i, "name") <==>
            exists v, w :: v != w && v in Occurrences(records[i], "name") && w in Occurrences(records[i], "name")
  {
    LocalSingletonIsExact(COLLECTOR, records, i, "name");
  }

  /** A decision is withheld exactly when the record carries two, or when its other name
      ends on a different one. */
  lemma DecisionIsExact(records: seq<Values>, i: nat)
    requires i < |records|
    ensures
      var own, other := Occurrences(records[i], "decision"), Occurrences(records[i], "apparmor");
      Withheld(COLLECTOR, records, i, "decision") <==>
        Disagree(own) || (own != [] && other != [] && own[|own| - 1] != other[|other| - 1])
  {
    CollectorIsExact(records, i, "decision");
    DisagreeMembers(Occurrences(records[i], "decision"));
  }

  /** A login identity is withheld exactly when its number or its name is ambiguous. */
  lemma LoginIdIsExact(records: seq<Values>, i: nat)
    requires i < |records|
    ensures Withheld(COLLECTOR, records, i, "auid") <==>
            Disagree(EventOccurrences(records, "auid")) || Disagree(EventOccurrences(records, "AUID"))
  {
    LoginIdAlias();
    AliasedSingletonIsExact(COLLECTOR, records, i, "auid", "AUID");
  }

  lemma LoginIdAlias()
    ensures Aliased("auid", "AUID") && "auid" in COLLECTOR.event && "AUID" in COLLECTOR.event
    ensures forall n :: 0 <= n < |RIVALS| ==> RIVALS[n].0 !in {"auid", "AUID"} && RIVALS[n].1 !in {"auid", "AUID"}
  {
    assert ALIASES[0] == ("auid", "AUID");
  }
}
