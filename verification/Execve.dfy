/** Reconstruction of an argument vector from EXECVE records. */
module Execve {
  import opened Records
  import opened Numerals
  import opened Sequences
  import opened Spots

  datatype ExecRecord = ExecRecord(typ: string, fields: seq<Field>) {
    predicate IsExecve() { typ == "EXECVE" }
    predicate IsTitle() { typ == "PROCTITLE" }
  }

  // ---------- field names ----------

  /** What a field of an EXECVE record is about. */
  datatype Slot = Whole(arg: nat) | Length(arg: nat) | Fragment(arg: nat, part: int)

  function DigitsEnd(key: string, i: nat): (e: nat)
    requires i <= |key|
    ensures i <= e <= |key| && AllDigits(key[i..e])
    ensures e < |key| ==> !IsDigit(key[e])
    decreases |key| - i
  {
    if i < |key| && IsDigit(key[i]) then DigitsEnd(key, i + 1) else i
  }

  /** `aN`, `aN_len` and `aN[M]`; any other name is not an argument field. */
  function SlotOf(key: string): Option<Slot> {
    if |key| < 2 || key[0] != 'a' || !IsDigit(key[1]) then None
    else
      var i := DigitsEnd(key, 1);
      var arg := Atoi(key[1..i]);
      if arg.None? || arg.value < 0 then None
      else if i == |key| then Some(Whole(arg.value))
      else if key[i..] == "_len" then Some(Length(arg.value))
      else if key[i] != '[' || key[|key| - 1] != ']' || i + 2 > |key| then None
      else
        var part := Atoi(key[i + 1..|key| - 1]);
        if part.None? then None else Some(Fragment(arg.value, part.value))
  }

  /** The name is `a`, digits, and what the slot adds to them. */
  ghost predicate NamedBy(key: string, s: Slot, digits: string, part: string) {
    && digits != "" && AllDigits(digits) && Atoi(digits) == Some(s.arg)
    && match s
       case Whole(_) => key == "a" + digits
       case Length(_) => key == "a" + digits + "_len"
       case Fragment(_, m) => key == "a" + digits + "[" + part + "]" && Atoi(part) == Some(m)
  }

  lemma {:induction false} DigitsEndIs(key: string, i: nat, e: nat)
    requires i <= e <= |key| && AllDigits(key[i..e]) && (e < |key| ==> !IsDigit(key[e]))
    ensures DigitsEnd(key, i) == e
    decreases e - i
  {
    if i < e {
      assert key[i..e][0] == key[i];
      assert key[i + 1..e] == key[i..e][1..];
      DigitsEndIs(key, i + 1, e);
    }
  }

  lemma NamedHasSlot(key: string, s: Slot, digits: string, part: string)
    requires NamedBy(key, s, digits, part)
    ensures SlotOf(key) == Some(s)
  {
    var e := 1 + |digits|;
    assert key[1..e] == digits && key[1] == digits[0];
    DigitsEndIs(key, 1, e);
    match s
    case Whole(_) =>
    case Length(_) => assert key[e..] == "_len";
    case Fragment(_, _) =>
      assert key[e..][0] == '[' && key[e] == '[' && key[|key| - 1] == ']';
      assert key[e + 1..|key| - 1] == part;
  }

  lemma Bracketed(rest: string)
    requires |rest| >= 2 && rest[0] == '[' && rest[|rest| - 1] == ']'
    ensures rest == "[" + rest[1..|rest| - 1] + "]"
  {
  }

  lemma NameInParts(key: string, e: nat)
    requires 1 <= e <= |key| && key[0] == 'a'
    ensures key == "a" + key[1..e] + key[e..]
  {
  }

  lemma FragmentIsNamed(key: string, e: nat, digits: string, part: string)
    requires 1 <= e && e + 2 <= |key| && key[0] == 'a' && key[e] == '[' && key[|key| - 1] == ']'
    requires digits == key[1..e] && part == key[e + 1..|key| - 1]
    ensures key == "a" + digits + "[" + part + "]"
  {
    var rest := key[e..];
    Bracketed(rest);
    NameInParts(key, e);
    assert rest[1..|rest| - 1] == part;
    Associate("a" + digits, "[" + part, "]");
    Associate("a" + digits, "[", part);
  }

  lemma SlotIsNamed(key: string, s: Slot) returns (digits: string, part: string)
    requires SlotOf(key) == Some(s)
    ensures NamedBy(key, s, digits, part)
  {
    var e := DigitsEnd(key, 1);
    digits, part := key[1..e], if s.Fragment? then key[e + 1..|key| - 1] else "";
    assert digits[0] == key[1];
    match s
    case Whole(_) => assert key == "a" + digits;
    case Length(_) => NameInParts(key, e);
    case Fragment(_, _) => FragmentIsNamed(key, e, digits, part);
  }

  /** A name has a slot exactly when it spells it. */
  lemma SlotIsExact(key: string, s: Slot)
    ensures SlotOf(key) == Some(s) <==> exists digits, part :: NamedBy(key, s, digits, part)
  {
    if SlotOf(key) == Some(s) { var digits, part := SlotIsNamed(key, s); }
    forall digits, part | NamedBy(key, s, digits, part) ensures SlotOf(key) == Some(s) {
      NamedHasSlot(key, s, digits, part);
    }
  }

  method ParseExecArgKey(key: string) returns (slot: Option<Slot>)
    ensures slot == SlotOf(key)
  {
    if |key| < 2 || key[0] != 'a' || key[1] < '0' || key[1] > '9' {
      return None;
    }
    var i := 1;
    while i < |key| && '0' <= key[i] <= '9'
      invariant 1 <= i <= |key|
      invariant DigitsEnd(key, 1) == DigitsEnd(key, i)
    {
      i := i + 1;
    }
    assert IsDigit(key[1..i][0]);
    var arg := Atoi(key[1..i]);
    if arg.None? {
      return None;
    }
    if i == |key| {
      return Some(Whole(arg.value));
    }
    if key[i..] == "_len" {
      return Some(Length(arg.value));
    }
    if key[i] != '[' || key[|key| - 1] != ']' || i + 2 > |key| {
      return None;
    }
    var part := Atoi(key[i + 1..|key| - 1]);
    if part.None? {
      return None;
    }
    return Some(Fragment(arg.value, part.value));
  }

  predicate Relevant(f: Field) { f.key == "argc" || SlotOf(f.key).Some? }

  // ---------- collecting fields ----------

  datatype ExecArgument = ExecArgument(whole: Option<Field>, length: Option<int>, fragments: map<nat, Field>)

  const NO_ARGUMENT := ExecArgument(None, None, map[])

  datatype Table = Table(args: map<nat, ExecArgument>, argc: int, valid: bool)

  const EMPTY := Table(map[], -1, true)

  function Argument(t: Table, i: nat): ExecArgument { if i in t.args then t.args[i] else NO_ARGUMENT }

  /** Two spellings of one field disagree. */
  predicate Differs(f: Field, g: Field) { f.value != g.value || f.quoted != g.quoted }

  /** The argument takes the field in; the newest spelling is kept. */
  function Added(a: ExecArgument, s: Slot, f: Field): ExecArgument
    requires s.Fragment? ==> s.part >= 0
  {
    match s
    case Whole(_) => a.(whole := Some(f))
    case Length(_) => if Fits(a, s, f) then a.(length := Atoi(f.value)) else a
    case Fragment(_, j) => a.(fragments := a.fragments[j := f])
  }

  /** The field contradicts nothing the argument already holds. */
  predicate Fits(a: ExecArgument, s: Slot, f: Field)
    requires s.Fragment? ==> s.part >= 0
  {
    match s
    case Whole(_) => a.whole.None? || !Differs(a.whole.value, f)
    case Length(_) =>
      var n := Atoi(f.value);
      n.Some? && n.value >= 0 && (a.length.None? || a.length.value == n.value)
    case Fragment(_, j) => j !in a.fragments || !Differs(a.fragments[j], f)
  }

  /** One more field: a contradiction spoils the table for good. */
  function Absorb(t: Table, f: Field): Table {
    if f.key == "argc" then
      var n := Atoi(f.value);
      if n.None? || n.value < 0 || (t.argc >= 0 && t.argc != n.value) then t.(valid := false) else t.(argc := n.value)
    else
      match SlotOf(f.key)
      case None => t
      case Some(s) =>
        if s.Fragment? && s.part < 0 then t.(valid := false)
        else
          var a := Argument(t, s.arg);
          t.(args := t.args[s.arg := Added(a, s, f)], valid := t.valid && Fits(a, s, f))
  }

  function AbsorbAll(fields: seq<Field>): Table {
    if fields == [] then EMPTY else Absorb(AbsorbAll(fields[..|fields| - 1]), fields[|fields| - 1])
  }

  /** The fields of all EXECVE records, in order. */
  function FieldsOf(records: seq<ExecRecord>): seq<Field> {
    if records == [] then []
    else
      var r := records[|records| - 1];
      FieldsOf(records[..|records| - 1]) + if r.IsExecve() then r.fields else []
  }

  // ---------- decoding ----------

  /** Strict reading of an untrusted string: literal when quoted, else hex. */
  function UntrustedString(f: Field): Option<string> {
    if f.quoted || f.interpreted then Some(f.value) else HexDecode(f.value)
  }

  /** A field means its own text when it is quoted or interpreted, else the bytes that
      its hexadecimal digits spell. */
  predicate Means(f: Field, text: string) {
    if f.quoted || f.interpreted then text == f.value else HexSpells(f.value, text)
  }

  lemma TextIsExact(f: Field, text: string)
    ensures UntrustedString(f) == Some(text) <==> Means(f, text)
  {
    HexIsExact(f.value, text);
  }

  /** The fragments `0..n`, each decodable, one after the other. */
  function Assembled(fragments: map<nat, Field>, n: nat): Option<string> {
    if n == 0 then Some("")
    else
      var front := Assembled(fragments, n - 1);
      if front.None? || n - 1 !in fragments || UntrustedString(fragments[n - 1]).None? then None
      else Some(front.value + UntrustedString(fragments[n - 1]).value)
  }

  function EncodedLength(fragments: map<nat, Field>, n: nat): nat {
    if n == 0 then 0 else EncodedLength(fragments, n - 1) + if n - 1 in fragments then |fragments[n - 1].value| else 0
  }

  function DecodeArgument(a: ExecArgument): Option<string> {
    if a.whole.Some? then
      if |a.fragments| > 0 || a.length.Some? then None else UntrustedString(a.whole.value)
    else if |a.fragments| == 0 || a.length.None? then None
    else
      var text := Assembled(a.fragments, |a.fragments|);
      if text.Some? && EncodedLength(a.fragments, |a.fragments|) == a.length.value then text else None
  }

  /** The arguments `0..n`, each decodable to valid UTF-8. */
  function Vector(args: map<nat, ExecArgument>, n: nat): Option<seq<string>> {
    if n == 0 then Some([])
    else
      var front := Vector(args, n - 1);
      if front.None? || n - 1 !in args then None
      else
        var last := DecodeArgument(args[n - 1]);
        if last.None? || !ValidUtf8(last.value) then None else Some(front.value + [last.value])
  }

  /** The argument vector, or nothing if any evidence is missing or contradictory. */
  function Reconstructed(t: Table): Option<seq<string>> {
    if t.valid && t.argc == |t.args| then Vector(t.args, |t.args|) else None
  }

  // ---------- the reconstruction as it runs ----------

  ghost predicate Sorted(ks: seq<nat>) {
    forall i, j :: 0 <= i < j < |ks| ==> ks[i] < ks[j]
  }

  lemma InsertedIsSorted(ks: seq<nat>, k: nat, p: nat)
    requires Sorted(ks) && p <= |ks|
    requires forall i :: 0 <= i < p ==> ks[i] < k
    requires forall i :: p <= i < |ks| ==> k < ks[i]
    ensures Sorted(ks[..p] + [k] + ks[p..])
  {
  }

  lemma InsertedMembers(ks: seq<nat>, k: nat, p: nat)
    requires p <= |ks|
    ensures forall x :: x in ks[..p] + [k] + ks[p..] <==> x in ks || x == k
  {
    assert ks == ks[..p] + ks[p..];
  }

  /** The keys of a map in ascending order, however the map yields them. */
  method SortedKeys(keys: set<nat>) returns (ks: seq<nat>)
    ensures Sorted(ks) && (forall k :: k in ks <==> k in keys) && |ks| == |keys|
  {
    ks := [];
    var todo := keys;
    while todo != {}
      invariant todo <= keys && Sorted(ks)
      invariant forall k :: k in ks <==> k in keys && k !in todo
      invariant |ks| + |todo| == |keys|
      decreases todo
    {
      var k :| k in todo;
      var p := |ks|;
      while p > 0 && ks[p - 1] > k
        invariant 0 <= p <= |ks|
        invariant forall i :: p <= i < |ks| ==> k < ks[i]
      {
        p := p - 1;
      }
      if p > 0 { assert ks[p - 1] in ks; }
      InsertedIsSorted(ks, k, p);
      InsertedMembers(ks, k, p);
      ks := ks[..p] + [k] + ks[p..];
      todo := todo - {k};
    }
  }

  /** In an ascending list of naturals that starts 0, 1, ..., the first slip is a missing index. */
  lemma FirstSlip(ks: seq<nat>, pos: nat)
    requires Sorted(ks) && pos < |ks| && ks[pos] != pos
    requires forall i :: 0 <= i < pos ==> ks[i] == i
    ensures pos !in ks
  {
    assert ks[pos] in ks;
    if pos > 0 { assert ks[pos - 1] == pos - 1; }
    assert ks[pos] > pos;
    forall i | 0 <= i < |ks| ensures ks[i] != pos {
      if i > pos { assert ks[pos] < ks[i]; }
    }
  }

  lemma {:induction false} MissingFragment(fragments: map<nat, Field>, pos: nat, n: nat)
    requires pos < n
    requires pos !in fragments || UntrustedString(fragments[pos]).None?
    ensures Assembled(fragments, n).None?
  {
    if pos < n - 1 { MissingFragment(fragments, pos, n - 1); }
  }

  lemma {:induction false} MissingArgument(args: map<nat, ExecArgument>, pos: nat, n: nat)
    requires pos < n
    requires pos !in args || DecodeArgument(args[pos]).None? || !ValidUtf8(DecodeArgument(args[pos]).value)
    ensures Vector(args, n).None?
  {
    if pos < n - 1 { MissingArgument(args, pos, n - 1); }
  }

  method Decode(a: ExecArgument) returns (text: Option<string>)
    ensures text == DecodeArgument(a)
  {
    if a.whole.Some? {
      if |a.fragments| > 0 || a.length.Some? {
        return None;
      }
      return UntrustedString(a.whole.value);
    }
    if |a.fragments| == 0 || a.length.None? {
      return None;
    }
    var parts := SortedKeys(a.fragments.Keys);
    var built, encodedLength := "", 0;
    for pos := 0 to |parts|
      invariant forall i :: 0 <= i < pos ==> parts[i] == i
      invariant Assembled(a.fragments, pos) == Some(built) && encodedLength == EncodedLength(a.fragments, pos)
    {
      if pos != parts[pos] {
        FirstSlip(parts, pos);
        MissingFragment(a.fragments, pos, |a.fragments|);
        return None;
      }
      assert parts[pos] in parts;
      var value := UntrustedString(a.fragments[pos]);
      if value.None? {
        MissingFragment(a.fragments, pos, |a.fragments|);
        return None;
      }
      built := built + value.value;
      encodedLength := encodedLength + |a.fragments[pos].value|;
    }
    return if encodedLength == a.length.value then Some(built) else None;
  }

  lemma AbsorbNext(before: seq<Field>, fields: seq<Field>, n: nat)
    requires n < |fields|
    ensures AbsorbAll(before + fields[..n + 1]) == Absorb(AbsorbAll(before + fields[..n]), fields[n])
  {
    var all := before + fields[..n + 1];
    assert all[..|all| - 1] == before + fields[..n];
  }

  /** Every field that speaks of the vector, as evidence. */
  function EvidenceOf(n: nat, fields: seq<Field>): seq<Issue> {
    if fields == [] then []
    else
      var f := fields[|fields| - 1];
      EvidenceOf(n, fields[..|fields| - 1]) + if Relevant(f) then [FieldIssue("incomplete_argv", n, f, false)] else []
  }

  function Evidence(records: seq<ExecRecord>): seq<Issue> {
    if records == [] then []
    else
      var n := |records| - 1;
      Evidence(records[..n]) + if records[n].IsExecve() then EvidenceOf(n, records[n].fields) else []
  }

  /** The evidence of a record is each of its fields about the vector. */
  lemma {:induction false} EvidenceOfMembers(n: nat, fields: seq<Field>, x: Issue)
    ensures x in EvidenceOf(n, fields) <==>
      exists f :: f in fields && Relevant(f) && x == FieldIssue("incomplete_argv", n, f, false)
  {
    if fields != [] {
      EvidenceOfMembers(n, fields[..|fields| - 1], x);
      assert fields == fields[..|fields| - 1] + [fields[|fields| - 1]];
    }
  }

  /** Incomplete evidence is reported whole: each EXECVE field about the vector, and
      nothing else. */
  lemma {:induction false} EvidenceMembers(records: seq<ExecRecord>, x: Issue)
    ensures x in Evidence(records) <==>
      x.FieldIssue? && x == FieldIssue("incomplete_argv", x.record, x.field, false) && Relevant(x.field) &&
      x.record < |records| && records[x.record].IsExecve() && x.field in records[x.record].fields
  {
    if records != [] {
      var n := |records| - 1;
      EvidenceMembers(records[..n], x);
      EvidenceOfMembers(n, records[n].fields, x);
    }
  }

  /** Where the EXECVE fields about the vector stand. */
  function EvidenceSpots(records: seq<ExecRecord>): seq<Spot> {
    if records == [] then []
    else
      var n := |records| - 1;
      EvidenceSpots(records[..n]) +
        if records[n].IsExecve() then SectionSpots(n, false, records[n].fields, Relevant) else []
  }

  predicate IsEvidenceSpot(records: seq<ExecRecord>, x: Spot) {
    && x.record < |records| && records[x.record].IsExecve() && !x.embedded
    && x.index < |records[x.record].fields| && Relevant(records[x.record].fields[x.index])
  }

  lemma {:induction false} EvidenceSpotsAreExact(records: seq<ExecRecord>)
    ensures Ascends(EvidenceSpots(records))
    ensures forall x :: x in EvidenceSpots(records) <==> IsEvidenceSpot(records, x)
  {
    if records != [] {
      var n := |records| - 1;
      EvidenceSpotsAreExact(records[..n]);
      SectionSpotsAreExact(n, false, records[n].fields, Relevant);
      if records[n].IsExecve() {
        JoinedAscends(EvidenceSpots(records[..n]), SectionSpots(n, false, records[n].fields, Relevant));
      }
    }
  }

  lemma {:induction false} EvidenceOfStands(n: nat, fields: seq<Field>)
    ensures
      var spots, issues := SectionSpots(n, false, fields, Relevant), EvidenceOf(n, fields);
      && |issues| == |spots|
      && forall i :: 0 <= i < |spots| ==>
           spots[i].record == n && spots[i].index < |fields| &&
           issues[i] == FieldIssue("incomplete_argv", n, fields[spots[i].index], false)
  {
    if fields != [] { EvidenceOfStands(n, fields[..|fields| - 1]); }
  }

  /** The evidence lists every such place once, in the order of records and fields. */
  lemma {:induction false} EvidenceIsInOrder(records: seq<ExecRecord>)
    ensures
      var spots, issues := EvidenceSpots(records), Evidence(records);
      && |issues| == |spots|
      && forall i :: 0 <= i < |spots| ==>
           IsEvidenceSpot(records, spots[i]) &&
           issues[i] ==
             FieldIssue("incomplete_argv", spots[i].record, records[spots[i].record].fields[spots[i].index], false)
    ensures Ascends(EvidenceSpots(records))
  {
    EvidenceSpotsAreExact(records);
    if records != [] {
      var n := |records| - 1;
      EvidenceIsInOrder(records[..n]);
      EvidenceOfStands(n, records[n].fields);
      forall i | 0 <= i < |EvidenceSpots(records)| ensures IsEvidenceSpot(records, EvidenceSpots(records)[i]) {
        assert EvidenceSpots(records)[i] in EvidenceSpots(records);
      }
    }
  }

  lemma NextEvidence(n: nat, fields: seq<Field>, m: nat)
    requires m < |fields|
    ensures EvidenceOf(n, fields[..m + 1]) ==
            EvidenceOf(n, fields[..m]) +
            if Relevant(fields[m]) then [FieldIssue("incomplete_argv", n, fields[m], false)] else []
  {
    assert fields[..m + 1][..m] == fields[..m];
  }

  method CollectRecord(start: Table, n: nat, fields: seq<Field>, ghost before: seq<Field>)
    returns (t: Table, evidence: seq<Issue>)
    requires start == AbsorbAll(before)
    ensures t == AbsorbAll(before + fields) && evidence == EvidenceOf(n, fields)
  {
    t, evidence := start, [];
    assert before + fields[..0] == before;
    for m := 0 to |fields|
      invariant t == AbsorbAll(before + fields[..m]) && evidence == EvidenceOf(n, fields[..m])
    {
      AbsorbNext(before, fields, m);
      NextEvidence(n, fields, m);
      if Relevant(fields[m]) {
        evidence := evidence + [FieldIssue("incomplete_argv", n, fields[m], false)];
      }
      t := Absorb(t, fields[m]);
    }
    assert fields[..|fields|] == fields;
  }

  lemma NextRecord(records: seq<ExecRecord>, n: nat)
    requires n < |records|
    ensures FieldsOf(records[..n + 1]) ==
            FieldsOf(records[..n]) + if records[n].IsExecve() then records[n].fields else []
    ensures Evidence(records[..n + 1]) ==
            Evidence(records[..n]) + if records[n].IsExecve() then EvidenceOf(n, records[n].fields) else []
    ensures forall r :: r in records[..n + 1] <==> r in records[..n] || r == records[n]
  {
    assert records[..n + 1][..n] == records[..n];
    assert records[..n + 1] == records[..n] + [records[n]];
  }

  predicate AnyExecve(records: seq<ExecRecord>) { exists r :: r in records && r.IsExecve() }

  method CollectFields(records: seq<ExecRecord>) returns (t: Table, found: bool, evidence: seq<Issue>)
    ensures t == AbsorbAll(FieldsOf(records)) && evidence == Evidence(records)
    ensures found <==> AnyExecve(records)
  {
    t, found, evidence := EMPTY, false, [];
    for n := 0 to |records|
      invariant t == AbsorbAll(FieldsOf(records[..n])) && evidence == Evidence(records[..n])
      invariant found <==> AnyExecve(records[..n])
    {
      NextRecord(records, n);
      if records[n].IsExecve() {
        found := true;
        var more;
        t, more := CollectRecord(t, n, records[n].fields, FieldsOf(records[..n]));
        evidence := evidence + more;
      } else {
        assert FieldsOf(records[..n]) + [] == FieldsOf(records[..n]);
        assert Evidence(records[..n]) + [] == Evidence(records[..n]);
      }
    }
    assert records[..|records|] == records;
  }

  lemma NextArgument(args: map<nat, ExecArgument>, n: nat, values: seq<string>, value: string)
    requires Vector(args, n) == Some(values) && n in args && DecodeArgument(args[n]) == Some(value) && ValidUtf8(value)
    ensures Vector(args, n + 1) == Some(values + [value])
  {
  }

  /** Decode every argument in index order; one bad argument spoils the vector. */
  method DecodeAll(t: Table) returns (argv: Option<seq<string>>)
    ensures argv == Vector(t.args, |t.args|)
  {
    var indexes := SortedKeys(t.args.Keys);
    var values: seq<string> := [];
    for pos := 0 to |indexes|
      invariant forall i :: 0 <= i < pos ==> indexes[i] == i
      invariant Vector(t.args, pos) == Some(values)
    {
      if indexes[pos] != pos {
        FirstSlip(indexes, pos);
        MissingArgument(t.args, pos, |t.args|);
        return None;
      }
      assert indexes[pos] in indexes;
      var value := Decode(t.args[pos]);
      if value.None? || !ValidUtf8(value.value) {
        MissingArgument(t.args, pos, |t.args|);
        return None;
      }
      NextArgument(t.args, pos, values, value.value);
      values := values + [value.value];
    }
    return Some(values);
  }

  // ---------- the title, when there is no EXECVE ----------

  const NUL: char := '\0'

  /** The text between separators. */
  function Split(s: string): (parts: seq<string>)
    ensures parts != []
  {
    if s == "" then [""]
    else
      var front := Split(s[..|s| - 1]);
      if s[|s| - 1] == NUL then front + [""]
      else front[..|front| - 1] + [front[|front| - 1] + [s[|s| - 1]]]
  }

  /** The arguments of a title: a separator at its end closes the last one. */
  function TitleParts(s: string): seq<string> {
    var parts := Split(s);
    if |parts| > 1 && parts[|parts| - 1] == "" then parts[..|parts| - 1] else parts
  }

  datatype ArgvSource = FromExecve | FromTitle | NoSource

  datatype Arguments = Arguments(argv: Option<seq<string>>, source: ArgvSource, issues: seq<Issue>)

  /** The first title field of the event. */
  predicate FirstTitle(records: seq<ExecRecord>, n: nat, m: nat) {
    && n < |records| && records[n].IsTitle() && m < |records[n].fields| && records[n].fields[m].key == "proctitle"
    && (forall i, j :: 0 <= i < n && records[i].IsTitle() && 0 <= j < |records[i].fields| ==>
      records[i].fields[j].key != "proctitle")
    && (forall j :: 0 <= j < m ==> records[n].fields[j].key != "proctitle")
  }

  predicate AnyTitle(records: seq<ExecRecord>) {
    exists r, f :: r in records && r.IsTitle() && f in r.fields && f.key == "proctitle"
  }

  function TitleArguments(n: nat, f: Field): Arguments {
    var text := UntrustedString(f);
    if text.None? || !ValidUtf8(text.value)
      then Arguments(None, FromTitle, [FieldIssue("invalid_proctitle", n, f, false)])
    else Arguments(Some(TitleParts(text.value)), FromTitle, [])
  }

  method FindTitle(records: seq<ExecRecord>) returns (n: nat, m: nat)
    ensures n <= |records| && if n < |records| then FirstTitle(records, n, m) else !AnyTitle(records)
  {
    n := 0;
    while n < |records|
      invariant 0 <= n <= |records|
      invariant forall i, j :: 0 <= i < n && records[i].IsTitle() && 0 <= j < |records[i].fields| ==>
        records[i].fields[j].key != "proctitle"
    {
      if records[n].IsTitle() {
        m := 0;
        while m < |records[n].fields|
          invariant 0 <= m <= |records[n].fields|
          invariant forall j :: 0 <= j < m ==> records[n].fields[j].key != "proctitle"
        {
          if records[n].fields[m].key == "proctitle" {
            return;
          }
          m := m + 1;
        }
      }
      n := n + 1;
    }
    m := 0;
  }

  /** What EXECVE evidence answers: a whole vector, or every field that spoke of one. */
  function ExecArguments(records: seq<ExecRecord>): Arguments {
    var argv := Reconstructed(AbsorbAll(FieldsOf(records)));
    var evidence := Evidence(records);
    if argv.Some? then Arguments(argv, FromExecve, [])
    else
      var missing := MissingIssue("incomplete_argv", "EXECVE", "argc");
      Arguments(None, FromExecve, if evidence == [] then [missing] else evidence)
  }

  /** The argument vector of an event.  EXECVE evidence decides alone, complete or not;
      only without any does the title speak. */
  method BuildArguments(records: seq<ExecRecord>) returns (a: Arguments)
    ensures AnyExecve(records) ==> a == ExecArguments(records)
    ensures !AnyExecve(records) && AnyTitle(records) ==>
      exists n: nat, m: nat :: FirstTitle(records, n, m) && a == TitleArguments(n, records[n].fields[m])
    ensures !AnyExecve(records) && !AnyTitle(records) ==> a == Arguments(None, NoSource, [])
    ensures a.issues == [] <==> a.argv.Some? || a.source.NoSource?
  {
    var t, found, evidence := CollectFields(records);
    if found {
      var argv := DecodeAll(t);
      if t.valid && t.argc == |t.args| && argv.Some? {
        return Arguments(argv, FromExecve, []);
      }
      if |evidence| == 0 {
        evidence := [MissingIssue("incomplete_argv", "EXECVE", "argc")];
      }
      return Arguments(None, FromExecve, evidence);
    }
    var n, m := FindTitle(records);
    if n == |records| {
      return Arguments(None, NoSource, []);
    }
    var f := records[n].fields[m];
    assert records[n] in records && f in records[n].fields;
    a := TitleArguments(n, f);
  }

  // ---------- titles as the kernel writes them ----------

  /** Each argument closed by a separator. */
  function Closed(argv: seq<string>): string {
    if argv == [] then "" else Closed(argv[..|argv| - 1]) + argv[|argv| - 1] + [NUL]
  }

  predicate Separable(argv: seq<string>) { forall i :: 0 <= i < |argv| ==> NUL !in argv[i] }

  /** The parts with the text added to the last one. */
  function Extended(parts: seq<string>, word: string): seq<string>
    requires parts != []
  {
    parts[..|parts| - 1] + [parts[|parts| - 1] + word]
  }

  lemma ExtendedMore(parts: seq<string>, word: string, c: char)
    requires parts != []
    ensures Extended(Extended(parts, word), [c]) == Extended(parts, word + [c])
  {
    Associate(parts[|parts| - 1], word, [c]);
  }

  lemma SplitChar(s: string, c: char)
    requires c != NUL
    ensures Split(s + [c]) == Extended(Split(s), [c])
  {
    assert (s + [c])[..|s|] == s;
  }

  lemma {:induction false} SplitMore(s: string, word: string)
    requires NUL !in word
    ensures Split(s + word) == Extended(Split(s), word)
  {
    if word == "" {
      assert s + word == s;
      assert Split(s)[|Split(s)| - 1] + word == Split(s)[|Split(s)| - 1];
    } else {
      var front, c := word[..|word| - 1], word[|word| - 1];
      assert word == front + [c] && c in word;
      SplitMore(s, front);
      Associate(s, front, [c]);
      SplitChar(s + front, c);
      ExtendedMore(Split(s), front, c);
    }
  }

  lemma SplitSeparator(s: string)
    ensures Split(s + [NUL]) == Split(s) + [""]
  {
    assert (s + [NUL])[..|s|] == s;
  }

  /** The last argument stands open after the closed ones. */
  lemma SplitOpen(front: seq<string>, last: string)
    requires Split(Closed(front)) == front + [""] && NUL !in last
    ensures Split(Closed(front) + last) == front + [last]
  {
    SplitMore(Closed(front), last);
    assert (front + [""])[..|front|] == front;
    assert "" + last == last;
  }

  lemma {:induction false} SplitClosed(argv: seq<string>)
    requires Separable(argv)
    ensures Split(Closed(argv)) == argv + [""]
  {
    if argv != [] {
      var front, last := argv[..|argv| - 1], argv[|argv| - 1];
      SplitClosed(front);
      SplitOpen(front, last);
      SplitSeparator(Closed(front) + last);
      assert argv == front + [last];
    }
  }

  lemma TitlePartsOf(s: string, front: seq<string>, last: string)
    requires Split(s) == front + [last]
    ensures TitleParts(s) == if front != [] && last == "" then front else front + [last]
  {
    assert (front + [last])[..|front|] == front;
  }

  /** The theorem: a title in which every argument is closed reads back as its vector;
      one whose last separator is missing does exactly when its last argument is not
      empty or the only one. */
  lemma TitleInvertsClosing(argv: seq<string>)
    requires argv != [] && Separable(argv)
    ensures TitleParts(Closed(argv)) == argv
    ensures TitleParts(Closed(argv)[..|Closed(argv)| - 1]) == argv <==> argv[|argv| - 1] != "" || |argv| == 1
  {
    var front, last := argv[..|argv| - 1], argv[|argv| - 1];
    assert argv == front + [last];
    SplitClosed(argv);
    TitlePartsOf(Closed(argv), argv, "");
    SplitClosed(front);
    SplitOpen(front, last);
    TitlePartsOf(Closed(front) + last, front, last);
    assert Closed(argv)[..|Closed(argv)| - 1] == Closed(front) + last;
  }

  /** From the field to the vector, when the kernel writes the title in hex. */
  lemma TitleFieldInverts(argv: seq<string>, n: nat)
    requires argv != [] && Separable(argv) && ValidUtf8(Closed(argv)) && Bytes(Closed(argv))
    ensures TitleArguments(n, Field("proctitle", HexEncode(Closed(argv)), false, false)) ==
      Arguments(Some(argv), FromTitle, [])
  {
    HexRoundTrip(Closed(argv));
    TitleInvertsClosing(argv);
  }

  // ---------- a returned vector is complete and uncontradicted ----------

  /** The argument bears out what one of its fields says. */
  ghost predicate Bears(a: ExecArgument, s: Slot, f: Field) {
    match s
    case Whole(_) => a.whole.Some? && !Differs(a.whole.value, f)
    case Length(_) => a.length.Some? && Atoi(f.value) == a.length
    case Fragment(_, j) => j >= 0 && j in a.fragments && !Differs(a.fragments[j], f)
  }

  /** The table bears out what one field says. */
  ghost predicate Agrees(t: Table, f: Field) {
    if f.key == "argc" then Atoi(f.value) == Some(t.argc) && t.argc >= 0
    else
      match SlotOf(f.key)
      case None => true
      case Some(s) => s.arg in t.args && Bears(t.args[s.arg], s, f)
  }

  lemma AddedBears(a: ExecArgument, s: Slot, f: Field, q: Slot, g: Field)
    requires (s.Fragment? ==> s.part >= 0) && Fits(a, s, f) && Bears(a, q, g)
    ensures Bears(Added(a, s, f), q, g)
  {
  }

  lemma AbsorbKeepsAgreement(t: Table, f: Field, g: Field)
    requires Absorb(t, f).valid && Agrees(t, g)
    ensures Agrees(Absorb(t, f), g)
  {
    if f.key != "argc" && g.key != "argc" && SlotOf(f.key).Some? && SlotOf(g.key).Some? {
      var s, q := SlotOf(f.key).value, SlotOf(g.key).value;
      if s.arg == q.arg { AddedBears(t.args[s.arg], s, f, q, g); }
    }
  }

  lemma {:induction false} ValidTableAgrees(fields: seq<Field>, f: Field)
    requires AbsorbAll(fields).valid && f in fields
    ensures Agrees(AbsorbAll(fields), f)
  {
    var front, last := fields[..|fields| - 1], fields[|fields| - 1];
    assert fields == front + [last];
    if f in front {
      AbsorbKeepsValidity(AbsorbAll(front), last);
      ValidTableAgrees(front, f);
      AbsorbKeepsAgreement(AbsorbAll(front), last, f);
    }
  }

  lemma AbsorbKeepsValidity(t: Table, f: Field)
    requires Absorb(t, f).valid
    ensures t.valid
  {
  }

  // ---------- where the contents of the table come from ----------

  /** `f` is a field of the slot. */
  ghost predicate Says(fields: seq<Field>, s: Slot, f: Field) { f in fields && SlotOf(f.key) == Some(s) }

  ghost predicate LengthSaid(fields: seq<Field>, i: nat, n: int) {
    exists f :: Says(fields, Length(i), f) && Atoi(f.value) == Some(n)
  }

  /** Everything stored for the argument was read from one of its fields. */
  ghost predicate Traced(fields: seq<Field>, a: ExecArgument, i: nat) {
    && (a.whole.Some? ==> Says(fields, Whole(i), a.whole.value))
    && (a.length.Some? ==> LengthSaid(fields, i, a.length.value))
    && (forall j :: j in a.fragments ==> Says(fields, Fragment(i, j), a.fragments[j]))
  }

  ghost predicate CountSaid(fields: seq<Field>, n: int) {
    exists f :: f in fields && f.key == "argc" && Atoi(f.value) == Some(n)
  }

  lemma TracedFurther(fields: seq<Field>, a: ExecArgument, i: nat, f: Field)
    requires Traced(fields, a, i)
    ensures Traced(fields + [f], a, i)
  {
    if a.length.Some? {
      var g :| Says(fields, Length(i), g) && Atoi(g.value) == Some(a.length.value);
      assert Says(fields + [f], Length(i), g);
    }
  }

  lemma TracedAdded(fields: seq<Field>, a: ExecArgument, s: Slot, f: Field)
    requires Traced(fields, a, s.arg) && Says(fields, s, f) && (s.Fragment? ==> s.part >= 0)
    ensures Traced(fields, Added(a, s, f), s.arg)
  {
  }

  lemma TracedNext(fields: seq<Field>, t: Table, f: Field, i: nat)
    requires Traced(fields, Argument(t, i), i)
    ensures Traced(fields + [f], Argument(Absorb(t, f), i), i)
  {
    TracedFurther(fields, Argument(t, i), i, f);
    if f.key != "argc" && SlotOf(f.key).Some? {
      var s := SlotOf(f.key).value;
      if s.arg == i && (s.Fragment? ==> s.part >= 0) { TracedAdded(fields + [f], Argument(t, i), s, f); }
    }
  }

  lemma AbsorbLast(front: seq<Field>, last: Field)
    ensures AbsorbAll(front + [last]) == Absorb(AbsorbAll(front), last)
  {
    assert (front + [last])[..|front|] == front;
  }

  lemma {:induction false} TableIsTraced(fields: seq<Field>, i: nat)
    ensures Traced(fields, Argument(AbsorbAll(fields), i), i)
  {
    if fields != [] {
      var front, last := fields[..|fields| - 1], fields[|fields| - 1];
      assert fields == front + [last];
      AbsorbLast(front, last);
      TableIsTraced(front, i);
      TracedNext(front, AbsorbAll(front), last, i);
    }
  }

  lemma {:induction false} CountIsSaid(fields: seq<Field>)
    requires AbsorbAll(fields).argc >= 0
    ensures CountSaid(fields, AbsorbAll(fields).argc)
  {
    if fields != [] {
      var front, last := fields[..|fields| - 1], fields[|fields| - 1];
      assert fields == front + [last];
      if AbsorbAll(fields).argc == AbsorbAll(front).argc {
        CountIsSaid(front);
        var f :| f in front && f.key == "argc" && Atoi(f.value) == Some(AbsorbAll(front).argc);
        assert f in fields;
      } else {
        assert last in fields && last.key == "argc" && Atoi(last.value) == Some(AbsorbAll(fields).argc);
      }
    }
  }

  // ---------- what a decoded argument rests on ----------

  /** Which fields may name argument `i`. */
  ghost predicate OnlyWhole(fields: seq<Field>, i: nat) {
    forall s, f :: Says(fields, s, f) && s.arg == i ==> s.Whole?
  }

  ghost predicate OnlyParts(fields: seq<Field>, i: nat, n: nat) {
    forall s, f :: Says(fields, s, f) && s.arg == i ==> s.Length? || (s.Fragment? && 0 <= s.part < n)
  }

  /** The argument stands in one field, and no length or fragment speaks of it. */
  ghost predicate WholeEvidence(fields: seq<Field>, i: nat, text: string) {
    && (exists f :: Says(fields, Whole(i), f) && UntrustedString(f) == Some(text))
    && OnlyWhole(fields, i)
  }

  /** The texts of the parts, one after the other. */
  function Spliced(parts: seq<Field>): Option<string> {
    if parts == [] then Some("")
    else
      var front, last := Spliced(parts[..|parts| - 1]), UntrustedString(parts[|parts| - 1]);
      if front.None? || last.None? then None else Some(front.value + last.value)
  }

  /** The characters written for the parts. */
  function WrittenLength(parts: seq<Field>): nat {
    if parts == [] then 0 else WrittenLength(parts[..|parts| - 1]) + |parts[|parts| - 1].value|
  }

  /** `parts` are the fragments 0, 1, ... of the argument, all of them, and a length
      field counts their characters. */
  ghost predicate SplitEvidence(fields: seq<Field>, i: nat, parts: seq<Field>, text: string) {
    && parts != []
    && (forall j :: 0 <= j < |parts| ==> Says(fields, Fragment(i, j), parts[j]))
    && OnlyParts(fields, i, |parts|)
    && LengthSaid(fields, i, WrittenLength(parts))
    && Spliced(parts) == Some(text)
  }

  /** The first `n` fragments in order. */
  ghost function PartsOf(fragments: map<nat, Field>, n: nat): (parts: seq<Field>)
    requires forall j: nat :: j < n ==> j in fragments
    ensures |parts| == n && forall j :: 0 <= j < n ==> parts[j] == fragments[j]
  {
    seq(n, j requires 0 <= j < n => fragments[j])
  }

  lemma {:induction false} PartsAssemble(fragments: map<nat, Field>, parts: seq<Field>, n: nat)
    requires n <= |parts| && forall j: nat :: j < |parts| ==> j in fragments && parts[j] == fragments[j]
    ensures Assembled(fragments, n) == Spliced(parts[..n])
    ensures EncodedLength(fragments, n) == WrittenLength(parts[..n])
  {
    if n > 0 {
      PartsAssemble(fragments, parts, n - 1);
      assert parts[..n][..n - 1] == parts[..n - 1];
    }
  }

  lemma {:induction false} AssembledIsFull(fragments: map<nat, Field>, n: nat, j: nat)
    requires Assembled(fragments, n).Some? && j < n
    ensures j in fragments
  {
    if j < n - 1 { AssembledIsFull(fragments, n - 1, j); }
  }

  /** The table holds what the fields say, and nothing they do not say. */
  ghost predicate Faithful(fields: seq<Field>, t: Table) {
    && (forall i: nat :: Traced(fields, Argument(t, i), i))
    && (forall s, f :: Says(fields, s, f) ==> s.arg in t.args && Bears(t.args[s.arg], s, f))
  }

  lemma ValidTableIsFaithful(fields: seq<Field>)
    requires AbsorbAll(fields).valid
    ensures Faithful(fields, AbsorbAll(fields))
  {
    var t := AbsorbAll(fields);
    forall i: nat ensures Traced(fields, Argument(t, i), i) { TableIsTraced(fields, i); }
    forall s, f | Says(fields, s, f) ensures s.arg in t.args && Bears(t.args[s.arg], s, f) {
      ValidTableAgrees(fields, f);
      assert Agrees(t, f);
    }
  }

  lemma ArgumentHasWhole(fields: seq<Field>, t: Table, i: nat)
    requires Faithful(fields, t) && i in t.args
    requires t.args[i].whole.Some? && DecodeArgument(t.args[i]).Some?
    ensures WholeEvidence(fields, i, DecodeArgument(t.args[i]).value)
  {
    assert Traced(fields, Argument(t, i), i);
    assert Says(fields, Whole(i), t.args[i].whole.value);
    assert |t.args[i].fragments.Keys| == 0;
    forall s, f | Says(fields, s, f) && s.arg == i ensures s.Whole? { assert Bears(t.args[i], s, f); }
  }

  /** The fragments are numbered 0 to `n`, without a gap and without another. */
  lemma PartsAreAll(fields: seq<Field>, t: Table, i: nat)
    requires Faithful(fields, t) && i in t.args
    requires t.args[i].whole.None? && DecodeArgument(t.args[i]).Some?
    ensures forall j: nat :: j < |t.args[i].fragments| ==> j in t.args[i].fragments
    ensures OnlyParts(fields, i, |t.args[i].fragments|)
  {
    var a := t.args[i];
    var n := |a.fragments|;
    forall j: nat | j < n ensures j in a.fragments { AssembledIsFull(a.fragments, n, j); }
    assert |a.fragments.Keys| == n;
    forall s, f | Says(fields, s, f) && s.arg == i ensures s.Length? || (s.Fragment? && 0 <= s.part < n) {
      assert Bears(a, s, f);
      if s.Fragment? && s.part >= n { RangeAndMore(a.fragments.Keys, n, s.part); }
    }
  }

  lemma ArgumentHasParts(fields: seq<Field>, t: Table, i: nat) returns (parts: seq<Field>)
    requires Faithful(fields, t) && i in t.args
    requires t.args[i].whole.None? && DecodeArgument(t.args[i]).Some?
    ensures SplitEvidence(fields, i, parts, DecodeArgument(t.args[i]).value)
  {
    assert Traced(fields, Argument(t, i), i);
    PartsAreAll(fields, t, i);
    parts := PartsOf(t.args[i].fragments, |t.args[i].fragments|);
    PartsAreEvidence(fields, t.args[i], i, parts);
  }

  lemma PartsAreEvidence(fields: seq<Field>, a: ExecArgument, i: nat, parts: seq<Field>)
    requires Traced(fields, a, i) && OnlyParts(fields, i, |parts|)
    requires a.whole.None? && DecodeArgument(a).Some? && |parts| == |a.fragments|
    requires forall j: nat :: j < |parts| ==> j in a.fragments && parts[j] == a.fragments[j]
    ensures SplitEvidence(fields, i, parts, DecodeArgument(a).value)
  {
    PartsAssemble(a.fragments, parts, |parts|);
    assert parts[..|parts|] == parts;
  }

  /** A returned argument rests on one whole field or on all its parts, never both. */
  ghost predicate Supported(fields: seq<Field>, i: nat, text: string) {
    WholeEvidence(fields, i, text) != exists parts :: SplitEvidence(fields, i, parts, text)
  }

  lemma PartsAreNotWhole(fields: seq<Field>, i: nat, parts: seq<Field>, text: string)
    requires SplitEvidence(fields, i, parts, text)
    ensures !OnlyWhole(fields, i)
  {
    assert Says(fields, Fragment(i, 0), parts[0]);
  }

  lemma ArgumentIsSupported(fields: seq<Field>, t: Table, i: nat)
    requires Faithful(fields, t) && i in t.args && DecodeArgument(t.args[i]).Some?
    ensures Supported(fields, i, DecodeArgument(t.args[i]).value)
  {
    var text := DecodeArgument(t.args[i]).value;
    if t.args[i].whole.Some? {
      ArgumentHasWhole(fields, t, i);
      if parts :| SplitEvidence(fields, i, parts, text) { PartsAreNotWhole(fields, i, parts, text); }
    } else {
      var parts := ArgumentHasParts(fields, t, i);
      PartsAreNotWhole(fields, i, parts, text);
    }
  }

  lemma {:induction false} VectorIsComplete(args: map<nat, ExecArgument>, n: nat, i: nat)
    requires Vector(args, n).Some? && i < n
    ensures |Vector(args, n).value| == n && i in args
    ensures DecodeArgument(args[i]) == Some(Vector(args, n).value[i])
    ensures ValidUtf8(Vector(args, n).value[i])
  {
    if i < n - 1 {
      VectorIsComplete(args, n - 1, i);
    } else if n > 1 {
      VectorIsComplete(args, n - 1, 0);
    }
  }

  /** The theorem: whenever a vector is returned, some field states its length and no
      field states another, every argument is valid UTF-8 and rests on one whole field
      or on all its fragments, no field names an index beyond it, and fields that name
      the same slot agree. */
  lemma ReturnedVectorIsComplete(fields: seq<Field>, argv: seq<string>)
    requires Reconstructed(AbsorbAll(fields)) == Some(argv)
    ensures CountSaid(fields, |argv|)
    ensures forall f :: f in fields && f.key == "argc" ==> Atoi(f.value) == Some(|argv|)
    ensures forall i :: 0 <= i < |argv| ==> Supported(fields, i, argv[i]) && ValidUtf8(argv[i])
    ensures forall s, f :: Says(fields, s, f) ==> s.arg < |argv|
    ensures forall s, f, g :: Says(fields, s, f) && Says(fields, s, g) ==>
      if s.Length? then Atoi(f.value) == Atoi(g.value) else f.value == g.value && f.quoted == g.quoted
  {
    var t := AbsorbAll(fields);
    VectorLength(t.args, |t.args|);
    CountIsSaid(fields);
    ValidTableIsFaithful(fields);
    forall i | 0 <= i < |argv| ensures Supported(fields, i, argv[i]) && ValidUtf8(argv[i]) {
      VectorIsComplete(t.args, |t.args|, i);
      ArgumentIsSupported(fields, t, i);
    }
    FieldsFitTable(fields, t, |argv|);
  }

  lemma {:induction false} VectorLength(args: map<nat, ExecArgument>, n: nat)
    requires Vector(args, n).Some?
    ensures |Vector(args, n).value| == n
  {
    if n > 0 { VectorLength(args, n - 1); }
  }

  /** No field contradicts a valid table of `n` arguments. */
  lemma FieldsFitTable(fields: seq<Field>, t: Table, n: nat)
    requires t == AbsorbAll(fields) && t.valid && t.argc == n == |t.args| && Vector(t.args, n).Some?
    ensures forall f :: f in fields && f.key == "argc" ==> Atoi(f.value) == Some(n)
    ensures forall s, f :: Says(fields, s, f) ==> s.arg < n
    ensures forall s, f, g :: Says(fields, s, f) && Says(fields, s, g) ==>
      if s.Length? then Atoi(f.value) == Atoi(g.value) else f.value == g.value && f.quoted == g.quoted
  {
    forall f | f in fields ensures Agrees(t, f) { ValidTableAgrees(fields, f); }
    forall s, f | Says(fields, s, f) ensures s.arg < n {
      assert Agrees(t, f);
      IndexesFillRange(t.args, n, s.arg);
    }
    forall s, f, g | Says(fields, s, f) && Says(fields, s, g)
      ensures if s.Length? then Atoi(f.value) == Atoi(g.value) else f.value == g.value && f.quoted == g.quoted
    {
      assert Agrees(t, f) && Agrees(t, g);
    }
  }

  /** A table of `n` arguments that contains the indexes below `n` contains no other. */
  lemma IndexesFillRange(args: map<nat, ExecArgument>, n: nat, i: nat)
    requires |args| == n && i in args && Vector(args, n).Some?
    ensures i < n
  {
    forall j: nat | j < n ensures j in args { VectorIsComplete(args, n, j); }
    assert |args.Keys| == |args|;
    if i >= n { RangeAndMore(args.Keys, n, i); }
  }

  lemma {:induction false} RangeAndMore(s: set<nat>, n: nat, i: nat)
    requires (forall j: nat :: j < n ==> j in s) && i in s && i >= n
    ensures |s| > n
  {
    if n > 0 { RangeAndMore(s - {n - 1}, n - 1, i); }
  }
}
