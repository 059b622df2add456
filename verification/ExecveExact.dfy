/** When an argument vector is returned: exactly when its evidence is complete.  The
    fields may come from any records, in any order and any number of times. */
module ExecveExact {
  import opened Records
  import opened Numerals
  import opened Execve

  /** Fields that name the same thing say the same. */
  ghost predicate Agreeing(fields: seq<Field>) {
    forall s, f, g :: Says(fields, s, f) && Says(fields, s, g) ==>
      if s.Length? then Atoi(f.value) == Atoi(g.value) else f.value == g.value && f.quoted == g.quoted
  }

  /** The fields are evidence for this vector, all of it and nothing else. */
  ghost predicate Complete(fields: seq<Field>, argv: seq<string>) {
    && CountSaid(fields, |argv|)
    && (forall f :: f in fields && f.key == "argc" ==> Atoi(f.value) == Some(|argv|))
    && (forall i :: 0 <= i < |argv| ==> Supported(fields, i, argv[i]) && ValidUtf8(argv[i]))
    && (forall s, f :: Says(fields, s, f) ==> s.arg < |argv|)
    && Agreeing(fields)
  }

  /** No two spellings of a field differ in being interpreted alone. */
  ghost predicate Uniform(fields: seq<Field>) {
    forall s, f, g :: Says(fields, s, f) && Says(fields, s, g) && f.value == g.value && f.quoted == g.quoted ==>
      f.interpreted == g.interpreted
  }

  // ---------- complete evidence leaves a valid table ----------

  /** Two fields of one slot fit the same argument. */
  predicate Together(s: Slot, f: Field, g: Field) {
    match s
    case Whole(_) => !Differs(f, g)
    case Length(_) => Atoi(f.value).Some? && Atoi(f.value).value >= 0 && Atoi(f.value) == Atoi(g.value)
    case Fragment(_, j) => j >= 0 && !Differs(f, g)
  }

  ghost predicate Harmonious(fields: seq<Field>, n: nat) {
    && (forall f :: f in fields && f.key == "argc" ==> Atoi(f.value) == Some(n))
    && (forall s, f, g :: Says(fields, s, f) && Says(fields, s, g) ==> Together(s, f, g))
  }

  lemma FewerAreHarmonious(front: seq<Field>, last: Field, n: nat)
    requires Harmonious(front + [last], n)
    ensures Harmonious(front, n)
  {
    forall s, f, g | Says(front, s, f) && Says(front, s, g) ensures Together(s, f, g) {
      assert Says(front + [last], s, f) && Says(front + [last], s, g);
    }
  }

  lemma TogetherFits(fields: seq<Field>, a: ExecArgument, s: Slot, f: Field)
    requires Traced(fields, a, s.arg) && Together(s, f, f)
    requires forall g :: Says(fields, s, g) ==> Together(s, f, g)
    ensures (s.Fragment? ==> s.part >= 0) && Fits(a, s, f)
  {
    if s.Length? && a.length.Some? {
      var g :| Says(fields, s, g) && Atoi(g.value) == Some(a.length.value);
    }
  }

  lemma NextFits(front: seq<Field>, last: Field, n: nat)
    requires Harmonious(front + [last], n) && AbsorbAll(front).valid
    ensures Absorb(AbsorbAll(front), last).valid
  {
    var t := AbsorbAll(front);
    if last.key == "argc" {
      if t.argc >= 0 {
        CountIsSaid(front);
        var g :| g in front && g.key == "argc" && Atoi(g.value) == Some(t.argc);
        assert g in front + [last] && last in front + [last];
      }
    } else if SlotOf(last.key).Some? {
      var s := SlotOf(last.key).value;
      TableIsTraced(front, s.arg);
      assert Says(front + [last], s, last);
      forall g | Says(front, s, g) ensures Together(s, last, g) { assert Says(front + [last], s, g); }
      TogetherFits(front, Argument(t, s.arg), s, last);
    }
  }

  lemma {:induction false} HarmoniousIsValid(fields: seq<Field>, n: nat)
    requires Harmonious(fields, n)
    ensures AbsorbAll(fields).valid
  {
    if fields != [] {
      var front, last := fields[..|fields| - 1], fields[|fields| - 1];
      assert fields == front + [last];
      FewerAreHarmonious(front, last, n);
      HarmoniousIsValid(front, n);
      NextFits(front, last, n);
      AbsorbLast(front, last);
    }
  }

  lemma PartIsTogether(fields: seq<Field>, s: Slot, f: Field, g: Field, parts: seq<Field>, text: string)
    requires Agreeing(fields) && Says(fields, s, f) && Says(fields, s, g)
    requires SplitEvidence(fields, s.arg, parts, text)
    ensures Together(s, f, g)
  {
    if s.Length? {
      var h :| Says(fields, s, h) && Atoi(h.value) == Some(WrittenLength(parts));
    }
  }

  lemma WholeIsTogether(fields: seq<Field>, s: Slot, f: Field, g: Field)
    requires Agreeing(fields) && Says(fields, s, f) && Says(fields, s, g) && OnlyWhole(fields, s.arg)
    ensures Together(s, f, g)
  {
    assert s.Whole?;
    assert f.value == g.value && f.quoted == g.quoted;
  }

  lemma SlotIsTogether(fields: seq<Field>, argv: seq<string>, s: Slot, f: Field, g: Field)
    requires Complete(fields, argv) && Says(fields, s, f) && Says(fields, s, g)
    ensures Together(s, f, g)
  {
    assert Supported(fields, s.arg, argv[s.arg]);
    if parts :| SplitEvidence(fields, s.arg, parts, argv[s.arg]) {
      PartIsTogether(fields, s, f, g, parts, argv[s.arg]);
    } else {
      WholeIsTogether(fields, s, f, g);
    }
  }

  lemma CompleteIsHarmonious(fields: seq<Field>, argv: seq<string>)
    requires Complete(fields, argv)
    ensures Harmonious(fields, |argv|)
  {
    forall s, f, g | Says(fields, s, f) && Says(fields, s, g) ensures Together(s, f, g) {
      SlotIsTogether(fields, argv, s, f, g);
    }
  }

  // ---------- the table of complete evidence ----------

  lemma {:induction false} KeyIsSaid(fields: seq<Field>, i: nat) returns (s: Slot, f: Field)
    requires i in AbsorbAll(fields).args
    ensures Says(fields, s, f) && s.arg == i
  {
    var front, last := fields[..|fields| - 1], fields[|fields| - 1];
    assert fields == front + [last];
    if i in AbsorbAll(front).args {
      s, f := KeyIsSaid(front, i);
    } else {
      s, f := SlotOf(last.key).value, last;
    }
  }

  lemma SupportIsSaid(fields: seq<Field>, i: nat, text: string) returns (s: Slot, f: Field)
    requires Supported(fields, i, text)
    ensures Says(fields, s, f) && s.arg == i
  {
    if WholeEvidence(fields, i, text) {
      s := Whole(i);
      f :| Says(fields, s, f);
    } else {
      var parts :| SplitEvidence(fields, i, parts, text);
      s, f := Fragment(i, 0), parts[0];
    }
  }

  /** The table names the arguments of the vector and no others. */
  lemma KeysAreIndexes(fields: seq<Field>, argv: seq<string>, t: Table)
    requires Complete(fields, argv) && t == AbsorbAll(fields) && Faithful(fields, t)
    ensures forall i :: i in t.args <==> 0 <= i < |argv|
    ensures |t.args| == |argv|
  {
    forall i: nat ensures i in t.args <==> i < |argv| {
      if i in t.args {
        var s, f := KeyIsSaid(fields, i);
      } else if i < |argv| {
        var s, f := SupportIsSaid(fields, i, argv[i]);
      }
    }
    RangeHasSize(t.args.Keys, |argv|);
    assert |t.args.Keys| == |t.args|;
  }

  lemma {:induction false} RangeHasSize(s: set<nat>, n: nat)
    requires forall i: nat :: i in s <==> i < n
    ensures |s| == n
  {
    if n == 0 {
      assert s == {};
    } else {
      RangeHasSize(s - {n - 1}, n - 1);
    }
  }

  lemma CountIsArgc(fields: seq<Field>, n: nat)
    requires AbsorbAll(fields).valid && CountSaid(fields, n)
    ensures AbsorbAll(fields).argc == n
  {
    var f :| f in fields && f.key == "argc" && Atoi(f.value) == Some(n);
    ValidTableAgrees(fields, f);
  }

  // ---------- its arguments decode ----------

  lemma SameText(fields: seq<Field>, s: Slot, f: Field, g: Field)
    requires Uniform(fields) && Says(fields, s, f) && Says(fields, s, g) && !Differs(f, g)
    ensures UntrustedString(f) == UntrustedString(g) && f.value == g.value
  {
  }

  lemma WholeDecodes(fields: seq<Field>, t: Table, i: nat, text: string)
    requires Faithful(fields, t) && Uniform(fields) && WholeEvidence(fields, i, text)
    ensures i in t.args && DecodeArgument(t.args[i]) == Some(text)
  {
    var f :| Says(fields, Whole(i), f) && UntrustedString(f) == Some(text);
    var a := t.args[i];
    assert Bears(a, Whole(i), f) && Traced(fields, Argument(t, i), i);
    SameText(fields, Whole(i), a.whole.value, f);
    NoParts(fields, a, i);
  }

  lemma NoParts(fields: seq<Field>, a: ExecArgument, i: nat)
    requires Traced(fields, a, i) && OnlyWhole(fields, i)
    ensures a.length.None? && |a.fragments| == 0
  {
    assert forall f :: !Says(fields, Length(i), f);
    assert forall j, f :: !Says(fields, Fragment(i, j), f);
    assert a.fragments == map[];
  }

  /** The fragments of the argument are those of the parts, up to their spelling. */
  ghost predicate Match(a: ExecArgument, parts: seq<Field>) {
    && (forall j :: j in a.fragments <==> 0 <= j < |parts|)
    && forall j :: 0 <= j < |parts| ==>
         UntrustedString(a.fragments[j]) == UntrustedString(parts[j]) && a.fragments[j].value == parts[j].value
  }

  lemma PartsMatch(fields: seq<Field>, t: Table, i: nat, parts: seq<Field>, text: string)
    requires Faithful(fields, t) && Uniform(fields) && SplitEvidence(fields, i, parts, text)
    ensures i in t.args && Match(t.args[i], parts) && t.args[i].whole.None?
  {
    assert Says(fields, Fragment(i, 0), parts[0]);
    var a := t.args[i];
    assert Traced(fields, a, i) by { assert Traced(fields, Argument(t, i), i); }
    OnlyThoseParts(fields, a, i, |parts|);
    forall j | 0 <= j < |parts|
      ensures j in a.fragments && UntrustedString(a.fragments[j]) == UntrustedString(parts[j])
      ensures a.fragments[j].value == parts[j].value
    {
      PartMatches(fields, a, i, j, parts[j]);
    }
  }

  lemma OnlyThoseParts(fields: seq<Field>, a: ExecArgument, i: nat, n: nat)
    requires Traced(fields, a, i) && OnlyParts(fields, i, n)
    ensures a.whole.None? && forall j :: j in a.fragments ==> j < n
  {
    forall j | j in a.fragments ensures j < n { assert Says(fields, Fragment(i, j), a.fragments[j]); }
  }

  lemma PartMatches(fields: seq<Field>, a: ExecArgument, i: nat, j: nat, part: Field)
    requires Uniform(fields) && Traced(fields, a, i) && Says(fields, Fragment(i, j), part)
    requires Bears(a, Fragment(i, j), part)
    ensures j in a.fragments && UntrustedString(a.fragments[j]) == UntrustedString(part)
    ensures a.fragments[j].value == part.value
  {
    SameText(fields, Fragment(i, j), a.fragments[j], part);
  }

  lemma {:induction false} MatchedAssemble(a: ExecArgument, parts: seq<Field>, n: nat)
    requires Match(a, parts) && n <= |parts|
    ensures Assembled(a.fragments, n) == Spliced(parts[..n])
    ensures EncodedLength(a.fragments, n) == WrittenLength(parts[..n])
  {
    if n > 0 {
      MatchedAssemble(a, parts, n - 1);
      assert parts[..n][..n - 1] == parts[..n - 1];
    }
  }

  lemma LengthIsBorne(fields: seq<Field>, t: Table, i: nat, n: int)
    requires Faithful(fields, t) && LengthSaid(fields, i, n)
    ensures i in t.args && t.args[i].length == Some(n)
  {
    var f :| Says(fields, Length(i), f) && Atoi(f.value) == Some(n);
    assert Bears(t.args[i], Length(i), f);
  }

  lemma SplitDecodes(fields: seq<Field>, t: Table, i: nat, parts: seq<Field>, text: string)
    requires Faithful(fields, t) && Uniform(fields) && SplitEvidence(fields, i, parts, text)
    ensures i in t.args && DecodeArgument(t.args[i]) == Some(text)
  {
    PartsMatch(fields, t, i, parts, text);
    LengthIsBorne(fields, t, i, WrittenLength(parts));
    RangeHasSize(t.args[i].fragments.Keys, |parts|);
    assert |t.args[i].fragments.Keys| == |t.args[i].fragments|;
    MatchedAssemble(t.args[i], parts, |parts|);
    assert parts[..|parts|] == parts;
  }

  lemma SupportedDecodes(fields: seq<Field>, t: Table, i: nat, text: string)
    requires Faithful(fields, t) && Uniform(fields) && Supported(fields, i, text)
    ensures i in t.args && DecodeArgument(t.args[i]) == Some(text)
  {
    if WholeEvidence(fields, i, text) {
      WholeDecodes(fields, t, i, text);
    } else {
      var parts :| SplitEvidence(fields, i, parts, text);
      SplitDecodes(fields, t, i, parts, text);
    }
  }

  lemma {:induction false} VectorIs(args: map<nat, ExecArgument>, argv: seq<string>, n: nat)
    requires n <= |argv|
    requires forall i: nat :: i < n ==> Decodes(args, i, argv[i])
    ensures Vector(args, n) == Some(argv[..n])
  {
    if n > 0 {
      VectorIs(args, argv, n - 1);
      assert Decodes(args, n - 1, argv[n - 1]);
      NextArgument(args, n - 1, argv[..n - 1], argv[n - 1]);
      TakeOneMore(argv, n);
    }
  }

  ghost predicate Decodes(args: map<nat, ExecArgument>, i: nat, text: string) {
    i in args && DecodeArgument(args[i]) == Some(text) && ValidUtf8(text)
  }

  lemma TakeOneMore<T>(s: seq<T>, n: nat)
    requires 0 < n <= |s|
    ensures s[..n] == s[..n - 1] + [s[n - 1]]
  {
  }

  lemma CompleteIsReturned(fields: seq<Field>, argv: seq<string>)
    requires Complete(fields, argv) && Uniform(fields)
    ensures Reconstructed(AbsorbAll(fields)) == Some(argv)
  {
    var t := AbsorbAll(fields);
    CompleteIsHarmonious(fields, argv);
    HarmoniousIsValid(fields, |argv|);
    ValidTableIsFaithful(fields);
    KeysAreIndexes(fields, argv, t);
    CountIsArgc(fields, |argv|);
    forall i: nat | i < |argv| ensures Decodes(t.args, i, argv[i]) {
      SupportedDecodes(fields, t, i, argv[i]);
    }
    VectorIs(t.args, argv, |argv|);
    assert argv[..|argv|] == argv;
  }

  lemma WholeOnlyIsSupported(fields: seq<Field>, f: Field, text: string)
    requires Says(fields, Whole(0), f) && UntrustedString(f) == Some(text) && OnlyWhole(fields, 0)
    ensures Supported(fields, 0, text)
  {
    assert WholeEvidence(fields, 0, text);
    forall parts ensures !SplitEvidence(fields, 0, parts, text) {
      if parts != [] { assert !Says(fields, Fragment(0, 0), parts[0]); }
    }
  }

  /** A count of one, and the argument twice: raw and interpreted. */
  ghost predicate Twice(count: Field, raw: Field, interpreted: Field) {
    && count.key == "argc" && Atoi(count.value) == Some(1)
    && raw.key != "argc" && SlotOf(raw.key) == Some(Whole(0))
    && interpreted.key != "argc" && SlotOf(interpreted.key) == Some(Whole(0))
    && raw.value == interpreted.value && raw.quoted == interpreted.quoted
  }

  lemma TwiceAbsorbed(count: Field, raw: Field, interpreted: Field)
    requires Twice(count, raw, interpreted)
    ensures AbsorbAll([count, raw, interpreted]) ==
            Table(map[0 := ExecArgument(Some(interpreted), None, map[])], 1, true)
  {
    assert [count] == [] + [count] && [count, raw] == [count] + [raw];
    assert [count, raw, interpreted] == [count, raw] + [interpreted];
    AbsorbLast([], count);
    AbsorbLast([count], raw);
    AbsorbLast([count, raw], interpreted);
    WholeIsAbsorbed(Table(map[], 1, true), raw);
    WholeIsAbsorbed(Table(map[0 := ExecArgument(Some(raw), None, map[])], 1, true), interpreted);
  }

  lemma WholeIsAbsorbed(t: Table, f: Field)
    requires f.key != "argc" && SlotOf(f.key) == Some(Whole(0)) && t.valid
    requires t.args == map[] || exists g :: t.args == map[0 := ExecArgument(Some(g), None, map[])] && !Differs(g, f)
    ensures Absorb(t, f) == Table(map[0 := ExecArgument(Some(f), None, map[])], t.argc, true)
  {
  }

  lemma TwiceSays(count: Field, raw: Field, interpreted: Field, s: Slot, f: Field)
    requires Twice(count, raw, interpreted) && Says([count, raw, interpreted], s, f)
    ensures s == Whole(0) && (f == raw || f == interpreted)
  {
    assert SlotOf("argc") == None;
  }

  lemma TwiceIsComplete(count: Field, raw: Field, interpreted: Field, f: Field, text: string)
    requires Twice(count, raw, interpreted) && f in [raw, interpreted]
    requires UntrustedString(f) == Some(text) && ValidUtf8(text)
    ensures Complete([count, raw, interpreted], [text])
  {
    var fields := [count, raw, interpreted];
    TwiceCounts(count, raw, interpreted);
    TwiceAgrees(count, raw, interpreted);
    WholeOnlyIsSupported(fields, f, text);
  }

  lemma TwiceCounts(count: Field, raw: Field, interpreted: Field)
    requires Twice(count, raw, interpreted)
    ensures var fields := [count, raw, interpreted];
            CountSaid(fields, 1) && forall f :: f in fields && f.key == "argc" ==> Atoi(f.value) == Some(1)
  {
    assert count in [count, raw, interpreted];
  }

  lemma TwiceAgrees(count: Field, raw: Field, interpreted: Field)
    requires Twice(count, raw, interpreted)
    ensures var fields := [count, raw, interpreted];
            Agreeing(fields) && OnlyWhole(fields, 0) && forall s, f :: Says(fields, s, f) ==> s.arg == 0
  {
    forall s, g | Says([count, raw, interpreted], s, g) ensures s == Whole(0) && (g == raw || g == interpreted) {
      TwiceSays(count, raw, interpreted, s, g);
    }
  }

  /** Why that proviso: of an argument spelled twice, raw and interpreted, the evidence
      is complete for both readings, and the later one is returned. */
  lemma LaterReadingWins(count: Field, raw: Field, interpreted: Field, x: string, y: string)
    requires Twice(count, raw, interpreted) && ValidUtf8(x) && ValidUtf8(y)
    requires UntrustedString(raw) == Some(x) && UntrustedString(interpreted) == Some(y)
    ensures var fields := [count, raw, interpreted];
            && Complete(fields, [x]) && Complete(fields, [y])
            && Reconstructed(AbsorbAll(fields)) == Some([y])
  {
    TwiceIsComplete(count, raw, interpreted, raw, x);
    TwiceIsComplete(count, raw, interpreted, interpreted, y);
    TwiceAbsorbed(count, raw, interpreted);
    var args := map[0 := ExecArgument(Some(interpreted), None, map[])];
    assert Decodes(args, 0, y);
    VectorIs(args, [y], 1);
    assert [y][..1] == [y];
  }

  /** The theorem: a vector is returned exactly when the fields are complete evidence
      for it, provided no two of them differ in being interpreted alone. */
  lemma VectorIsExact(fields: seq<Field>, argv: seq<string>)
    requires Uniform(fields)
    ensures Reconstructed(AbsorbAll(fields)) == Some(argv) <==> Complete(fields, argv)
  {
    if Reconstructed(AbsorbAll(fields)) == Some(argv) {
      ReturnedVectorIsComplete(fields, argv);
    }
    if Complete(fields, argv) {
      CompleteIsReturned(fields, argv);
    }
  }

  // ---------- what is answered without a vector ----------

  /** Refused evidence is shown whole: each EXECVE field about the vector, or, when
      there is none, that the count is missing. */
  lemma RefusalShowsEvidence(records: seq<ExecRecord>, x: Issue)
    requires ExecArguments(records).argv.None?
    ensures x in ExecArguments(records).issues <==>
      if exists r, f :: r in records && r.IsExecve() && f in r.fields && Relevant(f)
      then x.FieldIssue? && x == FieldIssue("incomplete_argv", x.record, x.field, false) && Relevant(x.field) &&
             x.record < |records| && records[x.record].IsExecve() && x.field in records[x.record].fields
      else x == MissingIssue("incomplete_argv", "EXECVE", "argc")
  {
    EvidenceMembers(records, x);
    if r, f :| r in records && r.IsExecve() && f in r.fields && Relevant(f) {
      var n :| 0 <= n < |records| && records[n] == r;
      EvidenceMembers(records, FieldIssue("incomplete_argv", n, f, false));
    } else if Evidence(records) != [] {
      var first := Evidence(records)[0];
      EvidenceMembers(records, first);
    }
  }

  /** A title is its parts when it means well-formed text, and a report otherwise. */
  lemma TitleIsExact(n: nat, f: Field)
    ensures forall text :: Means(f, text) && ValidUtf8(text) ==>
      TitleArguments(n, f) == Arguments(Some(TitleParts(text)), FromTitle, [])
    ensures (forall text :: Means(f, text) ==> !ValidUtf8(text)) ==>
      TitleArguments(n, f) == Arguments(None, FromTitle, [FieldIssue("invalid_proctitle", n, f, false)])
  {
    forall text ensures UntrustedString(f) == Some(text) <==> Means(f, text) { TextIsExact(f, text); }
  }
}
