/** Splitting an audit line into fields: what each line means, which field lists can
    be written at all, and that writing and parsing are inverse to each other. */
module Fields {
  import opened Records

  /** Fields after this separator are userspace interpretations. */
  const SEPARATOR: char := '\U{1D}'

  predicate Boundary(c: char) { c == ' ' || c == SEPARATOR }

  predicate Quote(c: char) { c == '"' || c == '\'' }

  datatype FieldError =
    | EmptyName(at: nat) | Malformed(text: string, at: nat) | Unterminated(key: string) | NoBoundary(key: string)

  datatype Parsed = Fields(all: seq<Field>) | Bad(error: FieldError)

  // ---------- the grammar ----------

  /** The next byte from `i` on that is no boundary. */
  function Skip(line: string, i: nat): (n: nat)
    requires i <= |line|
    ensures i <= n <= |line| && (n < |line| ==> !Boundary(line[n]))
    decreases |line| - i
  {
    if i < |line| && Boundary(line[i]) then Skip(line, i + 1) else i
  }

  /** Whether the boundaries from `i` on announce interpretations. */
  predicate Flag(line: string, i: nat, interpreted: bool)
    requires i <= |line|
    decreases |line| - i
  {
    if i < |line| && Boundary(line[i]) then Flag(line, i + 1, interpreted || line[i] == SEPARATOR) else interpreted
  }

  /** The next boundary from `i` on. */
  function WordEnd(line: string, i: nat): (n: nat)
    requires i <= |line|
    ensures i <= n <= |line|
    decreases |line| - i
  {
    if i < |line| && !Boundary(line[i]) then WordEnd(line, i + 1) else i
  }

  predicate NameByte(c: char) { c != '=' && !Boundary(c) }

  /** The end of the name that starts at `i`. */
  function NameEnd(line: string, i: nat): (n: nat)
    requires i <= |line|
    ensures i <= n <= |line|
    decreases |line| - i
  {
    if i < |line| && NameByte(line[i]) then NameEnd(line, i + 1) else i
  }

  /** Inside single quotes a double quote opens or closes a nested literal. */
  predicate Inside(quote: char, c: char, nested: bool) {
    if quote == '\'' && c == '"' then !nested else nested
  }

  /** Where a quoted value ends: an apostrophe inside nested double quotes is text. */
  function CloseAt(line: string, i: nat, quote: char, nested: bool): (c: Option<nat>)
    requires i <= |line|
    ensures c.Some? ==> i <= c.value < |line|
    decreases |line| - i
  {
    if i == |line| then None
    else
      var inside := Inside(quote, line[i], nested);
      if line[i] == quote && !inside then Some(i) else CloseAt(line, i + 1, quote, inside)
  }

  datatype Scan = Broken(error: FieldError) | Got(field: Field, next: nat)

  /** The value at `i` of the field `key`. */
  function ScanValue(line: string, key: string, i: nat, interpreted: bool): (r: Scan)
    requires i <= |line|
    ensures r.Got? ==> i <= r.next <= |line| && r.field.key == key && r.field.interpreted == interpreted
  {
    if i < |line| && Quote(line[i]) then
      var c := CloseAt(line, i + 1, line[i], false);
      if c.None? then Broken(Unterminated(key))
      else if c.value + 1 < |line| && !Boundary(line[c.value + 1]) then Broken(NoBoundary(key))
      else Got(Field(key, line[i + 1..c.value], true, interpreted), c.value + 1)
    else Got(Field(key, line[i..WordEnd(line, i)], false, interpreted), WordEnd(line, i))
  }

  /** The field that starts at `i`. */
  function ScanField(line: string, i: nat, interpreted: bool): (r: Scan)
    requires i < |line|
    ensures r.Got? ==> i < r.next <= |line| && r.field.interpreted == interpreted
  {
    var n := NameEnd(line, i);
    if n == i then Broken(EmptyName(i))
    else if n == |line| || line[n] != '=' then Broken(Malformed(line[i..WordEnd(line, i)], i))
    else ScanValue(line, line[i..n], n + 1, interpreted)
  }

  function Then(f: Field, rest: Parsed): Parsed {
    if rest.Fields? then Fields([f] + rest.all) else rest
  }

  /** The fields from `i` on, or the first thing wrong there. */
  function ParseFrom(line: string, i: nat, interpreted: bool): Parsed
    requires i <= |line|
    decreases |line| - i
  {
    var n := Skip(line, i);
    if n == |line| then Fields([])
    else
      match ScanField(line, n, Flag(line, i, interpreted))
      case Broken(error) => Bad(error)
      case Got(f, next) => Then(f, ParseFrom(line, next, f.interpreted))
  }

  function Parse(line: string): Parsed { ParseFrom(line, 0, false) }

  // ---------- the parser as it runs ----------

  /** The values under one name, in order. */
  function Select(all: seq<Field>, key: string): seq<string> {
    if all == [] then []
    else
      var f := all[|all| - 1];
      Select(all[..|all| - 1], key) + if f.key == key then [f.value] else []
  }

  ghost predicate Indexed(all: seq<Field>, values: map<string, seq<string>>, first: map<string, string>) {
    && (forall key :: key in values <==> Select(all, key) != [])
    && (forall key :: key in values ==> values[key] == Select(all, key))
    && first.Keys == values.Keys
    && (forall key :: key in first ==> first[key] == Select(all, key)[0])
  }

  lemma SelectNext(all: seq<Field>, f: Field, key: string)
    ensures Select(all + [f], key) == Select(all, key) + if f.key == key then [f.value] else []
  {
    assert (all + [f])[..|all|] == all;
  }

  lemma IndexNext(all: seq<Field>, f: Field, values: map<string, seq<string>>, first: map<string, string>)
    requires Indexed(all, values, first)
    ensures Indexed(all + [f],
                    values[f.key := (if f.key in values then values[f.key] else []) + [f.value]],
                    if f.key in first then first else first[f.key := f.value])
  {
    forall key ensures Select(all + [f], key) == Select(all, key) + if f.key == key then [f.value] else [] {
      SelectNext(all, f, key);
    }
  }

  method SkipBoundaries(line: string, start: nat, was: bool) returns (i: nat, interpreted: bool)
    requires start <= |line|
    ensures i == Skip(line, start) && interpreted == Flag(line, start, was)
  {
    i, interpreted := start, was;
    while i < |line| && Boundary(line[i])
      invariant start <= i <= |line|
      invariant Skip(line, i) == Skip(line, start) && Flag(line, i, interpreted) == Flag(line, start, was)
    {
      if line[i] == SEPARATOR {
        interpreted := true;
      }
      i := i + 1;
    }
  }

  method ScanName(line: string, start: nat) returns (i: nat)
    requires start <= |line|
    ensures i == NameEnd(line, start)
  {
    i := start;
    while i < |line| && line[i] != '=' && !Boundary(line[i])
      invariant start <= i <= |line| && NameEnd(line, i) == NameEnd(line, start)
    {
      i := i + 1;
    }
  }

  method ScanWord(line: string, start: nat) returns (i: nat)
    requires start <= |line|
    ensures i == WordEnd(line, start)
  {
    i := start;
    while i < |line| && !Boundary(line[i])
      invariant start <= i <= |line| && WordEnd(line, i) == WordEnd(line, start)
    {
      i := i + 1;
    }
  }

  /** Copy a quoted value up to its closing quote. */
  method ScanQuoted(line: string, start: nat, quote: char) returns (i: nat, text: string, closed: bool)
    requires start <= |line|
    ensures closed <==> CloseAt(line, start, quote, false).Some?
    ensures closed ==> i == CloseAt(line, start, quote, false).value + 1 && text == line[start..i - 1]
  {
    i, text, closed := start, "", false;
    var nestedDouble := false;
    while i < |line|
      invariant start <= i <= |line| && text == line[start..i]
      invariant CloseAt(line, i, quote, nestedDouble) == CloseAt(line, start, quote, false)
    {
      if quote == '\'' && line[i] == '"' {
        nestedDouble := !nestedDouble;
      }
      if line[i] == quote && !nestedDouble {
        return i + 1, text, true;
      }
      text := text + [line[i]];
      i := i + 1;
    }
  }

  method TakeValue(line: string, key: string, start: nat, interpreted: bool) returns (scan: Scan)
    requires start <= |line|
    ensures scan == ScanValue(line, key, start, interpreted)
  {
    var i := start;
    if i < |line| && (line[i] == '"' || line[i] == '\'') {
      var text, closed;
      i, text, closed := ScanQuoted(line, i + 1, line[i]);
      if !closed {
        return Broken(Unterminated(key));
      }
      if i < |line| && !Boundary(line[i]) {
        return Broken(NoBoundary(key));
      }
      return Got(Field(key, text, true, interpreted), i);
    }
    i := ScanWord(line, start);
    scan := Got(Field(key, line[start..i], false, interpreted), i);
  }

  method TakeField(line: string, keyStart: nat, interpreted: bool) returns (scan: Scan)
    requires keyStart < |line|
    ensures scan == ScanField(line, keyStart, interpreted)
  {
    var i := ScanName(line, keyStart);
    if i == keyStart {
      return Broken(EmptyName(i));
    }
    if i >= |line| || line[i] != '=' {
      var end := ScanWord(line, keyStart);
      return Broken(Malformed(line[keyStart..end], keyStart));
    }
    scan := TakeValue(line, line[keyStart..i], i + 1, interpreted);
  }

  function Prefixed(all: seq<Field>, rest: Parsed): Parsed {
    if rest.Fields? then Fields(all + rest.all) else rest
  }

  lemma PrefixedThen(all: seq<Field>, f: Field, rest: Parsed)
    ensures Prefixed(all, Then(f, rest)) == Prefixed(all + [f], rest)
  {
    if rest.Fields? { assert all + ([f] + rest.all) == all + [f] + rest.all; }
  }

  /** The whole line: every field in order, all values by name, the first by name. */
  method ParseFields(line: string)
    returns (parsed: Parsed, values: map<string, seq<string>>, first: map<string, string>)
    ensures parsed == Parse(line)
    ensures parsed.Fields? ==> Indexed(parsed.all, values, first)
  {
    var all: seq<Field>, interpreted, i := [], false, 0;
    values, first := map[], map[];
    while i < |line|
      invariant 0 <= i <= |line| && Indexed(all, values, first)
      invariant Parse(line) == Prefixed(all, ParseFrom(line, i, interpreted))
    {
      var keyStart;
      keyStart, interpreted := SkipBoundaries(line, i, interpreted);
      if keyStart >= |line| {
        break;
      }
      var scan := TakeField(line, keyStart, interpreted);
      if scan.Broken? {
        return Bad(scan.error), map[], map[];
      }
      var f := scan.field;
      PrefixedThen(all, f, ParseFrom(line, scan.next, f.interpreted));
      IndexNext(all, f, values, first);
      values := values[f.key := (if f.key in values then values[f.key] else []) + [f.value]];
      first := if f.key in first then first else first[f.key := f.value];
      all, i := all + [f], scan.next;
    }
    parsed := Fields(all);
  }

  // ---------- writing fields ----------

  predicate Name(key: string) { key != "" && forall i :: 0 <= i < |key| ==> NameByte(key[i]) }

  predicate Bare(value: string) {
    (forall i :: 0 <= i < |value| ==> !Boundary(value[i])) && (value == "" || !Quote(value[0]))
  }

  /** Double quotes can hold any text without one, single quotes any text whose
      apostrophes all lie between a pair of double quotes. */
  predicate Quotable(value: string) {
    '"' !in value || CloseAt(value + "'", 0, '\'', false) == Some(|value|)
  }

  predicate WritableField(f: Field) { Name(f.key) && if f.quoted then Quotable(f.value) else Bare(f.value) }

  /** Interpretations come last. */
  predicate Writable(fields: seq<Field>, interpreted: bool) {
    fields == [] ||
    (WritableField(fields[0]) && (interpreted ==> fields[0].interpreted) &&
      Writable(fields[1..], fields[0].interpreted))
  }

  function QuoteFor(value: string): (c: char)
    ensures Quote(c)
  {
    if '"' in value then '\'' else '"'
  }

  function WriteValue(f: Field): string {
    if f.quoted then [QuoteFor(f.value)] + f.value + [QuoteFor(f.value)] else f.value
  }

  function Separation(f: Field, interpreted: bool): char {
    if f.interpreted && !interpreted then SEPARATOR else ' '
  }

  function WriteField(f: Field, interpreted: bool): string {
    [Separation(f, interpreted)] + f.key + "=" + WriteValue(f)
  }

  function Write(fields: seq<Field>, interpreted: bool): string {
    if fields == [] then "" else WriteField(fields[0], interpreted) + Write(fields[1..], fields[0].interpreted)
  }

  // ---------- parsing what was written ----------

  /** `text` stands in the line at `i`. */
  ghost predicate At(line: string, i: nat, text: string) {
    i + |text| <= |line| && forall k :: 0 <= k < |text| ==> line[i + k] == text[k]
  }

  predicate BoundedAt(line: string, i: nat) { i < |line| ==> Boundary(line[i]) }

  lemma AtConcat(line: string, i: nat, a: string, b: string)
    requires At(line, i, a + b)
    ensures At(line, i, a) && At(line, i + |a|, b)
  {
    forall k | 0 <= k < |a| ensures line[i + k] == a[k] { assert (a + b)[k] == a[k]; }
    forall k | 0 <= k < |b| ensures line[i + |a| + k] == b[k] {
      assert (a + b)[|a| + k] == b[k] && line[i + (|a| + k)] == (a + b)[|a| + k];
    }
  }

  lemma AtJoin(line: string, i: nat, a: string, b: string)
    requires At(line, i, a) && At(line, i + |a|, b)
    ensures At(line, i, a + b)
  {
    forall k | 0 <= k < |a + b| ensures line[i + k] == (a + b)[k] {
      if k >= |a| { assert line[i + |a| + (k - |a|)] == b[k - |a|]; }
    }
  }

  lemma AtText(line: string, i: nat, text: string)
    requires At(line, i, text)
    ensures line[i..i + |text|] == text
  {
  }

  /** The word is the longest stretch without a boundary. */
  lemma {:induction false} WordEndIs(line: string, i: nat, n: nat)
    requires i <= n <= |line|
    ensures WordEnd(line, i) == n <==> (forall k :: i <= k < n ==> !Boundary(line[k])) && BoundedAt(line, n)
    decreases n - i
  {
    if i < n { WordEndIs(line, i + 1, n); }
  }

  /** The name is the longest stretch without an equals sign or a boundary. */
  lemma {:induction false} NameEndIs(line: string, i: nat, n: nat)
    requires i <= n <= |line|
    ensures NameEnd(line, i) == n <==>
      (forall k :: i <= k < n ==> NameByte(line[k])) && (n < |line| ==> !NameByte(line[n]))
    decreases n - i
  {
    if i < n { NameEndIs(line, i + 1, n); }
  }

  /** Where a quoted text ends depends on that text alone. */
  lemma {:induction false} SameClose(line: string, i: nat, other: string, j: nat, text: string, quote: char,
                                     nested: bool)
    requires text != "" && At(line, i, text) && At(other, j, text)
    requires CloseAt(line, i, quote, nested) == Some(i + |text| - 1)
    ensures CloseAt(other, j, quote, nested) == Some(j + |text| - 1)
    decreases |text|
  {
    assert line[i + 0] == text[0] == other[j + 0];
    if |text| > 1 {
      assert text == [text[0]] + text[1..];
      AtConcat(line, i, [text[0]], text[1..]);
      AtConcat(other, j, [text[0]], text[1..]);
      SameClose(line, i + 1, other, j + 1, text[1..], quote, Inside(quote, line[i], nested));
    }
  }

  /** A double quote ends at the next one. */
  lemma {:induction false} PlainCloseIs(line: string, i: nat, n: nat)
    requires i <= n < |line|
    ensures CloseAt(line, i, '"', false) == Some(n) <==> line[n] == '"' && forall k :: i <= k < n ==> line[k] != '"'
    decreases n - i
  {
    if i < n { PlainCloseIs(line, i + 1, n); }
  }

  /** The quote chosen for a value closes right behind it. */
  lemma QuotedCloses(line: string, i: nat, value: string)
    requires Quotable(value) && At(line, i, value) && At(line, i + |value|, [QuoteFor(value)])
    ensures i + |value| < |line| && line[i + |value|] == QuoteFor(value)
    ensures CloseAt(line, i, QuoteFor(value), false) == Some(i + |value|)
  {
    var quote, n := QuoteFor(value), i + |value|;
    assert line[n + 0] == [quote][0];
    if quote == '"' {
      forall k | i <= k < n ensures line[k] != '"' { assert line[i + (k - i)] == value[k - i]; }
      PlainCloseIs(line, i, n);
    } else {
      AtJoin(line, i, value, "'");
      SameClose(value + "'", 0, line, i, value + "'", quote, false);
    }
  }

  lemma QuotedScans(line: string, key: string, i: nat, value: string, interpreted: bool)
    requires Quotable(value) && At(line, i, [QuoteFor(value)] + value + [QuoteFor(value)])
    requires BoundedAt(line, i + |value| + 2)
    ensures ScanValue(line, key, i, interpreted) == Got(Field(key, value, true, interpreted), i + |value| + 2)
  {
    var quote := QuoteFor(value);
    AtConcat(line, i, [quote] + value, [quote]);
    AtConcat(line, i, [quote], value);
    assert line[i + 0] == [quote][0];
    QuotedCloses(line, i + 1, value);
    AtText(line, i + 1, value);
  }

  lemma BareScans(line: string, key: string, i: nat, value: string, interpreted: bool)
    requires Bare(value) && At(line, i, value) && BoundedAt(line, i + |value|)
    ensures ScanValue(line, key, i, interpreted) == Got(Field(key, value, false, interpreted), i + |value|)
  {
    forall k | i <= k < i + |value| ensures !Boundary(line[k]) { assert line[i + (k - i)] == value[k - i]; }
    WordEndIs(line, i, i + |value|);
    AtText(line, i, value);
    if value != "" { assert line[i + 0] == value[0]; }
  }

  lemma ValueScans(line: string, i: nat, f: Field)
    requires WritableField(f) && At(line, i, WriteValue(f)) && BoundedAt(line, i + |WriteValue(f)|)
    ensures ScanValue(line, f.key, i, f.interpreted) == Got(f, i + |WriteValue(f)|)
  {
    if f.quoted {
      QuotedScans(line, f.key, i, f.value, f.interpreted);
    } else {
      BareScans(line, f.key, i, f.value, f.interpreted);
    }
  }

  lemma NameScans(line: string, i: nat, key: string)
    requires Name(key) && At(line, i, key) && At(line, i + |key|, "=")
    ensures NameEnd(line, i) == i + |key| && line[i..i + |key|] == key && line[i + |key|] == '='
  {
    assert line[i + |key| + 0] == "="[0];
    forall k | i <= k < i + |key| ensures NameByte(line[k]) { assert line[i + (k - i)] == key[k - i]; }
    NameEndIs(line, i, i + |key|);
    AtText(line, i, key);
  }

  /** Where the parts of a written field stand. */
  lemma FieldParts(line: string, i: nat, f: Field, interpreted: bool)
    requires Name(f.key) && At(line, i, WriteField(f, interpreted))
    ensures line[i] == Separation(f, interpreted) && At(line, i + 1, f.key)
    ensures At(line, i + 1 + |f.key|, "=") && At(line, i + 2 + |f.key|, WriteValue(f))
    ensures NameByte(line[i + 1])
  {
    var lead := [Separation(f, interpreted)];
    AtConcat(line, i, lead + f.key + "=", WriteValue(f));
    AtConcat(line, i, lead + f.key, "=");
    AtConcat(line, i, lead, f.key);
    assert line[i + 0] == lead[0] && line[i + 1 + 0] == f.key[0];
  }

  /** The separation in front of a written field. */
  lemma FieldLeads(line: string, i: nat, f: Field, interpreted: bool)
    requires WritableField(f) && (interpreted ==> f.interpreted)
    requires At(line, i, WriteField(f, interpreted))
    ensures Skip(line, i) == i + 1 && Flag(line, i, interpreted) == f.interpreted
  {
    FieldParts(line, i, f, interpreted);
  }

  lemma FieldScans(line: string, i: nat, f: Field, interpreted: bool)
    requires WritableField(f)
    requires At(line, i, WriteField(f, interpreted)) && BoundedAt(line, i + |WriteField(f, interpreted)|)
    ensures ScanField(line, i + 1, f.interpreted) == Got(f, i + |WriteField(f, interpreted)|)
  {
    FieldParts(line, i, f, interpreted);
    NameScans(line, i + 1, f.key);
    ValueScans(line, i + 2 + |f.key|, f);
    ScanByParts(line, i + 1, f);
  }

  lemma ScanByParts(line: string, i: nat, f: Field)
    requires f.key != "" && i + |f.key| < |line|
    requires NameEnd(line, i) == i + |f.key| && line[i..i + |f.key|] == f.key && line[i + |f.key|] == '='
    ensures ScanField(line, i, f.interpreted) == ScanValue(line, f.key, i + |f.key| + 1, f.interpreted)
  {
  }

  lemma WriteStarts(fields: seq<Field>, interpreted: bool)
    ensures fields != [] ==> |Write(fields, interpreted)| > 0 && Boundary(Write(fields, interpreted)[0])
  {
  }

  /** One field of the line, and the rest from where it ends. */
  lemma ParseStep(line: string, i: nat, f: Field, next: nat, interpreted: bool)
    requires i < next <= |line| && Skip(line, i) < |line|
    requires ScanField(line, Skip(line, i), Flag(line, i, interpreted)) == Got(f, next)
    ensures ParseFrom(line, i, interpreted) == Then(f, ParseFrom(line, next, f.interpreted))
  {
  }

  lemma WrittenStep(line: string, i: nat, f: Field, next: nat, interpreted: bool)
    requires WritableField(f) && (interpreted ==> f.interpreted)
    requires At(line, i, WriteField(f, interpreted)) && next == i + |WriteField(f, interpreted)| &&
      BoundedAt(line, next)
    ensures i < next && ParseFrom(line, i, interpreted) == Then(f, ParseFrom(line, next, f.interpreted))
  {
    FieldLeads(line, i, f, interpreted);
    FieldScans(line, i, f, interpreted);
    ParseStep(line, i, f, next, interpreted);
  }

  /** Where the first field and the rest of a written list stand. */
  lemma FirstStands(line: string, i: nat, head: string, after: string) returns (next: nat)
    requires At(line, i, head + after) && i + |head + after| == |line| && (after != "" ==> Boundary(after[0]))
    ensures next == i + |head| && At(line, i, head) && At(line, next, after)
    ensures next + |after| == |line| && BoundedAt(line, next)
  {
    next := i + |head|;
    AtConcat(line, i, head, after);
    if after != "" { assert line[next + 0] == after[0]; }
  }

  /** The first field is read and the rest stands where it ends. */
  lemma FirstWritten(line: string, i: nat, fields: seq<Field>, interpreted: bool) returns (next: nat)
    requires fields != [] && Writable(fields, interpreted)
    requires At(line, i, Write(fields, interpreted)) && i + |Write(fields, interpreted)| == |line|
    ensures next <= |line| && At(line, next, Write(fields[1..], fields[0].interpreted))
    ensures next + |Write(fields[1..], fields[0].interpreted)| == |line|
    ensures ParseFrom(line, i, interpreted) == Then(fields[0], ParseFrom(line, next, fields[0].interpreted))
  {
    WriteStarts(fields[1..], fields[0].interpreted);
    next := FirstStands(line, i, WriteField(fields[0], interpreted), Write(fields[1..], fields[0].interpreted));
    WrittenStep(line, i, fields[0], next, interpreted);
  }

  /** The theorem: every list of fields that can be written is read back unchanged. */
  lemma {:induction false} WrittenFieldsParse(line: string, i: nat, fields: seq<Field>, interpreted: bool)
    requires Writable(fields, interpreted)
    requires At(line, i, Write(fields, interpreted)) && i + |Write(fields, interpreted)| == |line|
    ensures ParseFrom(line, i, interpreted) == Fields(fields)
    decreases |fields|
  {
    if fields == [] {
      NothingParses(line, i, interpreted);
    } else {
      var next := FirstWritten(line, i, fields, interpreted);
      WrittenFieldsParse(line, next, fields[1..], fields[0].interpreted);
      ThenIs(fields);
    }
  }

  lemma NothingParses(line: string, i: nat, interpreted: bool)
    requires i == |line|
    ensures ParseFrom(line, i, interpreted) == Fields([])
  {
  }

  lemma ThenIs(fields: seq<Field>)
    requires fields != []
    ensures Then(fields[0], Fields(fields[1..])) == Fields(fields)
  {
    assert fields == [fields[0]] + fields[1..];
  }

  // ---------- whatever was parsed can be written ----------

  lemma ScannedIsWritable(line: string, i: nat, interpreted: bool)
    requires i < |line| && ScanField(line, i, interpreted).Got?
    ensures WritableField(ScanField(line, i, interpreted).field)
  {
    var n := NameEnd(line, i);
    NameEndIs(line, i, n);
    forall k | 0 <= k < n - i ensures NameByte(line[i..n][k]) { assert line[i..n][k] == line[i + k]; }
    ValueIsWritable(line, line[i..n], n + 1, interpreted);
  }

  lemma ValueIsWritable(line: string, key: string, i: nat, interpreted: bool)
    requires i <= |line| && ScanValue(line, key, i, interpreted).Got?
    ensures var f := ScanValue(line, key, i, interpreted).field; if f.quoted then Quotable(f.value) else Bare(f.value)
  {
    if i < |line| && Quote(line[i]) {
      var c := CloseAt(line, i + 1, line[i], false).value;
      QuotedIsQuotable(line, i + 1, c, line[i]);
    } else {
      WordEndIs(line, i, WordEnd(line, i));
    }
  }

  lemma QuotedIsQuotable(line: string, i: nat, c: nat, quote: char)
    requires i <= c < |line| && Quote(quote) && CloseAt(line, i, quote, false) == Some(c)
    ensures Quotable(line[i..c])
  {
    var value := line[i..c];
    if quote == '"' {
      PlainCloseIs(line, i, c);
    } else {
      CloseIsQuote(line, i, quote, false);
      AtJoin(line, i, value, "'");
      SameClose(line, i, value + "'", 0, value + "'", quote, false);
    }
  }

  lemma {:induction false} CloseIsQuote(line: string, i: nat, quote: char, nested: bool)
    requires i <= |line| && CloseAt(line, i, quote, nested).Some?
    ensures line[CloseAt(line, i, quote, nested).value] == quote
    decreases |line| - i
  {
    var inside := Inside(quote, line[i], nested);
    if line[i] != quote || inside { CloseIsQuote(line, i + 1, quote, inside); }
  }

  lemma {:induction false} FlagIsKept(line: string, i: nat, interpreted: bool)
    requires i <= |line| && interpreted
    ensures Flag(line, i, interpreted)
    decreases |line| - i
  {
    if i < |line| && Boundary(line[i]) { FlagIsKept(line, i + 1, true); }
  }

  lemma {:induction false} ParsedIsWritable(line: string, i: nat, interpreted: bool)
    requires i <= |line| && ParseFrom(line, i, interpreted).Fields?
    ensures Writable(ParseFrom(line, i, interpreted).all, interpreted)
    decreases |line| - i
  {
    var n, now := Skip(line, i), Flag(line, i, interpreted);
    if n < |line| {
      var scan := ScanField(line, n, now);
      ScannedIsWritable(line, n, now);
      if interpreted { FlagIsKept(line, i, interpreted); }
      ParsedIsWritable(line, scan.next, now);
      FirstThenRest(scan.field, ParseFrom(line, scan.next, now).all, interpreted);
    }
  }

  lemma FirstThenRest(f: Field, rest: seq<Field>, interpreted: bool)
    requires WritableField(f) && (interpreted ==> f.interpreted) && Writable(rest, f.interpreted)
    ensures Writable([f] + rest, interpreted)
  {
    assert ([f] + rest)[1..] == rest;
  }

  lemma WrittenLineParses(fields: seq<Field>)
    requires Writable(fields, false)
    ensures Parse(Write(fields, false)) == Fields(fields)
  {
    WrittenFieldsParse(Write(fields, false), 0, fields, false);
  }

  lemma UnledParts(line: string, f: Field)
    requires Name(f.key) && At(line, 0, f.key + "=" + WriteValue(f))
    ensures At(line, 0, f.key) && At(line, |f.key|, "=") && At(line, |f.key| + 1, WriteValue(f))
    ensures NameByte(line[0]) && Skip(line, 0) == 0 && !Flag(line, 0, false)
  {
    AtConcat(line, 0, f.key + "=", WriteValue(f));
    AtConcat(line, 0, f.key, "=");
    assert NameByte(f.key[0]) && line[0 + 0] == f.key[0];
  }

  /** A field that starts the line has no separator in front. */
  lemma UnledFieldParses(line: string, f: Field, next: nat)
    requires WritableField(f) && !f.interpreted
    requires At(line, 0, f.key + "=" + WriteValue(f)) && next == |f.key| + 1 + |WriteValue(f)| && BoundedAt(line, next)
    ensures 0 < next <= |line| && Parse(line) == Then(f, ParseFrom(line, next, false))
  {
    UnledParts(line, f);
    NameScans(line, 0, f.key);
    ValueScans(line, |f.key| + 1, f);
    ScanByParts(line, 0, f);
    ParseStep(line, 0, f, next, false);
  }

  lemma UnledShape(f: Field, rest: seq<Field>)
    requires !f.interpreted
    ensures Write([f] + rest, false) != ""
    ensures Write([f] + rest, false)[1..] == (f.key + "=" + WriteValue(f)) + Write(rest, false)
  {
    assert ([f] + rest)[1..] == rest;
    assert WriteField(f, false) == [' '] + (f.key + "=" + WriteValue(f));
  }

  lemma UnledStep(line: string, f: Field, rest: seq<Field>)
    requires WritableField(f) && !f.interpreted && Writable(rest, false)
    requires line == (f.key + "=" + WriteValue(f)) + Write(rest, false)
    ensures Parse(line) == Fields([f] + rest)
  {
    WriteStarts(rest, false);
    var next := FirstStands(line, 0, f.key + "=" + WriteValue(f), Write(rest, false));
    UnledFieldParses(line, f, next);
    WrittenFieldsParse(line, next, rest, false);
  }

  lemma UnledLineParses(fields: seq<Field>)
    requires fields != [] && Writable(fields, false) && !fields[0].interpreted
    ensures Parse(Write(fields, false)[1..]) == Fields(fields)
  {
    assert fields == [fields[0]] + fields[1..];
    UnledShape(fields[0], fields[1..]);
    UnledStep(Write(fields, false)[1..], fields[0], fields[1..]);
  }

  lemma ParsedLineIsWritable(line: string)
    requires Parse(line).Fields?
    ensures Writable(Parse(line).all, false)
  {
    ParsedIsWritable(line, 0, false);
  }

  /** The theorem: the parser's results are exactly the field lists that can be
      written, and writing a result and parsing it again changes nothing. */
  lemma ParserImage(fields: seq<Field>)
    ensures Writable(fields, false) <==> exists line :: Parse(line) == Fields(fields)
    ensures Writable(fields, false) ==> Parse(Write(fields, false)) == Fields(fields)
  {
    if Writable(fields, false) { WrittenLineParses(fields); }
    forall line | Parse(line) == Fields(fields) ensures Writable(fields, false) { ParsedLineIsWritable(line); }
  }

  // ---------- what is wrong with a line ----------

  /** A word starts here. */
  predicate WordStarts(line: string, at: nat) {
    at < |line| && !Boundary(line[at]) && (at == 0 || Boundary(line[at - 1]))
  }

  /** The field `key` starts at a word and has a quoted value. */
  ghost predicate QuotedField(line: string, at: nat, key: string) {
    && WordStarts(line, at) && Name(key) && At(line, at, key + "=")
    && at + |key| + 1 < |line| && Quote(line[at + |key| + 1])
  }

  /** Where the quoted value of that field closes. */
  function Closing(line: string, at: nat, key: string): Option<nat>
    requires at + |key| + 1 < |line|
  {
    CloseAt(line, at + |key| + 2, line[at + |key| + 1], false)
  }

  /** What an error says is there in the line. */
  ghost predicate Explains(line: string, error: FieldError) {
    match error
    case EmptyName(at) => 0 <= at && WordStarts(line, at) && line[at] == '='
    case Malformed(text, at) =>
      && WordStarts(line, at) && At(line, at, text) && text != ""
      && (forall k :: 0 <= k < |text| ==> !Boundary(text[k])) && BoundedAt(line, at + |text|)
      && (forall k :: 0 <= k < |text| ==> text[k] != '=')
    case Unterminated(key) => exists at: nat :: QuotedField(line, at, key) && Closing(line, at, key) == None
    case NoBoundary(key) =>
      exists at: nat :: QuotedField(line, at, key) && Closing(line, at, key).Some? &&
        !BoundedAt(line, Closing(line, at, key).value + 1)
  }

  lemma SkipFindsWord(line: string, i: nat)
    requires i <= |line| && (i == 0 || BoundedAt(line, i)) && Skip(line, i) < |line|
    ensures WordStarts(line, Skip(line, i))
    decreases |line| - i
  {
    if Boundary(line[i]) && i + 1 < |line| && Boundary(line[i + 1]) {
      SkipFindsWord(line, i + 1);
    }
  }

  lemma NameStands(line: string, at: nat)
    requires at < |line|
    ensures var n := NameEnd(line, at);
            && At(line, at, line[at..n]) && (n > at ==> Name(line[at..n]))
            && (n < |line| && line[n] == '=' ==> At(line, at, line[at..n] + "="))
  {
    NameEndIs(line, at, NameEnd(line, at));
  }

  lemma WordStands(line: string, at: nat)
    requires at < |line|
    ensures var w := WordEnd(line, at);
            && At(line, at, line[at..w]) && BoundedAt(line, w) && (forall k :: at <= k < w ==> !Boundary(line[k]))
  {
    WordEndIs(line, at, WordEnd(line, at));
  }

  /** A word without a name or without `=`. */
  lemma UnnamedIsExplained(line: string, at: nat)
    requires WordStarts(line, at)
    requires var n := NameEnd(line, at); n == at || n == |line| || line[n] != '='
    ensures var n := NameEnd(line, at);
            Explains(line, if n == at then EmptyName(at) else Malformed(line[at..WordEnd(line, at)], at))
  {
    var n, w := NameEnd(line, at), WordEnd(line, at);
    NameEndIs(line, at, n);
    WordStands(line, at);
    if n > at {
      assert n == w;
      forall k | 0 <= k < w - at ensures line[at..w][k] != '=' && !Boundary(line[at..w][k]) {
        assert NameByte(line[at + k]);
      }
    }
  }

  lemma QuotedIsExplained(line: string, at: nat, interpreted: bool)
    requires WordStarts(line, at)
    requires var n := NameEnd(line, at); n > at && n < |line| && line[n] == '='
    requires ScanValue(line, line[at..NameEnd(line, at)], NameEnd(line, at) + 1, interpreted).Broken?
    ensures Explains(line, ScanValue(line, line[at..NameEnd(line, at)], NameEnd(line, at) + 1, interpreted).error)
  {
    NameStands(line, at);
    ValueIsExplained(line, at, line[at..NameEnd(line, at)], interpreted);
  }

  lemma ValueIsExplained(line: string, at: nat, key: string, interpreted: bool)
    requires WordStarts(line, at) && Name(key) && At(line, at, key + "=")
    requires ScanValue(line, key, at + |key| + 1, interpreted).Broken?
    ensures Explains(line, ScanValue(line, key, at + |key| + 1, interpreted).error)
  {
    assert QuotedField(line, at, key);
  }

  lemma BrokenIsExplained(line: string, at: nat, interpreted: bool)
    requires WordStarts(line, at) && ScanField(line, at, interpreted).Broken?
    ensures Explains(line, ScanField(line, at, interpreted).error)
  {
    var n := NameEnd(line, at);
    if n == at || n == |line| || line[n] != '=' {
      UnnamedIsExplained(line, at);
    } else {
      QuotedIsExplained(line, at, interpreted);
    }
  }

  lemma ScannedEndsAtBoundary(line: string, at: nat, interpreted: bool)
    requires at < |line| && ScanField(line, at, interpreted).Got?
    ensures BoundedAt(line, ScanField(line, at, interpreted).next)
  {
    var n := NameEnd(line, at);
    if n + 1 < |line| { WordStands(line, n + 1); }
  }

  lemma {:induction false} BadFromIsExplained(line: string, i: nat, interpreted: bool)
    requires i <= |line| && (i == 0 || BoundedAt(line, i)) && ParseFrom(line, i, interpreted).Bad?
    ensures Explains(line, ParseFrom(line, i, interpreted).error)
    decreases |line| - i
  {
    var n, flag := Skip(line, i), Flag(line, i, interpreted);
    SkipFindsWord(line, i);
    match ScanField(line, n, flag)
    case Broken(_) => BrokenIsExplained(line, n, flag);
    case Got(f, next) =>
      ScannedEndsAtBoundary(line, n, flag);
      BadFromIsExplained(line, next, f.interpreted);
  }

  /** The theorem on errors: what the parser reports is there in the line. */
  lemma ErrorIsInTheLine(line: string)
    requires Parse(line).Bad?
    ensures Explains(line, Parse(line).error)
  {
    BadFromIsExplained(line, 0, false);
  }
}
