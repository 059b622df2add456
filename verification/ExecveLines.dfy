/** From the text of EXECVE lines to the argument vector: field parsing and argument
    reconstruction together invert what the kernel writes. */
module ExecveLines {
  import opened Records
  import opened Numerals
  import opened Fields
  import opened Execve
  import opened ExecveRoundTrip

  /** The kernel writes bytes, and in quotes only text without a double quote. */
  predicate KernelPiece(p: Piece) { Bytes(p.text) && (p.Quoted? ==> '"' !in p.text) }

  predicate KernelWritten(e: Encoding) {
    match e
    case Entire(p) => KernelPiece(p)
    case Split(ps) => forall j :: 0 <= j < |ps| ==> KernelPiece(ps[j])
  }

  predicate Plain(s: string) { forall i :: 0 <= i < |s| ==> NameByte(s[i]) && !Quote(s[i]) }

  lemma PlainConcat(a: string, b: string)
    requires Plain(a) && Plain(b)
    ensures Plain(a + b)
  {
  }

  lemma PlainNumeral(n: nat)
    ensures Plain(Itoa(n))
  {
    forall i | 0 <= i < |Itoa(n)| ensures NameByte(Itoa(n)[i]) && !Quote(Itoa(n)[i]) { assert IsDigit(Itoa(n)[i]); }
  }

  lemma {:induction false} PlainHex(s: string)
    requires Bytes(s)
    ensures Plain(HexEncode(s))
  {
    if s != "" {
      PlainHex(s[1..]);
      var high, low := HexDigit(s[0] as int / 16), HexDigit(s[0] as int % 16);
      assert HexValue(high).Some? && HexValue(low).Some?;
      PlainConcat([high, low], HexEncode(s[1..]));
    }
  }

  lemma PlainKey(encs: seq<Encoding>, n: ExecveRoundTrip.Name)
    requires AllEncodable(encs) && Has(encs, n)
    ensures KeyOf(n) != "" && Plain(KeyOf(n))
  {
    match n
    case Argc =>
    case Of(s) =>
      PlainNumeral(s.arg);
      PlainConcat("a", Itoa(s.arg));
      if s.Fragment? {
        PlainNumeral(s.part);
        PlainConcat("a" + Itoa(s.arg), "[");
        PlainConcat("a" + Itoa(s.arg) + "[", Itoa(s.part));
        PlainConcat("a" + Itoa(s.arg) + "[" + Itoa(s.part), "]");
      } else if s.Length? {
        PlainConcat("a" + Itoa(s.arg), "_len");
      }
  }

  lemma PieceIsWritable(key: string, p: Piece)
    requires KernelPiece(p) && key != "" && Plain(key)
    ensures WritableField(PieceField(key, p))
  {
    if p.Hex? { PlainHex(p.text); }
  }

  /** Whatever the kernel says of an argument can stand in a line. */
  lemma EncodedFieldIsWritable(encs: seq<Encoding>, n: ExecveRoundTrip.Name)
    requires AllEncodable(encs) && Has(encs, n) && forall i :: 0 <= i < |encs| ==> KernelWritten(encs[i])
    ensures WritableField(FieldAt(encs, n)) && !FieldAt(encs, n).interpreted
  {
    PlainKey(encs, n);
    match n
    case Argc => PlainNumeral(|encs|);
    case Of(Whole(i)) => PieceIsWritable(KeyOf(n), encs[i].piece);
    case Of(Length(i)) =>
      assert Encodable(encs[i]);
      PlainNumeral(SpelledLength(encs[i].pieces));
    case Of(Fragment(i, j)) =>
      assert KernelWritten(encs[i]);
      PieceIsWritable(KeyOf(n), encs[i].pieces[j]);
  }

  /** A record, or rather the line that carries it. */
  datatype Line = Line(typ: string, text: string)

  function WriteRecord(r: ExecRecord): Line { Line(r.typ, Write(r.fields, false)) }

  function WriteAll(records: seq<ExecRecord>): (lines: seq<Line>)
    ensures |lines| == |records|
  {
    seq(|records|, i requires 0 <= i < |records| => WriteRecord(records[i]))
  }

  /** A line that does not parse is no record. */
  function ReadAll(lines: seq<Line>): seq<ExecRecord> {
    if lines == [] then []
    else
      var last, front := lines[|lines| - 1], ReadAll(lines[..|lines| - 1]);
      match Parse(last.text)
      case Bad(_) => front
      case Fields(all) => front + [ExecRecord(last.typ, all)]
  }

  predicate AllWritable(records: seq<ExecRecord>) {
    forall i :: 0 <= i < |records| ==> Writable(records[i].fields, false)
  }

  /** Each line parses to the fields of its record. */
  ghost predicate Carries(lines: seq<Line>, records: seq<ExecRecord>) {
    && |lines| == |records|
    && forall i :: 0 <= i < |lines| ==>
      lines[i].typ == records[i].typ && Parse(lines[i].text) == Fields.Fields(records[i].fields)
  }

  lemma {:induction false} CarriedIsRead(lines: seq<Line>, records: seq<ExecRecord>)
    requires Carries(lines, records)
    ensures ReadAll(lines) == records
  {
    if lines != [] {
      var n := |lines| - 1;
      CarriedIsRead(lines[..n], records[..n]);
      assert records == records[..n] + [records[n]];
    }
  }

  lemma RecordsAreReread(records: seq<ExecRecord>)
    requires AllWritable(records)
    ensures ReadAll(WriteAll(records)) == records
  {
    forall i | 0 <= i < |records| ensures Parse(WriteAll(records)[i].text) == Fields.Fields(records[i].fields) {
      WrittenLineParses(records[i].fields);
    }
    CarriedIsRead(WriteAll(records), records);
  }

  /** A list of fields none of which is an interpretation can stand in one line. */
  lemma {:induction false} FieldsAreWritable(fields: seq<Field>)
    requires forall f :: f in fields ==> WritableField(f) && !f.interpreted
    ensures Writable(fields, false)
  {
    if fields != [] { FieldsAreWritable(fields[1..]); }
  }

  /** The theorem: lines that spell an argument vector, in whatever order and however
      spread, are parsed and reconstructed to that vector. */
  lemma LinesInvertEncoding(encs: seq<Encoding>, records: seq<ExecRecord>)
    requires AllEncodable(encs) && forall i :: 0 <= i < |encs| ==> KernelWritten(encs[i])
    requires Spells(FieldsOf(records), encs)
    requires forall r :: r in records ==>
      forall f :: f in r.fields ==>
        !f.interpreted && (WritableField(f) || (exists n :: Has(encs, n) && f == FieldAt(encs, n)))
    ensures Reconstructed(AbsorbAll(FieldsOf(ReadAll(WriteAll(records))))) == Some(Texts(encs))
  {
    forall i | 0 <= i < |records| ensures Writable(records[i].fields, false) {
      var r := records[i];
      forall f | f in r.fields ensures WritableField(f) && !f.interpreted {
        if n :| Has(encs, n) && f == FieldAt(encs, n) { EncodedFieldIsWritable(encs, n); }
      }
      FieldsAreWritable(r.fields);
    }
    RecordsAreReread(records);
    ReconstructionInvertsEncoding(encs, records);
  }
}
