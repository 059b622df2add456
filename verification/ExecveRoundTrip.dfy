/** EXECVE reconstruction inverts the kernel's encoding, whatever the mix of quoted,
    hexadecimal and split arguments and however their fields are ordered, repeated
    and spread over records. */
module ExecveRoundTrip {
  import opened Records
  import opened Numerals
  import opened Execve

  // ---------- the encoding ----------

  /** A stretch of bytes, written literally in quotes or as hex digits. */
  datatype Piece = Quoted(text: string) | Hex(text: string)

  datatype Encoding = Entire(piece: Piece) | Split(pieces: seq<Piece>)

  function Spelled(p: Piece): string
    requires Bytes(p.text)
  {
    if p.Quoted? then p.text else HexEncode(p.text)
  }

  predicate Spellable(pieces: seq<Piece>) { forall i :: 0 <= i < |pieces| ==> Bytes(pieces[i].text) }

  function TextOf(pieces: seq<Piece>): string {
    if pieces == [] then "" else TextOf(pieces[..|pieces| - 1]) + pieces[|pieces| - 1].text
  }

  /** What `aN_len` counts: the characters written, without quotes. */
  function SpelledLength(pieces: seq<Piece>): nat
    requires Spellable(pieces)
  {
    if pieces == [] then 0 else SpelledLength(pieces[..|pieces| - 1]) + |Spelled(pieces[|pieces| - 1])|
  }

  function Argument(e: Encoding): string {
    if e.Entire? then e.piece.text else TextOf(e.pieces)
  }

  predicate Encodable(e: Encoding) {
    && ValidUtf8(Argument(e))
    && (e.Entire? ==> Bytes(e.piece.text))
    && (e.Split? ==> 0 < |e.pieces| <= MAX_INT && Spellable(e.pieces) && SpelledLength(e.pieces) <= MAX_INT)
  }

  /** Numbers fit the decoder's integers. */
  predicate AllEncodable(encs: seq<Encoding>) {
    |encs| <= MAX_INT && forall i :: 0 <= i < |encs| ==> Encodable(encs[i])
  }

  /** The name of a field: the count, or a slot of an argument. */
  datatype Name = Argc | Of(slot: Slot)

  predicate Has(encs: seq<Encoding>, n: Name) {
    match n
    case Argc => true
    case Of(Whole(i)) => i < |encs| && encs[i].Entire?
    case Of(Length(i)) => i < |encs| && encs[i].Split?
    case Of(Fragment(i, j)) => i < |encs| && encs[i].Split? && 0 <= j < |encs[i].pieces|
  }

  function KeyOf(n: Name): string
    requires n.Of? && n.slot.Fragment? ==> n.slot.part >= 0
  {
    match n
    case Argc => "argc"
    case Of(Whole(i)) => "a" + Itoa(i)
    case Of(Length(i)) => "a" + Itoa(i) + "_len"
    case Of(Fragment(i, j)) => "a" + Itoa(i) + "[" + Itoa(j) + "]"
  }

  function PieceField(key: string, p: Piece): Field
    requires Bytes(p.text)
  {
    Field(key, Spelled(p), p.Quoted?, false)
  }

  /** The field the kernel writes under a name. */
  function FieldAt(encs: seq<Encoding>, n: Name): Field
    requires AllEncodable(encs) && Has(encs, n)
  {
    match n
    case Argc => Field(KeyOf(n), Itoa(|encs|), false, false)
    case Of(Whole(i)) => PieceField(KeyOf(n), encs[i].piece)
    case Of(Length(i)) => Field(KeyOf(n), Itoa(SpelledLength(encs[i].pieces)), false, false)
    case Of(Fragment(i, j)) => PieceField(KeyOf(n), encs[i].pieces[j])
  }

  /** The fields say exactly what the kernel wrote: every field of the encoding is
      there, and every argument field belongs to it. */
  ghost predicate Spells(fields: seq<Field>, encs: seq<Encoding>)
    requires AllEncodable(encs)
  {
    && (forall n :: Has(encs, n) ==> FieldAt(encs, n) in fields)
    && (forall f :: f in fields && Relevant(f) ==> exists n :: Has(encs, n) && f == FieldAt(encs, n))
  }

  // ---------- names can be read back ----------

  /** The part of a name that follows the argument index. */
  function Suffix(s: Slot): string
    requires s.Fragment? ==> s.part >= 0
  {
    match s
    case Whole(_) => ""
    case Length(_) => "_len"
    case Fragment(_, j) => "[" + Itoa(j) + "]"
  }

  lemma KeyShape(s: Slot)
    requires s.arg <= MAX_INT && (s.Fragment? ==> s.part >= 0)
    ensures var key, digits := KeyOf(Of(s)), Itoa(s.arg);
            && key == "a" + digits + Suffix(s) && |key| >= 2 && key[0] == 'a' && IsDigit(key[1])
            && DigitsEnd(key, 1) == 1 + |digits| && key[1..1 + |digits|] == digits && key[1 + |digits|..] == Suffix(s)
  {
    var key, digits := KeyOf(Of(s)), Itoa(s.arg);
    assert key == "a" + digits + Suffix(s);
    assert key[1..1 + |digits|] == digits;
    assert key[1] == digits[0];
    DigitsEndIs(key, 1, 1 + |digits|);
  }

  lemma KeyParses(s: Slot)
    requires s.arg <= MAX_INT && (s.Fragment? ==> 0 <= s.part <= MAX_INT)
    ensures SlotOf(KeyOf(Of(s))) == Some(s)
  {
    var key, digits := KeyOf(Of(s)), Itoa(s.arg);
    KeyShape(s);
    AtoiOfItoa(s.arg);
    if s.Fragment? {
      AtoiOfItoa(s.part);
      assert key[1 + |digits|..][0] == '[';
      assert key[|key| - 1] == Suffix(s)[|Suffix(s)| - 1];
      assert key[2 + |digits|..|key| - 1] == Itoa(s.part) by {
        assert key == "a" + digits + ("[" + Itoa(s.part) + "]");
      }
    }
  }

  /** The slot a well-formed name denotes. */
  lemma FieldNames(encs: seq<Encoding>, n: Name)
    requires AllEncodable(encs) && Has(encs, n)
    ensures Relevant(FieldAt(encs, n))
    ensures n.Argc? <==> FieldAt(encs, n).key == "argc"
    ensures n.Of? ==> SlotOf(FieldAt(encs, n).key) == Some(n.slot)
  {
    if n.Of? {
      assert Encodable(encs[n.slot.arg]);
      KeyParses(n.slot);
      KeyShape(n.slot);
    }
  }

  lemma FieldsAreDistinct(encs: seq<Encoding>, m: Name, n: Name)
    requires AllEncodable(encs) && Has(encs, m) && Has(encs, n) && FieldAt(encs, m) == FieldAt(encs, n)
    ensures m == n
  {
    FieldNames(encs, m);
    FieldNames(encs, n);
  }

  // ---------- collecting the fields of an encoding ----------

  ghost predicate Stores(encs: seq<Encoding>, t: Table, n: Name)
    requires AllEncodable(encs) && Has(encs, n)
  {
    match n
    case Argc => t.argc == |encs|
    case Of(Whole(i)) => Execve.Argument(t, i).whole == Some(FieldAt(encs, n))
    case Of(Length(i)) => Execve.Argument(t, i).length == Some(SpelledLength(encs[i].pieces))
    case Of(Fragment(i, j)) =>
      j in Execve.Argument(t, i).fragments && Execve.Argument(t, i).fragments[j] == FieldAt(encs, n)
  }

  ghost predicate Lacks(t: Table, n: Name) {
    match n
    case Argc => t.argc == -1
    case Of(Whole(i)) => Execve.Argument(t, i).whole.None?
    case Of(Length(i)) => Execve.Argument(t, i).length.None?
    case Of(Fragment(i, j)) => j < 0 || j !in Execve.Argument(t, i).fragments
  }

  ghost predicate Seen(encs: seq<Encoding>, fields: seq<Field>, n: Name)
    requires AllEncodable(encs)
  {
    Has(encs, n) && FieldAt(encs, n) in fields
  }

  /** What the table holds of one name after `fields`. */
  ghost predicate Tracks(encs: seq<Encoding>, fields: seq<Field>, t: Table, n: Name)
    requires AllEncodable(encs)
  {
    if Seen(encs, fields, n) then Stores(encs, t, n) else Lacks(t, n)
  }

  /** An argument is in the table only because one of its fields was seen. */
  ghost predicate Justified(encs: seq<Encoding>, fields: seq<Field>, i: nat)
    requires AllEncodable(encs)
  {
    exists n :: Seen(encs, fields, n) && n.Of? && n.slot.arg == i
  }

  ghost predicate Reflects(encs: seq<Encoding>, fields: seq<Field>, t: Table)
    requires AllEncodable(encs)
  {
    && t.valid
    && (forall n :: Tracks(encs, fields, t, n))
    && (forall i :: i in t.args <==> Justified(encs, fields, i))
  }

  /** Fields seen after one more field of the encoding. */
  lemma SeenNext(encs: seq<Encoding>, fields: seq<Field>, m: Name, n: Name)
    requires AllEncodable(encs) && Has(encs, m)
    ensures Seen(encs, fields + [FieldAt(encs, m)], n) <==> Seen(encs, fields, n) || n == m
  {
    if Has(encs, n) && FieldAt(encs, n) == FieldAt(encs, m) {
      FieldsAreDistinct(encs, m, n);
    }
  }

  /** The numerals of an encoding read back as themselves. */
  lemma AbsorbNumbers(encs: seq<Encoding>, m: Name)
    requires AllEncodable(encs) && Has(encs, m)
    ensures m.Argc? ==> Atoi(FieldAt(encs, m).value) == Some(|encs|)
    ensures m.Of? && m.slot.Length? ==> Atoi(FieldAt(encs, m).value) == Some(SpelledLength(encs[m.slot.arg].pieces))
  {
    if m.Argc? {
      AtoiOfItoa(|encs|);
    } else if m.slot.Length? {
      assert Encodable(encs[m.slot.arg]);
      AtoiOfItoa(SpelledLength(encs[m.slot.arg].pieces));
    }
  }

  /** The table with one name filled in. */
  ghost function Put(encs: seq<Encoding>, t: Table, m: Name): Table
    requires AllEncodable(encs) && Has(encs, m)
  {
    match m
    case Argc => t.(argc := |encs|)
    case Of(Whole(i)) => t.(args := t.args[i := Execve.Argument(t, i).(whole := Some(FieldAt(encs, m)))])
    case Of(Length(i)) => t.(args := t.args[i := Execve.Argument(t, i).(length := Some(SpelledLength(encs[i].pieces)))])
    case Of(Fragment(i, j)) =>
      var a := Execve.Argument(t, i);
      t.(args := t.args[i := a.(fragments := a.fragments[j := FieldAt(encs, m)])])
  }

  /** A field of the encoding never contradicts what the encoding put there before. */
  lemma AbsorbIsPut(encs: seq<Encoding>, t: Table, m: Name)
    requires AllEncodable(encs) && Has(encs, m) && t.valid
    requires Stores(encs, t, m) || Lacks(t, m)
    ensures Absorb(t, FieldAt(encs, m)) == Put(encs, t, m)
  {
    FieldNames(encs, m);
    AbsorbNumbers(encs, m);
  }

  lemma PutArgument(encs: seq<Encoding>, t: Table, m: Name, i: nat)
    requires AllEncodable(encs) && Has(encs, m)
    ensures m.Argc? || m.slot.arg != i ==> Execve.Argument(Put(encs, t, m), i) == Execve.Argument(t, i)
    ensures Put(encs, t, m).args.Keys == t.args.Keys + if m.Argc? then {} else {m.slot.arg}
  {
  }

  lemma PutStoresOwn(encs: seq<Encoding>, t: Table, m: Name)
    requires AllEncodable(encs) && Has(encs, m)
    ensures Stores(encs, Put(encs, t, m), m)
  {
  }

  lemma PutKeepsStored(encs: seq<Encoding>, t: Table, m: Name, n: Name)
    requires AllEncodable(encs) && Has(encs, m) && Has(encs, n)
    requires n != m && Stores(encs, t, n)
    ensures Stores(encs, Put(encs, t, m), n)
  {
    if n.Of? { PutArgument(encs, t, m, n.slot.arg); }
  }

  lemma PutKeepsLack(encs: seq<Encoding>, t: Table, m: Name, n: Name)
    requires AllEncodable(encs) && Has(encs, m) && n != m && Lacks(t, n)
    ensures Lacks(Put(encs, t, m), n)
  {
    if n.Of? { PutArgument(encs, t, m, n.slot.arg); }
  }

  lemma PutStores(encs: seq<Encoding>, t: Table, m: Name, n: Name)
    requires AllEncodable(encs) && Has(encs, m)
    ensures n == m ==> Stores(encs, Put(encs, t, m), n)
    ensures n != m && Has(encs, n) && Stores(encs, t, n) ==> Stores(encs, Put(encs, t, m), n)
    ensures n != m && Lacks(t, n) ==> Lacks(Put(encs, t, m), n)
  {
    if n == m {
      PutStoresOwn(encs, t, m);
    } else {
      if Has(encs, n) && Stores(encs, t, n) { PutKeepsStored(encs, t, m, n); }
      if Lacks(t, n) { PutKeepsLack(encs, t, m, n); }
    }
  }

  lemma AbsorbReflects(encs: seq<Encoding>, fields: seq<Field>, t: Table, m: Name)
    requires AllEncodable(encs) && Has(encs, m) && Reflects(encs, fields, t)
    ensures Reflects(encs, fields + [FieldAt(encs, m)], Absorb(t, FieldAt(encs, m)))
  {
    var more, u := fields + [FieldAt(encs, m)], Put(encs, t, m);
    assert Tracks(encs, fields, t, m);
    AbsorbIsPut(encs, t, m);
    forall n ensures Tracks(encs, more, u, n) {
      assert Tracks(encs, fields, t, n);
      SeenNext(encs, fields, m, n);
      PutStores(encs, t, m, n);
    }
    forall i ensures i in u.args <==> Justified(encs, more, i) {
      PutArgument(encs, t, m, i);
      JustifiedNext(encs, fields, m, i);
    }
  }

  lemma JustifiedNext(encs: seq<Encoding>, fields: seq<Field>, m: Name, i: nat)
    requires AllEncodable(encs) && Has(encs, m)
    ensures Justified(encs, fields + [FieldAt(encs, m)], i) <==>
      Justified(encs, fields, i) || (m.Of? && m.slot.arg == i)
  {
    var more := fields + [FieldAt(encs, m)];
    SeenNext(encs, fields, m, m);
    if Justified(encs, fields, i) {
      var n :| Seen(encs, fields, n) && n.Of? && n.slot.arg == i;
      SeenNext(encs, fields, m, n);
    }
    if Justified(encs, more, i) {
      var n :| Seen(encs, more, n) && n.Of? && n.slot.arg == i;
      SeenNext(encs, fields, m, n);
    }
  }

  /** Fields that are not about arguments change nothing. */
  lemma IrrelevantReflects(encs: seq<Encoding>, fields: seq<Field>, t: Table, f: Field)
    requires AllEncodable(encs) && Reflects(encs, fields, t) && !Relevant(f)
    ensures Reflects(encs, fields + [f], Absorb(t, f))
  {
    forall n ensures Seen(encs, fields + [f], n) <==> Seen(encs, fields, n) {
      if Has(encs, n) { FieldNames(encs, n); }
    }
    forall n ensures Tracks(encs, fields + [f], t, n) { assert Tracks(encs, fields, t, n); }
    forall i ensures Justified(encs, fields + [f], i) <==> Justified(encs, fields, i) {
    }
  }

  lemma {:induction false} AbsorbAllReflects(encs: seq<Encoding>, fields: seq<Field>)
    requires AllEncodable(encs)
    requires forall f :: f in fields && Relevant(f) ==> exists n :: Has(encs, n) && f == FieldAt(encs, n)
    ensures Reflects(encs, fields, AbsorbAll(fields))
  {
    if fields != [] {
      var front, f := fields[..|fields| - 1], fields[|fields| - 1];
      assert fields == front + [f];
      AbsorbAllReflects(encs, front);
      if Relevant(f) {
        assert f in fields;
        var n :| Has(encs, n) && f == FieldAt(encs, n);
        AbsorbReflects(encs, front, AbsorbAll(front), n);
      } else {
        IrrelevantReflects(encs, front, AbsorbAll(front), f);
      }
    }
  }

  // ---------- decoding what was collected ----------

  lemma PieceDecodes(key: string, p: Piece)
    requires Bytes(p.text)
    ensures UntrustedString(PieceField(key, p)) == Some(p.text)
  {
    HexRoundTrip(p.text);
  }

  ghost predicate HoldsPieces(fragments: map<nat, Field>, i: nat, pieces: seq<Piece>, n: nat)
    requires Spellable(pieces) && n <= |pieces|
  {
    forall j: nat :: j < n ==> j in fragments && fragments[j] == PieceField(KeyOf(Of(Fragment(i, j))), pieces[j])
  }

  lemma {:induction false} PiecesAssemble(fragments: map<nat, Field>, i: nat, pieces: seq<Piece>, n: nat)
    requires Spellable(pieces) && n <= |pieces| && HoldsPieces(fragments, i, pieces, n)
    ensures Assembled(fragments, n) == Some(TextOf(pieces[..n]))
    ensures EncodedLength(fragments, n) == SpelledLength(pieces[..n])
  {
    if n > 0 {
      PiecesAssemble(fragments, i, pieces, n - 1);
      PieceDecodes(KeyOf(Of(Fragment(i, n - 1))), pieces[n - 1]);
      assert pieces[..n][..n - 1] == pieces[..n - 1];
    }
  }

  lemma {:induction false} RangeSize(s: set<nat>, n: nat)
    requires forall i: nat :: i in s <==> i < n
    ensures |s| == n
  {
    if n > 0 {
      RangeSize(s - {n - 1}, n - 1);
    } else {
      assert s == {};
    }
  }

  lemma EntireDecodes(a: ExecArgument, key: string, p: Piece)
    requires Bytes(p.text) && a.whole == Some(PieceField(key, p)) && a.length.None?
    requires forall j: nat :: j !in a.fragments
    ensures DecodeArgument(a) == Some(p.text)
  {
    RangeSize(a.fragments.Keys, 0);
    PieceDecodes(key, p);
  }

  lemma SplitDecodes(a: ExecArgument, i: nat, pieces: seq<Piece>)
    requires Spellable(pieces) && pieces != []
    requires a.whole.None? && a.length == Some(SpelledLength(pieces))
    requires (forall j: nat :: j in a.fragments <==> j < |pieces|) && HoldsPieces(a.fragments, i, pieces, |pieces|)
    ensures DecodeArgument(a) == Some(TextOf(pieces))
  {
    RangeSize(a.fragments.Keys, |pieces|);
    PiecesAssemble(a.fragments, i, pieces, |pieces|);
    assert pieces[..|pieces|] == pieces;
  }

  lemma FragmentsStored(encs: seq<Encoding>, fields: seq<Field>, t: Table, i: nat, j: nat)
    requires AllEncodable(encs) && Spells(fields, encs) && Reflects(encs, fields, t) && i in t.args
    ensures j in t.args[i].fragments <==> Has(encs, Of(Fragment(i, j)))
    ensures Has(encs, Of(Fragment(i, j))) ==> t.args[i].fragments[j] == FieldAt(encs, Of(Fragment(i, j)))
  {
    assert Tracks(encs, fields, t, Of(Fragment(i, j)));
  }

  lemma WholeStored(encs: seq<Encoding>, fields: seq<Field>, t: Table, i: nat)
    requires AllEncodable(encs) && Spells(fields, encs) && Reflects(encs, fields, t)
    requires i < |encs| && i in t.args
    ensures if encs[i].Entire? then t.args[i].whole == Some(PieceField(KeyOf(Of(Whole(i))), encs[i].piece))
      else t.args[i].whole.None?
  {
    assert Encodable(encs[i]);
    assert Tracks(encs, fields, t, Of(Whole(i)));
  }

  lemma LengthStored(encs: seq<Encoding>, fields: seq<Field>, t: Table, i: nat)
    requires AllEncodable(encs) && Spells(fields, encs) && Reflects(encs, fields, t)
    requires i < |encs| && i in t.args
    ensures encs[i].Split? ==> Spellable(encs[i].pieces)
    ensures t.args[i].length == if encs[i].Split? then Some(SpelledLength(encs[i].pieces)) else None
  {
    assert Encodable(encs[i]);
    assert Tracks(encs, fields, t, Of(Length(i)));
  }

  lemma PartsStored(encs: seq<Encoding>, fields: seq<Field>, t: Table, i: nat)
    requires AllEncodable(encs) && Spells(fields, encs) && Reflects(encs, fields, t)
    requires i < |encs| && i in t.args
    ensures encs[i].Split? ==> Spellable(encs[i].pieces)
    ensures forall j: nat :: j in t.args[i].fragments <==> encs[i].Split? && j < |encs[i].pieces|
    ensures encs[i].Split? ==> HoldsPieces(t.args[i].fragments, i, encs[i].pieces, |encs[i].pieces|)
  {
    assert Encodable(encs[i]);
    forall j: nat
      ensures j in t.args[i].fragments <==> Has(encs, Of(Fragment(i, j)))
      ensures Has(encs, Of(Fragment(i, j))) ==> t.args[i].fragments[j] == FieldAt(encs, Of(Fragment(i, j)))
    {
      FragmentsStored(encs, fields, t, i, j);
    }
  }

  /** Everything of argument `i` is stored, and nothing else. */
  lemma ArgumentDecodes(encs: seq<Encoding>, fields: seq<Field>, t: Table, i: nat)
    requires AllEncodable(encs) && Spells(fields, encs) && Reflects(encs, fields, t)
    requires i < |encs| && i in t.args
    ensures DecodeArgument(t.args[i]) == Some(Argument(encs[i]))
  {
    assert Encodable(encs[i]);
    WholeStored(encs, fields, t, i);
    LengthStored(encs, fields, t, i);
    PartsStored(encs, fields, t, i);
    if encs[i].Entire? {
      EntireDecodes(t.args[i], KeyOf(Of(Whole(i))), encs[i].piece);
    } else {
      SplitDecodes(t.args[i], i, encs[i].pieces);
    }
  }

  function Texts(encs: seq<Encoding>): seq<string> {
    if encs == [] then [] else Texts(encs[..|encs| - 1]) + [Argument(encs[|encs| - 1])]
  }

  /** The first `n` arguments decode to the first `n` texts. */
  ghost predicate Decodes(args: map<nat, ExecArgument>, encs: seq<Encoding>, n: nat)
    requires n <= |encs|
  {
    forall i: nat :: i < n ==>
      i in args && DecodeArgument(args[i]) == Some(Argument(encs[i])) && ValidUtf8(Argument(encs[i]))
  }

  lemma {:induction false} VectorDecodes(args: map<nat, ExecArgument>, encs: seq<Encoding>, n: nat)
    requires n <= |encs| && Decodes(args, encs, n)
    ensures Vector(args, n) == Some(Texts(encs[..n]))
  {
    if n > 0 {
      VectorDecodes(args, encs, n - 1);
      assert encs[..n][..n - 1] == encs[..n - 1];
    }
  }

  lemma ArgumentsAreIndexed(encs: seq<Encoding>, fields: seq<Field>, t: Table, i: nat)
    requires AllEncodable(encs) && Spells(fields, encs) && Reflects(encs, fields, t)
    ensures i in t.args <==> i < |encs|
  {
    if i < |encs| {
      assert Encodable(encs[i]);
      var n := if encs[i].Entire? then Of(Whole(i)) else Of(Length(i));
      assert Seen(encs, fields, n);
      assert Justified(encs, fields, i);
    }
  }

  lemma TableHasArguments(encs: seq<Encoding>, fields: seq<Field>, t: Table)
    requires AllEncodable(encs) && Spells(fields, encs) && Reflects(encs, fields, t)
    ensures |t.args| == |encs| && t.argc == |encs| && Decodes(t.args, encs, |encs|)
  {
    forall i: nat ensures i in t.args <==> i < |encs| { ArgumentsAreIndexed(encs, fields, t, i); }
    RangeSize(t.args.Keys, |encs|);
    assert |t.args| == |t.args.Keys|;
    assert Tracks(encs, fields, t, Argc) && Seen(encs, fields, Argc);
    forall i: nat | i < |encs|
      ensures i in t.args && DecodeArgument(t.args[i]) == Some(Argument(encs[i])) && ValidUtf8(Argument(encs[i]))
    {
      ArgumentDecodes(encs, fields, t, i);
      assert Encodable(encs[i]);
    }
  }

  /** The theorem: records that spell an argument vector decode to that vector. */
  lemma ReconstructionInvertsEncoding(encs: seq<Encoding>, records: seq<ExecRecord>)
    requires AllEncodable(encs) && Spells(FieldsOf(records), encs)
    ensures Reconstructed(AbsorbAll(FieldsOf(records))) == Some(Texts(encs))
  {
    var fields := FieldsOf(records);
    var t := AbsorbAll(fields);
    AbsorbAllReflects(encs, fields);
    TableHasArguments(encs, fields, t);
    VectorDecodes(t.args, encs, |encs|);
    assert encs[..|encs|] == encs;
  }
}
