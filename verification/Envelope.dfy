/** The correlation key of a line: which fields name it, what makes them contradict
    each other, and what is left of it when the line is cut. */
module Envelope {
  import opened Records
  import opened Numerals
  import opened Fields
  import opened Sequences

  // ---------- what the fields say ----------

  const OPENING := "audit("
  const CLOSING := "):"

  /** The identifier in a message of the form `audit(...):`, or nothing. */
  function AuditId(message: string): string {
    var n := |message|;
    if n >= 8 && message[..6] == OPENING && message[n - 2..] == CLOSING && ')' !in message[6..n - 2]
    then message[6..n - 2] else ""
  }

  /** The identifier a field claims: only a bare field of the raw part can. */
  function ClaimedId(f: Field): string {
    if f.key == "msg" && !f.quoted && !f.interpreted then AuditId(f.value) else ""
  }

  predicate IsNode(f: Field) { f.key == "node" && !f.interpreted }

  /** The fields agree on one identifier, one type and at most one node. */
  ghost predicate Names(fields: seq<Field>, k: Key, typ: string) {
    && Identifies(fields, k.id) && ValidUtf8(k.id)
    && Types(fields, typ) && ValidUtf8(typ)
    && Places(fields, k.node, k.nodePresent)
  }

  ghost predicate Identifies(fields: seq<Field>, id: string) {
    && id != ""
    && (exists f :: f in fields && ClaimedId(f) == id)
    && (forall f :: f in fields ==> ClaimedId(f) in {"", id})
  }

  ghost predicate Types(fields: seq<Field>, typ: string) {
    && typ != ""
    && (exists f :: f in fields && f.key == "type" && f.value == typ)
    && (forall f :: f in fields && f.key == "type" ==> f.value == typ)
  }

  ghost predicate Places(fields: seq<Field>, node: string, present: bool) {
    && (present <==> exists f :: f in fields && IsNode(f))
    && (if present then node != "" && ValidUtf8(node) else node == "")
    && (forall f :: f in fields && IsNode(f) ==> f.value == node)
  }

  /** There is at most one key and type that the fields name. */
  lemma NamesOnce(fields: seq<Field>, k: Key, typ: string, l: Key, other: string)
    requires Names(fields, k, typ) && Names(fields, l, other)
    ensures k == l && typ == other
  {
    var f :| f in fields && ClaimedId(f) == k.id;
    var g :| g in fields && g.key == "type" && g.value == typ;
    if k.nodePresent {
      var h :| h in fields && IsNode(h);
    }
  }

  /** The field is a bare `msg=audit(id):` of the raw part of a line. */
  predicate Says(f: Field, id: string) {
    && f.key == "msg" && !f.quoted && !f.interpreted && f.value == "audit(" + id + "):"
    && id != "" && ')' !in id
  }

  lemma ClaimedIsSaid(f: Field, id: string)
    requires id != ""
    ensures ClaimedId(f) == id <==> Says(f, id)
  {
    if Says(f, id) {
      assert f.value[..6] == "audit(" && f.value[6..|f.value| - 2] == id && f.value[|f.value| - 2..] == "):";
    }
    if ClaimedId(f) == id {
      assert f.value == f.value[..6] + f.value[6..|f.value| - 2] + f.value[|f.value| - 2..];
    }
  }

  lemma IdentifiesIsExact(fields: seq<Field>, id: string)
    ensures Identifies(fields, id) <==>
      && id != "" && (exists f :: f in fields && Says(f, id))
      && forall f, other :: f in fields && Says(f, other) ==> other == id
  {
    forall f, other | other != "" ensures ClaimedId(f) == other <==> Says(f, other) { ClaimedIsSaid(f, other); }
    if Identifies(fields, id) {
      var f :| f in fields && ClaimedId(f) == id;
      assert Says(f, id);
    } else if f :| f in fields && Says(f, id) {
      assert ClaimedId(f) == id;
      var g :| g in fields && ClaimedId(g) !in {"", id};
      assert Says(g, ClaimedId(g));
    }
  }

  lemma PlacesIsExact(fields: seq<Field>, node: string, present: bool)
    ensures Places(fields, node, present) <==>
      && (forall f :: f in fields && f.key == "node" && !f.interpreted ==> present && f.value == node)
      && (if present then
            node != "" && ValidUtf8(node) && exists f :: f in fields && f.key == "node" && !f.interpreted
          else node == "")
  {
    if f :| f in fields && f.key == "node" && !f.interpreted { assert IsNode(f); }
    if f :| f in fields && IsNode(f) { assert f.key == "node" && !f.interpreted; }
  }

  /** The theorem: fields name a key exactly when they say one identifier, one type and
      at most one node, all of them non-empty and well formed. */
  lemma NamesIsExact(fields: seq<Field>, k: Key, typ: string)
    ensures Names(fields, k, typ) <==>
      && k.id != "" && ValidUtf8(k.id) && (exists f :: f in fields && Says(f, k.id))
      && (forall f, id :: f in fields && Says(f, id) ==> id == k.id)
      && typ != "" && ValidUtf8(typ) && (exists f :: f in fields && f.key == "type" && f.value == typ)
      && (forall f :: f in fields && f.key == "type" ==> f.value == typ)
      && (forall f :: f in fields && f.key == "node" && !f.interpreted ==> k.nodePresent && f.value == k.node)
      && (if k.nodePresent then
            k.node != "" && ValidUtf8(k.node) && exists f :: f in fields && f.key == "node" && !f.interpreted
          else k.node == "")
  {
    IdentifiesIsExact(fields, k.id);
    PlacesIsExact(fields, k.node, k.nodePresent);
  }

  // ---------- reading them ----------

  method AuditIdFromMessage(message: string) returns (id: string)
    ensures id == AuditId(message)
  {
    if |message| < 8 || message[..6] != OPENING || message[|message| - 2..] != CLOSING {
      return "";
    }
    var end := 6;
    while message[end] != ')'
      invariant 6 <= end <= |message| - 2
      invariant ')' !in message[6..end]
      decreases |message| - end
    {
      end := end + 1;
      assert message[6..end] == message[6..end - 1] + [message[end - 1]];
    }
    if end != |message| - 2 {
      assert message[6..|message| - 2][end - 6] == ')';
      return "";
    }
    return message[6..end];
  }

  /** The identifier of the record: the first one claimed, unless another differs. */
  method ReadId(fields: seq<Field>) returns (id: Option<string>)
    ensures id.Some? && id.value != "" ==> Identifies(fields, id.value)
    ensures id == Some("") || id == None ==> forall x :: !Identifies(fields, x)
  {
    var found := "";
    for n := 0 to |fields|
      invariant found == "" ==> forall i :: 0 <= i < n ==> ClaimedId(fields[i]) == ""
      invariant found != "" ==> Identifies(fields[..n], found)
    {
      var f := fields[n];
      assert fields[..n + 1] == fields[..n] + [f];
      if f.key == "msg" && !f.quoted && !f.interpreted {
        var claimed := AuditIdFromMessage(f.value);
        if claimed != "" {
          if found != "" && claimed != found {
            DifferentIds(fields, n, found);
            return None;
          }
          found := claimed;
          assert ClaimedId(f) == found;
        }
      }
    }
    assert fields[..|fields|] == fields;
    return Some(found);
  }

  lemma DifferentIds(fields: seq<Field>, n: nat, id: string)
    requires n < |fields| && Identifies(fields[..n], id) && ClaimedId(fields[n]) !in {"", id}
    ensures forall x :: !Identifies(fields, x)
  {
    var f :| f in fields[..n] && ClaimedId(f) == id;
    assert f in fields && fields[n] in fields;
  }

  /** The first value that is not empty. */
  method FirstValue(values: seq<string>) returns (value: string)
    ensures value != "" ==> value in values
    ensures value == "" ==> forall v :: v in values ==> v == ""
  {
    for n := 0 to |values|
      invariant forall i :: 0 <= i < n ==> values[i] == ""
    {
      if values[n] != "" {
        return values[n];
      }
    }
    return "";
  }

  lemma {:induction false} SelectMembers(all: seq<Field>, key: string, v: string)
    ensures v in Select(all, key) <==> exists f :: f in all && f.key == key && f.value == v
  {
    if all != [] {
      var front, last := all[..|all| - 1], all[|all| - 1];
      SelectMembers(front, key, v);
      assert all == front + [last];
    }
  }

  /** The pass over types and nodes, against the type chosen before. */
  method ReadTypeAndNode(fields: seq<Field>, typ: string) returns (ok: bool, node: string, present: bool)
    ensures ok <==>
      (forall f :: f in fields && f.key == "type" ==> f.value == typ) && exists x, p :: Places(fields, x, p)
    ensures ok ==> Places(fields, node, present)
  {
    node, present := "", false;
    for n := 0 to |fields|
      invariant forall i :: 0 <= i < n && fields[i].key == "type" ==> fields[i].value == typ
      invariant Places(fields[..n], node, present)
    {
      var f := fields[n];
      assert fields[..n + 1] == fields[..n] + [f];
      if f.key == "type" && f.value != typ {
        return false, node, present;
      }
      if f.key == "node" && !f.interpreted {
        if f.value == "" || !ValidUtf8(f.value) || (present && node != f.value) {
          NoPlace(fields, n, node, present);
          return false, node, present;
        }
        node, present := f.value, true;
        assert IsNode(f);
      }
    }
    assert fields[..|fields|] == fields;
    ok := true;
  }

  lemma NoPlace(fields: seq<Field>, n: nat, node: string, present: bool)
    requires n < |fields| && Places(fields[..n], node, present) && IsNode(fields[n])
    requires fields[n].value == "" || !ValidUtf8(fields[n].value) || (present && node != fields[n].value)
    ensures forall x, p :: !Places(fields, x, p)
  {
    assert fields[n] in fields;
    if present {
      var f :| f in fields[..n] && IsNode(f);
      assert f in fields;
    }
  }

  ghost predicate HasKey(fields: seq<Field>, k: Key) { exists typ :: Names(fields, k, typ) }

  ghost predicate NamesSome(fields: seq<Field>) { exists k :: HasKey(fields, k) }

  method ReadKey(fields: seq<Field>, values: map<string, seq<string>>, ghost first: map<string, string>)
    returns (key: Option<Key>, typ: string)
    requires Indexed(fields, values, first)
    ensures key.Some? ==> Names(fields, key.value, typ)
    ensures key.None? ==> !NamesSome(fields)
  {
    typ := FirstValue(if "type" in values then values["type"] else []);
    SelectMembers(fields, "type", typ);
    var id := ReadId(fields);
    if id.None? {
      return None, typ;
    }
    var ok, node, present := ReadTypeAndNode(fields, typ);
    if !ok {
      WrongTypeOrNode(fields, typ);
      return None, typ;
    }
    if id.value == "" || typ == "" || !ValidUtf8(typ) || !ValidUtf8(id.value) {
      Unnamed(fields, id.value, typ);
      return None, typ;
    }
    key := Some(Key(id.value, node, present));
  }

  /** The chosen type is the only candidate. */
  ghost predicate Chosen(fields: seq<Field>, typ: string) {
    if typ == "" then forall v :: v in Select(fields, "type") ==> v == ""
    else exists f :: f in fields && f.key == "type" && f.value == typ
  }

  lemma NamedAsChosen(fields: seq<Field>, typ: string, k: Key, x: string)
    requires Chosen(fields, typ) && Names(fields, k, x)
    ensures x == typ && Types(fields, typ) && Places(fields, k.node, k.nodePresent)
  {
    SelectMembers(fields, "type", x);
  }

  lemma NamedAsIdentified(fields: seq<Field>, id: string, k: Key, x: string)
    requires (if id == "" then forall y :: !Identifies(fields, y) else Identifies(fields, id)) && Names(fields, k, x)
    ensures k.id == id
  {
    assert Identifies(fields, k.id);
    var f :| f in fields && ClaimedId(f) == k.id;
  }

  lemma WrongTypeOrNode(fields: seq<Field>, typ: string)
    requires Chosen(fields, typ)
    requires !((forall f :: f in fields && f.key == "type" ==> f.value == typ) && exists x, p :: Places(fields, x, p))
    ensures !NamesSome(fields)
  {
    forall k, x ensures !Names(fields, k, x) {
      if Names(fields, k, x) { NamedAsChosen(fields, typ, k, x); }
    }
  }

  lemma Unnamed(fields: seq<Field>, id: string, typ: string)
    requires Chosen(fields, typ)
    requires if id == "" then forall y :: !Identifies(fields, y) else Identifies(fields, id)
    requires id == "" || typ == "" || !ValidUtf8(typ) || !ValidUtf8(id)
    ensures !NamesSome(fields)
  {
    forall k, x ensures !Names(fields, k, x) {
      if Names(fields, k, x) {
        NamedAsChosen(fields, typ, k, x);
        NamedAsIdentified(fields, id, k, x);
      }
    }
  }

  // ---------- what a cut line still says ----------

  predicate Closes(text: string, i: nat) { i + 1 < |text| && text[i] == ')' && text[i + 1] == ':' }

  /** Where the first `):` from `i` on starts. */
  function HeaderEnd(text: string, i: nat): (n: nat)
    requires i <= |text|
    ensures i <= n <= |text| && (n < |text| ==> Closes(text, n))
    ensures forall j :: i <= j < n ==> !Closes(text, j)
    decreases |text| - i
  {
    if i == |text| || Closes(text, i) then i else HeaderEnd(text, i + 1)
  }

  /** The fields up to the first `):`, when there is one. */
  function Head(text: string): Option<Parsed> {
    var n := HeaderEnd(text, 0);
    if n == |text| then None else Some(Parse(text[..n + 2]))
  }

  /** The text up to its first `):` is a header that names the key. */
  ghost predicate Carries(text: string, k: Key) {
    Head(text).Some? && Head(text).value.Fields? && HasKey(Head(text).value.all, k)
  }

  /** The rewriting of payload prose, which starts after `): `, leaves the cut alone. */
  lemma NothingIsRewritten(text: string, cut: string)
    requires HeaderEnd(text, 0) < |text| && cut == text[..HeaderEnd(text, 0) + 2]
    ensures forall j :: 0 <= j < |cut| - 2 ==> !(Closes(cut, j) && cut[j + 2] == ' ')
  {
    forall j | 0 <= j < |cut| - 2 ensures !Closes(cut, j) {
      assert Closes(cut, j) <==> Closes(text, j);
    }
  }

  lemma CarriesOnce(text: string, k: Key, l: Key)
    requires Carries(text, k) && Carries(text, l)
    ensures k == l
  {
    var all := Head(text).value.all;
    var typ :| Names(all, k, typ);
    var other :| Names(all, l, other);
    NamesOnce(all, k, typ, l, other);
  }

  /** The key that a retained prefix yields, if any. */
  ghost function KeyOf(text: string): (k: Option<Key>)
    ensures k.Some? ==> Carries(text, k.value)
    ensures k.None? ==> forall l :: !Carries(text, l)
  {
    if l :| Carries(text, l) then Some(l) else None
  }

  lemma KeyIs(text: string, k: Key)
    requires Carries(text, k)
    ensures KeyOf(text) == Some(k)
  {
    CarriesOnce(text, k, KeyOf(text).value);
  }

  lemma NoKey(text: string)
    requires Head(text).Some? && Head(text).value.Fields? ==> !NamesSome(Head(text).value.all)
    ensures KeyOf(text) == None
  {
  }

  method FindHeaderEnd(text: string) returns (n: nat)
    ensures n == HeaderEnd(text, 0)
  {
    n := 0;
    while n < |text| && !Closes(text, n)
      invariant 0 <= n <= |text| && HeaderEnd(text, 0) == HeaderEnd(text, n)
    {
      n := n + 1;
    }
  }

  /** The key of an oversized line, from whatever prefix of it was retained. */
  method ReadPrefix(text: string) returns (key: Option<Key>)
    ensures key == KeyOf(text)
  {
    var end := FindHeaderEnd(text);
    if end == |text| {
      NoKey(text);
      return None;
    }
    var parsed, values, first := ParseFields(text[..end + 2]);
    if parsed.Bad? {
      NoKey(text);
      return None;
    }
    var typ;
    key, typ := ReadKey(parsed.all, values, first);
    if key.Some? {
      KeyIs(text, key.value);
    } else {
      NoKey(text);
    }
  }

  // ---------- the whole line and the cut line ----------

  /** A header names the record; fields that follow it keep identifier and type, or
      spoil the record.  The key of the cut line is the key of the whole line exactly
      when the header names the node already or no later field does. */
  lemma CutKeyIsWholeKey(head: seq<Field>, rest: seq<Field>, k: Key, typ: string, l: Key, other: string)
    requires Names(head, k, typ) && Names(head + rest, l, other)
    ensures l.id == k.id && other == typ
    ensures l == k <==> k.nodePresent || forall f :: f in rest ==> !IsNode(f)
  {
    var f :| f in head && ClaimedId(f) == k.id;
    var g :| g in head && g.key == "type" && g.value == typ;
    assert f in head + rest && g in head + rest;
    if k.nodePresent {
      var h :| h in head && IsNode(h);
      assert h in head + rest;
    } else if n :| n in rest && IsNode(n) {
      assert n in head + rest;
    }
  }

  // ---------- headers as the daemon writes them ----------

  /** What stands in front of the payload: an optional node, the type, the identifier. */
  datatype Header = Header(node: Option<string>, typ: string, id: string)

  predicate Word(s: string) { s != "" && Bare(s) && ')' !in s && ValidUtf8(s) }

  predicate ValidHeader(h: Header) {
    Word(h.typ) && Word(h.id) && (h.node.Some? ==> Word(h.node.value))
  }

  function BareField(key: string, value: string): Field { Field(key, value, false, false) }

  function Message(id: string): string { OPENING + id + CLOSING }

  function HeaderFields(h: Header): seq<Field> {
    (if h.node.Some? then [BareField("node", h.node.value)] else []) +
    [BareField("type", h.typ), BareField("msg", Message(h.id))]
  }

  function KeyIn(h: Header): Key {
    Key(h.id, if h.node.Some? then h.node.value else "", h.node.Some?)
  }

  /** The fields as a line starts with them: without a separator in front. */
  function HeaderText(h: Header): string {
    Write(HeaderFields(h), false)[1..]
  }

  lemma HeaderIsWritable(h: Header)
    requires ValidHeader(h)
    ensures Writable(HeaderFields(h), false)
  {
    assert Bare(Message(h.id));
    assert Writable([BareField("msg", Message(h.id))], false);
    var tail := [BareField("type", h.typ), BareField("msg", Message(h.id))];
    assert tail[1..] == [BareField("msg", Message(h.id))];
    assert Writable(tail, false);
    if h.node.Some? {
      assert HeaderFields(h)[1..] == tail;
    } else {
      assert HeaderFields(h) == tail;
    }
  }

  lemma MessageNamesId(id: string)
    requires Word(id)
    ensures AuditId(Message(id)) == id
  {
    var m := Message(id);
    assert m[..6] == OPENING && m[|m| - 2..] == CLOSING && m[6..|m| - 2] == id;
  }

  lemma HeaderNamesKey(h: Header)
    requires ValidHeader(h)
    ensures Names(HeaderFields(h), KeyIn(h), h.typ)
  {
    MessageNamesId(h.id);
    var fields := HeaderFields(h);
    var typ, msg := BareField("type", h.typ), BareField("msg", Message(h.id));
    assert typ in fields && msg in fields && ClaimedId(msg) == h.id;
    if h.node.Some? { assert BareField("node", h.node.value) in fields; }
  }

  /** What stands in front of the message. */
  function Front(h: Header): string {
    (if h.node.Some? then WriteField(BareField("node", h.node.value), false) else "") +
    WriteField(BareField("type", h.typ), false)
  }

  /** Everything before the closing of the identifier. */
  function Lead(h: Header): string { Front(h) + (" msg=" + OPENING + h.id) }

  lemma WriteMore(f: Field, rest: seq<Field>)
    requires !f.interpreted
    ensures Write([f] + rest, false) == WriteField(f, false) + Write(rest, false)
  {
    assert ([f] + rest)[1..] == rest;
  }

  lemma FrontIsWritten(h: Header, msg: Field)
    requires msg == BareField("msg", Message(h.id))
    ensures Write(HeaderFields(h), false) == Front(h) + WriteField(msg, false)
  {
    var typ := BareField("type", h.typ);
    WriteMore(msg, []);
    WriteMore(typ, [msg]);
    assert [typ] + [msg] == [typ, msg] && [msg] + [] == [msg];
    if h.node.Some? {
      var node := BareField("node", h.node.value);
      WriteMore(node, [typ, msg]);
      Associate(WriteField(node, false), WriteField(typ, false), WriteField(msg, false));
    } else {
      assert HeaderFields(h) == [typ, msg];
    }
  }

  lemma FieldHoldsNoClosing(f: Field)
    requires !f.quoted && !f.interpreted && ')' !in f.key && ')' !in f.value
    ensures ')' !in WriteField(f, false)
  {
  }

  lemma FrontHoldsNoClosing(h: Header)
    requires ValidHeader(h)
    ensures ')' !in Front(h) && Front(h) != ""
  {
    FieldHoldsNoClosing(BareField("type", h.typ));
    if h.node.Some? { FieldHoldsNoClosing(BareField("node", h.node.value)); }
  }

  lemma LeadHoldsNoClosing(h: Header)
    requires ValidHeader(h)
    ensures ')' !in Lead(h) && Lead(h) != ""
  {
    FrontHoldsNoClosing(h);
    assert ')' !in " msg=" && ')' !in OPENING;
  }

  lemma MessageIsWritten(id: string)
    ensures WriteField(BareField("msg", Message(id)), false) == (" msg=" + OPENING + id) + CLOSING
  {
    assert [' '] + "msg" + "=" == " msg=";
    Associate(" msg=", OPENING + id, CLOSING);
  }

  lemma LeadIsHeader(h: Header)
    ensures Write(HeaderFields(h), false) == Lead(h) + CLOSING
  {
    FrontIsWritten(h, BareField("msg", Message(h.id)));
    MessageIsWritten(h.id);
    Associate(Front(h), " msg=" + OPENING + h.id, CLOSING);
  }

  lemma FirstClosing(text: string, i: nat, n: nat)
    requires i <= n && Closes(text, n) && forall j :: i <= j < n ==> !Closes(text, j)
    ensures HeaderEnd(text, i) == n
  {
  }

  lemma NoClosing(text: string)
    requires forall j :: 0 <= j < |text| ==> !Closes(text, j)
    ensures HeaderEnd(text, 0) == |text|
  {
  }

  lemma HeaderShape(h: Header, head: string)
    requires ValidHeader(h) && head == HeaderText(h)
    ensures |head| >= 2 && Closes(head, |head| - 2)
    ensures forall j :: 0 <= j < |head| - 2 ==> head[j] != ')'
  {
    LeadIsHeader(h);
    LeadHoldsNoClosing(h);
    assert head == Lead(h)[1..] + CLOSING;
    forall j | 0 <= j < |head| - 2 ensures head[j] != ')' {
      assert head[j] == Lead(h)[j + 1] && Lead(h)[j + 1] in Lead(h);
    }
  }

  /** Where a header with one closing at its end is found, whole or cut. */
  lemma HeaderStands(head: string, text: string)
    requires |head| >= 2 && Closes(head, |head| - 2) && forall j :: 0 <= j < |head| - 2 ==> head[j] != ')'
    requires head <= text || text < head
    ensures HeaderEnd(text, 0) == if head <= text then |head| - 2 else |text|
  {
    if head <= text {
      assert Closes(text, |head| - 2);
      FirstClosing(text, 0, |head| - 2);
    } else {
      NoClosing(text);
    }
  }

  lemma HeaderParses(h: Header)
    requires ValidHeader(h)
    ensures Parse(HeaderText(h)) == Fields.Fields(HeaderFields(h)) && HasKey(HeaderFields(h), KeyIn(h))
  {
    HeaderIsWritable(h);
    UnledLineParses(HeaderFields(h));
    HeaderNamesKey(h);
  }

  lemma WholeHeaderIsRead(h: Header, text: string)
    requires ValidHeader(h) && HeaderText(h) <= text
    ensures KeyOf(text) == Some(KeyIn(h))
  {
    var head := HeaderText(h);
    HeaderShape(h, head);
    HeaderStands(head, text);
    assert text[..|head|] == head;
    HeaderParses(h);
    KeyIs(text, KeyIn(h));
  }

  lemma CutHeaderIsNot(h: Header, text: string)
    requires ValidHeader(h) && text < HeaderText(h)
    ensures KeyOf(text) == None
  {
    HeaderShape(h, HeaderText(h));
    HeaderStands(HeaderText(h), text);
    NoKey(text);
  }

  lemma CutOf(head: string, rest: string, n: nat)
    requires n <= |head + rest|
    ensures if n >= |head| then head <= (head + rest)[..n] else (head + rest)[..n] < head
  {
  }

  /** The theorem: wherever an oversized line is cut, and whatever follows its header,
      the retained prefix yields the line's key if it holds the whole header, and
      nothing if it does not. */
  lemma HeaderSurvivesCut(h: Header, rest: string, n: nat)
    requires ValidHeader(h) && n <= |HeaderText(h) + rest|
    ensures KeyOf((HeaderText(h) + rest)[..n]) == if n >= |HeaderText(h)| then Some(KeyIn(h)) else None
  {
    CutOf(HeaderText(h), rest, n);
    if n >= |HeaderText(h)| {
      WholeHeaderIsRead(h, (HeaderText(h) + rest)[..n]);
    } else {
      CutHeaderIsNot(h, (HeaderText(h) + rest)[..n]);
    }
  }
}
