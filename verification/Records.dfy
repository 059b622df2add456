/** Values that flow through the collector: correlation keys, parsed records,
    source positions and assembled events. */
module Records {

  datatype Option<+T> = None | Some(value: T)

  /** What names a file while it exists, whatever its path. */
  datatype Identity = Identity(device: nat, inode: nat)

  /** A durable document replaced atomically: a failed save may still have landed. */
  datatype SaveAnswer = Landed | LandedButFailed | Lost

  /** Two records belong to one logical event exactly when their keys agree. */
  datatype Key = Key(id: string, node: string, nodePresent: bool)

  /** How a record type bounds its event.  `Single` stands for KERNEL and every
      known single-record type, `Plain` for a type that closes nothing. */
  datatype Kind = EOE | Proctitle | Single | Plain

  datatype SourcePosition = SourcePosition(
    anchor: string, device: nat, inode: nat, generation: nat,
    start: nat, end: nat, bytes: nat, valid: bool)

  const NO_POSITION := SourcePosition("", 0, 0, 0, 0, 0, 0, false)

  /** Order used by the assembler: generation first, then the start offset. */
  predicate StartsBefore(left: SourcePosition, right: SourcePosition) {
    if left.generation != right.generation then left.generation < right.generation
    else left.start < right.start
  }

  datatype Record = Record(
    key: Key, kind: Kind, sourceBytes: nat, source: SourcePosition,
    auditTime: Option<int>, raw: string)

  datatype Completion =
    | ByEOE | ByProctitle | BySingleRecord | ByWatermark | ByTimeout
    | ByEOF | ByAssemblyLimit | ByLineLimit | ByShutdown | BySourceGap

  datatype Event = Event(
    sequence: nat, exceptional: bool, mixedNode: bool, id: string,
    records: seq<Record>, complete: bool, completion: Completion)

  /** One parsed key/value pair; a quoted value is literal. */
  datatype Field = Field(key: string, value: string, quoted: bool, interpreted: bool)

  /** What the canonical event says of a field it does not use: which field of which
      record of the event, or, without one, what is missing. */
  datatype Issue =
    | FieldIssue(code: string, record: nat, field: Field, embedded: bool)
    | MissingIssue(code: string, typ: string, name: string)
}
