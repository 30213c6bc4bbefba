/** The errors decoders report, wrapped layer by layer, and the one question a reader asks of them. */
module Errors {
  import opened Bytes
  import V = VarInt

  datatype KvpError =
    | MissingLength
    | ValueTooLong(len: nat)
    | UnexpectedEnd
    | VarInt(error: V.VarIntError)

  datatype CodecError =
    | UnexpectedEnd
    | VarInt(error: V.VarIntError)
    | Kvp(kvp: KvpError)
    | KeyValueFormatting(key: u64, detail: string)
    | SubscriptionFilterMalformed(detail: string)
    | InvalidFilterType(id: u64)
    | ControlMessageLengthMismatch(detail: string)
    | InvalidRange(startGroup: u64, startObject: u64, endGroup: u64, endObject: u64)
    | FilterEndGroupOverflow(startGroup: u64, delta: u64)
  {
    /** Whether more bytes might complete this decode: four spellings of running out. */
    predicate IsIncomplete() {
      this == CodecError.UnexpectedEnd
      || this == CodecError.VarInt(V.UnexpectedEnd)
      || this == Kvp(KvpError.UnexpectedEnd)
      || this == Kvp(KvpError.VarInt(V.UnexpectedEnd))
    }
  }
}
