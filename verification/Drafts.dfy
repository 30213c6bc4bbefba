/** The protocol drafts a session can negotiate, and the integer encoding each one writes. */
module Drafts {
  import opened VarInt

  type Draft = d: int | 7 <= d <= 22 witness 7

  function CodecOf(d: Draft): Codec {
    if d <= 16 then Quic else if d == 17 then Moqt17 else Moqt18
  }
}
