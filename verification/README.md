# Verified model of the MoQ Transport wire kernel, ranges and track record

This project models four parts of the repository and proves what they promise.

**The wire kernel** (`Bits`, `Bytes`, `VarInt*`, `Errors`, `Kvp*`, `AuthToken*`). Three variable-length integer
encodings (QUIC's, and MoQT's own in its draft-17 and draft-18 revisions), Key-Value-Pair lists whose value shape
depends on the key's parity, and the Token structure that travels inside an odd-key value. Each encoding is a row of
one table (`VarInt.Capacity`, `Head`, `LenOf`); the methods of `VarIntCodec` shift, mask and loop as the program does
and are proved against that table. Lists and Tokens are written and read by methods over a growing buffer and a
cursor, proved against functions on byte sequences, and the laws are proved about those functions.

**The track-location record** (`TrackLocations`, `TrackHistory`, `TrackRuns`, `TrackInterleaving`). The shared list of
records is a class its methods update in place. Its refinement of the whole unbounded history, its invariants over
sequential runs, and its invariants over every interleaving of the streams' separate lock sections are proved apart,
because they differ.

**Range translation** (`FieldLists`, `Drafts`, `RangeChecks`, `LocationFilters`, `FetchRanges`, `SubscriptionFilters`,
`SubscribeRanges`, `MessageStreaming`). One FETCH range and one SUBSCRIBE range, the forms sixteen drafts write them in, the bytes of
each form, and the set of Locations each form denotes.

**A small lexer** (`RustText*`, `MatchArms*`). Blanking comments and literals out of Rust source without moving an
offset, and finding `match` arms by counting brackets.

## Where the code and its promises part

- `is_incomplete` is not exactly "more bytes could help". A value length cut short whose first bytes already spell
  more than 65535 is reported incomplete although no extension decodes: bytes `01 01 81`
  (`KvpStreaming.IncompleteYetHopeless`). `KvpStreaming.StreamingExact` gives the exact condition; the uncapped format
  of drafts 07 to 10 has no exception (`KvpStreaming.UncappedStreaming`). A SUBSCRIBE cut short inside its Filter Type has
  the same exception on drafts 08 to 14, byte `41` (`MessageStreaming.IncompleteYetHopelessType`), with its exact
  condition in `MessageStreaming.MessageStreamingExact`; an integer on its own has none.
- On the drafts that write a range as QUIC integers on the message itself (FETCH on drafts 07 to 16, SUBSCRIBE on
  drafts 07 to 14) a number past 2^62 - 1 is converted, checked, and then written as a different one. No such range
  means the same to its receiver: it is delivered exactly when its check
  passes and every field fits (`FetchRanges.DeliversExactly`,
  `SubscribeRanges.DeliversExactly`), and `CarriedRanges` says which ranges those are in their own numbers. A plus one
  makes the range through Object 2^62 - 1 one of them: it is read as the whole Group, the widening the conversion
  refuses at 2^64 - 1 (`FetchRanges.PlusOneWrapsOnQuic`, `SubscribeRanges.PlusOneWrapsOnDraft07`). Drafts 15 and 16
  refuse such a SUBSCRIBE before writing it.
- "Nothing is recorded past a track's end" holds of a sequential run exactly when no call wrote the end behind what was
  already reached (`TrackRuns.RunWithinEndExactly`), so always where placements are judged and not where they are not
  (`TrackRuns.UnjudgedEndMayBeBehind`). Interleaved, even judged ends can be passed
  (`TrackInterleaving.RaceReachesPastTheEnd`): once a track has ended, every later schedule keeps it within its end
  exactly when it is there and no stream has an object past the end checked but not yet recorded
  (`TrackInterleaving.StaysWithinExactly`), and an object past a judged end overlapped the call that wrote it
  (`TrackInterleaving.OnlyOverlapsPass`).
- `keep_strings` is documented to leave the literals. It leaves a literal exactly when it is a quoted string
  (`RustTextLaws.KeptExactly`); `r"a"` comes back as four spaces (`RustTextLaws.RawStringNotKept`).
- A `match` body whose closing bracket is missing gets an end one short of the text's. An arm then reaches past it
  exactly when the last arm's brace is not closed before the text's last character, or the text ends at its arrow
  (`MatchArmsLaws.BodyOverruns`), as in `match x{a=>{` followed by a space (`MatchArmsLaws.UnclosedOverruns`).

## Model

| member | source | states |
|---|---|---|
| VarIntCodec.FromU64 | crates/moqtap-codec/src/varint.rs:35-42 | the checked constructor accepts exactly the values a QUIC encoding carries there and back |
| VarIntCodec.EncodeQuic | crates/moqtap-codec/src/varint.rs:65-83 | the length bits ORed over the value are the table's encoding, for every 64-bit value |
| VarIntCodec.DecodeQuic | crates/moqtap-codec/src/varint.rs:85-115 | shifting and masking read what the table says, consume exactly that, and consume nothing on an error |
| VarIntCodec.EncodedLenMoqt | crates/moqtap-codec/src/varint.rs:134-141 | the loop answers the least length the profile defines that holds the value |
| VarIntCodec.EncodeMoqt | crates/moqtap-codec/src/varint.rs:144-157 | prefix, OR and the descending byte loop write the table's encoding, in both profiles |
| VarIntCodec.DecodeMoqt | crates/moqtap-codec/src/varint.rs:160-187 | leading-ones length, mask and the shifting loop read what the table says, without overflow, in both profiles |
| VarIntLaws.RoundTrip | crates/moqtap-codec/src/varint.rs:124-187 | decoding an encoding gives the value and leaves the trailing bytes if and only if the value is in the codec's range, for all three codecs |
| VarIntLaws.QuicReadsModulo | crates/moqtap-codec/src/varint.rs:65-115 | every 64-bit value written as QUIC reads back modulo 2^62 |
| VarIntLaws.LeastLength | crates/moqtap-codec/src/varint.rs:134-141 | no defined length shorter than the one used can hold the value |
| VarIntLaws.QuicWire | crates/moqtap-codec/src/varint.rs:65-83 | the length and the number spelled by the bytes of every QUIC value, form by form |
| VarIntLaws.MoqtWire | crates/moqtap-codec/src/varint.rs:124-157 | the same for the eight and nine forms of the two MoQT profiles |
| Bytes.FirstByte | crates/moqtap-codec/src/varint.rs:65-83 | the first byte is the most significant |
| VarIntLaws.ShortestEncoding | crates/moqtap-codec/src/varint.rs:85-187 | re-encoding a decoded value never takes more bytes than were consumed, and as many only when they are the same bytes |
| VarIntLaws.DecodingStable | crates/moqtap-codec/src/varint.rs:85-187 | a finished read is unchanged by appended bytes |
| VarIntLaws.PrefixCode | crates/moqtap-codec/src/varint.rs:85-187 | an error consumes nothing; running out is reported exactly when some extension decodes; an undefined code point is final and draft-17's alone |
| VarIntLaws.PaddingIsLeast | crates/moqtap-codec/src/varint.rs:85-115 | zero bytes complete a truncated integer to the least value any completion can have |
| VarIntLaws.Moqt17RefinesMoqt18 | crates/moqtap-codec/src/varint.rs:222-242 | on all bytes draft-17's reader is draft-18's with the seven-byte length refused |
| VarIntLaws.Moqt17ReadsUnderMoqt18 | crates/moqtap-codec/src/varint.rs:222-242 | bytes written under draft-17's profile read the same under draft-18's |
| VarIntLaws.Moqt18ReadsUnderMoqt17 | crates/moqtap-codec/src/varint.rs:222-242 | bytes written under draft-18's profile read the same, with the same bytes left, under draft-17's exactly outside [2^42, 2^49), and inside it are an invalid code point that consumes nothing |
| Kvp.WritePair | crates/moqtap-codec/src/kvp.rs:72-86 | appends the key and the value its own shape calls for |
| Kvp.WriteListChecked | crates/moqtap-codec/src/kvp.rs:146-155 | writes the whole list, or nothing and names the first value too long |
| Kvp.ReadPair | crates/moqtap-codec/src/kvp.rs:88-105 | parity of the key picks the value's shape; a length past 65535 is refused before the value is read |
| Kvp.WriteList | crates/moqtap-codec/src/kvp.rs:119-128 | the count, then every pair in order, in either pair format |
| Kvp.ReadList | crates/moqtap-codec/src/kvp.rs:158-165 | as many pairs as the count says, stopping at the first error with its bytes consumed |
| KvpLaws.ListRoundTrip | crates/moqtap-codec/src/kvp.rs:72-165 | a list reads back the same if and only if shapes match key parity, every integer and the count are at most 2^62 - 1, and byte values at most 65535 |
| KvpLaws.ListBytes | crates/moqtap-codec/src/kvp.rs:72-128 | a list is its count and then, pair by pair, the key and an integer or a length and so many bytes, in both formats |
| KvpLaws.PairReadsExactly | crates/moqtap-codec/src/kvp.rs:88-105 | a pair is read if and only if the bytes spell it, by its key's parity and with at most 65535 bytes, or uncapped and always as bytes on drafts 07 to 10 |
| KvpLaws.ListReadsExactly | crates/moqtap-codec/src/kvp.rs:158-208 | a list is read if and only if the bytes spell its count and then its pairs, leaving the rest |
| KvpLaws.CheckedMeansAccepted | crates/moqtap-codec/src/kvp.rs:107-165 | on parity-shaped in-range lists the checked writer and the reader accept the same lists and refuse over the same value |
| KvpLaws.DecodedListInDomain | crates/moqtap-codec/src/kvp.rs:158-165 | whatever the bytes, an accepted list lies in the round-trip domain |
| KvpLaws.NormalForm | crates/moqtap-codec/src/kvp.rs:179-217 | a drafts 07 to 10 list reads back with integers as their own bytes, exactly when its keys, lengths and count fit, with no length cap |
| KvpLaws.NormalIsFixed | crates/moqtap-codec/src/kvp.rs:179-217 | that normal form writes the same bytes and is its own normal form |
| KvpStreaming.ListStable | crates/moqtap-codec/src/kvp.rs:158-208 | in both formats an accepted list, or a final refusal, is unchanged by appended bytes, and so is what it consumed |
| KvpStreaming.ListCompletes | crates/moqtap-codec/src/kvp.rs:88-165 | the bytes that complete an incomplete list are built, through a broken count, key, length or value |
| KvpStreaming.StreamingExact | crates/moqtap-codec/src/error.rs:801-811 | in both formats a failed list decode has a successful extension if and only if it is incomplete and not stopped inside a capped length already past 65535; the only other error is a value too long, and it persists |
| KvpStreaming.UncappedStreaming | crates/moqtap-codec/src/kvp.rs:179-208 | on drafts 07 to 10 every failed list decode is incomplete, and some extension of it decodes |
| KvpStreaming.IncompleteYetHopeless | crates/moqtap-codec/src/error.rs:801-811 | the exception is real: three bytes reported incomplete that nothing completes |
| MessageStreaming.IntegerStreaming | crates/moqtap-codec/src/error.rs:801-811 | an integer that failed to decode is reported incomplete if and only if some extension decodes, in all three encodings |
| MessageStreaming.RunStreaming | crates/moqtap-codec/src/error.rs:801-811 | and so is a run of integers |
| MessageStreaming.MessageReadsExactly | crates/moqtap-codec/src/draft07/message.rs:1104-1123 | drafts 07 to 14 read a SUBSCRIBE's filter fields if and only if the bytes open with a Filter Type, one byte on draft-07, and the integers it promises |
| MessageStreaming.MessageStreamingExact | crates/moqtap-codec/src/error.rs:801-811 | a failed read of those fields can be completed if and only if it is incomplete and did not stop inside a Filter Type already past 4 |
| MessageStreaming.IncompleteYetHopelessType | crates/moqtap-codec/src/draft08/message.rs:1189-1202 | the exception is real: one byte reported incomplete that nothing completes |
| AuthToken.FromId | crates/moqtap-codec/src/auth_token.rs:45-66 | the Alias Type numbers are 0 to 3 and invert the ids written |
| AuthToken.DecodeWith | crates/moqtap-codec/src/auth_token.rs:170-203 | reads the fields the Alias Type promises, each refusal under the caller's key |
| AuthToken.EncodeToken | crates/moqtap-codec/src/auth_token.rs:218-230 | fails exactly when a promised field exceeds 2^62 - 1, naming the first, and then leaves the buffer untouched |
| AuthToken.EncodeTokenMoqt | crates/moqtap-codec/src/auth_token.rs:237-246 | appends the Token's bytes, never failing |
| AuthTokenLaws.TokenRoundTrip | crates/moqtap-codec/src/auth_token.rs:170-246 | under any of the integer codecs, reading a written Token gives its canonical form |
| AuthTokenLaws.TokenShapes | crates/moqtap-codec/src/auth_token.rs:45-84 | the bytes of each of the four Alias Types, by number and field |
| AuthTokenLaws.OverflowShapes | crates/moqtap-codec/src/auth_token.rs:218-230 | which of its numbers each Alias Type must be able to write, and which is named first when it cannot |
| AuthTokenLaws.TokenReadsExactly | crates/moqtap-codec/src/auth_token.rs:170-203 | a value is read as a Token if and only if its bytes spell that Alias Type's fields and nothing more |
| AuthTokenLaws.CanonicalSameBytes | crates/moqtap-codec/src/auth_token.rs:68-84 | the canonical form writes the same bytes and is its own |
| AuthTokenLaws.TokenDecodeTotal | crates/moqtap-codec/src/auth_token.rs:142-203 | any bytes give a canonical Token no longer to write and stable to read, or an error under the caller's key that is never incomplete |
| AuthTokenLaws.NestedRoundTrip | crates/moqtap-codec/src/auth_token.rs:170-230 | a list with Tokens in some odd-key values survives the checked writer and the reader, and every Token is recovered |
| TrackLocations.TrackLocations.Observe | crates/moqtap-client/src/track_locations.rs:224-245 | raises one track's `reached` to the later of two Locations |
| TrackLocations.TrackLocations.CheckEndOfTrack | crates/moqtap-client/src/track_locations.rs:252-278 | refuses an end behind what was reached, by its form, and reports how far |
| TrackLocations.TrackLocations.NoteFinalObject | crates/moqtap-client/src/track_locations.rs:289-307 | writes a track's end once |
| TrackLocations.TrackLocations.CheckNotPastFinal | crates/moqtap-client/src/track_locations.rs:318-331 | refuses an object past the end, reporting the end |
| TrackLocations.TrackLocations.Find | crates/moqtap-client/src/track_locations.rs:333-339 | the first record of the track, or none |
| TrackLocations.PutLookup | crates/moqtap-client/src/track_locations.rs:333-339 | a record written is the one looked up, no other track's moves, and there is still at most one per track |
| TrackLocations.TrackObjects.Note | crates/moqtap-client/src/track_locations.rs:416-431 | uninterrupted, the call is one step of the record by the object's role |
| TrackLocations.TrackObjects.NoteWithFinalObject | crates/moqtap-client/src/track_locations.rs:451-458 | uninterrupted, an object past the end is refused before its role is looked at |
| TrackLocations.TrackObjects.NotePastFinal | crates/moqtap-client/src/track_locations.rs:472-484 | the same without judging an end's placement |
| TrackHistory.Perform | crates/moqtap-client/src/track_locations.rs:224-307 | the shared record driven through any run of its writers is the replay of that run |
| TrackHistory.RecordIsSummary | crates/moqtap-client/src/track_locations.rs:26-39 | after any run, a track's two fields are the greatest Location it carried and the first end it named, one record per track |
| TrackHistory.TwoNumbersSuffice | crates/moqtap-client/src/track_locations.rs:26-39 | the check accepts exactly when the quantified rule over the whole history holds, in both forms, and what it reports is the history's true maximum |
| TrackRuns.StepEffect | crates/moqtap-client/src/track_locations.rs:451-458 | an accepted call changes one field of one track; a refused one changes nothing |
| TrackRuns.Answers | crates/moqtap-client/src/track_locations.rs:416-484 | for each entry point, exactly when a call is refused, by which check, and with what report |
| TrackRuns.EndNeverMoves | crates/moqtap-client/src/track_locations.rs:289-307 | once set, the end is the same after any further calls through any of the three entry points |
| TrackRuns.EndDecides | crates/moqtap-client/src/track_locations.rs:318-331 | after the end is set, whether the track lies within it is settled, in both directions |
| TrackRuns.EndingSettles | crates/moqtap-client/src/track_locations.rs:451-484 | the call that ends a track keeps it within its end through every later run exactly when nothing past the end had been reached |
| TrackRuns.RunWithinEndExactly | crates/moqtap-client/src/track_locations.rs:416-484 | a sequential run leaves a track within its end if and only if no call of it wrote the end behind what was reached |
| TrackRuns.JudgedRunWithinEnd | crates/moqtap-client/src/track_locations.rs:416-458 | in any sequential run whose ends are judged, no track has reached past its end |
| TrackRuns.AfterTheEnd | crates/moqtap-client/src/track_locations.rs:289-331 | from then on the end stays, later objects are accepted only at or below it, refused ones leave the record alone |
| TrackRuns.UnjudgedEndMayBeBehind | crates/moqtap-client/src/track_locations.rs:348-365 | an end whose form is not known is not judged, and may be behind what was carried |
| TrackInterleaving.EveryInterleaving | crates/moqtap-client/src/track_locations.rs:486-520 | the invariant over the record and the log of lock sections holds after every schedule of any number of streams |
| TrackInterleaving.RecordUnderInterleaving | crates/moqtap-client/src/track_locations.rs:486-520 | under every schedule `reached` is the greatest Location recorded and the end is the first one written |
| TrackInterleaving.EndWrittenOnce | crates/moqtap-client/src/track_locations.rs:289-307 | no later interleaving moves an end |
| TrackInterleaving.ReportsAgree | crates/moqtap-client/src/track_locations.rs:318-331 | every past-the-end report for a track, on any stream, names the same Location |
| TrackInterleaving.OnlyRacersPass | crates/moqtap-client/src/track_locations.rs:451-484 | an object past the end is recorded only if the check its own stream made for it passed before any section wrote the end |
| TrackInterleaving.OnlyOverlapsPass | crates/moqtap-client/src/track_locations.rs:451-458 | an object past a judged end was checked before the end was written and recorded after it was judged, so the two calls overlapped |
| TrackInterleaving.PastTheEndMeansRaced | crates/moqtap-client/src/track_locations.rs:416-484 | a track that has reached past its end got there by an entry point without the check, by an end that was not judged, or by two overlapping calls |
| TrackInterleaving.StaysWithinExactly | crates/moqtap-client/src/track_locations.rs:451-520 | from any state in which a track has ended, every later schedule of checking calls keeps it within its end if and only if it is there now and no stream is about to record an object past it |
| TrackInterleaving.UninterruptedIsTheCall | crates/moqtap-client/src/track_locations.rs:416-484 | a call's sections taken in a row leave the record, and answer the caller, as its specification says |
| TrackInterleaving.RaceReachesPastTheEnd | crates/moqtap-client/src/track_locations.rs:451-458 | a schedule of two judged calls that records an object past the end |
| FieldLists.FieldsRoundTrip | crates/moqtap-codec/src/varint.rs:65-187 | a run of fields survives the wire exactly when each fits the draft's integers |
| FieldLists.AllShortest | crates/moqtap-codec/src/draft20/message.rs:292-311 | a value read to its end re-encodes to no more bytes, and to as many only when they are the same |
| FieldLists.WriteFields | crates/moqtap-client/src/draft20/fill.rs:280-286 | the loop writes every field in order |
| LocationFilters.EncodeValue | crates/moqtap-client/src/draft22/fill.rs:313-320 | the type, where there is one, then every field |
| LocationFilters.DecodeCountedValue | crates/moqtap-codec/src/draft20/message.rs:292-311 | integers until the value ends, at most four, either failure malformed |
| LocationFilters.ReadLocationFilter | crates/moqtap-codec/src/draft22/message.rs:326-345 | the type, then exactly the fields it names, leaving the rest of the message |
| LocationFilters.DecodeTypedValue | crates/moqtap-codec/src/draft22/message.rs:377-386 | the same over a whole value, trailing bytes refused |
| LocationFilters.TypedReads | crates/moqtap-codec/src/draft22/message.rs:326-363 | a typed filter is read back in front of any message, which is left where it was |
| LocationFilters.ShapesDefined | crates/moqtap-codec/src/draft22/message.rs:300-311 | up to four counted fields, or six types with their number of fields |
| LocationFilters.CountedReadsExactly | crates/moqtap-codec/src/draft20/message.rs:292-311 | a value is read if and only if it is up to four integers and nothing more |
| LocationFilters.TypedReadsExactly | crates/moqtap-codec/src/draft22/message.rs:326-386 | a typed filter is read if and only if its type and the fields it names come first, and alone in a whole value |
| LocationFilters.Refusals | crates/moqtap-codec/src/draft22/message.rs:326-386 | a type past the six is refused by its number, everything else as malformed |
| LocationFilters.FilterRoundTrip | crates/moqtap-client/src/draft20/fill.rs:294-307 | a filter survives its own bytes exactly when its draft defines its shape |
| LocationFilters.CountedCanonical | crates/moqtap-codec/src/draft20/message.rs:267-311 | every accepted value has one shortest spelling, which reads the same, so the count of fields never depends on the count of bytes |
| SubscribeRanges.ReceiverAcceptsWhatIsSent | crates/moqtap-codec/src/draft20/message.rs:329-339 | of the filters that name a start, the receiver's check accepts exactly those some range is written as |
| LocationFilters.BuiltExactlyWhenReceived | crates/moqtap-client/src/draft20/fill.rs:242-315 | the constructors build exactly the filters a receiver's check accepts |
| FetchRanges.Expressible | crates/moqtap-client/src/dispatch.rs:716-872 | inline fields refuse only Object(2^64 - 1), filters only a backwards range; the overflow of the end Group never arises |
| FetchRanges.WrittenAs | crates/moqtap-client/src/dispatch.rs:716-872 | the bytes each draft writes a range as, in the range's own numbers and the draft's own integers |
| FetchRanges.SameLocations | crates/moqtap-client/src/dispatch.rs:631-661 | every wire form denotes the set of Locations the range holds |
| FetchRanges.WireInverse | crates/moqtap-client/src/dispatch.rs:716-872 | the range can be read back off its wire form, so no two are written alike |
| FetchRanges.WireRoundTrip | crates/moqtap-client/src/dispatch.rs:4058-4068 | the wire form comes back from its bytes exactly when the draft's integers can spell every field and the codec's check passes |
| FetchRanges.DeliversExactly | crates/moqtap-client/src/dispatch.rs:4058-4068 | through conversion, check, bytes and back, the receiver serves exactly the range's Locations if and only if the draft can carry the range |
| FetchRanges.CarriedRanges | crates/moqtap-client/src/dispatch.rs:716-872 | which ranges those are, in the range's own numbers |
| FetchRanges.FetchMeansTheSame | crates/moqtap-client/src/dispatch.rs:716-872 | against any draft that can carry a range, another draft's receiver serves the same Locations if and only if that draft can carry it too |
| FetchRanges.PlusOneWrapsOnQuic | crates/moqtap-client/src/dispatch.rs:716-726 | on QUIC drafts a range through Object 2^62 - 1 is read as one through the whole Group |
| RangeChecks.CheckLocationRange | crates/moqtap-codec/src/types.rs:62-79 | the codec's check refuses exactly the inline fields that ask for no Location at all |
| RangeChecks.CheckGroupRange | crates/moqtap-codec/src/types.rs:99-104 | wherever in its Group the start is, refuses exactly the Groups that ask for no Location |
| RangeChecks.InlineExact | crates/moqtap-codec/src/types.rs:40-79 | inline fields that ask for something are fixed by the set of Locations they ask for |
| RangeChecks.GroupExact | crates/moqtap-codec/src/types.rs:81-104 | and so are a start and a last Group |
| FetchRanges.CodecRefusesTheEmpty | crates/moqtap-codec/src/draft19/message.rs:1140-1155 | past the conversion, drafts 07 to 19 refuse exactly the ranges that hold no Location; drafts 20 to 22 refuse none |
| SubscriptionFilters.DecodeWith | crates/moqtap-codec/src/subscription_filter.rs:150-191 | the fields the Filter Type promises and no bytes after, with running out reported as the filter's own fault |
| SubscriptionFilters.EncodeWith | crates/moqtap-codec/src/subscription_filter.rs:221-266 | refuses a filter that disagrees with its type or does not fit, naming the first fault, and then writes nothing |
| SubscriptionFilters.Disagreement | crates/moqtap-codec/src/subscription_filter.rs:230-253 | there is a fault to report exactly when the filter disagrees with its type or its draft's spelling of the end |
| SubscriptionFilters.FilterRoundTrip | crates/moqtap-codec/src/subscription_filter.rs:121-266 | a filter survives its bytes exactly when it agrees with its type, spells its end as the draft does, and fits |
| SubscriptionFilters.FilterShapes | crates/moqtap-codec/src/subscription_filter.rs:110-118 | the fields and the numbers of each of the four Filter Types |
| SubscriptionFilters.FilterReadsExactly | crates/moqtap-codec/src/subscription_filter.rs:150-191 | a value is read as a filter if and only if its bytes spell that Filter Type's fields and nothing more |
| SubscriptionFilters.StopsAt | crates/moqtap-codec/src/subscription_filter.rs:158-191 | an integer that is missing is the filter's fault, one that is undefined is reported as itself, wherever it stands |
| SubscriptionFilters.UnknownTypeRefused | crates/moqtap-codec/src/subscription_filter.rs:167-169 | a type outside the four is refused by its number, and nothing else is |
| SubscriptionFilters.FilterCanonical | crates/moqtap-codec/src/subscription_filter.rs:150-191 | any accepted value writes back no longer and reads back the same |
| SubscriptionFilters.NeverIncomplete | crates/moqtap-codec/src/subscription_filter.rs:130-170 | no bytes at all make it an incomplete frame, and the one integer error passed through is draft-17's code point |
| SubscribeRanges.Acceptance | crates/moqtap-client/src/dispatch.rs:1059-1373 | for each wire family, exactly which ranges it accepts |
| SubscribeRanges.OpenWritten | crates/moqtap-client/src/dispatch.rs:1059-1373 | the bytes each draft writes an open range as |
| SubscribeRanges.ToGroupWritten | crates/moqtap-client/src/dispatch.rs:1059-1373 | the bytes each draft writes a range through a Group as: in full, with a 0 on draft-07, then as a delta |
| SubscribeRanges.ToObjectWritten | crates/moqtap-client/src/dispatch.rs:1059-1373 | the bytes the drafts that can write a range through an Object write it as |
| SubscribeRanges.OverflowingDelta | crates/moqtap-codec/src/draft18/message.rs:222-243 | from draft-18 a delta that leaves 64 bits is refused, and on draft-17 it is not |
| SubscribeRanges.DeltaNeverDefaults | crates/moqtap-client/src/dispatch.rs:1138-1190 | the delta whose absence is read as zero is absent only where no delta is used, and added to the start it is the end Group |
| SubscribeRanges.SameLocations | crates/moqtap-client/src/dispatch.rs:917-970 | every wire form passes exactly the Locations the range holds, wherever the live edge is |
| SubscribeRanges.WireInverse | crates/moqtap-client/src/dispatch.rs:1059-1373 | the range can be read back off its wire form, in all five families |
| SubscribeRanges.NeverNextObject | crates/moqtap-client/src/dispatch.rs:1226-1324 | no range on drafts 20 to 22 becomes the filter that means the live edge |
| SubscribeRanges.RefusalIsTheCollision | crates/moqtap-client/src/dispatch.rs:1199-1242 | two fields would mean the open range at every live edge exactly when the conversion accepts it |
| SubscribeRanges.CodecRefusesTheEmpty | crates/moqtap-codec/src/draft07/message.rs:625-646 | past the conversion, drafts 07 to 14 refuse exactly the ranges that hold no Location, and the drafts after them refuse none |
| SubscribeRanges.WireRoundTrip | crates/moqtap-client/src/dispatch.rs:3733-3980 | on every draft the wire form comes back from its bytes exactly when the draft's integers can spell every field and the codec's check passes |
| SubscribeRanges.PlusOneWrapsOnDraft07 | crates/moqtap-client/src/dispatch.rs:1084-1107 | on draft-07 a subscription through Object 2^62 - 1 is read as one through the whole Group |
| SubscribeRanges.MessageReads | crates/moqtap-codec/src/draft08/message.rs:1189-1202 | the fields of drafts 07 to 14 read back off the front of the rest of the message |
| SubscribeRanges.DeliversExactly | crates/moqtap-client/src/dispatch.rs:3733-3980 | through conversion, checks, bytes and back, the receiver passes exactly the range's Locations if and only if the draft can carry the range |
| SubscribeRanges.CarriedRanges | crates/moqtap-client/src/dispatch.rs:1059-1373 | which ranges those are, in the range's own numbers |
| SubscribeRanges.SubscribeMeansTheSame | crates/moqtap-client/src/dispatch.rs:1059-1373 | against any draft that can carry a range, another draft's receiver passes the same Locations if and only if that draft can carry it too |
| RustText.StripNoncode | scripts/check-draft-parity.py:428-498 | the in-place blanking is the text shown through its mask, in both modes |
| RustText.Find | scripts/check-draft-parity.py:456-472 | the first occurrence at or after an offset, and none before it |
| RustTextShapes.StartsAtZero | scripts/check-draft-parity.py:444-453 | the reader starts at the first character |
| RustTextShapes.LineComment | scripts/check-draft-parity.py:455-460 | `//` is blanked to the newline, where the reader goes on, or to the end |
| RustTextShapes.BlockComment | scripts/check-draft-parity.py:461-466 | `/*` is blanked through the first `*/` past it |
| RustTextShapes.OpenBlockComment | scripts/check-draft-parity.py:461-466 | and to the end of the text where there is none |
| RustTextShapes.RawStringLiteral | scripts/check-draft-parity.py:467-475 | a raw string is blanked through the first mark followed by as many `#` as opened it |
| RustTextShapes.OpenRawString | scripts/check-draft-parity.py:467-475 | and to the end of the text where there is none |
| RustTextShapes.QuotedStringLiteral | scripts/check-draft-parity.py:476-489 | a quoted string runs through its first mark that no backslash takes, blanked or spared by the mode |
| RustTextShapes.OpenQuotedString | scripts/check-draft-parity.py:476-489 | and to the end of the text where there is none |
| RustTextShapes.CharLiteralBlanked | scripts/check-draft-parity.py:490-496 | a char literal is blanked, plain or escaped |
| RustTextShapes.CodeShown | scripts/check-draft-parity.py:490-497 | everything else, a lifetime included, shows as it was and the reader goes on by one |
| RustTextLaws.OffsetsKept | scripts/check-draft-parity.py:429-432 | no length, offset or newline moves, and every character is the original's or a space |
| RustTextLaws.TokensBlanked | scripts/check-draft-parity.py:453-497 | a comment or literal leaves only spaces and newlines, except a quoted string in keeping mode, which is untouched |
| RustTextLaws.KeptExactly | scripts/check-draft-parity.py:435-444 | the keeping mode keeps a comment or literal unchanged if and only if it is a quoted string |
| RustTextLaws.RawStringNotKept | scripts/check-draft-parity.py:467-475 | a raw string is blanked in the keeping mode |
| RustTextLaws.CodeKept | scripts/check-draft-parity.py:451-498 | code outside every comment and literal shows as it was |
| RustTextLaws.NoIsland | scripts/check-draft-parity.py:444-498 | no blanked run is a single character with text after it |
| RustTextLaws.Idempotent | scripts/check-draft-parity.py:428-498 | in either mode, blanking blanked text changes nothing |
| RustTextLaws.NothingOpensAnywhere | scripts/check-draft-parity.py:428-498 | in default mode nothing that opens a comment or literal is left at any offset, and no quotation mark |
| MatchArms.FindBalanced | scripts/check-draft-parity.py:504-515 | the scan's answer, tied to bracket depth by the two laws below |
| MatchArms.FindMatchBodies | scripts/check-draft-parity.py:518-539 | the body of every `match`, by the scans for its brace and its close |
| MatchArmsShapes.BodyStartExactly | scripts/check-draft-parity.py:521-533 | the brace found is the first outside parentheses and brackets with no semicolon outside them before it |
| MatchArmsShapes.NoBodyStart | scripts/check-draft-parity.py:521-533 | and none is found exactly where there is no such brace |
| MatchArmsShapes.BodiesExactly | scripts/check-draft-parity.py:518-539 | a body is reported if and only if such a brace follows a keyword |
| MatchArmsShapes.KeywordIs | scripts/check-draft-parity.py:520-520 | a keyword is the five letters with no word character on either side |
| MatchArmsShapes.DepthCounts | scripts/check-draft-parity.py:501-515 | the depth is the brackets of the three kinds opened less those closed |
| MatchArms.Arms | scripts/check-draft-parity.py:545-585 | the slices reported are those of the arms' offsets |
| MatchArmsLaws.BalancedIs | scripts/check-draft-parity.py:504-515 | the answer is just past the first bracket that closes the one opened, or the text's end where none does |
| MatchArmsLaws.InnerCloses | scripts/check-draft-parity.py:504-585 | inside a closed body an inner scan never runs past the outer close, and comes back to the depth it left |
| MatchArmsLaws.KeywordsExact | scripts/check-draft-parity.py:518-520 | exactly the whole-word keywords are found |
| MatchArmsLaws.BodiesClosed | scripts/check-draft-parity.py:518-539 | every body starts at a brace and ends at its close, or at the text's last character where there is none |
| MatchArmsLaws.ArmsAreLaid | scripts/check-draft-parity.py:545-585 | a closed body is spacing, arm, spacing, arm and so on, then a rest with no top-level arrow |
| MatchArmsLaws.ArmsWellNested | scripts/check-draft-parity.py:545-585 | every pattern and body reported is a nested slice inside the body, in order and disjoint, with no top-level arrow in a pattern |
| MatchArmsLaws.BodyOverruns | scripts/check-draft-parity.py:518-585 | an arm of a `match` body reaches past it if and only if the body is unclosed and its last arm's brace is not closed before the text's last character, or the text ends at its arrow |
| MatchArmsLaws.UnclosedOverruns | scripts/check-draft-parity.py:518-585 | a text whose one body ends at 12 and whose one arm, as reported, ends at 13 |

## Left out

- Error values: only the variants the modelled code builds are in `Errors.CodecError`; display strings are not modelled, and drafts 20 and 21 share draft-20's wording of a malformed filter.
- Integers: a `VarInt` is the plain 64-bit number it wraps; bitwise OR, AND and shifts are recursive functions on naturals rather than bit vectors; `usize` is 64 bits wide.
- Buffers: `reserve_bounded` and the unsafe length setting in `read_bytes_kvp` are slices of the received bytes.
- Kvp.WriteList, Kvp.ReadList: one method serves both list formats, which differ only in the pair they write or read.
- MatchArms.Arms, MatchArms.FindMatchBodies: the inner loops of `arms` and `match_bodies` are methods of their own.
- MatchArms.FindMatchBodies: which characters past ASCII are word characters is a parameter; regular expressions and `str.find` are functions that state the match.
- FetchRanges.WireRoundTrip, SubscribeRanges.WireRoundTrip: the fields before and after the range in a message (request ids, names, priorities, parameters) are not modelled.
- SubscribeRanges: `last_group` and `from_parameters` of the subscription filter, and nested fill parameters, would add only easier members.
- LocationFilters.Passes: the one-field relative start has no meaning here, because no range is ever written as one; the empty filter passes everything.
- The track record: mutex poisoning and panics; the alias table and per-draft readers that call the record.
- The asynchronous connection, stream and transport code, error classification, draft tables, first-write-wins lists (`malformed_tracks`, `forwarding_preference`) and the other scripts.
