# orga core, modelled in Dafny

orga is a Rust framework for building blockchain state machines. This project
models the deterministic core of orga that turns typed state into store keys and
routes calls through nested state:

- **Key-segment codecs** (`Encoding`): `ByteTerminatedString`,
  `EofTerminatedString`, `FixedString` and `LengthVec`, as byte encoders and
  decoders. A value's text is either a UTF-8 string or a `u64` printed in decimal.
- **Call dispatch** (`Calls`): `Call` for `Option`, `Result`, one- to
  four-tuples, `Vec`, fixed arrays, primitives and user objects with field and
  method calls. Also covers `maybe_call` and the `Item` codec, which separates
  field calls from method calls by shifting the method discriminant up by
  `PREFIX_OFFSET` (0x40).
- **IBC host keys and entry points** (`IbcHost`):
  - `PortChannel` and `PortChannelSequence` keys under the store's absolute
    prefixes, laid out per the path space of ICS 24 (Host State Machine
    Requirements);
  - textual (`EpochHeight`) and binary heights;
  - `Timestamp::migrate`;
  - `signer`, `deliver_message`, `deliver` and `raw_transfer`, run against
    handlers passed in as parameters.
- **Validator bookkeeping** (`Staking`):
  - the `ValidatorInfo` codec and its `State` lifecycle;
  - `balance`;
  - the save-and-restore of `in_active_set` in `staked`;
  - the jailing in `slash`;
  - `slashable_balance` and `delegator_keys`, over the pool's entries in
    iteration order.
- **Fee gate** (`Fees`): `FeePlugin::call` takes and burns `MIN_FEE` from the
  payment context unless the payer is the one running or fees are disabled.
  Also covers `disable_fee` and query delegation.
- **Key/value store contract** (`KvStore`):
  - `get`, `get_next`, `get_prev`, `put` and `delete` on a map of byte strings,
    ordered byte-lexicographically;
  - an in-memory `MapStore`;
  - `StoreRef`, which forwards through a reference as the `Deref` impls do.
- **`WrapperStore`** (`StateWrapper`): the simplest `State`, whose contents are
  the store it was created with.

Shared definitions are in `Results` (`Option`, `Result`, the error kinds) and
`Bytes`. `Bytes` holds bytes, big-endian integers, decimal printing and Rust's
`u64` parsing, UTF-8 validity, and the lexicographic order on byte strings.

Where the source changes state in place, the model uses classes with `modifies`
clauses:

- `IbcState`, `Validator`, `Paid`, `FeePlugin`, `MapStore`, `StoreRef` and
  `TargetVec`;
- arrays for `[T; N]` and for `Item::encode_into`'s rewrite of the first byte.

Each such method is proved against a function that specifies it, and the
properties are lemmas about those functions. Loops in the source are methods
with loop invariants:

- `ByteTerminatedString::decode`;
- `LengthVec::decode`;
- `deliver`;
- `delegator_keys`;
- `slashable_balance`.

## Model

| member | source | states |
|---|---|---|
| Encoding.TextRoundTrip | src/encoding.rs:171-178 | a value's `to_string` is UTF-8 and `parse` maps it back to the same value, for strings and for `u64` |
| Encoding.FirstIndexOf | src/encoding.rs:189-195 | the scan stops at the first terminator: no terminator before it, the terminator at it, or the end of input |
| Encoding.DecodeByteTerminated | src/encoding.rs:186-204 | the byte-by-byte decoding loop computes exactly `ByteTerminatedDecode`: the bytes up to the first terminator are parsed, the terminator is consumed, and the rest is left |
| Encoding.ByteTerminatedFraming | src/encoding.rs:186-204 | for a body without the terminator followed by the terminator and any bytes, decode yields the parsed body and leaves exactly those bytes; invalid UTF-8 or unparsable text is `UnexpectedByte(4)` |
| Encoding.ByteTerminatedUnterminated | src/encoding.rs:189-195 | without any terminator the decoder reads to the end of input and still succeeds on good text, leaving nothing |
| Encoding.ByteTerminatedEncode | src/encoding.rs:170-184 | the text followed by the terminator, exactly as many bytes as `encoding_length` announces |
| Encoding.ByteTerminatedDecode | src/encoding.rs:186-204 | the text up to the first terminator (consumed) or the end of input, parsed; every failure is `UnexpectedByte(4)`, and an unterminated input is accepted and fully consumed |
| Encoding.ByteTerminatedRoundTrip | src/encoding.rs:170-204 | encode (text then one terminator) followed by any bytes decodes back to the value leaving those bytes if and only if the value's text does not contain the terminator |
| Encoding.CommaTerminatedEncodeExample | src/encoding.rs:345-349 | `1234` with `,` encodes as the five bytes "1234," and `encoding_length` is 5 |
| Encoding.CommaTerminatedDecodeExample | src/encoding.rs:350-353 | "1234,567,8," decodes to `1234` and leaves "567,8," unread |
| Encoding.DecodeNumberThenRest | src/encoding.rs:186-204 | any `u64` printed and followed by `,` and further bytes decodes back to itself, leaving those bytes |
| Encoding.EofEncode | src/encoding.rs:236-241 | the text alone, with no terminator (round trip in `EofRoundTrip`, length in `EofEncodingLengthOverstates`) |
| Encoding.EofEncodingLength | src/encoding.rs:242-244 | `encoding_length` as written, the text length plus one (see `EofEncodingLengthOverstates`) |
| Encoding.EofDecode | src/encoding.rs:247-256 | all remaining input, which must be UTF-8 (`Io(InvalidData)`) and parse (`UnexpectedByte(4)`); nothing is left over |
| Encoding.EofRoundTrip | src/encoding.rs:236-256 | an `EofTerminatedString` writes only its text, and decoding that text consumes all of it and gives the value back |
| Encoding.EofExample | src/encoding.rs:370-378 | `1234` encodes as "1234" and decodes back, leaving nothing |
| Encoding.EofEncodingLengthOverstates | src/encoding.rs:242-244 | `encoding_length` as written is one more than the number of bytes `encode_into` writes |
| Encoding.EofEncodingLengthCorrected | src/encoding.rs:236-241 | the corrected length equals the number of bytes written |
| Encoding.FixedEncode | src/encoding.rs:293-302 | the label's bytes (round trip in `FixedRoundTrip`) |
| Encoding.FixedDecode | src/encoding.rs:304-315 | reads exactly the label's length and compares (cases in `FixedDecodeCases`) |
| Encoding.FixedDecodeCases | src/encoding.rs:304-315 | `FixedString` decode succeeds exactly when the input starts with the label and then leaves what follows it; short input is an I/O `UnexpectedEof`, a mismatch is `UnexpectedByte(3)` |
| Encoding.FixedRoundTrip | src/encoding.rs:293-315 | the label encodes as itself and decodes back from any input it begins |
| Encoding.LengthVecDecode | src/encoding.rs:56-77 | the decode without the preallocation: a decoded vector's count always equals its number of elements and fits `usize` |
| Encoding.LengthVecDecodeAsWritten | src/encoding.rs:56-77 | the decode as written, with the capacity panic (related to `LengthVecDecode` by `CapacityOnlyAddsPanic`) |
| Encoding.DecodeLengthVec | src/encoding.rs:56-77 | the decoding loop computes exactly `LengthVecDecodeAsWritten`: the count in `P`'s big-endian width, `UnexpectedByte(80)` when it exceeds `usize`, the "capacity overflow" panic of `Vec::with_capacity` when the announced elements would exceed `isize::MAX` bytes, then that many elements, stopping at the first element error |
| Encoding.CapacityOnlyAddsPanic | src/encoding.rs:69 | the preallocation changes the outcome only by the capacity panic; in every other case the code decodes as `LengthVecDecode` |
| Encoding.CapacityOverflowExample | src/encoding.rs:69 | the eight bytes `80 00 00 00 00 00 00 00` as a `u64` count of one-byte elements panic, where decoding without preallocation reports the missing element's error |
| Encoding.LengthVecDecodeNeverPanics | src/encoding.rs:56-77 | without the preallocation, a vector of elements whose decoder never panics never panics either |
| Encoding.DecodeManyLength | src/encoding.rs:69-73 | a successful element loop yields exactly `count` elements |
| Encoding.DecodeManyRoundTrip | src/encoding.rs:96-117 | for a self-delimiting element codec, the concatenated elements decode back to the same elements, leaving what follows |
| Encoding.LengthVecEncode | src/encoding.rs:17-44 | the count in `P`'s big-endian width, then each element's encoding (round trip in `LengthVecRoundTrip`) |
| Encoding.LengthVecRoundTrip | src/encoding.rs:46-117 | an encoded `LengthVec` followed by any bytes decodes back to itself if and only if its `len` equals the number of its values, which `new` does not check |
| Encoding.LengthVecFromValues | src/encoding.rs:130-143 | `TryFrom<Vec>` yields a count that fits `P` |
| Encoding.FromValuesRoundTrip | src/encoding.rs:130-143 | `TryFrom<Vec>` succeeds if and only if the length fits `P`, fails with `Overflow` otherwise, and what it builds always round-trips |
| Calls.CallLeaf | src/call.rs:67-90 | a primitive accepts `()` and is unchanged with `Ok`; an object without methods answers a method call with "Method not found" and is unchanged; the shape never changes |
| Calls.Dispatch | src/call.rs:34-200 | a call never changes the shape of the target: no element appears or disappears and no `Option` is emptied |
| Calls.RouteOf | src/call.rs:34-200 | an independent description of where a call lands: a routed call ends at an existing primitive or object whose call type matches |
| Calls.DispatchDecomposes | src/call.rs:34-200 | dispatch is routing plus one leaf call: a refused call (empty `Option`, `Err`, index out of range) returns its error and changes nothing; a routed call only replaces the leaf on its route |
| Calls.DispatchStep | src/call.rs:92-185 | descending into child `i` of a wrapper, tuple, `Vec` or array replaces that child with the child's own outcome and nothing else |
| Calls.DispatchOnlyTouchesRoute | src/call.rs:34-200 | every part of the target off the call's route reads the same after the call, and a refused call leaves the target as it was |
| Calls.DispatchRefusals | src/call.rs:34-200 | an empty `Option` fails with "Call option is None", an `Err` with its own text, a `Vec` index past the end with "Index out of bounds" and an array index past the end with "Call index out of bounds", each leaving the target as it was |
| Calls.DispatchUpdatesLeaf | src/call.rs:299-311 | the leaf on the route holds exactly what its field or method call produced |
| Calls.TargetVec.Call | src/call.rs:56-65 | the in-place `Vec` call leaves the vector and result `Dispatch` prescribes: "Index out of bounds" when out of range, otherwise only that element changes; the length stays |
| Calls.CallArray | src/call.rs:187-200 | the in-place array call leaves the array and result `Dispatch` prescribes: "Call index out of bounds" when out of range, otherwise only that element changes |
| Calls.MaybeCall | src/call.rs:202-223 | a type without a `Call` impl refuses with "Call is not implemented"; one with it fails with the decoding error when the bytes do not decode, and otherwise returns the result of dispatching the decoded call (bytes after it are ignored) |
| Calls.MaybeCallRefused | src/call.rs:218-223 | a decoded call that routes to nothing fails with the routing error |
| Calls.OffsetMethodBytes | src/call.rs:245-251 | a method's encoding with its first byte raised by 0x40, or `UnencodableVariant` when it is empty or starts at or above 0x40 (see `MethodEncodable`) |
| Calls.ItemEncode | src/call.rs:239-257 | fields verbatim, methods through the offset (round trips in `MethodRoundTrip` and `FieldRoundTrip`) |
| Calls.ItemDecode | src/call.rs:267-285 | empty input is `UnexpectedEof`; the prefix byte is always consumed; below 0x40 a field is decoded from the input, otherwise a method from the byte shifted down; the reader ends where the inner decoder stopped, or just after the prefix when it read nothing |
| Calls.AfterChained | src/call.rs:271-281 | the reader's position after a chained decode is always past the prefix byte, and is where the inner decoder stopped once it read past that byte |
| Calls.UnitItemDecode | src/call.rs:267-314 | with the default `()` calls, `05 07` decodes as a field call and `45 07` as a method call, each leaving `07` |
| Calls.EncodeMethodInPlace | src/call.rs:245-254 | rewriting the first byte in place adds 0x40 to a discriminant below 0x40, and otherwise refuses with `UnencodableVariant` and leaves the bytes as they were |
| Calls.MethodEncodable | src/call.rs:245-254 | a method can be encoded if and only if its own encoding is non-empty and starts below 0x40; otherwise the error is `UnencodableVariant` |
| Calls.DiscriminantRanges | src/call.rs:239-284 | an encoded method starts with a byte in [0x40, 0x80), and decoding yields a field if and only if the first byte is below 0x40 |
| Calls.EncodingLengthUnchanged | src/call.rs:259-264 | the offset does not change the length `encoding_length` announces |
| Calls.MethodRoundTrip | src/call.rs:239-284 | a method whose own codec round-trips also round-trips as an `Item` |
| Calls.FieldRoundTrip | src/call.rs:239-284 | a field whose encoding starts below 0x40 and whose codec round-trips also round-trips as an `Item` |
| Calls.FieldMisread | src/call.rs:242-244 | field encodings are not checked: a field starting at or above 0x40 decodes as a method, and an empty field encoding cannot be decoded on its own |
| IbcHost.PortChannelEncode | src/ibc/mod.rs:358-363 | the four fields one after another (layout in `PortChannelLayout`) |
| IbcHost.PortChannelDecode | src/ibc/mod.rs:358-369 | a decoded key has a valid port free of `/`, a valid channel, and nothing left over |
| IbcHost.PortHeadDecode | src/ibc/mod.rs:358-363 | a decoded port is valid and free of `/` |
| IbcHost.Identifier | src/encoding.rs:186-203 | parsing a segment into an identifier type succeeds if and only if the identifier rule accepts it, and returns it; otherwise `UnexpectedByte(4)` |
| IbcHost.PortHeadRoundTrip | src/ibc/mod.rs:358-363 | "ports/", then a port without `/` and its terminating `/`, then "channels/", decodes back to the port and leaves what follows when the port is a valid `PortId`, and fails with `UnexpectedByte(4)` when it is not |
| IbcHost.PortChannelLayout | src/ibc/mod.rs:358-363 | a `PortChannel` key is "ports/" ++ port ++ "/" ++ "channels/" ++ channel |
| IbcHost.PortChannelRoundTrip | src/ibc/mod.rs:358-369 | a key decodes back to the same port and channel if and only if the port contains no `/` and both identifiers are valid |
| IbcHost.PortChannelRoundTripClean | src/ibc/mod.rs:365-369 | a port without `/` round-trips through `migrate`'s plain decode when both identifiers are valid, and otherwise fails with `UnexpectedByte(4)` |
| IbcHost.PortChannelRoundTripSlash | src/ibc/mod.rs:358-363 | a port containing `/` never round-trips |
| IbcHost.PortStopsAtSlash | src/ibc/mod.rs:358-363 | a port containing `/` is cut short at its first `/` |
| IbcHost.ChannelKeyOrder | src/ibc/mod.rs:358-363 | keys under one port sort exactly as their channels do |
| IbcHost.PortKeyOrderBreaks | src/ibc/mod.rs:358-363 | ports do not keep their order in keys: "a-" sorts before "a" although "a" precedes "a-" |
| IbcHost.PortChannelSequenceEncode | src/ibc/mod.rs:433-440 | the six fields one after another (layout in `SequenceKeyExtendsChannelKey`) |
| IbcHost.PortChannelSequenceDecode | src/ibc/mod.rs:433-446 | a decoded sequence key has valid ports and channels free of `/` and nothing left over |
| IbcHost.ChannelSequenceDecode | src/ibc/mod.rs:433-440 | a decoded channel is valid and free of `/`, and the sequence runs to the end |
| IbcHost.PortChannelSequenceRoundTrip | src/ibc/mod.rs:433-446 | a `PortChannelSequence` key whose identifiers contain no `/` decodes back to the same port, channel and sequence when both identifiers are valid, and otherwise fails with `UnexpectedByte(4)` |
| IbcHost.ChannelSequenceRoundTrip | src/ibc/mod.rs:433-440 | the channel, its `/`, "sequences/" and the decimal sequence decode back to the channel and the number when the channel is a valid `ChannelId`, and otherwise fail with `UnexpectedByte(4)` |
| IbcHost.SequenceKeyExtendsChannelKey | src/ibc/mod.rs:433-440 | a sequence key is the channel's key followed by "/sequences/" and the sequence in decimal |
| IbcHost.SequenceKeyOrderBreaks | src/ibc/mod.rs:433-440 | sequence keys do not sort numerically: sequence 10 sorts before sequence 9 |
| IbcHost.PortId | src/ibc/mod.rs:387-394 | `port_id` succeeds if and only if the stored port is a valid identifier, and returns it; otherwise "Invalid port ID" |
| IbcHost.ChannelId | src/ibc/mod.rs:395-402 | `channel_id` succeeds if and only if the stored channel is a valid identifier, and returns it; otherwise "Invalid channel ID" |
| IbcHost.DecodedKeyIsValid | src/ibc/mod.rs:358-410 | on a decoded key `port_id` and `channel_id` return the stored identifiers and `with_sequence` succeeds, so "Invalid port ID" and "Invalid channel ID" cannot arise from a decoded key |
| IbcHost.SequenceAccessor | src/ibc/mod.rs:482-489 | `sequence()` returns the stored sequence |
| IbcHost.WithSequence | src/ibc/mod.rs:403-410 | `with_sequence` succeeds if and only if both identifiers are valid, keeps them and adds the sequence; an invalid port is "Invalid port ID" |
| IbcHost.NameWithoutSlash | src/ibc/mod.rs:73-97 | no table name contains `/` |
| IbcHost.NameInjective | src/ibc/mod.rs:73-97 | distinct tables have distinct prefixes |
| IbcHost.FirstSlashClosesPrefix | src/ibc/mod.rs:73-97 | the first `/` of any store key is the one that ends its table prefix |
| IbcHost.KeyDeterminesEntry | src/ibc/mod.rs:73-97 | a store key determines both its table and the map key inside it |
| IbcHost.TableKeyOrder | src/ibc/mod.rs:73-97 | within a table, store keys are ordered as the map keys are |
| IbcHost.PortChannelKeyExample | src/ibc/mod.rs:913-915 | port "transfer", channel "channel-123" encode as "ports/transfer/channels/channel-123" |
| IbcHost.ChannelEndKeyExample | src/ibc/mod.rs:858-863 | its channel end lives under "channelEnds/ports/transfer/channels/channel-123" |
| IbcHost.NextSequenceSendKeyExample | src/ibc/mod.rs:912-915 | its next send sequence lives under "nextSequenceSend/ports/transfer/channels/channel-123" |
| IbcHost.CommitmentKeyExample | src/ibc/mod.rs:896-899 | commitment 1 lives under "commitments/ports/transfer/channels/channel-123/sequences/1" |
| IbcHost.HeightFromEpoch | src/ibc/mod.rs:325-343 | a parsed height always has a non-zero revision height |
| IbcHost.EpochFromHeight | src/ibc/mod.rs:315-323 | "{revision_number}-{revision_height}" (parsed back by `EpochHeightRoundTrip`) |
| IbcHost.EpochHeightRoundTrip | src/ibc/mod.rs:315-343 | formatting a height as "{number}-{height}" and parsing it gives the height back, or the height error when the revision height is 0 |
| IbcHost.EpochHeightExtraParts | src/ibc/mod.rs:325-343 | parts after a second `-` are ignored |
| IbcHost.EpochHeightNeedsSeparator | src/ibc/mod.rs:325-343 | text without `-` fails with "Invalid revision number" or "Invalid revision height" |
| IbcHost.EpochHeightExample | src/ibc/mod.rs:879 | height 0 at revision height 100 is "0-100" |
| IbcHost.NoMinusInShow | src/ibc/mod.rs:315-323 | a printed number contains no `-`, so the separator is unambiguous |
| IbcHost.BinaryFromHeight | src/ibc/mod.rs:278-285 | the revision number and height as epoch and height (inverted by `BinaryHeightRoundTrip`) |
| IbcHost.HeightFromBinary | src/ibc/mod.rs:287-293 | a height built from a binary height always has a non-zero revision height |
| IbcHost.BinaryHeightRoundTrip | src/ibc/mod.rs:278-293 | `From<Height>` then `TryFrom` gives the height back when it is valid |
| IbcHost.BinaryHeightEncode | src/ibc/mod.rs:271-276 | a binary height encodes as seventeen bytes: the version byte 0, then the epoch and the height as big-endian `u64`s |
| IbcHost.BinaryHeightRoundTrip2 | src/ibc/mod.rs:271-276 | the version byte and the two big-endian `u64`s decode back to the binary height, leaving what follows |
| IbcHost.BinaryHeightWrongVersion | src/ibc/mod.rs:271-276 | bytes starting with any version other than 0 are refused with the derive's version error |
| IbcHost.BinaryHeightDecode | src/ibc/mod.rs:271-276 | a successful decode consumed exactly seventeen bytes starting with version 0, and they are the height's canonical encoding |
| IbcHost.BinaryHeightKeyOrder | src/ibc/mod.rs:271-276 | encoded binary heights sort by epoch, then by height |
| Bytes.EncodeBEOrder | src/ibc/mod.rs:271-276 | fixed-width big-endian encoding of the `u64` fields orders byte strings as the numbers |
| IbcHost.UpdateHeightExample | src/ibc/mod.rs:888-893 | the test client's update height `Height::new(0, 123)` encodes as the seventeen bytes that end its stored `updates` value |
| IbcHost.TimestampMigrate | src/ibc/mod.rs:192-204 | empty input panics at `bytes[0]`; version 1 is dropped before loading; any other version is refused (cases in `TimestampMigrateCases`) |
| IbcHost.TimestampMigrateCases | src/ibc/mod.rs:192-204 | version byte 1 is dropped and exactly the rest is loaded; any other first byte fails with "Invalid timestamp version: " followed by that byte in decimal |
| IbcHost.Signer | src/ibc/mod.rs:147-153 | succeeds if and only if there is a signer context holding a signer, which it returns; otherwise "No Signer context available" or "Call must be signed" |
| IbcHost.DeliverMessageSpec | src/ibc/mod.rs:138-145 | succeeds if and only if the handler reports no failure; on success it returns the transfer the handler left pending and clears it, leaving the rest of the handler's host; on failure the error is the handler's text as `Error::Ibc` and the handler's host stays as it left it |
| IbcHost.DeliverOne | src/ibc/mod.rs:111-121 | delivering one accepted message returns exactly the transfer the handler left pending (none or one) |
| IbcHost.DeliverAll | src/ibc/mod.rs:111-121 | a successful delivery returns at most one transfer info per message and leaves no pending transfer |
| IbcHost.DeliverAppend | src/ibc/mod.rs:111-121 | delivering `a ++ b` is delivering `a` and then, unless it failed, `b`, with the infos kept in message order |
| IbcHost.DeliverStopsAtFailure | src/ibc/mod.rs:111-121 | the first failing message ends delivery with its error, and later messages are not handled |
| IbcHost.RawTransferSpec | src/ibc/mod.rs:123-136 | parse the sender, check the signer, then deliver the transfer (properties in `RawTransferNeedsSender`) |
| IbcHost.RawTransferNeedsSender | src/ibc/mod.rs:123-136 | a transfer goes through only when signed by its sender; otherwise nothing changes, and a different signer is "Transfers must be signed by the sender" |
| IbcHost.RawTransferSignedDelivers | src/ibc/mod.rs:123-136 | a transfer signed by its sender is delivered: the host is the delivery's, it succeeds exactly when the delivery does, and a failed delivery's error is passed on |
| IbcHost.IbcState.DeliverMessage | src/ibc/mod.rs:138-145 | the in-place entry point leaves the state and result `DeliverMessageSpec` prescribes |
| IbcHost.IbcState.Deliver | src/ibc/mod.rs:111-121 | a conversion failure changes nothing; otherwise the loop leaves the state and result `DeliverAll` prescribes |
| IbcHost.IbcState.RawTransfer | src/ibc/mod.rs:123-136 | the in-place entry point leaves the state and result `RawTransferSpec` prescribes |
| Staking.InfoEncodeTruncating | src/coins/staking/validator.rs:43-56 | as written, the encoding is `encoding_length` bytes, the payload after a two-byte prefix |
| Staking.InfoEncode | src/coins/staking/validator.rs:43-56 | the corrected encoder succeeds if and only if the payload is shorter than 2^16 bytes, with the as-written bytes; otherwise `Overflow` |
| Staking.InfoDecode | src/coins/staking/validator.rs:60-68 | fails (I/O `UnexpectedEof`) if and only if the input is shorter than the prefix or than the length it announces; on success it consumes exactly `encoding_length` bytes |
| Staking.InfoRoundTrip | src/coins/staking/validator.rs:43-68 | every encodable info decodes back to itself, leaving what follows |
| Staking.InfoDecodeCanonical | src/coins/staking/validator.rs:43-68 | what is decoded re-encodes to exactly the bytes consumed |
| Staking.TruncatedLengthMisread | src/coins/staking/validator.rs:49 | a 65536-byte info written by the truncating encoder decodes as an empty info, leaving the whole payload unread |
| Staking.InfoCreate | src/coins/staking/validator.rs:73-75 | `create` returns its data |
| Staking.InfoFlush | src/coins/staking/validator.rs:77-79 | `flush` returns the info |
| Staking.InfoStateRoundTrip | src/coins/staking/validator.rs:70-80 | `create` returns its data and `flush` returns the info unchanged, in both orders |
| Staking.Keys | src/coins/staking/validator.rs:135-147 | succeeds if and only if no pool entry is an error, with every address in iteration order; otherwise the error of an entry with no error before it |
| Staking.KeysStopAtError | src/coins/staking/validator.rs:138-143 | once a prefix of the pool fails, the whole pool fails the same way |
| Staking.SumSlashable | src/coins/staking/validator.rs:122-131 | the sum succeeds if and only if every delegator's slashable balance does, and is then the total of those balances (so it bounds each of them); otherwise it is one delegator's error |
| Staking.SlashableTotalLast | src/coins/staking/validator.rs:122-131 | adding the balances in iteration order gives the total taken from the first delegator on |
| Staking.SumStopsAtError | src/coins/staking/validator.rs:125-130 | once a prefix of the delegators fails, the whole sum fails the same way |
| Staking.ToAmount | src/coins/staking/validator.rs:132 | a balance converts to an amount if and only if it fits in `u64` |
| Staking.SlashableBalanceOf | src/coins/staking/validator.rs:122-133 | `slashable_balance` succeeds if and only if every entry is a delegator with a slashable balance and their total fits a `u64` amount, and it is then exactly that total over the delegator keys |
| Staking.EmptyPoolSlashable | src/coins/staking/validator.rs:122-133 | an empty pool has slashable balance 0 |
| Staking.Validator.Balance | src/coins/staking/validator.rs:161-169 | a jailed validator, or one outside the active set, has balance 0; otherwise it is the delegators' balance |
| Staking.StakedAmount | src/coins/staking/validator.rs:99-106 | a jailed validator has staked 0; otherwise the pool balance, which must be readable and fit a `u64` amount |
| Staking.Validator.Staked | src/coins/staking/validator.rs:99-106 | returns the balance computed as if in the active set; the flag is put back, except that a failing pool balance leaves it raised; nothing else changes |
| Staking.Validator.DelegatorKeys | src/coins/staking/validator.rs:135-147 | the pushing loop computes `Keys` |
| Staking.Validator.SlashableBalance | src/coins/staking/validator.rs:122-133 | the summing loop computes `SlashableBalanceOf` |
| Staking.Validator.Slash | src/coins/staking/validator.rs:108-120 | the validator is jailed whatever happens next; the slashable-balance error or the delegator slashing error propagates, otherwise the amount is returned |
| Fees.Paid.Take | src/plugins/fee.rs:66 | taking succeeds if and only if the funds cover the amount, which is then deducted; otherwise the funds stay |
| Fees.GateSpec | src/plugins/fee.rs:57-72 | no context is "Minimum fee not paid"; an owed fee the funds cannot cover fails before the inner call and changes nothing; otherwise the inner call runs on the shared context with the owed fee (`MIN_FEE`, or nothing for the running payer or after `disable_fee`) already taken, and the context, inner state and result are what it leaves |
| Fees.FeePlugin.Call | src/plugins/fee.rs:57-72 | the in-place call leaves the context, inner state and result `GateSpec` prescribes, including whatever the inner call did to the shared context |
| Fees.FeePlugin.Query | src/plugins/fee.rs:49-55 | a query goes to the inner state unchanged |
| Fees.DisableFee | src/plugins/fee.rs:74-78 | sets `fee_disabled` on the context when there is one, and nothing else |
| Fees.FeeTakenOnce | src/plugins/fee.rs:65-70 | a gated call succeeds if and only if the owed fee is covered and the inner call, run on the context less that fee, succeeds; the inner state is what that one inner call leaves |
| Fees.OnlyTheFeeIsTaken | src/plugins/fee.rs:65-70 | when the inner call leaves the context as it found it, exactly the owed fee has left the funds and nothing else in the context changed |
| Fees.DisabledCallsAreFree | src/plugins/fee.rs:65-78 | after `disable_fee` the inner call receives the context untouched and the gated call is exactly that inner call |
| Fees.RefusedCallChangesNothing | src/plugins/fee.rs:61-68 | a call refused for want of a context or of funds fails and leaves the context and the inner state as they were |
| KvStore.Lookup | src/store/mod.rs:20-26 | `get` finds a value if and only if the key is present, and it is the stored one; an absent key is `None`, not an error |
| KvStore.NextEntry | src/store/mod.rs:28 | `get_next` is the entry with the least key strictly after the given key, and `None` if and only if no key lies after it |
| KvStore.PrevEntry | src/store/mod.rs:30 | `get_prev` is the entry with the greatest key strictly before the given key, and `None` if and only if no key lies before it |
| KvStore.NextThenPrev | src/store/mod.rs:28-30 | stepping forward and then back from a key lands on the key itself when it is stored, and otherwise on the entry before it |
| KvStore.PutOverwrites | src/store/mod.rs:57-61 | after `put(k, v)`, `get(k)` is `v` and every other key reads as before |
| KvStore.DeleteRemoves | src/store/mod.rs:63-68 | after `delete(k)`, `get(k)` is `None`, other keys read as before, and deleting an absent key changes nothing |
| KvStore.MapStore.Put | src/store/mod.rs:57-61 | stores the value under the key, replacing any earlier value, and succeeds |
| KvStore.MapStore.Delete | src/store/mod.rs:63-68 | removes the key if present and succeeds |
| KvStore.StoreRef.Get | src/store/mod.rs:38-43 | a read through the reference is the referenced store's read |
| KvStore.StoreRef.GetNext | src/store/mod.rs:44-48 | `get_next` through the reference is the referenced store's |
| KvStore.StoreRef.GetPrev | src/store/mod.rs:49-53 | `get_prev` through the reference is the referenced store's |
| KvStore.StoreRef.Put | src/store/mod.rs:71-76 | a write through the reference lands in the referenced store |
| KvStore.StoreRef.Delete | src/store/mod.rs:77-81 | a delete through the reference lands in the referenced store |
| StateWrapper.Create | src/state/wrapper.rs:17-19 | `create(store, ())` always succeeds and holds exactly the given store |
| StateWrapper.Flush | src/state/wrapper.rs:21-23 | `flush` always succeeds with the unit encoding |
| StateWrapper.Deref | src/state/wrapper.rs:33-38 | dereferencing yields the wrapped store |
| StateWrapper.IntoUnit | src/state/wrapper.rs:27-31 | a wrapper converts to `()` |
| StateWrapper.CreateFlush | src/state/wrapper.rs:12-31 | a created wrapper flushes to `()`, dereferences to its store and converts to `()` |
| StateWrapper.Get | src/state/wrapper.rs:33-38 | a read through the wrapper is a read of the wrapped store |
| StateWrapper.Put | src/state/wrapper.rs:40-44 | a write through the wrapper lands in the wrapped store |
| StateWrapper.Delete | src/state/wrapper.rs:40-44 | a delete through the wrapper lands in the wrapped store |
| StateWrapper.WrapThenWrite | src/state/wrapper.rs:51-60 | a fresh store wrapped, with a key absent, written through the wrapper, then reads the written value both through the wrapper and directly |

## Left out

- Target width: the whole model assumes a 64-bit target. `usize` holds values below 2^64 (`USIZE_LIMIT`, the array index bound in `Calls.Fits`, `index as usize` in the array call) and `isize::MAX` is 2^63 - 1. A 32-bit build would refuse or truncate earlier.
- Key order: store keys sort as the encoded values do only in part. Channels under one port keep their order (`IbcHost.ChannelKeyOrder`), and binary heights do as well (`IbcHost.BinaryHeightKeyOrder`). Ports do not (`IbcHost.PortKeyOrderBreaks`), nor do decimal sequence numbers (`IbcHost.SequenceKeyOrderBreaks`). The model records these counterexamples and promises no order for ports or sequences.
- `Rc<RefCell<T>>` and `RefCell<T>` pass-through `Call` impls: these concern interior mutability and borrow panics.
- The `BuildCall`/`CallBuilder` scaffolding and `Describe` impls: they are compile-time scaffolding and carry no runtime state.
- The derived `Call` enums of the tuple impls: `FieldK(sub)` is an index and a sub-call.
- The encoding of the derived call types themselves: their decoders are parameters of `MaybeCall`.
- Encoders are functions producing the bytes they write. Writer errors (I/O) are not modelled.
- `Calls.Dispatch`: a user object's `field_call`/`method_call` is a parameter. The model guarantees nothing about what it does to the object beyond keeping it an object.
- The `State`/`Migrate` impls whose bodies only encode or decode (`LengthVec` flush/load, the string types' `attach`/`flush`, `PortChannel(Sequence)::migrate`): they are modelled by the codecs they call.
- `Encoding.DecodeLengthVec`: the element size `size_of::<T>()` is a parameter; a reservation below `isize::MAX` bytes that the allocator cannot satisfy aborts the process, which depends on the machine and is not modelled.
- `EofTerminatedString` decode of bytes that are not UTF-8 fails with an I/O `InvalidData` error, following the code. `read_to_string` fails before `parse` is reached, so this is not `UnexpectedByte(4)`.
- `Timestamp` on empty input: `bytes[0]` panics. The model shows this as an `Err(Panic(..))` value.
- Protobuf newtype encodings, `Adapter<Timestamp>` and `Adapter<IbcSigner>` (borsh): these are foreign encoders.
- `ClientType`, `ConnectionPath`, `ClientConnectionPath`, `Sequence` and `Number` conversions: these are foreign types.
- The ibc crate's `dispatch` and `send_transfer` handlers, and the conversion of a raw transaction into messages: these are parameters.
- Identifier validation (`PortId::from_str`, `ChannelId::from_str`): the ibc crate's identifier rules are validity predicates supplied by the caller; the decoders and the accessors both apply them.
- `transfer.rs` is not part of this model. A transfer info is opaque bytes.
- `Height::new`: assumed to refuse a revision height of 0. The ibc crate is not part of this model.
- `Pool` internals and `get`, `get_mut`, `give`, `query_info`: not modelled. The pool is the sequence of entries its iterator yields, and the i-th key reaches the i-th delegator, so `get_mut` cannot fail separately.
- `Decimal` arithmetic: not modelled. Balances are non-negative integers, `Decimal::amount` is a range check into `u64`, and overflow of the running sum is not modelled.
- `Staking.Validator.Slash`: the slash multiplier and the slashing of each delegator (including a zero slashable balance) are one parameter. The model leaves the delegators unchanged.
- `Fees.Paid.Take`: `Paid` and its `take` come from `src/plugins/mod.rs`, which is not part of this model. Taking is assumed to fail, changing nothing, when the funds fall short.
- `IbcHost.BinaryHeightDecode`: the error the `#[orga]` derive returns for an unknown version byte is not visible in this source; it is a parameter.
- Inner calls and the payment context: what an inner call does to the shared context is reduced to the `PaidView` it hands back (the two flags and the funds in the plugin's coin); balances in other coins and other context types are not modelled.
- `FeePlugin`'s `MigrateFrom`, `ConvertSdkTx`, `Describe` and ABCI delegations: not modelled.
- The context registry is a nullable reference.
- `Deref`/`DerefMut` of `FeePlugin`: these are plain field access.
- `Read::range` and `Iter::next`: they are `todo!()` in the source.
- `get_next`/`get_prev` are stated as strictly after/before the key, as their use for iteration requires.
- The `Store<S>` handle, its prefixing, and the concrete backing stores: not part of this model. `MapStore` stands in for any store whose reads cannot fail.
- `StateWrapper`: the `S: Write` bound on `DerefMut` is a type-level restriction. The model shows only writes through a writable store.
- The read-only wrapper test (src/state/wrapper.rs:63-72) is commented out and not modelled.
- src/tendermint/client.rs, src/plugins/ibc.rs, src/ibc/channel.rs, src/ibc/grpc/connection.rs and examples/app/main.rs are not part of this model. They are async I/O, RPC clients, foreign calls or `todo!()`.
- Raw store: the `store` field at the empty absolute prefix (src/ibc/mod.rs:100-101) is not a `Table`; it can address every key, including those of the nine maps, so `KeyDeterminesEntry` speaks only about the nine maps.
- ByteTerminatedEncode: models the release build; the debug assertion that the text does not contain the terminator (src/encoding.rs:172-174) is not modelled, and `ByteTerminatedRoundTrip` states exactly when such text fails to round-trip.

## Findings

| source | as written | input that shows it | evidently intended | confidence | as-written member | corrected member |
|---|---|---|---|---|---|---|
| src/encoding.rs:242-244 | `EofTerminatedString::encoding_length` returns the text length plus one, although `encode_into` writes no terminator | `EofTerminatedString(1234)`: four bytes written, `encoding_length` 5 | the text length | not executed | Encoding.EofEncodingLengthOverstates | Encoding.EofEncodingLengthCorrected |
| src/coins/staking/validator.rs:49 | the payload length is written `as u16`, which silently keeps the low 16 bits | a `ValidatorInfo` of 65536 bytes: the prefix reads 0, so decoding yields an empty info and leaves the payload unread | refuse a payload of 2^16 bytes or more instead of writing a wrong prefix | not executed | Staking.TruncatedLengthMisread | Staking.InfoEncode |
| src/encoding.rs:69 | `Vec::with_capacity(len_usize)` reserves the count read from the input before any element is decoded, and panics with "capacity overflow" when that is more than `isize::MAX` bytes (`src/encoding.rs:110` in `load` likewise) | the `u64` count `80 00 00 00 00 00 00 00` for a vector of one-byte elements, with nothing after it | a short or malformed input reports a decode error, such as the missing element's `UnexpectedEof` | not executed | Encoding.CapacityOverflowExample | Encoding.LengthVecDecodeNeverPanics |
