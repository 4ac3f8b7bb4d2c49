/**
 * The IBC host state of `src/ibc/mod.rs`: the store keys built from
 * ports, channels and sequences (the path space of ICS 24, Host State
 * Machine Requirements), the textual and binary heights, the timestamp
 * migration, and the message entry points `deliver`, `deliver_message`,
 * `raw_transfer` and `signer`.
 *
 * The ibc crate's handlers (`dispatch`, `send_transfer`), the conversion
 * of raw transactions into messages, and the parsing of sender addresses
 * are parameters.  Identifiers are UTF-8 byte strings; the identifier
 * rules of the ibc crate (`PortId` and `ChannelId` parsing) are validity
 * predicates supplied by the caller, applied both when a key is decoded
 * and by its accessors.
 */
module IbcHost {
  import opened Results
  import opened Bytes
  import opened Encoding

  // ---------------------------------------------------------------------
  // Literal path segments

  const PORTS: seq<byte> := [112, 111, 114, 116, 115, 47]                        // "ports/"
  const CHANNELS: seq<byte> := [99, 104, 97, 110, 110, 101, 108, 115, 47]         // "channels/"
  const SEQUENCES: seq<byte> := [115, 101, 113, 117, 101, 110, 99, 101, 115, 47]  // "sequences/"

  // ---------------------------------------------------------------------
  // PortChannel: FixedString<"ports/">, SlashTerminatedString<PortId>,
  //              FixedString<"channels/">, EofTerminatedString<ChannelId>

  datatype PortChannel = PortChannel(port: seq<byte>, channel: seq<byte>)

  function PortChannelEncode(pc: PortChannel): seq<byte>
  {
    FixedEncode(PORTS) + ByteTerminatedEncode(SLASH, Str(pc.port))
      + FixedEncode(CHANNELS) + EofEncode(Str(pc.channel))
  }

  /**
   * The derived `Decode`, which is also `PortChannel::migrate`.  The
   * port and channel are parsed into the ibc crate's `PortId` and
   * `ChannelId`; `validPort` and `validChannel` are those types' rules.
   */
  function PortChannelDecode(validPort: seq<byte> -> bool, validChannel: seq<byte> -> bool,
                             input: seq<byte>): (r: Result<Decoded<PortChannel>>)
    ensures r.Ok? ==> validPort(r.value.value.port) && validChannel(r.value.value.channel) && r.value.rest == []
    ensures r.Ok? ==> SLASH !in r.value.value.port
  {
    var h :- PortHeadDecode(validPort, input);
    var c :- EofDecode(StringKind, h.rest);
    var channel :- Identifier(validChannel, c.value);
    Ok(Decoded(PortChannel(h.value, channel), c.rest))
  }

  /** The `parse` into an identifier type: a rejected identifier is `UnexpectedByte(4)`. */
  function Identifier(valid: seq<byte> -> bool, t: Text): (r: Result<seq<byte>>)
    ensures r.Ok? <==> valid(ToText(t))
    ensures r.Ok? ==> r.value == ToText(t)
    ensures r.Err? ==> r.error == UnexpectedByte(4)
  {
    if valid(ToText(t)) then Ok(ToText(t)) else Err(UnexpectedByte(4))
  }

  /** The fields both keys start with: `ports/`, the port up to its `/`, and `channels/`. */
  function PortHeadDecode(validPort: seq<byte> -> bool, input: seq<byte>): (r: Result<Decoded<seq<byte>>>)
    ensures r.Ok? ==> validPort(r.value.value) && SLASH !in r.value.value
  {
    var a :- FixedDecode(PORTS, input);
    var p :- ByteTerminatedDecode(SLASH, StringKind, a.rest);
    var port :- Identifier(validPort, p.value);
    var b :- FixedDecode(CHANNELS, p.rest);
    Ok(Decoded(port, b.rest))
  }

  function PortHeadEncode(port: seq<byte>): seq<byte>
  {
    FixedEncode(PORTS) + ByteTerminatedEncode(SLASH, Str(port)) + FixedEncode(CHANNELS)
  }

  /**
   * "ports/", a port free of `/` and its `/`, and "channels/" decode back
   * to the port, leaving what follows, exactly when the port is a valid
   * `PortId`; otherwise the decode fails with `UnexpectedByte(4)`.
   */
  lemma PortHeadRoundTrip(validPort: seq<byte> -> bool, port: seq<byte>, rest: seq<byte>)
    requires ValidUtf8(port) && SLASH !in port
    ensures validPort(port) ==> PortHeadDecode(validPort, PortHeadEncode(port) + rest) == Ok(Decoded(port, rest))
    ensures !validPort(port) ==> PortHeadDecode(validPort, PortHeadEncode(port) + rest) == Err(UnexpectedByte(4))
  {
    var afterPort := FixedEncode(CHANNELS) + rest;
    var afterPorts := ByteTerminatedEncode(SLASH, Str(port)) + afterPort;
    assert PortHeadEncode(port) + rest == FixedEncode(PORTS) + afterPorts;
    assert FixedDecode(PORTS, PortHeadEncode(port) + rest) == Ok(Decoded((), afterPorts)) by {
      FixedRoundTrip(PORTS, afterPorts);
    }
    assert ByteTerminatedDecode(SLASH, StringKind, afterPorts) == Ok(Decoded(Str(port), afterPort)) by {
      ByteTerminatedRoundTrip(SLASH, Str(port), afterPort);
    }
    assert FixedDecode(CHANNELS, afterPort) == Ok(Decoded((), rest)) by {
      FixedRoundTrip(CHANNELS, rest);
    }
  }

  /** The key reads `ports/{port}/channels/{channel}`. */
  lemma PortChannelLayout(pc: PortChannel)
    ensures PortChannelEncode(pc) == PORTS + pc.port + [SLASH] + CHANNELS + pc.channel
  {
  }

  /**
   * Decoding a key gives back the same identifiers exactly when the port
   * contains no `/` (the channel, read to the end, may hold anything) and
   * both identifiers pass their types' rules.
   */
  lemma PortChannelRoundTrip(validPort: seq<byte> -> bool, validChannel: seq<byte> -> bool, pc: PortChannel)
    requires ValidUtf8(pc.port) && ValidUtf8(pc.channel)
    ensures PortChannelDecode(validPort, validChannel, PortChannelEncode(pc)) == Ok(Decoded(pc, []))
      <==> SLASH !in pc.port && validPort(pc.port) && validChannel(pc.channel)
  {
    if SLASH !in pc.port {
      PortChannelRoundTripClean(validPort, validChannel, pc);
    } else {
      PortChannelRoundTripSlash(validPort, validChannel, pc);
    }
  }

  /** A port free of `/` round-trips unless an identifier is rejected, which is `UnexpectedByte(4)`. */
  lemma PortChannelRoundTripClean(validPort: seq<byte> -> bool, validChannel: seq<byte> -> bool, pc: PortChannel)
    requires ValidUtf8(pc.port) && ValidUtf8(pc.channel) && SLASH !in pc.port
    ensures validPort(pc.port) && validChannel(pc.channel)
      ==> PortChannelDecode(validPort, validChannel, PortChannelEncode(pc)) == Ok(Decoded(pc, []))
    ensures !(validPort(pc.port) && validChannel(pc.channel))
      ==> PortChannelDecode(validPort, validChannel, PortChannelEncode(pc)) == Err(UnexpectedByte(4))
  {
    var channel := EofEncode(Str(pc.channel));
    assert PortChannelEncode(pc) == PortHeadEncode(pc.port) + channel;
    PortHeadRoundTrip(validPort, pc.port, channel);
    assert EofDecode(StringKind, channel) == Ok(Decoded(Str(pc.channel), [])) by {
      EofRoundTrip(Str(pc.channel));
    }
  }

  lemma PortChannelRoundTripSlash(validPort: seq<byte> -> bool, validChannel: seq<byte> -> bool, pc: PortChannel)
    requires SLASH in pc.port
    ensures PortChannelDecode(validPort, validChannel, PortChannelEncode(pc)) != Ok(Decoded(pc, []))
  {
    var afterPort := FixedEncode(CHANNELS) + EofEncode(Str(pc.channel));
    var afterPorts := pc.port + [SLASH] + afterPort;
    assert PortChannelEncode(pc) == FixedEncode(PORTS) + afterPorts;
    assert FixedDecode(PORTS, PortChannelEncode(pc)) == Ok(Decoded((), afterPorts)) by {
      FixedRoundTrip(PORTS, afterPorts);
    }
    PortStopsAtSlash(pc.port, afterPort);
  }

  /** A port with a `/` in it is cut short at that `/` when read back. */
  lemma PortStopsAtSlash(port: seq<byte>, rest: seq<byte>)
    requires SLASH in port
    ensures var d := ByteTerminatedDecode(SLASH, StringKind, port + [SLASH] + rest);
      d.Ok? ==> |ToText(d.value.value)| < |port|
  {
    var input := port + [SLASH] + rest;
    var i := FirstIndexOf(SLASH, input);
    var j :| 0 <= j < |port| && port[j] == SLASH;
    assert input[j] == SLASH;
    assert i <= j;
  }

  /**
   * A decoded key holds identifiers its accessors accept: `port_id` and
   * `channel_id` cannot fail on it, so `with_sequence` succeeds.
   */
  lemma DecodedKeyIsValid(validPort: seq<byte> -> bool, validChannel: seq<byte> -> bool, input: seq<byte>, sequence: u64)
    requires PortChannelDecode(validPort, validChannel, input).Ok?
    ensures var pc := PortChannelDecode(validPort, validChannel, input).value.value;
      PortId(validPort, pc.port) == Ok(pc.port) && ChannelId(validChannel, pc.channel) == Ok(pc.channel)
      && WithSequence(validPort, validChannel, pc, sequence) == Ok(PortChannelSequence(pc.port, pc.channel, sequence))
  {
  }

  /** Channel keys under one port sort as their channels do. */
  lemma ChannelKeyOrder(port: seq<byte>, c1: seq<byte>, c2: seq<byte>)
    ensures LexLess(PortChannelEncode(PortChannel(port, c1)), PortChannelEncode(PortChannel(port, c2)))
      <==> LexLess(c1, c2)
  {
    PortChannelLayout(PortChannel(port, c1));
    PortChannelLayout(PortChannel(port, c2));
    LexLessCommonPrefix(PORTS + port + [SLASH] + CHANNELS, c1, c2);
  }

  /**
   * Ports do not keep their order in keys: the terminating `/` is compared
   * with the next byte of a longer port, so "a-" (`-` is below `/`) sorts
   * before "a" although "a" is a prefix of "a-".
   */
  lemma PortKeyOrderBreaks(channel: seq<byte>)
    ensures LexLess([97], [97, 45])
    ensures LexLess(PortChannelEncode(PortChannel([97, 45], channel)), PortChannelEncode(PortChannel([97], channel)))
  {
    var k1 := PortChannelEncode(PortChannel([97, 45], channel));
    var k2 := PortChannelEncode(PortChannel([97], channel));
    PortChannelLayout(PortChannel([97, 45], channel));
    PortChannelLayout(PortChannel([97], channel));
    assert k1 == (PORTS + [97]) + ([45, SLASH] + CHANNELS + channel);
    assert k2 == (PORTS + [97]) + ([SLASH] + CHANNELS + channel);
    LexLessCommonPrefix(PORTS + [97], [45, SLASH] + CHANNELS + channel, [SLASH] + CHANNELS + channel);
  }

  // ---------------------------------------------------------------------
  // PortChannelSequence: … SlashTerminatedString<ChannelId>,
  //                      FixedString<"sequences/">, EofTerminatedString<Sequence>

  datatype PortChannelSequence = PortChannelSequence(port: seq<byte>, channel: seq<byte>, sequence: u64)

  function PortChannelSequenceEncode(pcs: PortChannelSequence): seq<byte>
  {
    FixedEncode(PORTS) + ByteTerminatedEncode(SLASH, Str(pcs.port))
      + FixedEncode(CHANNELS) + ByteTerminatedEncode(SLASH, Str(pcs.channel))
      + FixedEncode(SEQUENCES) + EofEncode(Num(pcs.sequence))
  }

  /** The derived `Decode`, which is also `PortChannelSequence::migrate`. */
  function PortChannelSequenceDecode(validPort: seq<byte> -> bool, validChannel: seq<byte> -> bool,
                                     input: seq<byte>): (r: Result<Decoded<PortChannelSequence>>)
    ensures r.Ok? ==> validPort(r.value.value.port) && validChannel(r.value.value.channel) && r.value.rest == []
    ensures r.Ok? ==> SLASH !in r.value.value.port && SLASH !in r.value.value.channel
  {
    var h :- PortHeadDecode(validPort, input);
    var t :- ChannelSequenceDecode(validChannel, h.rest);
    Ok(Decoded(PortChannelSequence(h.value, t.value.0, t.value.1), t.rest))
  }

  /** The fields after `channels/`: the channel, `sequences/` and the sequence number. */
  function ChannelSequenceDecode(validChannel: seq<byte> -> bool, input: seq<byte>): (r: Result<Decoded<(seq<byte>, u64)>>)
    ensures r.Ok? ==> validChannel(r.value.value.0) && SLASH !in r.value.value.0 && r.value.rest == []
  {
    var c :- ByteTerminatedDecode(SLASH, StringKind, input);
    var channel :- Identifier(validChannel, c.value);
    var d :- FixedDecode(SEQUENCES, c.rest);
    var s :- EofDecode(U64Kind, d.rest);
    Ok(Decoded((channel, ParsedNumber(s.value)), s.rest))
  }

  /** The number a `U64Kind` text holds (every `U64Kind` parse yields `Num`). */
  function ParsedNumber(t: Text): u64
  {
    if t.Num? then t.n else 0
  }

  /**
   * Identifiers free of `/` come back from a sequence key unchanged when
   * both pass their types' rules; a rejected one is `UnexpectedByte(4)`.
   */
  lemma PortChannelSequenceRoundTrip(validPort: seq<byte> -> bool, validChannel: seq<byte> -> bool,
                                     pcs: PortChannelSequence)
    requires ValidUtf8(pcs.port) && ValidUtf8(pcs.channel)
    requires SLASH !in pcs.port && SLASH !in pcs.channel
    ensures validPort(pcs.port) && validChannel(pcs.channel)
      ==> PortChannelSequenceDecode(validPort, validChannel, PortChannelSequenceEncode(pcs)) == Ok(Decoded(pcs, []))
    ensures !(validPort(pcs.port) && validChannel(pcs.channel))
      ==> PortChannelSequenceDecode(validPort, validChannel, PortChannelSequenceEncode(pcs)) == Err(UnexpectedByte(4))
  {
    var tail := ByteTerminatedEncode(SLASH, Str(pcs.channel)) + FixedEncode(SEQUENCES) + EofEncode(Num(pcs.sequence));
    assert PortChannelSequenceEncode(pcs) == PortHeadEncode(pcs.port) + tail;
    PortHeadRoundTrip(validPort, pcs.port, tail);
    ChannelSequenceRoundTrip(validChannel, pcs.channel, pcs.sequence);
  }

  lemma ChannelSequenceRoundTrip(validChannel: seq<byte> -> bool, channel: seq<byte>, sequence: u64)
    requires ValidUtf8(channel) && SLASH !in channel
    ensures validChannel(channel) ==> ChannelSequenceDecode(validChannel, ByteTerminatedEncode(SLASH, Str(channel))
      + FixedEncode(SEQUENCES) + EofEncode(Num(sequence))) == Ok(Decoded((channel, sequence), []))
    ensures !validChannel(channel) ==> ChannelSequenceDecode(validChannel, ByteTerminatedEncode(SLASH, Str(channel))
      + FixedEncode(SEQUENCES) + EofEncode(Num(sequence))) == Err(UnexpectedByte(4))
  {
    var tail := FixedEncode(SEQUENCES) + EofEncode(Num(sequence));
    assert ByteTerminatedEncode(SLASH, Str(channel)) + FixedEncode(SEQUENCES) + EofEncode(Num(sequence))
      == ByteTerminatedEncode(SLASH, Str(channel)) + tail;
    assert ByteTerminatedDecode(SLASH, StringKind, ByteTerminatedEncode(SLASH, Str(channel)) + tail)
      == Ok(Decoded(Str(channel), tail)) by {
      ByteTerminatedRoundTrip(SLASH, Str(channel), tail);
    }
    assert FixedDecode(SEQUENCES, tail) == Ok(Decoded((), EofEncode(Num(sequence)))) by {
      FixedRoundTrip(SEQUENCES, EofEncode(Num(sequence)));
    }
    assert EofDecode(U64Kind, EofEncode(Num(sequence))) == Ok(Decoded(Num(sequence), [])) by {
      EofRoundTrip(Num(sequence));
    }
  }

  /** A sequence key is its channel's key followed by `/sequences/{seq}`. */
  lemma SequenceKeyExtendsChannelKey(pc: PortChannel, sequence: u64)
    ensures PortChannelSequenceEncode(PortChannelSequence(pc.port, pc.channel, sequence))
      == PortChannelEncode(pc) + [SLASH] + SEQUENCES + ShowNat(sequence)
  {
  }

  /**
   * Sequence keys do not sort as their sequence numbers: the decimal
   * segment puts sequence 10 ("10") before sequence 9 ("9").
   */
  lemma SequenceKeyOrderBreaks(pc: PortChannel)
    ensures LexLess(PortChannelSequenceEncode(PortChannelSequence(pc.port, pc.channel, 10)),
                    PortChannelSequenceEncode(PortChannelSequence(pc.port, pc.channel, 9)))
  {
    SequenceKeyExtendsChannelKey(pc, 10);
    SequenceKeyExtendsChannelKey(pc, 9);
    assert ShowNat(10) == [49, 48] && ShowNat(9) == [57];
    LexLessCommonPrefix(PortChannelEncode(pc) + [SLASH] + SEQUENCES, ShowNat(10), ShowNat(9));
  }

  // ---------------------------------------------------------------------
  // Accessors: `port_id`, `channel_id`, `sequence`, `with_sequence`

  /** `to_string().parse()` into a `PortId`; `valid` is the ibc crate's identifier rule. */
  function PortId(valid: seq<byte> -> bool, port: seq<byte>): (r: Result<seq<byte>>)
    ensures r.Ok? <==> valid(port)
    ensures r.Ok? ==> r.value == port
    ensures r.Err? ==> r.error == Ibc("Invalid port ID")
  {
    if valid(port) then Ok(port) else Err(Ibc("Invalid port ID"))
  }

  /** `to_string().parse()` into a `ChannelId`. */
  function ChannelId(valid: seq<byte> -> bool, channel: seq<byte>): (r: Result<seq<byte>>)
    ensures r.Ok? <==> valid(channel)
    ensures r.Ok? ==> r.value == channel
    ensures r.Err? ==> r.error == Ibc("Invalid channel ID")
  {
    if valid(channel) then Ok(channel) else Err(Ibc("Invalid channel ID"))
  }

  /** `PortChannelSequence::sequence`: the stored number printed and parsed again. */
  function Sequence(pcs: PortChannelSequence): Result<u64>
  {
    match ParseU64(ShowNat(pcs.sequence))
    case None => Err(Ibc("Invalid sequence"))
    case Some(n) => Ok(n)
  }

  /** Printing and parsing a sequence number never fails and never changes it. */
  lemma SequenceAccessor(pcs: PortChannelSequence)
    ensures Sequence(pcs) == Ok(pcs.sequence)
  {
    ParseShowU64(pcs.sequence);
  }

  /** `PortChannel::with_sequence`: both identifiers re-parsed, then the sequence added. */
  function WithSequence(validPort: seq<byte> -> bool, validChannel: seq<byte> -> bool,
                        pc: PortChannel, sequence: u64): (r: Result<PortChannelSequence>)
    ensures r.Ok? <==> validPort(pc.port) && validChannel(pc.channel)
    ensures r.Ok? ==> r.value == PortChannelSequence(pc.port, pc.channel, sequence)
    ensures !validPort(pc.port) ==> r == Err(Ibc("Invalid port ID"))
  {
    var port :- PortId(validPort, pc.port);
    var channel :- ChannelId(validChannel, pc.channel);
    Ok(PortChannelSequence(port, channel, sequence))
  }

  // ---------------------------------------------------------------------
  // Store layout: each map of `Ibc` lives under its absolute prefix

  datatype Table =
    | Clients | Connections | ChannelEnds
    | NextSequenceSend | NextSequenceRecv | NextSequenceAck
    | Commitments | Receipts | Acks

  /** The table's name; its prefix is the name followed by `/`. */
  function Name(t: Table): seq<byte>
  {
    match t
    case Clients => [99, 108, 105, 101, 110, 116, 115]                                                    // "clients"
    case Connections => [99, 111, 110, 110, 101, 99, 116, 105, 111, 110, 115]                             // "connections"
    case ChannelEnds => [99, 104, 97, 110, 110, 101, 108, 69, 110, 100, 115]                              // "channelEnds"
    case NextSequenceSend => [110, 101, 120, 116, 83, 101, 113, 117, 101, 110, 99, 101, 83, 101, 110, 100] // "nextSequenceSend"
    case NextSequenceRecv => [110, 101, 120, 116, 83, 101, 113, 117, 101, 110, 99, 101, 82, 101, 99, 118] // "nextSequenceRecv"
    case NextSequenceAck => [110, 101, 120, 116, 83, 101, 113, 117, 101, 110, 99, 101, 65, 99, 107]        // "nextSequenceAck"
    case Commitments => [99, 111, 109, 109, 105, 116, 109, 101, 110, 116, 115]                            // "commitments"
    case Receipts => [114, 101, 99, 101, 105, 112, 116, 115]                                              // "receipts"
    case Acks => [97, 99, 107, 115]                                                                       // "acks"
  }

  /** The `absolute_prefix` of the table's map. */
  function Prefix(t: Table): seq<byte>
  {
    Name(t) + [SLASH]
  }

  /** The store key of an entry: the table's prefix, then the encoded map key. */
  function TableKey(t: Table, key: seq<byte>): seq<byte>
  {
    Prefix(t) + key
  }

  /** No table name contains `/`. */
  lemma NameWithoutSlash(t: Table)
    ensures SLASH !in Name(t)
  {
  }

  lemma NameInjective(a: Table, b: Table)
    requires Name(a) == Name(b)
    ensures a == b
  {
  }

  /** In a key that starts with a prefix, the first `/` is the one closing the prefix. */
  lemma FirstSlashClosesPrefix(t: Table, k: seq<byte>)
    ensures FirstIndexOf(SLASH, TableKey(t, k)) == |Prefix(t)| - 1
  {
    var name := Name(t);
    NameWithoutSlash(t);
    assert TableKey(t, k) == name + [SLASH] + k;
    assert (name + [SLASH] + k)[..|name|] == name;
    FirstIndexUnique(SLASH, name + [SLASH] + k, |name|);
  }

  /**
   * A store key determines its table and the map key within it, so
   * entries of two different maps never share a store key.  (The raw
   * store at the empty prefix can still address any of these keys.)
   */
  lemma KeyDeterminesEntry(a: Table, b: Table, k1: seq<byte>, k2: seq<byte>)
    ensures TableKey(a, k1) == TableKey(b, k2) ==> a == b && k1 == k2
  {
    if TableKey(a, k1) == TableKey(b, k2) {
      FirstSlashClosesPrefix(a, k1);
      FirstSlashClosesPrefix(b, k2);
      var pa, pb := Prefix(a), Prefix(b);
      assert |pa| == |pb|;
      assert pa == (pa + k1)[..|pa|] == (pb + k2)[..|pb|] == pb;
      assert Name(a) == pa[..|pa| - 1] == pb[..|pb| - 1] == Name(b);
      NameInjective(a, b);
      assert k1 == (pa + k1)[|pa|..] == (pb + k2)[|pb|..] == k2;
    }
  }

  /** Within one table, store keys are ordered as the encoded map keys are. */
  lemma TableKeyOrder(t: Table, k1: seq<byte>, k2: seq<byte>)
    ensures LexLess(TableKey(t, k1), TableKey(t, k2)) <==> LexLess(k1, k2)
  {
    LexLessCommonPrefix(Prefix(t), k1, k2);
  }

  // Test vectors: port "transfer", channel "channel-123".

  const TRANSFER: seq<byte> := [116, 114, 97, 110, 115, 102, 101, 114]              // "transfer"
  const CHANNEL_123: seq<byte> := [99, 104, 97, 110, 110, 101, 108, 45, 49, 50, 51]  // "channel-123"

  /** "channelEnds/ports/transfer/channels/channel-123" */
  const CHANNEL_END_KEY: seq<byte> := Prefix(ChannelEnds) + PORT_CHANNEL_KEY

  /** "nextSequenceSend/ports/transfer/channels/channel-123" */
  const NEXT_SEQUENCE_SEND_KEY: seq<byte> := Prefix(NextSequenceSend) + PORT_CHANNEL_KEY

  /** "commitments/ports/transfer/channels/channel-123/sequences/1" */
  const COMMITMENT_KEY: seq<byte> := Prefix(Commitments) + PORT_CHANNEL_KEY + [SLASH] + SEQUENCES + [49]

  /** "ports/transfer/channels/channel-123" */
  const PORT_CHANNEL_KEY: seq<byte> :=
    [112, 111, 114, 116, 115, 47, 116, 114, 97, 110, 115, 102, 101, 114, 47, 99, 104, 97, 110, 110, 101, 108,
     115, 47, 99, 104, 97, 110, 110, 101, 108, 45, 49, 50, 51]

  lemma PortChannelKeyExample()
    ensures PortChannelEncode(PortChannel(TRANSFER, CHANNEL_123)) == PORT_CHANNEL_KEY
  {
    PortChannelLayout(PortChannel(TRANSFER, CHANNEL_123));
  }

  lemma ChannelEndKeyExample()
    ensures TableKey(ChannelEnds, PortChannelEncode(PortChannel(TRANSFER, CHANNEL_123))) == CHANNEL_END_KEY
  {
    PortChannelKeyExample();
  }

  lemma NextSequenceSendKeyExample()
    ensures TableKey(NextSequenceSend, PortChannelEncode(PortChannel(TRANSFER, CHANNEL_123))) == NEXT_SEQUENCE_SEND_KEY
  {
    PortChannelKeyExample();
  }

  /** The sequence-1 commitment key, and the stored `Number` 1 as the single byte "1". */
  lemma CommitmentKeyExample()
    ensures TableKey(Commitments, PortChannelSequenceEncode(PortChannelSequence(TRANSFER, CHANNEL_123, 1))) == COMMITMENT_KEY
    ensures EofEncode(Num(1)) == [49]
  {
    assert ShowNat(1) == [49];
    SequenceKeyExtendsChannelKey(PortChannel(TRANSFER, CHANNEL_123), 1);
    PortChannelKeyExample();
    assert PortChannelSequenceEncode(PortChannelSequence(TRANSFER, CHANNEL_123, 1))
      == PORT_CHANNEL_KEY + [SLASH] + SEQUENCES + [49];
  }

  // ---------------------------------------------------------------------
  // Heights

  /** The ibc crate's `Height`; `Height::new` refuses a revision height of 0. */
  datatype Height = Height(revisionNumber: u64, revisionHeight: u64)

  predicate ValidHeight(h: Height) { h.revisionHeight > 0 }

  /** `From<Height> for EpochHeight`: `"{revision_number}-{revision_height}"`. */
  function EpochFromHeight(h: Height): seq<byte>
  {
    ShowNat(h.revisionNumber) + [MINUS] + ShowNat(h.revisionHeight)
  }

  /**
   * `TryFrom<EpochHeight> for Height`: split on `-`, parse the first two
   * parts as `u64`, ignore the rest, and build the height.
   */
  function HeightFromEpoch(s: seq<byte>): (r: Result<Height>)
    ensures r.Ok? ==> ValidHeight(r.value)
  {
    var i := FirstIndexOf(MINUS, s);
    match ParseU64(s[..i])
    case None => Err(Ibc("Invalid revision number"))
    case Some(number) =>
      if i == |s| then Err(Ibc("Invalid revision height"))
      else
        var tail := s[i + 1..];
        match ParseU64(tail[..FirstIndexOf(MINUS, tail)])
        case None => Err(Ibc("Invalid revision height"))
        case Some(height) =>
          if height == 0 then Err(Ibc("Failed to parse height"))
          else Ok(Height(number, height))
  }

  lemma NoMinusInShow(n: nat)
    ensures MINUS !in ShowNat(n)
  {
    ShowNatIsAscii(n);
  }

  /** Any trailing `-…` parts after the height are ignored. */
  lemma EpochHeightExtraParts(h: Height, extra: seq<byte>)
    ensures HeightFromEpoch(EpochFromHeight(h) + [MINUS] + extra)
      == if ValidHeight(h) then Ok(h) else Err(Ibc("Failed to parse height"))
  {
    var num, hgt := ShowNat(h.revisionNumber), ShowNat(h.revisionHeight);
    var s := EpochFromHeight(h) + [MINUS] + extra;
    NoMinusInShow(h.revisionNumber);
    NoMinusInShow(h.revisionHeight);
    assert s[..|num|] == num;
    FirstIndexUnique(MINUS, s, |num|);
    var tail := s[|num| + 1..];
    assert tail == hgt + [MINUS] + extra;
    assert tail[..|hgt|] == hgt;
    FirstIndexUnique(MINUS, tail, |hgt|);
    ParseShowU64(h.revisionNumber);
    ParseShowU64(h.revisionHeight);
  }

  /** Formatting a valid height and parsing it again gives the height back. */
  lemma EpochHeightRoundTrip(h: Height)
    ensures HeightFromEpoch(EpochFromHeight(h))
      == if ValidHeight(h) then Ok(h) else Err(Ibc("Failed to parse height"))
  {
    var num, hgt := ShowNat(h.revisionNumber), ShowNat(h.revisionHeight);
    var s := EpochFromHeight(h);
    NoMinusInShow(h.revisionNumber);
    NoMinusInShow(h.revisionHeight);
    assert s[..|num|] == num;
    FirstIndexUnique(MINUS, s, |num|);
    var tail := s[|num| + 1..];
    assert tail == hgt;
    assert tail[..|hgt|] == hgt;
    FirstIndexUnique(MINUS, tail, |hgt|);
    ParseShowU64(h.revisionNumber);
    ParseShowU64(h.revisionHeight);
  }

  /** Text without a `-` never parses: the number is missing or unparsable, or the height is missing. */
  lemma EpochHeightNeedsSeparator(s: seq<byte>)
    requires MINUS !in s
    ensures HeightFromEpoch(s) == Err(Ibc("Invalid revision number")) || HeightFromEpoch(s) == Err(Ibc("Invalid revision height"))
  {
    FirstIndexUnique(MINUS, s, |s|);
  }

  /** "0-100", the consensus-state key suffix of the test. */
  lemma EpochHeightExample()
    ensures EpochFromHeight(Height(0, 100)) == [48, 45, 49, 48, 48]
  {
    assert ShowNat(0) == [48];
    assert ShowNat(1) == [49];
    assert ShowNat(10) == [49, 48];
  }

  /** `BinaryHeight`: the two numbers of a height, stored as `u64`s. */
  datatype BinaryHeight = BinaryHeight(epoch: u64, height: u64)

  /** `From<Height> for BinaryHeight` */
  function BinaryFromHeight(h: Height): BinaryHeight
  {
    BinaryHeight(h.revisionNumber, h.revisionHeight)
  }

  /** `TryFrom<BinaryHeight> for Height`, whose error is `()`. */
  function HeightFromBinary(b: BinaryHeight): (r: Option<Height>)
    ensures r.Some? ==> ValidHeight(r.value)
  {
    if b.height == 0 then None else Some(Height(b.epoch, b.height))
  }

  /** Converting to binary and back loses nothing, and fails exactly on height 0. */
  lemma BinaryHeightRoundTrip(h: Height)
    ensures HeightFromBinary(BinaryFromHeight(h)) == if ValidHeight(h) then Some(h) else None
  {
  }

  /** The version byte the `#[orga]` derive writes in front of a version-0 struct. */
  const BINARY_HEIGHT_VERSION: byte := 0

  /**
   * The derived encoding of `BinaryHeight`: its version byte, then the
   * epoch and the height as big-endian `u64`s.
   */
  function BinaryHeightEncode(b: BinaryHeight): (r: seq<byte>)
    ensures |r| == 17 && r[0] == BINARY_HEIGHT_VERSION
    ensures r[1..9] == EncodeBE(b.epoch, 8) && r[9..] == EncodeBE(b.height, 8)
  {
    [BINARY_HEIGHT_VERSION] + EncodeBE(b.epoch, 8) + EncodeBE(b.height, 8)
  }

  /**
   * The derived decoding: the version byte must be 0 (the derive's error
   * for any other version is `versionError`), then two `u64`s follow.
   */
  function BinaryHeightDecode(versionError: byte -> Error, input: seq<byte>): (r: Result<Decoded<BinaryHeight>>)
    ensures r.Ok? ==> |input| >= 17 && input[0] == BINARY_HEIGHT_VERSION && r.value.rest == input[17..]
    ensures r.Ok? ==> BinaryHeightEncode(r.value.value) == input[..17]
  {
    if |input| == 0 then Err(Io(UnexpectedEof))
    else if input[0] != BINARY_HEIGHT_VERSION then Err(versionError(input[0]))
    else if |input| < 17 then Err(Io(UnexpectedEof))
    else
      var epoch, height := input[1..9], input[9..17];
      assert |epoch| == 8 && |height| == 8;
      EncodeDecodeBE(epoch);
      EncodeDecodeBE(height);
      assert input[..17] == [input[0]] + epoch + height;
      Ok(Decoded(BinaryHeight(DecodeBE(epoch), DecodeBE(height)), input[17..]))
  }

  /** A binary height and any bytes after it decode back to the height, leaving those bytes. */
  lemma BinaryHeightRoundTrip2(versionError: byte -> Error, b: BinaryHeight, rest: seq<byte>)
    ensures BinaryHeightDecode(versionError, BinaryHeightEncode(b) + rest) == Ok(Decoded(b, rest))
  {
    var input := BinaryHeightEncode(b) + rest;
    assert input[1..9] == EncodeBE(b.epoch, 8);
    assert input[9..17] == EncodeBE(b.height, 8);
    assert input[17..] == rest;
    DecodeEncodeBE(b.epoch, 8);
    DecodeEncodeBE(b.height, 8);
  }

  /** Encoded binary heights sort by epoch, then by height, as the heights do. */
  lemma BinaryHeightKeyOrder(b1: BinaryHeight, b2: BinaryHeight)
    ensures LexLess(BinaryHeightEncode(b1), BinaryHeightEncode(b2))
      <==> b1.epoch < b2.epoch || (b1.epoch == b2.epoch && b1.height < b2.height)
  {
    var e1, e2 := EncodeBE(b1.epoch, 8), EncodeBE(b2.epoch, 8);
    var h1, h2 := EncodeBE(b1.height, 8), EncodeBE(b2.height, 8);
    assert BinaryHeightEncode(b1) == [BINARY_HEIGHT_VERSION] + (e1 + h1);
    assert BinaryHeightEncode(b2) == [BINARY_HEIGHT_VERSION] + (e2 + h2);
    LexLessCommonPrefix([BINARY_HEIGHT_VERSION], e1 + h1, e2 + h2);
    LexLessConcat(e1, h1, e2, h2);
    EncodeBEOrder(b1.epoch, b2.epoch, 8);
    EncodeBEOrder(b1.height, b2.height, 8);
    DecodeEncodeBE(b1.epoch, 8);
    DecodeEncodeBE(b2.epoch, 8);
  }

  /** Bytes that do not start with version 0 are refused with the derive's version error. */
  lemma BinaryHeightWrongVersion(versionError: byte -> Error, version: byte, rest: seq<byte>)
    requires version != BINARY_HEIGHT_VERSION
    ensures BinaryHeightDecode(versionError, [version] + rest) == Err(versionError(version))
  {
  }

  /** The test client's update height `Height::new(0, 123)`, as it ends the stored `updates` value. */
  const UPDATE_HEIGHT_BYTES: seq<byte> := [0, 0, 0, 0, 0, 0, 0, 0, 0, 0, 0, 0, 0, 0, 0, 0, 123]

  lemma UpdateHeightExample()
    ensures BinaryHeightEncode(BinaryFromHeight(Height(0, 123))) == UPDATE_HEIGHT_BYTES
  {
    assert EncodeBE(0, 8) == [0, 0, 0, 0, 0, 0, 0, 0];
    assert EncodeBE(123, 8) == [0, 0, 0, 0, 0, 0, 0, 123];
  }

  // ---------------------------------------------------------------------
  // Timestamp::migrate

  /** Decimal digits as characters, for error messages. */
  function DecimalString(n: nat): (r: string)
    ensures |r| == |ShowNat(n)|
  {
    seq(|ShowNat(n)|, i requires 0 <= i < |ShowNat(n)| => ShowNat(n)[i] as char)
  }

  /**
   * `Timestamp::migrate`: the first byte must be the version 1, which is
   * dropped before the rest is loaded by `load`; empty input makes the
   * indexing `bytes[0]` panic.
   */
  function TimestampMigrate<T>(load: seq<byte> -> Result<Decoded<T>>, bytes: seq<byte>): Result<Decoded<T>>
  {
    if |bytes| == 0 then Err(Panic("index out of bounds"))
    else if bytes[0] != 1 then Err(Ibc("Invalid timestamp version: " + DecimalString(bytes[0])))
    else load(bytes[1..])
  }

  /** Version 1 is dropped and exactly the rest is loaded; any other first byte is named in the error. */
  lemma TimestampMigrateCases<T>(load: seq<byte> -> Result<Decoded<T>>, version: byte, rest: seq<byte>)
    ensures version == 1 ==> TimestampMigrate(load, [version] + rest) == load(rest)
    ensures version != 1 ==>
      TimestampMigrate(load, [version] + rest) == Err(Ibc("Invalid timestamp version: " + DecimalString(version)))
  {
    assert ([version] + rest)[1..] == rest;
  }

  // ---------------------------------------------------------------------
  // Signer, deliver_message, deliver, raw_transfer

  type Address = seq<byte>

  /** The `Signer` context: present or not, and holding a signer or not. */
  datatype SignerContext = SignerContext(signer: Option<Address>)

  /** `Ibc::signer` */
  function Signer(ctx: Option<SignerContext>): (r: Result<Address>)
    ensures r.Ok? <==> ctx.Some? && ctx.value.signer.Some?
    ensures r.Ok? ==> r.value == ctx.value.signer.value
    ensures ctx.None? ==> r == Err(Coins("No Signer context available"))
    ensures ctx.Some? && ctx.value.signer.None? ==> r == Err(Coins("Call must be signed"))
  {
    match ctx
    case None => Err(Coins("No Signer context available"))
    case Some(c) =>
      match c.signer
      case None => Err(Coins("Call must be signed"))
      case Some(a) => Ok(a)
  }

  /** What a transfer handler records about an incoming transfer (`transfer.rs` is not part of this model). */
  datatype TransferInfo = TransferInfo(data: seq<byte>)

  datatype MsgTransfer = MsgTransfer(sender: seq<byte>, body: seq<byte>)

  datatype IbcMessage = Ics26(envelope: seq<byte>) | Ics20(transfer: MsgTransfer)

  /** The parts of `Ibc` the entry points touch: the chain state and the pending incoming transfer. */
  datatype Host = Host(store: map<seq<byte>, seq<byte>>, incoming: Option<TransferInfo>)

  /** What `dispatch` / `send_transfer` leave behind: the new host and the error text, if any. */
  datatype Handled = Handled(host: Host, failure: Option<string>)

  type MessageHandler = (Host, IbcMessage) -> Handled

  datatype Delivered<T> = Delivered(host: Host, result: Result<T>)

  /**
   * `deliver_message`: run the handler; its error becomes `Error::Ibc`
   * (what it changed stays changed); on success the pending incoming
   * transfer is taken out and returned.
   */
  function DeliverMessageSpec(h: MessageHandler, host: Host, m: IbcMessage): (d: Delivered<Option<TransferInfo>>)
    ensures d.result.Ok? ==> d.host.incoming.None?
    ensures d.result.Ok? <==> h(host, m).failure.None?
    ensures d.result.Ok? ==>
      d.result.value == h(host, m).host.incoming && d.host == h(host, m).host.(incoming := None)
    ensures d.result.Err? ==>
      d.result == Err(Ibc(h(host, m).failure.value)) && d.host == h(host, m).host
  {
    var out := h(host, m);
    match out.failure
    case Some(e) => Delivered(out.host, Err(Ibc(e)))
    case None => Delivered(out.host.(incoming := None), Ok(out.host.incoming))
  }

  function Somes(o: Option<TransferInfo>): seq<TransferInfo>
  {
    match o
    case None => []
    case Some(x) => [x]
  }

  /** `infos` already collected, then what delivering the remaining messages gives. */
  function Continue(infos: seq<TransferInfo>, d: Delivered<seq<TransferInfo>>): Delivered<seq<TransferInfo>>
  {
    match d.result
    case Err(e) => Delivered(d.host, Err(e))
    case Ok(more) => Delivered(d.host, Ok(infos + more))
  }

  /** The loop of `deliver` over already converted messages. */
  function DeliverAll(h: MessageHandler, host: Host, ms: seq<IbcMessage>): (d: Delivered<seq<TransferInfo>>)
    ensures d.result.Ok? ==> |d.result.value| <= |ms|
    ensures d.result.Ok? && ms != [] ==> d.host.incoming.None?
    decreases |ms|
  {
    if ms == [] then Delivered(host, Ok([]))
    else
      var first := DeliverMessageSpec(h, host, ms[0]);
      match first.result
      case Err(e) => Delivered(first.host, Err(e))
      case Ok(info) => Continue(Somes(info), DeliverAll(h, first.host, ms[1..]))
  }

  /**
   * Delivering `a + b` is delivering `a`, then (only if that succeeded)
   * delivering `b` from where `a` left the host, with the transfer infos of
   * `a` before those of `b`.  So delivery keeps message order and stops at
   * the first failing message.
   */
  lemma {:induction false} DeliverAppend(h: MessageHandler, host: Host, a: seq<IbcMessage>, b: seq<IbcMessage>)
    ensures DeliverAll(h, host, a + b) ==
      var da := DeliverAll(h, host, a);
      if da.result.Err? then da else Continue(da.result.value, DeliverAll(h, da.host, b))
    decreases |a|
  {
    if a == [] {
      assert a + b == b;
      var db := DeliverAll(h, host, b);
      if db.result.Ok? {
        assert [] + db.result.value == db.result.value;
      }
    } else {
      assert (a + b)[0] == a[0];
      assert (a + b)[1..] == a[1..] + b;
      var first := DeliverMessageSpec(h, host, a[0]);
      if first.result.Ok? {
        DeliverAppend(h, first.host, a[1..], b);
        var da1 := DeliverAll(h, first.host, a[1..]);
        if da1.result.Ok? {
          var db := DeliverAll(h, da1.host, b);
          if db.result.Ok? {
            assert Somes(first.result.value) + (da1.result.value + db.result.value)
              == (Somes(first.result.value) + da1.result.value) + db.result.value;
          }
        }
      }
    }
  }

  /** Delivering one message that the handler accepts returns the transfer it left pending, if any. */
  lemma DeliverOne(h: MessageHandler, host: Host, m: IbcMessage)
    requires h(host, m).failure.None?
    ensures DeliverAll(h, host, [m]) ==
      Delivered(h(host, m).host.(incoming := None), Ok(Somes(h(host, m).host.incoming)))
  {
    assert [m][0] == m && [m][1..] == [];
    assert Somes(h(host, m).host.incoming) + [] == Somes(h(host, m).host.incoming);
  }

  /** A failing message ends delivery: nothing after it is handled. */
  lemma DeliverStopsAtFailure(h: MessageHandler, host: Host, a: seq<IbcMessage>, m: IbcMessage, b: seq<IbcMessage>)
    requires DeliverAll(h, host, a).result.Ok?
    requires h(DeliverAll(h, host, a).host, m).failure.Some?
    ensures DeliverAll(h, host, a + [m] + b) ==
      Delivered(h(DeliverAll(h, host, a).host, m).host, Err(Ibc(h(DeliverAll(h, host, a).host, m).failure.value)))
  {
    DeliverAppend(h, host, a, [m] + b);
    assert a + [m] + b == a + ([m] + b);
    var da := DeliverAll(h, host, a);
    assert ([m] + b)[0] == m;
  }

  /** `raw_transfer` on the host value. */
  function RawTransferSpec(h: MessageHandler, parseAddress: seq<byte> -> Result<Address>,
                           ctx: Option<SignerContext>, host: Host, m: MsgTransfer): Delivered<()>
  {
    match parseAddress(m.sender)
    case Err(e) => Delivered(host, Err(e))
    case Ok(sender) =>
      match Signer(ctx)
      case Err(e) => Delivered(host, Err(e))
      case Ok(signer) =>
        if signer != sender then Delivered(host, Err(Ibc("Transfers must be signed by the sender")))
        else
          var d := DeliverMessageSpec(h, host, Ics20(m));
          Delivered(d.host, if d.result.Err? then Err(d.result.error) else Ok(()))
  }

  /** A transfer goes through only when it is signed, by its sender; otherwise nothing changes. */
  lemma RawTransferNeedsSender(h: MessageHandler, parseAddress: seq<byte> -> Result<Address>,
                               ctx: Option<SignerContext>, host: Host, m: MsgTransfer)
    ensures RawTransferSpec(h, parseAddress, ctx, host, m).result.Ok? ==>
      parseAddress(m.sender).Ok? && Signer(ctx) == Ok(parseAddress(m.sender).value)
    ensures !(parseAddress(m.sender).Ok? && Signer(ctx) == Ok(parseAddress(m.sender).value)) ==>
      RawTransferSpec(h, parseAddress, ctx, host, m).host == host
    ensures parseAddress(m.sender).Ok? && Signer(ctx).Ok? && Signer(ctx).value != parseAddress(m.sender).value ==>
      RawTransferSpec(h, parseAddress, ctx, host, m).result == Err(Ibc("Transfers must be signed by the sender"))
  {
  }

  /** A transfer signed by its sender is delivered: host and outcome are those of delivering it. */
  lemma RawTransferSignedDelivers(h: MessageHandler, parseAddress: seq<byte> -> Result<Address>,
                                  ctx: Option<SignerContext>, host: Host, m: MsgTransfer)
    requires parseAddress(m.sender).Ok? && Signer(ctx) == Ok(parseAddress(m.sender).value)
    ensures RawTransferSpec(h, parseAddress, ctx, host, m).host == DeliverMessageSpec(h, host, Ics20(m)).host
    ensures RawTransferSpec(h, parseAddress, ctx, host, m).result.Ok? <==>
      DeliverMessageSpec(h, host, Ics20(m)).result.Ok?
    ensures RawTransferSpec(h, parseAddress, ctx, host, m).result.Err? ==>
      RawTransferSpec(h, parseAddress, ctx, host, m).result.error == DeliverMessageSpec(h, host, Ics20(m)).result.error
  {
  }

  /** The `Ibc` state object, updated in place by its entry points. */
  class IbcState {
    var store: map<seq<byte>, seq<byte>>
    var incomingTransfer: Option<TransferInfo>

    constructor (store0: map<seq<byte>, seq<byte>>)
      ensures store == store0 && incomingTransfer == None
    {
      store := store0;
      incomingTransfer := None;
    }

    function View(): Host
      reads this
    {
      Host(store, incomingTransfer)
    }

    /** `Ibc::deliver_message` */
    method DeliverMessage(h: MessageHandler, m: IbcMessage) returns (r: Result<Option<TransferInfo>>)
      modifies this
      ensures Delivered(View(), r) == DeliverMessageSpec(h, old(View()), m)
    {
      var out := h(View(), m);
      store := out.host.store;
      incomingTransfer := out.host.incoming;
      if out.failure.Some? {
        return Err(Ibc(out.failure.value));
      }
      r := Ok(incomingTransfer);
      incomingTransfer := None;
    }

    /** `Ibc::deliver`: convert the raw transaction, then deliver its messages in order. */
    method Deliver(h: MessageHandler, convert: seq<byte> -> Result<seq<IbcMessage>>, raw: seq<byte>)
      returns (r: Result<seq<TransferInfo>>)
      modifies this
      ensures convert(raw).Err? ==> r == Err(convert(raw).error) && View() == old(View())
      ensures convert(raw).Ok? ==> Delivered(View(), r) == DeliverAll(h, old(View()), convert(raw).value)
    {
      var messages :- convert(raw);
      ghost var host0 := View();
      var infos: seq<TransferInfo> := [];
      var i := 0;
      assert messages[0..] == messages;
      ContinueNothing(DeliverAll(h, host0, messages));
      while i < |messages|
        invariant 0 <= i <= |messages|
        invariant DeliverAll(h, host0, messages) == Continue(infos, DeliverAll(h, View(), messages[i..]))
      {
        ghost var before := View();
        var got := DeliverMessage(h, messages[i]);
        assert messages[i..][0] == messages[i] && messages[i..][1..] == messages[i + 1..];
        if got.Err? {
          return Err(got.error);
        }
        ContinueAppend(infos, Somes(got.value), DeliverAll(h, View(), messages[i + 1..]));
        infos := infos + Somes(got.value);
        i := i + 1;
      }
      r := Ok(infos);
      assert infos + [] == infos;
    }

    /** `Ibc::raw_transfer` */
    method RawTransfer(h: MessageHandler, parseAddress: seq<byte> -> Result<Address>,
                       ctx: Option<SignerContext>, m: MsgTransfer) returns (r: Result<()>)
      modifies this
      ensures Delivered(View(), r) == RawTransferSpec(h, parseAddress, ctx, old(View()), m)
    {
      var sender :- parseAddress(m.sender);
      var signer :- Signer(ctx);
      if signer != sender {
        return Err(Ibc("Transfers must be signed by the sender"));
      }
      var got := DeliverMessage(h, Ics20(m));
      if got.Err? {
        return Err(got.error);
      }
      r := Ok(());
    }
  }

  lemma ContinueNothing(d: Delivered<seq<TransferInfo>>)
    ensures Continue([], d) == d
  {
    if d.result.Ok? {
      assert [] + d.result.value == d.result.value;
    }
  }

  lemma ContinueAppend(a: seq<TransferInfo>, b: seq<TransferInfo>, d: Delivered<seq<TransferInfo>>)
    ensures Continue(a, Continue(b, d)) == Continue(a + b, d)
  {
    if d.result.Ok? {
      assert a + (b + d.result.value) == (a + b) + d.result.value;
    }
  }
}
