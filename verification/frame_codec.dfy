/**
 The relay's binary wire format:

     type (1 byte) | stream id (8, big-endian) | header length (4, big-endian) | header JSON | payload

 JSON itself is a parameter: a printer and a parser of header objects that lose nothing.
 */
module FrameCodec {
  import opened Wrappers

  type Byte = b: int | 0 <= b < 256

  const MAX_PAYLOAD: nat := 64 * 1024
  const MAX_HEADER: nat := 64 * 1024
  const PREFIX_LEN: nat := 13
  const MAX_WIRE_SIZE: nat := PREFIX_LEN + MAX_HEADER + MAX_PAYLOAD
  const UINT64_LIMIT: nat := 0x1_0000_0000_0000_0000

  /** What `json.loads` makes of header bytes: an object, another value, or an error. */
  datatype Parsed<H> = Object(header: H) | NotAnObject | Garbled

  datatype Json<!H> = Json(dumps: H -> seq<Byte>, loads: seq<Byte> -> Parsed<H>, empty: H)

  ghost predicate Lossless<H(!new)>(json: Json<H>) {
    forall h :: json.dumps(h) != [] && json.loads(json.dumps(h)) == Object(h)
  }

  datatype Frame<H> = Frame(kind: int, streamId: int, header: H, payload: seq<Byte>)

  datatype ProtocolError =
    | StreamIdOutOfRange
    | PayloadTooLong
    | HeaderTooLong
    | FrameTooShort
    | TruncatedHeader
    | BadHeaderJson
    | HeaderNotAnObject

  // ------------------------------------------------------ big-endian integers

  function Power256(k: nat): nat {
    if k == 0 then 1 else 256 * Power256(k - 1)
  }

  /** `n` in `k` bytes, most significant first. */
  function Packed(n: nat, k: nat): (bytes: seq<Byte>)
    requires n < Power256(k)
    ensures |bytes| == k
    decreases k
  {
    if k == 0 then [] else Packed(n / 256, k - 1) + [n % 256]
  }

  function Unpacked(bytes: seq<Byte>): nat
    decreases |bytes|
  {
    if bytes == [] then 0 else 256 * Unpacked(bytes[..|bytes| - 1]) + bytes[|bytes| - 1]
  }

  lemma {:induction false} UnpackedPacked(n: nat, k: nat)
    requires n < Power256(k)
    ensures Unpacked(Packed(n, k)) == n
    decreases k
  {
    if k > 0 {
      UnpackedPacked(n / 256, k - 1);
      assert Packed(n, k)[..k - 1] == Packed(n / 256, k - 1);
    }
  }

  lemma {:induction false} PackedUnpacked(bytes: seq<Byte>)
    ensures Unpacked(bytes) < Power256(|bytes|) && Packed(Unpacked(bytes), |bytes|) == bytes
    decreases |bytes|
  {
    if bytes != [] {
      PackedUnpacked(bytes[..|bytes| - 1]);
      var n := Unpacked(bytes);
      assert n / 256 == Unpacked(bytes[..|bytes| - 1]) && n % 256 == bytes[|bytes| - 1];
      assert bytes == bytes[..|bytes| - 1] + [bytes[|bytes| - 1]];
    }
  }

  /** The first byte is the most significant one. */
  lemma {:induction false} MostSignificantFirst(bytes: seq<Byte>)
    requires bytes != []
    ensures Unpacked(bytes) == bytes[0] * Power256(|bytes| - 1) + Unpacked(bytes[1..])
    decreases |bytes|
  {
    var n := |bytes| - 1;
    if n > 0 {
      MostSignificantFirst(bytes[..n]);
      assert bytes[..n][1..] == bytes[1..][..n - 1];
      Shifted(bytes[0], Power256(n - 1), Unpacked(bytes[..n][1..]));
    }
  }

  lemma Shifted(x: nat, power: nat, y: nat)
    ensures 256 * (x * power + y) == x * (256 * power) + 256 * y
  {}

  lemma FieldWidths()
    ensures Power256(8) == UINT64_LIMIT && Power256(4) == 0x1_0000_0000
  {
    assert Power256(4) == 0x1_0000_0000;
    assert Power256(6) == 0x1_0000_0000_0000;
  }

  // ------------------------------------------------------ encode and decode

  /** `_PREFIX.pack`. */
  function Prefix(kind: int, streamId: nat, headerLen: nat): (bytes: seq<Byte>)
    requires streamId < UINT64_LIMIT && headerLen <= MAX_HEADER
    ensures |bytes| == PREFIX_LEN
  {
    FieldWidths();
    [kind % 256] + Packed(streamId, 8) + Packed(headerLen, 4)
  }

  function Encode<H>(json: Json<H>, f: Frame<H>): Result<seq<Byte>, ProtocolError> {
    if !(0 <= f.streamId < UINT64_LIMIT) then Err(StreamIdOutOfRange)
    else if |f.payload| > MAX_PAYLOAD then Err(PayloadTooLong)
    else
      var header := json.dumps(f.header);
      if |header| > MAX_HEADER then Err(HeaderTooLong)
      else Ok(Prefix(f.kind, f.streamId, |header|) + header + f.payload)
  }

  function HeaderLen(buf: seq<Byte>): nat
    requires |buf| >= PREFIX_LEN
  {
    Unpacked(buf[9..13])
  }

  function HeaderBytes(buf: seq<Byte>): seq<Byte>
    requires |buf| >= PREFIX_LEN && |buf| >= PREFIX_LEN + HeaderLen(buf)
  {
    buf[PREFIX_LEN..PREFIX_LEN + HeaderLen(buf)]
  }

  function Decode<H>(json: Json<H>, buf: seq<Byte>): Result<Frame<H>, ProtocolError> {
    if |buf| < PREFIX_LEN then Err(FrameTooShort)
    else if HeaderLen(buf) > MAX_HEADER then Err(HeaderTooLong)
    else if |buf| < PREFIX_LEN + HeaderLen(buf) then Err(TruncatedHeader)
    else
      var payload := buf[PREFIX_LEN + HeaderLen(buf)..];
      if |payload| > MAX_PAYLOAD then Err(PayloadTooLong)
      else if HeaderLen(buf) == 0 then Ok(Frame(buf[0], Unpacked(buf[1..9]), json.empty, payload))
      else
        match json.loads(HeaderBytes(buf))
        case Garbled => Err(BadHeaderJson)
        case NotAnObject => Err(HeaderNotAnObject)
        case Object(header) => Ok(Frame(buf[0], Unpacked(buf[1..9]), header, payload))
  }

  // ------------------------------------------------------ main results

  /** The fields of an encoded frame are where the decoder looks for them. */
  lemma FieldsOfEncoded<H>(json: Json<H>, f: Frame<H>)
    requires Encode(json, f).Ok?
    ensures var buf := Encode(json, f).value;
            && |buf| >= PREFIX_LEN && buf[0] == f.kind % 256 && Unpacked(buf[1..9]) == f.streamId
            && HeaderLen(buf) == |json.dumps(f.header)| && |buf| == PREFIX_LEN + HeaderLen(buf) + |f.payload|
            && HeaderBytes(buf) == json.dumps(f.header) && buf[PREFIX_LEN + HeaderLen(buf)..] == f.payload
  {
    var buf, header := Encode(json, f).value, json.dumps(f.header);
    FieldWidths();
    UnpackedPacked(f.streamId, 8);
    UnpackedPacked(|header|, 4);
    assert buf[1..9] == Packed(f.streamId, 8);
    assert buf[9..13] == Packed(|header|, 4);
  }

  /**
   Decoding an encoded frame returns it, with the type reduced to its byte: so the frame
   comes back unchanged exactly when its type is a byte.
   */
  lemma RoundTrip<H(!new)>(json: Json<H>, f: Frame<H>)
    requires Lossless(json) && Encode(json, f).Ok?
    ensures Decode(json, Encode(json, f).value) == Ok(f.(kind := f.kind % 256))
    ensures Decode(json, Encode(json, f).value) == Ok(f) <==> 0 <= f.kind < 256
  {
    FieldsOfEncoded(json, f);
    WireSizeIsBounded(json, f, []);
    assert json.dumps(f.header) != [] && json.loads(json.dumps(f.header)) == Object(f.header);
    hide Encode, Decode, Lossless, Unpacked, HeaderLen, HeaderBytes;
    DecodesTo(json, Encode(json, f).value, f);
  }

  lemma DecodesTo<H>(json: Json<H>, buf: seq<Byte>, f: Frame<H>)
    requires PREFIX_LEN <= |buf| && PREFIX_LEN + HeaderLen(buf) <= |buf| && 0 < HeaderLen(buf) <= MAX_HEADER
    requires buf[PREFIX_LEN + HeaderLen(buf)..] == f.payload && |f.payload| <= MAX_PAYLOAD
    requires buf[0] == f.kind % 256 && Unpacked(buf[1..9]) == f.streamId
    requires json.loads(HeaderBytes(buf)) == Object(f.header)
    ensures Decode(json, buf) == Ok(f.(kind := f.kind % 256))
  {
    hide Unpacked;
  }

  /** Frames are told apart on the wire, up to their type's byte. */
  lemma EncodeIsInjective<H(!new)>(json: Json<H>, f: Frame<H>, g: Frame<H>)
    requires Lossless(json) && Encode(json, f).Ok? && Encode(json, f) == Encode(json, g)
    ensures f.(kind := f.kind % 256) == g.(kind := g.kind % 256)
  {
    RoundTrip(json, f);
    RoundTrip(json, g);
  }

  /** Exactly the frames within the limits are encoded, and nothing larger than the wire limit is sent or accepted. */
  lemma WireSizeIsBounded<H>(json: Json<H>, f: Frame<H>, buf: seq<Byte>)
    ensures Encode(json, f).Ok? <==>
              0 <= f.streamId < UINT64_LIMIT && |f.payload| <= MAX_PAYLOAD && |json.dumps(f.header)| <= MAX_HEADER
    ensures Encode(json, f).Ok? ==> |Encode(json, f).value| <= MAX_WIRE_SIZE
    ensures Decode(json, buf).Ok? ==> |buf| <= MAX_WIRE_SIZE
  {
    if Encode(json, f).Ok? {
      FieldsOfEncoded(json, f);
    }
  }

  /** An accepted buffer is what the decoded frame encodes to exactly when its header is in printed form. */
  lemma ReencodingIsFaithfulIff<H(!new)>(json: Json<H>, buf: seq<Byte>)
    requires Lossless(json) && Decode(json, buf).Ok?
    ensures Encode(json, Decode(json, buf).value) == Ok(buf)
            <==> json.dumps(Decode(json, buf).value.header) == HeaderBytes(buf)
  {
    var f := Decode(json, buf).value;
    PartsOfDecoded(json, buf);
    PrefixOfDecoded(buf);
    hide Decode, Unpacked, Prefix, HeaderBytes, HeaderLen;
    if Encode(json, f) == Ok(buf) {
      FieldsOfEncoded(json, f);
    }
  }

  lemma PartsOfDecoded<H>(json: Json<H>, buf: seq<Byte>)
    requires Decode(json, buf).Ok?
    ensures |buf| >= PREFIX_LEN && HeaderLen(buf) <= MAX_HEADER && |buf| >= PREFIX_LEN + HeaderLen(buf)
    ensures |HeaderBytes(buf)| == HeaderLen(buf)
    ensures var f := Decode(json, buf).value;
            && f.kind == buf[0] && f.streamId == Unpacked(buf[1..9]) && |f.payload| <= MAX_PAYLOAD
            && buf == buf[..PREFIX_LEN] + HeaderBytes(buf) + f.payload
  {
    hide Unpacked;
  }

  lemma PrefixOfDecoded(buf: seq<Byte>)
    requires |buf| >= PREFIX_LEN && HeaderLen(buf) <= MAX_HEADER
    ensures Unpacked(buf[1..9]) < UINT64_LIMIT
    ensures Prefix(buf[0], Unpacked(buf[1..9]), HeaderLen(buf)) == buf[..PREFIX_LEN]
  {
    FieldWidths();
    PackedUnpacked(buf[1..9]);
    PackedUnpacked(buf[9..13]);
    hide Packed, Unpacked;
    assert buf[..PREFIX_LEN] == [buf[0]] + buf[1..9] + buf[9..13];
  }

  // ------------------------------------------------------ every buffer

  /** A buffer put together from its fields; `rest` is the header and the payload. */
  function Wire(kind: Byte, streamId: nat, headerLen: nat, rest: seq<Byte>): seq<Byte>
    requires streamId < UINT64_LIMIT && headerLen < 0x1_0000_0000
  {
    FieldWidths();
    [kind] + Packed(streamId, 8) + Packed(headerLen, 4) + rest
  }

  lemma FieldsOfWire(kind: Byte, streamId: nat, headerLen: nat, rest: seq<Byte>)
    requires streamId < UINT64_LIMIT && headerLen < 0x1_0000_0000
    ensures var buf := Wire(kind, streamId, headerLen, rest);
            && |buf| == PREFIX_LEN + |rest| && buf[0] == kind && Unpacked(buf[1..9]) == streamId
            && HeaderLen(buf) == headerLen && buf[PREFIX_LEN..] == rest
  {
    FieldWidths();
    UnpackedPacked(streamId, 8);
    UnpackedPacked(headerLen, 4);
    var buf := Wire(kind, streamId, headerLen, rest);
    assert buf[1..9] == Packed(streamId, 8);
    assert buf[9..13] == Packed(headerLen, 4);
  }

  /** Every buffer with a whole prefix is put together in one way. */
  lemma EveryBufferIsWire(buf: seq<Byte>)
    requires |buf| >= PREFIX_LEN
    ensures Unpacked(buf[1..9]) < UINT64_LIMIT && HeaderLen(buf) < 0x1_0000_0000
    ensures Wire(buf[0], Unpacked(buf[1..9]), HeaderLen(buf), buf[PREFIX_LEN..]) == buf
  {
    FieldWidths();
    PackedUnpacked(buf[1..9]);
    PackedUnpacked(buf[9..13]);
    hide Packed, Unpacked;
    assert buf == [buf[0]] + buf[1..9] + buf[9..13] + buf[13..];
  }

  /**
   What the decoder answers to every buffer: told from the parts it was put together
   from, with each refusal and the order in which they are tried.
   */
  lemma DecodeOfWire<H>(json: Json<H>, kind: Byte, streamId: nat, headerLen: nat, rest: seq<Byte>)
    requires streamId < UINT64_LIMIT && headerLen < 0x1_0000_0000
    ensures var r := Decode(json, Wire(kind, streamId, headerLen, rest));
            if headerLen > 65536 then r == Err(HeaderTooLong)
            else if |rest| < headerLen then r == Err(TruncatedHeader)
            else if |rest| > headerLen + 65536 then r == Err(PayloadTooLong)
            else if headerLen == 0 then r == Ok(Frame(kind, streamId, json.empty, rest))
            else
              var header, payload := rest[..headerLen], rest[headerLen..];
              match json.loads(header)
              case Garbled => r == Err(BadHeaderJson)
              case NotAnObject => r == Err(HeaderNotAnObject)
              case Object(h) => r == Ok(Frame(kind, streamId, h, payload))
  {
    var buf := Wire(kind, streamId, headerLen, rest);
    FieldsOfWire(kind, streamId, headerLen, rest);
    hide Wire, Unpacked, HeaderLen;
    if headerLen <= |rest| {
      assert buf[PREFIX_LEN..][..headerLen] == buf[PREFIX_LEN..PREFIX_LEN + headerLen];
      assert buf[PREFIX_LEN..][headerLen..] == buf[PREFIX_LEN + headerLen..];
    }
  }
}
