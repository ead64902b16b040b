/** The V4 frame: a 16-byte big-endian header and a canonical JSON object. */
module Frames {
  import opened Results
  import opened CanonicalJson

  /** The bytes of "M3V4RCP!". */
  const MAGIC: Bytes := [77, 51, 86, 52, 82, 67, 80, 33]
  const SCHEMA: Byte := 1
  const HEADER_BYTES: nat := 16
  const MAX_PAYLOAD_BYTES: nat := 2048
  const MAX_FRAME_BYTES: nat := 2064

  datatype FrameType = PRE | POST

  datatype Frame = Frame(kind: FrameType, sequence: nat, payload: Json)

  datatype Error = HeaderInvalid | Truncated | PayloadInvalid | PayloadTooLarge

  function KindByte(kind: FrameType): Byte {
    if kind.PRE? then 1 else 2
  }

  /** `>HI`: a two-byte and a four-byte big-endian number. */
  function Big2(n: nat): (r: Bytes)
    requires n < 0x1_0000
    ensures |r| == 2
  {
    [n / 256, n % 256]
  }

  function Big4(n: nat): (r: Bytes)
    requires n < 0x1_0000_0000
    ensures |r| == 4
  {
    Big2(n / 0x1_0000) + Big2(n % 0x1_0000)
  }

  function FromBig2(r: Bytes): nat
    requires |r| == 2
  {
    (r[0] as int) * 256 + r[1] as int
  }

  function FromBig4(r: Bytes): nat
    requires |r| == 4
  {
    FromBig2(r[..2]) * 0x1_0000 + FromBig2(r[2..])
  }

  function Header(kind: FrameType, sequence: nat, size: nat): (h: Bytes)
    requires sequence < 0x1_0000 && size < 0x1_0000_0000
    ensures |h| == HEADER_BYTES
  {
    MAGIC + [SCHEMA, KindByte(kind)] + Big2(sequence) + Big4(size)
  }

  /** `encode_frame`. */
  function Encode(kind: FrameType, sequence: int, payload: Json): (r: Result<Bytes, Error>)
    ensures r.Ok? ==> HEADER_BYTES <= |r.value| <= MAX_FRAME_BYTES
  {
    if !(0 <= sequence <= 0xffff) then Err(HeaderInvalid)
    else if !payload.Obj? then Err(PayloadInvalid)
    else
      var body := Print(payload);
      if |body| > MAX_PAYLOAD_BYTES then Err(PayloadTooLarge)
      else Ok(Header(kind, sequence, |body|) + body)
  }

  /** `decode_frame`: the first frame of a byte string and the number of bytes it takes. */
  function Decode(raw: Bytes): (r: Result<(Frame, nat), Error>)
    ensures r.Ok? ==> HEADER_BYTES <= r.value.1 <= |raw|
  {
    if |raw| < HEADER_BYTES then Err(Truncated)
    else
      var size := FromBig4(raw[12..16]);
      if raw[..8] != MAGIC || raw[8] != SCHEMA || size > MAX_PAYLOAD_BYTES then Err(HeaderInvalid)
      else if |raw| < HEADER_BYTES + size then Err(Truncated)
      else if raw[9] != 1 && raw[9] != 2 then Err(PayloadInvalid)
      else
        var body := raw[HEADER_BYTES..HEADER_BYTES + size];
        var parsed := ParseValue(body);
        if parsed.None? || parsed.value.1 != [] || !parsed.value.0.Obj? || Print(parsed.value.0) != body
        then Err(PayloadInvalid)
        else Ok((Frame(if raw[9] == 1 then PRE else POST, FromBig2(raw[10..12]), parsed.value.0),
                 HEADER_BYTES + size))
  }

  lemma BigRoundTrips(s: nat, n: nat)
    requires s < 0x1_0000 && n < 0x1_0000_0000
    ensures FromBig2(Big2(s)) == s && FromBig4(Big4(n)) == n
  {
    assert Big4(n)[..2] == Big2(n / 0x1_0000) && Big4(n)[2..] == Big2(n % 0x1_0000);
  }

  lemma BigTripsBack(two: Bytes, four: Bytes)
    requires |two| == 2 && |four| == 4
    ensures FromBig2(two) < 0x1_0000 && FromBig4(four) < 0x1_0000_0000
    ensures Big2(FromBig2(two)) == two && Big4(FromBig4(four)) == four
  {
    var a, b := four[..2], four[2..];
    assert FromBig4(four) / 0x1_0000 == FromBig2(a) && FromBig4(four) % 0x1_0000 == FromBig2(b);
    assert four == a + b;
  }

  lemma HeaderFields(kind: FrameType, sequence: nat, size: nat, rest: Bytes)
    requires sequence < 0x1_0000 && size < 0x1_0000_0000
    ensures var raw := Header(kind, sequence, size) + rest;
      && raw[..8] == MAGIC && raw[8] == SCHEMA && raw[9] == KindByte(kind)
      && raw[10..12] == Big2(sequence) && raw[12..16] == Big4(size) && raw[16..] == rest
  {
  }

  /** Refused exactly for a sequence out of 16 bits, no object or too long a text; otherwise, byte by byte: */
  lemma EncodedBytes(kind: FrameType, sequence: int, payload: Json)
    ensures Encode(kind, sequence, payload).Ok? <==>
      0 <= sequence <= 65535 && payload.Obj? && |Print(payload)| <= 2048
    ensures Encode(kind, sequence, payload).Ok? ==>
      var n := |Print(payload)|;
      Encode(kind, sequence, payload).value
        == [77, 51, 86, 52, 82, 67, 80, 33, 1, if kind == PRE then 1 else 2]
           + [sequence / 256, sequence % 256]
           + [n / 16777216, n / 65536 % 256, n / 256 % 256, n % 256]
           + Print(payload)
  {
    var n := |Print(payload)|;
    if Encode(kind, sequence, payload).Ok? {
      assert n / 65536 / 256 == n / 16777216 && n % 65536 / 256 == n / 256 % 256 && n % 65536 % 256 == n % 256;
    }
  }

  /** A split surrogate pair anywhere in the payload, and only that, breaks the round trip. */
  lemma DecodeEncode(kind: FrameType, sequence: int, payload: Json, rest: Bytes)
    requires Encode(kind, sequence, payload).Ok? && Canonical(payload)
    ensures var bytes := Encode(kind, sequence, payload).value;
      Decode(bytes + rest) == Ok((Frame(kind, sequence, payload), |bytes|)) <==> Clean(payload)
  {
    var body := Print(payload);
    var bytes := Encode(kind, sequence, payload).value;
    var raw := bytes + rest;
    assert raw == Header(kind, sequence, |body|) + (body + rest);
    HeaderFields(kind, sequence, |body|, body + rest);
    BigRoundTrips(sequence, |body|);
    assert raw[16..16 + |body|] == body;
    if Clean(payload) {
      ParsePrinted(payload, []);
      assert body + [] == body;
    }
  }

  /** Whatever is accepted is exactly the encoding of what it decodes to. */
  lemma EncodeDecode(raw: Bytes)
    requires Decode(raw).Ok?
    ensures var (frame, used) := Decode(raw).value;
      && Encode(frame.kind, frame.sequence, frame.payload) == Ok(raw[..used])
      && Canonical(frame.payload) && Clean(frame.payload)
  {
    var (frame, used) := Decode(raw).value;
    var body := raw[16..used];
    BigTripsBack(raw[10..12], raw[12..16]);
    assert raw[..used] == raw[..8] + [raw[8], raw[9]] + raw[10..12] + raw[12..16] + body;
  }

  /** Decoding looks at the frame only: what follows it never matters. */
  lemma DecodeIgnoresRest(raw: Bytes, rest: Bytes)
    requires Decode(raw).Ok?
    ensures Decode(raw[..Decode(raw).value.1] + rest) == Decode(raw)
  {
    var (frame, used) := Decode(raw).value;
    EncodeDecode(raw);
    DecodeEncode(frame.kind, frame.sequence, frame.payload, rest);
  }

  /** The smallest failing payload: one empty key with a high and a low surrogate as its string. */
  lemma SplitPairBreaksRoundTrip()
    ensures var payload := Obj([Member([], Str([0xD800, 0xDC00]))]);
      && Encode(PRE, 0, payload).Ok?
      && Decode(Encode(PRE, 0, payload).value) != Ok((Frame(PRE, 0, payload), |Encode(PRE, 0, payload).value|))
  {
    var t: Text := [0xD800, 0xDC00];
    var payload := Obj([Member([], Str(t))]);
    assert High(t[0]) && Low(t[1]);
    assert !Clean(payload.members[0].value);
    SplitPairIsSmall();
    assert Encode(PRE, 0, payload).Ok?;
    DecodeEncode(PRE, 0, payload, []);
    assert Encode(PRE, 0, payload).value + [] == Encode(PRE, 0, payload).value;
  }

  lemma SplitPairIsSmall()
    ensures |Print(Obj([Member([], Str([0xD800, 0xDC00]))]))| <= MAX_PAYLOAD_BYTES
  {
    var t: Text := [0xD800, 0xDC00];
    var m := Member([], Str(t));
    assert [m][1..] == [];
    assert t[1..] == [0xDC00] && t[1..][1..] == [];
    assert Split(t[1..][1..]) == [];
    assert Split(t[1..]) == [0xDC00];
    assert Split(t) == [0xD800, 0xDC00];
    assert |PrintUnit(0xD800)| == 6 && |PrintUnit(0xDC00)| == 6;
    var us: seq<Unit> := [0xD800, 0xDC00];
    assert us[1..] == [0xDC00] && us[1..][1..] == [];
    assert PrintUnits(us[1..][1..]) == [];
    assert |PrintUnits(us[1..])| == 6;
    assert |PrintUnits(us)| == 12;
    assert |PrintText(t)| == 14;
    assert |PrintText([])| == 2;
    assert PrintMoreMembers([]) == [125];
  }
}
