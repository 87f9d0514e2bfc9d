/**
 Frames of the multiplexer: a varint of the stream id and the flag, a varint of the length, and the
 payload; and the marker that tells a frame meant for this end from one meant for the wire.
 */
module MplexHeaders {
  import opened Bytes
  import opened Wrappers
  import V = Varint

  type Payload = seq<byte>

  datatype Flag = NewStream | Message | CloseStream | Disconnected | HandshakeReq | HandshakeRes | Liveliness

  datatype Frame = Frame(id: nat, flag: Flag, payload: Payload)

  // The slice of the payload panics when the buffer is too short for it; the rest are ordinary errors.
  datatype Error = InvalidHeader | InvalidLength | InvalidFlag | Panicked

  const ID_LIMIT: nat := 0x2000_0000

  function Tag(flag: Flag): nat {
    match flag
    case NewStream => 1
    case Message => 2
    case CloseStream => 3
    case Disconnected => 4
    case HandshakeReq => 5
    case HandshakeRes => 6
    case Liveliness => 7
  }

  function FromTag(tag: nat): Option<Flag> {
    match tag
    case 1 => Some(NewStream)
    case 2 => Some(Message)
    case 3 => Some(CloseStream)
    case 4 => Some(Disconnected)
    case 5 => Some(HandshakeReq)
    case 6 => Some(HandshakeRes)
    case 7 => Some(Liveliness)
    case _ => None
  }

  // The id is shifted by three bits in 32, so its top three bits are lost.
  function HeaderValue(id: nat, flag: Flag): nat { (id * 8) % Pow256(4) + Tag(flag) }

  function BuildFrame(f: Frame): seq<byte> {
    V.Encode(HeaderValue(f.id, f.flag)) + V.Encode(|f.payload|) + f.payload
  }

  method WriteFrame(f: Frame) returns (buf: seq<byte>)
    ensures buf == BuildFrame(f)
  {
    buf := [];
    buf := buf + V.Encode(HeaderValue(f.id, f.flag));
    buf := buf + V.Encode(|f.payload|);
    buf := buf + f.payload;
  }

  function ProcessHeader(buf: seq<byte>): Result<(nat, Flag, nat, nat), Error> {
    match V.DecodeU32(buf)
    case Err(_) => Err(InvalidHeader)
    case Ok((header, remaining)) =>
      match V.DecodeUsize(remaining)
      case Err(_) => Err(InvalidLength)
      case Ok((length, _)) =>
        match FromTag(header % 8)
        case None => Err(InvalidFlag)
        case Some(flag) => Ok((header / 8, flag, |buf| - |remaining|, length))
  }

  // What the connection reads out of a buffer: header and length again, then the slice.
  function ParseFrame(buf: seq<byte>): Result<Frame, Error> {
    match ProcessHeader(buf)
    case Err(e) => Err(e)
    case Ok((id, flag, _, length)) =>
      match V.DecodeU32(buf)
      case Err(_) => Err(InvalidHeader)
      case Ok((_, remaining)) =>
        match V.DecodeUsize(remaining)
        case Err(_) => Err(InvalidLength)
        case Ok((_, rest)) =>
          if length > |rest| then Err(Panicked) else Ok(Frame(id, flag, rest[..length]))
  }

  lemma HeaderSplits(id: nat, flag: Flag)
    ensures HeaderValue(id, flag) < Pow256(4)
    ensures HeaderValue(id, flag) / 8 == id % ID_LIMIT
    ensures HeaderValue(id, flag) % 8 == Tag(flag)
  {
    assert Pow256(4) == 0x1_0000_0000 == ID_LIMIT * 8;
    assert (id * 8) % (ID_LIMIT * 8) == (id % ID_LIMIT) * 8;
  }

  // Whatever trails a frame, parsing gives back flag and payload, and the id modulo 2^29.
  lemma FrameRoundTrip(f: Frame, trailing: seq<byte>)
    requires |f.payload| < Pow256(8)
    ensures ParseFrame(BuildFrame(f) + trailing) == Ok(f.(id := f.id % ID_LIMIT))
  {
    HeaderSplits(f.id, f.flag);
    var buf := BuildFrame(f) + trailing;
    var afterLength := f.payload + trailing;
    var afterHeader := V.Encode(|f.payload|) + afterLength;
    assert buf == V.Encode(HeaderValue(f.id, f.flag)) + afterHeader;
    V.U32RoundTrip(HeaderValue(f.id, f.flag), afterHeader);
    V.UsizeRoundTrip(|f.payload|, afterLength);
    assert afterLength[..|f.payload|] == f.payload;
  }

  lemma EmptyFrameIsShort(id: nat, flag: Flag)
    ensures |BuildFrame(Frame(id, flag, []))| <= 6
  {
    HeaderSplits(id, flag);
    V.U32Fits();
    V.EncodeIsShort(HeaderValue(id, flag), 5);
  }

  // So the id survives exactly when it fits in 29 bits.
  lemma IdSurvivesIff(f: Frame, trailing: seq<byte>)
    requires |f.payload| < Pow256(8)
    ensures ParseFrame(BuildFrame(f) + trailing) == Ok(f) <==> f.id < ID_LIMIT
  {
    FrameRoundTrip(f, trailing);
  }

  // A frame whose id and length are small: one byte with the id and the number of the flag, one with the
  // length, and the payload.
  lemma SmallFrame(f: Frame)
    requires f.id < 16 && |f.payload| < 128
    ensures var number := match f.flag
                          case NewStream => 1
                          case Message => 2
                          case CloseStream => 3
                          case Disconnected => 4
                          case HandshakeReq => 5
                          case HandshakeRes => 6
                          case Liveliness => 7;
      BuildFrame(f) == [f.id * 8 + number, |f.payload|] + f.payload
  {
    assert Pow256(4) == 0x1_0000_0000;
  }

  // Nothing parses but frames: where the header has 32 bits and the length 64, a buffer parses to `f` exactly
  // when it is `f` built, and whatever trails.
  lemma ParsesOnlyFrames(buf: seq<byte>, f: Frame)
    requires V.DecodeGroups(buf, 5, true).Ok? && V.DecodeGroups(buf, 5, true).value.0 < Pow256(4)
    requires var length := V.DecodeGroups(V.DecodeGroups(buf, 5, true).value.1, 10, true);
      length.Ok? && length.value.0 < Pow256(8)
    ensures ParseFrame(buf) == Ok(f) <==>
      f.id < ID_LIMIT && |f.payload| < Pow256(8) && exists trailing :: buf == BuildFrame(f) + trailing
  {
    if ParseFrame(buf) == Ok(f) { ParsedIsBuilt(buf, f); }
    if trailing :| f.id < ID_LIMIT && |f.payload| < Pow256(8) && buf == BuildFrame(f) + trailing {
      FrameRoundTrip(f, trailing);
    }
  }

  lemma HeaderComposes(header: nat, flag: Flag)
    requires header < Pow256(4) && FromTag(header % 8) == Some(flag)
    ensures header / 8 < ID_LIMIT && HeaderValue(header / 8, flag) == header
  {
    assert Pow256(4) == 0x1_0000_0000 == ID_LIMIT * 8;
  }

  lemma ParsedIsBuilt(buf: seq<byte>, f: Frame)
    requires V.DecodeGroups(buf, 5, true).Ok? && V.DecodeGroups(buf, 5, true).value.0 < Pow256(4)
    requires var length := V.DecodeGroups(V.DecodeGroups(buf, 5, true).value.1, 10, true);
      length.Ok? && length.value.0 < Pow256(8)
    requires ParseFrame(buf) == Ok(f)
    ensures f.id < ID_LIMIT && |f.payload| < Pow256(8) && exists trailing :: buf == BuildFrame(f) + trailing
  {
    var (header, rest) := V.DecodeGroups(buf, 5, true).value;
    var (length, body) := V.DecodeGroups(rest, 10, true).value;
    V.DecodedIsEncoding(buf, 5, true);
    V.DecodedIsEncoding(rest, 10, true);
    V.SmallMod(header, Pow256(4));
    V.SmallMod(length, Pow256(8));
    assert V.DecodeU32(buf) == Ok((header, rest)) && V.DecodeUsize(rest) == Ok((length, body));
    hide V.DecodeGroups, V.Encode, V.DecodeU32, V.DecodeUsize, Pow256, FromTag, HeaderValue;
    assert FromTag(header % 8) == Some(f.flag) && f.id == header / 8 && f.payload == body[..length];
    HeaderComposes(header, f.flag);
    assert body == f.payload + body[length..];
    BuiltIs(f, header, buf, rest, body, body[length..]);
  }

  lemma BuiltIs(f: Frame, header: nat, buf: seq<byte>, rest: seq<byte>, body: seq<byte>, trailing: seq<byte>)
    requires HeaderValue(f.id, f.flag) == header && buf == V.Encode(header) + rest
    requires rest == V.Encode(|f.payload|) + body && body == f.payload + trailing
    ensures buf == BuildFrame(f) + trailing
  {
    hide V.Encode, HeaderValue;
  }

  // How a buffer can fail to parse.
  lemma ParseFails(buf: seq<byte>)
    ensures var r, header := ParseFrame(buf), V.DecodeU32(buf);
      && (r == Err(InvalidHeader) <==> header.Err?)
      && (header.Ok? ==>
            var length := V.DecodeUsize(header.value.1);
            && (r == Err(InvalidLength) <==> length.Err?)
            && (r == Err(InvalidFlag) <==> length.Ok? && header.value.0 % 8 == 0)
            && (r == Err(Panicked) <==>
                  length.Ok? && header.value.0 % 8 != 0 && length.value.0 > |length.value.1|))
  {
    hide V.DecodeU32, V.DecodeUsize;
  }

  // ---------- the in-band marker ----------

  // The bytes of "internal-payload".
  const INTERNAL: seq<byte> := [105, 110, 116, 101, 114, 110, 97, 108, 45, 112, 97, 121, 108, 111, 97, 100]

  predicate StartsWith(data: seq<byte>, prefix: seq<byte>) {
    |prefix| <= |data| && data[..|prefix|] == prefix
  }

  function Marked(f: Frame): seq<byte> { INTERNAL + BuildFrame(f) }

  lemma FirstByte(v: nat)
    ensures V.Encode(v)[0] < 128 ==> V.Encode(v) == [v]
  {}

  // The frames a receiver of the queue would take for internal ones.
  ghost predicate LooksInternal(f: Frame) {
    && f.flag == NewStream && f.id % ID_LIMIT == 13 && |f.payload| == 110
    && f.payload[..14] == INTERNAL[2..]
  }

  // A frame starts with the marker only if it opens stream 13 with a 110-byte payload that spells out
  // the rest of the marker.
  lemma MistakenForInternalIff(f: Frame)
    ensures StartsWith(BuildFrame(f), INTERNAL) <==> LooksInternal(f)
  {
    HeaderSplits(f.id, f.flag);
    var header, length := V.Encode(HeaderValue(f.id, f.flag)), V.Encode(|f.payload|);
    var data := BuildFrame(f);
    if StartsWith(data, INTERNAL) {
      assert data[0] == INTERNAL[0] && data[0] == header[0];
      FirstByte(HeaderValue(f.id, f.flag));
      assert HeaderValue(f.id, f.flag) == 105;
      assert data[1] == INTERNAL[1] && data[1] == length[0];
      FirstByte(|f.payload|);
      assert data == INTERNAL[..2] + f.payload;
      assert data[2..16] == INTERNAL[2..];
      assert data[2..16] == f.payload[..14];
    }
    if LooksInternal(f) {
      assert HeaderValue(f.id, f.flag) == 105;
      assert data == INTERNAL[..2] + f.payload;
      assert data[..16] == INTERNAL[..2] + f.payload[..14];
      assert INTERNAL == INTERNAL[..2] + INTERNAL[2..];
    }
  }

  // No data, handshake, liveliness or closing frame, and no stream opened without a payload, can be
  // mistaken; and the frame behind a marker is recovered by stripping it.
  lemma WireFramesAreNotInternal(f: Frame)
    requires f.flag != NewStream || f.payload == []
    ensures !StartsWith(BuildFrame(f), INTERNAL)
    ensures StartsWith(Marked(f), INTERNAL) && Marked(f)[|INTERNAL|..] == BuildFrame(f)
  {
    MistakenForInternalIff(f);
  }
}
