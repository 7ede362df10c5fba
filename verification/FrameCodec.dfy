/**
 The C6 frame codec: start marker, body, check word (low byte first), end marker.
 The body is version, type, sequence, payload length and payload. Decoding inverts
 encoding and accepts nothing else; a damaged frame of the same length is refused
 whenever the damage is detectable by the check word.
 */
module FrameCodec {
  import opened Wrappers
  import CrcNumeric

  import opened Crc16
  import opened CrcDetection

  const MAXIMUM_PAYLOAD := 240
  const MAXIMUM_ENCODED_SIZE := 250
  const START: Byte := 0x7E
  const END: Byte := 0x7F

  // `messageType` keeps the raw byte: the codec casts it without checking.
  datatype Frame = Frame(
    version: Byte, messageType: Byte, sequence: Word, payload: seq<Byte>, payloadLength: Word)
  {
    ghost predicate Valid() { |payload| == MAXIMUM_PAYLOAD }
  }

  // ------------------------------------------------------------ the wire format

  function Body(frame: Frame): (bytes: seq<Byte>)
    requires frame.Valid() && frame.payloadLength <= MAXIMUM_PAYLOAD
    ensures |bytes| == 6 + frame.payloadLength
  {
    [frame.version, frame.messageType] + WordBytes(frame.sequence)
    + WordBytes(frame.payloadLength) + frame.payload[..frame.payloadLength]
  }

  function Wire(frame: Frame): (bytes: seq<Byte>)
    requires frame.Valid() && frame.payloadLength <= MAXIMUM_PAYLOAD
    ensures |bytes| == 10 + frame.payloadLength
  {
    [START] + Body(frame) + WordBytes(Checksum(Body(frame))) + [END]
  }

  function Inner(bytes: seq<Byte>): seq<Byte>
    requires |bytes| >= 2
  {
    bytes[1..|bytes| - 1]
  }

  // ------------------------------------------------------------------ the methods

  method Encode(frame: Frame, output: array<Byte>, oldLength: nat)
    returns (ok: bool, outputLength: nat)
    requires frame.Valid() && output.Length == MAXIMUM_ENCODED_SIZE
    modifies output
    ensures ok <==> frame.payloadLength <= 240
    ensures ok ==> outputLength == 10 + frame.payloadLength
    ensures ok ==> output[..outputLength] == Wire(frame)
    ensures ok ==> output[outputLength..] == old(output[..])[outputLength..]
    ensures !ok ==> output[..] == old(output[..]) && outputLength == oldLength
  {
    hide Checksum;
    hide Body;
    if frame.payloadLength > MAXIMUM_PAYLOAD { return false, oldLength; }
    var required := 10 + frame.payloadLength;
    if required > output.Length { return false, oldLength; }
    WriteBody(frame, output);
    var crcOffset := 7 + frame.payloadLength;
    ghost var start, rest := output[..crcOffset], output[crcOffset..];
    assert output[1..crcOffset] == start[1..] == Body(frame);
    var checksum := ComputeChecksum(output[1..crcOffset]);
    output[crcOffset] := checksum % 256;
    output[crcOffset + 1] := checksum / 256;
    output[crcOffset + 2] := END;
    assert output[..crcOffset] == start;
    assert output[..crcOffset + 3] == start + WordBytes(checksum) + [END];
    assert output[crcOffset + 3..] == rest[3..];
    return true, crcOffset + 3;
  }

  // The start marker, the header fields and the copy of the payload.
  method WriteBody(frame: Frame, output: array<Byte>)
    requires frame.Valid() && frame.payloadLength <= MAXIMUM_PAYLOAD
    requires output.Length == MAXIMUM_ENCODED_SIZE
    modifies output
    ensures output[..7 + frame.payloadLength] == [START] + Body(frame)
    ensures output[7 + frame.payloadLength..] == old(output[7 + frame.payloadLength..])
  {
    output[0], output[1], output[2] := START, frame.version, frame.messageType;
    output[3] := frame.sequence % 256;
    output[4] := frame.sequence / 256;
    output[5] := frame.payloadLength % 256;
    output[6] := frame.payloadLength / 256;
    forall i | 0 <= i < frame.payloadLength { output[7 + i] := frame.payload[i]; }
  }

  lemma {:induction false} PartOfInput(bytes: array<Byte>, length: nat, from: nat, to: nat)
    requires from <= to <= length <= bytes.Length
    ensures bytes[from..to] == bytes[..length][from..to]
  {}

  // `bytes` may be a null pointer; `length` is the caller's count of readable bytes.
  method Decode(bytes: array?<Byte>, length: nat, frame: Frame)
    returns (ok: bool, decoded: Frame)
    requires bytes != null ==> length <= bytes.Length
    requires frame.Valid()
    ensures bytes == null ==> !ok
    ensures bytes != null ==> ok == Decoded(bytes[..length], frame).Some?
    ensures decoded == if ok then Decoded(bytes[..length], frame).value else frame
  {
    if bytes == null || length < 10 || bytes[0] != START || bytes[length - 1] != END {
      return false, frame;
    }
    hide Checksum;
    ghost var input := bytes[..length];
    var payloadLength := MakeWord(bytes[5], bytes[6]);
    if payloadLength > MAXIMUM_PAYLOAD || length != payloadLength + 10 {
      return false, frame;
    }
    var crcOffset := 7 + payloadLength;
    var expected := MakeWord(bytes[crcOffset], bytes[crcOffset + 1]);
    PartOfInput(bytes, length, 1, crcOffset);
    var checksum := ComputeChecksum(bytes[1..crcOffset]);
    if expected != checksum { return false, frame; }
    PartOfInput(bytes, length, 7, crcOffset);
    return true, Frame(bytes[1], bytes[2], MakeWord(bytes[3], bytes[4]),
                       bytes[7..crcOffset] + frame.payload[payloadLength..], payloadLength);
  }

  // What decoding a byte string into an existing frame object yields.
  function Decoded(bytes: seq<Byte>, frame: Frame): (decoded: Option<Frame>)
    requires frame.Valid()
    ensures decoded.Some? ==> decoded.value.Valid()
  {
    if |bytes| < 10 || bytes[0] != START || bytes[|bytes| - 1] != END then None
    else
      var payloadLength := MakeWord(bytes[5], bytes[6]);
      if payloadLength > MAXIMUM_PAYLOAD || |bytes| != payloadLength + 10 then None
      else
        var crcOffset := 7 + payloadLength;
        if MakeWord(bytes[crcOffset], bytes[crcOffset + 1]) != Checksum(bytes[1..crcOffset]) then None
        else Some(Frame(bytes[1], bytes[2], MakeWord(bytes[3], bytes[4]),
                        bytes[7..crcOffset] + frame.payload[payloadLength..], payloadLength))
  }

  // ------------------------------------------------------------------ round trips

  lemma {:induction false} BodyParts(frame: Frame)
    requires frame.Valid() && frame.payloadLength <= MAXIMUM_PAYLOAD
    ensures var body, n := Body(frame), frame.payloadLength;
      && body[0] == frame.version && body[1] == frame.messageType
      && body[2..4] == WordBytes(frame.sequence) && body[4..6] == WordBytes(n)
      && body[6..] == frame.payload[..n]
  {
    hide WordBytes;
  }

  lemma {:induction false} WireParts(body: seq<Byte>, check: seq<Byte>)
    requires |check| == 2 && |body| >= 6
    ensures var wire, end := [START] + body + check + [END], 1 + |body|;
      && wire[0] == START && wire[end + 2] == END && wire[1..end] == body
      && wire[end] == check[0] && wire[end + 1] == check[1]
      && (forall i :: 0 <= i < |body| ==> wire[i + 1] == body[i])
      && wire[1] == body[0] && wire[2] == body[1]
      && wire[3] == body[2..4][0] && wire[4] == body[2..4][1]
      && wire[5] == body[4..6][0] && wire[6] == body[4..6][1]
      && wire[7..end] == body[6..]
  {}

  // The wire form byte by byte.
  lemma {:induction false} WireLayout(frame: Frame)
    requires frame.Valid() && frame.payloadLength <= MAXIMUM_PAYLOAD
    ensures var wire, n := Wire(frame), frame.payloadLength;
      && |wire| == 10 + n
      && wire[0] == 0x7E && wire[9 + n] == 0x7F
      && wire[1] == frame.version && wire[2] == frame.messageType
      && wire[3] as nat + 256 * wire[4] as nat == frame.sequence
      && wire[5] as nat + 256 * wire[6] as nat == n
      && wire[7..7 + n] == frame.payload[..n]
      && wire[7 + n] as nat + 256 * wire[8 + n] as nat == CrcNumeric.CrcNumber(0xFFFF, wire[1..7 + n])
  {
    hide Checksum;
    var body := Body(frame);
    var sum := Checksum(body);
    BodyParts(frame);
    WireParts(body, WordBytes(sum));
    BytesOfWord(frame.sequence);
    BytesOfWord(frame.payloadLength);
    BytesOfWord(sum);
    CrcNumeric.ChecksumIsNumber(body);
    hide WordBytes;
    hide Body;
  }

  lemma {:induction false} RoundTrip(frame: Frame, previous: Frame)
    requires frame.Valid() && previous.Valid() && frame.payloadLength <= MAXIMUM_PAYLOAD
    ensures var n := frame.payloadLength;
      Decoded(Wire(frame), previous)
      == Some(frame.(payload := frame.payload[..n] + previous.payload[n..]))
  {
    hide Checksum;
    var body := Body(frame);
    var sum := Checksum(body);
    BodyParts(frame);
    WireParts(body, WordBytes(sum));
    BytesOfWord(frame.sequence);
    BytesOfWord(frame.payloadLength);
    BytesOfWord(sum);
    hide WordBytes;
    hide MakeWord;
    hide Body;
  }

  // Decoding accepts nothing but encodings.
  lemma {:induction false} AcceptedIsWire(bytes: seq<Byte>, previous: Frame)
    requires previous.Valid() && Decoded(bytes, previous).Some?
    ensures var frame := Decoded(bytes, previous).value;
      frame.payloadLength <= MAXIMUM_PAYLOAD && bytes == Wire(frame)
  {
    hide Checksum;
    var frame := Decoded(bytes, previous).value;
    var n := frame.payloadLength;
    WordOfBytes(bytes[3], bytes[4]);
    WordOfBytes(bytes[5], bytes[6]);
    WordOfBytes(bytes[7 + n], bytes[8 + n]);
    hide WordBytes;
    hide MakeWord;
    assert frame.payload[..n] == bytes[7..7 + n];
    assert Body(frame) == [bytes[1], bytes[2]] + [bytes[3], bytes[4]] + [bytes[5], bytes[6]] + bytes[7..7 + n];
    assert bytes[1..7 + n] == Body(frame);
    assert bytes == [START] + bytes[1..7 + n] + [bytes[7 + n], bytes[8 + n]] + [END];
  }

  // --------------------------------------------------------------- damaged frames

  ghost predicate Marked(x: seq<Byte>) {
    && 10 <= |x| <= MAXIMUM_ENCODED_SIZE
    && x[0] == START && x[|x| - 1] == END && Codeword(Inner(x))
  }

  // Between its markers an accepted string is a codeword: the check register over
  // the body and its own two check bytes ends at zero.
  lemma {:induction false} AcceptedIsCodeword(bytes: seq<Byte>, previous: Frame)
    requires previous.Valid() && Decoded(bytes, previous).Some?
    ensures Marked(bytes)
  {
    AcceptedIsWire(bytes, previous);
    var frame := Decoded(bytes, previous).value;
    var body := Body(frame);
    var check := WordBytes(Checksum(body));
    assert Inner(bytes) == body + check;
    WordBytesBits(Crc(body));
    CodewordIff(body, check, Crc(body));
  }

  lemma {:induction false} OnesConcat(x: BitString, y: BitString)
    ensures Ones(x + y) == Ones(x) + Ones(y)
  {
    if x == [] {
      assert x + y == y;
    } else {
      assert (x + y)[1..] == x[1..] + y;
      OnesConcat(x[1..], y);
    }
  }

  lemma {:induction false} EqualEnds(first: BitString, x: BitString, y: BitString, last: BitString)
    requires |x| == |y|
    ensures XorBits(first + x + last, first + y + last) == Zeros(|first|) + XorBits(x, y) + Zeros(|last|)
  {}

  // Damage that leaves both markers intact is damage of the part between them.
  lemma {:induction false} InnerDifference(x: seq<Byte>, y: seq<Byte>)
    requires |x| == |y| && |x| >= 2 && x[0] == y[0] && x[|x| - 1] == y[|y| - 1]
    ensures Ones(Difference(x, y)) == Ones(Difference(Inner(x), Inner(y)))
    ensures Difference(Inner(x), Inner(y)) == Difference(x, y)[8..8 * |x| - 8]
  {
    var n := |x|;
    var inner := Difference(Inner(x), Inner(y));
    BitsOfMarked(x);
    BitsOfMarked(y);
    EqualEnds(ToBits(x[0], 8), Bits(Inner(x)), Bits(Inner(y)), ToBits(x[n - 1], 8));
    hide Bits;
    hide ToBits;
    hide Ones;
    hide XorBits;
    OnesConcat(Zeros(8) + inner, Zeros(8));
    OnesConcat(Zeros(8), inner);
    OnesZero(Zeros(8));
  }

  lemma {:induction false} BitsOfMarked(x: seq<Byte>)
    requires |x| >= 2
    ensures Bits(x) == ToBits(x[0], 8) + Bits(Inner(x)) + ToBits(x[|x| - 1], 8)
  {
    var last := [x[|x| - 1]];
    assert x[1..] == Inner(x) + last;
    BitsConcat(Inner(x), last);
    assert last[1..] == [];
    assert Bits(last) == ToBits(last[0], 8);
  }

  lemma {:induction false} InnerDetectable(e: BitString)
    requires |e| >= 16 && Detectable(e)
    requires Ones(e) == Ones(e[8..|e| - 8])
    ensures Detectable(e[8..|e| - 8])
  {
    if from: int :| Within(e, from, 16) {
      var inner := e[8..|e| - 8];
      forall i | 0 <= i < |inner| && inner[i] ensures from - 8 <= i < from - 8 + 16 {
        assert e[i + 8];
      }
      assert Within(inner, from - 8, 16);
    }
  }

  lemma {:induction false} MarkedApart(x: seq<Byte>, y: seq<Byte>)
    requires Marked(x) && Marked(y) && |x| == |y|
    requires Detectable(Difference(x, y))
    ensures x == y
  {
    InnerDifference(x, y);
    InnerDetectable(Difference(x, y));
    if Inner(x) != Inner(y) {
      ChecksumsDiffer(Inner(x), Inner(y));
    } else {
      assert x == [START] + Inner(x) + [END];
      assert y == [START] + Inner(y) + [END];
    }
  }

  // No two acceptable strings of one length are a detectable difference apart.
  lemma {:induction false} AcceptedApart(x: seq<Byte>, y: seq<Byte>, previous: Frame)
    requires previous.Valid() && |x| == |y| && x != y
    requires Decoded(x, previous).Some? && Detectable(Difference(x, y))
    ensures Decoded(y, previous).None?
  {
    AcceptedIsCodeword(x, previous);
    if Decoded(y, previous).Some? {
      AcceptedIsCodeword(y, previous);
      MarkedApart(x, y);
    }
  }

  // The main result on frames: every same-length corruption confined to 16
  // consecutive wire bits, of an odd number of wire bits, or of at most three wire
  // bits, wherever it falls, is rejected.
  lemma {:induction false} DamagedFrameRejected(frame: Frame, damaged: seq<Byte>, previous: Frame)
    requires frame.Valid() && previous.Valid() && frame.payloadLength <= MAXIMUM_PAYLOAD
    requires |damaged| == |Wire(frame)| && damaged != Wire(frame)
    requires var e := Difference(Wire(frame), damaged);
      || (exists from: int :: Within(e, from, 16))
      || Ones(e) % 2 == 1
      || Ones(e) <= 3
    ensures Decoded(damaged, previous).None?
  {
    RoundTrip(frame, previous);
    AcceptedApart(Wire(frame), damaged, previous);
  }
}
