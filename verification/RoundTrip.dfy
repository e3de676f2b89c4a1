/** Requests that a client encodes and the server decodes. */
module RoundTrip {
  import opened Bytes
  import opened Operation
  import opened ApplicationDataUnit
  import opened Machine
  import opened BitWrite

  /** As many values as the count says. */
  predicate ValuesMatch(r: Request) {
    match r
    case WriteCoils(_, n, bits) => |bits| == n
    case WriteRegisters(_, n, words) => |words| == n
    case ReadWrite(_, _, _, n, words) => |words| == n
    case _ => true
  }

  /** The function code is one its request class exists for. */
  predicate CodeFits(r: Request) {
    match r
    case ReadBits(f, _, _) => f == READ_COILS || f == READ_DISCRETE_INPUTS
    case ReadRegisters(f, _, _) => f == READ_HOLDING_REGISTERS || f == READ_INPUT_REGISTERS
    case _ => true
  }

  function RequestFrame(t: word, u: byte, r: Request): (p: Packet)
    requires Encodes(r)
    ensures |p| > HEADER_LENGTH
  {
    Frame(t, u, FunctionOf(r), RequestData(r))
  }

  /** With matching values `encode` returns exactly for up to 255 coils and 127 registers:
      above that the 8-bit byte counts no longer fit the data. */
  lemma EncodesExactly(r: Request)
    requires ValuesMatch(r)
    ensures Encodes(r) <==>
      match r
      case WriteCoils(_, n, _) => n <= 255
      case WriteRegisters(_, n, _) => n <= 127
      case ReadWrite(_, _, _, n, _) => n <= 127
      case _ => true
  {
    if r.WriteCoils? {
      assert r.count as int == r.count / 0x100 * 0x100 + r.count % 0x100;
    }
  }

  /** What the server reads out of a frame the client encoded: the values resized to the count. */
  function Received(r: Request): Request {
    match r
    case WriteCoils(a, n, bits) => WriteCoils(a, n, Resize(bits, n, false))
    case WriteRegisters(a, n, words) => WriteRegisters(a, n, Resize(words, n, 0))
    case ReadWrite(ra, rn, wa, n, words) => ReadWrite(ra, rn, wa, n, Resize(words, n, 0))
    case _ => r
  }

  lemma ReceivedMatching(r: Request)
    requires ValuesMatch(r)
    ensures Received(r) == r
  {
  }

  lemma ParseWriteRegisters(p: Packet, t: word, u: byte, r: Request)
    requires r.WriteRegisters? && Encodes(r) && p == RequestFrame(t, u, r)
    ensures LongEnough(p) && Parse(p) == Good(Received(r))
  {
    assert p[8..] == RequestData(r);
    assert p[13..] == PackWords(r.words);
    assert p[13..13 + 2 * |r.words|] == PackWords(r.words);
    UnpackPackWords(p, 13, r.words);
    assert UnpackH(p, 8) == r.address && UnpackH(p, 10) == r.count && p[12] == RegisterByteCount(r.count);
  }

  lemma ParseReadWrite(p: Packet, t: word, u: byte, r: Request)
    requires r.ReadWrite? && Encodes(r) && p == RequestFrame(t, u, r)
    ensures LongEnough(p) && Parse(p) == Good(Received(r))
  {
    assert p[8..] == RequestData(r);
    assert p[17..] == PackWords(r.words);
    assert p[17..17 + 2 * |r.words|] == PackWords(r.words);
    UnpackPackWords(p, 17, r.words);
    assert UnpackH(p, 8) == r.readAddress && UnpackH(p, 10) == r.readCount;
    assert UnpackH(p, 12) == r.writeAddress && UnpackH(p, 14) == r.writeCount;
    assert p[16] == RegisterByteCount(r.writeCount);
  }

  lemma WriteCoilsFields(p: Packet, t: word, u: byte, r: Request)
    requires r.WriteCoils? && Encodes(r) && p == RequestFrame(t, u, r)
    ensures |p| >= 13 && p[7] == WRITE_MULTIPLE_COILS && p[13..] == PackBits(r.bits)
    ensures UnpackH(p, 8) == r.address && UnpackH(p, 10) == r.count
  {
    assert p[8..] == RequestData(r);
  }

  lemma ParseWriteCoils(p: Packet, t: word, u: byte, r: Request)
    requires r.WriteCoils? && Encodes(r) && p == RequestFrame(t, u, r)
    ensures LongEnough(p) && Parse(p) == Good(Received(r))
  {
    WriteCoilsFields(p, t, u, r);
    SentBitsReceived(p, r.bits, r.count);
  }

  lemma SentBitsReceived(p: Packet, bits: seq<bool>, count: word)
    requires |p| >= 13 && p[13..] == PackBits(bits)
    ensures SentBits(p, 13, count) == Resize(bits, count, false)
  {
    ResizedIsSent(p, 13, count);
    UnpackPack(bits);
    ResizeTwice(bits, 8 * Ceiling8(|bits|), count);
  }

  /** Padding to whole octets before resizing makes no difference. */
  lemma ResizeTwice(bits: seq<bool>, n: nat, m: nat)
    requires |bits| <= n
    ensures Resize(Resize(bits, n, false), m, false) == Resize(bits, m, false)
  {
  }

  lemma ParseShort(p: Packet, t: word, u: byte, r: Request)
    requires !r.WriteRegisters? && !r.ReadWrite? && !r.WriteCoils? && CodeFits(r) && p == RequestFrame(t, u, r)
    ensures LongEnough(p) && Supported(p[7]) && Parse(p) == Good(r)
  {
    assert p[8..] == RequestData(r);
  }

  /** Request round trip: whenever `encode` returns, the frame is long enough and the
      server decodes it to the same request with its values resized to its count; with
      matching values that is the very request. Header fields survive too. */
  lemma RequestRoundTrip(t: word, u: byte, r: Request)
    requires Encodes(r) && CodeFits(r)
    ensures var p := RequestFrame(t, u, r);
      && LongEnough(p) && Supported(p[7]) && Parse(p) == Good(Received(r))
      && (ValuesMatch(r) ==> Parse(p) == Good(r))
      && UnpackH(p, 0) == t && UnpackH(p, 2) == 0 && UnpackH(p, 4) == |p| - 6 && p[6] == u
  {
    var p := RequestFrame(t, u, r);
    if ValuesMatch(r) { ReceivedMatching(r); }
    FrameFields(t, u, FunctionOf(r), RequestData(r));
    match r {
      case WriteRegisters(_, _, _) => ParseWriteRegisters(p, t, u, r);
      case ReadWrite(_, _, _, _, _) => ParseReadWrite(p, t, u, r);
      case WriteCoils(_, _, _) => ParseWriteCoils(p, t, u, r);
      case _ => ParseShort(p, t, u, r);
    }
  }
}
