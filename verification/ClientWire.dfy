/** The client octet by octet, with numbers written out: the frames it sends, which replies
    it triages how, and which replies it takes. */
module ClientWire {
  import opened Bytes
  import opened Operation
  import opened ApplicationDataUnit
  import opened Machine
  import opened Response
  import opened RoundTrip
  import opened Wire

  /** Requests without a list of values. */
  lemma ShortRequests(t: word, u: byte, r: Request)
    requires Encodes(r)
    ensures var p := RequestFrame(t, u, r);
      match r
      case ReadBits(f, a, n) => p == [t / 256, t % 256, 0, 0, 0, 6, u, f, a / 256, a % 256, n / 256, n % 256]
      case ReadRegisters(f, a, n) => p == [t / 256, t % 256, 0, 0, 0, 6, u, f, a / 256, a % 256, n / 256, n % 256]
      case WriteCoil(a, on) => p == [t / 256, t % 256, 0, 0, 0, 6, u, 5, a / 256, a % 256, if on then 255 else 0, 0]
      case WriteRegister(a, v) => p == [t / 256, t % 256, 0, 0, 0, 6, u, 6, a / 256, a % 256, v / 256, v % 256]
      case MaskWrite(a, m, o) =>
        p == [t / 256, t % 256, 0, 0, 0, 8, u, 22, a / 256, a % 256, m / 256, m % 256, o / 256, o % 256]
      case _ => true
  {
  }

  /** When `encode` returns: the octets of the values are as many as the 8-bit byte count says. */
  lemma EncodedWhen(r: Request)
    ensures Encodes(r) <==>
      match r
      case WriteCoils(_, n, bits) => (|bits| + 7) / 8 == (n % 256 + 7) / 8
      case WriteRegisters(_, n, words) => 2 * |words| == 2 * n % 256
      case ReadWrite(_, _, _, n, words) => 2 * |words| == 2 * n % 256
      case _ => true
  {
  }

  lemma FrameSplit(t: word, u: byte, f: byte, head: Packet, tail: Packet, data: Packet)
    requires |head| + |tail| <= 0xFFFD && data == head + tail
    ensures var p, n := Frame(t, u, f, data), 2 + |head| + |tail|;
      && p[..8 + |head|] == [t / 256, t % 256, 0, 0, n / 256, n % 256, u, f] + head
      && p[8 + |head|..] == tail
  {
  }

  /** 0x0F: coil k is bit k%8 of octet 13+k/8, and the rest is zero. */
  lemma CoilsRequest(t: word, u: byte, a: word, n: word, bits: seq<bool>)
    requires Encodes(WriteCoils(a, n, bits))
    ensures var p, size := RequestFrame(t, u, WriteCoils(a, n, bits)), (|bits| + 7) / 8;
      && |p| == 13 + size && size <= 32
      && p[..13] == [t / 256, t % 256, 0, 0, 0, 7 + size, u, 15, a / 256, a % 256, n / 256, n % 256, size]
      && BitsFrom(p, 13, bits)
  {
    var p := RequestFrame(t, u, WriteCoils(a, n, bits));
    var head := [a / 256, a % 256, n / 256, n % 256, CoilByteCount(n)];
    FrameSplit(t, u, 15, head, PackBits(bits), RequestData(WriteCoils(a, n, bits)));
    PackedFrom(p, 13, bits);
  }

  /** 0x10: register k is octets 13+2k and 14+2k. */
  lemma RegistersRequest(t: word, u: byte, a: word, n: word, words: seq<word>)
    requires Encodes(WriteRegisters(a, n, words))
    ensures var p, size := RequestFrame(t, u, WriteRegisters(a, n, words)), 2 * |words|;
      && |p| == 13 + size && size < 256
      && p[..13] == [t / 256, t % 256, 0, 0, (7 + size) / 256, (7 + size) % 256, u, 16,
                     a / 256, a % 256, n / 256, n % 256, size]
      && forall k :: 0 <= k < |words| ==> UnpackH(p, 13 + 2 * k) == words[k]
  {
    var head := [a / 256, a % 256, n / 256, n % 256, RegisterByteCount(n)];
    FrameSplit(t, u, 16, head, PackWords(words), RequestData(WriteRegisters(a, n, words)));
    WordsPacked(RequestFrame(t, u, WriteRegisters(a, n, words)), 13, words);
  }

  lemma ReadWriteHead(ra: word, rn: word, a: word, n: word, words: seq<word>) returns (head: Packet)
    requires Encodes(ReadWrite(ra, rn, a, n, words))
    ensures |head| == 9 && 2 * |words| < 256
    ensures head == [ra / 256, ra % 256, rn / 256, rn % 256, a / 256, a % 256, n / 256, n % 256, 2 * |words|]
    ensures RequestData(ReadWrite(ra, rn, a, n, words)) == head + PackWords(words)
  {
    head := [ra / 256, ra % 256, rn / 256, rn % 256, a / 256, a % 256, n / 256, n % 256, RegisterByteCount(n)];
    assert PackH(ra) + PackH(rn) + PackH(a) + PackH(n) + [RegisterByteCount(n)] == head;
  }

  /** 0x17: register k is octets 17+2k and 18+2k. */
  lemma ReadWriteRequest(t: word, u: byte, ra: word, rn: word, a: word, n: word, words: seq<word>)
    requires Encodes(ReadWrite(ra, rn, a, n, words))
    ensures var p, size := RequestFrame(t, u, ReadWrite(ra, rn, a, n, words)), 2 * |words|;
      && |p| == 17 + size && size < 256
      && p[..17] == [t / 256, t % 256, 0, 0, (11 + size) / 256, (11 + size) % 256, u, 23,
                     ra / 256, ra % 256, rn / 256, rn % 256, a / 256, a % 256, n / 256, n % 256, size]
      && forall k :: 0 <= k < |words| ==> UnpackH(p, 17 + 2 * k) == words[k]
  {
    var head := ReadWriteHead(ra, rn, a, n, words);
    FrameSplit(t, u, 23, head, PackWords(words), RequestData(ReadWrite(ra, rn, a, n, words)));
    WordsPacked(RequestFrame(t, u, ReadWrite(ra, rn, a, n, words)), 17, words);
  }

  lemma WordsPacked(p: Packet, i: nat, words: seq<word>)
    requires |p| == i + 2 * |words| && p[i..] == PackWords(words)
    ensures forall k :: 0 <= k < |words| ==> UnpackH(p, i + 2 * k) == words[k]
  {
    assert p[i..i + 2 * |words|] == p[i..];
    UnpackPackWords(p, i, words);
    forall k | 0 <= k < |words| ensures UnpackH(p, i + 2 * k) == words[k] {
      assert UnpackWords(p, i, |words|)[k] == words[k];
    }
  }

  /** Transaction, protocol, length field and unit are those of a reply. */
  predicate AnswersTo(h: Header, p: Packet) {
    |p| > 7 && UnpackH(p, 0) == h.transaction && UnpackH(p, 2) == 0 && UnpackH(p, 4) == |p| - 6 && p[6] == h.unit
  }

  /** When a packet passes, is an error, or is bad, for a client that waits for function `f`:
      anything but a reply to its own request is bad; a reply passes with any function from 1
      to 43; and it is an error with f + 128. */
  lemma Stages(h: Header, f: byte, p: Packet)
    ensures StageOf(h, f, p) != Bad ==> AnswersTo(h, p)
    ensures AnswersTo(h, p) ==>
      && (StageOf(h, f, p) == Passed <==> 1 <= p[7] <= 43 || (p[7] == f && f != 0 && f != 44))
      && (StageOf(h, f, p) == Error <==>
            !(1 <= p[7] <= 43) && f != 0 && f != 44 && (p[7] as int == f + 128 || p[7] as int == f - 128))
  {
  }

  /** What a response keeps of the header of a packet. */
  lemma HeaderKept(a: Adu, p: Packet)
    requires |p| > 7
    ensures var b := a.DecodeHeader(p);
      && b.transaction == UnpackH(p, 0) && b.length == UnpackH(p, 4) && b.unit == p[6] && b.functionCode == p[7]
      && b.func == if 1 <= p[7] <= 43 then p[7] else a.func
  {
  }

  /** An octet as the client sees it in 16 bits. */
  function Widened(o: byte, signedChar: bool): int {
    if signedChar && o >= 128 then 65280 + o else o
  }

  /** Which replies the client takes for each request: reads of bits only with a count that
      fills whole octets and equals the octet count; reads of registers only if the octet
      count, widened, is twice the count; a single coil unless the reply shows the other
      value; everything else only if the reply repeats the request. */
  lemma TakenReplies(q: Request, p: Packet, signedChar: bool)
    requires |p| > 7
    ensures Takes(q, p, signedChar) <==>
      match q
      case ReadBits(_, _, n) => n % 8 == 0 && |p| == 9 + n / 8 && Widened(p[8], signedChar) == n
      case ReadRegisters(_, _, n) => |p| == 9 + 2 * n && |p| < 65536 && Widened(p[8], signedChar) == 2 * n
      case WriteCoil(a, on) =>
        && |p| == 12 && p[8..10] == [a / 256, a % 256]
        && p[10..] != if on then [0, 0] else [255, 0]
      case WriteRegister(a, v) => |p| == 12 && p[8..] == [a / 256, a % 256, v / 256, v % 256]
      case WriteCoils(a, n, _) => |p| == 12 && p[8..] == [a / 256, a % 256, n / 256, n % 256]
      case WriteRegisters(a, n, _) => |p| == 12 && p[8..] == [a / 256, a % 256, n / 256, n % 256]
      case MaskWrite(a, m, o) =>
        |p| == 14 && p[8..] == [a / 256, a % 256, m / 256, m % 256, o / 256, o % 256]
      case ReadWrite(_, n, _, _, _) => |p| == 9 + 2 * n && p[8] as int == 2 * n
  {
  }
}
