/** What every reply of the server looks like, and what it says about the table. */
module Replies {
  import opened Bytes
  import opened BitOps
  import opened Operation
  import opened ApplicationDataUnit
  import opened DataTable
  import opened Machine

  /** A reply is an exception exactly when its function code has the top bit set. */
  predicate IsException(reply: Packet) {
    |reply| > HEADER_LENGTH && reply[7] >= 0x80
  }

  /** Every packet with a function code gets one frame: the packet's transaction and unit,
      protocol 0, a length field that counts what follows it, at most 260 octets; a
      carried-out request echoes its function code, any other gets nine octets. */
  lemma ReplyFraming(s: Store, p: Packet)
    requires LongEnough(p) && |p| > HEADER_LENGTH
    ensures var a := Answer(s, p);
      && 8 < |a| <= 260
      && UnpackH(a, 0) == UnpackH(p, 0) && UnpackH(a, 2) == 0
      && UnpackH(a, 4) == |a| - 6 && a[6] == p[6]
      && (Executes(s, p) ==> a[7] == p[7] && |a| == 8 + ReplyLength(Parse(p).request))
      && (!Executes(s, p) ==>
            && |a| == 9 && a[8] == ExceptionCode(p)
            && a[7] == 0x80 + if CheckFunction(p[7]) then p[7] else 0)
  {
    if Executes(s, p) {
      ReplySize(s, Parse(p).request);
      FrameFields(UnpackH(p, 0), p[6], p[7], Reply(s, Parse(p).request));
    } else {
      var f: byte := if CheckFunction(p[7]) then p[7] else 0;
      FrameFields(UnpackH(p, 0), p[6], f + 0x80, [ExceptionCode(p)]);
    }
  }

  /** All or nothing: a request was carried out if and only if its reply is neither empty
      nor an exception, and otherwise all four blocks are as before. */
  lemma AllOrNothing(s: Store, p: Packet)
    requires LongEnough(p)
    ensures Executes(s, p) <==> Answer(s, p) != [] && !IsException(Answer(s, p))
    ensures Answer(s, p) == [] || IsException(Answer(s, p)) ==> Next(s, p) == s
  {
    if |p| > HEADER_LENGTH { ReplyFraming(s, p); }
  }

  /** Which exceptions a server sends: illegal function for a function it does not have,
      device failure for a malformed frame, illegal data address for everything else,
      a count out of bounds included; never illegal data value. */
  lemma ExceptionsSent(s: Store, p: Packet)
    requires LongEnough(p) && IsException(Answer(s, p))
    ensures |Answer(s, p)| == 9
    ensures Answer(s, p)[8] in {ILLEGAL_FUNCTION, ILLEGAL_DATA_ADDRESS, SERVER_DEVICE_FAILURE}
    ensures Answer(s, p)[8] == ILLEGAL_FUNCTION <==> !Supported(p[7])
    ensures Answer(s, p)[8] == SERVER_DEVICE_FAILURE <==> Supported(p[7]) && Parse(p) == Malformed
    ensures Answer(s, p)[8] == ILLEGAL_DATA_ADDRESS <==>
      Supported(p[7]) && Parse(p).Good? && !Accepts(s, Parse(p).request)
  {
    ReplyFraming(s, p);
  }

  /** The exception reply names the function asked for, except above 0x2B. */
  lemma ExceptionNamesFunction(s: Store, p: Packet)
    requires LongEnough(p) && IsException(Answer(s, p))
    ensures Answer(s, p)[7] as int == (p[7] as int + 0x80) % 0x100 <==> p[7] < MAX_FUNCTION
  {
    ReplyFraming(s, p);
  }

  lemma BitsFromReply(a: Packet, bits: seq<bool>)
    requires |bits| <= MAX_BITS_READ && |a| == 9 + Ceiling8(|bits|)
    requires a[8..] == [Ceiling8(|bits|) as byte] + PackBits(bits)
    ensures a[8] as int == |a| - 9
    ensures UnpackBits(a[9..]) == Resize(bits, 8 * (|a| - 9), false)
  {
    assert a[8] == a[8..][0];
    assert a[9..] == a[8..][1..] == PackBits(bits);
    UnpackPack(bits);
  }

  /** Section 6.1: the data octets of a read of coils or discrete inputs, unpacked, are
      the bits of the window followed by zeros, and the octet count is their number. */
  lemma ReadBitsPayload(s: Store, p: Packet, q: Request)
    requires LongEnough(p) && Executes(s, p) && Parse(p) == Good(q) && q.ReadBits?
    ensures var a := Answer(s, p);
      && |a| == 9 + Ceiling8(q.count) && a[8] as int == |a| - 9
      && Window(BitsOf(s, q.code), q.address, q.count)
      && UnpackBits(a[9..]) ==
           Resize(Read(BitsOf(s, q.code), q.address, q.count), 8 * Ceiling8(q.count), false)
  {
    AnswerData(s, p, q);
    BitsFromReply(Answer(s, p), Read(BitsOf(s, q.code), q.address, q.count));
  }

  /** A mask write done twice is the mask write done once. */
  lemma MaskedTwice(c: word, m: word, o: word)
    ensures Masked(Masked(c, m, o), m, o) == Masked(c, m, o)
  {
    var once := Masked(c, m, o);
    forall i: nat | i < 16 ensures Bit(Masked(once, m, o), i) == Bit(once, i) {
      BitOfMasked(c, m, o, i);
      BitOfMasked(once, m, o, i);
    }
    Pow2Of16();
    SameBits(16, Masked(once, m, o), once);
  }

  lemma BitOfMasked(c: word, m: word, o: word, i: nat)
    ensures Bit(Masked(c, m, o), i) <==> (Bit(c, i) && Bit(m, i)) || Bit(o, i)
  {
    BitOfAnd(c, m, i);
    BitOfOr(And(c, m), o, i);
  }

  /** The write-single-coil reply shows the coil before the write, so repeating the
      request changes the reply when the first one changed the coil. */
  ghost predicate ChangesCoil(s: Store, r: Request)
    requires Accepts(s, r)
  {
    r.WriteCoil? && s.coils[r.address] != r.on
  }

  lemma ApplyTwice(s: Store, r: Request)
    requires Accepts(s, r)
    ensures Accepts(Apply(s, r), r) && Apply(Apply(s, r), r) == Apply(s, r)
  {
    if r.MaskWrite? {
      MaskedTwice(s.holding[r.address], r.andMask, r.orMask);
    }
  }

  lemma ReplyTwice(s: Store, r: Request)
    requires Accepts(s, r)
    ensures Accepts(Apply(s, r), r)
    ensures Reply(Apply(s, r), r) == Reply(s, r) <==> !ChangesCoil(s, r)
  {
    ApplyTwice(s, r);
    if r.WriteCoil? {
      assert Reply(s, r)[2..] == PackH(CoilWord(s.coils[r.address]));
      assert Reply(Apply(s, r), r)[2..] == PackH(CoilWord(r.on));
    }
  }

  /** Retransmission: handling a packet twice leaves the table as handling it once, and
      the second reply is the first one unless the packet switched a single coil over. */
  lemma Retransmission(s: Store, p: Packet)
    requires LongEnough(p)
    ensures Next(Next(s, p), p) == Next(s, p)
    ensures Answer(Next(s, p), p) == Answer(s, p) <==> !(Executes(s, p) && ChangesCoil(s, Parse(p).request))
  {
    if Executes(s, p) {
      var r := Parse(p).request;
      ApplyTwice(s, r);
      ReplyTwice(s, r);
      ReplySize(s, r);
      ReplySize(Apply(s, r), r);
      FrameFields(UnpackH(p, 0), p[6], p[7], Reply(s, r));
      FrameFields(UnpackH(p, 0), p[6], p[7], Reply(Apply(s, r), r));
    }
  }

  /** Section 6.16 wants (current AND and-mask) OR (or-mask AND NOT and-mask). */
  function StandardMasked(c: word, m: word, o: word): nat {
    Or(And(c, m), And(o, 0xFFFF - m))
  }

  /** The code leaves out the AND NOT. It meets the standard for every current value if
      and only if no bit is set in both masks. */
  lemma MaskWriteStandard(m: word, o: word)
    ensures (forall c: word :: Masked(c, m, o) == StandardMasked(c, m, o)) <==> And(o, m) == 0
  {
    if And(o, m) == 0 {
      forall c: word ensures Masked(c, m, o) == StandardMasked(c, m, o) {
        DisjointMasks(c, m, o);
      }
    } else {
      // An all-zero register shows the difference.
      MaskWriteDiffers(m, o);
    }
  }

  /** Setting bit 0 through an and-mask that keeps it: the standard leaves a zero
      register as it is, the code sets the bit. */
  lemma MaskWriteExample()
    ensures StandardMasked(0, 1, 1) == 0 && Masked(0, 1, 1) == 1
  {
    assert And(1, 0xFFFE) == 0;
  }

  lemma BitOfStandard(c: word, m: word, o: word, i: nat)
    requires i < 16
    ensures Bit(StandardMasked(c, m, o), i) <==> (Bit(c, i) && Bit(m, i)) || (Bit(o, i) && !Bit(m, i))
  {
    Pow2Of16();
    BitOfAnd(c, m, i);
    BitOfAnd(o, 0xFFFF - m, i);
    BitOfNot(16, m, i);
    BitOfOr(And(c, m), And(o, 0xFFFF - m), i);
  }

  lemma StandardBound(c: word, m: word, o: word)
    ensures StandardMasked(c, m, o) < 0x1_0000
  {
    Pow2Of16();
    AndBound(16, c, m);
    AndBound(16, o, 0xFFFF - m);
    OrBound(16, And(c, m), And(o, 0xFFFF - m));
  }

  lemma DisjointMasks(c: word, m: word, o: word)
    requires And(o, m) == 0
    ensures Masked(c, m, o) == StandardMasked(c, m, o)
  {
    Pow2Of16();
    StandardBound(c, m, o);
    forall i: nat | i < 16 ensures Bit(Masked(c, m, o), i) == Bit(StandardMasked(c, m, o), i) {
      BitOfMasked(c, m, o, i);
      BitOfStandard(c, m, o, i);
      BitOfAnd(o, m, i);
      BitOfZero(i);
    }
    SameBits(16, Masked(c, m, o), StandardMasked(c, m, o));
  }

  lemma MaskWriteDiffers(m: word, o: word)
    requires And(o, m) != 0
    ensures Masked(0, m, o) != StandardMasked(0, m, o)
  {
    Pow2Of16();
    AndBound(16, o, m);
    if forall i: nat :: i < 16 ==> !Bit(And(o, m), i) {
      forall i: nat | i < 16 ensures Bit(And(o, m), i) == Bit(0, i) { BitOfZero(i); }
      SameBits(16, And(o, m), 0);
    }
    var i: nat :| i < 16 && Bit(And(o, m), i);
    BitOfAnd(o, m, i);
    BitOfMasked(0, m, o, i);
    BitOfStandard(0, m, o, i);
    BitOfZero(i);
  }
}
