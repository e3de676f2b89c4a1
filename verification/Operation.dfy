/** source/operation.cpp: packing coils into octets, lowest bit first, and back. */
module Operation {
  import opened Bytes
  import opened BitOps

  /** The number whose low bits are the coils from `i` up to `e`; coils past the end are off. */
  function ByteFrom(bits: seq<bool>, i: nat, e: nat): (b: nat)
    requires i <= e
    ensures b < Pow2(e - i)
    decreases e - i
  {
    if i == e then 0 else Low(i < |bits| && bits[i]) + 2 * ByteFrom(bits, i + 1, e)
  }

  /** Octet `k` of the packed coils. */
  function Octet(bits: seq<bool>, k: nat): byte {
    assert Pow2(8) == 0x100;
    ByteFrom(bits, 8 * k, 8 * k + 8)
  }

  /** The number of octets for `n` coils. */
  function Ceiling8(n: nat): nat {
    (n + 7) / 8
  }

  function PackBits(bits: seq<bool>): (p: Packet)
    ensures |p| == Ceiling8(|bits|)
  {
    seq(Ceiling8(|bits|), k requires 0 <= k => Octet(bits, k))
  }

  /** The `n` lowest bits of a number. */
  function LowBits(o: nat, n: nat): seq<bool> {
    seq(n, i requires 0 <= i => Bit(o, i))
  }

  function UnpackBits(p: Packet): (bits: seq<bool>)
    ensures |bits| == 8 * |p|
  {
    if p == [] then [] else UnpackBits(p[..|p| - 1]) + LowBits(p[|p| - 1], 8)
  }

  /** A coil shifted to bit position `shift`. */
  function Shl(b: bool, shift: nat): nat {
    if b then Pow2(shift) else 0
  }

  lemma OrDouble(low: nat, a: nat, b: nat)
    requires low < 2
    ensures Or(low + 2 * a, 2 * b) == low + 2 * Or(a, b)
  {
    if b != 0 && low + 2 * a != 0 {
      assert (low + 2 * a) / 2 == a && (2 * b) / 2 == b;
    }
  }

  /** One turn of the accumulator: or-ing the next coil in, shifted, appends it. */
  lemma {:induction false} ByteFromAppend(bits: seq<bool>, i: nat, e: nat)
    requires i <= e < |bits|
    ensures ByteFrom(bits, i, e + 1) == Or(ByteFrom(bits, i, e), Shl(bits[e], e - i))
    decreases e - i
  {
    if i < e {
      ByteFromAppend(bits, i + 1, e);
      OrDouble(Low(bits[i]), ByteFrom(bits, i + 1, e), Shl(bits[e], e - i - 1));
    } else {
      assert ByteFrom(bits, e + 1, e + 1) == 0;
    }
  }

  /** Past the last coil nothing is added. */
  lemma {:induction false} ByteFromEnd(bits: seq<bool>, i: nat, e: nat, f: nat)
    requires i <= e <= f && |bits| <= e
    ensures ByteFrom(bits, i, f) == ByteFrom(bits, i, e)
    decreases f - i
  {
    if i < e {
      ByteFromEnd(bits, i + 1, e, f);
    } else if i < f {
      ByteFromEnd(bits, i + 1, i + 1, f);
    }
  }

  lemma {:induction false} BitOfByteFrom(bits: seq<bool>, i: nat, e: nat, j: nat)
    requires i <= e
    ensures Bit(ByteFrom(bits, i, e), j) <==> i + j < e && i + j < |bits| && bits[i + j]
    decreases e - i
  {
    if i == e {
      BitOfZero(j);
    } else if j > 0 {
      BitOfByteFrom(bits, i + 1, e, j - 1);
      assert ByteFrom(bits, i, e) / 2 == ByteFrom(bits, i + 1, e);
    }
  }

  /** A number is determined by the coils that spell it. */
  lemma {:induction false} ByteFromSpells(bits: seq<bool>, i: nat, e: nat, o: nat)
    requires i <= e <= |bits| && o < Pow2(e - i)
    requires forall j: nat :: i + j < e ==> bits[i + j] == Bit(o, j)
    ensures ByteFrom(bits, i, e) == o
    decreases e - i
  {
    if i < e {
      assert bits[i + 0] == Bit(o, 0);
      forall j: nat | i + 1 + j < e ensures bits[i + 1 + j] == Bit(o / 2, j) {
        assert bits[i + (j + 1)] == Bit(o, j + 1);
      }
      ByteFromSpells(bits, i + 1, e, o / 2);
    }
  }

  /** The packing loop with its shift accumulator. */
  method PackBitsLoop(bits: seq<bool>) returns (packet: Packet)
    ensures packet == PackBits(bits)
  {
    packet := [];
    var shift, oneByte := 0, 0;
    ghost var q := 0;
    for i := 0 to |bits|
      invariant 0 <= shift < 8 && 0 <= q && i == 8 * q + shift
      invariant |packet| == q && forall k :: 0 <= k < q ==> packet[k] == Octet(bits, k)
      invariant oneByte == ByteFrom(bits, 8 * q, i)
    {
      ByteFromAppend(bits, 8 * q, i);
      oneByte := Or(oneByte, Shl(bits[i], shift));
      if shift == 7 {
        assert oneByte == Octet(bits, q);
        packet := packet + [oneByte];
        oneByte, shift, q := 0, 0, q + 1;
      } else {
        shift := shift + 1;
      }
    }
    if shift != 0 {
      ByteFromEnd(bits, 8 * q, |bits|, 8 * q + 8);
      assert oneByte == Octet(bits, q);
      packet := packet + [oneByte];
    }
  }

  /** The guard of the inner unpacking loop. */
  predicate InOctet(mask: nat) {
    And(mask, 0xff) != 0
  }

  lemma {:induction false} AndCommutes(a: nat, b: nat)
    ensures And(a, b) == And(b, a)
  {
    if a != 0 && b != 0 { AndCommutes(a / 2, b / 2); }
  }

  /** 2^k - 1 has exactly its k lowest bits set. */
  lemma {:induction false} OnesBelow(k: nat, i: nat)
    ensures Bit(Pow2(k) - 1, i) <==> i < k
  {
    if k == 0 {
      BitOfZero(i);
    } else if i > 0 {
      OnesBelow(k - 1, i - 1);
      assert (Pow2(k) - 1) / 2 == Pow2(k - 1) - 1;
    }
  }

  lemma MaskInOctet(i: nat)
    ensures InOctet(Pow2(i)) <==> i < 8
  {
    AndCommutes(Pow2(i), 0xff);
    AndPow2(0xff, i);
    OnesBelow(8, i);
    assert Pow2(8) == 0x100;
  }

  /** One turn of the inner loop: the mask tests bit i, moves on, and leaves the octet after bit 7. */
  lemma MaskTurn(o: nat, i: nat)
    ensures And(o, Pow2(i)) != 0 <==> Bit(o, i)
    ensures Pow2(i) * 2 == Pow2(i + 1)
    ensures InOctet(Pow2(i + 1)) <==> i + 1 < 8
  {
    AndPow2(o, i);
    MaskInOctet(i + 1);
  }

  /** The inner unpacking loop: a one-bit mask runs through the octet. */
  method UnpackOctetLoop(o: byte) returns (result: seq<bool>)
    ensures result == LowBits(o, 8)
  {
    result := [];
    var mask := 1;
    ghost var i := 0;
    MaskInOctet(0);
    while InOctet(mask)
      invariant 0 <= i <= 8 && mask == Pow2(i)
      invariant InOctet(mask) <==> i < 8
      invariant result == LowBits(o, i)
      decreases 8 - i
    {
      MaskTurn(o, i);
      result := result + [And(o, mask) != 0];
      mask := mask * 2;
      i := i + 1;
    }
  }

  /** The unpacking loop. */
  method UnpackBitsLoop(packet: Packet) returns (result: seq<bool>)
    ensures result == UnpackBits(packet)
  {
    result := [];
    for n := 0 to |packet|
      invariant result == UnpackBits(packet[..n])
    {
      var octet := UnpackOctetLoop(packet[n]);
      assert packet[..n + 1][..n] == packet[..n];
      result := result + octet;
    }
    assert packet[..|packet|] == packet;
  }

  /** Coil i travels in octet i/8 at bit i%8, and the padding bits are zero. */
  lemma PackedPosition(bits: seq<bool>, k: nat, j: nat)
    requires k < |PackBits(bits)| && j < 8
    ensures Bit(PackBits(bits)[k], j) <==> 8 * k + j < |bits| && bits[8 * k + j]
  {
    BitOfByteFrom(bits, 8 * k, 8 * k + 8, j);
  }

  lemma {:induction false} UnpackedPosition(p: Packet, k: nat, j: nat)
    requires k < |p| && j < 8
    ensures UnpackBits(p)[8 * k + j] == Bit(p[k], j)
  {
    if k < |p| - 1 {
      UnpackedPosition(p[..|p| - 1], k, j);
    }
  }

  /** Unpacking what was packed gives the coils, padded with false to whole octets. */
  lemma UnpackPack(bits: seq<bool>)
    ensures UnpackBits(PackBits(bits)) == Resize(bits, 8 * Ceiling8(|bits|), false)
  {
    forall i | 0 <= i < 8 * Ceiling8(|bits|)
      ensures UnpackBits(PackBits(bits))[i] == (i < |bits| && bits[i])
    {
      PackedPosition(bits, i / 8, i % 8);
      UnpackedPosition(PackBits(bits), i / 8, i % 8);
    }
  }

  /** Packing what was unpacked gives the octets back. */
  lemma PackUnpack(p: Packet)
    ensures PackBits(UnpackBits(p)) == p
  {
    forall k | 0 <= k < |p| ensures Octet(UnpackBits(p), k) == p[k] {
      var bits := UnpackBits(p);
      forall j: nat | 8 * k + j < 8 * k + 8 ensures bits[8 * k + j] == Bit(p[k], j) {
        UnpackedPosition(p, k, j);
      }
      assert Pow2(8) == 0x100;
      ByteFromSpells(bits, 8 * k, 8 * k + 8, p[k]);
    }
  }

  lemma {:induction false} ByteFromConcat(a: seq<bool>, b: seq<bool>, i: nat, e: nat)
    requires i <= e
    ensures e <= |a| ==> ByteFrom(a + b, i, e) == ByteFrom(a, i, e)
    ensures i >= |a| ==> ByteFrom(a + b, i, e) == ByteFrom(b, i - |a|, e - |a|)
    decreases e - i
  {
    if i < e { ByteFromConcat(a, b, i + 1, e); }
  }

  /** Packing distributes over concatenation at an octet boundary. */
  lemma PackBitsConcat(a: seq<bool>, b: seq<bool>)
    requires |a| % 8 == 0
    ensures PackBits(a + b) == PackBits(a) + PackBits(b)
  {
    var n := |a| / 8;
    forall k: nat | k < Ceiling8(|a + b|)
      ensures k < n ==> Octet(a + b, k) == Octet(a, k)
      ensures k >= n ==> Octet(a + b, k) == Octet(b, k - n)
    {
      ByteFromConcat(a, b, 8 * k, 8 * k + 8);
      assert k >= n ==> 8 * k - |a| == 8 * (k - n);
    }
  }
}
