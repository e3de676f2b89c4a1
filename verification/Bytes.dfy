/** Octets, 16-bit words and the big-endian `H`/`B` packing of section 4.2 of the
    MODBUS Application Protocol Specification V1.1b3. */
module Bytes {
  type byte = i: int | 0 <= i < 0x100
  type word = i: int | 0 <= i < 0x1_0000
  type Packet = seq<byte>

  /** Pack one `H` field. */
  function PackH(w: word): Packet {
    [w / 0x100, w % 0x100]
  }

  /** Unpack one `H` field at index `i`. */
  function UnpackH(p: Packet, i: nat): word
    requires i + 1 < |p|
  {
    p[i] as int * 0x100 + p[i + 1] as int
  }

  /** The octets of a list of registers, each as one `H` field. */
  function PackWords(ws: seq<word>): Packet {
    seq(2 * |ws|, k requires 0 <= k < 2 * |ws| =>
      if k % 2 == 0 then ws[k / 2] / 0x100 else ws[k / 2] % 0x100)
  }

  /** `n` registers read from index `i` on. */
  function UnpackWords(p: Packet, i: nat, n: nat): seq<word>
    requires i + 2 * n <= |p|
  {
    seq(n, k requires 0 <= k < n => UnpackH(p, i + 2 * k))
  }

  /** A plain `char` converted to 16 bits: sign-extended where char is signed. */
  function CharToWord(b: byte, signedChar: bool): word {
    if signedChar && b >= 0x80 then b + 0xFF00 else b
  }

  /** std::vector::resize: cut to `n` elements, or fill up with `fill`. */
  function Resize<T>(s: seq<T>, n: nat, fill: T): seq<T> {
    if n <= |s| then s[..n] else s + seq(n - |s|, _ => fill)
  }

  lemma PackWordsAppend(ws: seq<word>, w: word)
    ensures PackWords(ws + [w]) == PackWords(ws) + PackH(w)
  {
    PackWordsConcat(ws, [w]);
    assert PackWords([w]) == PackH(w);
  }

  /** Packing registers distributes over concatenation. */
  lemma PackWordsConcat(a: seq<word>, b: seq<word>)
    ensures PackWords(a + b) == PackWords(a) + PackWords(b)
  {
    forall k | 0 <= k < 2 * |a + b|
      ensures PackWords(a + b)[k] == (PackWords(a) + PackWords(b))[k]
    {
      if k >= 2 * |a| {
        assert (k - 2 * |a|) / 2 == k / 2 - |a|;
      }
    }
  }

  lemma PackWordsAt(ws: seq<word>, k: nat)
    requires k < |ws|
    ensures PackWords(ws)[2 * k] == ws[k] / 0x100
    ensures PackWords(ws)[2 * k + 1] == ws[k] % 0x100
  {
    assert (2 * k) % 2 == 0 && (2 * k) / 2 == k;
    assert (2 * k + 1) % 2 == 1 && (2 * k + 1) / 2 == k;
  }

  /** Registers come back from their octets, whatever stands before and after them. */
  lemma UnpackPackWords(p: Packet, i: nat, ws: seq<word>)
    requires i + 2 * |ws| <= |p| && p[i..i + 2 * |ws|] == PackWords(ws)
    ensures UnpackWords(p, i, |ws|) == ws
  {
    var mid := p[i..i + 2 * |ws|];
    forall k | 0 <= k < |ws| ensures UnpackH(p, i + 2 * k) == ws[k] {
      PackWordsAt(ws, k);
      assert p[i + 2 * k] == mid[2 * k] && p[i + 2 * k + 1] == mid[2 * k + 1];
    }
  }

  /** Append registers to a packet, one `H` field at a time. */
  method AppendWords(packet: Packet, ws: seq<word>) returns (r: Packet)
    ensures r == packet + PackWords(ws)
  {
    r := packet;
    for i := 0 to |ws|
      invariant r == packet + PackWords(ws[..i])
    {
      assert ws[..i + 1] == ws[..i] + [ws[i]];
      PackWordsAppend(ws[..i], ws[i]);
      r := r + PackH(ws[i]);
    }
    assert ws[..|ws|] == ws;
  }

  /** Read the registers in `byteCount` octets from index `i` on. */
  method ReadWords(packet: Packet, i: nat, byteCount: nat) returns (buffer: seq<word>)
    requires byteCount % 2 == 0 && i + byteCount <= |packet|
    ensures buffer == UnpackWords(packet, i, byteCount / 2)
  {
    buffer := [];
    var idx := 0;
    while idx < byteCount
      invariant 0 <= idx <= byteCount && idx % 2 == 0
      invariant buffer == UnpackWords(packet, i, idx / 2)
    {
      assert i + idx == i + 2 * (idx / 2);
      buffer := buffer + [UnpackH(packet, i + idx)];
      idx := idx + 2;
    }
  }
}
