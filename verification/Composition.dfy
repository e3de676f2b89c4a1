/** Requests that amount to several other requests. */
module Composition {
  import opened Bytes
  import opened Operation
  import opened ApplicationDataUnit
  import opened DataTable
  import opened Machine
  import opened Runs

  /** A read/write-multiple request is accepted exactly when the write is and then the
      read is; it leaves the same table, and is answered like the read. */
  lemma ReadWriteIsWriteThenRead(s: Store, ra: word, rn: word, wa: word, wn: word, words: seq<word>)
    ensures var both, w, r :=
        ReadWrite(ra, rn, wa, wn, words), WriteRegisters(wa, wn, words), ReadRegisters(READ_HOLDING_REGISTERS, ra, rn);
      && (Accepts(s, both) <==> Accepts(s, w) && Accepts(Apply(s, w), r))
      && (Accepts(s, both) ==>
            && Apply(s, both) == Apply(Apply(s, w), r)
            && Reply(s, both) == Reply(Apply(s, w), r))
  {
    var w := WriteRegisters(wa, wn, words);
    if Accepts(s, w) {
      ApplyKeeps(s, w);
      AcceptsByGeometry(s, Apply(s, w), ReadRegisters(READ_HOLDING_REGISTERS, ra, rn));
    }
  }

  /** The same for packets, whoever made them: 0x17 against 0x10 with its write window and
      registers, followed by 0x03 with its read window. When only the write window exists
      the two differ: 0x17 writes nothing, 0x10 has written. */
  lemma ReadWritePackets(s: Store, p: Packet, pw: Packet, pr: Packet, q: Request)
    requires LongEnough(p) && LongEnough(pw) && LongEnough(pr)
    requires Carries(p, q) && q.ReadWrite?
    requires Carries(pw, WriteRegisters(q.writeAddress, q.writeCount, q.words))
    requires Carries(pr, ReadRegisters(READ_HOLDING_REGISTERS, q.readAddress, q.readCount))
    ensures if Executes(s, pw) && Executes(s, pr)
            then Next(s, p) == Next(Next(s, pw), pr) && Answer(s, p)[8..] == Answer(Next(s, pw), pr)[8..]
            else Next(s, p) == s && |Answer(s, p)| == 9
  {
    var w, r := Parse(pw).request, Parse(pr).request;
    ReadWriteIsWriteThenRead(s, q.readAddress, q.readCount, q.writeAddress, q.writeCount, q.words);
    if Accepts(s, w) {
      ApplyKeeps(s, w);
      AcceptsByGeometry(s, Apply(s, w), r);
      if Accepts(s, r) {
        AnswerData(s, p, q);
        AnswerData(Apply(s, w), pr, r);
      }
    }
  }

  /** The packet asks for this. */
  predicate Carries(p: Packet, q: Request)
    requires LongEnough(p)
  {
    |p| > HEADER_LENGTH && Supported(p[7]) && Parse(p) == Good(q)
  }

  /** Section 6.17, on maps: reading after writing gives the new value where the write
      window covers the address and the old value elsewhere. */
  lemma ReadAfterWrite(m: map<int, word>, ra: int, rn: nat, wa: int, words: seq<word>, i: nat)
    requires Window(m, ra, rn) && i < rn
    ensures Window(Write(m, wa, words), ra, rn) && ra + i in m
    ensures Read(Write(m, wa, words), ra, rn)[i] ==
      if wa <= ra + i < wa + |words| then words[ra + i - wa] else m[ra + i]
  {
    assert ra + i in Write(m, wa, words);
  }

  lemma ReadWriteReply(s: Store, p: Packet, q: Request)
    requires LongEnough(p) && Executes(s, p) && Parse(p) == Good(q) && q.ReadWrite?
    ensures var a, m := Answer(s, p), Write(s.holding, q.writeAddress, q.words);
      && |a| == 9 + 2 * q.readCount && a[8] as int == 2 * q.readCount
      && Window(s.holding, q.readAddress, q.readCount) && Window(m, q.readAddress, q.readCount)
      && UnpackWords(a, 9, q.readCount) == Read(m, q.readAddress, q.readCount)
  {
    AnswerData(s, p, q);
    RegistersFromReply(Answer(s, p), Read(Apply(s, q).holding, q.readAddress, q.readCount));
  }

  /** Section 6.17: whatever the overlap of the two windows, register i of the reply is
      the new value where the write window covers it and the old value elsewhere. */
  lemma ReadWriteOverlap(s: Store, p: Packet, q: Request, i: nat)
    requires LongEnough(p) && Executes(s, p) && Parse(p) == Good(q) && q.ReadWrite? && i < q.readCount
    ensures var k := q.readAddress + i;
      && k in s.holding && |Answer(s, p)| == 9 + 2 * q.readCount
      && UnpackWords(Answer(s, p), 9, q.readCount)[i] ==
           if q.writeAddress <= k < q.writeAddress + |q.words| then q.words[k - q.writeAddress] else s.holding[k]
  {
    ReadWriteReply(s, p, q);
    RegisterAfterWrite(Answer(s, p), s.holding, q.readAddress, q.readCount, q.writeAddress, q.words, i);
  }

  lemma RegisterAfterWrite(a: Packet, m: map<int, word>, ra: int, rn: nat, wa: int, words: seq<word>, i: nat)
    requires i < rn && |a| == 9 + 2 * rn && Window(m, ra, rn) && Window(Write(m, wa, words), ra, rn)
    requires UnpackWords(a, 9, rn) == Read(Write(m, wa, words), ra, rn)
    ensures ra + i in m
    ensures UnpackWords(a, 9, rn)[i] == if wa <= ra + i < wa + |words| then words[ra + i - wa] else m[ra + i]
  {
    ReadAfterWrite(m, ra, rn, wa, words, i);
  }

  /** A client gets the registers out of a reply that carries them. */
  lemma RegistersFromReply(a: Packet, registers: seq<word>)
    requires |registers| <= 125 && |a| == 9 + 2 * |registers|
    requires a[8..] == [(2 * |registers|) as byte] + PackWords(registers)
    ensures a[8] as int == 2 * |registers| && UnpackWords(a, 9, |registers|) == registers
  {
    assert a[8] == a[8..][0];
    assert a[9..9 + 2 * |registers|] == a[8..][1..] == PackWords(registers);
    UnpackPackWords(a, 9, registers);
  }

  /** One request after another; a request that is not accepted changes nothing. */
  ghost function ApplyAll(s: Store, rs: seq<Request>): Store {
    if rs == [] then s
    else
      var s1, r := ApplyAll(s, rs[..|rs| - 1]), rs[|rs| - 1];
      if Accepts(s1, r) then Apply(s1, r) else s1
  }

  /** The single-register writes that a block write amounts to, in order of address. */
  function Singles(a: word, words: seq<word>): seq<Request>
    requires a + |words| <= 0x1_0000
  {
    seq(|words|, i requires 0 <= i < |words| => WriteRegister(a + i, words[i]))
  }

  /** The single-coil writes that a block write amounts to, in order of address. */
  function SingleCoils(a: word, bits: seq<bool>): seq<Request>
    requires a + |bits| <= 0x1_0000
  {
    seq(|bits|, i requires 0 <= i < |bits| => WriteCoil(a + i, bits[i]))
  }

  lemma WriteAppend<T(!new)>(m: map<int, T>, a: int, values: seq<T>, v: T)
    requires a + |values| in m
    ensures Write(m, a, values + [v]) == Write(m, a, values)[a + |values| := v]
  {
  }

  lemma SingleStep(s: Store, a: word, words: seq<word>, v: word)
    requires a + |words| <= 0xFFFF && a + |words| in s.holding
    ensures var s1 := s.(holding := Write(s.holding, a, words));
      && Accepts(s1, WriteRegister(a + |words|, v))
      && Apply(s1, WriteRegister(a + |words|, v)) == s.(holding := Write(s.holding, a, words + [v]))
  {
    assert a + |words| in Write(s.holding, a, words).Keys;
    WriteAppend(s.holding, a, words, v);
  }

  lemma {:induction false} SinglesWrite(s: Store, a: word, words: seq<word>)
    requires a + |words| <= 0x1_0000 && Window(s.holding, a, |words|)
    ensures ApplyAll(s, Singles(a, words)) == s.(holding := Write(s.holding, a, words))
  {
    if words == [] {
      assert Write(s.holding, a, words) == s.holding;
    } else {
      var n := |words| - 1;
      assert Singles(a, words)[..n] == Singles(a, words[..n]);
      SinglesWrite(s, a, words[..n]);
      SingleStep(s, a, words[..n], words[n]);
      assert words == words[..n] + [words[n]];
    }
  }

  lemma SingleCoilStep(s: Store, a: word, bits: seq<bool>, v: bool)
    requires a + |bits| <= 0xFFFF && a + |bits| in s.coils
    ensures var s1 := s.(coils := Write(s.coils, a, bits));
      && Accepts(s1, WriteCoil(a + |bits|, v))
      && Apply(s1, WriteCoil(a + |bits|, v)) == s.(coils := Write(s.coils, a, bits + [v]))
  {
    assert a + |bits| in Write(s.coils, a, bits).Keys;
    WriteAppend(s.coils, a, bits, v);
  }

  lemma {:induction false} SingleCoilsWrite(s: Store, a: word, bits: seq<bool>)
    requires a + |bits| <= 0x1_0000 && Window(s.coils, a, |bits|)
    ensures ApplyAll(s, SingleCoils(a, bits)) == s.(coils := Write(s.coils, a, bits))
  {
    if bits == [] {
      assert Write(s.coils, a, bits) == s.coils;
    } else {
      var n := |bits| - 1;
      assert SingleCoils(a, bits)[..n] == SingleCoils(a, bits[..n]);
      SingleCoilsWrite(s, a, bits[..n]);
      SingleCoilStep(s, a, bits[..n], bits[n]);
      assert bits == bits[..n] + [bits[n]];
    }
  }

  /** How many of the values of a block write go to 16-bit addresses. */
  function Reach(a: word, n: nat): nat {
    if a + n <= 0x1_0000 then n else 0x1_0000 - a
  }

  lemma WriteSplits<T(!new)>(m: map<int, T>, a: int, values: seq<T>, n: nat)
    requires n <= |values|
    ensures Write(Write(m, a, values[..n]), a + n, values[n..]) == Write(m, a, values)
    ensures n == |values| ==> values[..n] == values
  {
  }

  /** An accepted block write of registers is the run of its single writes at consecutive
      addresses, as far as 16-bit addresses reach; beyond them, where single writes cannot
      go, it stores the rest of its values. Nothing outside its window changes. */
  lemma RegisterWriteDecomposes(s: Store, r: Request)
    requires Accepts(s, r) && r.WriteRegisters?
    ensures var n := Reach(r.address, |r.words|);
      var singles := ApplyAll(s, Singles(r.address, r.words[..n]));
      && Apply(s, r) == singles.(holding := Write(singles.holding, r.address + n, r.words[n..]))
      && (r.address + r.count <= 0x1_0000 ==> Apply(s, r) == ApplyAll(s, Singles(r.address, r.words)))
    ensures forall k :: k in s.holding && !(r.address <= k < r.address + r.count) ==> Apply(s, r).holding[k] == s.holding[k]
  {
    var n := Reach(r.address, r.count);
    SinglesWrite(s, r.address, r.words[..n]);
    WriteSplits(s.holding, r.address, r.words, n);
  }

  /** The same for coils. */
  lemma CoilWriteDecomposes(s: Store, r: Request)
    requires Accepts(s, r) && r.WriteCoils?
    ensures var n := Reach(r.address, |r.bits|);
      var singles := ApplyAll(s, SingleCoils(r.address, r.bits[..n]));
      && Apply(s, r) == singles.(coils := Write(singles.coils, r.address + n, r.bits[n..]))
      && (r.address + r.count <= 0x1_0000 ==> Apply(s, r) == ApplyAll(s, SingleCoils(r.address, r.bits)))
    ensures forall k :: k in s.coils && !(r.address <= k < r.address + r.count) ==> Apply(s, r).coils[k] == s.coils[k]
  {
    var n := Reach(r.address, r.count);
    SingleCoilsWrite(s, r.address, r.bits[..n]);
    WriteSplits(s.coils, r.address, r.bits, n);
  }

  lemma ReadSplits<T(!new)>(m: map<int, T>, a: int, n: nat, k: nat)
    requires Window(m, a, n + k)
    ensures Window(m, a, n) && Window(m, a + n, k)
    ensures Read(m, a, n + k) == Read(m, a, n) + Read(m, a + n, k)
  {
  }

  /** Reading n+k registers gives the data octets of reading n and then k. */
  lemma RegisterReadsSplit(s: Store, f: byte, a: int, n: nat, k: nat)
    requires Window(RegistersOf(s, f), a, n + k)
    ensures Window(RegistersOf(s, f), a, n) && Window(RegistersOf(s, f), a + n, k)
    ensures RegistersData(s, f, a, n + k) == RegistersData(s, f, a, n) + RegistersData(s, f, a + n, k)
  {
    var m := RegistersOf(s, f);
    ReadSplits(m, a, n, k);
    PackWordsConcat(Read(m, a, n), Read(m, a + n, k));
  }

  /** The same for bits when the first part fills whole octets. */
  lemma BitReadsSplit(s: Store, f: byte, a: int, n: nat, k: nat)
    requires Window(BitsOf(s, f), a, n + k) && n % 8 == 0
    ensures Window(BitsOf(s, f), a, n) && Window(BitsOf(s, f), a + n, k)
    ensures BitsData(s, f, a, n + k) == BitsData(s, f, a, n) + BitsData(s, f, a + n, k)
  {
    var m := BitsOf(s, f);
    ReadSplits(m, a, n, k);
    PackBitsConcat(Read(m, a, n), Read(m, a + n, k));
  }
}
