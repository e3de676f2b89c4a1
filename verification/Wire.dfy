/** The server octet by octet, in none of the reference machine's own terms: for every packet
    it can receive, whether the request is carried out, what that does to the table, and every
    octet of the reply (sections 4.2, 6.1 to 6.6, 6.11, 6.12, 6.16, 6.17 and 7 of the MODBUS
    Application Protocol Specification V1.1b3). Numbers are written out. */
module Wire {
  import opened Bytes
  import opened BitOps
  import opened Operation
  import opened DataTable
  import opened Machine
  import opened Replies
  import opened Composition
  import opened Client

  /** A field is two octets, the high one first. */
  lemma FieldOctets(w: word, p: Packet, i: nat)
    requires i + 1 < |p|
    ensures PackH(w) == [w / 256, w % 256]
    ensures UnpackH(p, i) == 256 * p[i] as int + p[i + 1] as int
  {
  }

  /** A bit of an octet is a binary digit, lowest first. */
  lemma BitsOfOctet(o: byte)
    ensures Bit(o, 0) <==> o % 2 == 1
    ensures Bit(o, 1) <==> o / 2 % 2 == 1
    ensures Bit(o, 2) <==> o / 4 % 2 == 1
    ensures Bit(o, 3) <==> o / 8 % 2 == 1
    ensures Bit(o, 4) <==> o / 16 % 2 == 1
    ensures Bit(o, 5) <==> o / 32 % 2 == 1
    ensures Bit(o, 6) <==> o / 64 % 2 == 1
    ensures Bit(o, 7) <==> o / 128 % 2 == 1
  {
    BitIsDigit(o, 1);
    BitIsDigit(o, 2);
    BitIsDigit(o, 3);
    BitIsDigit(o, 4);
    BitIsDigit(o, 5);
    BitIsDigit(o, 6);
    BitIsDigit(o, 7);
    PowersOfTwo();
  }

  lemma PowersOfTwo()
    ensures Pow2(1) == 2 && Pow2(2) == 4 && Pow2(3) == 8 && Pow2(4) == 16
    ensures Pow2(5) == 32 && Pow2(6) == 64 && Pow2(7) == 128
  {
    assert Pow2(2) == 4 && Pow2(4) == 4 * Pow2(2) && Pow2(6) == 4 * Pow2(4);
  }

  lemma {:induction false} BitIsDigit(x: nat, i: nat)
    ensures Bit(x, i) <==> x / Pow2(i) % 2 == 1
  {
    if i > 0 {
      BitIsDigit(x / 2, i - 1);
      HalvedQuotient(x, Pow2(i - 1));
    }
  }

  lemma HalvedQuotient(x: nat, b: nat)
    requires b > 0
    ensures x / 2 / b == x / (2 * b)
  {
    var q, r := x / (2 * b), x % (2 * b);
    assert x == 2 * (b * q) + r;
    assert x / 2 == b * q + r / 2;
    QuotientUnique(x / 2, b, q, r / 2);
  }

  lemma QuotientUnique(n: nat, b: nat, q: nat, r: nat)
    requires n == b * q + r && r < b
    ensures n / b == q
  {
    var d := n / b - q;
    assert n == b * (n / b) + n % b;
    assert b * d == r - n % b;
    MultipleNotBetween(b, d);
  }

  lemma MultipleNotBetween(b: int, d: int)
    requires b > 0 && -b < b * d < b
    ensures d == 0
  {
    if d >= 1 { MultipleAtLeast(b, d); } else if d <= -1 { MultipleAtLeast(b, -d); }
  }

  lemma MultipleAtLeast(b: int, d: int)
    requires b > 0 && d >= 1
    ensures b * d >= b
  {
  }

  /** An exception frame, whatever the function. */
  lemma ExceptionOctets(t: word, u: byte, f: byte, code: byte)
    ensures ExceptionFrame(t, u, f, code) == [t / 256, t % 256, 0, 0, 0, 3, u, if f < 128 then f + 128 else f - 128, code]
  {
  }

  /** A packet without a function code: no answer, nothing happens. */
  lemma NoFunction(s: Store, p: Packet)
    requires |p| <= 7
    ensures LongEnough(p) && Answer(s, p) == [] && Next(s, p) == s
  {
  }

  /** A function the server does not have, however short the packet. */
  lemma UnknownFunction(s: Store, p: Packet)
    requires |p| >= 8 && p[7] !in {1, 2, 3, 4, 5, 6, 15, 16, 22, 23}
    ensures LongEnough(p) && Next(s, p) == s
    ensures Answer(s, p) ==
      [p[0], p[1], 0, 0, 0, 3, p[6], if 1 <= p[7] <= 43 then 128 + p[7] else 128, 1]
  {
  }

  /** The exception reply to a supported function, with its function code and exception code. */
  ghost predicate Refused(s: Store, p: Packet, code: byte)
    requires |p| >= 8 && p[7] < 128 && LongEnough(p)
  {
    Next(s, p) == s && Answer(s, p) == [p[0], p[1], 0, 0, 0, 3, p[6], 128 + p[7], code]
  }

  lemma Declines(s: Store, p: Packet)
    requires |p| >= 8 && LongEnough(p) && Supported(p[7]) && !Executes(s, p)
    ensures Refused(s, p, ExceptionCode(p))
  {
  }

  /** The first eight octets of the reply to a request that is carried out, and the rest. */
  lemma Serves(s: Store, p: Packet, q: Request)
    requires LongEnough(p) && Executes(s, p) && Parse(p) == Good(q)
    ensures var r, size := Answer(s, p), 2 + ReplyLength(q);
      && |r| == 6 + size && size < 256
      && r[..8] == [p[0], p[1], 0, 0, 0, size, p[6], p[7]] && r[8..] == Reply(s, q)
  {
    AnswerData(s, p, q);
  }

  /** Coil k is bit k%8 of octet i+k/8 for as many octets as there are, and the rest is zero. */
  ghost predicate BitsFrom(p: Packet, i: nat, bits: seq<bool>)
    requires i <= |p|
  {
    forall k :: 0 <= k < 8 * (|p| - i) ==> (Bit(p[i + k / 8], k % 8) <==> k < |bits| && bits[k])
  }

  lemma PackedAt(p: Packet, i: nat, bits: seq<bool>, k: nat)
    requires |p| == i + (|bits| + 7) / 8 && p[i..] == PackBits(bits) && k < 8 * (|p| - i)
    ensures Bit(p[i + k / 8], k % 8) <==> k < |bits| && bits[k]
  {
    PackedPosition(bits, k / 8, k % 8);
    assert p[i + k / 8] == p[i..][k / 8];
  }

  lemma PackedFrom(p: Packet, i: nat, bits: seq<bool>)
    requires |p| == i + (|bits| + 7) / 8 && p[i..] == PackBits(bits)
    ensures BitsFrom(p, i, bits)
  {
    forall k | 0 <= k < 8 * (|p| - i) ensures Bit(p[i + k / 8], k % 8) <==> k < |bits| && bits[k] {
      PackedAt(p, i, bits, k);
    }
  }

  /** Coil a+k of `m` is bit k%8 of octet 9+k/8, for `n` coils; the rest is zero. */
  ghost predicate CarriesBits(r: Packet, m: map<int, bool>, a: int, n: nat)
    requires |r| == 9 + (n + 7) / 8
  {
    && (forall k :: 0 <= k < n ==> a + k in m && (Bit(r[9 + k / 8], k % 8) <==> m[a + k]))
    && (forall k :: n <= k < 8 * (|r| - 9) ==> !Bit(r[9 + k / 8], k % 8))
  }

  lemma PackedCarried(r: Packet, m: map<int, bool>, a: int, n: nat)
    requires Window(m, a, n) && |r| == 9 + (n + 7) / 8 && r[9..] == PackBits(Read(m, a, n))
    ensures CarriesBits(r, m, a, n)
  {
    forall k | 0 <= k < 8 * (|r| - 9)
      ensures k < n ==> a + k in m && (Bit(r[9 + k / 8], k % 8) <==> m[a + k])
      ensures k >= n ==> !Bit(r[9 + k / 8], k % 8)
    {
      PackedAt(r, 9, Read(m, a, n), k);
    }
  }

  /** Register k from octet 9 on is register a+k of `m`. */
  ghost predicate CarriesWords(r: Packet, m: map<int, word>, a: int, n: nat)
    requires |r| == 9 + 2 * n
  {
    forall k :: 0 <= k < n ==> a + k in m && UnpackH(r, 9 + 2 * k) == m[a + k]
  }

  lemma WordsCarried(r: Packet, m: map<int, word>, a: int, n: nat)
    requires Window(m, a, n) && |r| == 9 + 2 * n && UnpackWords(r, 9, n) == Read(m, a, n)
    ensures CarriesWords(r, m, a, n)
  {
    forall k | 0 <= k < n ensures a + k in m && UnpackH(r, 9 + 2 * k) == m[a + k] {
      assert UnpackWords(r, 9, n)[k] == Read(m, a, n)[k];
    }
  }

  /** `m` with coils a, .., a+n-1 as sent from octet 13 on: coil k is bit k%8 of octet
      13+k/8, or off if the packet does not reach so far. */
  ghost function CoilsSent(m: map<int, bool>, p: Packet, a: int, n: int): map<int, bool> {
    map i | i in m ::
      if a <= i < a + n then 13 + (i - a) / 8 < |p| && Bit(p[13 + (i - a) / 8], (i - a) % 8) else m[i]
  }

  /** `m` with registers a, .., a+n-1 as sent from octet `at` on. */
  ghost function WordsSent(m: map<int, word>, p: Packet, at: nat, a: int, n: nat): map<int, word>
    requires at + 2 * n <= |p|
  {
    map i | i in m :: if a <= i < a + n then UnpackH(p, at + 2 * (i - a)) else m[i]
  }

  lemma CoilsSentWritten(m: map<int, bool>, p: Packet, a: int, n: word)
    ensures Write(m, a, SentBits(p, 13, n)) == CoilsSent(m, p, a, n)
  {
  }

  lemma WordsSentWritten(m: map<int, word>, p: Packet, at: nat, a: int, n: word)
    requires 2 * n < 256 && at + 2 * n <= |p|
    ensures Write(m, a, SentWords(p, at, n)) == WordsSent(m, p, at, a, n)
  {
  }

  /** 0x01 and 0x02: 1 to 2000 coils or discrete inputs, all of which exist. */
  lemma BitsRead(s: Store, p: Packet, m: map<int, bool>, a: int, n: int, ok: bool)
    requires |p| >= 12 && ((p[7] == 1 && m == s.coils) || (p[7] == 2 && m == s.inputs))
    requires a == UnpackH(p, 8) && n == UnpackH(p, 10)
    requires ok <==> 1 <= n <= 2000 && forall i :: a <= i < a + n ==> i in m
    ensures LongEnough(p) && (!ok ==> Refused(s, p, 2))
    ensures ok ==>
      var r, size := Answer(s, p), (n + 7) / 8;
      && Next(s, p) == s && |r| == 9 + size
      && r[..9] == [p[0], p[1], 0, 0, 0, 3 + size, p[6], p[7], size]
      && CarriesBits(r, m, a, n)
  {
    assert Executes(s, p) <==> ok;
    if ok {
      Serves(s, p, Parse(p).request);
      assert Answer(s, p)[9..] == Answer(s, p)[8..][1..];
      PackedCarried(Answer(s, p), m, a, n);
    } else {
      Declines(s, p);
    }
  }

  /** 0x03 and 0x04: 1 to 125 registers, all of which exist. */
  lemma RegistersRead(s: Store, p: Packet, m: map<int, word>, a: int, n: int, ok: bool)
    requires |p| >= 12 && ((p[7] == 3 && m == s.holding) || (p[7] == 4 && m == s.inputRegs))
    requires a == UnpackH(p, 8) && n == UnpackH(p, 10)
    requires ok <==> 1 <= n <= 125 && forall i :: a <= i < a + n ==> i in m
    ensures LongEnough(p) && (!ok ==> Refused(s, p, 2))
    ensures ok ==>
      var r := Answer(s, p);
      && Next(s, p) == s && |r| == 9 + 2 * n
      && r[..9] == [p[0], p[1], 0, 0, 0, 3 + 2 * n, p[6], p[7], 2 * n]
      && CarriesWords(r, m, a, n)
  {
    assert Executes(s, p) <==> ok;
    if ok {
      Serves(s, p, Parse(p).request);
      ClientRegisters(s, p, Parse(p).request);
      WordsCarried(Answer(s, p), m, a, n);
    } else {
      Declines(s, p);
    }
  }

  /** 0x05: FF00 switches the coil on, 0000 switches it off, anything else is a device
      failure. The reply shows the coil as it was. */
  lemma CoilWritten(s: Store, p: Packet, a: int, v: int, matches: bool)
    requires |p| >= 12 && p[7] == 5 && a == UnpackH(p, 8) && v == UnpackH(p, 10)
    requires matches <==> v == 0xFF00 || v == 0
    ensures LongEnough(p) && (!matches ==> Refused(s, p, 4)) && (matches && a !in s.coils ==> Refused(s, p, 2))
    ensures matches && a in s.coils ==>
      && Next(s, p) == s.(coils := s.coils[a := v == 0xFF00])
      && Answer(s, p) == [p[0], p[1], 0, 0, 0, 6, p[6], 5, p[8], p[9], if s.coils[a] then 0xFF else 0, 0]
  {
    if matches && a in s.coils {
      Serves(s, p, Parse(p).request);
    } else {
      Declines(s, p);
    }
  }

  /** 0x06: any value; the reply repeats the request. */
  lemma RegisterWritten(s: Store, p: Packet, a: int, v: word)
    requires |p| >= 12 && p[7] == 6 && a == UnpackH(p, 8) && v == UnpackH(p, 10)
    ensures LongEnough(p) && (a !in s.holding ==> Refused(s, p, 2))
    ensures a in s.holding ==>
      && Next(s, p) == s.(holding := s.holding[a := v])
      && Answer(s, p) == [p[0], p[1], 0, 0, 0, 6, p[6], 6, p[8], p[9], p[10], p[11]]
  {
  }

  /** 0x0F: 1 to 1968 coils, all of which exist. The byte count in octet 12 is not looked
      at. The reply repeats address and count. */
  lemma CoilsWritten(s: Store, p: Packet, a: int, n: int, ok: bool)
    requires |p| >= 13 && p[7] == 15 && a == UnpackH(p, 8) && n == UnpackH(p, 10)
    requires ok <==> 1 <= n <= 1968 && forall i :: a <= i < a + n ==> i in s.coils
    ensures LongEnough(p) && (!ok ==> Refused(s, p, 2))
    ensures ok ==>
      && Next(s, p) == s.(coils := CoilsSent(s.coils, p, a, n))
      && Answer(s, p) == [p[0], p[1], 0, 0, 0, 6, p[6], 15, p[8], p[9], p[10], p[11]]
  {
    assert Executes(s, p) <==> ok;
    if ok {
      Serves(s, p, Parse(p).request);
      CoilsSentWritten(s.coils, p, a, n);
    } else {
      Declines(s, p);
    }
  }

  /** 0x10: 1 to 123 registers, all of which exist; the byte count must be twice the count
      in 8 bits, else it is a device failure. The reply repeats address and count. */
  lemma RegistersWritten(s: Store, p: Packet, a: int, n: int, matches: bool, ok: bool)
    requires |p| >= 13 && p[7] == 16 && a == UnpackH(p, 8) && n == UnpackH(p, 10)
    requires matches <==> p[12] as int == 2 * n % 256
    requires matches ==> |p| >= 13 + 2 * n % 256
    requires ok <==> 1 <= n <= 123 && forall i :: a <= i < a + n ==> i in s.holding
    ensures LongEnough(p) && (!matches ==> Refused(s, p, 4)) && (matches && !ok ==> Refused(s, p, 2))
    ensures matches && ok ==>
      && 13 + 2 * n <= |p| && Next(s, p) == s.(holding := WordsSent(s.holding, p, 13, a, n))
      && Answer(s, p) == [p[0], p[1], 0, 0, 0, 6, p[6], 16, p[8], p[9], p[10], p[11]]
  {
    assert Executes(s, p) <==> matches && ok;
    if matches && ok {
      Serves(s, p, Parse(p).request);
      WordsSentWritten(s.holding, p, 13, a, n);
    } else {
      Declines(s, p);
    }
  }

  /** 0x16: bit by bit (current AND and-mask) OR or-mask; the reply repeats the request. */
  lemma RegisterMasked(s: Store, p: Packet, a: int, m: word, o: word)
    requires |p| >= 14 && p[7] == 22 && a == UnpackH(p, 8) && m == UnpackH(p, 10) && o == UnpackH(p, 12)
    ensures LongEnough(p) && (a !in s.holding ==> Refused(s, p, 2))
    ensures a in s.holding ==>
      && a in Next(s, p).holding && Next(s, p) == s.(holding := s.holding[a := Next(s, p).holding[a]])
      && (forall i: nat :: Bit(Next(s, p).holding[a], i) <==> (Bit(s.holding[a], i) && Bit(m, i)) || Bit(o, i))
      && Answer(s, p) == [p[0], p[1], 0, 0, 0, 8, p[6], 22, p[8], p[9], p[10], p[11], p[12], p[13]]
  {
    if a in s.holding {
      forall i: nat ensures Bit(Masked(s.holding[a], m, o), i) <==> (Bit(s.holding[a], i) && Bit(m, i)) || Bit(o, i) {
        BitOfMasked(s.holding[a], m, o, i);
      }
    }
  }

  /** 0x17: 1 to 125 registers to read and 1 to 123 to write, all of which exist; the byte
      count must be twice the write count in 8 bits, else it is a device failure. The
      registers in the reply are those after the write. */
  lemma RegistersReadWritten(s: Store, p: Packet, a: int, n: int, b: int, k: int, matches: bool, ok: bool)
    requires |p| >= 17 && p[7] == 23
    requires a == UnpackH(p, 8) && n == UnpackH(p, 10) && b == UnpackH(p, 12) && k == UnpackH(p, 14)
    requires matches <==> p[16] as int == 2 * k % 256
    requires matches ==> |p| >= 17 + 2 * k % 256
    requires ok <==>
      && 1 <= n <= 125 && (forall i :: a <= i < a + n ==> i in s.holding)
      && 1 <= k <= 123 && (forall i :: b <= i < b + k ==> i in s.holding)
    ensures LongEnough(p) && (!matches ==> Refused(s, p, 4)) && (matches && !ok ==> Refused(s, p, 2))
    ensures matches && ok ==>
      && 17 + 2 * k <= |p|
      && var m, r := WordsSent(s.holding, p, 17, b, k), Answer(s, p);
      && Next(s, p) == s.(holding := m) && |r| == 9 + 2 * n
      && r[..9] == [p[0], p[1], 0, 0, 0, 3 + 2 * n, p[6], 23, 2 * n]
      && CarriesWords(r, m, a, n)
  {
    assert Executes(s, p) <==> matches && ok;
    if matches && ok {
      WordsSentWritten(s.holding, p, 17, b, k);
      Serves(s, p, Parse(p).request);
      ReadWriteReply(s, p, Parse(p).request);
      WordsCarried(Answer(s, p), WordsSent(s.holding, p, 17, b, k), a, n);
    } else {
      Declines(s, p);
    }
  }
}
