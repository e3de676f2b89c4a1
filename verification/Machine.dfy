/** The reference server: four maps from addresses to values and one rule for each
    function code. It knows no vectors, offsets, buffers or exceptions. */
module Machine {
  import opened Bytes
  import opened BitOps
  import opened Operation
  import opened ApplicationDataUnit
  import opened DataTable

  datatype Request =
    | ReadBits(code: byte, address: word, count: word)
    | ReadRegisters(code: byte, address: word, count: word)
    | WriteCoil(address: word, on: bool)
    | WriteRegister(address: word, value: word)
    | WriteCoils(address: word, count: word, bits: seq<bool>)
    | WriteRegisters(address: word, count: word, words: seq<word>)
    | MaskWrite(address: word, andMask: word, orMask: word)
    | ReadWrite(readAddress: word, readCount: word, writeAddress: word, writeCount: word, words: seq<word>)

  datatype Parsed = Malformed | Good(request: Request)

  predicate Supported(f: byte) {
    1 <= f <= 6 || 0x0F <= f <= 0x10 || 0x16 <= f <= 0x17
  }

  function FunctionOf(r: Request): byte {
    match r
    case ReadBits(code, _, _) => code
    case ReadRegisters(code, _, _) => code
    case WriteCoil(_, _) => WRITE_SINGLE_COIL
    case WriteRegister(_, _) => WRITE_SINGLE_REGISTER
    case WriteCoils(_, _, _) => WRITE_MULTIPLE_COILS
    case WriteRegisters(_, _, _) => WRITE_MULTIPLE_REGISTERS
    case MaskWrite(_, _, _) => MASK_WRITE_REGISTER
    case ReadWrite(_, _, _, _, _) => READ_WRITE_MULTIPLE_REGISTERS
  }

  /** write_multiple_registers::byte_count, cut to 8 bits. */
  function RegisterByteCount(count: word): byte {
    (count as int * 2) % 0x100
  }

  /** write_multiple_coils::byte_count: the count is cut to 8 bits before it is divided. */
  function CoilByteCount(count: word): byte {
    count % 0x100 / 8 + (if count % 0x100 % 8 != 0 then 1 else 0)
  }

  /** A coil value on the wire. */
  function CoilWord(on: bool): word {
    if on then COIL_ON else COIL_OFF
  }

  /** The octets of a request after its function code, as the `encode` methods append them. */
  function RequestData(r: Request): Packet {
    match r
    case ReadBits(_, a, n) => PackH(a) + PackH(n)
    case ReadRegisters(_, a, n) => PackH(a) + PackH(n)
    case WriteCoil(a, on) => PackH(a) + PackH(CoilWord(on))
    case WriteRegister(a, v) => PackH(a) + PackH(v)
    case WriteCoils(a, n, bits) => PackH(a) + PackH(n) + [CoilByteCount(n)] + PackBits(bits)
    case WriteRegisters(a, n, words) => PackH(a) + PackH(n) + [RegisterByteCount(n)] + PackWords(words)
    case MaskWrite(a, m, o) => PackH(a) + PackH(m) + PackH(o)
    case ReadWrite(ra, rn, wa, wn, words) =>
      PackH(ra) + PackH(rn) + PackH(wa) + PackH(wn) + [RegisterByteCount(wn)] + PackWords(words)
  }

  /** The size check at the end of `encode`, which works on 8-bit byte counts. */
  predicate Encodes(r: Request) {
    match r
    case WriteCoils(_, n, bits) => |PackBits(bits)| == CoilByteCount(n)
    case WriteRegisters(_, n, words) => 2 * |words| == RegisterByteCount(n)
    case ReadWrite(_, _, _, n, words) => 2 * |words| == RegisterByteCount(n)
    case _ => true
  }

  /** The frame has every octet its function code makes the server look at. A frame
      without a function code is long enough: the server looks at nothing in it. */
  predicate LongEnough(p: Packet) {
    |p| > HEADER_LENGTH && Supported(p[7]) ==>
      if p[7] <= 6 then |p| >= 12
      else if p[7] == WRITE_MULTIPLE_COILS then |p| >= 13
      else if p[7] == WRITE_MULTIPLE_REGISTERS then
        |p| >= 13 && (p[12] == RegisterByteCount(UnpackH(p, 10)) ==> |p| >= 13 + p[12] as int)
      else if p[7] == MASK_WRITE_REGISTER then |p| >= 14
      else
        |p| >= 17 && (p[16] == RegisterByteCount(UnpackH(p, 14)) ==> |p| >= 17 + p[16] as int)
  }

  /** The registers sent from index `i` on, as many as the byte count covers; the rest is zero. */
  function SentWords(p: Packet, i: nat, count: word): seq<word>
    requires i + RegisterByteCount(count) as int <= |p|
  {
    Resize(UnpackWords(p, i, RegisterByteCount(count) / 2), count, 0)
  }

  /** Coil k is bit k%8 of the k/8-th octet sent; coils nobody sent are off. */
  function SentBits(p: Packet, i: nat, count: word): seq<bool> {
    seq(count, k requires 0 <= k < count => i + k / 8 < |p| && Bit(p[i + k / 8], k % 8))
  }

  function Parse(p: Packet): Parsed
    requires |p| > HEADER_LENGTH && Supported(p[7]) && LongEnough(p)
  {
    var f := p[7];
    if f <= READ_DISCRETE_INPUTS then Good(ReadBits(f, UnpackH(p, 8), UnpackH(p, 10)))
    else if f <= READ_INPUT_REGISTERS then Good(ReadRegisters(f, UnpackH(p, 8), UnpackH(p, 10)))
    else if f == WRITE_SINGLE_COIL then
      var v := UnpackH(p, 10);
      if v == COIL_ON || v == COIL_OFF then Good(WriteCoil(UnpackH(p, 8), v == COIL_ON)) else Malformed
    else if f == WRITE_SINGLE_REGISTER then Good(WriteRegister(UnpackH(p, 8), UnpackH(p, 10)))
    else if f == WRITE_MULTIPLE_COILS then
      Good(WriteCoils(UnpackH(p, 8), UnpackH(p, 10), SentBits(p, 13, UnpackH(p, 10))))
    else if f == WRITE_MULTIPLE_REGISTERS then
      var n := UnpackH(p, 10);
      if p[12] == RegisterByteCount(n) then Good(WriteRegisters(UnpackH(p, 8), n, SentWords(p, 13, n)))
      else Malformed
    else if f == MASK_WRITE_REGISTER then
      Good(MaskWrite(UnpackH(p, 8), UnpackH(p, 10), UnpackH(p, 12)))
    else
      var n := UnpackH(p, 14);
      if p[16] == RegisterByteCount(n) then
        Good(ReadWrite(UnpackH(p, 8), UnpackH(p, 10), UnpackH(p, 12), n, SentWords(p, 17, n)))
      else Malformed
  }

  /** The bits a read of coils or discrete inputs looks at. */
  ghost function BitsOf(s: Store, code: byte): map<int, bool> {
    if code == READ_COILS then s.coils else s.inputs
  }

  /** The registers a read of holding or input registers looks at. */
  ghost function RegistersOf(s: Store, code: byte): map<int, word> {
    if code == READ_HOLDING_REGISTERS then s.holding else s.inputRegs
  }

  /** The server carries the request out, rather than answer with an exception. */
  ghost predicate Accepts(s: Store, r: Request) {
    match r
    case ReadBits(code, a, n) => 1 <= n <= MAX_BITS_READ && Window(BitsOf(s, code), a, n)
    case ReadRegisters(code, a, n) => 1 <= n <= MAX_REGS_READ && Window(RegistersOf(s, code), a, n)
    case WriteCoil(a, _) => a in s.coils
    case WriteRegister(a, _) => a in s.holding
    case WriteCoils(a, n, bits) => 1 <= n <= MAX_BITS_WRITE && Window(s.coils, a, n) && |bits| == n
    case WriteRegisters(a, n, words) => 1 <= n <= MAX_REGS_WRITE && Window(s.holding, a, n) && |words| == n
    case MaskWrite(a, _, _) => a in s.holding
    case ReadWrite(ra, rn, wa, wn, words) =>
      && 1 <= rn <= MAX_REGS_READ && Window(s.holding, ra, rn)
      && 1 <= wn <= MAX_REGS_WRITE && Window(s.holding, wa, wn) && |words| == wn
  }

  /** What a mask write leaves in a register. */
  function Masked(current: word, andMask: word, orMask: word): word {
    assert And(current, andMask) < Pow2(16) && Or(And(current, andMask), orMask) < Pow2(16) by {
      Pow2Of16();
      AndBound(16, current, andMask);
      OrBound(16, And(current, andMask), orMask);
    }
    Pow2Of16();
    Or(And(current, andMask), orMask)
  }

  lemma Pow2Of16()
    ensures Pow2(16) == 0x1_0000
  {
    assert Pow2(8) == 0x100;
  }

  ghost function Apply(s: Store, r: Request): Store
    requires Accepts(s, r)
  {
    match r
    case ReadBits(_, _, _) => s
    case ReadRegisters(_, _, _) => s
    case WriteCoil(a, on) => s.(coils := s.coils[a as int := on])
    case WriteRegister(a, v) => s.(holding := s.holding[a as int := v])
    case WriteCoils(a, _, bits) => s.(coils := Write(s.coils, a, bits))
    case WriteRegisters(a, _, words) => s.(holding := Write(s.holding, a, words))
    case MaskWrite(a, m, o) => s.(holding := s.holding[a as int := Masked(s.holding[a], m, o)])
    case ReadWrite(_, _, a, _, words) => s.(holding := Write(s.holding, a, words))
  }

  /** The data octets of a read of coils or discrete inputs. */
  ghost function BitsData(s: Store, code: byte, a: int, n: nat): Packet
    requires Window(BitsOf(s, code), a, n)
  {
    PackBits(Read(BitsOf(s, code), a, n))
  }

  /** The data octets of a read of holding or input registers. */
  ghost function RegistersData(s: Store, code: byte, a: int, n: nat): Packet
    requires Window(RegistersOf(s, code), a, n)
  {
    PackWords(Read(RegistersOf(s, code), a, n))
  }

  /** The octets of a normal reply after its function code. */
  ghost function Reply(s: Store, r: Request): Packet
    requires Accepts(s, r)
  {
    match r
    case ReadBits(code, a, n) => [Ceiling8(n) as byte] + BitsData(s, code, a, n)
    case ReadRegisters(code, a, n) => [(2 * n) as byte] + RegistersData(s, code, a, n)
    case WriteCoil(a, _) => PackH(a) + PackH(CoilWord(s.coils[a]))
    case WriteRegister(a, v) => PackH(a) + PackH(v)
    case WriteCoils(a, n, _) => PackH(a) + PackH(n)
    case WriteRegisters(a, n, _) => PackH(a) + PackH(n)
    case MaskWrite(a, m, o) => PackH(a) + PackH(m) + PackH(o)
    case ReadWrite(a, n, _, _, _) => [(2 * n) as byte] + RegistersData(Apply(s, r), READ_HOLDING_REGISTERS, a, n)
  }

  /** A frame: the MBAP header, the function code, and data. */
  function Frame(t: word, u: byte, f: byte, data: Packet): (p: Packet)
    requires |data| <= 0xFFFD
    ensures |p| == 8 + |data| && p[7] == f
  {
    PackH(t) + PackH(0) + PackH(2 + |data|) + [u, f] + data
  }

  lemma FrameFields(t: word, u: byte, f: byte, data: Packet)
    requires |data| <= 0xFFFD
    ensures var p := Frame(t, u, f, data);
      && UnpackH(p, 0) == t && UnpackH(p, 2) == 0 && UnpackH(p, 4) == |p| - 6 && p[6] == u
      && p[8..] == data
  {
  }

  /** Header state with the length computed for `data`, then `data`, is a frame. */
  lemma FrameOf(a: Adu, data: Packet)
    requires |data| <= 0xFFFD
    ensures a.CalcLength(|data|).HeaderPacket() + data == Frame(a.transaction, a.unit, a.functionCode, data)
  {
  }

  function ExceptionFrame(t: word, u: byte, f: byte, code: byte): Packet {
    Frame(t, u, (f + 0x80) % 0x100, [code])
  }

  /** The request in this frame is carried out in this store. */
  ghost predicate Executes(s: Store, p: Packet)
    requires LongEnough(p)
  {
    |p| > HEADER_LENGTH && Supported(p[7]) && Parse(p).Good? && Accepts(s, Parse(p).request)
  }

  /** The exception code the server answers with when it does not carry a request out. */
  ghost function ExceptionCode(p: Packet): byte
    requires |p| > HEADER_LENGTH && LongEnough(p)
  {
    if !Supported(p[7]) then ILLEGAL_FUNCTION
    else if Parse(p).Malformed? then SERVER_DEVICE_FAILURE
    else ILLEGAL_DATA_ADDRESS
  }

  /** The number of octets in a normal reply after its function code. */
  function ReplyLength(r: Request): nat {
    match r
    case ReadBits(_, _, n) => 1 + Ceiling8(n)
    case ReadRegisters(_, _, n) => 1 + 2 * n
    case MaskWrite(_, _, _) => 6
    case ReadWrite(_, n, _, _, _) => 1 + 2 * n
    case _ => 4
  }

  lemma ReplySize(s: Store, r: Request)
    requires Accepts(s, r)
    ensures |Reply(s, r)| == ReplyLength(r) <= 251
  {
  }

  /** The store after a packet. */
  ghost function Next(s: Store, p: Packet): Store
    requires LongEnough(p)
  {
    if Executes(s, p) then Apply(s, Parse(p).request) else s
  }

  /** The reply to a packet; none to a packet without a function code. */
  ghost function Answer(s: Store, p: Packet): Packet
    requires LongEnough(p)
  {
    if |p| <= HEADER_LENGTH then []
    else if Executes(s, p) then
      ReplySize(s, Parse(p).request);
      Frame(UnpackH(p, 0), p[6], p[7], Reply(s, Parse(p).request))
    else
      ExceptionFrame(UnpackH(p, 0), p[6], if CheckFunction(p[7]) then p[7] else 0, ExceptionCode(p))
  }

  /** The data of a normal reply. */
  lemma AnswerData(s: Store, p: Packet, q: Request)
    requires LongEnough(p) && Executes(s, p) && Parse(p) == Good(q)
    ensures |Answer(s, p)| == 8 + ReplyLength(q) <= 259 && Answer(s, p)[8..] == Reply(s, q)
  {
    ReplySize(s, q);
    FrameFields(UnpackH(p, 0), p[6], p[7], Reply(s, q));
  }
}
