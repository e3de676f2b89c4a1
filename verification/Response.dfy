/** source/response.cpp: exception replies, and how a client triages a reply. */
module Response {
  import opened Bytes
  import opened Operation
  import opened ApplicationDataUnit
  import opened Machine

  datatype Stage = Bad | Error | Passed

  /** Transaction, protocol, unit and length are those of a reply to this request. */
  predicate HeaderMatches(h: Header, p: Packet) {
    && |p| > HEADER_LENGTH
    && UnpackH(p, 0) == h.transaction && UnpackH(p, 2) == 0
    && UnpackH(p, 4) == |p| - 6 && p[6] == h.unit
  }

  /** Which replies pass, for a client that waits for function `f`: any function code
      the library knows, be it the one asked for or not. */
  function StageOf(h: Header, f: byte, p: Packet): Stage {
    if !HeaderMatches(h, p) then Bad
    else if CheckFunction(p[7]) then Passed
    else if f == 0 || f == MAX_FUNCTION then Bad
    else if p[7] == f then Passed
    else if p[7] == (f + 0x80) % 0x100 then Error
    else Bad
  }

  /** Which packets `decode_passed` of the response class takes as an answer to `q`. */
  predicate Takes(q: Request, p: Packet, signedChar: bool)
    requires |p| > HEADER_LENGTH
  {
    match q
    case ReadBits(_, _, n) =>
      |p| == 9 + Ceiling8(n) && CharToWord(p[8], signedChar) == n && n == 8 * (|p| - 9)
    case ReadRegisters(_, _, n) =>
      |p| == 9 + 2 * n <= 0xFFFF && CharToWord(p[8], signedChar) == 2 * n
    case WriteCoil(a, on) =>
      && |p| == 12 && UnpackH(p, 8) == a
      && (CheckBitsValue(UnpackH(p, 10)) ==> UnpackH(p, 10) == CoilWord(on))
    case WriteRegister(a, v) => |p| == 12 && UnpackH(p, 8) == a && UnpackH(p, 10) == v
    case WriteCoils(a, n, _) => |p| == 12 && UnpackH(p, 8) == a && UnpackH(p, 10) == n
    case WriteRegisters(a, n, _) => |p| == 12 && UnpackH(p, 8) == a && UnpackH(p, 10) == n
    case MaskWrite(a, m, o) =>
      |p| == 14 && UnpackH(p, 8) == a && UnpackH(p, 10) == m && UnpackH(p, 12) == o
    case ReadWrite(_, n, _, _, _) => |p| == 9 + 2 * n && p[8] as int == 2 * n
  }

  /** check_bits_value */
  predicate CheckBitsValue(v: word) {
    v == COIL_OFF || v == COIL_ON
  }

  /** internal::response::check_stage; `adu` is the response's own header state. */
  method CheckStage(reqHeader: Header, adu: Adu, p: Packet) returns (stage: Stage, adu': Adu)
    ensures stage == StageOf(reqHeader, adu.func, p)
    ensures adu' == if HeaderMatches(reqHeader, p) then adu.DecodeHeader(p) else adu
  {
    adu' := adu;
    if !(|p| > HEADER_LENGTH) {
      return Bad, adu';
    }
    var tr, pr, len, un := UnpackH(p, 0), UnpackH(p, 2), UnpackH(p, 4), p[6];
    if reqHeader.transaction != tr || pr != 0 || reqHeader.unit != un || len != |p| - (HEADER_LENGTH - 1) {
      return Bad, adu';
    }
    adu' := adu.DecodeHeader(p);
    if adu'.func == 0 || adu'.func == MAX_FUNCTION {
      return Bad, adu';
    }
    var expected := adu'.func;
    if expected != adu'.functionCode && !CheckFunction(adu'.functionCode) {
      var diff := (adu'.functionCode as int - 0x80) % 0x100;
      return if expected == diff then Error else Bad, adu';
    }
    stage := Passed;
  }

  /** The part of internal::response::decode before decode_passed. */
  method Triage(reqHeader: Header, adu: Adu, p: Packet) returns (r: Result<()>, adu': Adu)
    ensures r == match StageOf(reqHeader, adu.func, p)
                 case Passed => Ok(())
                 case Bad => Throw(Internal)
                 case Error => if |p| > 8 then Throw(Generated(p[8])) else Throw(Internal)
    ensures r.Ok? ==> adu' == adu.DecodeHeader(p)
  {
    var stage;
    stage, adu' := CheckStage(reqHeader, adu, p);
    match stage
    case Bad => r := Throw(Internal);
    case Error => r := if |p| > 8 then Throw(Generated(p[8])) else Throw(Internal);
    case Passed => r := Ok(());
  }

  /** response::error */
  class ErrorResponse {
    const code: byte
    var adu: Adu

    constructor (func: byte, code: byte, header: Header)
      ensures adu == NewAdu(func).Initialize(header.transaction, header.unit)
      ensures this.code == code
    {
      this.code := code;
      adu := NewAdu(func).Initialize(header.transaction, header.unit);
    }

    method Encode() returns (r: Result<Packet>)
      modifies this
      ensures r == Ok(ExceptionFrame(old(adu.transaction), old(adu.unit), old(adu.func), code))
      ensures adu == old(adu).(length := 3)
    {
      adu := adu.CalcLength(1);
      var packet := adu.HeaderPacket();
      ghost var header := adu.(functionCode := (adu.func + 0x80) % 0x100).HeaderPacket();
      assert packet[..7] == header[..7] && header[7..] == [(adu.func + 0x80) % 0x100];
      packet := packet[..|packet| - 1];
      packet := packet + [(adu.func + 0x80) % 0x100, code];
      if |packet| != CalcAduLength(1) {
        return Throw(Internal);
      }
      assert packet == header + [code];
      FrameOf(old(adu).(functionCode := (adu.func + 0x80) % 0x100), [code]);
      r := Ok(packet);
    }
  }
}
