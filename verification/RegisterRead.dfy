/** register-read.inline.hpp and source/register-read.cpp: functions 0x03 and 0x04. */
module RegisterRead {
  import opened Bytes
  import opened ApplicationDataUnit
  import opened DataTable
  import opened Machine
  import opened Response

  /** The function codes the template is instantiated with. */
  type RegisterCode = c: byte | c == READ_HOLDING_REGISTERS || c == READ_INPUT_REGISTERS
    witness READ_HOLDING_REGISTERS

  /** Header, octet count and registers, appended one after another. */
  method AppendRegisters(adu: Adu, byteCount: word, registers: seq<word>) returns (packet: Packet)
    requires byteCount == 2 * |registers| <= 250 && adu.length == 3 + byteCount
    ensures packet == Frame(adu.transaction, adu.unit, adu.functionCode, [byteCount as byte] + PackWords(registers))
  {
    FrameOf(adu, [byteCount as byte] + PackWords(registers));
    packet := adu.HeaderPacket() + [byteCount % 0x100];
    packet := AppendWords(packet, registers);
  }

  class ReadRegistersRequest {
    const code: RegisterCode
    var adu: Adu
    var address: word
    var count: word

    ghost function Value(): Request
      reads this
    {
      ReadRegisters(code, address, count)
    }

    constructor (code: RegisterCode, address: word := 0, count: word := 1)
      ensures this.code == code && adu == NewAdu(code) && Value() == ReadRegisters(code, address, count)
    {
      this.code, this.address, this.count := code, address, count;
      adu := NewAdu(code);
    }

    function ByteCount(): word
      reads this
    {
      (count as int * 2) % 0x1_0000
    }

    function ResponseSize(): word
      reads this
    {
      CalcAduLength(1 + ByteCount())
    }

    method Encode() returns (r: Result<Packet>)
      modifies this`adu
      ensures adu == old(adu).(length := 6)
      ensures r == Ok(Frame(adu.transaction, adu.unit, adu.functionCode, RequestData(Value())))
    {
      adu := adu.CalcLength(4);
      r := Ok(adu.HeaderPacket() + (PackH(address) + PackH(count)));
    }

    method Decode(packet: Packet) returns (r: Result<()>)
      requires Addressed(packet, code) ==> LongEnough(packet)
      modifies this
      ensures r == if Addressed(packet, code) then Ok(()) else Throw(old(adu).Raise(SERVER_DEVICE_FAILURE))
      ensures r.Ok? ==> adu == old(adu).DecodeHeader(packet) && Parse(packet) == Good(Value())
      ensures r.Throw? ==> unchanged(this)
    {
      if !Addressed(packet, code) {
        return Throw(adu.Raise(SERVER_DEVICE_FAILURE));
      }
      adu := adu.DecodeHeader(packet);
      address, count := UnpackH(packet, 8), UnpackH(packet, 10);
      r := Ok(());
    }

    /** The block this instantiation of the template works on. */
    function BlockOf(t: Table): Block<word> {
      if code == READ_HOLDING_REGISTERS then t.holding else t.inputRegs
    }

    method Execute(t: Table) returns (r: Result<ReadRegistersResponse>)
      requires t.Valid()
      ensures r.Ok? <==> Accepts(t.View(), Value())
      ensures r.Ok? ==> fresh(r.value) && r.value.request == this && r.value.dataTable == t
      ensures r.Ok? ==> r.value.adu == NewAdu(code).Initialize(adu.transaction, adu.unit)
      ensures r.Throw? ==> r == Throw(adu.Raise(ILLEGAL_DATA_ADDRESS))
    {
      BlockOf(t).ValidateExact(address, count);
      if !BlockOf(t).ValidateRead(address, count) {
        return Throw(adu.Raise(ILLEGAL_DATA_ADDRESS));
      }
      var response := new ReadRegistersResponse(this, t);
      r := Ok(response);
    }
  }

  class ReadRegistersResponse {
    const request: ReadRegistersRequest
    const dataTable: Table?
    const reqHeader: Header
    var adu: Adu
    var count: word
    var registers: seq<word>

    constructor (request: ReadRegistersRequest, dataTable: Table?)
      ensures this.request == request && this.dataTable == dataTable
      ensures reqHeader == request.adu.GetHeader()
      ensures adu == NewAdu(request.code).Initialize(request.adu.transaction, request.adu.unit)
    {
      this.request, this.dataTable, reqHeader := request, dataTable, request.adu.GetHeader();
      adu := NewAdu(request.code).Initialize(request.adu.transaction, request.adu.unit);
      count, registers := 0, [];
    }

    method Encode() returns (r: Result<Packet>)
      requires dataTable != null && dataTable.Valid()
      modifies this
      ensures var m := request.BlockOf(dataTable).View();
        if 1 <= request.count <= MAX_REGS_READ && Window(m, request.address, request.count) then
          && registers == Read(m, request.address, request.count)
          && r == Ok(Frame(adu.transaction, adu.unit, adu.functionCode,
                           [RegisterByteCount(request.count)] + PackWords(registers)))
        else r == Throw(adu.Raise(ILLEGAL_DATA_ADDRESS))
      ensures adu.(length := 0) == old(adu).(length := 0)
    {
      var slice := request.BlockOf(dataTable).GetSlice(request.address, request.count);
      if slice.Throw? {
        return Throw(adu.Raise(ILLEGAL_DATA_ADDRESS));
      }
      registers := slice.value;
      var byteCount := request.ByteCount();
      adu := adu.CalcLength(byteCount + 1);
      var packet := AppendRegisters(adu, byteCount, registers);
      if |packet| != request.ResponseSize() {
        return Throw(adu.Raise(SERVER_DEVICE_FAILURE));
      }
      r := Ok(packet);
    }

    /** The octet count is read as a plain char: sign-extended where char is signed. */
    method DecodePassed(packet: Packet, signedChar: bool) returns (r: Result<()>)
      requires |packet| > HEADER_LENGTH
      modifies this
      ensures r == if Takes(request.Value(), packet, signedChar) then Ok(()) else Throw(Internal)
      ensures registers == if r.Ok? then UnpackWords(packet, 9, request.count) else old(registers)
      ensures adu == old(adu)
    {
      if |packet| != request.ResponseSize() {
        return Throw(Internal);
      }
      count := CharToWord(packet[8], signedChar);
      if count != request.ByteCount() {
        return Throw(Internal);
      }
      var buffer := ReadWords(packet, 9, request.ByteCount());
      if |buffer| != request.count {
        return Throw(Internal);
      }
      registers := buffer;
      r := Ok(());
    }
  }
}
