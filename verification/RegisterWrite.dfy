/** source/register-write.cpp: functions 0x06, 0x10, 0x16 and 0x17. */
module RegisterWrite {
  import opened Bytes
  import opened ApplicationDataUnit
  import opened DataTable
  import opened Machine
  import opened Response
  import opened RegisterRead

  class WriteRegisterRequest {
    var adu: Adu
    var address: word
    var value: word

    ghost function Value(): Request
      reads this
    {
      WriteRegister(address, value)
    }

    constructor (address: word := 0, value: word := 0)
      ensures adu == NewAdu(WRITE_SINGLE_REGISTER) && Value() == WriteRegister(address, value)
    {
      this.address, this.value := address, value;
      adu := NewAdu(WRITE_SINGLE_REGISTER);
    }

    method Encode() returns (r: Result<Packet>)
      modifies this`adu
      ensures adu == old(adu).(length := 6)
      ensures r == Ok(Frame(adu.transaction, adu.unit, adu.functionCode, RequestData(Value())))
    {
      adu := adu.CalcLength(4);
      r := Ok(adu.HeaderPacket() + (PackH(address) + PackH(value)));
    }

    method Decode(packet: Packet) returns (r: Result<()>)
      requires Addressed(packet, WRITE_SINGLE_REGISTER) ==> LongEnough(packet)
      modifies this
      ensures r == if Addressed(packet, WRITE_SINGLE_REGISTER) then Ok(())
                   else Throw(old(adu).Raise(SERVER_DEVICE_FAILURE))
      ensures r.Ok? ==> adu == old(adu).DecodeHeader(packet) && Parse(packet) == Good(Value())
      ensures r.Throw? ==> unchanged(this)
    {
      if !Addressed(packet, WRITE_SINGLE_REGISTER) {
        return Throw(adu.Raise(SERVER_DEVICE_FAILURE));
      }
      adu := adu.DecodeHeader(packet);
      address, value := UnpackH(packet, 8), UnpackH(packet, 10);
      r := Ok(());
    }

    method Execute(t: Table) returns (r: Result<WriteRegisterResponse>)
      requires t.Valid()
      ensures r.Ok? <==> address in t.holding.View()
      ensures r.Ok? ==> fresh(r.value) && r.value.request == this && r.value.dataTable == t
      ensures r.Ok? ==> r.value.adu == NewAdu(adu.func).Initialize(adu.transaction, adu.unit)
      ensures r.Throw? ==> r == Throw(adu.Raise(ILLEGAL_DATA_ADDRESS))
    {
      t.holding.ValidateExact(address, 1);
      if !t.holding.ValidateOne(address) {
        return Throw(adu.Raise(ILLEGAL_DATA_ADDRESS));
      }
      var response := new WriteRegisterResponse(this, t);
      r := Ok(response);
    }
  }

  class WriteRegisterResponse {
    const request: WriteRegisterRequest
    const dataTable: Table?
    const reqHeader: Header
    var adu: Adu
    var address: word
    var value: word

    constructor (request: WriteRegisterRequest, dataTable: Table?)
      ensures this.request == request && this.dataTable == dataTable
      ensures reqHeader == request.adu.GetHeader()
      ensures adu == NewAdu(request.adu.func).Initialize(request.adu.transaction, request.adu.unit)
    {
      this.request, this.dataTable, reqHeader := request, dataTable, request.adu.GetHeader();
      adu := NewAdu(request.adu.func).Initialize(request.adu.transaction, request.adu.unit);
      address, value := 0, 0;
    }

    method Encode() returns (r: Result<Packet>)
      requires dataTable != null && dataTable.Valid()
      modifies this, dataTable.holding.container
      ensures var m := old(dataTable.holding.View());
        if request.address in m then
          && dataTable.holding.View() == m[request.address as int := request.value]
          && r == Ok(Frame(adu.transaction, adu.unit, adu.functionCode,
                           PackH(request.address) + PackH(request.value)))
        else
          dataTable.holding.View() == m && r == Throw(adu.Raise(ILLEGAL_DATA_ADDRESS))
      ensures adu.(length := 0) == old(adu).(length := 0)
    {
      adu := adu.CalcLength(4);
      var packet := adu.HeaderPacket() + (PackH(request.address) + PackH(request.value));
      if |packet| != CalcAduLength(4) {
        return Throw(adu.Raise(SERVER_DEVICE_FAILURE));
      }
      var done := dataTable.holding.Set(request.address, request.value);
      if done.Throw? {
        return Throw(adu.Raise(ILLEGAL_DATA_ADDRESS));
      }
      address, value := request.address, request.value;
      r := Ok(packet);
    }

    method DecodePassed(packet: Packet) returns (r: Result<()>)
      requires |packet| > HEADER_LENGTH
      modifies this
      ensures r == if Takes(request.Value(), packet, false) then Ok(()) else Throw(Internal)
      ensures r.Ok? ==> address == request.address && value == request.value
      ensures adu == old(adu)
    {
      if |packet| != CalcAduLength(4) {
        return Throw(Internal);
      }
      if request.address != UnpackH(packet, 8) {
        return Throw(Internal);
      }
      if request.value != UnpackH(packet, 10) {
        return Throw(Internal);
      }
      address, value := request.address, request.value;
      r := Ok(());
    }
  }

  class WriteRegistersRequest {
    var adu: Adu
    var address: word
    var count: word
    var words: seq<word>

    ghost function Value(): Request
      reads this
    {
      WriteRegisters(address, count, words)
    }

    constructor (address: word := 0, count: word := 1, words: seq<word> := [])
      ensures adu == NewAdu(WRITE_MULTIPLE_REGISTERS) && Value() == WriteRegisters(address, count, words)
    {
      this.address, this.count, this.words := address, count, words;
      adu := NewAdu(WRITE_MULTIPLE_REGISTERS);
    }

    /** The size check compares the packed registers with the 8-bit byte count. */
    method Encode() returns (r: Result<Packet>)
      modifies this`adu
      ensures adu == old(adu).(length := 7 + RegisterByteCount(count) as int)
      ensures r == if Encodes(Value())
                   then Ok(Frame(adu.transaction, adu.unit, adu.functionCode, RequestData(Value())))
                   else Throw(Internal)
    {
      adu := adu.CalcLength(5 + RegisterByteCount(count) as int);
      var pdu := PackH(address) + PackH(count) + [RegisterByteCount(count)];
      var packet := AppendWords(adu.HeaderPacket() + pdu, words);
      assert packet == adu.HeaderPacket() + (pdu + PackWords(words));
      if |packet| != 5 + RegisterByteCount(count) as int + HEADER_LENGTH + 1 {
        return Throw(Internal);
      }
      r := Ok(packet);
    }

    method Decode(packet: Packet) returns (r: Result<()>)
      requires Addressed(packet, WRITE_MULTIPLE_REGISTERS) ==> LongEnough(packet)
      modifies this
      ensures !Addressed(packet, WRITE_MULTIPLE_REGISTERS) ==>
        r == Throw(old(adu).Raise(SERVER_DEVICE_FAILURE)) && unchanged(this)
      ensures Addressed(packet, WRITE_MULTIPLE_REGISTERS) ==>
        && adu == old(adu).DecodeHeader(packet)
        && r == if Parse(packet).Good? then Ok(()) else Throw(adu.Raise(SERVER_DEVICE_FAILURE))
      ensures r.Ok? ==> Parse(packet) == Good(Value()) && |words| == count
    {
      if !Addressed(packet, WRITE_MULTIPLE_REGISTERS) {
        return Throw(adu.Raise(SERVER_DEVICE_FAILURE));
      }
      adu := adu.DecodeHeader(packet);
      address, count := UnpackH(packet, 8), UnpackH(packet, 10);
      if RegisterByteCount(count) != packet[12] {
        return Throw(adu.Raise(SERVER_DEVICE_FAILURE));
      }
      var buffer := ReadWords(packet, 13, RegisterByteCount(count));
      words := Resize(buffer, count, 0);
      r := Ok(());
    }

    method Execute(t: Table) returns (r: Result<WriteRegistersResponse>)
      requires t.Valid()
      ensures r.Ok? <==> 1 <= count <= MAX_REGS_WRITE && Window(t.holding.View(), address, count)
      ensures r.Ok? ==> fresh(r.value) && r.value.request == this && r.value.dataTable == t
      ensures r.Ok? ==> r.value.adu == NewAdu(adu.func).Initialize(adu.transaction, adu.unit)
      ensures r.Throw? ==> r == Throw(adu.Raise(ILLEGAL_DATA_ADDRESS))
    {
      t.holding.ValidateExact(address, count);
      if !t.holding.ValidateWrite(address, count) {
        return Throw(adu.Raise(ILLEGAL_DATA_ADDRESS));
      }
      var response := new WriteRegistersResponse(this, t);
      r := Ok(response);
    }
  }

  class WriteRegistersResponse {
    const request: WriteRegistersRequest
    const dataTable: Table?
    const reqHeader: Header
    var adu: Adu
    var address: word
    var count: word

    constructor (request: WriteRegistersRequest, dataTable: Table?)
      ensures this.request == request && this.dataTable == dataTable
      ensures reqHeader == request.adu.GetHeader()
      ensures adu == NewAdu(request.adu.func).Initialize(request.adu.transaction, request.adu.unit)
    {
      this.request, this.dataTable, reqHeader := request, dataTable, request.adu.GetHeader();
      adu := NewAdu(request.adu.func).Initialize(request.adu.transaction, request.adu.unit);
      address, count := 0, 1;
    }

    /** All registers of the request are stored, whatever its count says. */
    method Encode() returns (r: Result<Packet>)
      requires dataTable != null && dataTable.Valid()
      modifies this, dataTable.holding.container
      ensures var m := old(dataTable.holding.View());
        if request.words != [] && Window(m, request.address, |request.words|) then
          && dataTable.holding.View() == Write(m, request.address, request.words)
          && r == Ok(Frame(adu.transaction, adu.unit, adu.functionCode,
                           PackH(request.address) + PackH(request.count)))
        else
          dataTable.holding.View() == m && r == Throw(adu.Raise(ILLEGAL_DATA_ADDRESS))
      ensures adu.(length := 0) == old(adu).(length := 0)
    {
      adu := adu.CalcLength(4);
      var packet := adu.HeaderPacket() + (PackH(request.address) + PackH(request.count));
      var done := dataTable.holding.SetAll(request.address, request.words);
      if done.Throw? {
        return Throw(adu.Raise(ILLEGAL_DATA_ADDRESS));
      }
      r := Ok(packet);
    }

    method DecodePassed(packet: Packet) returns (r: Result<()>)
      requires |packet| > HEADER_LENGTH
      modifies this
      ensures r == if Takes(request.Value(), packet, false) then Ok(()) else Throw(Internal)
      ensures r.Ok? ==> address == request.address && count == request.count
      ensures adu == old(adu)
    {
      if |packet| != CalcAduLength(4) {
        return Throw(Internal);
      }
      address, count := UnpackH(packet, 8), UnpackH(packet, 10);
      if request.address != address {
        return Throw(Internal);
      }
      if request.count != count {
        return Throw(Internal);
      }
      r := Ok(());
    }
  }

  class MaskWriteRequest {
    var adu: Adu
    var address: word
    var andMask: word
    var orMask: word

    ghost function Value(): Request
      reads this
    {
      MaskWrite(address, andMask, orMask)
    }

    constructor (address: word := 0, andMask: word := 0, orMask: word := 0)
      ensures adu == NewAdu(MASK_WRITE_REGISTER) && Value() == MaskWrite(address, andMask, orMask)
    {
      this.address, this.andMask, this.orMask := address, andMask, orMask;
      adu := NewAdu(MASK_WRITE_REGISTER);
    }

    method Encode() returns (r: Result<Packet>)
      modifies this`adu
      ensures adu == old(adu).(length := 8)
      ensures r == Ok(Frame(adu.transaction, adu.unit, adu.functionCode, RequestData(Value())))
    {
      adu := adu.CalcLength(6);
      r := Ok(adu.HeaderPacket() + (PackH(address) + PackH(andMask) + PackH(orMask)));
    }

    method Decode(packet: Packet) returns (r: Result<()>)
      requires Addressed(packet, MASK_WRITE_REGISTER) ==> LongEnough(packet)
      modifies this
      ensures r == if Addressed(packet, MASK_WRITE_REGISTER) then Ok(())
                   else Throw(old(adu).Raise(SERVER_DEVICE_FAILURE))
      ensures r.Ok? ==> adu == old(adu).DecodeHeader(packet) && Parse(packet) == Good(Value())
      ensures r.Throw? ==> unchanged(this)
    {
      if !Addressed(packet, MASK_WRITE_REGISTER) {
        return Throw(adu.Raise(SERVER_DEVICE_FAILURE));
      }
      adu := adu.DecodeHeader(packet);
      address, andMask, orMask := UnpackH(packet, 8), UnpackH(packet, 10), UnpackH(packet, 12);
      r := Ok(());
    }

    method Execute(t: Table) returns (r: Result<MaskWriteResponse>)
      requires t.Valid()
      ensures r.Ok? <==> address in t.holding.View()
      ensures r.Ok? ==> fresh(r.value) && r.value.request == this && r.value.dataTable == t
      ensures r.Ok? ==> r.value.adu == NewAdu(adu.func).Initialize(adu.transaction, adu.unit)
      ensures r.Throw? ==> r == Throw(adu.Raise(ILLEGAL_DATA_ADDRESS))
    {
      t.holding.ValidateExact(address, 1);
      if !t.holding.ValidateOne(address) {
        return Throw(adu.Raise(ILLEGAL_DATA_ADDRESS));
      }
      var response := new MaskWriteResponse(this, t);
      r := Ok(response);
    }
  }

  class MaskWriteResponse {
    const request: MaskWriteRequest
    const dataTable: Table?
    const reqHeader: Header
    var adu: Adu
    var address: word
    var andMask: word
    var orMask: word

    constructor (request: MaskWriteRequest, dataTable: Table?)
      ensures this.request == request && this.dataTable == dataTable
      ensures reqHeader == request.adu.GetHeader()
      ensures adu == NewAdu(request.adu.func).Initialize(request.adu.transaction, request.adu.unit)
    {
      this.request, this.dataTable, reqHeader := request, dataTable, request.adu.GetHeader();
      adu := NewAdu(request.adu.func).Initialize(request.adu.transaction, request.adu.unit);
      address, andMask, orMask := 0, 0, 0;
    }

    method Encode() returns (r: Result<Packet>)
      requires dataTable != null && dataTable.Valid()
      modifies this, dataTable.holding.container
      ensures var m := old(dataTable.holding.View());
        if request.address in m then
          && dataTable.holding.View() ==
               m[request.address as int := Masked(m[request.address], request.andMask, request.orMask)]
          && r == Ok(Frame(adu.transaction, adu.unit, adu.functionCode,
                           PackH(request.address) + PackH(request.andMask) + PackH(request.orMask)))
        else
          dataTable.holding.View() == m && r == Throw(adu.Raise(ILLEGAL_DATA_ADDRESS))
      ensures adu.(length := 0) == old(adu).(length := 0)
    {
      adu := adu.CalcLength(6);
      var packet := adu.HeaderPacket()
                  + (PackH(request.address) + PackH(request.andMask) + PackH(request.orMask));
      if |packet| != CalcAduLength(6) {
        return Throw(adu.Raise(SERVER_DEVICE_FAILURE));
      }
      var current := dataTable.holding.Get(request.address);
      if current.Throw? {
        return Throw(adu.Raise(ILLEGAL_DATA_ADDRESS));
      }
      var masked := Masked(current.value, request.andMask, request.orMask);
      var done := dataTable.holding.Set(request.address, masked);
      if done.Throw? {
        return Throw(adu.Raise(ILLEGAL_DATA_ADDRESS));
      }
      address, andMask, orMask := request.address, request.andMask, request.orMask;
      r := Ok(packet);
    }

    method DecodePassed(packet: Packet) returns (r: Result<()>)
      requires |packet| > HEADER_LENGTH
      modifies this
      ensures r == if Takes(request.Value(), packet, false) then Ok(()) else Throw(Internal)
      ensures r.Ok? ==> address == request.address && andMask == request.andMask && orMask == request.orMask
      ensures adu == old(adu)
    {
      if |packet| != CalcAduLength(6) {
        return Throw(Internal);
      }
      if request.address != UnpackH(packet, 8) {
        return Throw(Internal);
      }
      if request.andMask != UnpackH(packet, 10) {
        return Throw(Internal);
      }
      if request.orMask != UnpackH(packet, 12) {
        return Throw(Internal);
      }
      address, andMask, orMask := request.address, request.andMask, request.orMask;
      r := Ok(());
    }
  }

  class ReadWriteRequest {
    var adu: Adu
    var readAddress: word
    var readCount: word
    var writeAddress: word
    var writeCount: word
    var words: seq<word>

    ghost function Value(): Request
      reads this
    {
      ReadWrite(readAddress, readCount, writeAddress, writeCount, words)
    }

    constructor (readAddress: word := 0, readCount: word := 1,
                 writeAddress: word := 0, writeCount: word := 1, words: seq<word> := [])
      ensures adu == NewAdu(READ_WRITE_MULTIPLE_REGISTERS)
      ensures Value() == ReadWrite(readAddress, readCount, writeAddress, writeCount, words)
    {
      this.readAddress, this.readCount := readAddress, readCount;
      this.writeAddress, this.writeCount, this.words := writeAddress, writeCount, words;
      adu := NewAdu(READ_WRITE_MULTIPLE_REGISTERS);
    }

    function ResponseSize(): word
      reads this
    {
      CalcAduLength(1 + RegisterByteCount(readCount))
    }

    /** The size check compares the packed registers with the 8-bit byte count. */
    method Encode() returns (r: Result<Packet>)
      modifies this`adu
      ensures adu == old(adu).(length := 11 + RegisterByteCount(writeCount) as int)
      ensures r == if Encodes(Value())
                   then Ok(Frame(adu.transaction, adu.unit, adu.functionCode, RequestData(Value())))
                   else Throw(Internal)
    {
      adu := adu.CalcLength(9 + RegisterByteCount(writeCount) as int);
      var pdu := PackH(readAddress) + PackH(readCount) + PackH(writeAddress) + PackH(writeCount)
               + [RegisterByteCount(writeCount)];
      var packet := AppendWords(adu.HeaderPacket() + pdu, words);
      assert packet == adu.HeaderPacket() + (pdu + PackWords(words));
      if |packet| != 9 + RegisterByteCount(writeCount) as int + HEADER_LENGTH + 1 {
        return Throw(Internal);
      }
      r := Ok(packet);
    }

    method Decode(packet: Packet) returns (r: Result<()>)
      requires Addressed(packet, READ_WRITE_MULTIPLE_REGISTERS) ==> LongEnough(packet)
      modifies this
      ensures !Addressed(packet, READ_WRITE_MULTIPLE_REGISTERS) ==>
        r == Throw(old(adu).Raise(SERVER_DEVICE_FAILURE)) && unchanged(this)
      ensures Addressed(packet, READ_WRITE_MULTIPLE_REGISTERS) ==>
        && adu == old(adu).DecodeHeader(packet)
        && r == if Parse(packet).Good? then Ok(()) else Throw(adu.Raise(SERVER_DEVICE_FAILURE))
      ensures r.Ok? ==> Parse(packet) == Good(Value()) && |words| == writeCount
    {
      if !Addressed(packet, READ_WRITE_MULTIPLE_REGISTERS) {
        return Throw(adu.Raise(SERVER_DEVICE_FAILURE));
      }
      adu := adu.DecodeHeader(packet);
      readAddress, readCount := UnpackH(packet, 8), UnpackH(packet, 10);
      writeAddress, writeCount := UnpackH(packet, 12), UnpackH(packet, 14);
      if RegisterByteCount(writeCount) != packet[16] {
        return Throw(adu.Raise(SERVER_DEVICE_FAILURE));
      }
      var buffer := ReadWords(packet, 17, RegisterByteCount(writeCount));
      words := Resize(buffer, writeCount, 0);
      r := Ok(());
    }

    method Execute(t: Table) returns (r: Result<ReadWriteResponse>)
      requires t.Valid()
      ensures var m := t.holding.View();
        r.Ok? <==> && 1 <= readCount <= MAX_REGS_READ && Window(m, readAddress, readCount)
                   && 1 <= writeCount <= MAX_REGS_WRITE && Window(m, writeAddress, writeCount)
      ensures r.Ok? ==> fresh(r.value) && r.value.request == this && r.value.dataTable == t
      ensures r.Ok? ==> r.value.adu == NewAdu(adu.func).Initialize(adu.transaction, adu.unit)
      ensures r.Ok? ==> r.value.count == RegisterByteCount(readCount)
      ensures r.Throw? ==> r == Throw(adu.Raise(ILLEGAL_DATA_ADDRESS))
    {
      t.holding.ValidateExact(readAddress, readCount);
      t.holding.ValidateExact(writeAddress, writeCount);
      if !t.holding.ValidateRead(readAddress, readCount) || !t.holding.ValidateWrite(writeAddress, writeCount) {
        return Throw(adu.Raise(ILLEGAL_DATA_ADDRESS));
      }
      var response := new ReadWriteResponse(this, t);
      r := Ok(response);
    }
  }

  class ReadWriteResponse {
    const request: ReadWriteRequest
    const dataTable: Table?
    const reqHeader: Header
    var adu: Adu
    var count: byte
    var registers: seq<word>

    constructor (request: ReadWriteRequest, dataTable: Table?)
      ensures this.request == request && this.dataTable == dataTable
      ensures reqHeader == request.adu.GetHeader()
      ensures adu == NewAdu(request.adu.func).Initialize(request.adu.transaction, request.adu.unit)
      ensures count == RegisterByteCount(request.readCount)
    {
      this.request, this.dataTable, reqHeader := request, dataTable, request.adu.GetHeader();
      adu := NewAdu(request.adu.func).Initialize(request.adu.transaction, request.adu.unit);
      count, registers := RegisterByteCount(request.readCount), [];
    }

    /** The write comes first. On its own this method is not all-or-nothing: when the
        write window exists and the read fails, the registers have been written and the
        answer is an exception. */
    method Encode() returns (r: Result<Packet>)
      requires dataTable != null && dataTable.Valid()
      requires count == RegisterByteCount(request.readCount)
      modifies this, dataTable.holding.container
      ensures var m := old(dataTable.holding.View());
        if request.words != [] && Window(m, request.writeAddress, |request.words|) then
          var m' := Write(m, request.writeAddress, request.words);
          && dataTable.holding.View() == m'
          && if 1 <= request.readCount <= MAX_REGS_READ && Window(m, request.readAddress, request.readCount) then
               && registers == Read(m', request.readAddress, request.readCount)
               && r == Ok(Frame(adu.transaction, adu.unit, adu.functionCode,
                                [RegisterByteCount(request.readCount)] + PackWords(registers)))
             else r == Throw(adu.Raise(ILLEGAL_DATA_ADDRESS))
        else
          dataTable.holding.View() == m && r == Throw(adu.Raise(ILLEGAL_DATA_ADDRESS))
      ensures adu.(length := 0) == old(adu).(length := 0)
    {
      var done := dataTable.holding.SetAll(request.writeAddress, request.words);
      if done.Throw? {
        return Throw(adu.Raise(ILLEGAL_DATA_ADDRESS));
      }
      var slice := dataTable.holding.GetSlice(request.readAddress, request.readCount);
      if slice.Throw? {
        return Throw(adu.Raise(ILLEGAL_DATA_ADDRESS));
      }
      registers := slice.value;
      adu := adu.CalcLength(1 + count as int);
      var packet := AppendRegisters(adu, count, registers);
      if |packet| != request.ResponseSize() {
        return Throw(adu.Raise(SERVER_DEVICE_FAILURE));
      }
      r := Ok(packet);
    }

    method DecodePassed(packet: Packet) returns (r: Result<()>)
      requires |packet| > HEADER_LENGTH
      modifies this
      ensures r == if Takes(request.Value(), packet, false) then Ok(()) else Throw(Internal)
      ensures registers == if r.Ok? then UnpackWords(packet, 9, request.readCount) else old(registers)
      ensures adu == old(adu)
    {
      if |packet| != request.ResponseSize() {
        return Throw(Internal);
      }
      count := packet[8];
      if count != RegisterByteCount(request.readCount) {
        return Throw(Internal);
      }
      var buffer := ReadWords(packet, 9, count);
      if |buffer| != request.readCount {
        return Throw(Internal);
      }
      registers := buffer;
      r := Ok(());
    }
  }
}
