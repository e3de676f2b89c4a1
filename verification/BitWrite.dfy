/** source/bit-write.cpp: functions 0x05 and 0x0F. */
module BitWrite {
  import opened Bytes
  import opened Operation
  import opened ApplicationDataUnit
  import opened DataTable
  import opened Machine
  import opened Response

  class WriteCoilRequest {
    var adu: Adu
    var address: word
    var value: word

    ghost function Value(): Request
      reads this
    {
      WriteCoil(address, value == COIL_ON)
    }

    constructor (address: word := 0, on: bool := true)
      ensures adu == NewAdu(WRITE_SINGLE_COIL) && Value() == WriteCoil(address, on) && value == CoilWord(on)
    {
      this.address, this.value := address, CoilWord(on);
      adu := NewAdu(WRITE_SINGLE_COIL);
    }

    method Encode() returns (r: Result<Packet>)
      modifies this`adu
      ensures adu == old(adu).(length := 6)
      ensures r == Ok(Frame(adu.transaction, adu.unit, adu.functionCode, PackH(address) + PackH(value)))
      ensures CheckBitsValue(value) ==>
        r == Ok(Frame(adu.transaction, adu.unit, adu.functionCode, RequestData(Value())))
    {
      adu := adu.CalcLength(4);
      r := Ok(adu.HeaderPacket() + (PackH(address) + PackH(value)));
    }

    method Decode(packet: Packet) returns (r: Result<()>)
      requires Addressed(packet, WRITE_SINGLE_COIL) ==> LongEnough(packet)
      modifies this
      ensures !Addressed(packet, WRITE_SINGLE_COIL) ==>
        r == Throw(old(adu).Raise(SERVER_DEVICE_FAILURE)) && unchanged(this)
      ensures Addressed(packet, WRITE_SINGLE_COIL) ==>
        && adu == old(adu).DecodeHeader(packet)
        && r == if Parse(packet).Good? then Ok(()) else Throw(adu.Raise(SERVER_DEVICE_FAILURE))
      ensures r.Ok? ==> Parse(packet) == Good(Value()) && CheckBitsValue(value)
    {
      if !Addressed(packet, WRITE_SINGLE_COIL) {
        return Throw(adu.Raise(SERVER_DEVICE_FAILURE));
      }
      adu := adu.DecodeHeader(packet);
      address := UnpackH(packet, 8);
      var temp := UnpackH(packet, 10);
      if !CheckBitsValue(temp) {
        return Throw(adu.Raise(SERVER_DEVICE_FAILURE));
      }
      value := temp;
      r := Ok(());
    }

    method Execute(t: Table) returns (r: Result<WriteCoilResponse>)
      requires t.Valid()
      ensures r.Ok? <==> CheckBitsValue(value) && address in t.coils.View()
      ensures r.Ok? ==> fresh(r.value) && r.value.request == this && r.value.dataTable == t
      ensures r.Ok? ==> r.value.adu == NewAdu(adu.func).Initialize(adu.transaction, adu.unit)
      ensures r.Throw? ==>
        r == Throw(adu.Raise(if value == 0 || value == 0xFF00 then 2 else 3))
    {
      if !CheckBitsValue(value) {
        return Throw(adu.Raise(ILLEGAL_DATA_VALUE));
      }
      t.coils.ValidateExact(address, 1);
      if !t.coils.ValidateOne(address) {
        return Throw(adu.Raise(ILLEGAL_DATA_ADDRESS));
      }
      var response := new WriteCoilResponse(this, t);
      r := Ok(response);
    }
  }

  class WriteCoilResponse {
    const request: WriteCoilRequest
    const dataTable: Table?
    const reqHeader: Header
    var adu: Adu
    var value: word

    constructor (request: WriteCoilRequest, dataTable: Table?)
      ensures this.request == request && this.dataTable == dataTable
      ensures reqHeader == request.adu.GetHeader()
      ensures adu == NewAdu(request.adu.func).Initialize(request.adu.transaction, request.adu.unit)
    {
      this.request, this.dataTable, reqHeader := request, dataTable, request.adu.GetHeader();
      adu := NewAdu(request.adu.func).Initialize(request.adu.transaction, request.adu.unit);
      value := COIL_OFF;
    }

    /** The reply is built from the coil as it was before the write. */
    method Encode() returns (r: Result<Packet>)
      requires dataTable != null && dataTable.Valid()
      modifies this, dataTable.coils.container
      ensures var m := old(dataTable.coils.View());
        if request.address in m then
          && dataTable.coils.View() == m[request.address as int := request.value == COIL_ON]
          && r == Ok(Frame(adu.transaction, adu.unit, adu.functionCode,
                           PackH(request.address) + PackH(CoilWord(m[request.address]))))
        else
          dataTable.coils.View() == m && r == Throw(adu.Raise(ILLEGAL_DATA_ADDRESS))
      ensures adu.(length := 0) == old(adu).(length := 0)
    {
      var current := dataTable.coils.Get(request.address);
      if current.Throw? {
        return Throw(adu.Raise(ILLEGAL_DATA_ADDRESS));
      }
      value := CoilWord(current.value);
      adu := adu.CalcLength(4);
      var packet := adu.HeaderPacket() + (PackH(request.address) + PackH(value));
      if |packet| != CalcAduLength(4) {
        return Throw(adu.Raise(SERVER_DEVICE_FAILURE));
      }
      var done := dataTable.coils.Set(request.address, request.value == COIL_ON);
      if done.Throw? {
        return Throw(adu.Raise(ILLEGAL_DATA_ADDRESS));
      }
      r := Ok(packet);
    }

    method DecodePassed(packet: Packet) returns (r: Result<()>)
      requires |packet| > HEADER_LENGTH
      modifies this
      ensures r == if |packet| == 12 && UnpackH(packet, 8) == request.address
                      && (CheckBitsValue(UnpackH(packet, 10)) ==> UnpackH(packet, 10) == request.value)
                   then Ok(()) else Throw(Internal)
      ensures CheckBitsValue(request.value) ==> (r.Ok? <==> Takes(request.Value(), packet, false))
      ensures r.Ok? ==> value == UnpackH(packet, 10)
      ensures adu == old(adu)
    {
      if |packet| != CalcAduLength(4) {
        return Throw(Internal);
      }
      var received, v := UnpackH(packet, 8), UnpackH(packet, 10);
      if request.address != received {
        return Throw(Internal);
      }
      if request.value != v && CheckBitsValue(v) {
        return Throw(Internal);
      }
      value := v;
      r := Ok(());
    }
  }

  /** Unpacking what follows index `i` and resizing it to `count` yields coil k from octet k/8, bit k%8. */
  lemma ResizedIsSent(p: Packet, i: nat, count: word)
    requires i <= |p|
    ensures Resize(UnpackBits(p[i..]), count, false) == SentBits(p, i, count)
  {
    forall k: nat | k < count
      ensures Resize(UnpackBits(p[i..]), count, false)[k] == SentBits(p, i, count)[k]
    {
      if i + k / 8 < |p| {
        UnpackedPosition(p[i..], k / 8, k % 8);
      }
    }
  }

  class WriteCoilsRequest {
    var adu: Adu
    var address: word
    var count: word
    var bits: seq<bool>
    var byteCount: byte

    ghost function Value(): Request
      reads this
    {
      WriteCoils(address, count, bits)
    }

    constructor (address: word := 0, count: word := 1, bits: seq<bool> := [])
      ensures adu == NewAdu(WRITE_MULTIPLE_COILS) && Value() == WriteCoils(address, count, bits)
      ensures byteCount == CoilByteCount(count)
    {
      this.address, this.count, this.bits := address, count, bits;
      byteCount := CoilByteCount(count);
      adu := NewAdu(WRITE_MULTIPLE_COILS);
    }

    /** The size check compares the packed coils with the byte-count field. */
    method Encode() returns (r: Result<Packet>)
      modifies this`adu
      ensures adu == old(adu).(length := 7 + byteCount as int)
      ensures r == if |PackBits(bits)| == byteCount
                   then Ok(Frame(adu.transaction, adu.unit, adu.functionCode, RequestData(Value())))
                   else Throw(Internal)
    {
      adu := adu.CalcLength(5 + byteCount as int);
      var pdu := PackH(address) + PackH(count) + [CoilByteCount(count)];
      var octets := PackBitsLoop(bits);
      var packet := adu.HeaderPacket() + pdu + octets;
      assert packet == adu.HeaderPacket() + (pdu + octets);
      if |packet| != 5 + byteCount as int + HEADER_LENGTH + 1 {
        return Throw(Internal);
      }
      r := Ok(packet);
    }

    method Decode(packet: Packet) returns (r: Result<()>)
      requires Addressed(packet, WRITE_MULTIPLE_COILS) ==> LongEnough(packet)
      modifies this
      ensures r == if Addressed(packet, WRITE_MULTIPLE_COILS) then Ok(())
                   else Throw(old(adu).Raise(SERVER_DEVICE_FAILURE))
      ensures r.Ok? ==> adu == old(adu).DecodeHeader(packet) && Parse(packet) == Good(Value())
      ensures r.Ok? ==> |bits| == count && byteCount == packet[12]
      ensures r.Throw? ==> unchanged(this)
    {
      if !Addressed(packet, WRITE_MULTIPLE_COILS) {
        return Throw(adu.Raise(SERVER_DEVICE_FAILURE));
      }
      adu := adu.DecodeHeader(packet);
      address, count, byteCount := UnpackH(packet, 8), UnpackH(packet, 10), packet[12];
      ResizedIsSent(packet, 13, count);
      bits := UnpackBitsLoop(packet[13..]);
      bits := Resize(bits, count, false);
      r := Ok(());
    }

    method Execute(t: Table) returns (r: Result<WriteCoilsResponse>)
      requires t.Valid()
      ensures r.Ok? <==> 1 <= count <= MAX_BITS_WRITE && Window(t.coils.View(), address, count)
      ensures r.Ok? ==> fresh(r.value) && r.value.request == this && r.value.dataTable == t
      ensures r.Ok? ==> r.value.adu == NewAdu(adu.func).Initialize(adu.transaction, adu.unit)
      ensures r.Throw? ==> r == Throw(adu.Raise(ILLEGAL_DATA_ADDRESS))
    {
      t.coils.ValidateExact(address, count);
      if !t.coils.ValidateWrite(address, count) {
        return Throw(adu.Raise(ILLEGAL_DATA_ADDRESS));
      }
      var response := new WriteCoilsResponse(this, t);
      r := Ok(response);
    }
  }

  class WriteCoilsResponse {
    const request: WriteCoilsRequest
    const dataTable: Table?
    const reqHeader: Header
    var adu: Adu
    var address: word
    var count: word

    constructor (request: WriteCoilsRequest, dataTable: Table?)
      ensures this.request == request && this.dataTable == dataTable
      ensures reqHeader == request.adu.GetHeader()
      ensures adu == NewAdu(request.adu.func).Initialize(request.adu.transaction, request.adu.unit)
    {
      this.request, this.dataTable, reqHeader := request, dataTable, request.adu.GetHeader();
      adu := NewAdu(request.adu.func).Initialize(request.adu.transaction, request.adu.unit);
      address, count := 0, 1;
    }

    /** All coils of the request are stored, whatever its count says. */
    method Encode() returns (r: Result<Packet>)
      requires dataTable != null && dataTable.Valid()
      modifies this, dataTable.coils.container
      ensures var m := old(dataTable.coils.View());
        if request.bits != [] && Window(m, request.address, |request.bits|) then
          && dataTable.coils.View() == Write(m, request.address, request.bits)
          && r == Ok(Frame(adu.transaction, adu.unit, adu.functionCode,
                           PackH(request.address) + PackH(request.count)))
        else
          dataTable.coils.View() == m && r == Throw(adu.Raise(ILLEGAL_DATA_ADDRESS))
      ensures adu.(length := 0) == old(adu).(length := 0)
    {
      adu := adu.CalcLength(4);
      var packet := adu.HeaderPacket() + (PackH(request.address) + PackH(request.count));
      var done := dataTable.coils.SetAll(request.address, request.bits);
      if done.Throw? {
        return Throw(adu.Raise(ILLEGAL_DATA_ADDRESS));
      }
      r := Ok(packet);
    }

    method DecodePassed(packet: Packet) returns (r: Result<()>)
      requires |packet| > HEADER_LENGTH
      modifies this
      ensures r == if Takes(request.Value(), packet, false) then Ok(()) else Throw(Internal)
      ensures r.Ok? ==> address == request.address && count == request.count
      ensures adu == old(adu)
    {
      if |packet| != CalcAduLength(4) {
        return Throw(Internal);
      }
      address, count := UnpackH(packet, 8), UnpackH(packet, 10);
      if request.address != address {
        return Throw(Internal);
      }
      if request.count != count {
        return Throw(Internal);
      }
      r := Ok(());
    }
  }
}
