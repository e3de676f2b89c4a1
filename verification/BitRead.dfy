/** bit-read.inline.hpp and source/bit-read.cpp: functions 0x01 and 0x02. */
module BitRead {
  import opened Bytes
  import opened Operation
  import opened ApplicationDataUnit
  import opened DataTable
  import opened Machine
  import opened Response

  /** The function codes the template is instantiated with. */
  type BitCode = c: byte | c == READ_COILS || c == READ_DISCRETE_INPUTS witness READ_COILS

  /** Header, octet count and packed bits, appended one after another. */
  method AppendBits(adu: Adu, byteCount: word, bits: seq<bool>) returns (packet: Packet)
    requires byteCount == Ceiling8(|bits|) <= 250 && adu.length == 3 + byteCount
    ensures packet == Frame(adu.transaction, adu.unit, adu.functionCode, [byteCount as byte] + PackBits(bits))
  {
    FrameOf(adu, [byteCount as byte] + PackBits(bits));
    packet := adu.HeaderPacket() + [byteCount % 0x100];
    var octets := PackBitsLoop(bits);
    packet := packet + octets;
  }

  class ReadBitsRequest {
    const code: BitCode
    var adu: Adu
    var address: word
    var count: word

    ghost function Value(): Request
      reads this
    {
      ReadBits(code, address, count)
    }

    constructor (code: BitCode, address: word := 0, count: word := 1)
      ensures this.code == code && adu == NewAdu(code) && Value() == ReadBits(code, address, count)
    {
      this.code, this.address, this.count := code, address, count;
      adu := NewAdu(code);
    }

    function ByteCount(): (n: word)
      reads this
      ensures n == Ceiling8(count)
    {
      count / 8 + (if count % 8 != 0 then 1 else 0)
    }

    function ResponseSize(): (n: word)
      reads this
      ensures n == 9 + Ceiling8(count)
    {
      CalcAduLength(1 + ByteCount())
    }

    method Encode() returns (r: Result<Packet>)
      modifies this`adu
      ensures adu == old(adu).(length := 6)
      ensures r == Ok(Frame(adu.transaction, adu.unit, adu.functionCode, RequestData(Value())))
    {
      adu := adu.CalcLength(4);
      r := Ok(adu.HeaderPacket() + (PackH(address) + PackH(count)));
    }

    method Decode(packet: Packet) returns (r: Result<()>)
      requires Addressed(packet, code) ==> LongEnough(packet)
      modifies this
      ensures r == if Addressed(packet, code) then Ok(()) else Throw(old(adu).Raise(SERVER_DEVICE_FAILURE))
      ensures r.Ok? ==> adu == old(adu).DecodeHeader(packet) && Parse(packet) == Good(Value())
      ensures r.Throw? ==> unchanged(this)
    {
      if !Addressed(packet, code) {
        return Throw(adu.Raise(SERVER_DEVICE_FAILURE));
      }
      adu := adu.DecodeHeader(packet);
      address, count := UnpackH(packet, 8), UnpackH(packet, 10);
      r := Ok(());
    }

    /** The block this instantiation of the template works on. */
    function BlockOf(t: Table): Block<bool> {
      if code == READ_COILS then t.coils else t.inputs
    }

    method Execute(t: Table) returns (r: Result<ReadBitsResponse>)
      requires t.Valid()
      ensures r.Ok? <==> Accepts(t.View(), Value())
      ensures r.Ok? ==> fresh(r.value) && r.value.request == this && r.value.dataTable == t
      ensures r.Ok? ==> r.value.adu == NewAdu(code).Initialize(adu.transaction, adu.unit)
      ensures r.Throw? ==> r == Throw(adu.Raise(ILLEGAL_DATA_ADDRESS))
    {
      BlockOf(t).ValidateExact(address, count);
      if !BlockOf(t).ValidateRead(address, count) {
        return Throw(adu.Raise(ILLEGAL_DATA_ADDRESS));
      }
      var response := new ReadBitsResponse(this, t);
      r := Ok(response);
    }
  }

  class ReadBitsResponse {
    const request: ReadBitsRequest
    const dataTable: Table?
    const reqHeader: Header
    var adu: Adu
    var count: word
    var bits: seq<bool>

    constructor (request: ReadBitsRequest, dataTable: Table?)
      ensures this.request == request && this.dataTable == dataTable
      ensures reqHeader == request.adu.GetHeader()
      ensures adu == NewAdu(request.code).Initialize(request.adu.transaction, request.adu.unit)
    {
      this.request, this.dataTable, reqHeader := request, dataTable, request.adu.GetHeader();
      adu := NewAdu(request.code).Initialize(request.adu.transaction, request.adu.unit);
      count, bits := 0, [];
    }

    method Encode() returns (r: Result<Packet>)
      requires dataTable != null && dataTable.Valid()
      modifies this
      ensures var m := request.BlockOf(dataTable).View();
        if 1 <= request.count <= MAX_BITS_READ && Window(m, request.address, request.count) then
          && bits == Read(m, request.address, request.count)
          && r == Ok(Frame(adu.transaction, adu.unit, adu.functionCode,
                           [Ceiling8(request.count) as byte] + PackBits(bits)))
        else r == Throw(adu.Raise(ILLEGAL_DATA_ADDRESS))
      ensures adu.(length := 0) == old(adu).(length := 0)
    {
      var slice := request.BlockOf(dataTable).GetSlice(request.address, request.count);
      if slice.Throw? {
        return Throw(adu.Raise(ILLEGAL_DATA_ADDRESS));
      }
      bits := slice.value;
      var byteCount := request.ByteCount();
      adu := adu.CalcLength(byteCount + 1);
      var packet := AppendBits(adu, byteCount, bits);
      if |packet| != request.ResponseSize() {
        return Throw(adu.Raise(SERVER_DEVICE_FAILURE));
      }
      r := Ok(packet);
    }

    /** The octet count is read as a plain char: sign-extended where char is signed.
        It is compared with the number of coils, as is the unpacked buffer. */
    method DecodePassed(packet: Packet, signedChar: bool) returns (r: Result<()>)
      requires |packet| > HEADER_LENGTH
      modifies this
      ensures r == if Takes(request.Value(), packet, signedChar) then Ok(()) else Throw(Internal)
      ensures bits == if r.Ok? then UnpackBits(packet[9..]) else old(bits)
      ensures adu == old(adu)
    {
      if |packet| != request.ResponseSize() {
        return Throw(Internal);
      }
      count := CharToWord(packet[8], signedChar);
      if count != request.count {
        return Throw(Internal);
      }
      var buffer := UnpackBitsLoop(packet[9..]);
      if |buffer| != request.count {
        return Throw(Internal);
      }
      bits := buffer;
      r := Ok(());
    }
  }
}
