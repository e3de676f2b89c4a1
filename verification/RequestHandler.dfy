/** source/request.cpp, source/request-handler.cpp and source/server.cpp:54-69: the
    server step, proved equal to a step of the reference machine. */
module RequestHandler {
  import opened Bytes
  import opened ApplicationDataUnit
  import opened DataTable
  import opened Machine
  import Replies
  import opened Response
  import opened BitRead
  import opened BitWrite
  import opened RegisterRead
  import opened RegisterWrite

  /** The function code an exception names: the one sent if check_function knows it, else
      the one the request was made for. */
  function KnownFunction(sent: byte, made: byte): byte {
    if CheckFunction(sent) then sent else made
  }

  /** Transaction, length field and unit, where they stand in a packet. */
  function HeaderOf(p: Packet): Header
    requires |p| > HEADER_LENGTH
  {
    Header(UnpackH(p, 0), UnpackH(p, 4), p[6])
  }

  /** request::illegal */
  class IllegalRequest {
    var adu: Adu

    constructor (func: byte := 0)
      ensures adu == NewAdu(func)
    {
      adu := NewAdu(func);
    }

    method Decode(packet: Packet) returns (r: Result<()>)
      requires |packet| > HEADER_LENGTH
      modifies this
      ensures adu.functionCode == packet[7] && adu.func == KnownFunction(packet[7], old(adu.func))
      ensures adu.GetHeader() == HeaderOf(packet)
      ensures r == Throw(Specification(ILLEGAL_FUNCTION, KnownFunction(packet[7], old(adu.func)), HeaderOf(packet)))
    {
      adu := adu.DecodeHeader(packet);
      r := Throw(adu.Raise(ILLEGAL_FUNCTION));
    }
  }

  /** What serving a supported request may return or throw, and the store it leaves. */
  ghost predicate Answers(s: Store, p: Packet, s': Store, r: Result<Packet>)
    requires |p| > HEADER_LENGTH && Supported(p[7]) && LongEnough(p)
  {
    if Executes(s, p) then
      var q := Parse(p).request;
      ReplySize(s, q);
      s' == Apply(s, q) && r == Ok(Frame(UnpackH(p, 0), p[6], p[7], Reply(s, q)))
    else
      s' == s && r.Throw? && Rejects(p, ExceptionCode(p), r.error)
  }

  /** An exception of the standard that names this packet's function, transaction and unit. */
  predicate Rejects(p: Packet, code: byte, e: Error)
    requires |p| > HEADER_LENGTH
  {
    && e.Specification? && e.code == code && e.func == p[7]
    && e.header.transaction == UnpackH(p, 0) && e.header.unit == p[6]
  }

  method ServeReadBits(t: Table, p: Packet) returns (r: Result<Packet>)
    requires t.Valid() && LongEnough(p)
    requires |p| > HEADER_LENGTH && (p[7] == READ_COILS || p[7] == READ_DISCRETE_INPUTS)
    ensures Answers(t.View(), p, t.View(), r)
  {
    var req := new ReadBitsRequest(p[7]);
    var decoded := req.Decode(p);
    match decoded {
      case Throw(e) =>
        r := Throw(e);
      case Ok(_) =>
        var res :- req.Execute(t);
        r := res.Encode();
    }
  }

  lemma ReadRegistersAnswers(s: Store, p: Packet, r: Result<Packet>)
    requires LongEnough(p) && |p| > HEADER_LENGTH && (p[7] == READ_HOLDING_REGISTERS || p[7] == READ_INPUT_REGISTERS)
    requires var q, m := Parse(p).request, RegistersOf(s, p[7]);
      && 1 <= q.count <= MAX_REGS_READ && Window(m, q.address, q.count)
      && r == Ok(Frame(UnpackH(p, 0), p[6], p[7],
                       [RegisterByteCount(q.count)] + PackWords(Read(m, q.address, q.count))))
    ensures Answers(s, p, s, r)
  {
  }

  method ServeReadRegisters(t: Table, p: Packet) returns (r: Result<Packet>)
    requires t.Valid() && LongEnough(p)
    requires |p| > HEADER_LENGTH && (p[7] == READ_HOLDING_REGISTERS || p[7] == READ_INPUT_REGISTERS)
    ensures Answers(t.View(), p, t.View(), r)
  {
    var req := new ReadRegistersRequest(p[7]);
    var decoded := req.Decode(p);
    match decoded {
      case Throw(e) =>
        r := Throw(e);
      case Ok(_) =>
        var res :- req.Execute(t);
        r := res.Encode();
        ReadRegistersAnswers(t.View(), p, r);
    }
  }

  method ServeWriteCoil(t: Table, p: Packet) returns (r: Result<Packet>)
    requires t.Valid() && LongEnough(p) && Addressed(p, WRITE_SINGLE_COIL)
    modifies t.coils.container
    ensures Answers(old(t.View()), p, t.View(), r)
  {
    var req := new WriteCoilRequest();
    var decoded := req.Decode(p);
    match decoded {
      case Throw(e) =>
        r := Throw(e);
      case Ok(_) =>
        var res :- req.Execute(t);
        r := res.Encode();
    }
  }

  method ServeWriteRegister(t: Table, p: Packet) returns (r: Result<Packet>)
    requires t.Valid() && LongEnough(p) && Addressed(p, WRITE_SINGLE_REGISTER)
    modifies t.holding.container
    ensures Answers(old(t.View()), p, t.View(), r)
  {
    var req := new WriteRegisterRequest();
    var decoded := req.Decode(p);
    match decoded {
      case Throw(e) =>
        r := Throw(e);
      case Ok(_) =>
        var res :- req.Execute(t);
        r := res.Encode();
    }
  }

  method ServeWriteCoils(t: Table, p: Packet) returns (r: Result<Packet>)
    requires t.Valid() && LongEnough(p) && Addressed(p, WRITE_MULTIPLE_COILS)
    modifies t.coils.container
    ensures Answers(old(t.View()), p, t.View(), r)
  {
    var req := new WriteCoilsRequest();
    var decoded := req.Decode(p);
    match decoded {
      case Throw(e) =>
        r := Throw(e);
      case Ok(_) =>
        var res :- req.Execute(t);
        r := res.Encode();
    }
  }

  method ServeWriteRegisters(t: Table, p: Packet) returns (r: Result<Packet>)
    requires t.Valid() && LongEnough(p) && Addressed(p, WRITE_MULTIPLE_REGISTERS)
    modifies t.holding.container
    ensures Answers(old(t.View()), p, t.View(), r)
  {
    var req := new WriteRegistersRequest();
    var decoded := req.Decode(p);
    match decoded {
      case Throw(e) =>
        r := Throw(e);
      case Ok(_) =>
        var res :- req.Execute(t);
        r := res.Encode();
    }
  }

  method ServeMaskWrite(t: Table, p: Packet) returns (r: Result<Packet>)
    requires t.Valid() && LongEnough(p) && Addressed(p, MASK_WRITE_REGISTER)
    modifies t.holding.container
    ensures Answers(old(t.View()), p, t.View(), r)
  {
    var req := new MaskWriteRequest();
    var decoded := req.Decode(p);
    match decoded {
      case Throw(e) =>
        r := Throw(e);
      case Ok(_) =>
        var res :- req.Execute(t);
        r := res.Encode();
    }
  }

  lemma ReadWriteAnswers(s: Store, p: Packet, s': Store, r: Result<Packet>)
    requires LongEnough(p) && Addressed(p, READ_WRITE_MULTIPLE_REGISTERS) && Parse(p).Good?
    requires var q, m := Parse(p).request, s.holding;
      && 1 <= q.readCount <= MAX_REGS_READ && Window(m, q.readAddress, q.readCount)
      && 1 <= q.writeCount <= MAX_REGS_WRITE && Window(m, q.writeAddress, q.writeCount)
      && s' == s.(holding := Write(m, q.writeAddress, q.words))
      && r == Ok(Frame(UnpackH(p, 0), p[6], p[7],
                       [RegisterByteCount(q.readCount)] + PackWords(Read(s'.holding, q.readAddress, q.readCount))))
    ensures Answers(s, p, s', r)
  {
  }

  method ServeReadWrite(t: Table, p: Packet) returns (r: Result<Packet>)
    requires t.Valid() && LongEnough(p) && Addressed(p, READ_WRITE_MULTIPLE_REGISTERS)
    modifies t.holding.container
    ensures Answers(old(t.View()), p, t.View(), r)
  {
    var req := new ReadWriteRequest();
    var decoded := req.Decode(p);
    match decoded {
      case Throw(e) =>
        r := Throw(e);
      case Ok(_) =>
        var res :- req.Execute(t);
        r := res.Encode();
        ReadWriteAnswers(old(t.View()), p, t.View(), r);
    }
  }

  /** The body of the `try` in request_handler::handle. */
  method Dispatch(t: Table, p: Packet) returns (r: Result<Packet>)
    requires t.Valid() && LongEnough(p)
    modifies t.coils.container, t.holding.container
    ensures |p| <= HEADER_LENGTH ==> r == Throw(Internal) && t.View() == old(t.View())
    ensures |p| > HEADER_LENGTH && Supported(p[7]) ==> Answers(old(t.View()), p, t.View(), r)
    ensures |p| > HEADER_LENGTH && !Supported(p[7]) ==>
      && t.View() == old(t.View())
      && r == Throw(Specification(ILLEGAL_FUNCTION, KnownFunction(p[7], 0), HeaderOf(p)))
  {
    if |p| <= HEADER_LENGTH {
      return Throw(Internal);
    }
    var f := p[7];
    if f == READ_COILS || f == READ_DISCRETE_INPUTS {
      r := ServeReadBits(t, p);
    } else if f == READ_HOLDING_REGISTERS || f == READ_INPUT_REGISTERS {
      r := ServeReadRegisters(t, p);
    } else if f == WRITE_SINGLE_COIL {
      r := ServeWriteCoil(t, p);
    } else if f == WRITE_SINGLE_REGISTER {
      r := ServeWriteRegister(t, p);
    } else if f == WRITE_MULTIPLE_COILS {
      r := ServeWriteCoils(t, p);
    } else if f == WRITE_MULTIPLE_REGISTERS {
      r := ServeWriteRegisters(t, p);
    } else if f == MASK_WRITE_REGISTER {
      r := ServeMaskWrite(t, p);
    } else if f == READ_WRITE_MULTIPLE_REGISTERS {
      r := ServeReadWrite(t, p);
    } else {
      var req := new IllegalRequest();
      var decoded := req.Decode(p);
      r := Throw(decoded.error);
    }
  }

  /** request_handler::handle: reply and table are those of the reference machine, and
      a reply that is empty or an exception leaves all four blocks as they were. */
  method Handle(t: Table, packet: Packet) returns (reply: Packet)
    requires t.Valid() && LongEnough(packet)
    modifies t.coils.container, t.holding.container
    ensures t.View() == Next(old(t.View()), packet)
    ensures reply == Answer(old(t.View()), packet)
    ensures reply == [] || Replies.IsException(reply) ==> t.View() == old(t.View())
  {
    Replies.AllOrNothing(t.View(), packet);
    var r := Dispatch(t, packet);
    match r {
      case Ok(p) =>
        reply := p;
      case Throw(Specification(code, func, header)) =>
        var response := new ErrorResponse(func, code, header);
        var encoded := response.Encode();
        reply := if encoded.Ok? then encoded.value else [];
      case Throw(_) =>
        reply := [];
    }
  }
}
