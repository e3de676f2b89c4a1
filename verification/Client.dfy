/** Client and server together: what a client makes of the replies of this server. */
module Client {
  import opened Bytes
  import opened ApplicationDataUnit
  import opened DataTable
  import opened Machine
  import opened Response
  import opened Replies
  import opened RoundTrip
  import opened RegisterWrite
  import opened RequestHandler
  import opened Composition

  /** Every reply to a supported request is understood: it passes exactly when the server
      carried the request out, is an error exactly when the server answered with an
      exception, and is never bad. */
  lemma StageAgrees(s: Store, p: Packet, h: Header)
    requires LongEnough(p) && |p| > HEADER_LENGTH && Supported(p[7])
    requires h.transaction == UnpackH(p, 0) && h.unit == p[6]
    ensures StageOf(h, p[7], Answer(s, p)) == if Executes(s, p) then Passed else Error
  {
    ReplyFraming(s, p);
  }

  /** For a function the server does not have the client sees an error exactly when
      check_function knows the code. For any other code the reply carries function 0x80,
      which is bad, except to a client that waits for 0x80 itself. */
  lemma StageOfUnsupported(s: Store, p: Packet, h: Header)
    requires LongEnough(p) && |p| > HEADER_LENGTH && !Supported(p[7])
    requires h.transaction == UnpackH(p, 0) && h.unit == p[6]
    ensures StageOf(h, p[7], Answer(s, p)) ==
      if CheckFunction(p[7]) then Error else if p[7] == 0x80 then Passed else Bad
  {
    ReplyFraming(s, p);
  }

  /** A reply for another function passes too, as long as the library knows that function. */
  lemma ForeignFunctionPasses(h: Header, f: byte, g: byte, data: Packet)
    requires CheckFunction(f) && |data| <= 0xFFFD
    ensures StageOf(h, f, Frame(h.transaction, h.unit, g, data)) ==
      if CheckFunction(g) then Passed else if g == f + 0x80 then Error else Bad
  {
    FrameFields(h.transaction, h.unit, g, data);
  }

  /** Which replies to carried-out requests the client takes. It takes no read of coils or
      discrete inputs; registers up to 63 of them where char is signed; a single coil
      only if the write did not change it; and everything else. */
  lemma ClientTakes(s: Store, p: Packet, q: Request, signedChar: bool)
    requires LongEnough(p) && Executes(s, p) && Parse(p) == Good(q)
    ensures |Answer(s, p)| > HEADER_LENGTH
    ensures Takes(q, Answer(s, p), signedChar) <==>
      match q
      case ReadBits(_, _, _) => false
      case ReadRegisters(_, _, n) => n <= 63 || !signedChar
      case WriteCoil(a, on) => s.coils[a] == on
      case _ => true
  {
    AnswerData(s, p, q);
    DataTaken(s, q, Answer(s, p), signedChar);
  }

  lemma DataTaken(s: Store, q: Request, a: Packet, signedChar: bool)
    requires Accepts(s, q) && |a| == 8 + ReplyLength(q) && a[8..] == Reply(s, q)
    ensures Takes(q, a, signedChar) <==>
      match q
      case ReadBits(_, _, _) => false
      case ReadRegisters(_, _, n) => n <= 63 || !signedChar
      case WriteCoil(c, on) => s.coils[c] == on
      case _ => true
  {
    assert a[8] == a[8..][0] && a[9] == a[8..][1];
  }

  /** The registers a client decodes from a taken reply are those of the window. */
  lemma ClientRegisters(s: Store, p: Packet, q: Request)
    requires LongEnough(p) && Executes(s, p) && Parse(p) == Good(q) && q.ReadRegisters?
    ensures |Answer(s, p)| == 9 + 2 * q.count
    ensures Window(RegistersOf(s, q.code), q.address, q.count)
    ensures UnpackWords(Answer(s, p), 9, q.count) == Read(RegistersOf(s, q.code), q.address, q.count)
  {
    AnswerData(s, p, q);
    RegistersFromReply(Answer(s, p), Read(RegistersOf(s, q.code), q.address, q.count));
  }

  /** The exchange of standalone/source/client.cpp: encode a read/write-multiple request,
      let the server handle it, decode the reply. Either the size check of `encode`
      fails and nothing happens; or a window is rejected, the client learns of illegal
      data address and the table is unchanged; or the write is in the table and the client
      holds the registers of the read window as they are after it. */
  method ReadWriteExchange(t: Table, req: ReadWriteRequest) returns (r: Result<seq<word>>)
    requires t.Valid() && req.adu.func == req.adu.functionCode == READ_WRITE_MULTIPLE_REGISTERS
    modifies t.coils.container, t.holding.container, req
    ensures
      var s, q := old(t.View()), old(req.Value());
      if !Encodes(q) then r == Throw(Internal) && t.View() == s
      else if !Accepts(s, q) then r == Throw(Generated(ILLEGAL_DATA_ADDRESS)) && t.View() == s
      else
        && t.View() == s.(holding := Write(s.holding, q.writeAddress, q.words))
        && Window(t.View().holding, q.readAddress, q.readCount)
        && r == Ok(Read(t.View().holding, q.readAddress, q.readCount))
  {
    ghost var s, q := t.View(), req.Value();
    var packet :- req.Encode();
    assert packet == RequestFrame(req.adu.transaction, req.adu.unit, q);
    RequestRoundTrip(req.adu.transaction, req.adu.unit, q);
    var reply := Handle(t, packet);
    ExchangeReply(s, packet, q, req.adu.GetHeader());
    var response := new ReadWriteResponse(req, null);
    var triage, adu := Triage(response.reqHeader, response.adu, reply);
    response.adu := adu;
    var _ :- triage;
    var decoded := response.DecodePassed(reply);
    match decoded {
      case Throw(e) => r := Throw(e);
      case Ok(_) => r := Ok(response.registers);
    }
  }

  /** What comes back from the server for a 0x17 frame of a client, accepted or not. */
  lemma ExchangeReply(s: Store, p: Packet, q: Request, h: Header)
    requires q.ReadWrite? && Encodes(q) && p == RequestFrame(h.transaction, h.unit, q)
    ensures LongEnough(p) && Parse(p) == Good(Received(q))
    ensures Accepts(s, Received(q)) <==> Accepts(s, q)
    ensures var a := Answer(s, p);
      if Accepts(s, q) then
        && StageOf(h, READ_WRITE_MULTIPLE_REGISTERS, a) == Passed
        && Next(s, p) == s.(holding := Write(s.holding, q.writeAddress, q.words))
        && |a| == 9 + 2 * q.readCount && a[8] as int == 2 * q.readCount
        && Window(Next(s, p).holding, q.readAddress, q.readCount)
        && UnpackWords(a, 9, q.readCount) == Read(Next(s, p).holding, q.readAddress, q.readCount)
      else
        && StageOf(h, READ_WRITE_MULTIPLE_REGISTERS, a) == Error
        && |a| == 9 && a[8] == ILLEGAL_DATA_ADDRESS && Next(s, p) == s
  {
    RequestRoundTrip(h.transaction, h.unit, q);
    StageAgrees(s, p, h);
    if Accepts(s, q) {
      ReadWriteReply(s, p, q);
    } else {
      ReplyFraming(s, p);
    }
  }
}
