# Verified model of a Modbus/TCP server and client

The project models modbus-cpp: the frame codec, the data table, the ten request and
response classes, the server step `request_handler::handle`, and the client's reading of
replies. It proves the server equal to a much simpler machine and proves the protocol's
properties about that machine.

## How it is built

- `Bytes`, `BitOps`, `Operation`, `Adu`: octets, the big-endian `H`/`B` fields, bitwise
  operators, packing of coils, and the MBAP header state. C++ exceptions are a `Result`:
  a value, or a thrown error that is an exception of the standard, one of the library's
  own, or `std::out_of_range`.
- `DataTable`: `Block`, a class over an array indexed by address minus starting address,
  with `View()`, the plain map from addresses to values it stands for; `Table`, four blocks.
- `Machine`: the reference server. Its state is four maps. It has one rule for each
  function code (`Accepts`, `Apply`, `Reply`) and one answer for every packet (`Next`,
  `Answer`). It knows no vectors, offsets, buffers or exceptions.
- `BitRead`, `BitWrite`, `RegisterRead`, `RegisterWrite`, `Response`, `RequestHandler`: the
  C++ classes with their mutable fields and loops, in the order of the source files. Their
  contracts describe the failure paths too, also those that `handle` never takes.
- `RequestHandler.Handle` and `Runs.Serve` prove that the code does what the machine does.
- `Wire`, `ClientWire`: server and client stated by the octets on the wire, with every number
  written out and in none of the reference machine's terms, so that the machine itself does
  not rest on its own definitions.
- `Replies`, `Runs`, `RoundTrip`, `Composition`, `Client`, `Reads`: the properties of packets,
  runs and exchanges.
- `Sessions`, `Concurrency`, `Progress`, `SharedTable`, `Races`: many sessions on one table. A session's
  calls of `set` and `get` are steps that interleave with those of others: `set` stores one
  cell at a time under the lock; `get` checks its window under the lock, and its caller reads
  the cells later, one at a time, without it.

The base class `adu` is a subobject of every request and response; it is a datatype value
in a field here, and its setters give a new value that the methods assign.

A frame must be long enough for its function code (`Machine.LongEnough`): the C++ `decode`
reads past the end of shorter ones, which is undefined. Frames without a function code
need nothing and are handled. Whether plain `char` is signed depends on the platform, so
client methods that convert one take it as a parameter.

## What holds of the code, and what does not

Where the code departs from the standard or from its evident intent, it is modelled as
written and the departure is stated exactly:

- A count out of bounds is answered with illegal data address, because `count_.validate()`
  resolves to the base class check. Illegal data value is never sent (`Replies.ExceptionsSent`).
- A malformed byte count or coil value is answered with server device failure.
- The mask write leaves out the AND NOT of section 6.16 of the MODBUS Application Protocol
  Specification V1.1b3. It agrees with the standard for every register value if and only if
  the masks share no bit (`Replies.MaskWriteStandard`, `Replies.MaskWriteExample`).
- The reply to a write of a single coil shows the coil before the write. The client takes it
  only if the write changed nothing (`Client.ClientTakes`), and a repeated request gets a
  different reply exactly when the first one changed the coil (`Replies.Retransmission`).
- The client takes no reply to a read of coils or discrete inputs, and with a signed `char`
  no reply with more than 63 registers to functions 0x03 and 0x04 (`Client.ClientTakes`).
- `check_stage` lets a reply for another known function pass (`Client.ForeignFunctionPasses`).
- Function codes of 0x2C and above are answered with function 0x80
  (`Replies.ExceptionNamesFunction`, `Client.StageOfUnsupported`).
- 8-bit byte counts limit what a client can encode: 255 coils and 127 registers, although
  the write limits are 1968 and 123 (`RoundTrip.EncodesExactly`).
- Locked writes are linearizable (`Concurrency.Linearizable`); reads are not. What a read
  returns is, whatever values are stored, the window of one moment if and only if no store
  hits a cell between that moment and its reading (`Concurrency.SnapshotExactly`, `Concurrency.UndisturbedForAllValues`), and
  `Races.TornRead` is a run in which one does.
- Among concurrent sessions 0x06, 0x0F and 0x10, whose replies echo the request, act as one
  step of the reference machine
  (`SharedTable.RegisterRequestsSerialize`, `SharedTable.CoilRequestsSerialize`). A mask write
  does exactly if its masks make the same of the register it saw as of the register it
  overwrites (`SharedTable.MaskWriteActsAsOne`); otherwise an update is lost
  (`Races.LostUpdate`). 0x05 and 0x17 change the table as one step; their replies are that
  step's exactly if the cells they saw had the values of that step
  (`SharedTable.WriteCoilActsAsOne`, `SharedTable.ReadWriteActsAsOne`).
- The response to 0x17, taken alone, is not all-or-nothing: it writes before it can fail
  (`RegisterWrite.ReadWriteResponse.Encode`). The server as a whole is (`Replies.AllOrNothing`).

## Model

| member | source | states |
|---|---|---|
| RequestHandler.Handle | source/request-handler.cpp:28-135 | for every table and long-enough packet, the reply and the four maps afterwards are those of the reference machine; an empty reply or an exception leaves all four blocks as they were |
| Runs.Serve | source/server.cpp:54-69 | refinement over runs: for every initial table and sequence of packets, the replies sent and the final table are those of the reference machine; when every packet has a function code, reply i answers packet i from the table as the packets before it left it |
| Runs.RepliesInOrder | source/server.cpp:54-69 | over any run, replies leave in the order of their packets, each made of the table as the earlier packets left it; packets without a function code take no place |
| Runs.EveryPacketAnswered | source/server.cpp:54-69 | when every packet has a function code there are as many replies as packets, and reply i answers packet i |
| Wire.NoFunction | source/request-handler.cpp:31-33 | a packet of at most seven octets gets no reply and changes nothing |
| Wire.UnknownFunction | source/request.cpp:30-33 | every octet of the reply to a function the server does not have |
| Wire.BitsRead | source/bit-read.cpp:30-154 | 0x01 and 0x02 by octets: carried out exactly for 1 to 2000 existing addresses, every octet of the reply, bit by bit, else every octet of the exception |
| Wire.RegistersRead | source/register-read.cpp:33-160 | 0x03 and 0x04 by octets: carried out exactly for 1 to 125 existing addresses, every octet of the reply, else of the exception |
| Wire.CoilWritten | source/bit-write.cpp:39-212 | 0x05 by octets: which values are taken, the coil afterwards, and the reply with the coil as it was |
| Wire.RegisterWritten | source/register-write.cpp:38-392 | 0x06 by octets: the register afterwards and the reply |
| Wire.CoilsWritten | source/bit-write.cpp:119-277 | 0x0F by octets: for every received frame with 1 to 1968 existing coils, coil k is bit k%8 of octet 13+k/8, or off past the end, whatever the byte count says |
| Wire.RegistersWritten | source/register-write.cpp:117-457 | 0x10 by octets: device failure exactly when the byte count does not match, 1 to 123 existing registers, the registers afterwards and the reply |
| Wire.RegisterMasked | source/register-write.cpp:204-531 | 0x16 by octets: each bit of the register afterwards, and the reply |
| Wire.RegistersReadWritten | source/register-write.cpp:287-620 | 0x17 by octets: both limits, the byte count, the registers afterwards, and the reply with the registers as they are then |
| Wire.ExceptionOctets | source/response.cpp:111-126 | every octet of an exception frame, for every function code |
| RequestHandler.Dispatch | source/request-handler.cpp:31-117 | the try block: which exception leaves it with which function, transaction and unit, and that a throw leaves the table alone |
| RequestHandler.IllegalRequest.Decode | source/request.cpp:30-33 | always throws illegal function; the exception carries the packet's transaction, length field and unit, and names the function sent if check_function knows it, else the one the request was made for |
| Response.ErrorResponse.Encode | source/response.cpp:111-126 | the exception frame: nine octets, function plus 0x80 in 8 bits, and the code |
| DataTable.Block.WindowExact | include/modbuscpp/modbuscpp/data-table.inline.hpp:78-87 | validate_sz accepts exactly the windows all of whose addresses exist, throws on zero, and then the 16-bit offset neither wraps nor leaves the vector |
| DataTable.Block.ValidateExact | include/modbuscpp/modbuscpp/data-table.inline.hpp:46-71 | the three validate overloads accept exactly existing windows within the read or write limit |
| DataTable.Block.constructor | include/modbuscpp/modbuscpp/data-table.inline.hpp:91-98 | a new block maps every address from its start up to the default value, and its vector has its capacity |
| DataTable.Block.FromContainer | include/modbuscpp/modbuscpp/data-table.inline.hpp:111-115 | a block made from a container maps its addresses to the container's values |
| DataTable.Block.GetSlice | include/modbuscpp/modbuscpp/data-table.inline.hpp:142-153 | the values of the window on the map, or out_of_range exactly when count or window is invalid |
| DataTable.Block.Get | include/modbuscpp/modbuscpp/data-table.inline.hpp:157-167 | the mapped value, or out_of_range exactly when the address does not exist |
| DataTable.Block.SetAll | include/modbuscpp/modbuscpp/data-table.inline.hpp:170-181 | the map after storing the buffer, or out_of_range and nothing stored, exactly when empty or outside |
| DataTable.Block.Set | include/modbuscpp/modbuscpp/data-table.inline.hpp:184-194 | one address of the map updated, or out_of_range and nothing changed |
| DataTable.Block.Reset | include/modbuscpp/modbuscpp/data-table.inline.hpp:197-200 | every existing address holds the default value |
| DataTable.Table.constructor | source/data-table.cpp:5-9 | the four blocks are filled from their initializers and share no storage |
| Operation.PackBitsLoop | source/operation.cpp:6-28 | the shift accumulator puts coil 8k+j into bit j of octet k |
| Operation.UnpackOctetLoop | source/operation.cpp:35-37 | the one-bit mask yields the eight bits of an octet, lowest first, and stops after bit 7 |
| Operation.UnpackBitsLoop | source/operation.cpp:30-42 | the coils of all octets in order |
| Operation.PackedPosition | source/operation.cpp:6-28 | coil 8k+j is bit j of octet k, and padding bits are zero |
| Operation.UnpackedPosition | source/operation.cpp:30-42 | unpacked coil 8k+j is bit j of octet k |
| Operation.UnpackPack | source/operation.cpp:6-42 | unpacking packed coils gives them back, padded with false to whole octets |
| Operation.PackUnpack | source/operation.cpp:6-42 | packing unpacked octets gives them back |
| Operation.PackBitsConcat | source/operation.cpp:6-28 | packing distributes over concatenation at an octet boundary |
| Bytes.AppendWords | source/register-read.cpp:109-113 | the loop appends each register as one big-endian field |
| Bytes.ReadWords | source/register-write.cpp:134-140 | the loop reads half as many registers as there are octets |
| Bytes.UnpackPackWords | source/register-write.cpp:104-108 | registers come back from their octets wherever they stand in a packet |
| BitRead.ReadBitsRequest.Encode | include/modbuscpp/modbuscpp/bit-read.inline.hpp:40-51 | the frame carries the request data for its function |
| BitRead.ReadBitsRequest.Decode | include/modbuscpp/modbuscpp/bit-read.inline.hpp:54-66 | the request the frame stands for, or device failure and nothing changed on a foreign function code |
| BitRead.ReadBitsRequest.Execute | source/bit-read.cpp:30-69 | a response exactly when the machine accepts the request, else illegal data address |
| BitRead.ReadBitsResponse.Encode | source/bit-read.cpp:88-113 | the frame with the packed bits of the window, or illegal data address exactly when the window is invalid |
| BitRead.ReadBitsResponse.DecodePassed | include/modbuscpp/modbuscpp/bit-read.inline.hpp:80-104 | which packets are taken, and that the bits change only then |
| RegisterRead.ReadRegistersRequest.Encode | include/modbuscpp/modbuscpp/register-read.inline.hpp:36-47 | the frame carries the request data for its function |
| RegisterRead.ReadRegistersRequest.Decode | include/modbuscpp/modbuscpp/register-read.inline.hpp:50-62 | the request the frame stands for, or device failure and nothing changed |
| RegisterRead.ReadRegistersRequest.Execute | source/register-read.cpp:33-73 | a response exactly when the machine accepts the request, else illegal data address |
| RegisterRead.ReadRegistersResponse.Encode | source/register-read.cpp:95-125 | the frame with the registers of the window, or illegal data address exactly when the window is invalid |
| RegisterRead.ReadRegistersResponse.DecodePassed | include/modbuscpp/modbuscpp/register-read.inline.hpp:76-115 | which packets are taken, sign extension of the octet count included, and the registers read |
| BitWrite.WriteCoilRequest.Encode | source/bit-write.cpp:25-37 | the frame carries address and coil value |
| BitWrite.WriteCoilRequest.Decode | source/bit-write.cpp:39-59 | the request, or device failure when the value is neither on nor off |
| BitWrite.WriteCoilRequest.Execute | source/bit-write.cpp:61-72 | a response exactly when the coil exists, and the exception code otherwise |
| BitWrite.WriteCoilResponse.Encode | source/bit-write.cpp:186-212 | the coil is set and the reply shows it as it was before, or nothing changes |
| BitWrite.WriteCoilResponse.DecodePassed | source/bit-write.cpp:214-232 | which packets are taken, an undefined coil value in the reply included |
| BitWrite.WriteCoilsRequest.Encode | source/bit-write.cpp:96-117 | the frame, or a bad-data error exactly when the packed coils do not fill the byte-count field |
| BitWrite.WriteCoilsRequest.Decode | source/bit-write.cpp:119-137 | as many coils as the count says, missing ones off, whatever the byte count |
| BitWrite.WriteCoilsRequest.Execute | source/bit-write.cpp:139-150 | a response exactly for a valid write window, else illegal data address |
| BitWrite.WriteCoilsResponse.Encode | source/bit-write.cpp:262-277 | the coils are stored and address and count echoed, or nothing is stored |
| BitWrite.WriteCoilsResponse.DecodePassed | source/bit-write.cpp:279-302 | which packets are taken |
| RegisterWrite.WriteRegisterRequest.Decode | source/register-write.cpp:38-57 | the request the frame stands for |
| RegisterWrite.WriteRegisterRequest.Encode | source/register-write.cpp:25-36 | the frame carries address and value |
| RegisterWrite.WriteRegisterRequest.Execute | source/register-write.cpp:59-70 | a response exactly when the register exists |
| RegisterWrite.WriteRegisterResponse.Encode | source/register-write.cpp:368-392 | the register is set and echoed, or nothing changes |
| RegisterWrite.WriteRegisterResponse.DecodePassed | source/register-write.cpp:394-421 | which packets are taken |
| RegisterWrite.WriteRegistersRequest.Encode | source/register-write.cpp:92-115 | the frame, or a bad-data error exactly when the registers do not fill the 8-bit byte count |
| RegisterWrite.WriteRegistersRequest.Decode | source/register-write.cpp:117-147 | the request, or device failure when the byte count does not match |
| RegisterWrite.WriteRegistersRequest.Execute | source/register-write.cpp:149-160 | a response exactly for a valid write window |
| RegisterWrite.WriteRegistersResponse.Encode | source/register-write.cpp:441-457 | the registers are stored and address and count echoed, or nothing is stored |
| RegisterWrite.WriteRegistersResponse.DecodePassed | source/register-write.cpp:459-482 | which packets are taken |
| RegisterWrite.MaskWriteRequest.Encode | source/register-write.cpp:190-202 | the frame carries address and both masks |
| RegisterWrite.MaskWriteRequest.Decode | source/register-write.cpp:204-216 | the request the frame stands for |
| RegisterWrite.MaskWriteRequest.Execute | source/register-write.cpp:218-229 | a response exactly when the register exists |
| RegisterWrite.MaskWriteResponse.Encode | source/register-write.cpp:501-531 | the register becomes (current AND and-mask) OR or-mask and the masks are echoed, or nothing changes |
| RegisterWrite.MaskWriteResponse.DecodePassed | source/register-write.cpp:533-566 | which packets are taken |
| RegisterWrite.ReadWriteRequest.Encode | source/register-write.cpp:260-285 | the frame, or a bad-data error exactly when the registers do not fill the 8-bit byte count |
| RegisterWrite.ReadWriteRequest.Decode | source/register-write.cpp:287-318 | the request, or device failure when the byte count does not match |
| RegisterWrite.ReadWriteRequest.Execute | source/register-write.cpp:320-334 | a response exactly when both windows are valid within their limits |
| RegisterWrite.ReadWriteResponse.Encode | source/register-write.cpp:588-620 | write, then read what is there after it; and the case in which the write has happened and the read throws |
| RegisterWrite.ReadWriteResponse.DecodePassed | source/register-write.cpp:622-659 | which packets are taken, and the registers read |
| Response.CheckStage | source/response.cpp:25-84 | passed, error or bad for every packet, and which header state is kept |
| ClientWire.Stages | source/response.cpp:25-84 | by octets: a packet that is no reply to this very request is bad; a reply passes exactly with a function from 1 to 43, and is an error exactly with the function plus 128 |
| ClientWire.HeaderKept | source/adu.cpp:104-112 | by octets, what a response keeps of a packet's header |
| ClientWire.TakenReplies | include/modbuscpp/modbuscpp/bit-read.inline.hpp:80-104 | by octets, for each request exactly which packets decode_passed takes, from this server or any other |
| ClientWire.ShortRequests | source/register-write.cpp:190-202 | every octet of the requests without a list of values |
| ClientWire.EncodedWhen | source/bit-write.cpp:96-117 | exactly when encode returns, for values that match the count or not |
| ClientWire.CoilsRequest | source/bit-write.cpp:96-117 | every octet and bit of an encoded 0x0F |
| ClientWire.RegistersRequest | source/register-write.cpp:92-115 | every octet of an encoded 0x10 |
| ClientWire.ReadWriteRequest | source/register-write.cpp:260-285 | every octet of an encoded 0x17 |
| Response.Triage | source/response.cpp:86-105 | what decode throws for bad packets and for exceptions, a reply cut before its exception code included |
| Replies.ReplyFraming | source/adu.cpp:126-131 | every packet with a function code gets one frame of at most 260 octets with its transaction and unit, protocol 0 and the right length field; normal replies have response_size octets and echo the function, others nine |
| Replies.AllOrNothing | source/request-handler.cpp:28-135 | a request was carried out if and only if the reply is neither empty nor an exception; otherwise all four blocks are unchanged |
| Replies.ExceptionsSent | source/request-handler.cpp:118-125 | which exception code is sent for what, each way, and that illegal data value never is |
| Replies.ExceptionNamesFunction | source/adu.cpp:104-112 | the exception reply names the requested function if and only if its code is below 0x2C |
| Replies.ReadBitsPayload | source/bit-read.cpp:88-154 | section 6.1: the reply's data, unpacked, is the window's bits padded with zeros, and the octet count is right |
| Replies.MaskedTwice | source/register-write.cpp:518-519 | a mask write done twice is the mask write done once |
| Replies.Retransmission | source/request-handler.cpp:41-110 | a packet handled twice leaves the table as handled once; the second reply is the first exactly unless a single coil changed |
| Replies.MaskWriteStandard | source/register-write.cpp:518-519 | the code's mask write equals section 6.16 for all register values if and only if the masks share no bit |
| Replies.MaskWriteExample | source/register-write.cpp:518-519 | a concrete register and masks for which the code and section 6.16 differ |
| Runs.RunKeeps | include/modbuscpp/modbuscpp/data-table.hpp:277-293 | no run changes which addresses exist, nor any discrete input or input register |
| Runs.AcceptanceIsStable | include/modbuscpp/modbuscpp/data-table.inline.hpp:78-87 | which requests are accepted is the same after any run of packets as before it |
| Runs.UntouchedCoil | source/bit-write.cpp:186-212 | over any run, a coil no accepted write covers keeps its initial value |
| Runs.LastCoilWriteWins | source/bit-write.cpp:262-277 | over any run, a coil has the value of the last accepted write that covers it |
| Runs.HoldingIsFold | source/register-write.cpp:501-531 | over any run, a register is what accepted writes and masks, in order, make of its initial value |
| Runs.LastHoldingWriteWins | source/register-write.cpp:441-457 | over any run, a register has the last value written, with the later masks folded in, whatever came before |
| Runs.WindowIsFold | source/register-write.cpp:501-531 | after any run a window of registers is, register by register, what the run's writes and masks make of it |
| Runs.CoilIsLast | source/bit-write.cpp:186-212 | after any run every coil is what the last accepted request covering it wrote, else its initial value |
| Reads.RegistersReported | source/register-read.cpp:95-125 | the registers in the reply to 0x03 after any run are what its writes and masks left; those in the reply to 0x04 are the initial ones |
| Reads.ReadWriteReported | source/register-write.cpp:588-620 | the registers in the reply to 0x17 after any run are what the run's writes and its own make of the initial ones |
| Reads.BitsReported | source/bit-read.cpp:88-154 | the data octets of the reply to 0x01 after any run, unpacked, are the last values written, else the initial ones; for 0x02 the initial ones |
| RoundTrip.EncodesExactly | source/bit-write.cpp:156-164 | with matching values encode returns exactly up to 255 coils and 127 registers |
| RoundTrip.RequestRoundTrip | source/register-write.cpp:260-318 | whenever encode returns, the frame is long enough and decodes to the same request, values resized to the count, and the same header |
| Composition.ReadWriteIsWriteThenRead | source/register-write.cpp:588-620 | 0x17 is accepted exactly when 0x10 and then 0x03 are; same table, same data octets |
| Composition.ReadWritePackets | source/register-write.cpp:320-334 | the same for any three received frames that ask for these requests; when either window is invalid 0x17 changes nothing |
| Composition.ReadWriteOverlap | source/register-write.cpp:588-659 | section 6.17: register i of the reply is the new value inside the write window and the old value elsewhere, for any overlap |
| Composition.RegisterWriteDecomposes | source/register-write.cpp:441-457 | every accepted 0x10 equals its single writes at consecutive addresses as far as 16-bit addresses reach, stores the rest beyond them, and leaves every other cell alone |
| Composition.CoilWriteDecomposes | source/bit-write.cpp:262-277 | the same for every accepted 0x0F |
| Composition.RegisterReadsSplit | source/register-read.cpp:95-125 | the data of reading n+k registers is that of n followed by that of k |
| Composition.BitReadsSplit | source/bit-read.cpp:88-113 | the same for bits when n fills whole octets |
| Client.StageAgrees | source/response.cpp:25-84 | for supported functions a reply is never bad; passed exactly when the server executed, error exactly when it answered with an exception |
| Client.StageOfUnsupported | source/response.cpp:59-80 | the stage of the reply to each unsupported function code |
| Client.ForeignFunctionPasses | source/response.cpp:57-69 | a reply for another known function passes |
| Client.ClientTakes | include/modbuscpp/modbuscpp/register-read.inline.hpp:84-94 | for each function, exactly which replies of this server decode_passed takes |
| Client.ClientRegisters | include/modbuscpp/modbuscpp/register-read.inline.hpp:96-111 | the registers read from a reply are those of the window |
| Client.ReadWriteExchange | standalone/source/client.cpp:76-117 | end to end: encode, handle, decode of 0x17; the client holds the registers as they are after the write, or learns of the exception and the table is unchanged |
| Concurrency.Linearizable | include/modbuscpp/modbuscpp/data-table.inline.hpp:170-194 | for any interleaving of any number of sessions, the block is what the completed `set`s leave in lock order, plus a prefix of the current buffer mid-write; each session's calls are complete and in order |
| Concurrency.NoSessionFaults | include/modbuscpp/modbuscpp/data-table.inline.hpp:142-194 | check-then-act: no call that was accepted throws or leaves the vector, whatever other sessions do in between |
| Concurrency.OneWriter | include/modbuscpp/modbuscpp/data-table.inline.hpp:170-194 | mutual exclusion: at most one session writes, and it holds the lock |
| Concurrency.LooksAtWhole | include/modbuscpp/modbuscpp/data-table.inline.hpp:142-153 | get checks its window at a moment at which the block is what completed writes left, and nothing of any other |
| Progress.OperationsComplete | include/modbuscpp/modbuscpp/data-table.inline.hpp:142-194 | from every state any sessions can reach, each session can complete everything it ever began, in order, and the lock comes free |
| Progress.BegunInFull | source/request-handler.cpp:41-110 | a session that begins a request's calls has begun all of them and no others |
| Progress.RequestCompletes | source/request-handler.cpp:41-110 | a session can complete exactly the calls it begins, in their order |
| Concurrency.BlockThen | include/modbuscpp/modbuscpp/data-table.inline.hpp:170-181 | prefixes of the history of one-cell stores are the block as it was at earlier steps |
| Concurrency.CellsRead | source/register-read.cpp:97-113 | every cell of a completed read was read after the lock was given back, in order, with the value the block had at that moment |
| Concurrency.SnapshotExactly | source/register-read.cpp:97-113 | a completed read is the block after the first l completed calls if no store hits a cell between that moment and its reading; when stored values differ, only then |
| Concurrency.UndisturbedForAllValues | source/bit-read.cpp:90-100 | a schedule reads the window of one moment whatever values are stored if and only if no store hits a cell between that moment and its reading |
| Concurrency.UpdateExactly | source/register-write.cpp:515-520 | a get followed by a set acts as one update at its lock if and only if it makes the same of the cell it saw as of the cell then; it saw the cell then if no store hits it in between, and when stored values differ only then |
| SharedTable.RegisterCallsValid | include/modbuscpp/modbuscpp/data-table.inline.hpp:46-71 | what `execute` accepts of requests on registers passes every check of the calls that `encode` makes |
| SharedTable.CoilCallsValid | include/modbuscpp/modbuscpp/data-table.inline.hpp:46-71 | the same for coils and discrete inputs |
| SharedTable.RegisterRequestCompletes | source/register-write.cpp:588-620 | every accepted request on registers can be served to its end with all of its calls, set and then get for 0x17 |
| SharedTable.CoilRequestCompletes | source/bit-write.cpp:186-212 | the same for coils and discrete inputs |
| SharedTable.ReadRegistersActsAsOne | source/register-read.cpp:95-125 | the reply to 0x03 is that of one read at a moment exactly if what it read is the window of that moment |
| SharedTable.ReadBitsActsAsOne | source/bit-read.cpp:88-113 | the same for 0x01, through the packing of bits |
| SharedTable.RegisterRequestsSerialize | source/register-write.cpp:441-457 | for any interleaving, requests 0x06, 0x10, the write of 0x17 and undisturbed mask writes act on the holding registers as whole steps of the reference machine in lock order |
| SharedTable.CoilRequestsSerialize | source/bit-write.cpp:262-277 | for any interleaving, requests 0x05 and 0x0F act on the coils as whole steps of the reference machine in lock order |
| SharedTable.WriteCoilActsAsOne | source/bit-write.cpp:186-212 | when the reply to 0x05 is that of one step: exactly if the coil it overwrites has the value it saw |
| SharedTable.MaskWriteActsAsOne | source/register-write.cpp:501-531 | when 0x16 changes the table as one step: exactly if its masks make the same of the register it saw and of the one it overwrites |
| SharedTable.ReadWriteActsAsOne | source/register-write.cpp:588-620 | when the reply to 0x17 is that of one step: exactly if what it read is the window right after its write |
| Races.TornRead | source/register-read.cpp:97-113 | a run in which a read returns 0 and 1 of two registers that were equal at every moment at which the lock was free |
| Races.LostUpdate | source/register-write.cpp:515-520 | a run of two mask writes that leaves 2 in a register where either order of the whole requests leaves 3 |

## Left out

- Sockets, sessions' lifetimes, callbacks and the logger; of the server only the receive loop and the sharing of one table are modelled.
- Text output (`dump`, stream operators, `packet_str`), CMake, documentation and tests.
- `struc`, `fmt`, asio2 and Boost: `struc` is replaced by the big-endian codec of `Bytes`.
- Frames shorter than their function code needs, whose decoding is undefined in C++.
- `ref`, which hands out mutable references into a block, and the non-const `container`; they are not on the request path.
- Reading a cell while another session stores it is a data race with no defined meaning in C++; `Sessions` assumes that reading or storing one cell is one step, also for coils, which a `std::vector<bool>` packs into shared words.
- `get` of a single coil copies it before the lock is given back; in `Sessions` it may be read later too, so what is proved for all interleavings covers more of them than the code has.
- The reads of 0x01 to 0x04 and 0x17 walk their window twice; `Sessions` has the walk that makes the reply, not the one that fills a field nobody sends.
- `generate_exception` slices to `std::exception`; only the exception code in the reply is kept.
- `response::error::decode`, the comparison operators of `adu` and `utilities::unpack`, which are not on the request or response path.
