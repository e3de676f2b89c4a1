/** Constants, errors and the header state every request and response carries
    (constants.hpp, exception.hpp, adu.hpp, source/adu.cpp). */
module ApplicationDataUnit {
  import opened Bytes

  const HEADER_LENGTH: nat := 7
  const MAX_FUNCTION: byte := 0x2C

  const READ_COILS: byte := 0x01
  const READ_DISCRETE_INPUTS: byte := 0x02
  const READ_HOLDING_REGISTERS: byte := 0x03
  const READ_INPUT_REGISTERS: byte := 0x04
  const WRITE_SINGLE_COIL: byte := 0x05
  const WRITE_SINGLE_REGISTER: byte := 0x06
  const WRITE_MULTIPLE_COILS: byte := 0x0F
  const WRITE_MULTIPLE_REGISTERS: byte := 0x10
  const MASK_WRITE_REGISTER: byte := 0x16
  const READ_WRITE_MULTIPLE_REGISTERS: byte := 0x17

  const ILLEGAL_FUNCTION: byte := 1
  const ILLEGAL_DATA_ADDRESS: byte := 2
  const ILLEGAL_DATA_VALUE: byte := 3
  const SERVER_DEVICE_FAILURE: byte := 4

  const MAX_BITS_READ: nat := 0x07D0
  const MAX_BITS_WRITE: nat := 0x07B0
  const MAX_REGS_READ: nat := 0x007D
  const MAX_REGS_WRITE: nat := 0x007B

  const COIL_ON: word := 0xFF00
  const COIL_OFF: word := 0x0000

  /** check_function on a function code octet. */
  predicate CheckFunction(f: byte) {
    0 < f < MAX_FUNCTION
  }

  datatype Header = Header(transaction: word, length: word, unit: byte)

  /** What the C++ code throws: an exception the standard defines, one of the
      library's own, std::out_of_range, or a plain std::exception made from an exception reply. */
  datatype Error =
    | Specification(code: byte, func: byte, header: Header)
    | Internal
    | OutOfRange
    | Generated(code: byte)

  datatype Result<+T> = Ok(value: T) | Throw(error: Error) {
    predicate IsFailure() {
      Throw?
    }

    function PropagateFailure<U>(): Result<U>
      requires Throw?
    {
      Throw(error)
    }

    function Extract(): T
      requires Ok?
    {
      value
    }
  }

  /** The fields of the C++ base class `adu`. */
  datatype Adu = Adu(func: byte, functionCode: byte, transaction: word, length: word, unit: byte) {
    function Initialize(t: word, u: byte): Adu {
      this.(transaction := t, length := 0, unit := u)
    }

    function CalcLength(pduLength: word): Adu {
      this.(length := (1 + 1 + pduLength) % 0x1_0000)
    }

    function GetHeader(): Header {
      Header(transaction, length, unit)
    }

    function HeaderPacket(): Packet {
      PackH(transaction) + PackH(0) + PackH(length) + [unit, functionCode]
    }

    function DecodeHeader(p: Packet): Adu
      requires |p| > HEADER_LENGTH
    {
      Adu(if CheckFunction(p[7]) then p[7] else func,
          p[7], UnpackH(p, 0), UnpackH(p, 4), p[6])
    }

    function Raise(code: byte): Error {
      Specification(code, func, GetHeader())
    }
  }

  /** The packet reaches as far as a function code, and it is this one. */
  predicate Addressed(p: Packet, code: byte) {
    |p| > HEADER_LENGTH && p[7] == code
  }

  function NewAdu(func: byte): Adu {
    Adu(func, func, 0, 0, 0)
  }

  /** calc_adu_length, in the 16 bits it is computed in. */
  function CalcAduLength(dataLength: nat): word {
    (HEADER_LENGTH + 1 + dataLength) % 0x1_0000
  }
}
