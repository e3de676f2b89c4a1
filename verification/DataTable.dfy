/** data-table.hpp and data-table.inline.hpp: blocks of coils or registers stored in
    a vector that is indexed by address minus starting address. */
module DataTable {
  import opened Bytes
  import opened ApplicationDataUnit

  predicate Within(k: int, a: int, n: int) {
    a <= k < a + n
  }

  /** Consecutive cells as a map from addresses to values. */
  ghost function Cells<T(!new)>(start: int, cells: seq<T>): map<int, T> {
    map k | start <= k < start + |cells| && Within(k, start, |cells|) :: cells[k - start]
  }

  /** All of the addresses a, .., a+n-1 exist. */
  ghost predicate Window<T(!new)>(m: map<int, T>, a: int, n: int) {
    forall i :: a <= i < a + n ==> i in m
  }

  /** The values at a, .., a+n-1. */
  ghost function Read<T(!new)>(m: map<int, T>, a: int, n: nat): (s: seq<T>)
    requires Window(m, a, n)
  {
    seq(n, i requires 0 <= i < n => m[a + i])
  }

  /** The map after storing `values` at a, a+1, ..; addresses that do not exist stay so. */
  ghost function Write<T(!new)>(m: map<int, T>, a: int, values: seq<T>): (m': map<int, T>)
    ensures m'.Keys == m.Keys
  {
    map k | k in m :: if a <= k < a + |values| then values[k - a] else m[k]
  }

  /** What a block is created with and never changes: where it starts, how many cells it
      has, and how many of them one request may read or write. */
  datatype Geometry = Geometry(start: word, capacity: nat, maxRead: nat, maxWrite: nat) {
    /** validate_sz: throws on a count of zero. */
    function ValidateSz(address: word, count: nat): Result<bool> {
      if count > 0 then Ok(start <= address && start + capacity >= address + count)
      else Throw(OutOfRange)
    }

    function ValidateOne(address: word): bool {
      ValidateSz(address, 1).value
    }

    function ValidateRead(address: word, count: word): bool {
      0 < count <= maxRead && ValidateSz(address, count).value
    }

    function ValidateWrite(address: word, count: word): bool {
      0 < count <= maxWrite && ValidateSz(address, count).value
    }

    /** The 16-bit subtraction `address - starting_address()`. */
    function Offset(address: word): word {
      (address - start) % 0x1_0000
    }
  }

  class Block<T(!new)> {
    const geometry: Geometry
    const defaultValue: T
    const container: array<T>

    /** What the block stands for: a plain map from addresses to values. */
    ghost function View(): (m: map<int, T>)
      reads container
    {
      Cells(geometry.start, container[..])
    }

    /** The vector has the length the block was created with. */
    ghost predicate Valid() {
      container.Length == geometry.capacity
    }

    constructor (geometry: Geometry, defaultValue: T)
      ensures Valid() && fresh(container)
      ensures this.geometry == geometry && this.defaultValue == defaultValue
      ensures forall k :: k in View() <==> geometry.start <= k < geometry.start + geometry.capacity
      ensures forall k :: k in View() ==> View()[k] == defaultValue
    {
      this.geometry, this.defaultValue := geometry, defaultValue;
      container := new T[geometry.capacity](_ => defaultValue);
    }

    constructor FromContainer(start: word, values: seq<T>, zero: T, maxRead: nat, maxWrite: nat)
      ensures Valid() && fresh(container)
      ensures geometry == Geometry(start, |values|, maxRead, maxWrite) && defaultValue == zero
      ensures forall k :: k in View() <==> start <= k < start + |values|
      ensures forall k :: k in View() ==> View()[k] == values[k - start]
    {
      geometry, defaultValue := Geometry(start, |values|, maxRead, maxWrite), zero;
      container := new T[|values|](i requires 0 <= i < |values| => values[i]);
    }

    function ValidateOne(address: word): bool {
      geometry.ValidateOne(address)
    }

    function ValidateRead(address: word, count: word): bool {
      geometry.ValidateRead(address, count)
    }

    function ValidateWrite(address: word, count: word): bool {
      geometry.ValidateWrite(address, count)
    }

    /** validate_sz is exact: it accepts a window if and only if every address in it
        exists, and then the 16-bit offset did not wrap and stays inside the vector. */
    lemma WindowExact(address: word, count: nat)
      requires Valid()
      ensures geometry.ValidateSz(address, count) ==
        if count == 0 then Throw(OutOfRange) else Ok(Window(View(), address, count))
      ensures count > 0 && Window(View(), address, count) ==>
        geometry.Offset(address) == address - geometry.start && geometry.Offset(address) + count <= container.Length
    {
      if count > 0 && Window(View(), address, count) {
        assert address in View() && address + (count - 1) in View();
      }
    }

    /** The three `validate` overloads are exact up to the read and write limits. */
    lemma ValidateExact(address: word, count: word)
      requires Valid()
      ensures ValidateOne(address) <==> address in View()
      ensures ValidateRead(address, count) <==> 1 <= count <= geometry.maxRead && Window(View(), address, count)
      ensures ValidateWrite(address, count) <==> 1 <= count <= geometry.maxWrite && Window(View(), address, count)
    {
      WindowExact(address, 1);
      WindowExact(address, count);
      assert Window(View(), address, 1) <==> address in View();
    }

    method GetSlice(address: word, count: word) returns (r: Result<seq<T>>)
      requires Valid()
      ensures r == if 1 <= count <= geometry.maxRead && Window(View(), address, count)
                   then Ok(Read(View(), address, count)) else Throw(OutOfRange)
    {
      ValidateExact(address, count);
      WindowExact(address, count);
      if !ValidateRead(address, count) {
        return Throw(OutOfRange);
      }
      var idx := geometry.Offset(address);
      r := Ok(container[idx..idx + count]);
      assert r.value == Read(View(), address, count);
    }

    method Get(address: word) returns (r: Result<T>)
      requires Valid()
      ensures r == if address in View() then Ok(View()[address]) else Throw(OutOfRange)
    {
      ValidateExact(address, 1);
      if !ValidateOne(address) {
        return Throw(OutOfRange);
      }
      r := Ok(container[geometry.Offset(address)]);
    }

    method SetAll(address: word, buffer: seq<T>) returns (r: Result<()>)
      requires Valid()
      modifies container
      ensures r == if buffer != [] && Window(old(View()), address, |buffer|) then Ok(()) else Throw(OutOfRange)
      ensures View() == if r.Ok? then Write(old(View()), address, buffer) else old(View())
    {
      WindowExact(address, |buffer|);
      var valid :- geometry.ValidateSz(address, |buffer|);
      if !valid {
        return Throw(OutOfRange);
      }
      var idx := geometry.Offset(address);
      for i := 0 to |buffer|
        invariant forall k :: 0 <= k < container.Length ==>
          container[k] == if idx <= k < idx + i then buffer[k - idx] else old(container[k])
      {
        container[idx + i] := buffer[i];
      }
      assert View() == Write(old(View()), address, buffer);
      r := Ok(());
    }

    method Set(address: word, value: T) returns (r: Result<()>)
      requires Valid()
      modifies container
      ensures r == if address in old(View()) then Ok(()) else Throw(OutOfRange)
      ensures View() == if r.Ok? then old(View())[address as int := value] else old(View())
    {
      ValidateExact(address, 1);
      if !ValidateOne(address) {
        return Throw(OutOfRange);
      }
      container[geometry.Offset(address)] := value;
      assert View() == old(View())[address as int := value];
      r := Ok(());
    }

    method Reset()
      requires Valid()
      modifies container
      ensures View() == map k | k in old(View()) :: defaultValue
    {
      for i := 0 to container.Length
        invariant forall k :: 0 <= k < i ==> container[k] == defaultValue
      {
        container[i] := defaultValue;
      }
    }
  }

  /** The four maps a table stands for. */
  datatype Store = Store(
    coils: map<int, bool>,
    inputs: map<int, bool>,
    holding: map<int, word>,
    inputRegs: map<int, word>)

  /** block::sequential::initializer_t */
  datatype Initializer<T(!new)> = Initializer(start: word, capacity: nat, value: T) {
    ghost function Filled(): (m: map<int, T>)
      ensures forall k :: k in m <==> start <= k < start + capacity
      ensures forall k :: k in m ==> m[k] == value
    {
      Cells(start, seq(capacity, _ => value))
    }
  }

  class Table {
    const coils: Block<bool>
    const inputs: Block<bool>
    const holding: Block<word>
    const inputRegs: Block<word>

    ghost predicate Valid() {
      && coils.Valid() && inputs.Valid() && holding.Valid() && inputRegs.Valid()
      && coils.container != inputs.container && holding.container != inputRegs.container
      && coils.container as object != holding.container && coils.container as object != inputRegs.container
      && inputs.container as object != holding.container && inputs.container as object != inputRegs.container
      && coils.geometry.maxRead == inputs.geometry.maxRead == MAX_BITS_READ
      && coils.geometry.maxWrite == inputs.geometry.maxWrite == MAX_BITS_WRITE
      && holding.geometry.maxRead == inputRegs.geometry.maxRead == MAX_REGS_READ
      && holding.geometry.maxWrite == inputRegs.geometry.maxWrite == MAX_REGS_WRITE
    }

    ghost function View(): Store
      reads coils.container, inputs.container, holding.container, inputRegs.container
    {
      Store(coils.View(), inputs.View(), holding.View(), inputRegs.View())
    }

    constructor (coils: Initializer<bool>, inputs: Initializer<bool>,
                 holding: Initializer<word>, inputRegs: Initializer<word>)
      ensures Valid()
      ensures fresh(this.coils.container) && fresh(this.holding.container)
      ensures View() == Store(coils.Filled(), inputs.Filled(), holding.Filled(), inputRegs.Filled())
    {
      this.coils := new Block(Geometry(coils.start, coils.capacity, MAX_BITS_READ, MAX_BITS_WRITE), coils.value);
      this.inputs := new Block(Geometry(inputs.start, inputs.capacity, MAX_BITS_READ, MAX_BITS_WRITE), inputs.value);
      this.holding := new Block(Geometry(holding.start, holding.capacity, MAX_REGS_READ, MAX_REGS_WRITE), holding.value);
      this.inputRegs := new Block(Geometry(inputRegs.start, inputRegs.capacity, MAX_REGS_READ, MAX_REGS_WRITE), inputRegs.value);
    }
  }
}
