/** Plain values shared by every part of the multi-core messaging model. */
module MccTypes {

  type Byte = bv8

  /** MCC_RESERVED_PORT_NUMBER: the port that marks a free table entry. */
  const RESERVED_PORT: nat := 0

  /** MCC_INIT_STRING */
  const INIT_STRING := "mccisrd"

  datatype Endpoint = Endpoint(core: nat, node: nat, port: nat) {
    predicate Reserved() {
      port == RESERVED_PORT
    }
  }

  const ZERO_ENDPOINT := Endpoint(0, 0, 0)

  datatype SignalType = BufferQueued | BufferFreed

  datatype Signal = Signal(kind: SignalType, destination: Endpoint)

  const FREED_SIGNAL := Signal(BufferFreed, ZERO_ENDPOINT)

  /** The return codes that the modelled calls can produce. */
  datatype Status = Success | ErrTimeout | ErrInval | ErrNoMem | ErrEndpoint | ErrSqFull | ErrSqEmpty

  /** The length and data fields of one receive buffer. */
  datatype Cell = Cell(len: nat, data: seq<Byte>) {
    predicate Valid() {
      len <= |data|
    }

    /** The message that the buffer carries: its first len bytes. */
    function Message(): seq<Byte>
      requires Valid()
    {
      data[..len]
    }

    /** Copying a message in leaves the bytes behind it as they were. */
    function Store(msg: seq<Byte>): (c: Cell)
      requires |msg| <= |data|
      ensures c.Valid() && c.Message() == msg && |c.data| == |data|
    {
      Cell(|msg|, msg + data[|msg|..])
    }
  }
}
