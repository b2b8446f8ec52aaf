/**
 * The `Position` entity, the two event payloads the handlers receive, and
 * the entity store abstracted as a map from id to record.
 */
module Schema {
  import opened Runtime

  datatype Position = Position(
    id: string,
    contract: Bytes,
    owner: Bytes,
    amount: nat,
    stopLoss: nat,
    takeProfit: nat,
    closed: bool)

  /** An `OpenPosition` event: emitting contract, its parameters and block metadata. */
  datatype OpenPositionEvent = OpenPositionEvent(
    address: Bytes,
    owner: Bytes,
    amount: nat,
    stopLoss: nat,
    takeProfit: nat,
    blockNumber: nat,
    logIndex: nat)

  /** A `ClosePosition` event: of its parameters only the owner is read. */
  datatype ClosePositionEvent = ClosePositionEvent(
    address: Bytes,
    owner: Bytes,
    blockNumber: nat,
    logIndex: nat)

  datatype Event = Open(open: OpenPositionEvent) | Close(close: ClosePositionEvent)
  {
    /** `event.address`: the contract that emitted the event. */
    function Address(): Bytes
    {
      match this
      case Open(e) => e.address
      case Close(e) => e.address
    }

    /** `event.params.owner` */
    function Owner(): Bytes
    {
      match this
      case Open(e) => e.owner
      case Close(e) => e.owner
    }
  }

  /** What `Position.load` / `save` read and write: full records keyed by id. */
  type Store = map<string, Position>

  /** `save()` writes a record under its own id, so every record sits under its id. */
  ghost predicate KeyedById(s: Store)
  {
    forall k :: k in s ==> s[k].id == k
  }

  /** `new Position(id)`: the id is set, every other field is still unset. */
  function NewPosition(id: string): (p: Position)
    ensures p.id == id && !p.closed
    ensures p.contract == [] && p.owner == [] && p.amount == 0 && p.stopLoss == 0 && p.takeProfit == 0
  {
    Position(id, [], [], 0, 0, 0, false)
  }

  /** The literal `Bytes.fromHexString` turns into the zero address. */
  const ZeroAddressHex: string := "0x0000000000000000000000000000000000000000"

  function ZeroAddress(host: Host): Bytes
  {
    host.bytesFromHex(ZeroAddressHex)
  }
}
