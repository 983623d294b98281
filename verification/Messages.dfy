/** The payload types of src/message_types.hpp; the tagged union is one datatype. */
module Messages {

  type Int32 = x: int | -0x8000_0000 <= x < 0x8000_0000
  type Uint16 = x: int | 0 <= x < 0x1_0000
  type Uint8 = x: int | 0 <= x < 0x100

  // ControlOperation
  const START: Uint8 := 1
  const STOP: Uint8 := 2
  const SKIP: Uint8 := 3

  const MAXIMUM_QUEUE_SIZE: nat := 128

  datatype Client = Client(ip: string, port: Uint16, bullyId: Uint16)

  datatype Status = Status(currentSongId: Int32, elapsedTime: Int32, paused: bool, queue: seq<Int32>)

  datatype ClientList = ClientList(bullyId: Uint16, clients: seq<Client>)

  datatype Message =
    | ControlMusic(op: Uint8)
    | ChangeSong(songId: Int32, addToQueue: bool)
    | Disconnect(dummy: Uint8)
    | Connect(dummy: Uint8)
    | QueryStatus(dummy: Uint8)
    | SendStatus(status: Status)
    | Bully(et: Uint8)
    | ConnectorList(list: ClientList)
    | ConnectorListUpdate(clients: seq<Client>)
    | Unnamed(tag: Uint8) // a tag no payload type answers to; the union then holds nothing
  {
    function Tag(): Uint8 {
      match this
      case ControlMusic(_) => 0
      case ChangeSong(_, _) => 1
      case Disconnect(_) => 2
      case Connect(_) => 3
      case QueryStatus(_) => 4
      case SendStatus(_) => 5
      case Bully(_) => 6
      case ConnectorList(_) => 7
      case ConnectorListUpdate(_) => 8
      case Unnamed(tag) => tag
    }

    /** Tags up to 8 always come with their payload. */
    predicate WellTagged() {
      Unnamed? ==> tag > 8
    }
  }
}
