/**
  The older host-status byte and one-byte command set of `src/hosts.rs`.
  Its byte layout is the one of the common crate, but a server has no Idle
  state and every server byte decodes as Running.
 */
module LegacyHosts {
  import opened Wire
  import CommonHosts

  const MAX_MESSAGE_LENGTH: nat := 65507
  /** This copy's `MAIN_PORT` is 0xddd, not the common crate's 0xdddd. */
  const MAIN_PORT: nat := 0xddd

  datatype ClientStatus = Unreachable | Running | Idle
  datatype ServerStatus = ServerUnreachable | ServerRunning

  datatype HostStatus =
    | ConfiglessClient(status: ClientStatus)
    | Server(serverStatus: ServerStatus)
    | Client(status: ClientStatus, calibrated: bool)

  predicate IsUnreachable(s: HostStatus) {
    match s
    case ConfiglessClient(st) => st == Unreachable
    case Server(st) => st == ServerUnreachable
    case Client(st, _) => st == Unreachable
  }

  /** `TryInto<u8> for HostStatus` */
  function Encode(s: HostStatus): (r: Option<byte>)
    ensures r.None? <==> IsUnreachable(s)
    ensures r.Some? ==> (CommonHosts.CalibratedBit(r.value) != 0 <==> s.Client? && s.calibrated)
    ensures r.Some? ==> r.value % 16 == 0
  {
    var stateBits: Option<byte> := match s
      case ConfiglessClient(st) => if st == Unreachable then None else Some(if st == Running then CommonHosts.RUNNING else CommonHosts.IDLE)
      case Client(st, _) => if st == Unreachable then None else Some(if st == Running then CommonHosts.RUNNING else CommonHosts.IDLE)
      case Server(st) => if st == ServerUnreachable then None else Some(CommonHosts.RUNNING);
    if stateBits.None? then None
    else
      match s
      case Client(_, calibrated) => Some(CommonHosts.CLIENT + stateBits.value + (if calibrated then CommonHosts.CALIBRATED else 0))
      case ConfiglessClient(_) => Some(CommonHosts.CONFIGLESS + stateBits.value)
      case Server(_) => Some(CommonHosts.SERVER + stateBits.value)
  }

  /** `TryFrom<u8> for HostStatus` */
  function Decode(v: byte): (r: Option<HostStatus>)
    ensures r.None? <==> v / 64 == 0
    ensures v / 64 == 3 ==> r == Some(Server(ServerRunning))
    ensures r.Some? && r.value.Client? ==> (r.value.calibrated <==> CommonHosts.CalibratedBit(v) != 0)
    ensures r.Some? ==> !IsUnreachable(r.value)
  {
    var t := CommonHosts.HostTypeBits(v);
    var st := if CommonHosts.StateBit(v) == CommonHosts.RUNNING then Running else Idle;
    if t == CommonHosts.CONFIGLESS then Some(ConfiglessClient(st))
    else if t == CommonHosts.CLIENT then Some(Client(st, CommonHosts.CalibratedBit(v) != 0))
    else if t == CommonHosts.SERVER then Some(Server(ServerRunning))
    else None
  }

  /** Every encodable status decodes back from its byte. */
  lemma RoundTrip(s: HostStatus)
    requires !IsUnreachable(s)
    ensures Decode(Encode(s).value) == Some(s)
  {
  }

  /** The one-byte commands; each constructor's discriminant is its wire byte. */
  datatype Command = Ping | Connect | Start | Stop | RequestImage | ImagesDone

  /** `From<Command> for u8` */
  function CommandToByte(c: Command): (b: byte)
    ensures c != ImagesDone ==> ByteToCommand(b) == Some(c)
    ensures c == ImagesDone ==> ByteToCommand(b) == None
  {
    match c
    case Ping => 0x0b
    case Connect => 0xcc
    case Start => 0x60
    case Stop => 0xcd
    case RequestImage => 0x17
    case ImagesDone => 0x1d
  }

  /** `TryInto<Command> for u8`: ImagesDone is not recognised. */
  function ByteToCommand(b: byte): (r: Option<Command>)
    ensures r.Some? ==> r.value != ImagesDone
  {
    if b == 0x0b then Some(Ping)
    else if b == 0xcc then Some(Connect)
    else if b == 0x60 then Some(Start)
    else if b == 0xcd then Some(Stop)
    else if b == 0x17 then Some(RequestImage)
    else None
  }

  /** The bytes that decode are exactly the discriminants of the five
      recognised commands. */
  lemma ByteToCommandExact(b: byte)
    ensures ByteToCommand(b).Some? <==> exists c :: c != ImagesDone && CommandToByte(c) == b
    ensures ByteToCommand(b).Some? ==> CommandToByte(ByteToCommand(b).value) == b
  {
    if ByteToCommand(b).Some? {
      assert CommandToByte(ByteToCommand(b).value) == b;
    }
  }
}
