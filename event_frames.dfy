/**
  The event stream `server/examples/main.rs` writes to standard error for
  the viewer: one frame per server event, a big-endian `i32` kind followed
  by the event's fields, handed to a single `write_all`.
 */
module EventFrames {
  import opened Wire
  import opened Positions
  import Service

  const POSITION_KIND: int := 0
  const CONNECT_KIND: int := 1
  const DISCONNECT_KIND: int := 2
  const INFO_UPDATE_KIND: int := 3

  /** `on_position`: kind 0, then x, y and rotation. */
  function PositionFrame(p: Position): (r: Bytes)
    ensures |r| == 28
    ensures r[..4] == I32ToBytes(POSITION_KIND)
    ensures r[4..12] == F64ToBytes(p.x) && r[12..20] == F64ToBytes(p.y) && r[20..28] == F64ToBytes(p.rotation)
  {
    I32ToBytes(POSITION_KIND) + F64ToBytes(p.x) + F64ToBytes(p.y) + F64ToBytes(p.rotation)
  }

  /** The text of an address with its `u16` length before it. */
  function AddressField(address: SocketAddr): (r: Bytes)
    ensures |r| == 2 + |SocketAddrToString(address)|
    ensures r[..2] == U16ToBytes(|SocketAddrToString(address)|) && r[2..] == SocketAddrToString(address)
  {
    var text := SocketAddrToString(address);
    U16ToBytes(|text|) + text
  }

  /** What the connect and info-update frames carry after the kind: the
      address, the camera's x, y and rotation, then its fov. */
  function CameraPayload(address: SocketAddr, camera: Service.PlacedCamera): (r: Bytes)
    ensures |r| == 34 + |SocketAddrToString(address)|
  {
    AddressField(address) + F64ToBytes(camera.position.x) + F64ToBytes(camera.position.y)
    + F64ToBytes(camera.position.rotation) + F64ToBytes(camera.fov)
  }

  /** `on_connect`: kind 1 and the camera payload, 38 + n bytes for an
      address text of n bytes. */
  function ConnectFrame(address: SocketAddr, camera: Service.PlacedCamera): (r: Bytes)
    ensures |r| == 38 + |SocketAddrToString(address)|
    ensures r[..4] == I32ToBytes(CONNECT_KIND) && r[4..] == CameraPayload(address, camera)
  {
    I32ToBytes(CONNECT_KIND) + CameraPayload(address, camera)
  }

  /** `on_disconnect`: kind 2 and the address, 6 + n bytes. */
  function DisconnectFrame(address: SocketAddr): (r: Bytes)
    ensures |r| == 6 + |SocketAddrToString(address)|
    ensures r[..4] == I32ToBytes(DISCONNECT_KIND) && r[4..] == AddressField(address)
  {
    I32ToBytes(DISCONNECT_KIND) + AddressField(address)
  }

  /** `on_info_update`: kind 3 and the same payload as a connect frame. */
  function InfoUpdateFrame(address: SocketAddr, camera: Service.PlacedCamera): (r: Bytes)
    ensures |r| == 38 + |SocketAddrToString(address)|
    ensures r[..4] == I32ToBytes(INFO_UPDATE_KIND) && r[4..] == CameraPayload(address, camera)
    ensures r[4..] == ConnectFrame(address, camera)[4..]
  {
    I32ToBytes(INFO_UPDATE_KIND) + CameraPayload(address, camera)
  }

  function KindOf(e: Service.Event): int {
    match e
    case PositionUpdate(_) => POSITION_KIND
    case Connect(_, _) => CONNECT_KIND
    case Disconnect(_) => DISCONNECT_KIND
    case InfoUpdate(_, _) => INFO_UPDATE_KIND
  }

  /** The subscription loop: each event goes to the writer of its kind, so
      every frame opens with that kind. */
  function Frame(e: Service.Event): (r: Bytes)
    ensures |r| >= 4 && r[..4] == I32ToBytes(KindOf(e))
  {
    match e
    case Connect(address, camera) => ConnectFrame(address, camera)
    case Disconnect(address) => DisconnectFrame(address)
    case InfoUpdate(address, camera) => InfoUpdateFrame(address, camera)
    case PositionUpdate(position) => PositionFrame(position)
  }

  /** Every frame starts with its event's kind, and the kind alone tells the
      variant of the event. */
  lemma KindTellsEvent(e1: Service.Event, e2: Service.Event)
    ensures |Frame(e1)| >= 4 && I32FromBytes(Frame(e1)[..4]) == KindOf(e1)
    ensures Frame(e1)[..4] == Frame(e2)[..4] <==>
      (e1.Connect? && e2.Connect?) || (e1.Disconnect? && e2.Disconnect?)
      || (e1.InfoUpdate? && e2.InfoUpdate?) || (e1.PositionUpdate? && e2.PositionUpdate?)
  {
    I32RoundTrip(KindOf(e1));
    I32RoundTrip(KindOf(e2));
  }
}
