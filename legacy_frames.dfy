/**
  The older event writers of the root crate's `examples/main.rs`. They
  build the same frames as the server example, kinds 0 to 2, but emit a
  connect or disconnect frame field by field through the writer, and a
  position frame from a buffer that they grow first.
 */
module LegacyFrames {
  import opened Wire
  import opened Positions
  import Extrapolations
  import Service
  import EventFrames

  /** `on_position`: the kind in a buffer, the three coordinates appended,
      one `write_all`; byte for byte the server's position frame. */
  method OnPosition(w: ByteSink, p: Extrapolations.TimedPosition)
    modifies w
    ensures w.written == old(w.written) + EventFrames.PositionFrame(p.position)
  {
    var buf := I32ToBytes(0);
    buf := buf + (F64ToBytes(p.position.x) + F64ToBytes(p.position.y) + F64ToBytes(p.position.rotation));
    w.WriteAll(buf);
  }

  /** The bytes `on_connect` writes for an address text and a camera. */
  function ConnectFields(address: Bytes, camera: Service.PlacedCamera): (r: Bytes)
    ensures |r| == 38 + |address|
    ensures r[..4] == I32ToBytes(EventFrames.CONNECT_KIND) && r[6..6 + |address|] == address
  {
    I32ToBytes(1) + U16ToBytes(|address|) + address
    + F64ToBytes(camera.position.x) + F64ToBytes(camera.position.y)
    + F64ToBytes(camera.position.rotation) + F64ToBytes(camera.fov)
  }

  /** For the text of a socket address those are the server's connect frame. */
  lemma ConnectFieldsAreFrame(a: SocketAddr, camera: Service.PlacedCamera)
    ensures ConnectFields(SocketAddrToString(a), camera) == EventFrames.ConnectFrame(a, camera)
  {
    var text := SocketAddrToString(a);
    var x, y, rot, fov := F64ToBytes(camera.position.x), F64ToBytes(camera.position.y),
      F64ToBytes(camera.position.rotation), F64ToBytes(camera.fov);
    assert EventFrames.CameraPayload(a, camera) == U16ToBytes(|text|) + text + x + y + rot + fov;
    assert ConnectFields(text, camera) == I32ToBytes(1) + (U16ToBytes(|text|) + text + x + y + rot + fov);
  }

  /** `on_connect`: an address given as text, its length cast to `u16`,
      then the camera's four doubles. For the text of a socket address it
      is the server's connect frame. */
  method OnConnect(w: ByteSink, address: Bytes, camera: Service.PlacedCamera)
    modifies w
    ensures w.written == old(w.written) + ConnectFields(address, camera)
    ensures forall a: SocketAddr :: address == SocketAddrToString(a) ==>
      w.written == old(w.written) + EventFrames.ConnectFrame(a, camera)
  {
    ghost var start := w.written;
    w.WriteI32(1);
    w.WriteU16(|address|);
    w.WriteAll(address);
    ghost var head := I32ToBytes(1) + U16ToBytes(|address|) + address;
    assert w.written == start + head;
    w.WriteF64(camera.position.x);
    w.WriteF64(camera.position.y);
    w.WriteF64(camera.position.rotation);
    w.WriteF64(camera.fov);
    assert w.written == start + (head + F64ToBytes(camera.position.x) + F64ToBytes(camera.position.y)
      + F64ToBytes(camera.position.rotation) + F64ToBytes(camera.fov));
    forall a: SocketAddr | address == SocketAddrToString(a)
      ensures ConnectFields(address, camera) == EventFrames.ConnectFrame(a, camera)
    {
      ConnectFieldsAreFrame(a, camera);
    }
  }

  /** `on_disconnect`: kind 2, the length and the address text; the
      server's disconnect frame. */
  method OnDisconnect(w: ByteSink, address: SocketAddr)
    modifies w
    ensures w.written == old(w.written) + EventFrames.DisconnectFrame(address)
  {
    ghost var start := w.written;
    var text := SocketAddrToString(address);
    w.WriteI32(2);
    w.WriteU16(|text|);
    w.WriteAll(text);
    assert w.written == start + (I32ToBytes(2) + (U16ToBytes(|text|) + text));
    assert EventFrames.AddressField(address) == U16ToBytes(|text|) + text;
  }
}
