/**
  The viewer of `test/TestDisplay.java`: a reader thread that decodes the
  event stream from standard input into a list of points and a list of
  cameras, and a render loop that keeps an image cache of what it has
  drawn. Only the bookkeeping is modelled: which points and cameras are
  drawn onto the cache, in which order, and when the cache is rebuilt.
 */
module TestDisplay {
  import opened Wire
  import opened Positions
  import Service
  import EventFrames

  /** A Java `char`: one UTF-16 code unit. */
  type JChar = c: nat | c < 0x1_0000

  /** `Point.Double` */
  datatype PointD = PointD(x: F64, y: F64)

  /** The viewer's `PlacedCamera` record. */
  datatype Camera = Camera(host: seq<JChar>, x: F64, y: F64, rot: F64, fov: F64)

  // ------------------------------------------------------ DataInputStream

  /** `readDouble`: eight big-endian bytes, or end of stream. */
  function ReadF64(s: Bytes): (r: Option<(F64, Bytes)>)
    ensures r.None? <==> |s| < 8
    ensures r.Some? ==> r.value.1 == s[8..] && F64ToBytes(r.value.0) == s[..8]
  {
    if |s| < 8 then None
    else
      F64BytesRoundTrip(s[..8]);
      Some((F64FromBytes(s[..8]), s[8..]))
  }

  function Prepend(c: JChar, rest: Option<seq<JChar>>): (r: Option<seq<JChar>>)
    ensures r.Some? <==> rest.Some?
    ensures r.Some? ==> r.value == [c] + rest.value
  {
    if rest.Some? then Some([c] + rest.value) else None
  }

  predicate IsContinuation(b: byte) {
    b / 64 == 2
  }

  /** The body of `readUTF`: Java's modified UTF-8, one, two or three bytes
      per `char`. A missing or wrong continuation byte, a lone continuation
      byte and a four-byte lead byte are malformed (`None`). */
  function DecodeModifiedUtf8(b: Bytes): Option<seq<JChar>>
    decreases |b|
  {
    if b == [] then Some([])
    else if b[0] < 0x80 then Prepend(b[0], DecodeModifiedUtf8(b[1..]))
    else if b[0] / 16 == 12 || b[0] / 16 == 13 then
      if |b| < 2 || !IsContinuation(b[1]) then None
      else Prepend((b[0] as int % 32) * 64 + b[1] as int % 64, DecodeModifiedUtf8(b[2..]))
    else if b[0] / 16 == 14 then
      if |b| < 3 || !IsContinuation(b[1]) || !IsContinuation(b[2]) then None
      else Prepend((b[0] as int % 16) * 4096 + (b[1] as int % 64) * 64 + b[2] as int % 64, DecodeModifiedUtf8(b[3..]))
    else None
  }

  /** Each byte as a `char`. */
  function Widen(b: Bytes): (r: seq<JChar>)
    ensures |r| == |b| && forall i :: 0 <= i < |b| ==> r[i] == b[i]
  {
    seq(|b|, i requires 0 <= i < |b| => b[i])
  }

  /** ASCII text decodes to the same characters. */
  lemma {:induction false} AsciiDecodes(b: Bytes)
    requires IsAscii(b)
    ensures DecodeModifiedUtf8(b) == Some(Widen(b))
  {
    if b != [] {
      assert IsAscii(b[1..]) by {
        assert forall i :: 0 <= i < |b[1..]| ==> b[1..][i] == b[i + 1];
      }
      AsciiDecodes(b[1..]);
      assert Widen(b) == [b[0] as JChar] + Widen(b[1..]);
    }
  }

  /** `readUTF`: a `u16` length and that many bytes of modified UTF-8. */
  datatype Utf = UtfOk(str: seq<JChar>, rest: Bytes) | UtfEof | UtfMalformed

  function ReadUtfSpec(s: Bytes): (u: Utf)
    ensures u.UtfOk? ==> |u.rest| <= |s| - 2
    ensures u.UtfEof? <==> |s| < 2 || |s| < 2 + U16FromBytes(s[..2])
  {
    if |s| < 2 then UtfEof
    else
      var n := U16FromBytes(s[..2]);
      var t := s[2..];
      if |t| < n then UtfEof
      else
        match DecodeModifiedUtf8(t[..n])
        case None => UtfMalformed
        case Some(str) => UtfOk(str, t[n..])
  }

  // ------------------------------------------------------ the reader thread

  /** How the reader thread ends: an `EOFException` anywhere (also in the
      middle of a message) breaks out silently; an unknown kind throws the
      uncaught `RuntimeException`; malformed text throws the
      `UTFDataFormatException` that is printed before returning. */
  datatype ReadEnd = EndOfStream | UnknownKind(kind: int) | Malformed

  /** One turn of the reader loop: a point, a camera, or the end. */
  datatype Step = GotPoint(p: PointD, rest: Bytes) | GotCamera(c: Camera, rest: Bytes) | Stop(end: ReadEnd)

  /** The message at the head of `s`. Kind 0 reads two doubles as written
      and throws the third away too when `skipRotation` holds. */
  function NextMessage(s: Bytes, skipRotation: bool): (m: Step)
    ensures !m.Stop? ==> |m.rest| < |s|
  {
    if |s| < 4 then Stop(EndOfStream)
    else
      var kind := I32FromBytes(s[..4]);
      var t := s[4..];
      if kind == 0 then
        (match ReadF64(t)
         case None => Stop(EndOfStream)
         case Some((x, t1)) =>
           (match ReadF64(t1)
            case None => Stop(EndOfStream)
            case Some((y, t2)) =>
              if !skipRotation then GotPoint(PointD(x, y), t2)
              else
                (match ReadF64(t2)
                 case None => Stop(EndOfStream)
                 case Some((_, t3)) => GotPoint(PointD(x, y), t3))))
      else if kind == 1 then
        (match ReadUtfSpec(t)
         case UtfEof => Stop(EndOfStream)
         case UtfMalformed => Stop(Malformed)
         case UtfOk(host, u) =>
           (match ReadF64(u)
            case None => Stop(EndOfStream)
            case Some((x, u1)) =>
              (match ReadF64(u1)
               case None => Stop(EndOfStream)
               case Some((y, u2)) =>
                 (match ReadF64(u2)
                  case None => Stop(EndOfStream)
                  case Some((rot, u3)) =>
                    (match ReadF64(u3)
                     case None => Stop(EndOfStream)
                     case Some((fov, u4)) => GotCamera(Camera(host, x, y, rot, fov), u4))))))
      else Stop(UnknownKind(kind))
  }

  /** Everything the reader thread adds, in arrival order, and how it ends. */
  datatype Ingested = Ingested(points: seq<PointD>, cameras: seq<Camera>, end: ReadEnd)

  /** The reader thread over the whole stream `s`. */
  function Read(s: Bytes, skipRotation: bool): Ingested
    decreases |s|
  {
    match NextMessage(s, skipRotation)
    case Stop(e) => Ingested([], [], e)
    case GotPoint(p, rest) => var r := Read(rest, skipRotation); r.(points := [p] + r.points)
    case GotCamera(c, rest) => var r := Read(rest, skipRotation); r.(cameras := [c] + r.cameras)
  }

  // ---------------------------------------------- what the writer sends

  /** The frames of a run of server events, one after the other. */
  function Frames(es: seq<Service.Event>): Bytes {
    if es == [] then [] else EventFrames.Frame(es[0]) + Frames(es[1..])
  }

  /** The point of each position event and the camera of each connect event. */
  function PointsOf(es: seq<Service.Event>): seq<PointD> {
    if es == [] then []
    else if es[0].PositionUpdate? then [PointD(es[0].position.x, es[0].position.y)] + PointsOf(es[1..])
    else PointsOf(es[1..])
  }

  function CameraOf(address: SocketAddr, camera: Service.PlacedCamera): Camera {
    Camera(Widen(SocketAddrToString(address)), camera.position.x, camera.position.y, camera.position.rotation, camera.fov)
  }

  function CamerasOf(es: seq<Service.Event>): seq<Camera> {
    if es == [] then []
    else if es[0].Connect? then [CameraOf(es[0].address, es[0].camera)] + CamerasOf(es[1..])
    else CamerasOf(es[1..])
  }

  /** An event the viewer knows, with an address whose text fits its `u16`
      length (any port below 65536 does). */
  predicate Viewable(e: Service.Event) {
    e.PositionUpdate? || (e.Connect? && |SocketAddrToString(e.address)| < 0x1_0000)
  }

  lemma F64Field(x: F64, rest: Bytes)
    ensures ReadF64(F64ToBytes(x) + rest) == Some((x, rest))
  {
    var s := F64ToBytes(x) + rest;
    assert s[..8] == F64ToBytes(x) && s[8..] == rest;
    F64RoundTrip(x);
  }

  lemma KindField(k: int, rest: Bytes)
    requires -0x8000_0000 <= k < 0x8000_0000
    ensures |I32ToBytes(k) + rest| >= 4
    ensures I32FromBytes((I32ToBytes(k) + rest)[..4]) == k && (I32ToBytes(k) + rest)[4..] == rest
  {
    assert (I32ToBytes(k) + rest)[..4] == I32ToBytes(k);
    I32RoundTrip(k);
  }

  /** With the rotation read, a position frame is one point; without it,
      the rotation's eight bytes are left over. */
  lemma ReadsPositionFrame(p: Position, rest: Bytes)
    ensures NextMessage(EventFrames.PositionFrame(p) + rest, true) == GotPoint(PointD(p.x, p.y), rest)
    ensures NextMessage(EventFrames.PositionFrame(p) + rest, false) == GotPoint(PointD(p.x, p.y), F64ToBytes(p.rotation) + rest)
  {
    var s := EventFrames.PositionFrame(p) + rest;
    assert s == I32ToBytes(0) + (F64ToBytes(p.x) + (F64ToBytes(p.y) + (F64ToBytes(p.rotation) + rest)));
    KindField(0, F64ToBytes(p.x) + (F64ToBytes(p.y) + (F64ToBytes(p.rotation) + rest)));
    F64Field(p.x, F64ToBytes(p.y) + (F64ToBytes(p.rotation) + rest));
    F64Field(p.y, F64ToBytes(p.rotation) + rest);
    F64Field(p.rotation, rest);
  }

  /** An ASCII text behind its `u16` length reads back as that text. */
  lemma ReadsAsciiField(text: Bytes, rest: Bytes)
    requires IsAscii(text) && |text| < 0x1_0000
    ensures ReadUtfSpec(U16ToBytes(|text|) + (text + rest)) == UtfOk(Widen(text), rest)
  {
    var t := U16ToBytes(|text|) + (text + rest);
    assert t[..2] == U16ToBytes(|text|);
    U16RoundTripExact(|text|);
    assert t[2..][..|text|] == text && t[2..][|text|..] == rest;
    AsciiDecodes(text);
  }

  /** A connect frame is one camera named by the address text. */
  lemma ReadsConnectFrame(a: SocketAddr, c: Service.PlacedCamera, rest: Bytes, skipRotation: bool)
    requires |SocketAddrToString(a)| < 0x1_0000
    ensures NextMessage(EventFrames.ConnectFrame(a, c) + rest, skipRotation) == GotCamera(CameraOf(a, c), rest)
  {
    var text := SocketAddrToString(a);
    var doubles := F64ToBytes(c.position.x) + (F64ToBytes(c.position.y)
      + (F64ToBytes(c.position.rotation) + (F64ToBytes(c.fov) + rest)));
    var t := U16ToBytes(|text|) + (text + doubles);
    var x, y, rot, fov := F64ToBytes(c.position.x), F64ToBytes(c.position.y),
      F64ToBytes(c.position.rotation), F64ToBytes(c.fov);
    assert EventFrames.AddressField(a) == U16ToBytes(|text|) + text;
    assert EventFrames.CameraPayload(a, c) + rest == EventFrames.AddressField(a) + x + y + rot + fov + rest;
    assert EventFrames.AddressField(a) + x + y + rot + fov + rest == t;
    assert EventFrames.ConnectFrame(a, c) + rest == I32ToBytes(1) + t;
    KindField(1, t);
    ReadsAsciiField(text, doubles);
    F64Field(c.position.x, F64ToBytes(c.position.y) + (F64ToBytes(c.position.rotation) + (F64ToBytes(c.fov) + rest)));
    F64Field(c.position.y, F64ToBytes(c.position.rotation) + (F64ToBytes(c.fov) + rest));
    F64Field(c.position.rotation, F64ToBytes(c.fov) + rest);
    F64Field(c.fov, rest);
  }

  /** The frame of one event the viewer knows, read with the rotation
      skipped, is that event's point or camera. */
  lemma ReadsViewable(e: Service.Event, rest: Bytes)
    requires Viewable(e)
    ensures e.PositionUpdate? ==>
      NextMessage(EventFrames.Frame(e) + rest, true) == GotPoint(PointD(e.position.x, e.position.y), rest)
    ensures e.Connect? ==>
      NextMessage(EventFrames.Frame(e) + rest, true) == GotCamera(CameraOf(e.address, e.camera), rest)
  {
    match e
    case PositionUpdate(p) => ReadsPositionFrame(p, rest);
    case Connect(a, c) => ReadsConnectFrame(a, c, rest, true);
  }

  /** A run of position and connect frames reads back, with the rotation
      skipped, as exactly their points and cameras, then a clean end. */
  lemma {:induction false} ReadsServerStream(es: seq<Service.Event>)
    requires forall i :: 0 <= i < |es| ==> Viewable(es[i])
    ensures Read(Frames(es), true) == Ingested(PointsOf(es), CamerasOf(es), EndOfStream)
  {
    if es == [] {
      assert NextMessage([], true) == Stop(EndOfStream);
    } else {
      assert Viewable(es[0]);
      ReadsServerStream(es[1..]);
      ReadsViewable(es[0], Frames(es[1..]));
    }
  }

  /** A disconnect or info-update frame ends the reader with an unknown
      kind: the viewer never learns of a camera leaving or moving. */
  lemma StopsAtOtherKinds(a: SocketAddr, c: Service.PlacedCamera, rest: Bytes, skipRotation: bool)
    ensures Read(EventFrames.DisconnectFrame(a) + rest, skipRotation) == Ingested([], [], UnknownKind(2))
    ensures Read(EventFrames.InfoUpdateFrame(a, c) + rest, skipRotation) == Ingested([], [], UnknownKind(3))
  {
    assert EventFrames.DisconnectFrame(a) + rest == I32ToBytes(2) + (EventFrames.AddressField(a) + rest);
    KindField(2, EventFrames.AddressField(a) + rest);
    assert EventFrames.InfoUpdateFrame(a, c) + rest == I32ToBytes(3) + (EventFrames.CameraPayload(a, c) + rest);
    KindField(3, EventFrames.CameraPayload(a, c) + rest);
  }

  /** The bytes of 1.0: `3F F0 00 00 00 00 00 00`. */
  lemma OneBytes()
    ensures F64ToBytes(F64_ONE) == [0x3F, 0xF0, 0, 0, 0, 0, 0, 0]
    ensures I32FromBytes([0x3F, 0xF0, 0, 0]) == 0x3FF0_0000
  {
    assert ToBigEndian(0x3F, 1) == [0x3F];
    assert ToBigEndian(0x3FF0, 2) == [0x3F, 0xF0];
    assert ToBigEndian(0x3FF000, 3) == [0x3F, 0xF0, 0];
    assert ToBigEndian(0x3FF0_0000, 4) == [0x3F, 0xF0, 0, 0];
    assert ToBigEndian(0x3FF0_0000_00, 5) == [0x3F, 0xF0, 0, 0, 0];
    assert ToBigEndian(0x3FF0_0000_0000, 6) == [0x3F, 0xF0, 0, 0, 0, 0];
    assert ToBigEndian(0x3FF0_0000_0000_00, 7) == [0x3F, 0xF0, 0, 0, 0, 0, 0];
    assert [0x3F, 0xF0, 0, 0][..3] == [0x3F, 0xF0, 0];
    assert [0x3F, 0xF0, 0][..2] == [0x3F, 0xF0];
    assert [0x3F, 0xF0][..1] == [0x3F];
    assert FromBigEndian([0x3F]) == 0x3F;
    assert FromBigEndian([0x3F, 0xF0, 0, 0]) == 0x3FF0_0000;
  }

  /** The eight bytes of the double 1.0 read as a frame: their first four
      are the kind 0x3FF00000, which the reader does not know. */
  lemma ReadsOneAsKind()
    ensures Read(F64ToBytes(F64_ONE), false) == Ingested([], [], UnknownKind(0x3FF0_0000))
  {
    var one := F64ToBytes(F64_ONE);
    OneBytes();
    assert one[..4] == [0x3F, 0xF0, 0, 0];
    assert NextMessage(one, false) == Stop(UnknownKind(0x3FF0_0000));
  }

  /** As written, the viewer reads two doubles of a three-double position
      frame and takes the first half of the rotation as the next kind: for
      a rotation of 1.0 it gets the point and then dies on kind 0x3FF00000.
      Reading the rotation as well takes the frame as one point. */
  lemma AsWrittenMisframesPosition(x: F64, y: F64)
    ensures Read(EventFrames.PositionFrame(Position(x, y, F64_ONE)), false)
      == Ingested([PointD(x, y)], [], UnknownKind(0x3FF0_0000))
    ensures Read(EventFrames.PositionFrame(Position(x, y, F64_ONE)), true)
      == Ingested([PointD(x, y)], [], EndOfStream)
  {
    var s := EventFrames.PositionFrame(Position(x, y, F64_ONE));
    ReadsPositionFrame(Position(x, y, F64_ONE), []);
    assert s + [] == s;
    assert F64ToBytes(F64_ONE) + [] == F64ToBytes(F64_ONE);
    ReadsOneAsKind();
    assert NextMessage([], true) == Stop(EndOfStream);
  }

  // --------------------------------------------------- the reader, in steps

  /** `readInt` */
  method ReadInt(r: ByteStream) returns (k: Option<int>)
    modifies r
    ensures k.None? <==> |old(r.remaining)| < 4
    ensures k.Some? ==> k.value == I32FromBytes(old(r.remaining)[..4]) && r.remaining == old(r.remaining)[4..]
  {
    var b := r.ReadExact(4);
    if b.None? {
      return None;
    }
    return Some(I32FromBytes(b.value));
  }

  /** `readDouble` */
  method ReadDouble(r: ByteStream) returns (x: Option<F64>)
    modifies r
    ensures x.None? <==> ReadF64(old(r.remaining)).None?
    ensures x.Some? ==> ReadF64(old(r.remaining)) == Some((x.value, r.remaining))
  {
    var b := r.ReadExact(8);
    if b.None? {
      return None;
    }
    return Some(F64FromBytes(b.value));
  }

  /** `readUTF` */
  method ReadUtf(r: ByteStream) returns (u: Utf)
    modifies r
    ensures u == ReadUtfSpec(old(r.remaining))
    ensures u.UtfOk? ==> r.remaining == u.rest
  {
    var len := r.ReadExact(2);
    if len.None? {
      return UtfEof;
    }
    var n := U16FromBytes(len.value);
    var body := r.ReadExact(n);
    if body.None? {
      return UtfEof;
    }
    var str := DecodeModifiedUtf8(body.value);
    if str.None? {
      return UtfMalformed;
    }
    return UtfOk(str.value, r.remaining);
  }

  /** One turn of the reader loop. The Java reads two doubles for kind 0,
      which is `skipRotation` false; with `skipRotation` it also reads and
      drops the rotation, as the server's frames evidently need. */
  method ReadMessage(r: ByteStream, skipRotation: bool) returns (m: Step)
    modifies r
    ensures m == NextMessage(old(r.remaining), skipRotation)
    ensures !m.Stop? ==> r.remaining == m.rest
    ensures match m
      case Stop(e) => Read(old(r.remaining), skipRotation) == Ingested([], [], e)
      case GotPoint(p, rest) => Read(old(r.remaining), skipRotation) == After([p], [], Read(rest, skipRotation))
      case GotCamera(c, rest) => Read(old(r.remaining), skipRotation) == After([], [c], Read(rest, skipRotation))
  {
    ReadStep(r.remaining, skipRotation);
    var what := ReadInt(r);
    if what.None? {
      return Stop(EndOfStream);
    }
    if what.value == 0 {
      var x := ReadDouble(r);
      if x.None? {
        return Stop(EndOfStream);
      }
      var y := ReadDouble(r);
      if y.None? {
        return Stop(EndOfStream);
      }
      if skipRotation {
        var rotation := ReadDouble(r);
        if rotation.None? {
          return Stop(EndOfStream);
        }
      }
      return GotPoint(PointD(x.value, y.value), r.remaining);
    } else if what.value == 1 {
      var host := ReadUtf(r);
      if host.UtfEof? {
        return Stop(EndOfStream);
      } else if host.UtfMalformed? {
        return Stop(Malformed);
      }
      var x := ReadDouble(r);
      if x.None? {
        return Stop(EndOfStream);
      }
      var y := ReadDouble(r);
      if y.None? {
        return Stop(EndOfStream);
      }
      var rot := ReadDouble(r);
      if rot.None? {
        return Stop(EndOfStream);
      }
      var fov := ReadDouble(r);
      if fov.None? {
        return Stop(EndOfStream);
      }
      return GotCamera(Camera(host.str, x.value, y.value, rot.value, fov.value), r.remaining);
    } else {
      return Stop(UnknownKind(what.value));
    }
  }

  /** The part of `s` from index `k` on, empty when `k` is past its end
      (a `for` loop from `k` to `size()`). */
  function From<T>(s: seq<T>, k: nat): (r: seq<T>)
    ensures k <= |s| ==> r == s[k..]
    ensures k > |s| ==> r == []
  {
    if k <= |s| then s[k..] else []
  }

  /** What the reader has added after `ps` and `cs`. */
  function After(ps: seq<PointD>, cs: seq<Camera>, g: Ingested): Ingested {
    Ingested(ps + g.points, cs + g.cameras, g.end)
  }

  lemma AfterAfter(ps: seq<PointD>, cs: seq<Camera>, ps2: seq<PointD>, cs2: seq<Camera>, g: Ingested)
    ensures After(ps, cs, After(ps2, cs2, g)) == After(ps + ps2, cs + cs2, g)
  {
    assert ps + (ps2 + g.points) == (ps + ps2) + g.points;
    assert cs + (cs2 + g.cameras) == (cs + cs2) + g.cameras;
  }

  lemma ReadStep(s: Bytes, skipRotation: bool)
    ensures match NextMessage(s, skipRotation)
      case Stop(e) => Read(s, skipRotation) == Ingested([], [], e)
      case GotPoint(p, rest) => Read(s, skipRotation) == After([p], [], Read(rest, skipRotation))
      case GotCamera(c, rest) => Read(s, skipRotation) == After([], [c], Read(rest, skipRotation))
  {
    match NextMessage(s, skipRotation)
    case Stop(e) =>
    case GotPoint(p, rest) =>
      assert [] + Read(rest, skipRotation).cameras == Read(rest, skipRotation).cameras;
    case GotCamera(c, rest) =>
      assert [] + Read(rest, skipRotation).points == Read(rest, skipRotation).points;
  }

  /** When the reader stops, the lists hold what they held before and what
      `Read` found. */
  lemma AfterStop(ps0: seq<PointD>, cs0: seq<Camera>, ps: seq<PointD>, cs: seq<Camera>, e: ReadEnd, g: Ingested)
    requires After(ps, cs, Ingested([], [], e)) == After(ps0, cs0, g)
    ensures ps == ps0 + g.points && cs == cs0 + g.cameras && e == g.end
  {
    assert ps + [] == ps && cs + [] == cs;
  }

  lemma PrefixKept<T>(a: seq<T>, b: seq<T>, k: nat)
    requires k <= |a|
    ensures k <= |a + b| && (a + b)[..k] == a[..k]
  {
  }

  // ----------------------------------------------------------- the viewer

  class Display {
    var points: seq<PointD>
    var cameras: seq<Camera>
    var pointsDrawn: nat
    var camerasDrawn: nat
    /** The image cache: its size, and the points and cameras drawn onto it
        since it was made, in drawing order. */
    var cacheWidth: int
    var cacheHeight: int
    var drawnPoints: seq<PointD>
    var drawnCameras: seq<Camera>

    /** The cache holds each point up to `pointsDrawn` exactly once, in
        order, and `camerasDrawn` is still 0. */
    predicate CacheCurrent()
      reads this
    {
      pointsDrawn <= |points| && drawnPoints == points[..pointsDrawn] && camerasDrawn == 0
    }

    /** Empty lists, both counters 0, and the first `redraw` of the canvas. */
    constructor (w: int, h: int)
      ensures points == [] && cameras == [] && pointsDrawn == 0 && camerasDrawn == 0
      ensures cacheWidth == w && cacheHeight == h && drawnPoints == [] && drawnCameras == []
      ensures CacheCurrent()
    {
      points := [];
      cameras := [];
      pointsDrawn := 0;
      camerasDrawn := 0;
      cacheWidth := w;
      cacheHeight := h;
      drawnPoints := [];
      drawnCameras := [];
    }

    /** One turn of the reader loop: the message at the head of the stream
        appended to its list, or the end the stream has reached. */
    method Take(r: ByteStream, skipRotation: bool) returns (end: Option<ReadEnd>)
      modifies this`points, this`cameras, r
      ensures end.None? ==> |r.remaining| < |old(r.remaining)|
      ensures end.None? ==> After(points, cameras, Read(r.remaining, skipRotation))
                            == After(old(points), old(cameras), Read(old(r.remaining), skipRotation))
      ensures end.Some? ==> points == old(points) && cameras == old(cameras)
                            && Read(old(r.remaining), skipRotation) == Ingested([], [], end.value)
    {
      var m := ReadMessage(r, skipRotation);
      match m
      case Stop(e) =>
        return Some(e);
      case GotPoint(p, _) =>
        AfterAfter(points, cameras, [p], [], Read(r.remaining, skipRotation));
        points := points + [p];
        return None;
      case GotCamera(c, _) =>
        AfterAfter(points, cameras, [], [c], Read(r.remaining, skipRotation));
        cameras := cameras + [c];
        return None;
    }

    /** The reader thread: it appends what `Read` finds and ends as `Read`
        says; `skipRotation` false is the Java as written. */
    method Ingest(r: ByteStream, skipRotation: bool) returns (end: ReadEnd)
      modifies this`points, this`cameras, r
      ensures points == old(points) + Read(old(r.remaining), skipRotation).points
      ensures cameras == old(cameras) + Read(old(r.remaining), skipRotation).cameras
      ensures end == Read(old(r.remaining), skipRotation).end
      ensures pointsDrawn == old(pointsDrawn) && camerasDrawn == old(camerasDrawn)
      ensures cacheWidth == old(cacheWidth) && cacheHeight == old(cacheHeight)
      ensures drawnPoints == old(drawnPoints) && drawnCameras == old(drawnCameras)
      ensures old(CacheCurrent()) ==> CacheCurrent()
    {
      ghost var goal := After(points, cameras, Read(r.remaining, skipRotation));
      while true
        invariant After(points, cameras, Read(r.remaining, skipRotation)) == goal
        modifies this`points, this`cameras, r
        decreases |r.remaining|
      {
        var e := Take(r, skipRotation);
        if e.Some? {
          end := e.value;
          AfterStop(old(points), old(cameras), points, cameras, end, Read(old(r.remaining), skipRotation));
          if pointsDrawn <= |old(points)| {
            PrefixKept(old(points), Read(old(r.remaining), skipRotation).points, pointsDrawn);
          }
          return;
        }
      }
    }

    /** `redraw(w, h)`: a new cache of the given size with every point drawn
        on it, in order, and no camera. */
    method Redraw(w: int, h: int)
      modifies this
      ensures cacheWidth == w && cacheHeight == h
      ensures drawnPoints == points && drawnCameras == [] && pointsDrawn == |points|
      ensures points == old(points) && cameras == old(cameras) && camerasDrawn == old(camerasDrawn)
    {
      cacheWidth, cacheHeight := w, h;
      drawnPoints, drawnCameras := [], [];
      for i := 0 to |points|
        invariant points == old(points) && cameras == old(cameras) && camerasDrawn == old(camerasDrawn)
        invariant cacheWidth == w && cacheHeight == h && drawnCameras == []
        invariant drawnPoints == points[..i]
      {
        drawnPoints := drawnPoints + [points[i]];
      }
      pointsDrawn := |points|;
    }

    /** The points loop of `update`: each point from `pointsDrawn` on is
        drawn, in order. */
    method DrawNewPoints()
      modifies this`drawnPoints
      ensures drawnPoints == old(drawnPoints) + From(points, pointsDrawn)
    {
      var i := pointsDrawn;
      if |points| < i {
        return;
      }
      while i < |points|
        invariant pointsDrawn <= i <= |points|
        invariant drawnPoints == old(drawnPoints) + points[pointsDrawn..i]
        decreases |points| - i
      {
        drawnPoints := drawnPoints + [points[i]];
        i := i + 1;
      }
    }

    /** The cameras loop of `update`: each camera from `camerasDrawn` on is
        drawn, in order. */
    method DrawNewCameras()
      modifies this`drawnCameras
      ensures drawnCameras == old(drawnCameras) + From(cameras, camerasDrawn)
    {
      var j := camerasDrawn;
      if |cameras| < j {
        return;
      }
      while j < |cameras|
        invariant camerasDrawn <= j <= |cameras|
        invariant drawnCameras == old(drawnCameras) + cameras[camerasDrawn..j]
        decreases |cameras| - j
      {
        drawnCameras := drawnCameras + [cameras[j]];
        j := j + 1;
      }
    }

    /** `update(img)`: the points from `pointsDrawn` on, then the cameras from
        `camerasDrawn` on, drawn onto the cache; then `pointsDrawn` catches
        up. `camerasDrawn` is left alone. */
    method Update()
      modifies this
      ensures drawnPoints == old(drawnPoints) + From(points, old(pointsDrawn))
      ensures drawnCameras == old(drawnCameras) + From(cameras, camerasDrawn)
      ensures pointsDrawn == |points|
      ensures points == old(points) && cameras == old(cameras) && camerasDrawn == old(camerasDrawn)
      ensures cacheWidth == old(cacheWidth) && cacheHeight == old(cacheHeight)
    {
      DrawNewPoints();
      DrawNewCameras();
      pointsDrawn := |points|;
    }

    /** One frame of the render loop: a full redraw when the cache's size
        differs from the canvas, an incremental update otherwise. Either way
        the cache then holds every point exactly once, in order; an update
        draws every camera again. */
    method RenderFrame(w: int, h: int)
      requires CacheCurrent()
      modifies this
      ensures CacheCurrent() && drawnPoints == points && cacheWidth == w && cacheHeight == h
      ensures points == old(points) && cameras == old(cameras)
      ensures old(cacheWidth) != w || old(cacheHeight) != h ==> drawnCameras == []
      ensures old(cacheWidth) == w && old(cacheHeight) == h ==>
        drawnPoints == old(drawnPoints) + points[old(pointsDrawn)..] && drawnCameras == old(drawnCameras) + cameras
    {
      if cacheWidth != w || cacheHeight != h {
        Redraw(w, h);
      } else {
        Update();
        assert points[..|points|] == points;
      }
    }
  }
}
