/**
  The camera client of `client/src/main.rs`: the configuration it reads from
  the organizer, its wait for the organizer's Start, and its main loop's
  handling of Stop, Ping and receive errors. The socket is modelled as the
  sequence of receive results it delivers and the datagrams sent back; the
  camera and the marker detector are the per-iteration inputs of a `Tick`.
 */
module Client {
  import opened Wire
  import opened Positions
  import CameraInfo
  import CommonHosts

  /** `BUF_SIZE`: the receive buffer; longer datagrams are cut to it. */
  const BUF_SIZE: nat := 2048

  /** `Config` */
  datatype Config = Config(calibration: CameraInfo.FullCameraInfo, server: SocketAddr, cube: CommonHosts.Cube)

  datatype ConfigError = IoError | Utf8Error | AddrParseError

  /** The outcome of `Config::from_organizer`. */
  datatype ConfigResult = ConfigOk(config: Config, position: Position) | ConfigErr(error: ConfigError) | ConfigPanic

  /** The part of `from_organizer` after the server address: the calibration
      record (unless one is cached) and the cube, on a stream holding `s`. */
  function ConfigTailSpec(s: Bytes, cached: Option<CameraInfo.FullCameraInfo>, server: SocketAddr, position: Position): (res: (ConfigResult, Bytes))
    ensures res.0.ConfigOk? ==> res.0.config.server == server && res.0.position == position
    ensures res.0.ConfigOk? && cached.Some? ==> res.0.config.calibration == cached.value
    ensures cached.Some? ==> (res.0.ConfigOk? <==> |s| >= 4)
  {
    var (calib, t) := if cached.Some? then (CameraInfo.Read(cached.value), s) else CameraInfo.DecodeSpec(s);
    if calib.Panic? then (ConfigPanic, t)
    else if calib.IoError? then (ConfigErr(IoError), t)
    else if |t| < 4 then (ConfigErr(IoError), [])
    else (ConfigOk(Config(calib.info, server, t[..4]), position), t[4..])
  }

  /** Reading the server address: `ip_len` bytes of UTF-8 text holding an IPv4 address. */
  datatype AddrRead = AddrOk(addr: SocketAddr) | AddrErr(error: ConfigError)

  /** The server-address part of `from_organizer` on a stream holding `s`. */
  function ServerAddrSpec(s: Bytes, ipLen: nat): (res: (AddrRead, Bytes))
    ensures res.0.AddrOk? ==> |s| >= ipLen && ValidUtf8(s[..ipLen]) && ParseIpv4(s[..ipLen]) == Some(res.0.addr.ip)
    ensures res.0.AddrOk? ==> res.0.addr.port == CommonHosts.MAIN_PORT && res.1 == s[ipLen..]
    ensures |s| >= ipLen && !ValidUtf8(s[..ipLen]) ==> res.0 == AddrErr(Utf8Error)
  {
    if |s| < ipLen then (AddrErr(IoError), [])
    else
      var ip := s[..ipLen];
      if !ValidUtf8(ip) then (AddrErr(Utf8Error), s[ipLen..])
      else if ParseIpv4(ip).None? then (AddrErr(AddrParseError), s[ipLen..])
      else (AddrOk(SocketAddr(ParseIpv4(ip).value, CommonHosts.MAIN_PORT)), s[ipLen..])
  }

  /** What `from_organizer` yields on a stream holding `s`, and what the
      stream then still holds. */
  function FromOrganizerSpec(s: Bytes, cached: Option<CameraInfo.FullCameraInfo>): (res: (ConfigResult, Bytes))
    ensures res.0.ConfigOk? ==> |s| >= 26 && ToBeBytes(res.0.position) == s[..24]
    ensures res.0.ConfigOk? ==> res.0.config.server.port == CommonHosts.MAIN_PORT
    ensures res.0.ConfigOk? && cached.Some? ==> res.0.config.calibration == cached.value
    ensures |s| < 26 ==> res.0 == ConfigErr(IoError)
  {
    if |s| < 26 then (ConfigErr(IoError), [])
    else
      var (addr, t) := ServerAddrSpec(s[26..], U16FromBytes(s[24..26]));
      if addr.AddrErr? then (ConfigErr(addr.error), t)
      else
        Positions.BytesRoundTrip(s[..24]);
        ConfigTailSpec(t, cached, addr.addr, FromBeBytes(s[..24]))
  }

  /** The successful path of `from_organizer` up to the calibration record. */
  lemma FromOrganizerStages(s: Bytes, cached: Option<CameraInfo.FullCameraInfo>, server: SocketAddr, t: Bytes)
    requires |s| >= 26
    requires ServerAddrSpec(s[26..], U16FromBytes(s[24..26])) == (AddrOk(server), t)
    ensures FromOrganizerSpec(s, cached) == ConfigTailSpec(t, cached, server, FromBeBytes(s[..24]))
  {
  }

  /** `buf.resize(ip_len, 0)`, `read_exact`, `String::from_utf8` and
      `parse` of the server address. */
  method ReadServerAddr(r: ByteStream, ipLen: nat) returns (res: AddrRead)
    modifies r
    ensures (res, r.remaining) == ServerAddrSpec(old(r.remaining), ipLen)
  {
    // every cell of the resized buffer is overwritten by the read
    var buf := new byte[ipLen];
    var ok := r.ReadExactInto(buf, ipLen);
    if !ok {
      return AddrErr(IoError);
    }
    var ip := buf[..];
    assert buf[..] == buf[..ipLen];
    if !ValidUtf8(ip) {
      return AddrErr(Utf8Error);
    }
    var addr := ParseIpv4(ip);
    if addr.None? {
      return AddrErr(AddrParseError);
    }
    res := AddrOk(SocketAddr(addr.value, CommonHosts.MAIN_PORT));
  }

  /** The calibration record and the cube of `from_organizer`. */
  method ReadConfigTail(r: ByteStream, cached: Option<CameraInfo.FullCameraInfo>, server: SocketAddr, position: Position)
    returns (res: ConfigResult)
    modifies r
    ensures (res, r.remaining) == ConfigTailSpec(old(r.remaining), cached, server, position)
  {
    var calibration;
    if cached.Some? {
      calibration := cached.value;
    } else {
      var decoded := CameraInfo.FromBeBytes(r);
      if decoded.Panic? {
        return ConfigPanic;
      } else if decoded.IoError? {
        return ConfigErr(IoError);
      }
      calibration := decoded.info;
    }
    ghost var t := r.remaining;
    var cube := new byte[4];
    var ok := r.ReadExactInto(cube, 4);
    if !ok {
      return ConfigErr(IoError);
    }
    assert cube[..] == t[..4];
    res := ConfigOk(Config(calibration, server, cube[..]), position);
  }

  /** `Config::from_organizer`: a 26-byte header (x, y, rotation, IP length),
      the server IP text, a calibration record unless one is cached, and the
      cube. */
  method FromOrganizer(r: ByteStream, cached: Option<CameraInfo.FullCameraInfo>) returns (res: ConfigResult)
    modifies r
    ensures (res, r.remaining) == FromOrganizerSpec(old(r.remaining), cached)
  {
    ghost var s := r.remaining;
    var buf := new byte[26];
    var ok := r.ReadExactInto(buf, 26);
    if !ok {
      return ConfigErr(IoError);
    }
    var header := buf[..];
    assert header[24..26] == s[24..26] && header[..24] == s[..24];
    assert r.remaining == s[26..];
    var addr := ReadServerAddr(r, U16FromBytes(header[24..26]));
    if addr.AddrErr? {
      return ConfigErr(addr.error);
    }
    res := ReadConfigTail(r, cached, addr.addr, FromBeBytes(header[..24]));
  }

  // ------------------------------------------------------------ receiving

  /** One `recv_from`: a datagram, a timeout, or another error. Which of the
      two errors the socket's 1 ms read timeout gives depends on the platform:
      on Unix it is `WouldBlock`, a `RecvFailed` the main loop ignores; on
      Windows it is `TimedOut`, a `RecvTimedOut` that ends the main loop and,
      through `inner_loop(...)?`, the program. */
  datatype Recv = Received(from: SocketAddr, payload: Bytes) | RecvTimedOut | RecvFailed

  /** The command a received datagram decodes to, with the InfoUpdate arm
      as evidently intended: it never panics, and it is the decoder as
      written on every datagram that does not start with the InfoUpdate tag. */
  function Command(payload: Bytes): (d: CommonHosts.Decoded)
    ensures !d.Panicked?
    ensures |payload| >= 1 && payload[0] != CommonHosts.INFO_UPDATE ==> d == CommonHosts.Decode(Truncated(payload, BUF_SIZE))
  {
    CommonHosts.CorrectedDecode(Truncated(payload, BUF_SIZE))
  }

  /** A datagram whose first byte is a one-byte command's tag is that command. */
  lemma CommandOfTag(c: CommonHosts.Command, payload: Bytes)
    requires CommonHosts.IsSingleByte(c)
    requires |payload| >= 1 && payload[0] == CommonHosts.Tag(c)
    ensures Command(payload) == CommonHosts.Decoded(c)
  {
    var b := Truncated(payload, BUF_SIZE);
    assert b == CommonHosts.Encode(c) + b[1..];
    CommonHosts.RoundTrip(c, b[1..]);
  }

  /** The reply to a Ping before the organizer starts the client: Idle, and
      calibrated exactly when a calibration is cached. */
  function IdleReply(calibrated: bool): (b: byte)
    ensures CommonHosts.DecodeHostInfo(b) == Some(CommonHosts.HostInfo(CommonHosts.Idle, CommonHosts.Client(calibrated)))
    ensures b == if calibrated then 0x50 else 0x40
  {
    CommonHosts.HostInfoRoundTrip(CommonHosts.HostInfo(CommonHosts.Idle, CommonHosts.Client(calibrated)));
    CommonHosts.EncodeHostInfo(CommonHosts.HostInfo(CommonHosts.Idle, CommonHosts.Client(calibrated))).value
  }

  /** The reply to a Ping while running: a calibrated, Running client. */
  function RunningReply(): (b: byte)
    ensures CommonHosts.DecodeHostInfo(b) == Some(CommonHosts.HostInfo(CommonHosts.Running, CommonHosts.Client(true)))
    ensures b == 0x70
  {
    CommonHosts.HostInfoRoundTrip(CommonHosts.HostInfo(CommonHosts.Running, CommonHosts.Client(true)));
    CommonHosts.EncodeHostInfo(CommonHosts.HostInfo(CommonHosts.Running, CommonHosts.Client(true))).value
  }

  // --------------------------------------------------- waiting for a start

  /** How the wait for the organizer ends: started by an address, a receive
      error (propagated by `?`), or still waiting when the modelled receives
      run out. */
  datatype WaitOutcome = Started(organizer: SocketAddr) | WaitFailed | Waiting

  /** The wait loop of `main` over the receives `events`: its outcome and the
      replies it sends. */
  function WaitSpec(events: seq<Recv>, calibrated: bool): (res: (WaitOutcome, seq<Datagram>))
    ensures res.0.Waiting? ==> forall k :: 0 <= k < |events| ==> events[k].Received?
    ensures |res.1| <= |events|
  {
    if events == [] then (Waiting, [])
    else match events[0]
      case Received(from, payload) =>
        var d := Command(payload);
        if d == CommonHosts.Decoded(CommonHosts.Start) then (Started(from), [])
        else if d == CommonHosts.Decoded(CommonHosts.Ping) then
          var (o, out) := WaitSpec(events[1..], calibrated);
          (o, [Datagram(from, [IdleReply(calibrated)])] + out)
        else WaitSpec(events[1..], calibrated)
      case _ => (WaitFailed, [])
  }

  /** The wait loop: answers Pings until a Start arrives. */
  method WaitForOrganizer(events: seq<Recv>, calibrated: bool) returns (outcome: WaitOutcome, replies: seq<Datagram>)
    ensures (outcome, replies) == WaitSpec(events, calibrated)
  {
    replies := [];
    var i := 0;
    while i < |events|
      invariant 0 <= i <= |events|
      invariant WaitSpec(events, calibrated).0 == WaitSpec(events[i..], calibrated).0
      invariant WaitSpec(events, calibrated).1 == replies + WaitSpec(events[i..], calibrated).1
    {
      assert events[i..][1..] == events[i + 1..];
      assert replies + [] == replies;
      var ev := events[i];
      if !ev.Received? {
        return WaitFailed, replies;
      }
      var cmd := Command(ev.payload);
      if cmd == CommonHosts.Decoded(CommonHosts.Start) {
        return Started(ev.from), replies;
      } else if cmd == CommonHosts.Decoded(CommonHosts.Ping) {
        replies := replies + [Datagram(ev.from, [IdleReply(calibrated)])];
      }
      i := i + 1;
    }
    assert events[i..] == [];
    assert replies + [] == replies;
    return Waiting, replies;
  }

  /** Every reply sent while waiting is the Idle status byte. */
  lemma {:induction false} WaitRepliesAreIdle(events: seq<Recv>, calibrated: bool)
    ensures forall d :: d in WaitSpec(events, calibrated).1 ==> d.payload == [IdleReply(calibrated)]
  {
    if events != [] {
      WaitRepliesAreIdle(events[1..], calibrated);
    }
  }

  /** The client starts at the first Start datagram, for its sender, and not
      before: every earlier receive was a datagram of another command. */
  lemma {:induction false} StartedBySender(events: seq<Recv>, calibrated: bool)
    requires WaitSpec(events, calibrated).0.Started?
    ensures exists i :: 0 <= i < |events| && events[i].Received? && events[i].from == WaitSpec(events, calibrated).0.organizer
                        && Command(events[i].payload) == CommonHosts.Decoded(CommonHosts.Start)
                        && forall j :: 0 <= j < i ==> events[j].Received? && Command(events[j].payload) != CommonHosts.Decoded(CommonHosts.Start)
  {
    var a := WaitSpec(events, calibrated).0.organizer;
    if Command(events[0].payload) != CommonHosts.Decoded(CommonHosts.Start) {
      StartedBySender(events[1..], calibrated);
      var i :| 0 <= i < |events[1..]| && events[1..][i].Received? && events[1..][i].from == a
               && Command(events[1..][i].payload) == CommonHosts.Decoded(CommonHosts.Start)
               && forall j :: 0 <= j < i ==> events[1..][j].Received? && Command(events[1..][j].payload) != CommonHosts.Decoded(CommonHosts.Start);
      assert events[i + 1] == events[1..][i];
      forall j | 0 <= j < i + 1
        ensures events[j].Received? && Command(events[j].payload) != CommonHosts.Decoded(CommonHosts.Start)
      {
        if j > 0 {
          assert events[j] == events[1..][j - 1];
        }
      }
    }
  }

  /** After getting its configuration the client announces itself to the
      server with its position and the calibrated fov. */
  function ConnectDatagram(config: Config, position: Position): (d: Datagram)
    ensures d.peer == config.server
    ensures CommonHosts.CorrectedDecode(d.payload) == CommonHosts.Decoded(CommonHosts.Connect(position, config.calibration.horizontalFov))
  {
    var c := CommonHosts.Connect(position, config.calibration.horizontalFov);
    CommonHosts.RoundTrip(c, []);
    assert CommonHosts.Encode(c) + [] == CommonHosts.Encode(c);
    Datagram(config.server, CommonHosts.Encode(c))
  }

  // ------------------------------------------------------------ main loop

  /** One iteration of `inner_loop`: what the socket delivers, whether the
      window is shown and 'q' (key 113) was pressed, and what the marker
      detector reports for the frame. */
  datatype Tick = Tick(recv: Recv, quitKey: bool, detection: Option<CommonHosts.ClientData>)

  /** `stopped_by_server` once the loop has ended; a TimedOut receive error
      ends it instead. */
  datatype LoopOutcome = LoopEnded(stoppedByServer: bool) | LoopTimedOut | LoopRunning

  datatype TickResult = Continue(sent: seq<Datagram>) | Exit(outcome: LoopOutcome, sent: seq<Datagram>)

  /** One iteration of the loop body against the configured `server`. */
  function TickStep(t: Tick, server: SocketAddr): (r: TickResult)
    ensures r.Exit? ==> r.outcome != LoopRunning
  {
    var recvd: Option<TickResult> :=
      match t.recv
      case RecvTimedOut => Some(Exit(LoopTimedOut, []))
      case RecvFailed => None
      case Received(from, payload) =>
        var d := Command(payload);
        if d == CommonHosts.Decoded(CommonHosts.Stop) then Some(Exit(LoopEnded(from == server), []))
        else if d == CommonHosts.Decoded(CommonHosts.Ping) then Some(Continue([Datagram(from, [RunningReply()])]))
        else Some(Continue([]));
    if recvd.Some? && recvd.value.Exit? then recvd.value
    else
      var replies := if recvd.Some? then recvd.value.sent else [];
      if t.quitKey then Exit(LoopEnded(false), replies)
      else if t.detection.Some? then
        Continue(replies + [Datagram(server, CommonHosts.Encode(CommonHosts.ValueUpdate(t.detection.value)))])
      else Continue(replies)
  }

  /** The loop of `inner_loop` over `ticks`: how it ends and what it sends. */
  function InnerSpec(ticks: seq<Tick>, server: SocketAddr): (res: (LoopOutcome, seq<Datagram>))
    ensures res.0.LoopRunning? ==> forall k :: 0 <= k < |ticks| ==> ticks[k].recv != RecvTimedOut && !ticks[k].quitKey
  {
    if ticks == [] then (LoopRunning, [])
    else match TickStep(ticks[0], server)
      case Exit(o, sent) => (o, sent)
      case Continue(sent) =>
        var (o, rest) := InnerSpec(ticks[1..], server);
        (o, sent + rest)
  }

  /** The datagrams `inner_loop` sends after its loop: ClientDisconnect to the
      server iff the loop ended without a Stop from the server. */
  function Farewell(outcome: LoopOutcome, server: SocketAddr): (r: seq<Datagram>)
    ensures r != [] <==> outcome.LoopEnded? && !outcome.stoppedByServer
    ensures r != [] ==> r == [Datagram(server, [CommonHosts.CLIENT_DISCONNECT])]
  {
    if outcome.LoopEnded? && !outcome.stoppedByServer then [Datagram(server, [CommonHosts.CLIENT_DISCONNECT])] else []
  }

  /** The body of the loop in `inner_loop`: receive, answer or stop, check
      the quit key, send the detection. */
  method Step(t: Tick, server: SocketAddr) returns (r: TickResult)
    ensures r == TickStep(t, server)
  {
    var replies: seq<Datagram> := [];
    match t.recv {
      case Received(from, payload) =>
        var cmd := Command(payload);
        if cmd == CommonHosts.Decoded(CommonHosts.Stop) {
          return Exit(LoopEnded(from == server), []);
        } else if cmd == CommonHosts.Decoded(CommonHosts.Ping) {
          replies := [Datagram(from, [RunningReply()])];
        }
      case RecvFailed =>
      case RecvTimedOut =>
        return Exit(LoopTimedOut, []);
    }
    if t.quitKey {
      return Exit(LoopEnded(false), replies);
    }
    if t.detection.Some? {
      replies := replies + [Datagram(server, CommonHosts.Encode(CommonHosts.ValueUpdate(t.detection.value)))];
    }
    r := Continue(replies);
  }

  /** `inner_loop` */
  method InnerLoop(ticks: seq<Tick>, server: SocketAddr) returns (outcome: LoopOutcome, sent: seq<Datagram>)
    ensures outcome == InnerSpec(ticks, server).0
    ensures sent == InnerSpec(ticks, server).1 + Farewell(outcome, server)
  {
    sent := [];
    outcome := LoopRunning;
    var i := 0;
    while i < |ticks|
      invariant 0 <= i <= |ticks|
      invariant InnerSpec(ticks, server).0 == InnerSpec(ticks[i..], server).0
      invariant InnerSpec(ticks, server).1 == sent + InnerSpec(ticks[i..], server).1
    {
      assert ticks[i..][1..] == ticks[i + 1..];
      var step := Step(ticks[i], server);
      sent := sent + step.sent;
      if step.Exit? {
        outcome := step.outcome;
        break;
      }
      i := i + 1;
    }
    if outcome == LoopRunning {
      assert ticks[i..] == [];
    }
    sent := sent + Farewell(outcome, server);
  }

  /** A Stop ends the loop; it counts as stopped by the server only when it
      came from the configured server address. */
  lemma StopEndsLoop(ticks: seq<Tick>, server: SocketAddr)
    requires ticks != [] && ticks[0].recv.Received?
    requires |ticks[0].recv.payload| >= 1 && ticks[0].recv.payload[0] == CommonHosts.STOP
    ensures InnerSpec(ticks, server) == (LoopEnded(ticks[0].recv.from == server), [])
  {
    CommandOfTag(CommonHosts.Stop, ticks[0].recv.payload);
  }

  /** A Ping in the main loop, with no key pressed and no detection, is
      answered to its sender with the Running status byte, and the loop goes
      on with the next iteration. */
  lemma PingAnsweredInLoop(ticks: seq<Tick>, server: SocketAddr)
    requires ticks != [] && ticks[0].recv.Received? && !ticks[0].quitKey && ticks[0].detection.None?
    requires |ticks[0].recv.payload| >= 1 && ticks[0].recv.payload[0] == CommonHosts.PING
    ensures var rest := InnerSpec(ticks[1..], server);
      InnerSpec(ticks, server) == (rest.0, [Datagram(ticks[0].recv.from, [RunningReply()])] + rest.1)
  {
    CommandOfTag(CommonHosts.Ping, ticks[0].recv.payload);
  }

  /** A Ping while waiting for the organizer is answered to its sender with
      the Idle status byte, and the wait goes on. */
  lemma PingAnsweredWhileWaiting(events: seq<Recv>, calibrated: bool)
    requires events != [] && events[0].Received?
    requires |events[0].payload| >= 1 && events[0].payload[0] == CommonHosts.PING
    ensures var rest := WaitSpec(events[1..], calibrated);
      WaitSpec(events, calibrated) == (rest.0, [Datagram(events[0].from, [IdleReply(calibrated)])] + rest.1)
  {
    CommandOfTag(CommonHosts.Ping, events[0].payload);
  }

  /** A TimedOut receive error aborts the loop at once, without a farewell. */
  lemma TimedOutAborts(ticks: seq<Tick>, server: SocketAddr)
    requires ticks != [] && ticks[0].recv == RecvTimedOut
    ensures InnerSpec(ticks, server) == (LoopTimedOut, [])
    ensures Farewell(InnerSpec(ticks, server).0, server) == []
  {
  }

  /** Any other receive error is ignored: an iteration with such an error, no
      key and no detection changes nothing. */
  lemma OtherErrorIgnored(ticks: seq<Tick>, server: SocketAddr)
    requires ticks != [] && ticks[0] == Tick(RecvFailed, false, None)
    ensures InnerSpec(ticks, server) == InnerSpec(ticks[1..], server)
  {
    var (o, rest) := InnerSpec(ticks[1..], server);
    assert [] + rest == rest;
  }

  /** Pressing 'q' ends the loop as not stopped by the server, so the client
      says goodbye to the server. */
  lemma QuitSaysGoodbye(ticks: seq<Tick>, server: SocketAddr)
    requires ticks != [] && ticks[0] == Tick(RecvFailed, true, None)
    ensures InnerSpec(ticks, server) == (LoopEnded(false), [])
    ensures Farewell(InnerSpec(ticks, server).0, server) == [Datagram(server, [CommonHosts.CLIENT_DISCONNECT])]
  {
  }

  /** Everything the loop sends goes to the server, except the Running
      status byte, which goes to whoever pinged. */
  lemma {:induction false} SentToServerOrPinger(ticks: seq<Tick>, server: SocketAddr)
    ensures forall d :: d in InnerSpec(ticks, server).1 ==> d.peer == server || d.payload == [RunningReply()]
  {
    if ticks != [] {
      SentToServerOrPinger(ticks[1..], server);
    }
  }
}
