/**
  The location server of `server/src/service.rs`: the `Builder` that
  configures it, the background task that keeps the table of connected
  cameras and computes positions from their reports, and the two queries
  of `LocationService`.

  The background task is a class whose fields are the task's own state (the
  client table, the datagrams sent) and a `Shared` object holding what the
  task shares with the service handle (last position, motion data, the
  extrapolator and the events broadcast). Each method is proved against a
  pure step function over `State`, and the properties of the dispatch are
  lemmas about those functions. Receives are given as a sequence, each
  datagram with the instant it was received; triangulation and the compass
  are oracle parameters.
 */
module Service {
  import opened Wire
  import opened Positions
  import opened CommonLib
  import opened Extrapolations
  import Hosts = CommonHosts

  // ------------------------------------------------------------ the data

  /** A camera's placement and horizontal field of view (radians); the
      record is defined outside the modelled files. */
  datatype PlacedCamera = PlacedCamera(position: Position, fov: F64)

  /** `MotionData::new(position, hint)`: the hint and the position it was
      given at. The hint type is defined outside the modelled files and is
      only passed along, so it is a type parameter. */
  datatype MotionData<H> = MotionData(position: Position, hint: H)

  /** One entry of the client table: its latest report, its camera and the
      address it reports from. */
  datatype Client = Client(lastData: TimeValidated<Hosts.ClientData>, camera: PlacedCamera, address: SocketAddr)

  /** What the server broadcasts to subscribers. */
  datatype Event =
    | Connect(address: SocketAddr, camera: PlacedCamera)
    | Disconnect(address: SocketAddr)
    | PositionUpdate(position: Position)
    | InfoUpdate(address: SocketAddr, camera: PlacedCamera)

  /** What one client contributes to a position computation. */
  type Report = (Option<Hosts.ClientData>, PlacedCamera)

  /** `calculate_position(min_camera_angle_diff, data, motion_data,
      compass_value, last_position, cube)`: triangulation in floating point. */
  type Calc<!H> = (F64, seq<Report>, Option<MotionData<H>>, Option<F64>, Option<Position>, Hosts.Cube) -> Option<Position>

  /** The compass reading at an instant. */
  type Compass = int -> Option<F64>

  /** One `recv_from` with the instant it returned (`Instant::now()` right
      after it), a receive error, or the cancellation token firing first. */
  datatype Recv = Received(from: SocketAddr, payload: Bytes, time: int) | RecvFailed | Cancelled

  /** The receive buffer is 64 bytes: longer datagrams are cut short. */
  const BUF_SIZE: nat := 64

  /** The command in a received datagram. This uses the command decoder with
      the InfoUpdate arm as evidently intended (see `CommonHosts`): it never
      panics, and it is the decoder as written on every datagram that does
      not start with the InfoUpdate tag. */
  function Command(payload: Bytes): (d: Hosts.Decoded)
    ensures !d.Panicked?
    ensures |payload| >= 1 && payload[0] != Hosts.INFO_UPDATE ==> d == Hosts.Decode(Truncated(payload, BUF_SIZE))
  {
    Hosts.CorrectedDecode(Truncated(payload, BUF_SIZE))
  }

  /** The decoder as written, which `run` calls, panics on the received
      datagram [0x1f, 0, 1, 0xFF], and so ends the task; `Command` does not. */
  lemma AsWrittenDecoderPanics()
    ensures Hosts.Decode(Truncated([Hosts.INFO_UPDATE, 0, 1, 0xFF], BUF_SIZE)) == Hosts.Panicked
    ensures Command([Hosts.INFO_UPDATE, 0, 1, 0xFF]).Decoded? || Command([Hosts.INFO_UPDATE, 0, 1, 0xFF]).Rejected?
  {
    Hosts.InfoUpdatePanics();
  }

  /** The status byte answered to a Ping before the start: an Idle server. */
  function IdleServerReply(): (b: byte)
    ensures Hosts.DecodeHostInfo(b) == Some(Hosts.HostInfo(Hosts.Idle, Hosts.Server))
    ensures b == 0xC0
  {
    Hosts.HostInfoRoundTrip(Hosts.HostInfo(Hosts.Idle, Hosts.Server));
    Hosts.EncodeHostInfo(Hosts.HostInfo(Hosts.Idle, Hosts.Server)).value
  }

  /** The status byte answered to a Ping while running: a Running server. */
  function RunningServerReply(): (b: byte)
    ensures Hosts.DecodeHostInfo(b) == Some(Hosts.HostInfo(Hosts.Running, Hosts.Server))
    ensures b == 0xE0
  {
    Hosts.HostInfoRoundTrip(Hosts.HostInfo(Hosts.Running, Hosts.Server));
    Hosts.EncodeHostInfo(Hosts.HostInfo(Hosts.Running, Hosts.Server)).value
  }

  // ------------------------------------------------------------- Builder

  /** `Builder`, with the extrapolator of type E and the compass of type C.
      Durations are nanoseconds. */
  datatype Builder<C, E, H> = Builder(
    lastKnownPos: Option<TimedPosition>,
    motionData: Option<MotionData<H>>,
    minCameraAngleDiff: F64,
    dataValidity: nat,
    clients: seq<Client>,
    address: SocketAddr,
    extrapolation: E,
    compass: C)

  /** `NoCompass` */
  datatype NoCompass = NoCompass

  /** `15f64.to_radians()`, the default minimum angle between cameras. */
  const FIFTEEN_DEGREES: F64 := 0x3FD0_C152_382D_7365

  /** `Duration::from_millis(500)`, the default validity of a report. */
  const DEFAULT_DATA_VALIDITY: nat := 500_000_000

  /** `Builder::new` (and `Default`): localhost on the main port, 15 degrees,
      half a second, a fresh extrapolator, no position, no clients. */
  method NewBuilder<H>() returns (b: Builder<NoCompass, LinearExtrapolation, H>)
    ensures fresh(b.extrapolation) && fresh(b.extrapolation.data)
    ensures b.extrapolation.Valid() && b.extrapolation.history == []
    ensures b.address == SocketAddr(Ipv4(127, 0, 0, 1), Hosts.MAIN_PORT)
    ensures b.minCameraAngleDiff == FIFTEEN_DEGREES && b.dataValidity == DEFAULT_DATA_VALIDITY
    ensures b.lastKnownPos.None? && b.motionData.None? && b.clients == [] && b.compass == NoCompass
  {
    var e := new LinearExtrapolation();
    b := Builder(None, None, FIFTEEN_DEGREES, DEFAULT_DATA_VALIDITY, [], SocketAddr(Ipv4(127, 0, 0, 1), Hosts.MAIN_PORT), e, NoCompass);
  }

  /** `with_last_known_pos` */
  function WithLastKnownPos<C, E, H>(b: Builder<C, E, H>, v: TimedPosition): (r: Builder<C, E, H>)
    ensures r.lastKnownPos == Some(v)
    ensures r.motionData == b.motionData && r.minCameraAngleDiff == b.minCameraAngleDiff && r.dataValidity == b.dataValidity
    ensures r.clients == b.clients && r.address == b.address && r.extrapolation == b.extrapolation && r.compass == b.compass
  {
    b.(lastKnownPos := Some(v))
  }

  /** `with_motion_data` */
  function WithMotionData<C, E, H>(b: Builder<C, E, H>, v: MotionData<H>): (r: Builder<C, E, H>)
    ensures r.motionData == Some(v)
    ensures r.lastKnownPos == b.lastKnownPos && r.minCameraAngleDiff == b.minCameraAngleDiff && r.dataValidity == b.dataValidity
    ensures r.clients == b.clients && r.address == b.address && r.extrapolation == b.extrapolation && r.compass == b.compass
  {
    b.(motionData := Some(v))
  }

  /** `with_min_camera_angle_diff` */
  function WithMinCameraAngleDiff<C, E, H>(b: Builder<C, E, H>, v: F64): (r: Builder<C, E, H>)
    ensures r.minCameraAngleDiff == v
    ensures r.lastKnownPos == b.lastKnownPos && r.motionData == b.motionData && r.dataValidity == b.dataValidity
    ensures r.clients == b.clients && r.address == b.address && r.extrapolation == b.extrapolation && r.compass == b.compass
  {
    b.(minCameraAngleDiff := v)
  }

  /** `with_data_validity` */
  function WithDataValidity<C, E, H>(b: Builder<C, E, H>, v: nat): (r: Builder<C, E, H>)
    ensures r.dataValidity == v
    ensures r.lastKnownPos == b.lastKnownPos && r.motionData == b.motionData && r.minCameraAngleDiff == b.minCameraAngleDiff
    ensures r.clients == b.clients && r.address == b.address && r.extrapolation == b.extrapolation && r.compass == b.compass
  {
    b.(dataValidity := v)
  }

  /** `with_client`: the client goes after the ones already given. */
  function WithClient<C, E, H>(b: Builder<C, E, H>, lastData: TimeValidated<Hosts.ClientData>, camera: PlacedCamera, address: SocketAddr)
    : (r: Builder<C, E, H>)
    ensures r.clients == b.clients + [Client(lastData, camera, address)]
    ensures r.lastKnownPos == b.lastKnownPos && r.motionData == b.motionData && r.minCameraAngleDiff == b.minCameraAngleDiff
    ensures r.dataValidity == b.dataValidity && r.address == b.address && r.extrapolation == b.extrapolation && r.compass == b.compass
  {
    b.(clients := b.clients + [Client(lastData, camera, address)])
  }

  /** `with_address` */
  function WithAddress<C, E, H>(b: Builder<C, E, H>, v: SocketAddr): (r: Builder<C, E, H>)
    ensures r.address == v
    ensures r.lastKnownPos == b.lastKnownPos && r.motionData == b.motionData && r.minCameraAngleDiff == b.minCameraAngleDiff
    ensures r.dataValidity == b.dataValidity && r.clients == b.clients && r.extrapolation == b.extrapolation && r.compass == b.compass
  {
    b.(address := v)
  }

  /** `with_extrapolation`: the same builder over another extrapolator. */
  function WithExtrapolation<C, E, N, H>(b: Builder<C, E, H>, v: N): (r: Builder<C, N, H>)
    ensures r.extrapolation == v
    ensures r.lastKnownPos == b.lastKnownPos && r.motionData == b.motionData && r.minCameraAngleDiff == b.minCameraAngleDiff
    ensures r.dataValidity == b.dataValidity && r.clients == b.clients && r.address == b.address && r.compass == b.compass
  {
    Builder(b.lastKnownPos, b.motionData, b.minCameraAngleDiff, b.dataValidity, b.clients, b.address, v, b.compass)
  }

  /** `with_compass`: the same builder over another compass. */
  function WithCompass<C, E, N, H>(b: Builder<C, E, H>, v: N): (r: Builder<N, E, H>)
    ensures r.compass == v
    ensures r.lastKnownPos == b.lastKnownPos && r.motionData == b.motionData && r.minCameraAngleDiff == b.minCameraAngleDiff
    ensures r.dataValidity == b.dataValidity && r.clients == b.clients && r.address == b.address && r.extrapolation == b.extrapolation
  {
    Builder(b.lastKnownPos, b.motionData, b.minCameraAngleDiff, b.dataValidity, b.clients, b.address, b.extrapolation, v)
  }

  /** Setters of different fields commute, a second setting of the same
      field wins, and clients are kept in the order they were added. */
  lemma SettersCommute<C, E, H>(b: Builder<C, E, H>, p: TimedPosition, v1: nat, v2: nat, a: SocketAddr,
                                c1: Client, c2: Client)
    ensures WithDataValidity(WithLastKnownPos(b, p), v1) == WithLastKnownPos(WithDataValidity(b, v1), p)
    ensures WithAddress(WithDataValidity(b, v1), a) == WithDataValidity(WithAddress(b, a), v1)
    ensures WithDataValidity(WithDataValidity(b, v1), v2) == WithDataValidity(b, v2)
    ensures WithClient(WithClient(b, c1.lastData, c1.camera, c1.address), c2.lastData, c2.camera, c2.address).clients
         == b.clients + [c1, c2]
  {
  }

  // -------------------------------------------------- the waiting phase

  /** How the first loop of `run` ends: StartServer arrived (at position
      `at` of the receives), the token was cancelled, a receive failed, or
      the modelled receives ran out. */
  datatype WaitOutcome = Started(cube: Hosts.Cube, organizer: SocketAddr, at: nat) | WaitCancelled | WaitFailed | Waiting

  /** A start found `n` receives further on. */
  function ShiftAt(o: WaitOutcome, n: nat): (r: WaitOutcome)
    ensures r.Started? <==> o.Started?
    ensures o.Started? ==> r == o.(at := o.at + n)
    ensures !o.Started? ==> r == o
  {
    if o.Started? then o.(at := o.at + n) else o
  }

  /** The first loop of `run`: it answers Pings as an Idle server, ignores
      every other datagram, and leaves at the first StartServer. */
  function WaitSpec(recvs: seq<Recv>): (res: (WaitOutcome, seq<Datagram>))
    ensures res.0.Started? ==> res.0.at < |recvs|
    ensures res.0.Waiting? ==> forall k :: 0 <= k < |recvs| ==> recvs[k].Received?
    ensures |res.1| <= |recvs|
  {
    if recvs == [] then (Waiting, [])
    else match recvs[0]
      case Received(from, payload, _) =>
        var d := Command(payload);
        if d.Decoded? && d.cmd.StartServer? then (Started(d.cmd.cube, from, 0), [])
        else
          var (o, out) := WaitSpec(recvs[1..]);
          var o' := ShiftAt(o, 1);
          if d == Hosts.Decoded(Hosts.Ping) then (o', [Datagram(from, [IdleServerReply()])] + out) else (o', out)
      case RecvFailed => (WaitFailed, [])
      case Cancelled => (WaitCancelled, [])
  }
  /** A datagram other than StartServer lets the wait go on: a start found
      later is one receive further on, and a Ping is answered first. */
  lemma WaitStep(recvs: seq<Recv>, i: nat)
    requires i < |recvs| && recvs[i].Received?
    requires var d := Command(recvs[i].payload); !(d.Decoded? && d.cmd.StartServer?)
    ensures WaitSpec(recvs[i..]).0 == ShiftAt(WaitSpec(recvs[i + 1..]).0, 1)
    ensures WaitSpec(recvs[i..]).1 == (if Command(recvs[i].payload) == Hosts.Decoded(Hosts.Ping)
      then [Datagram(recvs[i].from, [IdleServerReply()])] else []) + WaitSpec(recvs[i + 1..]).1
  {
    assert recvs[i..][1..] == recvs[i + 1..];
  }

  /** The receive at `i` ends the wait: a StartServer, an error or a cancellation. */
  lemma WaitEnds(recvs: seq<Recv>, i: nat)
    requires i < |recvs|
    requires recvs[i].Received? ==> var d := Command(recvs[i].payload); d.Decoded? && d.cmd.StartServer?
    ensures WaitSpec(recvs[i..]).1 == []
    ensures WaitSpec(recvs[i..]).0 == match recvs[i]
      case Received(from, payload, _) => Started(Command(payload).cmd.cube, from, 0)
      case RecvFailed => WaitFailed
      case Cancelled => WaitCancelled
  {
  }


  /** Before the start every reply is the Idle-server byte. */
  lemma {:induction false} WaitRepliesAreIdle(recvs: seq<Recv>)
    ensures forall k :: 0 <= k < |WaitSpec(recvs).1| ==> WaitSpec(recvs).1[k].payload == [0xC0]
  {
    if recvs != [] && recvs[0].Received? {
      WaitRepliesAreIdle(recvs[1..]);
    }
  }

  /** The server starts at the first StartServer, with its cube, and not
      before: every earlier receive was a datagram of another command. */
  lemma {:induction false} StartsAtFirstStartServer(recvs: seq<Recv>)
    ensures var o := WaitSpec(recvs).0;
      o.Started? ==>
        && o.at < |recvs| && recvs[o.at].Received? && recvs[o.at].from == o.organizer
        && Command(recvs[o.at].payload) == Hosts.Decoded(Hosts.StartServer(o.cube))
        && forall j :: 0 <= j < o.at ==> recvs[j].Received? && !(Command(recvs[j].payload).Decoded? && Command(recvs[j].payload).cmd.StartServer?)
  {
    if recvs != [] && recvs[0].Received? {
      var d := Command(recvs[0].payload);
      if !(d.Decoded? && d.cmd.StartServer?) {
        StartsAtFirstStartServer(recvs[1..]);
        var o := WaitSpec(recvs[1..]).0;
        if o.Started? {
          forall j | 0 <= j < o.at + 1
            ensures recvs[j].Received? && !(Command(recvs[j].payload).Decoded? && Command(recvs[j].payload).cmd.StartServer?)
          {
            if j > 0 {
              assert recvs[j] == recvs[1..][j - 1];
            }
          }
        }
      }
    }
  }

  // ------------------------------------------------- the running phase

  /** What the running loop reads and writes: the client table, the shared
      last position and motion data, the points given to the extrapolator,
      the events broadcast and the datagrams sent. */
  datatype State<H> = State(
    clients: seq<Client>,
    lastKnownPos: Option<TimedPosition>,
    motionData: Option<MotionData<H>>,
    points: seq<TimedPosition>,
    events: seq<Event>,
    sent: seq<Datagram>)

  /** The fixed parameters of the running loop. */
  datatype Env<!H> = Env(
    startTime: int,
    dataValidity: nat,
    minCameraAngleDiff: F64,
    cube: Hosts.Cube,
    locate: Calc<H>,
    compass: Compass)

  /** A ValueUpdate from `from` at `t` as seen by one client: the sender's
      entries take the report and the instant. */
  function Stamp(c: Client, from: SocketAddr, d: Hosts.ClientData, t: int): Client {
    if c.address == from then c.(lastData := SetWithTime(c.lastData, d, t)) else c
  }

  /** What one client contributes to the computation: the new report for
      the sender, otherwise its last report while still valid. */
  function Contribution(c: Client, from: SocketAddr, d: Hosts.ClientData, t: int): Report {
    (if c.address == from then Some(d) else Get(c.lastData, t), c.camera)
  }

  function StampAll(cs: seq<Client>, from: SocketAddr, d: Hosts.ClientData, t: int): (r: seq<Client>)
    ensures |r| == |cs| && forall i :: 0 <= i < |cs| ==> r[i] == Stamp(cs[i], from, d, t)
  {
    seq(|cs|, i requires 0 <= i < |cs| => Stamp(cs[i], from, d, t))
  }

  function Contributions(cs: seq<Client>, from: SocketAddr, d: Hosts.ClientData, t: int): (r: seq<Report>)
    ensures |r| == |cs| && forall i :: 0 <= i < |cs| ==> r[i] == Contribution(cs[i], from, d, t)
  {
    seq(|cs|, i requires 0 <= i < |cs| => Contribution(cs[i], from, d, t))
  }

  /** The last index whose client reports from `from`. */
  function LastMatch(cs: seq<Client>, from: SocketAddr): (r: Option<nat>)
    ensures r.Some? ==> r.value < |cs| && cs[r.value].address == from
    ensures r.Some? ==> forall j :: r.value < j < |cs| ==> cs[j].address != from
    ensures r.None? ==> forall j :: 0 <= j < |cs| ==> cs[j].address != from
  {
    if cs == [] then None
    else if cs[|cs| - 1].address == from then Some(|cs| - 1)
    else LastMatch(cs[..|cs| - 1], from)
  }

  /** The oldest-report scan: the age and index of the first client whose
      report is strictly older than everything before it, starting from the
      server's start instant and index 0. */
  function OldestScan(cs: seq<Client>, startTime: int): (int, nat) {
    if cs == [] then (startTime, 0)
    else
      var (age, i) := OldestScan(cs[..|cs| - 1], startTime);
      var last := cs[|cs| - 1].lastData.lastChanged;
      if last < age then (last, |cs| - 1) else (age, i)
  }

  /** The scan finds the first client with the oldest report when some
      report predates the start, and index 0 otherwise. */
  lemma {:induction false} OldestIsFirstMinimum(cs: seq<Client>, startTime: int)
    ensures var (age, i) := OldestScan(cs, startTime);
      && age <= startTime
      && (forall j :: 0 <= j < |cs| ==> age <= cs[j].lastData.lastChanged)
      && (age == startTime ==> i == 0)
      && (age < startTime ==>
            i < |cs| && cs[i].lastData.lastChanged == age && forall j :: 0 <= j < i ==> age < cs[j].lastData.lastChanged)
  {
    if cs != [] {
      var init := cs[..|cs| - 1];
      OldestIsFirstMinimum(init, startTime);
      assert forall j :: 0 <= j < |init| ==> init[j] == cs[j];
    }
  }

  /** `update_position`: nothing changes when the computation fails;
      otherwise the computed position, stamped with the start and receive
      instants, becomes the last position and the extrapolator's newest
      point, and is broadcast. */
  function UpdatePositionStep<H>(s: State<H>, env: Env<H>, t: int, data: seq<Report>): (r: State<H>)
    ensures r.clients == s.clients && r.sent == s.sent && r.motionData == s.motionData
    ensures r == s || (r.lastKnownPos.Some? && r.lastKnownPos.value.time == t && r.points == s.points + [r.lastKnownPos.value]
                       && r.events == s.events + [PositionUpdate(r.lastKnownPos.value.position)])
  {
    var last := if s.lastKnownPos.Some? then Some(s.lastKnownPos.value.position) else None;
    match env.locate(env.minCameraAngleDiff, data, s.motionData, env.compass(t), last, env.cube)
    case None => s
    case Some(p) =>
      var tp := TimedPosition(env.startTime, None, t, p);
      s.(lastKnownPos := Some(tp), points := s.points + [tp], events := s.events + [PositionUpdate(p)])
  }

  /** ValueUpdate: every entry of the sender takes the report; the position
      is recomputed when the last entry updated is the one the oldest-report
      scan (over the reports before this update) picked. */
  function ValueUpdateStep<H>(s: State<H>, env: Env<H>, from: SocketAddr, d: Hosts.ClientData, t: int): (r: State<H>)
    ensures |r.clients| == |s.clients| && r.sent == s.sent
    ensures forall i :: 0 <= i < |s.clients| ==>
      r.clients[i].address == s.clients[i].address && r.clients[i].camera == s.clients[i].camera
    ensures r.events != s.events ==> LastMatch(s.clients, from) == Some(OldestScan(s.clients, env.startTime).1)
  {
    var s1 := s.(clients := StampAll(s.clients, from, d, t));
    if LastMatch(s.clients, from) == Some(OldestScan(s.clients, env.startTime).1)
    then UpdatePositionStep(s1, env, t, Contributions(s.clients, from, d, t))
    else s1
  }

  /** The report a newly connected client starts with: (NaN, 255), stamped
      one validity period before the connection. */
  function Placeholder(dataValidity: nat, t: int): TimeValidated<Hosts.ClientData> {
    NewWithChange(Hosts.ClientData(F64_NAN, 255), dataValidity, t - dataValidity)
  }

  /** Connect: the sender joins the end of the table with its camera. */
  function ConnectStep<H>(s: State<H>, env: Env<H>, from: SocketAddr, t: int, position: Position, fov: F64): (r: State<H>)
    ensures |r.clients| == |s.clients| + 1 && r.clients[..|s.clients|] == s.clients
    ensures r.clients[|s.clients|].address == from && r.clients[|s.clients|].camera == PlacedCamera(position, fov)
    ensures r.events == s.events + [Connect(from, PlacedCamera(position, fov))]
    ensures r.sent == s.sent && r.points == s.points && r.lastKnownPos == s.lastKnownPos
  {
    var camera := PlacedCamera(position, fov);
    s.(clients := s.clients + [Client(Placeholder(env.dataValidity, t), camera, from)],
       events := s.events + [Connect(from, camera)])
  }

  /** The first index whose client's IP, as text, is `ip`. */
  /** The client's address, written as `to_string` writes an IPv4 address, is `ip`. */
  predicate HasIp(c: Client, ip: Bytes)
  {
    Ipv4ToString(c.address.ip) == ip
  }

  function FirstIpMatch(cs: seq<Client>, ip: Bytes): (r: Option<nat>)
    ensures r.Some? ==> r.value < |cs| && HasIp(cs[r.value], ip)
    ensures r.Some? ==> forall j :: 0 <= j < r.value ==> !HasIp(cs[j], ip)
    ensures r.None? ==> forall j :: 0 <= j < |cs| ==> !HasIp(cs[j], ip)
  {
    if cs == [] then None
    else if HasIp(cs[0], ip) then Some(0)
    else
      var r := FirstIpMatch(cs[1..], ip);
      assert forall j :: 0 <= j < |cs| - 1 ==> cs[1..][j] == cs[j + 1];
      if r.Some? then Some(r.value + 1) else None
  }

  /** InfoUpdate: the first client with that IP takes the new position, and
      the new fov when one is given. */
  function InfoUpdateStep<H>(s: State<H>, ip: Bytes, position: Position, fov: Option<F64>): (r: State<H>)
    ensures |r.clients| == |s.clients| && r.sent == s.sent && r.points == s.points && r.lastKnownPos == s.lastKnownPos
    ensures forall j :: 0 <= j < |s.clients| ==>
      r.clients[j].address == s.clients[j].address && r.clients[j].lastData == s.clients[j].lastData
    ensures forall j :: 0 <= j < |s.clients| && r.clients[j] != s.clients[j] ==> HasIp(s.clients[j], ip)
    ensures |s.events| <= |r.events| <= |s.events| + 1 && r.events[..|s.events|] == s.events
  {
    match FirstIpMatch(s.clients, ip)
    case None => s
    case Some(i) =>
      var c := s.clients[i];
      var camera := PlacedCamera(position, if fov.Some? then fov.value else c.camera.fov);
      s.(clients := s.clients[i := c.(camera := camera)], events := s.events + [InfoUpdate(c.address, camera)])
  }

  /** The first index whose client reports from `from`. */
  function FirstMatch(cs: seq<Client>, from: SocketAddr): (r: Option<nat>)
    ensures r.Some? ==> r.value < |cs| && cs[r.value].address == from
    ensures r.Some? ==> forall j :: 0 <= j < r.value ==> cs[j].address != from
    ensures r.None? ==> forall j :: 0 <= j < |cs| ==> cs[j].address != from
  {
    if cs == [] then None
    else if cs[0].address == from then Some(0)
    else
      var r := FirstMatch(cs[1..], from);
      if r.Some? then Some(r.value + 1) else None
  }

  /** ClientDisconnect, as evidently intended: the first entry of the sender
      leaves the table and its address is broadcast. */
  function DisconnectStep<H>(s: State<H>, from: SocketAddr): (r: State<H>)
    ensures (forall j :: 0 <= j < |s.clients| ==> s.clients[j].address != from) ==> r == s
    ensures r == s || (|r.clients| == |s.clients| - 1 && r.events == s.events + [Disconnect(from)])
    ensures r.sent == s.sent && r.points == s.points && r.lastKnownPos == s.lastKnownPos
  {
    match FirstMatch(s.clients, from)
    case None => s
    case Some(i) => s.(clients := s.clients[..i] + s.clients[i + 1..], events := s.events + [Disconnect(s.clients[i].address)])
  }

  /** ClientDisconnect as written: after the removal the event reads index
      i of the shortened table, the entry that followed the removed one;
      None is the index-out-of-bounds panic when the removed entry was last. */
  function DisconnectAsWritten<H>(s: State<H>, from: SocketAddr): (r: Option<State<H>>)
    ensures r.None? <==> |s.clients| > 0 && s.clients[|s.clients| - 1].address == from
                         && forall j :: 0 <= j < |s.clients| - 1 ==> s.clients[j].address != from
    ensures r.Some? ==> r.value.sent == s.sent && |s.clients| - 1 <= |r.value.clients| <= |s.clients|
  {
    match FirstMatch(s.clients, from)
    case None => Some(s)
    case Some(i) =>
      var rest := s.clients[..i] + s.clients[i + 1..];
      if i < |rest| then Some(s.(clients := rest, events := s.events + [Disconnect(rest[i].address)])) else None
  }

  /** One datagram of the running loop other than Stop. */
  function Dispatch<H>(s: State<H>, env: Env<H>, from: SocketAddr, t: int, d: Hosts.Decoded): (r: State<H>)
    ensures !d.Decoded? ==> r == s
    ensures r.sent == s.sent || (d == Hosts.Decoded(Hosts.Ping) && r.sent == s.sent + [Datagram(from, [0xE0])])
    ensures |s.events| <= |r.events| <= |s.events| + 1 && r.events[..|s.events|] == s.events
  {
    match d
    case Decoded(cmd) =>
      (match cmd
       case Ping => s.(sent := s.sent + [Datagram(from, [RunningServerReply()])])
       case ValueUpdate(data) => ValueUpdateStep(s, env, from, data, t)
       case Connect(position, fov) => ConnectStep(s, env, from, t, position, fov)
       case InfoUpdate(ip, position, fov) => InfoUpdateStep(s, ip, position, fov)
       case ClientDisconnect => DisconnectStep(s, from)
       case _ => s)
    case _ => s
  }

  /** The STOP datagram to every client in the table, in table order. */
  function StopDatagrams(cs: seq<Client>): (r: seq<Datagram>)
    ensures |r| == |cs| && forall i :: 0 <= i < |cs| ==> r[i] == Datagram(cs[i].address, [Hosts.STOP])
  {
    seq(|cs|, i requires 0 <= i < |cs| => Datagram(cs[i].address, [Hosts.STOP]))
  }

  /** How the running loop ends. */
  datatype RunOutcome = Stopped | RunCancelled | RunFailed | Listening

  /** The running loop over the receives: dispatch until Stop, then stop
      every client. A cancellation or a receive error ends it at once. */
  function ServeSpec<H>(s: State<H>, env: Env<H>, recvs: seq<Recv>): (res: (State<H>, RunOutcome))
    ensures |res.0.events| >= |s.events| && res.0.events[..|s.events|] == s.events
    ensures res.1.Listening? ==> forall k :: 0 <= k < |recvs| ==>
      recvs[k].Received? && Command(recvs[k].payload) != Hosts.Decoded(Hosts.Stop)
    decreases |recvs|
  {
    if recvs == [] then (s, Listening)
    else match recvs[0]
      case Received(from, payload, t) =>
        if Command(payload) == Hosts.Decoded(Hosts.Stop) then (s.(sent := s.sent + StopDatagrams(s.clients)), Stopped)
        else ServeSpec(Dispatch(s, env, from, t, Command(payload)), env, recvs[1..])
      case RecvFailed => (s, RunFailed)
      case Cancelled => (s, RunCancelled)
  }

  // ------------------------------------------------- the shared objects

  /** What the background task shares with the service handle. */
  class Shared<H> {
    var lastKnownPos: Option<TimedPosition>
    var motionData: Option<MotionData<H>>
    const extrapolation: LinearExtrapolation
    /** Every event sent on the broadcast channel. */
    var events: seq<Event>

    constructor (lastKnownPos: Option<TimedPosition>, motionData: Option<MotionData<H>>, extrapolation: LinearExtrapolation)
      ensures this.lastKnownPos == lastKnownPos && this.motionData == motionData
      ensures this.extrapolation == extrapolation && events == []
    {
      this.lastKnownPos := lastKnownPos;
      this.motionData := motionData;
      this.extrapolation := extrapolation;
      events := [];
    }
  }

  /** The background task of the server. */
  class Background<H> {
    var clients: seq<Client>
    /** Every datagram sent, with its destination. */
    var sent: seq<Datagram>
    const shared: Shared<H>
    const startTime: int
    const dataValidity: nat
    const minCameraAngleDiff: F64

    ghost predicate Valid()
      reads this, shared, shared.extrapolation, shared.extrapolation.data
    {
      shared.extrapolation.Valid()
    }

    ghost function Abstract(): State<H>
      reads this, shared, shared.extrapolation
    {
      State(clients, shared.lastKnownPos, shared.motionData, shared.extrapolation.history, shared.events, sent)
    }

    function Environment(cube: Hosts.Cube, locate: Calc<H>, compass: Compass): (env: Env<H>)
      ensures env.startTime == startTime && env.dataValidity == dataValidity && env.minCameraAngleDiff == minCameraAngleDiff
      ensures env.cube == cube && env.locate == locate && env.compass == compass
    {
      Env(startTime, dataValidity, minCameraAngleDiff, cube, locate, compass)
    }

    constructor (shared: Shared<H>, clients: seq<Client>, startTime: int, dataValidity: nat, minCameraAngleDiff: F64)
      ensures this.shared == shared && this.clients == clients && sent == []
      ensures this.startTime == startTime && this.dataValidity == dataValidity && this.minCameraAngleDiff == minCameraAngleDiff
    {
      this.shared := shared;
      this.clients := clients;
      sent := [];
      this.startTime := startTime;
      this.dataValidity := dataValidity;
      this.minCameraAngleDiff := minCameraAngleDiff;
    }

    /** The first loop of `run`. */
    method AwaitStart(recvs: seq<Recv>) returns (outcome: WaitOutcome)
      modifies this
      ensures clients == old(clients)
      ensures (outcome, sent) == (WaitSpec(recvs).0, old(sent) + WaitSpec(recvs).1)
    {
      ghost var goal := WaitSpec(recvs);
      ghost var replies := [];
      var i := 0;
      while i < |recvs|
        invariant 0 <= i <= |recvs|
        invariant clients == old(clients) && sent == old(sent) + replies
        invariant goal.0 == ShiftAt(WaitSpec(recvs[i..]).0, i)
        invariant goal.1 == replies + WaitSpec(recvs[i..]).1
      {
        if !recvs[i].Received? {
          WaitEnds(recvs, i);
          assert replies + [] == replies;
          return if recvs[i].RecvFailed? then WaitFailed else WaitCancelled;
        }
        var from, payload := recvs[i].from, recvs[i].payload;
        var d := Command(payload);
        if d.Decoded? && d.cmd.StartServer? {
          WaitEnds(recvs, i);
          assert replies + [] == replies;
          return Started(d.cmd.cube, from, i);
        }
        WaitStep(recvs, i);
        if d == Hosts.Decoded(Hosts.Ping) {
          sent := sent + [Datagram(from, [IdleServerReply()])];
          replies := replies + [Datagram(from, [IdleServerReply()])];
        }
        i := i + 1;
      }
      assert recvs[i..] == [];
      assert replies + [] == replies;
      return Waiting;
    }

    /** The ValueUpdate loop over the table: it stamps the sender's entries,
      collects every client's contribution, and tracks the oldest report and
      the last entry updated. */
    method ApplyValueUpdate(from: SocketAddr, d: Hosts.ClientData, t: int)
      returns (data: seq<Report>, updated: Option<nat>, oldest: nat)
      modifies this
      ensures clients == StampAll(old(clients), from, d, t) && sent == old(sent)
      ensures data == Contributions(old(clients), from, d, t)
      ensures updated == LastMatch(old(clients), from)
      ensures oldest == OldestScan(old(clients), startTime).1
    {
      ghost var cs := clients;
      var oldestAge, oldestIndex := startTime, 0;
      updated := None;
      data := [];
      var i := 0;
      while i < |clients|
        invariant 0 <= i <= |clients| == |cs| && sent == old(sent)
        invariant forall j :: 0 <= j < i ==> clients[j] == Stamp(cs[j], from, d, t)
        invariant forall j :: i <= j < |cs| ==> clients[j] == cs[j]
        invariant |data| == i && forall j :: 0 <= j < i ==> data[j] == Contribution(cs[j], from, d, t)
        invariant updated == LastMatch(cs[..i], from)
        invariant (oldestAge, oldestIndex) == OldestScan(cs[..i], startTime)
      {
        assert cs[..i + 1][..i] == cs[..i];
        var c := clients[i];
        var dataAge := LastChanged(c.lastData);
        if dataAge < oldestAge {
          oldestAge, oldestIndex := dataAge, i;
        }
        var clientData;
        if c.address == from {
          clients := clients[i := c.(lastData := SetWithTime(c.lastData, d, t))];
          updated := Some(i);
          clientData := Some(d);
        } else {
          clientData := Get(c.lastData, t);
        }
        data := data + [(clientData, c.camera)];
        i := i + 1;
      }
      assert cs[..i] == cs;
      oldest := oldestIndex;
    }

    /** `update_position` */
    method UpdatePosition(t: int, data: seq<Report>, cube: Hosts.Cube, locate: Calc<H>, compass: Compass)
      requires Valid()
      modifies shared, shared.extrapolation, shared.extrapolation.data
      ensures Valid()
      ensures Abstract() == UpdatePositionStep(old(Abstract()), Environment(cube, locate, compass), t, data)
    {
      var compassValue := compass(t);
      var last := if shared.lastKnownPos.Some? then Some(shared.lastKnownPos.value.position) else None;
      var position := locate(minCameraAngleDiff, data, shared.motionData, compassValue, last, cube);
      if position.None? {
        return;
      }
      var calculated := TimedPosition(startTime, None, t, position.value);
      shared.lastKnownPos := Some(calculated);
      shared.extrapolation.AddDatapoint(calculated);
      shared.events := shared.events + [PositionUpdate(calculated.position)];
    }

    /** One datagram of the running loop; `stop` tells a Stop command. */
    method Handle(from: SocketAddr, payload: Bytes, t: int, cube: Hosts.Cube, locate: Calc<H>, compass: Compass)
      returns (stop: bool)
      requires Valid()
      modifies this, shared, shared.extrapolation, shared.extrapolation.data
      ensures Valid()
      ensures stop <==> Command(payload) == Hosts.Decoded(Hosts.Stop)
      ensures stop ==> Abstract() == old(Abstract())
      ensures !stop ==> Abstract() == Dispatch(old(Abstract()), Environment(cube, locate, compass), from, t, Command(payload))
    {
      stop := false;
      var d := Command(payload);
      if !d.Decoded? {
        return;
      }
      stop := d.cmd.Stop?;
      Apply(from, d.cmd, t, cube, locate, compass);
    }

    /** The match of the running loop on a decoded command; a Stop changes nothing here. */
    method Apply(from: SocketAddr, cmd: Hosts.Command, t: int, cube: Hosts.Cube, locate: Calc<H>, compass: Compass)
      requires Valid()
      modifies this, shared, shared.extrapolation, shared.extrapolation.data
      ensures Valid()
      ensures Abstract() == Dispatch(old(Abstract()), Environment(cube, locate, compass), from, t, Hosts.Decoded(cmd))
    {
      ghost var s0, env, d := Abstract(), Environment(cube, locate, compass), Hosts.Decoded(cmd);
      match cmd {
        case Ping =>
          sent := sent + [Datagram(from, [RunningServerReply()])];
        case ValueUpdate(cd) =>
          assert Dispatch(s0, env, from, t, d) == ValueUpdateStep(s0, env, from, cd, t);
          HandleValueUpdate(from, cd, t, cube, locate, compass);
        case Connect(position, fov) =>
          assert Dispatch(s0, env, from, t, d) == ConnectStep(s0, env, from, t, position, fov);
          AddClient(from, t, position, fov, cube, locate, compass);
        case InfoUpdate(ip, position, fov) =>
          assert Dispatch(s0, env, from, t, d) == InfoUpdateStep(s0, ip, position, fov);
          InfoUpdateClient(ip, position, fov);
        case ClientDisconnect =>
          assert Dispatch(s0, env, from, t, d) == DisconnectStep(s0, from);
          RemoveClient(from);
        case _ =>
      }
    }

    /** The ValueUpdate arm: stamp every entry, then recompute the position when the sender's entry is the oldest-report pick. */
    method HandleValueUpdate(from: SocketAddr, cd: Hosts.ClientData, t: int, cube: Hosts.Cube, locate: Calc<H>, compass: Compass)
      requires Valid()
      modifies this, shared, shared.extrapolation, shared.extrapolation.data
      ensures Valid()
      ensures Abstract() == ValueUpdateStep(old(Abstract()), Environment(cube, locate, compass), from, cd, t)
    {
      var data, updated, oldest := ApplyValueUpdate(from, cd, t);
      if updated == Some(oldest) {
        UpdatePosition(t, data, cube, locate, compass);
      }
    }

    /** The Connect arm: a new entry for the sender, with no report yet, and a Connect event. */
    method AddClient(from: SocketAddr, t: int, position: Position, fov: F64, cube: Hosts.Cube, locate: Calc<H>, compass: Compass)
      modifies this, shared
      ensures unchanged(shared.extrapolation) && unchanged(shared.extrapolation.data)
      ensures Abstract() == ConnectStep(old(Abstract()), Environment(cube, locate, compass), from, t, position, fov)
    {
      var camera := PlacedCamera(position, fov);
      clients := clients + [Client(Placeholder(dataValidity, t), camera, from)];
      shared.events := shared.events + [Connect(from, camera)];
    }

    /** The InfoUpdate loop: the first client with the IP, if any. */
    method InfoUpdateClient(ip: Bytes, position: Position, fov: Option<F64>)
      modifies this, shared
      ensures sent == old(sent) && shared.lastKnownPos == old(shared.lastKnownPos) && shared.motionData == old(shared.motionData)
      ensures var s := InfoUpdateStep(old(Abstract()), ip, position, fov);
        clients == s.clients && shared.events == s.events
    {
      var i := 0;
      while i < |clients|
        invariant 0 <= i <= |clients|
        invariant forall j :: 0 <= j < i ==> !HasIp(clients[j], ip)
        invariant unchanged(this) && unchanged(shared)
      {
        if HasIp(clients[i], ip) {
          FirstIpMatchIs(clients, ip, i);
          var c := clients[i];
          var camera := PlacedCamera(position, if fov.Some? then fov.value else c.camera.fov);
          clients := clients[i := c.(camera := camera)];
          shared.events := shared.events + [InfoUpdate(c.address, camera)];
          return;
        }
        i := i + 1;
      }
      NoIpMatch(clients, ip);
    }

    /** The ClientDisconnect loop, reporting the removed client's address. */
    method RemoveClient(from: SocketAddr)
      modifies this, shared
      ensures sent == old(sent) && shared.lastKnownPos == old(shared.lastKnownPos) && shared.motionData == old(shared.motionData)
      ensures var s := DisconnectStep(old(Abstract()), from);
        clients == s.clients && shared.events == s.events
    {
      var i := 0;
      while i < |clients|
        invariant 0 <= i <= |clients|
        invariant forall j :: 0 <= j < i ==> clients[j].address != from
        invariant unchanged(this) && unchanged(shared)
      {
        if clients[i].address == from {
          FirstMatchIs(clients, from, i);
          var removed := clients[i];
          clients := clients[..i] + clients[i + 1..];
          shared.events := shared.events + [Disconnect(removed.address)];
          return;
        }
        i := i + 1;
      }
      NoMatch(clients, from);
    }

    /** The end of `run` after Stop: STOP to every client. */
    method BroadcastStop()
      modifies this
      ensures clients == old(clients) && sent == old(sent) + StopDatagrams(clients)
    {
      sent := sent + StopDatagrams(clients);
    }

    /** The running loop of `run`. */
    method Serve(recvs: seq<Recv>, cube: Hosts.Cube, locate: Calc<H>, compass: Compass) returns (outcome: RunOutcome)
      requires Valid()
      modifies this, shared, shared.extrapolation, shared.extrapolation.data
      ensures Valid()
      ensures (Abstract(), outcome) == ServeSpec(old(Abstract()), Environment(cube, locate, compass), recvs)
    {
      var env := Environment(cube, locate, compass);
      ghost var goal := ServeSpec(Abstract(), env, recvs);
      var i := 0;
      while i < |recvs|
        invariant 0 <= i <= |recvs|
        invariant Valid()
        invariant goal == ServeSpec(Abstract(), env, recvs[i..])
      {
        assert recvs[i..][1..] == recvs[i + 1..];
        match recvs[i] {
          case Received(from, payload, t) =>
            var stop := Handle(from, payload, t, cube, locate, compass);
            if stop {
              BroadcastStop();
              return Stopped;
            }
          case RecvFailed =>
            return RunFailed;
          case Cancelled =>
            return RunCancelled;
        }
        i := i + 1;
      }
      return Listening;
    }

    /** `run`: wait for StartServer, then serve the receives after it. */
    method Run(recvs: seq<Recv>, locate: Calc<H>, compass: Compass) returns (wait: WaitOutcome, outcome: RunOutcome)
      requires Valid()
      modifies this, shared, shared.extrapolation, shared.extrapolation.data
      ensures Valid()
      ensures wait == WaitSpec(recvs).0
      ensures var started := old(Abstract()).(sent := old(sent) + WaitSpec(recvs).1);
        if wait.Started?
        then wait.at < |recvs| && (Abstract(), outcome) == ServeSpec(started, Environment(wait.cube, locate, compass), recvs[wait.at + 1..])
        else Abstract() == started && outcome == (if wait.WaitCancelled? then RunCancelled else if wait.WaitFailed? then RunFailed else Listening)
    {
      wait := AwaitStart(recvs);
      if !wait.Started? {
        outcome := if wait.WaitCancelled? then RunCancelled else if wait.WaitFailed? then RunFailed else Listening;
        return;
      }
      StartsAtFirstStartServer(recvs);
      outcome := Serve(recvs[wait.at + 1..], wait.cube, locate, compass);
    }
  }

  lemma FirstIpMatchIs(cs: seq<Client>, ip: Bytes, i: nat)
    requires i < |cs| && HasIp(cs[i], ip)
    requires forall j :: 0 <= j < i ==> !HasIp(cs[j], ip)
    ensures FirstIpMatch(cs, ip) == Some(i)
  {
    var r := FirstIpMatch(cs, ip);
    assert r.Some?;
  }

  lemma NoIpMatch(cs: seq<Client>, ip: Bytes)
    requires forall j :: 0 <= j < |cs| ==> !HasIp(cs[j], ip)
    ensures FirstIpMatch(cs, ip).None?
  {
  }

  lemma FirstMatchIs(cs: seq<Client>, from: SocketAddr, i: nat)
    requires i < |cs| && cs[i].address == from
    requires forall j :: 0 <= j < i ==> cs[j].address != from
    ensures FirstMatch(cs, from) == Some(i)
  {
    var r := FirstMatch(cs, from);
    assert r.Some?;
  }

  lemma NoMatch(cs: seq<Client>, from: SocketAddr)
    requires forall j :: 0 <= j < |cs| ==> cs[j].address != from
    ensures FirstMatch(cs, from).None?
  {
  }

  /** `Builder::start`: the task takes the clients and settings, the shared
      part takes the position, motion data and extrapolator, and the
      service handle keeps the validity. */
  method Start<C, H>(b: Builder<C, LinearExtrapolation, H>, startTime: int) returns (bg: Background<H>, svc: LocationService<H>)
    requires b.extrapolation.Valid()
    ensures fresh(bg) && fresh(svc) && fresh(bg.shared) && svc.shared == bg.shared
    ensures bg.Valid()
    ensures bg.Abstract() == State(b.clients, b.lastKnownPos, b.motionData, b.extrapolation.history, [], [])
    ensures bg.shared.extrapolation == b.extrapolation
    ensures bg.startTime == startTime && bg.dataValidity == b.dataValidity && bg.minCameraAngleDiff == b.minCameraAngleDiff
    ensures svc.dataValidity == b.dataValidity
  {
    var shared := new Shared(b.lastKnownPos, b.motionData, b.extrapolation);
    bg := new Background(shared, b.clients, startTime, b.dataValidity, b.minCameraAngleDiff);
    svc := new LocationService(shared, b.dataValidity);
  }

  /** The handle the user keeps. */
  class LocationService<H> {
    const shared: Shared<H>
    const dataValidity: nat

    constructor (shared: Shared<H>, dataValidity: nat)
      ensures this.shared == shared && this.dataValidity == dataValidity
    {
      this.shared := shared;
      this.dataValidity := dataValidity;
    }

    /** `get_position` at `now`: nothing without a last position, when its x
      or y is NaN, or when it is older than the validity; otherwise the
      extrapolation to `now` from the two newest points, if there are two. */
    function GetPosition(now: int, lerp: Lerp): (r: Option<Position>)
      reads shared, shared.extrapolation, shared.extrapolation.data
      requires shared.extrapolation.Valid()
      ensures shared.lastKnownPos.None? ==> r.None?
      ensures shared.lastKnownPos.Some? && (IsNaN(shared.lastKnownPos.value.position.x) || IsNaN(shared.lastKnownPos.value.position.y))
        ==> r.None?
      ensures shared.lastKnownPos.Some? && now > shared.lastKnownPos.value.time + dataValidity ==> r.None?
      ensures r.Some? ==> |shared.extrapolation.history| >= 2 && var h := shared.extrapolation.history;
        r.value == lerp(h[|h| - 2], h[|h| - 1], now)
      ensures var pos := shared.lastKnownPos;
        (pos.Some? && !IsNaN(pos.value.position.x) && !IsNaN(pos.value.position.y) && now <= pos.value.time + dataValidity
         && |shared.extrapolation.history| >= 2) ==> r.Some?
    {
      match shared.lastKnownPos
      case None => None
      case Some(pos) =>
        if IsNaN(pos.position.x) || IsNaN(pos.position.y) then None
        else if now > pos.time + dataValidity then None
        else shared.extrapolation.Extrapolate(now, lerp)
    }

    /** `set_motion_hint`: with a last position, the motion data becomes the
      hint at that position (or none); without one nothing changes. */
    method SetMotionHint(hint: Option<H>)
      modifies shared
      ensures shared.lastKnownPos == old(shared.lastKnownPos) && shared.events == old(shared.events)
      ensures old(shared.lastKnownPos).None? ==> shared.motionData == old(shared.motionData)
      ensures old(shared.lastKnownPos).Some? ==>
        shared.motionData == (if hint.Some? then Some(MotionData(old(shared.lastKnownPos).value.position, hint.value)) else None)
    {
      if shared.lastKnownPos.None? {
        return;
      }
      var pos := shared.lastKnownPos.value;
      shared.motionData := if hint.Some? then Some(MotionData(pos.position, hint.value)) else None;
    }
  }

  // ----------------------------------------------------------- properties

  /** A Ping while running is answered to its sender as a Running server. */
  lemma PingAnswered<H>(s: State<H>, env: Env<H>, from: SocketAddr, t: int)
    ensures Dispatch(s, env, from, t, Hosts.Decoded(Hosts.Ping)) == s.(sent := s.sent + [Datagram(from, [0xE0])])
  {
  }

  /** Connect appends exactly one client, with the sender's address, the
      given camera and the placeholder report, and broadcasts it. */
  lemma ConnectAppends<H>(s: State<H>, env: Env<H>, from: SocketAddr, t: int, position: Position, fov: F64)
    ensures var r := Dispatch(s, env, from, t, Hosts.Decoded(Hosts.Connect(position, fov)));
      && |r.clients| == |s.clients| + 1 && r.clients[..|s.clients|] == s.clients
      && r.clients[|s.clients|].address == from && r.clients[|s.clients|].camera == PlacedCamera(position, fov)
      && r.clients[|s.clients|].lastData.value == Hosts.ClientData(F64_NAN, 255)
      && r.clients[|s.clients|].lastData.lastChanged == t - env.dataValidity
      && r.events == s.events + [Connect(from, PlacedCamera(position, fov))]
      && r.lastKnownPos == s.lastKnownPos && r.points == s.points && r.sent == s.sent
  {
    var r := Dispatch(s, env, from, t, Hosts.Decoded(Hosts.Connect(position, fov)));
    assert r.clients == s.clients + [Client(Placeholder(env.dataValidity, t), PlacedCamera(position, fov), from)];
  }

  /** The placeholder report of a new client is valid at the instant of the
      connection and at no later instant. */
  lemma PlaceholderExpires(dataValidity: nat, t: int, now: int)
    ensures Get(Placeholder(dataValidity, t), now).Some? <==> now <= t
  {
  }

  /** ValueUpdate stamps every entry of the sender, with the valid time
      kept, and leaves every other entry as it was. */
  lemma ValueUpdateStampsSender<H>(s: State<H>, env: Env<H>, from: SocketAddr, d: Hosts.ClientData, t: int)
    ensures var r := Dispatch(s, env, from, t, Hosts.Decoded(Hosts.ValueUpdate(d)));
      && |r.clients| == |s.clients| && r.sent == s.sent
      && (forall i :: 0 <= i < |s.clients| && s.clients[i].address == from ==>
            r.clients[i].lastData == TimeValidated(t, s.clients[i].lastData.validTime, d)
            && r.clients[i].camera == s.clients[i].camera && r.clients[i].address == from)
      && (forall i :: 0 <= i < |s.clients| && s.clients[i].address != from ==> r.clients[i] == s.clients[i])
  {
  }

  /** A ValueUpdate from an address with no entry changes nothing: no
      position is computed. */
  lemma UnknownSenderIgnored<H>(s: State<H>, env: Env<H>, from: SocketAddr, d: Hosts.ClientData, t: int)
    requires forall i :: 0 <= i < |s.clients| ==> s.clients[i].address != from
    ensures Dispatch(s, env, from, t, Hosts.Decoded(Hosts.ValueUpdate(d))) == s
  {
    assert StampAll(s.clients, from, d, t) == s.clients;
  }

  /** A ValueUpdate broadcasts a position exactly when the last entry of the
      sender is the entry the oldest-report scan picked and the computation
      succeeds; otherwise only the table changes. */
  lemma PositionOnlyForOldest<H>(s: State<H>, env: Env<H>, from: SocketAddr, d: Hosts.ClientData, t: int)
    ensures var r := Dispatch(s, env, from, t, Hosts.Decoded(Hosts.ValueUpdate(d)));
      var last := if s.lastKnownPos.Some? then Some(s.lastKnownPos.value.position) else None;
      var p := env.locate(env.minCameraAngleDiff, Contributions(s.clients, from, d, t), s.motionData, env.compass(t), last, env.cube);
      && (r.events != s.events <==> LastMatch(s.clients, from) == Some(OldestScan(s.clients, env.startTime).1) && p.Some?)
      && (r.events == s.events ==> r == s.(clients := StampAll(s.clients, from, d, t)))
  {
  }

  /** With a single client whose report predates the start, an update from
      it recomputes the position. */
  lemma SingleClientRecomputes<H>(s: State<H>, env: Env<H>, d: Hosts.ClientData, t: int)
    requires |s.clients| == 1 && s.clients[0].lastData.lastChanged < env.startTime
    ensures Dispatch(s, env, s.clients[0].address, t, Hosts.Decoded(Hosts.ValueUpdate(d)))
         == UpdatePositionStep(s.(clients := StampAll(s.clients, s.clients[0].address, d, t)), env, t,
                               Contributions(s.clients, s.clients[0].address, d, t))
  {
    assert s.clients[..0] == [];
    assert OldestScan(s.clients[..0], env.startTime) == (env.startTime, 0);
    assert OldestScan(s.clients, env.startTime).1 == 0;
    assert LastMatch(s.clients, s.clients[0].address) == Some(0);
  }

  /** `update_position`: a failed computation changes nothing; a computed
      position becomes the last position and the newest point, stamped with
      the receive instant, and one PositionUpdate is broadcast. */
  lemma UpdatePositionOutcome<H>(s: State<H>, env: Env<H>, t: int, data: seq<Report>)
    ensures var last := if s.lastKnownPos.Some? then Some(s.lastKnownPos.value.position) else None;
      var p := env.locate(env.minCameraAngleDiff, data, s.motionData, env.compass(t), last, env.cube);
      var r := UpdatePositionStep(s, env, t, data);
      && (p.None? ==> r == s)
      && (p.Some? ==>
            && r.lastKnownPos == Some(TimedPosition(env.startTime, None, t, p.value))
            && r.points == s.points + [TimedPosition(env.startTime, None, t, p.value)]
            && r.events == s.events + [PositionUpdate(p.value)]
            && r.clients == s.clients && r.sent == s.sent && r.motionData == s.motionData)
  {
  }

  /** InfoUpdate changes the camera of the first client with that IP (the
      position always, the fov when given) and broadcasts it; with no such
      client nothing changes. */
  lemma InfoUpdateFirstMatch<H>(s: State<H>, env: Env<H>, from: SocketAddr, t: int, ip: Bytes, position: Position, fov: Option<F64>)
    ensures var r := Dispatch(s, env, from, t, Hosts.Decoded(Hosts.InfoUpdate(ip, position, fov)));
      match FirstIpMatch(s.clients, ip)
      case None => r == s
      case Some(i) =>
        && |r.clients| == |s.clients|
        && r.clients[i].camera.position == position
        && r.clients[i].camera.fov == (if fov.Some? then fov.value else s.clients[i].camera.fov)
        && r.clients[i].address == s.clients[i].address && r.clients[i].lastData == s.clients[i].lastData
        && (forall j :: 0 <= j < |s.clients| && j != i ==> r.clients[j] == s.clients[j])
        && r.events == s.events + [InfoUpdate(s.clients[i].address, r.clients[i].camera)]
  {
  }

  /** ClientDisconnect removes the first entry of the sender, keeps the
      others in order and broadcasts the sender's address; without an entry
      nothing changes. */
  lemma DisconnectRemovesFirst<H>(s: State<H>, env: Env<H>, from: SocketAddr, t: int)
    ensures var r := Dispatch(s, env, from, t, Hosts.Decoded(Hosts.ClientDisconnect));
      match FirstMatch(s.clients, from)
      case None => r == s
      case Some(i) =>
        && |r.clients| == |s.clients| - 1
        && r.clients == s.clients[..i] + s.clients[i + 1..]
        && r.events == s.events + [Disconnect(from)]
        && r.sent == s.sent && r.lastKnownPos == s.lastKnownPos
  {
  }

  /** As written, the Disconnect event of the first of two clients names the
      second one, and disconnecting the only client panics. */
  lemma DisconnectAsWrittenMisreports<H>(s: State<H>, a: Client, b: Client)
    requires a.address != b.address
    ensures var s2 := s.(clients := [a, b]);
      DisconnectAsWritten(s2, a.address) == Some(s.(clients := [b], events := s.events + [Disconnect(b.address)]))
    ensures DisconnectAsWritten(s.(clients := [a]), a.address).None?
    ensures DisconnectStep(s.(clients := [a, b]), a.address).events == s.events + [Disconnect(a.address)]
  {
    var s2 := s.(clients := [a, b]);
    assert FirstMatch(s2.clients, a.address) == Some(0);
    assert s2.clients[..0] + s2.clients[1..] == [b];
    assert FirstMatch([a], a.address) == Some(0);
  }

  /** Stop ends the loop from any sender: the rest of the receives is not
      read, and STOP goes to every client in the table. */
  lemma StopBroadcasts<H>(s: State<H>, env: Env<H>, from: SocketAddr, payload: Bytes, t: int, rest: seq<Recv>)
    requires Command(payload) == Hosts.Decoded(Hosts.Stop)
    ensures var (r, outcome) := ServeSpec(s, env, [Received(from, payload, t)] + rest);
      && outcome == Stopped && r.clients == s.clients && r.events == s.events
      && |r.sent| == |s.sent| + |s.clients| && r.sent[..|s.sent|] == s.sent
      && forall i :: 0 <= i < |s.clients| ==> r.sent[|s.sent| + i] == Datagram(s.clients[i].address, [Hosts.STOP])
  {
    assert ([Received(from, payload, t)] + rest)[0] == Received(from, payload, t);
  }

  /** The table only grows by Connect, shrinks by ClientDisconnect, and
      keeps its length otherwise. */
  lemma TableSize<H>(s: State<H>, env: Env<H>, from: SocketAddr, t: int, d: Hosts.Decoded)
    ensures var n := |Dispatch(s, env, from, t, d).clients|;
      && (d.Decoded? && d.cmd.Connect? ==> n == |s.clients| + 1)
      && (d.Decoded? && d.cmd.ClientDisconnect? ==> n == |s.clients| - (if FirstMatch(s.clients, from).Some? then 1 else 0))
      && (!(d.Decoded? && (d.cmd.Connect? || d.cmd.ClientDisconnect?)) ==> n == |s.clients|)
  {
    if d.Decoded? && d.cmd.ValueUpdate? {
      var s1 := s.(clients := StampAll(s.clients, from, d.cmd.data, t));
      UpdatePositionOutcome(s1, env, t, Contributions(s.clients, from, d.cmd.data, t));
    }
  }
}
