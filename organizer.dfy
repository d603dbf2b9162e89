/**
  The organizer of `organizer/src/lib.rs`: its host table, the server
  lookup, stopping a host, the network scan that merges status replies into
  the table, the image loop of `start_host`, the framing of a received image
  and the configuration it writes to a client.
 */
module Organizer {
  import opened Wire
  import opened Positions
  import CameraInfo
  import CommonHosts
  import Client
  import opened HostTable

  // ----------------------------------------------------------------- hosts

  const SPACE: byte := 0x20

  function StateName(s: CommonHosts.HostState): (r: Bytes)
    ensures |r| > 0 && IsAscii(r)
  {
    match s
    case Unreachable => AsciiBytes("Unreachable")
    case Running => AsciiBytes("Running")
    case Idle => AsciiBytes("Idle")
  }

  /** The word that opens a host's line: configless clients are phones. */
  function TypeWord(t: CommonHosts.HostType): (r: Bytes)
    ensures |r| > 0 && IsAscii(r)
  {
    match t
    case Client(_) => AsciiBytes("CLIENT ")
    case ConfiglessClient => AsciiBytes("PHONE ")
    case Server => AsciiBytes("SERVER ")
  }

  /** What follows the address: " CALIBRATED" for a calibrated client, then
      the state's name. */
  function Suffix(info: CommonHosts.HostInfo): (r: Bytes)
    ensures IsAscii(r) && |r| > |StateName(info.hostState)|
    ensures r[|r| - |StateName(info.hostState)|..] == StateName(info.hostState)
  {
    var calibrated := if info.hostType.Client? && info.hostType.calibrated then AsciiBytes(" CALIBRATED") else [];
    var name := StateName(info.hostState);
    AsciiConcat(calibrated, [SPACE]);
    AsciiConcat(calibrated + [SPACE], name);
    Split(calibrated + [SPACE], name);
    calibrated + [SPACE] + name
  }

  /** `Display for Host`: the type word and the address, then the suffix. */
  function Display(h: Host): (r: Bytes)
    ensures IsAscii(r)
    ensures |r| == |TypeWord(h.info.hostType)| + |Ipv4ToString(h.ip)| + |Suffix(h.info)|
    ensures r[..|TypeWord(h.info.hostType)|] == TypeWord(h.info.hostType)
    ensures r[|TypeWord(h.info.hostType)|..|r| - |Suffix(h.info)|] == Ipv4ToString(h.ip)
    ensures r[|r| - |Suffix(h.info)|..] == Suffix(h.info)
  {
    var w := TypeWord(h.info.hostType);
    var ip := Ipv4ToString(h.ip);
    var tail := Suffix(h.info);
    AsciiConcat(ip, tail);
    AsciiConcat(w, ip + tail);
    Split3(w, ip, tail);
    w + (ip + tail)
  }

  /** The first byte of a host's line tells its type apart. */
  lemma DisplayTellsType(h1: Host, h2: Host)
    requires h1.info.hostType.Client? != h2.info.hostType.Client? || h1.info.hostType.Server? != h2.info.hostType.Server?
    ensures Display(h1)[0] != Display(h2)[0]
  {
    assert Display(h1)[0] == TypeWord(h1.info.hostType)[0];
    assert Display(h2)[0] == TypeWord(h2.info.hostType)[0];
  }

  // ---------------------------------------------------------- server lookup

  /** What the source's `get_server` matches: an Idle client or configless client. */
  predicate IdleClient(info: CommonHosts.HostInfo) {
    (info.hostType.Client? || info.hostType.ConfiglessClient?) && info.hostState == CommonHosts.Idle
  }

  /** A lone running server is not found by the lookup as written, and a lone
      idle client is returned as the server. */
  lemma GetServerMissesServers(s: Host, c: Host)
    requires s.info == CommonHosts.HostInfo(CommonHosts.Running, CommonHosts.Server)
    requires c.info == CommonHosts.HostInfo(CommonHosts.Idle, CommonHosts.Client(false))
    ensures Search([s], IdleClient) == NoServer
    ensures Search([c], IdleClient) == Found(0)
    ensures Search([s], LiveServer) == Found(0)
    ensures Search([c], LiveServer) == NoServer
  {
    assert [s][..0] == [] && [c][..0] == [];
  }

  /** The UDP broadcast address `255.255.255.255`. */
  const BROADCAST: Ipv4 := Ipv4(255, 255, 255, 255)

  datatype StopResult = Stopped | NotRunning(host: Host) | StopPanicked

  /** One result of the scan's `recv_from`: a datagram from an address (an
      IPv6 sender has no IPv4 address), or an error. The socket's 500 ms read
      timeout is such an error; `Receives` derives these results from the
      replies' arrival times. */
  datatype ScanEvent = Reply(from: Option<Ipv4>, payload: Bytes) | ScanRecvError

  /** The socket's read timeout `TIMEOUT_DURATION` and the scan window
      `WAIT_DURATION`, four timeouts, in milliseconds. */
  const TIMEOUT_MS: nat := 500
  const WAIT_MS: nat := 4 * TIMEOUT_MS

  /** A datagram that arrives `at` milliseconds after the scan started. */
  datatype TimedReply = TimedReply(at: nat, from: Option<Ipv4>, payload: Bytes)

  /** The organizer state: the host table, the datagrams sent so far, the
      shared receive buffer and the cube the server is started with. */
  class Organizer {
    var hosts: seq<Host>
    var sent: seq<Datagram>
    const buffer: array<byte>
    const cube: CommonHosts.Cube

    /** `Organizer::start`: an empty host table. */
    constructor (bufferSize: nat, cube: CommonHosts.Cube)
      ensures hosts == [] && sent == [] && buffer.Length == bufferSize && this.cube == cube
      ensures fresh(buffer)
    {
      hosts := [];
      sent := [];
      buffer := new byte[bufferSize];
      this.cube := cube;
    }

    /** `get_server` as written: it looks for an Idle client. */
    method GetServer() returns (si: ServerSearch)
      ensures si == Search(hosts, IdleClient)
      ensures si.Found? <==> Count(hosts, IdleClient) == 1
      ensures si.Found? ==> IdleClient(hosts[si.index].info)
      ensures si.Multiple? ==> si.others == Count(hosts, IdleClient) - 1
    {
      si := Lookup(hosts, IdleClient);
      SearchCounts(hosts, IdleClient);
    }

    /** The server lookup as evidently intended, the one of `src/utils.rs`:
        it matches a Running or Idle server. The rest of this model uses it. */
    method GetServerCorrected() returns (si: ServerSearch)
      ensures si == Search(hosts, LiveServer)
      ensures si.Found? <==> Count(hosts, LiveServer) == 1
      ensures si.Found? ==> LiveServer(hosts[si.index].info)
      ensures si.Multiple? ==> si.others == Count(hosts, LiveServer) - 1
    {
      si := HostTable.GetServer(hosts);
    }

    /** `stop_host`: only a Running host is stopped; after sending STOP the
        first equal host is removed, and a host not in the table panics. */
    method StopHost(host: Host) returns (r: StopResult)
      modifies this
      ensures host.info.hostState != CommonHosts.Running ==> r == NotRunning(host) && hosts == old(hosts) && sent == old(sent)
      ensures host.info.hostState == CommonHosts.Running ==>
        sent == old(sent) + [Datagram(SocketAddr(host.ip, CommonHosts.MAIN_PORT), [CommonHosts.STOP])]
      ensures host.info.hostState == CommonHosts.Running ==> (r == Stopped <==> host in old(hosts))
      ensures r == Stopped ==> hosts == RemoveFirst(old(hosts), host)
      ensures r != Stopped ==> hosts == old(hosts)
    {
      if host.info.hostState != CommonHosts.Running {
        return NotRunning(host);
      }
      sent := sent + [Datagram(SocketAddr(host.ip, CommonHosts.MAIN_PORT), [CommonHosts.STOP])];
      var at := IndexOf(hosts, host);
      if at.None? {
        return StopPanicked;
      }
      hosts := hosts[..at.value] + hosts[at.value + 1..];
      r := Stopped;
    }

    /** `scan`: broadcast a Ping, merge every one-byte status reply into the
        table until the receives run out, then mark the hosts that were in the
        table before and did not reply as Unreachable. */
    /** The body of the scan loop for one reply: a one-byte status from an
        IPv4 sender updates the first pre-scan host with that address and
        flags it, or is appended as a new host. */
    method MergeReply(hit: array<bool>, from: Option<Ipv4>, payload: Bytes)
      requires hit.Length <= |hosts|
      modifies this, hit
      ensures sent == old(sent)
      ensures (hosts, hit[..]) == ScanStep(old(hosts), old(hit[..]), from, payload, buffer.Length)
    {
      var b := Truncated(payload, buffer.Length);
      if |b| == 1 && from.Some? && CommonHosts.DecodeHostInfo(b[0]).Some? {
        var info := CommonHosts.DecodeHostInfo(b[0]).value;
        var found := FindHost(hosts, hit.Length, from.value);
        if found.Some? {
          hit[found.value] := true;
          hosts := hosts[found.value := Host(info, hosts[found.value].ip)];
        } else {
          hosts := hosts + [Host(info, from.value)];
        }
      }
    }

    method Scan(replies: seq<TimedReply>) returns (ok: bool)
      modifies this
      ensures sent == old(sent) + [Datagram(SocketAddr(BROADCAST, CommonHosts.MAIN_PORT), [CommonHosts.PING])]
      ensures (ok, hosts) == ScanSpec(old(hosts), Receives(0, replies), buffer.Length)
    {
      sent := sent + [Datagram(SocketAddr(BROADCAST, CommonHosts.MAIN_PORT), [CommonHosts.PING])];
      var n := |hosts|;
      var hit := new bool[n](_ => false);
      assert hit[..] == NoneHit(n);
      ghost var target := ScanLoop(hosts, NoneHit(n), Receives(0, replies), buffer.Length);
      assert ScanSpec(old(hosts), Receives(0, replies), buffer.Length)
        == (target.0, if target.0 then MarkUnreached(target.1, target.2) else target.1);
      var now: nat, i := 0, 0;
      while now < WAIT_MS
        invariant 0 <= i <= |replies| && n <= |hosts| && hit.Length == n
        invariant sent == old(sent) + [Datagram(SocketAddr(BROADCAST, CommonHosts.MAIN_PORT), [CommonHosts.PING])]
        invariant target == ScanLoop(hosts, hit[..], Receives(now, replies[i..]), buffer.Length)
        decreases |replies| - i
      {
        if i == |replies| || replies[i].at > now + TIMEOUT_MS {
          assert Receives(now, replies[i..]) == [ScanRecvError];
          assert target == (false, hosts, hit[..]);
          return false;
        }
        ScanLoopOnReply(hosts, hit[..], now, replies[i..], buffer.Length);
        assert replies[i..][1..] == replies[i + 1..];
        MergeReply(hit, replies[i].from, replies[i].payload);
        now := if replies[i].at > now then replies[i].at else now;
        i := i + 1;
      }
      assert Receives(now, replies[i..]) == [];
      assert target == (true, hosts, hit[..]);
      MarkUnreachedHosts(hit);
      ok := true;
    }

    /** The pass after the receive loop: every pre-scan host without a reply
        becomes Unreachable. */
    method MarkUnreachedHosts(hit: array<bool>)
      requires hit.Length <= |hosts|
      modifies this
      ensures sent == old(sent)
      ensures hosts == MarkUnreached(old(hosts), hit[..])
    {
      ghost var merged := hosts;
      var j := 0;
      while j < hit.Length
        invariant 0 <= j <= hit.Length && |hosts| == |merged| && sent == old(sent)
        invariant forall k :: 0 <= k < |hosts| ==> hosts[k] == if k < j && !hit[k] then Unreached(merged[k]) else merged[k]
      {
        if !hit[j] {
          hosts := hosts[j := Unreached(hosts[j])];
        }
        j := j + 1;
      }
      assert hosts == MarkUnreached(merged, hit[..]);
    }
  }

  /** The first index of `host` in `hosts` (`iter().position`). */
  function IndexOf(hosts: seq<Host>, host: Host): (r: Option<nat>)
    ensures r.Some? ==> r.value < |hosts| && hosts[r.value] == host && host !in hosts[..r.value]
    ensures r.None? <==> host !in hosts
  {
    if hosts == [] then None
    else if hosts[0] == host then Some(0)
    else
      var r := IndexOf(hosts[1..], host);
      assert hosts == [hosts[0]] + hosts[1..];
      if r.None? then None
      else
        assert hosts[..r.value + 1] == [hosts[0]] + hosts[1..][..r.value];
        Some(r.value + 1)
  }

  function RemoveFirst(hosts: seq<Host>, host: Host): seq<Host>
    requires host in hosts
  {
    var i := IndexOf(hosts, host).value;
    hosts[..i] + hosts[i + 1..]
  }

  /** Stopping removes exactly one copy of the host and keeps the others in order. */
  lemma RemoveFirstRemovesOne(hosts: seq<Host>, host: Host)
    requires host in hosts
    ensures multiset(RemoveFirst(hosts, host)) == multiset(hosts) - multiset{host}
    ensures |RemoveFirst(hosts, host)| == |hosts| - 1
  {
    var i := IndexOf(hosts, host).value;
    assert hosts == hosts[..i] + [host] + hosts[i + 1..];
  }

  // ------------------------------------------------------------------- scan

  function NoneHit(n: nat): (r: seq<bool>)
    ensures |r| == n && forall i :: 0 <= i < n ==> !r[i]
  {
    seq(n, _ => false)
  }

  /** The host with the address `ip` among the first `n` entries: the zip
      with `hit_hosts` stops after them. */
  function FindHost(hosts: seq<Host>, n: nat, ip: Ipv4): (r: Option<nat>)
    requires n <= |hosts|
    ensures r.Some? ==> r.value < n && hosts[r.value].ip == ip && forall j :: 0 <= j < r.value ==> hosts[j].ip != ip
    ensures r.None? ==> forall j :: 0 <= j < n ==> hosts[j].ip != ip
  {
    if n == 0 then None
    else
      var r := FindHost(hosts, n - 1, ip);
      if r.Some? then r
      else if hosts[n - 1].ip == ip then Some(n - 1)
      else None
  }

  /** A host that did not answer: its type and calibrated flag kept, its
      state Unreachable. */
  function Unreached(h: Host): (r: Host)
    ensures r.ip == h.ip && r.info.hostType == h.info.hostType && r.info.hostState == CommonHosts.Unreachable
  {
    Host(CommonHosts.HostInfo(CommonHosts.Unreachable, h.info.hostType), h.ip)
  }

  /** One receive of the scan loop with `hit` the reply flags of the
      pre-scan hosts. */
  function ScanStep(hosts: seq<Host>, hit: seq<bool>, from: Option<Ipv4>, payload: Bytes, bufferSize: nat): (r: (seq<Host>, seq<bool>))
    requires |hit| <= |hosts|
    ensures |r.1| == |hit| && |r.0| >= |hosts|
    ensures forall k :: 0 <= k < |hosts| ==> r.0[k].ip == hosts[k].ip
  {
    var b := Truncated(payload, bufferSize);
    if |b| != 1 || from.None? || CommonHosts.DecodeHostInfo(b[0]).None? then (hosts, hit)
    else
      var info := CommonHosts.DecodeHostInfo(b[0]).value;
      match FindHost(hosts, |hit|, from.value)
      case Some(i) => (hosts[i := Host(info, hosts[i].ip)], hit[i := true])
      case None => (hosts + [Host(info, from.value)], hit)
  }

  /** The receive loop of `scan`: false when a receive error aborts it. */
  function ScanLoop(hosts: seq<Host>, hit: seq<bool>, events: seq<ScanEvent>, bufferSize: nat): (r: (bool, seq<Host>, seq<bool>))
    requires |hit| <= |hosts|
    ensures |r.2| == |hit| && |r.1| >= |hosts|
    ensures forall k :: 0 <= k < |hosts| ==> r.1[k].ip == hosts[k].ip
    decreases |events|
  {
    if events == [] then (true, hosts, hit)
    else match events[0]
      case ScanRecvError => (false, hosts, hit)
      case Reply(from, payload) =>
        var (hosts', hit') := ScanStep(hosts, hit, from, payload, bufferSize);
        ScanLoop(hosts', hit', events[1..], bufferSize)
  }

  /** The pass after the loop: every pre-scan host without a reply becomes Unreachable. */
  function MarkUnreached(hosts: seq<Host>, hit: seq<bool>): (r: seq<Host>)
    requires |hit| <= |hosts|
    ensures |r| == |hosts|
    ensures forall k :: 0 <= k < |hosts| ==> r[k] == if k < |hit| && !hit[k] then Unreached(hosts[k]) else hosts[k]
  {
    seq(|hosts|, k requires 0 <= k < |hosts| => if k < |hit| && !hit[k] then Unreached(hosts[k]) else hosts[k])
  }

  /** `scan` on the table `hosts`: whether it succeeded and the new table. */
  function ScanSpec(hosts: seq<Host>, events: seq<ScanEvent>, bufferSize: nat): (r: (bool, seq<Host>))
    ensures |r.1| >= |hosts| && forall k :: 0 <= k < |hosts| ==> r.1[k].ip == hosts[k].ip
  {
    var (ok, hosts', hit) := ScanLoop(hosts, NoneHit(|hosts|), events, bufferSize);
    (ok, if ok then MarkUnreached(hosts', hit) else hosts')
  }

  /** The receive results of the scan loop at `now` ms into the scan, when
      the replies arrive in the order and at the instants of `replies` and
      handling one takes no time: once the window has passed, the loop ends;
      a receive that would wait longer than the read timeout fails; otherwise
      it takes the next reply, no earlier than that reply arrives. */
  function Receives(now: nat, replies: seq<TimedReply>): (r: seq<ScanEvent>)
    ensures |r| <= |replies| + 1
    ensures forall k :: 0 <= k < |r| - 1 ==> r[k].Reply?
    decreases |replies|
  {
    if now >= WAIT_MS then []
    else if replies == [] || replies[0].at > now + TIMEOUT_MS then [ScanRecvError]
    else
      var now' := if replies[0].at > now then replies[0].at else now;
      [Reply(replies[0].from, replies[0].payload)] + Receives(now', replies[1..])
  }

  /** Before the deadline, a reply within the timeout is the next result. */
  lemma ReceivesReply(now: nat, replies: seq<TimedReply>)
    requires now < WAIT_MS && replies != [] && replies[0].at <= now + TIMEOUT_MS
    ensures Receives(now, replies) == [Reply(replies[0].from, replies[0].payload)]
      + Receives(if replies[0].at > now then replies[0].at else now, replies[1..])
  {
  }

  /** Before the deadline, a reply within the timeout is merged and the loop
      goes on from its arrival. */
  lemma ScanLoopOnReply(hosts: seq<Host>, hit: seq<bool>, now: nat, replies: seq<TimedReply>, bufferSize: nat)
    requires |hit| <= |hosts| && now < WAIT_MS && replies != [] && replies[0].at <= now + TIMEOUT_MS
    ensures var step := ScanStep(hosts, hit, replies[0].from, replies[0].payload, bufferSize);
      var now' := if replies[0].at > now then replies[0].at else now;
      ScanLoop(hosts, hit, Receives(now, replies), bufferSize) == ScanLoop(step.0, step.1, Receives(now', replies[1..]), bufferSize)
  {
    ReceivesReply(now, replies);
    var now' := if replies[0].at > now then replies[0].at else now;
    var e := Receives(now, replies);
    assert e[0] == Reply(replies[0].from, replies[0].payload);
    assert e[1..] == Receives(now', replies[1..]);
  }

  /** Every result is a reply: no receive failed. */
  predicate AllReplies(events: seq<ScanEvent>) {
    forall k :: 0 <= k < |events| ==> events[k].Reply?
  }

  /** The receive loop runs to its end exactly when no receive fails. */
  lemma {:induction false} ScanLoopOk(hosts: seq<Host>, hit: seq<bool>, events: seq<ScanEvent>, bufferSize: nat)
    requires |hit| <= |hosts|
    ensures ScanLoop(hosts, hit, events, bufferSize).0 <==> AllReplies(events)
    decreases |events|
  {
    if events != [] {
      match events[0]
      case ScanRecvError =>
      case Reply(from, payload) =>
        var (hosts', hit') := ScanStep(hosts, hit, from, payload, bufferSize);
        ScanLoopOk(hosts', hit', events[1..], bufferSize);
        assert forall k :: 1 <= k < |events| ==> events[k] == events[1..][k - 1];
    }
  }

  /** The loop always receives at least once, so with no reply at all the
      first receive times out and the scan fails, leaving the table as it
      was. */
  lemma SilenceTimesOut(hosts: seq<Host>, bufferSize: nat)
    ensures Receives(0, []) == [ScanRecvError]
    ensures ScanSpec(hosts, Receives(0, []), bufferSize) == (false, hosts)
  {
  }

  /** A scan that ends normally received a reply at or after the deadline:
      otherwise some receive before the deadline would time out. */
  lemma {:induction false} ScanNeedsLateReply(hosts: seq<Host>, now: nat, replies: seq<TimedReply>, bufferSize: nat)
    requires now < WAIT_MS
    requires ScanSpec(hosts, Receives(now, replies), bufferSize).0
    ensures exists k :: 0 <= k < |replies| && replies[k].at >= WAIT_MS
  {
    ReceivesEndsLate(now, replies);
    ScanLoopOk(hosts, NoneHit(|hosts|), Receives(now, replies), bufferSize);
  }

  lemma {:induction false} ReceivesEndsLate(now: nat, replies: seq<TimedReply>)
    requires now < WAIT_MS
    ensures AllReplies(Receives(now, replies)) ==> exists k :: 0 <= k < |replies| && replies[k].at >= WAIT_MS
    decreases |replies|
  {
    if replies != [] && replies[0].at <= now + TIMEOUT_MS {
      var now' := if replies[0].at > now then replies[0].at else now;
      ReceivesReply(now, replies);
      var r := Receives(now, replies);
      if now' < WAIT_MS && AllReplies(r) {
        var rest := Receives(now', replies[1..]);
        assert forall k :: 0 <= k < |rest| ==> rest[k] == r[k + 1];
        assert AllReplies(rest);
        ReceivesEndsLate(now', replies[1..]);
        var k :| 0 <= k < |replies[1..]| && replies[1..][k].at >= WAIT_MS;
        assert replies[k + 1].at >= WAIT_MS;
      } else if now' >= WAIT_MS {
        assert replies[0].at >= WAIT_MS;
      }
    } else {
      assert !Receives(now, replies)[0].Reply?;
    }
  }

  /** Replies that come in step, each within the timeout of the one before,
      until one at or after the deadline, are each received in turn, and the
      scan ends normally. */
  lemma PacedScanSucceeds(hosts: seq<Host>, now: nat, replies: seq<TimedReply>, bufferSize: nat)
    requires replies != [] && now < WAIT_MS && now <= replies[0].at <= now + TIMEOUT_MS
    requires Paced(replies)
    ensures Receives(now, replies) == ReceivedAll(replies)
    ensures ScanSpec(hosts, Receives(now, replies), bufferSize).0
  {
    PacedReceives(now, replies);
    ScanLoopOk(hosts, NoneHit(|hosts|), ReceivedAll(replies), bufferSize);
  }

  /** Each reply within the timeout of the one before, all before the
      deadline but the last, which is at or after it. */
  predicate Paced(replies: seq<TimedReply>) {
    && replies != []
    && (forall k :: 0 <= k < |replies| - 1 ==>
         replies[k].at < WAIT_MS && replies[k].at <= replies[k + 1].at <= replies[k].at + TIMEOUT_MS)
    && replies[|replies| - 1].at >= WAIT_MS
  }

  /** Every reply, received in order. */
  function ReceivedAll(replies: seq<TimedReply>): (r: seq<ScanEvent>)
    ensures |r| == |replies| && forall k :: 0 <= k < |r| ==> r[k] == Reply(replies[k].from, replies[k].payload)
  {
    seq(|replies|, k requires 0 <= k < |replies| => Reply(replies[k].from, replies[k].payload))
  }

  lemma {:induction false} PacedReceives(now: nat, replies: seq<TimedReply>)
    requires now < WAIT_MS && Paced(replies) && now <= replies[0].at <= now + TIMEOUT_MS
    ensures Receives(now, replies) == ReceivedAll(replies)
    decreases |replies|
  {
    ReceivesReply(now, replies);
    var tail := replies[1..];
    if tail == [] {
      assert Receives(replies[0].at, tail) == [];
    } else {
      assert forall k :: 0 <= k < |tail| ==> tail[k] == replies[k + 1];
      assert tail[|tail| - 1] == replies[|replies| - 1];
      assert Paced(tail);
      PacedReceives(replies[0].at, tail);
    }
    assert ReceivedAll(replies) == [Reply(replies[0].from, replies[0].payload)] + ReceivedAll(tail);
  }

  /** A receive error, the read timeout included, aborts the scan before the
      Unreachable pass, keeping the table as merged so far. */
  lemma ScanErrorAborts(hosts: seq<Host>, events: seq<ScanEvent>, bufferSize: nat)
    requires events != [] && events[0] == ScanRecvError
    ensures ScanSpec(hosts, events, bufferSize) == (false, hosts)
  {
  }

  /** A reply of any other length than one byte, an IPv6 sender, or a byte
      that is not a status is ignored. */
  lemma ScanIgnores(hosts: seq<Host>, hit: seq<bool>, from: Option<Ipv4>, payload: Bytes, rest: seq<ScanEvent>, bufferSize: nat)
    requires |hit| <= |hosts|
    requires |Truncated(payload, bufferSize)| != 1 || from.None? || CommonHosts.DecodeHostInfo(payload[0]).None?
    ensures ScanLoop(hosts, hit, [Reply(from, payload)] + rest, bufferSize) == ScanLoop(hosts, hit, rest, bufferSize)
  {
    assert ([Reply(from, payload)] + rest)[1..] == rest;
  }

  /** The Unreachable pass on its own, as when the window has passed before
      any receive: every host becomes Unreachable, keeping its type and
      address. `scan` itself always receives once, so silence times out
      instead (`SilenceTimesOut`). */
  lemma ScanSilence(hosts: seq<Host>, bufferSize: nat)
    ensures ScanSpec(hosts, [], bufferSize).0
    ensures forall k :: 0 <= k < |hosts| ==> ScanSpec(hosts, [], bufferSize).1[k] == Unreached(hosts[k])
  {
  }

  /** A status reply from a host of the table overwrites that host's status,
      and when the window closes after it the Unreachable pass leaves it
      alone. From the start of a scan the window closes only after replies
      that span it (`ScanNeedsLateReply`, `PacedScanSucceeds`). */
  lemma ScanReplyOverwrites(hosts: seq<Host>, i: nat, v: byte, bufferSize: nat)
    requires i < |hosts| && forall j :: 0 <= j < i ==> hosts[j].ip != hosts[i].ip
    requires bufferSize >= 1 && CommonHosts.DecodeHostInfo(v).Some?
    ensures var (ok, hosts') := ScanSpec(hosts, [Reply(Some(hosts[i].ip), [v])], bufferSize);
      ok && |hosts'| == |hosts| && hosts'[i] == Host(CommonHosts.DecodeHostInfo(v).value, hosts[i].ip)
  {
    var hit := NoneHit(|hosts|);
    var (h1, hit1) := ScanStep(hosts, hit, Some(hosts[i].ip), [v], bufferSize);
    assert FindHost(hosts, |hit|, hosts[i].ip) == Some(i);
    assert ScanLoop(hosts, hit, [Reply(Some(hosts[i].ip), [v])], bufferSize) == ScanLoop(h1, hit1, [], bufferSize);
    assert hit1[i];
  }

  /** The lookup covers only the hosts known before the scan: a new address
      that replies twice is appended twice. */
  lemma ScanDuplicates(hosts: seq<Host>, ip: Ipv4, v: byte, bufferSize: nat)
    requires forall j :: 0 <= j < |hosts| ==> hosts[j].ip != ip
    requires bufferSize >= 1 && CommonHosts.DecodeHostInfo(v).Some?
    ensures var h := Host(CommonHosts.DecodeHostInfo(v).value, ip);
      ScanSpec(hosts, [Reply(Some(ip), [v]), Reply(Some(ip), [v])], bufferSize) == (true, MarkUnreached(hosts, NoneHit(|hosts|)) + [h, h])
  {
    var h := Host(CommonHosts.DecodeHostInfo(v).value, ip);
    var hit := NoneHit(|hosts|);
    var events := [Reply(Some(ip), [v]), Reply(Some(ip), [v])];
    assert Truncated([v], bufferSize) == [v];
    assert FindHost(hosts, |hit|, ip).None?;
    assert ScanStep(hosts, hit, Some(ip), [v], bufferSize) == (hosts + [h], hit);
    assert forall j :: 0 <= j < |hit| ==> (hosts + [h])[j].ip != ip;
    assert FindHost(hosts + [h], |hit|, ip).None?;
    assert hosts + [h] + [h] == hosts + [h, h];
    assert ScanStep(hosts + [h], hit, Some(ip), [v], bufferSize) == (hosts + [h, h], hit);
    assert events[1..][1..] == [];
    assert ScanLoop(hosts + [h, h], hit, [], bufferSize) == (true, hosts + [h, h], hit);
    assert ScanLoop(hosts + [h], hit, events[1..], bufferSize) == (true, hosts + [h, h], hit);
    assert ScanLoop(hosts, hit, events, bufferSize) == (true, hosts + [h, h], hit);
    var m := MarkUnreached(hosts + [h, h], hit);
    assert forall k :: 0 <= k < |m| ==> m[k] == (MarkUnreached(hosts, hit) + [h, h])[k];
    assert m == MarkUnreached(hosts, hit) + [h, h];
  }

  // ------------------------------------------------------- images and config

  datatype ImageRead = ImageOk(jpeg: Bytes) | ImageIoError | ImagePanic

  /** `get_image` on a stream holding `s`, with a shared buffer of
      `bufferSize` bytes: a big-endian u64 length, then that many bytes of
      encoded image. A buffer shorter than 8 bytes panics when sliced. */
  function GetImageSpec(s: Bytes, bufferSize: nat): (res: (ImageRead, Bytes))
    ensures res.0.ImageOk? ==> |s| >= 8 + |res.0.jpeg| && U64FromBytes(s[..8]) == |res.0.jpeg|
    ensures |res.1| <= |s|
  {
    if bufferSize < 8 then (ImagePanic, s)
    else if |s| < 8 then (ImageIoError, [])
    else
      var len := U64FromBytes(s[..8]);
      var t := s[8..];
      if |t| < len then (ImageIoError, []) else (ImageOk(t[..len]), t[len..])
  }

  /** Reading an image only consumes the stream: what is left is a suffix. */
  lemma GetImageLeavesSuffix(s: Bytes, bufferSize: nat)
    ensures var rest := GetImageSpec(s, bufferSize).1; rest == s[|s| - |rest|..]
  {
    if bufferSize >= 8 && |s| >= 8 {
      var len := U64FromBytes(s[..8]);
      if |s[8..]| >= len {
        assert s[8..][len..] == s[8 + len..];
      }
    }
  }

  /** A client's image frame (`total.to_be_bytes()` and the bytes) reads back
      as that image, leaving the rest of the stream. */
  lemma ImageFramingRoundTrip(jpeg: Bytes, rest: Bytes, bufferSize: nat)
    requires |jpeg| < 0x1_0000_0000_0000_0000 && bufferSize >= 8
    ensures GetImageSpec(U64ToBytes(|jpeg|) + jpeg + rest, bufferSize) == (ImageOk(jpeg), rest)
  {
    var s := U64ToBytes(|jpeg|) + jpeg + rest;
    assert s[..8] == U64ToBytes(|jpeg|);
    assert s[8..] == jpeg + rest;
    U64RoundTrip(|jpeg|);
  }

  /** What the operator's interface answers after an image: whether the board
      was found and the image is to be kept (calibrating only), and `more()`. */
  datatype ImageAnswer = ImageAnswer(boardFound: bool, keep: bool, more: bool)

  datatype ImageLoopEnd = ImagesDone(kept: nat) | ImageFailed(read: ImageRead) | AnswersExhausted

  /** The image loop of `start_host` on a client stream holding `s`: how it
      ends, what it writes and what the stream still holds. Calibrating, it
      ends only once an image is kept and `more()` is false; showing, when
      `more()` is false. */
  function ImageLoopSpec(s: Bytes, bufferSize: nat, calibrating: bool, answers: seq<ImageAnswer>, kept: nat)
    : (res: (ImageLoopEnd, Bytes, Bytes))
    ensures |res.2| <= |s|
    ensures res.0.ImageFailed? ==> !res.0.read.ImageOk?
  {
    if answers == [] then (AnswersExhausted, [], s)
    else
      var (img, s1) := GetImageSpec(s, bufferSize);
      if !img.ImageOk? then (ImageFailed(img), [CommonHosts.REQUEST_IMAGE], s1)
      else
        var a := answers[0];
        var kept' := if calibrating && a.boardFound && a.keep then kept + 1 else kept;
        var exit := if calibrating then kept' > 0 && !a.more else !a.more;
        if exit then (ImagesDone(kept'), [CommonHosts.REQUEST_IMAGE, CommonHosts.IMAGES_DONE], s1)
        else
          var (e, w, s2) := ImageLoopSpec(s1, bufferSize, calibrating, answers[1..], kept');
          (e, [CommonHosts.REQUEST_IMAGE] + w, s2)
  }

  /** The loop writes only image requests, closed by one IMAGES_DONE when it
      ends normally; calibrating, it ends normally only with a kept image. */
  lemma {:induction false} ImageLoopWrites(s: Bytes, bufferSize: nat, calibrating: bool, answers: seq<ImageAnswer>, kept: nat)
    ensures var res := ImageLoopSpec(s, bufferSize, calibrating, answers, kept);
      (res.0.ImagesDone? ==> |res.1| >= 2 && res.1[|res.1| - 1] == CommonHosts.IMAGES_DONE)
      && (forall i :: 0 <= i < |res.1| - 1 ==> res.1[i] == CommonHosts.REQUEST_IMAGE)
      && (!res.0.ImagesDone? ==> forall i :: 0 <= i < |res.1| ==> res.1[i] == CommonHosts.REQUEST_IMAGE)
      && (calibrating && res.0.ImagesDone? ==> res.0.kept > 0)
  {
    if answers != [] {
      var (img, s1) := GetImageSpec(s, bufferSize);
      if img.ImageOk? {
        var a := answers[0];
        var kept' := if calibrating && a.boardFound && a.keep then kept + 1 else kept;
        ImageLoopWrites(s1, bufferSize, calibrating, answers[1..], kept');
      }
    }
  }

  /** While calibrating, the loop never ends before an image has been kept. */
  lemma {:induction false} CalibrationNeedsAnImage(s: Bytes, bufferSize: nat, answers: seq<ImageAnswer>)
    requires forall i :: 0 <= i < |answers| ==> !(answers[i].boardFound && answers[i].keep)
    ensures !ImageLoopSpec(s, bufferSize, true, answers, 0).0.ImagesDone?
  {
    if answers != [] {
      var (img, s1) := GetImageSpec(s, bufferSize);
      if img.ImageOk? {
        CalibrationNeedsAnImage(s1, bufferSize, answers[1..]);
      }
    }
  }

  /** Showing images ends at the first `more()` that is false: k images are
      requested for a first false answer at index k - 1. */
  lemma {:induction false} ShowingEndsAtNoMore(jpegs: seq<Bytes>, rest: Bytes, bufferSize: nat, answers: seq<ImageAnswer>)
    requires bufferSize >= 8 && 0 < |jpegs| <= |answers|
    requires forall i :: 0 <= i < |jpegs| ==> |jpegs[i]| < 0x1_0000_0000_0000_0000
    requires forall i :: 0 <= i < |jpegs| - 1 ==> answers[i].more
    requires !answers[|jpegs| - 1].more
    ensures ImageLoopSpec(Frames(jpegs) + rest, bufferSize, false, answers, 0)
      == (ImagesDone(0), Requests(|jpegs|) + [CommonHosts.IMAGES_DONE], rest)
  {
    var f := U64ToBytes(|jpegs[0]|) + jpegs[0];
    assert Frames(jpegs) + rest == U64ToBytes(|jpegs[0]|) + jpegs[0] + (Frames(jpegs[1..]) + rest);
    ImageFramingRoundTrip(jpegs[0], Frames(jpegs[1..]) + rest, bufferSize);
    if |jpegs| > 1 {
      ShowingEndsAtNoMore(jpegs[1..], rest, bufferSize, answers[1..]);
      assert [CommonHosts.REQUEST_IMAGE] + (Requests(|jpegs| - 1) + [CommonHosts.IMAGES_DONE]) == Requests(|jpegs|) + [CommonHosts.IMAGES_DONE];
    } else {
      assert jpegs[1..] == [];
      assert Frames(jpegs[1..]) + rest == rest;
      assert !answers[0].more;
      assert Requests(1) + [CommonHosts.IMAGES_DONE] == [CommonHosts.REQUEST_IMAGE, CommonHosts.IMAGES_DONE];
    }
  }

  /** The image frames a client sends for `jpegs`, in order. */
  function Frames(jpegs: seq<Bytes>): Bytes
    requires forall i :: 0 <= i < |jpegs| ==> |jpegs[i]| < 0x1_0000_0000_0000_0000
  {
    if jpegs == [] then [] else U64ToBytes(|jpegs[0]|) + jpegs[0] + Frames(jpegs[1..])
  }

  function Requests(n: nat): (r: Bytes)
    ensures |r| == n && forall i :: 0 <= i < n ==> r[i] == CommonHosts.REQUEST_IMAGE
  {
    if n == 0 then [] else [CommonHosts.REQUEST_IMAGE] + Requests(n - 1)
  }

  /** `get_image`: reads the length into the shared buffer, then the image. */
  method GetImage(r: ByteStream, buffer: array<byte>) returns (res: ImageRead)
    modifies r, buffer
    ensures (res, r.remaining) == GetImageSpec(old(r.remaining), buffer.Length)
  {
    if buffer.Length < 8 {
      return ImagePanic;
    }
    var ok := r.ReadExactInto(buffer, 8);
    if !ok {
      return ImageIoError;
    }
    var len := U64FromBytes(buffer[..8]);
    var image := r.ReadExact(len);
    if image.None? {
      return ImageIoError;
    }
    res := ImageOk(image.value);
  }

  /** `n` requests written before the rest of a loop's outcome. */
  function AfterRequests(n: nat, res: (ImageLoopEnd, Bytes, Bytes)): (ImageLoopEnd, Bytes, Bytes) {
    (res.0, Requests(n) + res.1, res.2)
  }

  /** One round of the image loop, for the answers still to come: request
      an image, fetch it, ask the interface; `done` when the loop ends here. */
  method ImageStep(r: ByteStream, w: ByteSink, buffer: array<byte>, calibrating: bool, answers: seq<ImageAnswer>, kept: nat)
    returns (done: bool, end: ImageLoopEnd, kept': nat)
    requires answers != []
    modifies r, w, buffer
    ensures var spec := ImageLoopSpec(old(r.remaining), buffer.Length, calibrating, answers, kept);
      done ==> end == spec.0 && w.written == old(w.written) + spec.1 && r.remaining == spec.2
    ensures !done ==> w.written == old(w.written) + [CommonHosts.REQUEST_IMAGE]
    ensures !done ==> AfterRequests(1, ImageLoopSpec(r.remaining, buffer.Length, calibrating, answers[1..], kept'))
                      == ImageLoopSpec(old(r.remaining), buffer.Length, calibrating, answers, kept)
  {
    w.WriteAll([CommonHosts.REQUEST_IMAGE]);
    var img := GetImage(r, buffer);
    if !img.ImageOk? {
      return true, ImageFailed(img), kept;
    }
    var a := answers[0];
    kept' := kept;
    if calibrating && a.boardFound && a.keep {
      kept' := kept + 1;
    }
    if (calibrating && kept' > 0 && !a.more) || (!calibrating && !a.more) {
      w.WriteAll([CommonHosts.IMAGES_DONE]);
      return true, ImagesDone(kept'), kept';
    }
    done, end := false, AnswersExhausted;
    assert Requests(1) == [CommonHosts.REQUEST_IMAGE];
  }

  /** The image loop of `start_host`: request an image, fetch it, ask the
      interface, until the exit condition; then IMAGES_DONE. */
  method ImageLoop(r: ByteStream, w: ByteSink, buffer: array<byte>, calibrating: bool, answers: seq<ImageAnswer>)
    returns (end: ImageLoopEnd)
    modifies r, w, buffer
    ensures var (e, written, rest) := ImageLoopSpec(old(r.remaining), buffer.Length, calibrating, answers, 0);
      end == e && w.written == old(w.written) + written && r.remaining == rest
  {
    var kept := 0;
    var rest := answers;
    ghost var n := 0;
    ghost var whole := ImageLoopSpec(r.remaining, buffer.Length, calibrating, answers, 0);
    assert AfterRequests(0, whole) == whole by {
      assert Requests(0) + whole.1 == whole.1;
    }
    while rest != []
      invariant w.written == old(w.written) + Requests(n)
      invariant AfterRequests(n, ImageLoopSpec(r.remaining, buffer.Length, calibrating, rest, kept)) == whole
      decreases |rest|
    {
      ghost var spec := ImageLoopSpec(r.remaining, buffer.Length, calibrating, rest, kept);
      var done;
      done, end, kept := ImageStep(r, w, buffer, calibrating, rest, kept);
      if done {
        AppendAssoc(old(w.written), Requests(n), spec.1);
        return;
      }
      RequestsAppend(n);
      AfterOneMore(n, ImageLoopSpec(r.remaining, buffer.Length, calibrating, rest[1..], kept));
      rest := rest[1..];
      n := n + 1;
    }
    assert Requests(n) + [] == Requests(n);
    end := AnswersExhausted;
  }

  lemma AppendAssoc(a: Bytes, b: Bytes, c: Bytes)
    ensures a + b + c == a + (b + c)
  {
  }

  lemma {:induction false} RequestsAppend(n: nat)
    ensures Requests(n + 1) == Requests(n) + [CommonHosts.REQUEST_IMAGE]
  {
    if n > 0 {
      RequestsAppend(n - 1);
    }
  }

  lemma AfterOneMore(n: nat, res: (ImageLoopEnd, Bytes, Bytes))
    ensures AfterRequests(n, AfterRequests(1, res)) == AfterRequests(n + 1, res)
  {
    RequestsAppend(n);
    assert Requests(1) == [CommonHosts.REQUEST_IMAGE];
    assert Requests(n) + ([CommonHosts.REQUEST_IMAGE] + res.1) == Requests(n + 1) + res.1;
  }

  /** Whether `start_host` calibrates, and so sends a calibration record:
      exactly for a client that is not calibrated. */
  function SendsCalibration(t: CommonHosts.HostType): bool {
    t.Client? && !t.calibrated
  }

  /** The calibration record `start_host` sends, if any. */
  function CalibBytes(calibration: Option<CameraInfo.FullCameraInfo>): Bytes {
    if calibration.Some? then CameraInfo.Encode(calibration.value) else []
  }

  /** The configuration `start_host` writes: x, y, rotation, the u16 length
      and bytes of the server's address text, a calibration record when
      there is one, and the cube. */
  function ConfigBytes(position: Position, serverIp: Bytes, calibration: Option<CameraInfo.FullCameraInfo>, cube: CommonHosts.Cube)
    : (r: Bytes)
    ensures |r| == 30 + |serverIp| + |CalibBytes(calibration)|
  {
    ToBeBytes(position) + U16ToBytes(|serverIp|) + serverIp + CalibBytes(calibration) + cube
  }

  /** Where each field sits in the configuration bytes. */
  lemma ConfigBytesLayout(position: Position, serverIp: Bytes, calibration: Option<CameraInfo.FullCameraInfo>, cube: CommonHosts.Cube)
    ensures var r := ConfigBytes(position, serverIp, calibration, cube);
      |r| == 30 + |serverIp| + (if calibration.Some? then |CameraInfo.Encode(calibration.value)| else 0)
      && r[..24] == ToBeBytes(position) && r[24..26] == U16ToBytes(|serverIp|)
      && r[26..26 + |serverIp|] == serverIp
      && r[|r| - 4..] == cube
  {
    var head := ToBeBytes(position) + U16ToBytes(|serverIp|);
    var r := ConfigBytes(position, serverIp, calibration, cube);
    var front := head + serverIp + CalibBytes(calibration);
    assert r == front + cube;
    Split(front, cube);
    assert r[..26] == head by {
      assert r[..26] == front[..26];
      assert front[..26] == (head + serverIp)[..26];
      Split(head, serverIp);
    }
    Split(ToBeBytes(position), U16ToBytes(|serverIp|));
    assert r[..24] == head[..24] && r[24..26] == head[24..26];
    assert r[26..26 + |serverIp|] == serverIp by {
      assert r[26..26 + |serverIp|] == front[26..26 + |serverIp|];
      assert front[26..26 + |serverIp|] == (head + serverIp)[26..26 + |serverIp|];
      Split(head, serverIp);
    }
  }

  /** The writes of `start_host` after IMAGES_DONE, in order. */
  method WriteConfigBytes(w: ByteSink, position: Position, serverIp: Bytes, calibration: Option<CameraInfo.FullCameraInfo>,
                          cube: CommonHosts.Cube)
    modifies w
    ensures w.written == old(w.written) + ConfigBytes(position, serverIp, calibration, cube)
  {
    ghost var w0 := w.written;
    w.WriteAll(F64ToBytes(position.x));
    w.WriteAll(F64ToBytes(position.y));
    w.WriteAll(F64ToBytes(position.rotation));
    assert w.written == w0 + ToBeBytes(position);
    w.WriteU16(|serverIp|);
    w.WriteAll(serverIp);
    ghost var w1 := w.written;
    assert w1 == w0 + (ToBeBytes(position) + U16ToBytes(|serverIp|) + serverIp);
    if calibration.Some? {
      w.WriteAll(CameraInfo.Encode(calibration.value));
    }
    assert w.written == w1 + CalibBytes(calibration);
    w.WriteAll(cube);
  }

  /** The configuration write of `start_host`: the server is looked up first
      with `get_server` as written, and nothing is written without exactly
      one match; the host found is an Idle client. */
  method WriteConfig(o: Organizer, w: ByteSink, position: Position, calibration: Option<CameraInfo.FullCameraInfo>)
    returns (si: ServerSearch)
    modifies w
    ensures si == Search(o.hosts, IdleClient)
    ensures si.Found? <==> Count(o.hosts, IdleClient) == 1
    ensures si.Found? ==> IdleClient(o.hosts[si.index].info)
    ensures si.Found? ==> w.written == old(w.written) + ConfigBytes(position, Ipv4ToString(o.hosts[si.index].ip), calibration, o.cube)
    ensures !si.Found? ==> w.written == old(w.written)
  {
    si := o.GetServer();
    if si.Found? {
      WriteConfigBytes(w, position, Ipv4ToString(o.hosts[si.index].ip), calibration, o.cube);
    }
  }

  // --------------------------------------------------- organizer and client

  /** A client's Idle reply tells the organizer to calibrate it exactly when
      the client has no cached calibration. */
  lemma CalibratesUncachedClients(cached: bool)
    ensures CommonHosts.DecodeHostInfo(Client.IdleReply(cached)).Some?
    ensures SendsCalibration(CommonHosts.DecodeHostInfo(Client.IdleReply(cached)).value.hostType) <==> !cached
  {
  }

  lemma ConfigLayout(position: Position, ip: Bytes, calib: Bytes, cube: CommonHosts.Cube, rest: Bytes)
    requires |ip| < 65536
    ensures var s := ToBeBytes(position) + U16ToBytes(|ip|) + ip + calib + cube + rest;
      |s| >= 26 && s[..24] == ToBeBytes(position) && U16FromBytes(s[24..26]) == |ip|
      && s[26..] == ip + (calib + (cube + rest))
  {
    var s := ToBeBytes(position) + U16ToBytes(|ip|) + ip + calib + cube + rest;
    assert s[24..26] == U16ToBytes(|ip|);
    U16RoundTripExact(|ip|);
    assert s[26..] == ip + (calib + (cube + rest));
  }

  lemma ServerAddrOfText(ip: Ipv4, tail: Bytes)
    ensures Client.ServerAddrSpec(Ipv4ToString(ip) + tail, |Ipv4ToString(ip)|)
      == (Client.AddrOk(SocketAddr(ip, CommonHosts.MAIN_PORT)), tail)
  {
    var text := Ipv4ToString(ip);
    Split(text, tail);
    AsciiIsUtf8(text);
    Ipv4RoundTrip(ip);
  }

  lemma ConfigTailOf(calibration: Option<CameraInfo.FullCameraInfo>, cube: CommonHosts.Cube,
                     cached: Option<CameraInfo.FullCameraInfo>, rest: Bytes, server: SocketAddr, position: Position)
    requires calibration.Some? <==> cached.None?
    requires calibration.Some? ==> CameraInfo.Calibrated(calibration.value) && calibration.value.params.distCoeffs.cols <= 12
    ensures var calib := if calibration.Some? then CameraInfo.Encode(calibration.value) else [];
      Client.ConfigTailSpec(calib + (cube + rest), cached, server, position)
      == (Client.ConfigOk(Client.Config(if cached.Some? then cached.value else CameraInfo.AsDecoded(calibration.value),
                                        server, cube), position), rest)
  {
    Split(cube, rest);
    if calibration.Some? {
      CameraInfo.RoundTrip(calibration.value, cube + rest);
    } else {
      assert [] + (cube + rest) == cube + rest;
    }
  }

  /** The configuration the organizer writes reads back on the client as the
      same position, server address and cube, whenever the organizer sends a
      calibration record exactly when the client has none cached; the client
      then uses the cached record or the one sent. */
  lemma ConfigRoundTrip(position: Position, ip: Ipv4, calibration: Option<CameraInfo.FullCameraInfo>, cube: CommonHosts.Cube,
                        cached: Option<CameraInfo.FullCameraInfo>, rest: Bytes)
    requires calibration.Some? <==> cached.None?
    requires calibration.Some? ==> CameraInfo.Calibrated(calibration.value) && calibration.value.params.distCoeffs.cols <= 12
    ensures Client.FromOrganizerSpec(ConfigBytes(position, Ipv4ToString(ip), calibration, cube) + rest, cached)
      == (Client.ConfigOk(Client.Config(if cached.Some? then cached.value else CameraInfo.AsDecoded(calibration.value),
                                        SocketAddr(ip, CommonHosts.MAIN_PORT), cube), position), rest)
  {
    var text := Ipv4ToString(ip);
    var calib := CalibBytes(calibration);
    var s := ConfigBytes(position, text, calibration, cube) + rest;
    ConfigLayout(position, text, calib, cube, rest);
    assert s == ToBeBytes(position) + U16ToBytes(|text|) + text + calib + cube + rest;
    ServerAddrOfText(ip, calib + (cube + rest));
    Positions.RoundTrip(position);
    ConfigTailOf(calibration, cube, cached, rest, SocketAddr(ip, CommonHosts.MAIN_PORT), position);
    Client.FromOrganizerStages(s, cached, SocketAddr(ip, CommonHosts.MAIN_PORT), calib + (cube + rest));
  }
}
