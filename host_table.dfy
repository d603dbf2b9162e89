/**
  The host table shared by the organizer and the older `src/utils.rs`: a
  host's status and address, and the server lookup folded over the table.
 */
module HostTable {
  import opened Wire
  import CommonHosts

  /** `Host`: a host's last known status and its IPv4 address. */
  datatype Host = Host(info: CommonHosts.HostInfo, ip: Ipv4)

  /** `GetServerError` together with the found host's index. */
  datatype ServerSearch = Found(index: nat) | NoServer | Multiple(others: nat)

  function Count(hosts: seq<Host>, p: CommonHosts.HostInfo -> bool): nat {
    if hosts == [] then 0 else Count(hosts[..|hosts| - 1], p) + (if p(hosts[|hosts| - 1].info) then 1 else 0)
  }

  /** The accumulator `si` after the hosts of `hosts` have been folded in. */
  function Search(hosts: seq<Host>, p: CommonHosts.HostInfo -> bool): (si: ServerSearch)
    ensures si.Found? ==> si.index < |hosts|
  {
    if hosts == [] then NoServer
    else
      var si := Search(hosts[..|hosts| - 1], p);
      if !p(hosts[|hosts| - 1].info) then si
      else match si
        case Found(_) => Multiple(1)
        case NoServer => Found(|hosts| - 1)
        case Multiple(n) => Multiple(n + 1)
  }

  /** The lookup by number of matching hosts: one gives that host, none
      gives NoServer, and k >= 2 give Multiple(k - 1). */
  lemma {:induction false} SearchCounts(hosts: seq<Host>, p: CommonHosts.HostInfo -> bool)
    ensures Search(hosts, p).NoServer? <==> Count(hosts, p) == 0
    ensures Search(hosts, p).Found? <==> Count(hosts, p) == 1
    ensures Search(hosts, p).Found? ==> p(hosts[Search(hosts, p).index].info)
    ensures Search(hosts, p).Found? ==> forall j :: 0 <= j < |hosts| && j != Search(hosts, p).index ==> !p(hosts[j].info)
    ensures Search(hosts, p).Multiple? <==> Count(hosts, p) >= 2
    ensures Search(hosts, p).Multiple? ==> Search(hosts, p).others == Count(hosts, p) - 1
  {
    if hosts != [] {
      var init := hosts[..|hosts| - 1];
      SearchCounts(init, p);
      if Count(init, p) == 0 {
        NoneMatch(init, p);
      }
      assert forall j :: 0 <= j < |init| ==> hosts[j] == init[j];
    }
  }

  lemma {:induction false} NoneMatch(hosts: seq<Host>, p: CommonHosts.HostInfo -> bool)
    requires Count(hosts, p) == 0
    ensures forall j :: 0 <= j < |hosts| ==> !p(hosts[j].info)
  {
    if hosts != [] {
      var init := hosts[..|hosts| - 1];
      NoneMatch(init, p);
      assert forall j :: 0 <= j < |init| ==> hosts[j] == init[j];
    }
  }

  /** What a server lookup is meant to match: a Server that is Running or Idle. */
  predicate LiveServer(info: CommonHosts.HostInfo) {
    info.hostType.Server? && (info.hostState == CommonHosts.Running || info.hostState == CommonHosts.Idle)
  }

  /** The fold `get_server` runs over the host table. */
  method Lookup(hosts: seq<Host>, p: CommonHosts.HostInfo -> bool) returns (si: ServerSearch)
    ensures si == Search(hosts, p)
  {
    si := NoServer;
    var i := 0;
    while i < |hosts|
      invariant 0 <= i <= |hosts|
      invariant si == Search(hosts[..i], p)
    {
      assert hosts[..i + 1][..i] == hosts[..i];
      if p(hosts[i].info) {
        si := match si
          case Found(_) => Multiple(1)
          case NoServer => Found(i)
          case Multiple(n) => Multiple(n + 1);
      }
      i := i + 1;
    }
    assert hosts[..i] == hosts;
  }

  /** `get_server` of `src/utils.rs`: the one Running or Idle server, NoServer
      for none, Multiple(k - 1) for k of them; the table is not changed. */
  method GetServer(hosts: seq<Host>) returns (si: ServerSearch)
    ensures si == Search(hosts, LiveServer)
    ensures si.Found? <==> Count(hosts, LiveServer) == 1
    ensures si.Found? ==> LiveServer(hosts[si.index].info)
    ensures si.NoServer? <==> Count(hosts, LiveServer) == 0
    ensures si.Multiple? ==> si.others == Count(hosts, LiveServer) - 1
  {
    si := Lookup(hosts, LiveServer);
    SearchCounts(hosts, LiveServer);
  }
}
