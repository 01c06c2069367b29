/** The configuration's own validator: default ports, conflicts per protocol, and limits
    reflected into the network section. */
module PortValidation {
  import opened Wrappers

  /** The fields the validator reads or writes. `ipcPort` is None without a daemon section. */
  datatype Settings = Settings(
    listenPort: int, listenPortTcp: Option<int>, listenPortUdp: Option<int>, trackerUdpPort: Option<int>,
    enableDht: bool, dhtPort: int, ipcPort: Option<int>, metricsPort: int,
    enableWebtorrent: bool, webtorrentPort: int,
    limitDown: int, limitUp: int, globalDown: int, globalUp: int)

  type Port = (string, int)

  datatype Verdict = Accepted | PortConflict | DhtOnTcpPort

  function OrElse(port: Option<int>, default_: int): Option<int> {
    if port.None? then Some(default_) else port
  }

  /** Unset ports filled in from the deprecated one, the tracker port next to the UDP port
      unless the DHT port is there. */
  function Defaulted(s: Settings): (d: Settings)
    ensures d.listenPortTcp.Some? && d.listenPortUdp.Some? && d.trackerUdpPort.Some?
  {
    var udp := OrElse(s.listenPortUdp, s.listenPort);
    s.(listenPortTcp := OrElse(s.listenPortTcp, s.listenPort),
       listenPortUdp := udp,
       trackerUdpPort := OrElse(s.trackerUdpPort, if udp.value + 1 != s.dhtPort then udp.value + 1 else 64123))
  }

  /** A port in use: zero means none. */
  function Active(name: string, port: int): seq<Port> {
    if port != 0 then [(name, port)] else []
  }

  function TcpPorts(s: Settings): seq<Port>
    requires s.listenPortTcp.Some?
  {
    Active("TCP listen port", s.listenPortTcp.value)
    + (if s.ipcPort.Some? then Active("IPC port", s.ipcPort.value) else [])
    + Active("Metrics port", s.metricsPort)
    + (if s.enableWebtorrent then Active("WebTorrent port", s.webtorrentPort) else [])
  }

  function UdpPorts(s: Settings): seq<Port>
    requires s.listenPortUdp.Some? && s.trackerUdpPort.Some?
  {
    Active("UDP listen port", s.listenPortUdp.value)
    + Active("UDP tracker port", s.trackerUdpPort.value)
    + (if s.enableDht then Active("DHT port", s.dhtPort) else [])
  }

  predicate Distinct(ports: seq<Port>) {
    forall i, j :: 0 <= i < j < |ports| ==> ports[i].1 != ports[j].1
  }

  function VerdictOn(d: Settings): Verdict
    requires d.listenPortTcp.Some? && d.listenPortUdp.Some? && d.trackerUdpPort.Some?
  {
    if !Distinct(TcpPorts(d)) || !Distinct(UdpPorts(d)) then PortConflict
    else if d.enableDht && d.listenPortTcp.value == d.dhtPort then DhtOnTcpPort
    else Accepted
  }

  function Reflect(limit: int, global: int): int {
    if limit != 0 && global == 0 then limit else global
  }

  function Reflected(s: Settings): Settings {
    s.(globalDown := Reflect(s.limitDown, s.globalDown), globalUp := Reflect(s.limitUp, s.globalUp))
  }

  /** What the settings are after validation: a rejection leaves the defaults behind. */
  function Validated(s: Settings): Settings {
    if VerdictOn(Defaulted(s)).Accepted? then Reflected(Defaulted(s)) else Defaulted(s)
  }

  // ----- Conflict detection with a map from ports to the names seen on them.

  function NamesAt(ports: seq<Port>, port: int): seq<string> {
    if ports == [] then []
    else
      var (name, p) := ports[|ports| - 1];
      var before := NamesAt(ports[..|ports| - 1], port);
      if p == port then before + [name] else before
  }

  /** Exactly the ports with several names are listed, each with all its names in order. */
  ghost predicate Reports(conflicts: seq<(int, seq<string>)>, ports: seq<Port>) {
    forall c :: c in conflicts <==> c.1 == NamesAt(ports, c.0) && |c.1| > 1
  }

  method FindConflicts(ports: seq<Port>) returns (conflicts: seq<(int, seq<string>)>)
    ensures Reports(conflicts, ports) && (conflicts == [] <==> Distinct(ports))
  {
    var seen: map<int, seq<string>> := map[];
    for i := 0 to |ports|
      invariant forall p :: p in seen <==> NamesAt(ports[..i], p) != []
      invariant forall p :: p in seen ==> seen[p] == NamesAt(ports[..i], p)
    {
      var (name, port) := ports[i];
      assert ports[..i + 1][..i] == ports[..i];
      if port in seen {
        seen := seen[port := seen[port] + [name]];
      } else {
        seen := seen[port := [name]];
      }
    }
    assert ports[..|ports|] == ports;
    conflicts := SharedPorts(seen);
    NoConflictIffDistinct(ports, conflicts);
  }

  method SharedPorts(seen: map<int, seq<string>>) returns (conflicts: seq<(int, seq<string>)>)
    ensures forall c :: c in conflicts <==> c.0 in seen && c.1 == seen[c.0] && |c.1| > 1
  {
    conflicts := [];
    var todo := seen.Items;
    while todo != {}
      invariant todo <= seen.Items
      invariant forall c :: c in conflicts <==> c in seen.Items && c !in todo && |c.1| > 1
      decreases todo
    {
      var item :| item in todo;
      todo := todo - {item};
      if |item.1| > 1 {
        conflicts := conflicts + [item];
      }
    }
  }

  lemma NoConflictIffDistinct(ports: seq<Port>, conflicts: seq<(int, seq<string>)>)
    requires forall c :: c in conflicts <==> c.1 == NamesAt(ports, c.0) && |c.1| > 1
    ensures conflicts == [] <==> Distinct(ports)
  {
    DistinctIff(ports);
    if conflicts != [] {
      assert conflicts[0] in conflicts;
      assert |NamesAt(ports, conflicts[0].0)| > 1;
    } else {
      forall p ensures |NamesAt(ports, p)| <= 1 {
        assert (p, NamesAt(ports, p)) !in conflicts;
      }
    }
  }

  lemma {:induction false} NamesAtUsed(ports: seq<Port>, port: int)
    ensures NamesAt(ports, port) == [] <==> forall i :: 0 <= i < |ports| ==> ports[i].1 != port
  {
    if ports != [] {
      NamesAtUsed(ports[..|ports| - 1], port);
    }
  }

  lemma DistinctLast(ports: seq<Port>)
    requires ports != []
    ensures var front, last := ports[..|ports| - 1], ports[|ports| - 1];
      Distinct(ports) <==> Distinct(front) && NamesAt(front, last.1) == []
  {
    var front, last := ports[..|ports| - 1], ports[|ports| - 1];
    NamesAtUsed(front, last.1);
    assert forall i :: 0 <= i < |front| ==> front[i] == ports[i];
  }

  /** No port has two names. */
  ghost predicate Unshared(ports: seq<Port>) {
    forall p :: |NamesAt(ports, p)| <= 1
  }

  lemma UnsharedLast(ports: seq<Port>)
    requires ports != []
    ensures var front, last := ports[..|ports| - 1], ports[|ports| - 1];
      Unshared(ports) <==> Unshared(front) && NamesAt(front, last.1) == []
  {
    var front, last := ports[..|ports| - 1], ports[|ports| - 1];
    assert |NamesAt(ports, last.1)| == |NamesAt(front, last.1)| + 1;
    if Unshared(ports) {
      forall p ensures |NamesAt(front, p)| <= 1 {
        assert |NamesAt(ports, p)| <= 1;
      }
    } else if Unshared(front) {
      var p :| |NamesAt(ports, p)| > 1;
      assert |NamesAt(front, p)| <= 1;
    }
  }

  lemma {:induction false} DistinctIff(ports: seq<Port>)
    ensures Distinct(ports) <==> Unshared(ports)
  {
    if ports != [] {
      DistinctIff(ports[..|ports| - 1]);
      DistinctLast(ports);
      UnsharedLast(ports);
    }
  }

  class Config {
    const listenPort: int
    var listenPortTcp: Option<int>
    var listenPortUdp: Option<int>
    var trackerUdpPort: Option<int>
    const enableDht: bool
    const dhtPort: int
    const ipcPort: Option<int>
    const metricsPort: int
    const enableWebtorrent: bool
    const webtorrentPort: int
    const limitDown: int
    const limitUp: int
    var globalDown: int
    var globalUp: int

    function View(): Settings
      reads this
    {
      Settings(listenPort, listenPortTcp, listenPortUdp, trackerUdpPort, enableDht, dhtPort, ipcPort, metricsPort,
               enableWebtorrent, webtorrentPort, limitDown, limitUp, globalDown, globalUp)
    }

    constructor (s: Settings)
      ensures View() == s
    {
      listenPort, listenPortTcp, listenPortUdp := s.listenPort, s.listenPortTcp, s.listenPortUdp;
      trackerUdpPort, enableDht, dhtPort := s.trackerUdpPort, s.enableDht, s.dhtPort;
      ipcPort, metricsPort := s.ipcPort, s.metricsPort;
      enableWebtorrent, webtorrentPort := s.enableWebtorrent, s.webtorrentPort;
      limitDown, limitUp, globalDown, globalUp := s.limitDown, s.limitUp, s.globalDown, s.globalUp;
    }

    /** The conflicts of both protocols are what the error message lists. */
    method ValidateConfig() returns (verdict: Verdict, tcp: seq<(int, seq<string>)>, udp: seq<(int, seq<string>)>)
      modifies this
      ensures verdict == VerdictOn(Defaulted(old(View())))
      ensures View() == Validated(old(View()))
      ensures Reports(tcp, TcpPorts(Defaulted(old(View())))) && Reports(udp, UdpPorts(Defaulted(old(View()))))
    {
      FillDefaults();
      tcp := FindConflicts(TcpPorts(View()));
      udp := FindConflicts(UdpPorts(View()));
      if tcp != [] || udp != [] {
        return PortConflict, tcp, udp;
      }
      if enableDht && listenPortTcp.value == dhtPort {
        return DhtOnTcpPort, tcp, udp;
      }
      if limitDown != 0 && globalDown == 0 {
        globalDown := limitDown;
      }
      if limitUp != 0 && globalUp == 0 {
        globalUp := limitUp;
      }
      return Accepted, tcp, udp;
    }

    method FillDefaults()
      modifies this
      ensures View() == Defaulted(old(View()))
    {
      if listenPortTcp.None? {
        listenPortTcp := Some(listenPort);
      }
      if listenPortUdp.None? {
        listenPortUdp := Some(listenPort);
      }
      if trackerUdpPort.None? {
        if listenPortUdp.value + 1 != dhtPort {
          trackerUdpPort := Some(listenPortUdp.value + 1);
        } else {
          trackerUdpPort := Some(64123);
        }
      }
    }
  }

  // ----- Laws.

  /** Validating accepted settings again accepts them and changes nothing. */
  lemma ValidationIdempotent(s: Settings)
    requires VerdictOn(Defaulted(s)).Accepted?
    ensures Defaulted(Validated(s)) == Validated(s)
    ensures VerdictOn(Validated(s)).Accepted? && Validated(Validated(s)) == Validated(s)
  {
  }

  /** The default tracker port exists to keep out of the DHT port's way. It collides with the
      UDP listen port or the active DHT port in exactly these cases, all of them through the
      fixed fallback. */
  lemma DefaultTrackerCollidesIff(s: Settings)
    requires s.trackerUdpPort.None?
    ensures var d := Defaulted(s);
      var udp := d.listenPortUdp.value;
      d.trackerUdpPort.value == udp || (s.enableDht && d.trackerUdpPort.value == s.dhtPort) <==>
        s.dhtPort == udp + 1 && (udp == 64123 || (s.enableDht && udp == 64122))
  {
  }

  /** With the default listen port and the DHT next to it, the settings name three free ports
      and are rejected all the same. */
  lemma FallbackRejected(s: Settings)
    requires s.listenPort == 64122 && s.listenPortTcp.None? && s.listenPortUdp.None? && s.trackerUdpPort.None?
    requires s.enableDht && s.dhtPort == 64123
    ensures VerdictOn(Defaulted(s)) == PortConflict
  {
    var d := Defaulted(s);
    var ports := UdpPorts(d);
    assert ports[1] == ("UDP tracker port", 64123) && ports[2] == ("DHT port", 64123);
  }

  // ----- The validator told from the settings as they were given.

  function TcpPort(s: Settings): int {
    if s.listenPortTcp.Some? then s.listenPortTcp.value else s.listenPort
  }

  function UdpPort(s: Settings): int {
    if s.listenPortUdp.Some? then s.listenPortUdp.value else s.listenPort
  }

  function TrackerPort(s: Settings): int {
    if s.trackerUdpPort.Some? then s.trackerUdpPort.value
    else if s.dhtPort == UdpPort(s) + 1 then 64123
    else UdpPort(s) + 1
  }

  predicate Clash(p: int, q: int) {
    p == q && p != 0
  }

  /** The ports of each protocol, an unused one as zero, clash in one of these pairs. */
  predicate Clashes(s: Settings) {
    var ipc := if s.ipcPort.Some? then s.ipcPort.value else 0;
    var web := if s.enableWebtorrent then s.webtorrentPort else 0;
    var dht := if s.enableDht then s.dhtPort else 0;
    || Clash(TcpPort(s), ipc) || Clash(TcpPort(s), s.metricsPort) || Clash(TcpPort(s), web)
    || Clash(ipc, s.metricsPort) || Clash(ipc, web) || Clash(s.metricsPort, web)
    || Clash(UdpPort(s), TrackerPort(s)) || Clash(UdpPort(s), dht) || Clash(TrackerPort(s), dht)
  }

  lemma DefaultedIs(s: Settings)
    ensures Defaulted(s) == s.(listenPortTcp := Some(TcpPort(s)), listenPortUdp := Some(UdpPort(s)),
                               trackerUdpPort := Some(TrackerPort(s)))
  {
  }

  predicate Uses(ports: seq<Port>, p: int) {
    exists i :: 0 <= i < |ports| && ports[i].1 == p
  }

  lemma AppendActive(ports: seq<Port>, name: string, p: int)
    ensures Distinct(ports + Active(name, p)) <==> Distinct(ports) && (p == 0 || !Uses(ports, p))
    ensures forall q :: Uses(ports + Active(name, p), q) <==> Uses(ports, q) || Clash(p, q)
  {
    var all := ports + Active(name, p);
    assert forall i :: 0 <= i < |ports| ==> all[i] == ports[i];
    if p != 0 {
      assert all[|ports|] == (name, p);
    } else {
      assert all == ports;
    }
  }

  lemma ThreeDistinct(k: string, l: string, m: string, p: int, q: int, r: int)
    ensures var ports := Active(k, p) + Active(l, q) + Active(m, r);
      && (Distinct(ports) <==> !Clash(p, q) && !Clash(p, r) && !Clash(q, r))
      && forall x :: Uses(ports, x) <==> Clash(p, x) || Clash(q, x) || Clash(r, x)
  {
    AppendActive([], k, p);
    assert [] + Active(k, p) == Active(k, p);
    AppendActive(Active(k, p), l, q);
    AppendActive(Active(k, p) + Active(l, q), m, r);
  }

  lemma TcpDistinct(s: Settings)
    requires s.listenPortTcp.Some?
    ensures var tcp, ipc := s.listenPortTcp.value, if s.ipcPort.Some? then s.ipcPort.value else 0;
      var metrics, web := s.metricsPort, if s.enableWebtorrent then s.webtorrentPort else 0;
      Distinct(TcpPorts(s)) <==>
        !Clash(tcp, ipc) && !Clash(tcp, metrics) && !Clash(tcp, web)
        && !Clash(ipc, metrics) && !Clash(ipc, web) && !Clash(metrics, web)
  {
    var ipc := if s.ipcPort.Some? then s.ipcPort.value else 0;
    var web := if s.enableWebtorrent then s.webtorrentPort else 0;
    var three := Active("TCP listen port", s.listenPortTcp.value) + Active("IPC port", ipc)
                 + Active("Metrics port", s.metricsPort);
    ThreeDistinct("TCP listen port", "IPC port", "Metrics port", s.listenPortTcp.value, ipc, s.metricsPort);
    AppendActive(three, "WebTorrent port", web);
  }

  lemma UdpDistinct(s: Settings)
    requires s.listenPortUdp.Some? && s.trackerUdpPort.Some?
    ensures var udp, tracker, dht := s.listenPortUdp.value, s.trackerUdpPort.value, if s.enableDht then s.dhtPort else 0;
      Distinct(UdpPorts(s)) <==> !Clash(udp, tracker) && !Clash(udp, dht) && !Clash(tracker, dht)
  {
    var dht := if s.enableDht then s.dhtPort else 0;
    ThreeDistinct("UDP listen port", "UDP tracker port", "DHT port", s.listenPortUdp.value, s.trackerUdpPort.value, dht);
  }

  /** Settings are accepted exactly when no two ports of one protocol clash and the DHT is not on
      the TCP listen port; a clash is reported before the latter. */
  lemma AcceptedIff(s: Settings)
    ensures VerdictOn(Defaulted(s)) ==
            if Clashes(s) then PortConflict
            else if s.enableDht && s.dhtPort == TcpPort(s) then DhtOnTcpPort
            else Accepted
  {
    DefaultedIs(s);
    TcpDistinct(Defaulted(s));
    UdpDistinct(Defaulted(s));
  }

  /** What is left in the settings: the three ports filled in, and, unless they are rejected, a
      limit in place of a global limit of zero. */
  lemma ValidatedIs(s: Settings)
    ensures var r, ok := Validated(s), !Clashes(s) && !(s.enableDht && s.dhtPort == TcpPort(s));
      r == s.(listenPortTcp := Some(TcpPort(s)), listenPortUdp := Some(UdpPort(s)), trackerUdpPort := Some(TrackerPort(s)),
              globalDown := if ok && s.globalDown == 0 then s.limitDown else s.globalDown,
              globalUp := if ok && s.globalUp == 0 then s.limitUp else s.globalUp)
  {
    AcceptedIff(s);
    DefaultedIs(s);
  }

  predicate OnTcp(s: Settings, name: string, port: int) {
    match name
    case "TCP listen port" => port == TcpPort(s)
    case "IPC port" => s.ipcPort == Some(port)
    case "Metrics port" => port == s.metricsPort
    case "WebTorrent port" => s.enableWebtorrent && port == s.webtorrentPort
    case _ => false
  }

  predicate OnUdp(s: Settings, name: string, port: int) {
    match name
    case "UDP listen port" => port == UdpPort(s)
    case "UDP tracker port" => port == TrackerPort(s)
    case "DHT port" => s.enableDht && port == s.dhtPort
    case _ => false
  }

  /** The names under which a port is collected. */
  lemma CollectedIs(s: Settings, name: string, port: int)
    ensures (name, port) in TcpPorts(Defaulted(s)) <==> port != 0 && OnTcp(s, name, port)
    ensures (name, port) in UdpPorts(Defaulted(s)) <==> port != 0 && OnUdp(s, name, port)
  {
    DefaultedIs(s);
  }

  /** The names at a port are those of the rows with that port, in the order of the rows. */
  lemma {:induction false} NamesAtAre(ports: seq<Port>, port: int) returns (rows: seq<int>)
    ensures |rows| == |NamesAt(ports, port)|
    ensures forall k :: 0 <= k < |rows| ==> 0 <= rows[k] < |ports| && ports[rows[k]] == (NamesAt(ports, port)[k], port)
    ensures forall k, l :: 0 <= k < l < |rows| ==> rows[k] < rows[l]
    ensures forall i :: 0 <= i < |ports| && ports[i].1 == port ==> i in rows
  {
    if ports == [] {
      rows := [];
    } else {
      rows := NamesAtAre(ports[..|ports| - 1], port);
      if ports[|ports| - 1].1 == port {
        rows := rows + [|ports| - 1];
      }
    }
  }
}
