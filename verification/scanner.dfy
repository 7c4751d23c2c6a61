/**
 * The scanner's result assembly (simple_network_scanner.py): probing a host with
 * ping, probing a port with a TCP connect, and the three loops that gather alive
 * hosts, open ports and the per-host results, plus the control flow of `main`.
 *
 * The system `ping` and the socket connect are oracles: a Pinger says how the
 * ping process ended for an address and timeout, a Connector what `connect_ex`
 * did for an address, port and timeout. The addresses of the network are given
 * as a sequence, in the order the network enumerates them.
 */
module Scanner {
  import opened Wrappers
  import Seqs
  import Dicts
  import Services
  import PortSpec

  type Addr = string

  /** How the ping process ended: with an exit status, or by raising (timeout, missing binary, ...). */
  datatype PingOutcome = PingExited(returnCode: int) | PingRaised

  /** What the connect attempt gave: `connect_ex`'s error code, or an exception from the socket calls. */
  datatype ConnectOutcome = ConnectReturned(errno: int) | ConnectRaised

  type Pinger = (Addr, real) -> PingOutcome
  type Connector = (Addr, int, real) -> ConnectOutcome

  /** One entry of `open_ports`: the `(port, service)` pair. */
  datatype OpenPort = OpenPort(port: int, service: string)

  /** What a network scan ends with: the early return, or the `results` dict handed to the summary. */
  datatype ScanReport = NoHostsFound | Scanned(results: Dicts.Dict<Addr, seq<OpenPort>>)

  /** How `main` ends. */
  datatype Outcome =
    | ExitInvalidPortSpec
    | HostsOnly(aliveHosts: seq<Addr>)
    | FullScan(report: ScanReport)

  /** The exit status of the program for an outcome. */
  function ExitStatus(outcome: Outcome): int
  {
    if outcome.ExitInvalidPortSpec? then 1 else 0
  }

  /** `ping_host`: alive exactly when the ping process exited with status 0. */
  function PingHost(ping: Pinger, timeout: real, ip: Addr): (alive: bool)
    ensures alive <==> ping(ip, timeout) == PingExited(0)
  {
    match ping(ip, timeout)
    case PingExited(code) => code == 0
    case PingRaised => false
  }

  /** `scan_port`: an open port exactly when `connect_ex` returned 0, reported with its service name. */
  function ScanPort(connect: Connector, timeout: real, ip: Addr, port: int): (found: Option<OpenPort>)
    ensures found.Some? <==> connect(ip, port, timeout) == ConnectReturned(0)
    ensures found.Some? ==> found.value.port == port && found.value.service == Services.ServiceName(port)
  {
    match connect(ip, port, timeout)
    case ConnectReturned(errno) =>
      if errno == 0 then Some(OpenPort(port, Services.ServiceName(port))) else None
    case ConnectRaised => None
  }

  /** A failed probe is a negative finding, never an error. */
  lemma ProbeFailuresAreNegative(ping: Pinger, connect: Connector, timeout: real, ip: Addr, port: int)
    ensures ping(ip, timeout) == PingRaised ==> !PingHost(ping, timeout, ip)
    ensures (ping(ip, timeout).PingExited? && ping(ip, timeout).returnCode != 0) ==> !PingHost(ping, timeout, ip)
    ensures connect(ip, port, timeout) == ConnectRaised ==> ScanPort(connect, timeout, ip, port) == None
    ensures (connect(ip, port, timeout).ConnectReturned? && connect(ip, port, timeout).errno != 0)
              ==> ScanPort(connect, timeout, ip, port) == None
  {
  }

  /** Keeps an address when it answers the ping. */
  function AliveFilter(ping: Pinger, timeout: real): Addr -> Option<Addr>
  {
    ip => if PingHost(ping, timeout, ip) then Some(ip) else None
  }

  /** Probes one port of `ip`. */
  function PortProbe(connect: Connector, timeout: real, ip: Addr): int -> Option<OpenPort>
  {
    port => ScanPort(connect, timeout, ip, port)
  }

  /** The ports `scan_host` probes: the given ones, or the service table's keys. */
  function PortsOrDefault(ports: Option<seq<int>>): seq<int>
  {
    match ports
    case Some(ps) => ps
    case None => Services.DefaultPorts()
  }

  /** The addresses that answer the ping, in enumeration order. */
  function AliveHosts(ping: Pinger, timeout: real, hosts: seq<Addr>): seq<Addr>
  {
    Seqs.Collect(hosts, AliveFilter(ping, timeout))
  }

  /** The open ports of `ip`, in the order they were asked for. */
  function OpenPortsOf(connect: Connector, timeout: real, ip: Addr, ports: Option<seq<int>>): seq<OpenPort>
  {
    Seqs.Collect(PortsOrDefault(ports), PortProbe(connect, timeout, ip))
  }

  /** The ports a run scans: the table's ports when `-p` is absent or empty, otherwise
      the parsed specification; the run fails exactly when a given specification does. */
  lemma PortArgumentSelectsPorts(arg: Option<string>)
    ensures arg == None || arg == Some("") ==>
              PortSpec.ParsePortArgument(arg).Ok? &&
              PortsOrDefault(PortSpec.ParsePortArgument(arg).value) == Services.DefaultPorts()
    ensures arg.Some? && arg.value != "" ==>
              (PortSpec.ParsePortArgument(arg).Err? <==> PortSpec.ParsePorts(arg.value).Err?)
    ensures arg.Some? && arg.value != "" && PortSpec.ParsePortArgument(arg).Ok? ==>
              PortsOrDefault(PortSpec.ParsePortArgument(arg).value) == PortSpec.ParsePorts(arg.value).value
  {
  }

  /** Alive hosts are exactly the enumerated addresses that answer the ping, kept in order. */
  lemma AliveHostsSpec(ping: Pinger, timeout: real, hosts: seq<Addr>)
    ensures forall h :: h in AliveHosts(ping, timeout, hosts) <==> h in hosts && PingHost(ping, timeout, h)
    ensures Seqs.IsSubsequence(AliveHosts(ping, timeout, hosts), hosts)
    ensures Seqs.AllDistinct(hosts) ==> Seqs.AllDistinct(AliveHosts(ping, timeout, hosts))
  {
    var f := AliveFilter(ping, timeout);
    forall h ensures h in AliveHosts(ping, timeout, hosts) <==> h in hosts && PingHost(ping, timeout, h) {
      Seqs.CollectMember(hosts, f, h);
      if h in hosts && PingHost(ping, timeout, h) {
        var i :| 0 <= i < |hosts| && hosts[i] == h;
        assert f(hosts[i]) == Some(h);
      }
    }
    Seqs.FilterIsSubsequence(hosts, f);
  }

  /** The open ports of a host: never more than asked for, each one asked for, open and
      named from the table, and every open port among those asked for reported. */
  lemma OpenPortsSpec(connect: Connector, timeout: real, ip: Addr, ports: Option<seq<int>>)
    ensures |OpenPortsOf(connect, timeout, ip, ports)| <= |PortsOrDefault(ports)|
    ensures forall o :: o in OpenPortsOf(connect, timeout, ip, ports) <==>
              && o.port in PortsOrDefault(ports)
              && connect(ip, o.port, timeout) == ConnectReturned(0)
              && o.service == Services.ServiceName(o.port)
    ensures PortsOrDefault(ports) == [] ==> OpenPortsOf(connect, timeout, ip, ports) == []
  {
    var ps, f := PortsOrDefault(ports), PortProbe(connect, timeout, ip);
    forall o ensures o in OpenPortsOf(connect, timeout, ip, ports) <==>
              && o.port in ps
              && connect(ip, o.port, timeout) == ConnectReturned(0)
              && o.service == Services.ServiceName(o.port)
    {
      Seqs.CollectMember(ps, f, o);
      if o in OpenPortsOf(connect, timeout, ip, ports) {
        var i :| 0 <= i < |ps| && f(ps[i]) == Some(o);
        assert ScanPort(connect, timeout, ip, ps[i]) == Some(o);
      }
      if o.port in ps && connect(ip, o.port, timeout) == ConnectReturned(0) && o.service == Services.ServiceName(o.port) {
        var i :| 0 <= i < |ps| && ps[i] == o.port;
        assert f(ps[i]) == Some(o);
      }
    }
  }

  /** The open ports are reported in the order they were asked for: each one comes from a
      position of the port list, the positions increase, and every open position is used. */
  lemma OpenPortsInOrder(connect: Connector, timeout: real, ip: Addr, ports: Option<seq<int>>)
    ensures exists idx :: Seqs.SelectedAt(PortsOrDefault(ports), PortProbe(connect, timeout, ip),
                                           OpenPortsOf(connect, timeout, ip, ports), idx)
  {
    var ps, f := PortsOrDefault(ports), PortProbe(connect, timeout, ip);
    Seqs.CollectSelects(ps, f);
    assert Seqs.SelectedAt(ps, f, OpenPortsOf(connect, timeout, ip, ports), Seqs.CollectIndices(ps, f));
  }

  /** Without a port list, the host is probed on the 19 table ports, in table order. */
  lemma DefaultPortsUsed(connect: Connector, timeout: real, ip: Addr)
    ensures PortsOrDefault(None) == Services.DefaultPorts()
    ensures |PortsOrDefault(None)| == 19
    ensures forall o :: o in OpenPortsOf(connect, timeout, ip, None) ==> o.service != Services.Unknown
  {
    Services.DefaultPortsShape();
    OpenPortsSpec(connect, timeout, ip, None);
    forall o | o in OpenPortsOf(connect, timeout, ip, None) ensures o.service != Services.Unknown {
      Services.ServiceNameKnownIff(o.port);
    }
  }

  /** What a network scan promises: it stops early exactly when no host is alive, and
      otherwise has one entry per alive host, in discovery order, holding that host's
      open ports. */
  ghost predicate ReportsNetwork(report: ScanReport, ping: Pinger, connect: Connector, timeout: real,
                                 hosts: seq<Addr>, ports: Option<seq<int>>)
  {
    var alive := AliveHosts(ping, timeout, hosts);
    && (report.NoHostsFound? <==> alive == [])
    && (report.Scanned? ==>
          && report.results.Valid()
          && report.results.keys == alive
          && forall h :: h in report.results.entries ==>
               report.results.entries[h] == OpenPortsOf(connect, timeout, h, ports))
  }

  /** Every reported host was enumerated, and no host is reported more than once. */
  lemma ReportedHostsEnumerated(report: ScanReport, ping: Pinger, connect: Connector, timeout: real,
                                hosts: seq<Addr>, ports: Option<seq<int>>)
    requires Seqs.AllDistinct(hosts)
    requires ReportsNetwork(report, ping, connect, timeout, hosts, ports)
    requires report.Scanned?
    ensures |report.results.keys| <= |hosts|
    ensures forall h :: h in report.results.entries ==> h in hosts && PingHost(ping, timeout, h)
    ensures Seqs.AllDistinct(report.results.keys)
  {
    AliveHostsSpec(ping, timeout, hosts);
  }

  /** When no address answers the ping, the scan ends without results. */
  lemma NoAnswerNoResults(report: ScanReport, ping: Pinger, connect: Connector, timeout: real,
                          hosts: seq<Addr>, ports: Option<seq<int>>)
    requires forall h :: h in hosts ==> !PingHost(ping, timeout, h)
    requires ReportsNetwork(report, ping, connect, timeout, hosts, ports)
    ensures report == NoHostsFound
  {
    var f := AliveFilter(ping, timeout);
    forall i | 0 <= i < |hosts| ensures f(hosts[i]).None? {
      assert hosts[i] in hosts;
    }
    Seqs.CollectNoneAccepted(hosts, f);
  }

  /** Ports 80 and 22 against a host with 80 open and 22 refused: only `(80, "HTTP")` is reported. */
  lemma ExampleHttpOpenSshClosed(connect: Connector, timeout: real, ip: Addr)
    requires connect(ip, 80, timeout) == ConnectReturned(0)
    requires connect(ip, 22, timeout) == ConnectReturned(111)
    ensures OpenPortsOf(connect, timeout, ip, Some([80, 22])) == [OpenPort(80, "HTTP")]
  {
    Services.ExampleListedLookups();
    var f := PortProbe(connect, timeout, ip);
    assert f(80) == Some(OpenPort(80, "HTTP"));
    assert f(22) == None;
    assert Seqs.Collect([80], f) == [OpenPort(80, "HTTP")] by {
      assert [80][..0] == [];
    }
    assert [80, 22][..1] == [80];
  }

  class SimpleNetworkScanner {
    const timeout: real
    /** The service table, fixed when the scanner is made and only read afterwards. */
    const commonPorts: seq<(int, string)> := Services.CommonPorts

    constructor (timeout: real)
      ensures this.timeout == timeout
    {
      this.timeout := timeout;
    }

    /** `discover_hosts`: the alive addresses, in enumeration order. */
    method DiscoverHosts(hosts: seq<Addr>, ping: Pinger) returns (aliveHosts: seq<Addr>)
      ensures aliveHosts == AliveHosts(ping, timeout, hosts)
      ensures forall h :: h in aliveHosts <==> h in hosts && PingHost(ping, timeout, h)
      ensures Seqs.IsSubsequence(aliveHosts, hosts)
      ensures Seqs.AllDistinct(hosts) ==> Seqs.AllDistinct(aliveHosts)
    {
      var f := AliveFilter(ping, timeout);
      aliveHosts := [];
      var i := 0;
      while i < |hosts|
        invariant 0 <= i <= |hosts|
        invariant aliveHosts == Seqs.Collect(hosts[..i], f)
      {
        assert hosts[..i + 1][..i] == hosts[..i];
        if PingHost(ping, timeout, hosts[i]) {
          aliveHosts := aliveHosts + [hosts[i]];
        }
        i := i + 1;
      }
      assert hosts[..i] == hosts;
      AliveHostsSpec(ping, timeout, hosts);
    }

    /** `scan_host`: the open ports among `ports` (or the table's ports), in order. */
    method ScanHost(ip: Addr, ports: Option<seq<int>>, connect: Connector) returns (openPorts: seq<OpenPort>)
      ensures openPorts == OpenPortsOf(connect, timeout, ip, ports)
      ensures |openPorts| <= |PortsOrDefault(ports)|
      ensures forall o :: o in openPorts <==>
                && o.port in PortsOrDefault(ports)
                && connect(ip, o.port, timeout) == ConnectReturned(0)
                && o.service == Services.ServiceName(o.port)
    {
      var ps := if ports.None? then Services.Keys(commonPorts) else ports.value;
      assert ps == PortsOrDefault(ports);
      var f := PortProbe(connect, timeout, ip);
      openPorts := [];
      var i := 0;
      while i < |ps|
        invariant 0 <= i <= |ps|
        invariant openPorts == Seqs.Collect(ps[..i], f)
      {
        assert ps[..i + 1][..i] == ps[..i];
        var result := ScanPort(connect, timeout, ip, ps[i]);
        if result.Some? {
          openPorts := openPorts + [result.value];
        }
        i := i + 1;
      }
      assert ps[..i] == ps;
      assert openPorts == OpenPortsOf(connect, timeout, ip, ports);
      OpenPortsSpec(connect, timeout, ip, ports);
    }

    /** `scan_network`: discover, then scan every alive host into `results`. */
    method ScanNetwork(hosts: seq<Addr>, ports: Option<seq<int>>, ping: Pinger, connect: Connector)
      returns (report: ScanReport)
      requires Seqs.AllDistinct(hosts)
      ensures ReportsNetwork(report, ping, connect, timeout, hosts, ports)
    {
      var aliveHosts := DiscoverHosts(hosts, ping);
      if aliveHosts == [] {
        return NoHostsFound;
      }
      var results: Dicts.Dict<Addr, seq<OpenPort>> := Dicts.Empty();
      var i := 0;
      while i < |aliveHosts|
        invariant 0 <= i <= |aliveHosts|
        invariant results.Valid() && results.keys == aliveHosts[..i]
        invariant forall h :: h in results.entries ==> results.entries[h] == OpenPortsOf(connect, timeout, h, ports)
      {
        var host := aliveHosts[i];
        Seqs.DistinctNotInPrefix(aliveHosts, i);
        var openPorts := ScanHost(host, ports, connect);
        Dicts.PutNewKey(results, host, openPorts);
        results := results.Put(host, openPorts);
        assert aliveHosts[..i + 1] == aliveHosts[..i] + [host];
        i := i + 1;
      }
      assert aliveHosts[..i] == aliveHosts;
      report := Scanned(results);
    }
  }

  /** `main` after argument parsing: parse `-p`, exit with status 1 on a bad
      specification, otherwise discover hosts only or scan the whole network. */
  method Run(portsArg: Option<string>, hostOnly: bool, timeout: real, hosts: seq<Addr>,
             ping: Pinger, connect: Connector) returns (outcome: Outcome)
    requires Seqs.AllDistinct(hosts)
    ensures outcome.ExitInvalidPortSpec? <==> PortSpec.ParsePortArgument(portsArg).Err?
    ensures ExitStatus(outcome) == if PortSpec.ParsePortArgument(portsArg).Err? then 1 else 0
    ensures outcome.HostsOnly? <==> PortSpec.ParsePortArgument(portsArg).Ok? && hostOnly
    ensures outcome.HostsOnly? ==> outcome.aliveHosts == AliveHosts(ping, timeout, hosts)
    ensures outcome.FullScan? ==>
              ReportsNetwork(outcome.report, ping, connect, timeout, hosts, PortSpec.ParsePortArgument(portsArg).value)
  {
    var parsed := PortSpec.ParsePortArgument(portsArg);
    if parsed.Err? {
      return ExitInvalidPortSpec;
    }
    var scanner := new SimpleNetworkScanner(timeout);
    if hostOnly {
      var aliveHosts := scanner.DiscoverHosts(hosts, ping);
      outcome := HostsOnly(aliveHosts);
    } else {
      var report := scanner.ScanNetwork(hosts, parsed.value, ping, connect);
      outcome := FullScan(report);
    }
  }
}
