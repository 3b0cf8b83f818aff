/**
 * The top level of the program: the start-up loop over the configured port
 * range, which creates one listener per port not skipped and collects them in
 * `servers`, and the shutdown routine that asks each of them to close.
 */
module Servers {
  import opened Wrappers
  import opened Response
  import opened Ports
  import opened Listener
  import Registry

  /** The settings of the configuration file that the core reads. */
  datatype Config = Config(
    rangeStart: int,
    rangeEnd: int,
    skipPorts: seq<int>,
    connectionSend: Option<string>,
    connectionReply: Option<string>,
    getIpInfo: bool)

  /** The ports of a list of listeners, in list order. */
  function PortsOf(ss: seq<PortListener>): seq<int> {
    seq(|ss|, i requires 0 <= i < |ss| => ss[i].port)
  }

  lemma PortsOfAppend(ss: seq<PortListener>, s: PortListener)
    ensures PortsOf(ss + [s]) == PortsOf(ss) + [s.port]
  {
  }

  /** A listener as the start-up loop leaves it: no error, no connections yet. */
  ghost predicate Initial(s: PortListener, config: Config)
    reads s
  {
    && s.Valid()
    && s.policy == SelectPolicy(config.connectionSend, config.connectionReply)
    && s.lookupEnabled == config.getIpInfo
    && !s.hasError && s.error == None
    && s.connections == [] && s.activeConnections == []
    && s.connectionCount == 0 && s.activeConnectionCount == 0 && s.uniqueConnectionCount == 0
    && !s.closed && s.closeRequests == 0
  }

  /** The `servers` list and the skip notices the start-up loop printed. */
  class ServerList {
    var servers: seq<PortListener>
    var skipNotices: seq<int>

    /**
     * Each listener is a distinct object, keeps its own invariant, and has its
     * `closed` field unset (nothing in the program ever sets it).
     */
    ghost predicate Valid()
      reads this, servers
    {
      && Registry.Distinct(servers)
      && forall i :: 0 <= i < |servers| ==> servers[i].Valid() && !servers[i].closed
    }

    /**
     * The start-up loop: walk `rangeStart..rangeEnd` upwards, note every port
     * listed in `skipPorts` as skipped, and create a fresh listener for every
     * other one.
     */
    constructor (config: Config)
      ensures Valid()
      ensures PortsOf(servers) == ListenedPorts(config.rangeStart, config.rangeEnd, config.skipPorts)
      ensures skipNotices == SkippedPorts(config.rangeStart, config.rangeEnd, config.skipPorts)
      ensures forall i :: 0 <= i < |servers| ==> fresh(servers[i]) && Initial(servers[i], config)
    {
      var lo, hi, skip := config.rangeStart, config.rangeEnd, config.skipPorts;
      var policy := SelectPolicy(config.connectionSend, config.connectionReply);
      var ss: seq<PortListener> := [];
      var skipped: seq<int> := [];
      var port := lo;
      while port <= hi
        invariant PortsOf(ss) + ListenedPorts(port, hi, skip) == ListenedPorts(lo, hi, skip)
        invariant skipped + SkippedPorts(port, hi, skip) == SkippedPorts(lo, hi, skip)
        invariant Registry.Distinct(ss)
        invariant forall i :: 0 <= i < |ss| ==> fresh(ss[i]) && Initial(ss[i], config)
        decreases hi - port + 1
      {
        RangeStep(PortsOf(ss), lo, port, hi, skip, false);
        RangeStep(skipped, lo, port, hi, skip, true);
        if port in skip {
          skipped := skipped + [port];
        } else {
          var s := new PortListener(port, policy, config.getIpInfo);
          PortsOfAppend(ss, s);
          ss := ss + [s];
        }
        port := port + 1;
      }
      servers := ss;
      skipNotices := skipped;
    }

    /**
     * `close()`: every listener whose `closed` field is unset is asked to
     * close; since that field is never set, every listener is asked exactly
     * once more than before.
     */
    method Shutdown()
      requires Valid()
      modifies servers`closeRequests
      ensures Valid()
      ensures forall i :: 0 <= i < |servers| ==>
        servers[i].closeRequests == old(servers[i].closeRequests) + if old(servers[i].closed) then 0 else 1
      ensures forall i :: 0 <= i < |servers| ==> servers[i].closeRequests == old(servers[i].closeRequests) + 1
    {
      for n := 0 to |servers|
        invariant forall i :: 0 <= i < |servers| ==> servers[i].Valid() && !servers[i].closed
        invariant forall i :: 0 <= i < n ==> servers[i].closeRequests == old(servers[i].closeRequests) + 1
        invariant forall i :: n <= i < |servers| ==> servers[i].closeRequests == old(servers[i].closeRequests)
      {
        var s := servers[n];
        if !s.closed {
          s.RequestClose();
        }
      }
    }
  }
}
