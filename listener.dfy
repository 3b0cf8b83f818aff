/**
 * The per-port record (`serverInfo`) with the handlers that update it and the
 * per-connection records it holds. Each handler runs to completion on the event
 * loop, so each is one method.
 *
 * A connection object is shared by `connections` and `activeConnections`; here
 * the history holds the records and the active list holds positions in the
 * history, so an update through either reaches the same record. A connection
 * is named by its position in the history, which never changes because the
 * history is never pruned.
 */
module Listener {
  import opened Wrappers
  import opened Address
  import opened Response
  import opened Registry

  /** The `connection` object of one accepted socket (the socket itself left out). */
  datatype ConnectionRecord = ConnectionRecord(
    ipInfo: IpInfo,
    chunks: seq<Chunk>,
    sent: seq<string>,
    closed: bool,
    /** The connection timeout (`setTimeout(socket.destroy)`) is set and not yet cleared. */
    timerArmed: bool)

  /** The remote addresses of a connection history, in order. */
  function RawIps(cs: seq<ConnectionRecord>): (ips: seq<Option<string>>)
    ensures |ips| == |cs|
    decreases |cs|
  {
    if cs == [] then [] else RawIps(cs[..|cs| - 1]) + [cs[|cs| - 1].ipInfo.rawIp]
  }

  /** Position `k` of the address history is the address of record `k`. */
  lemma {:induction false} RawIpsAt(cs: seq<ConnectionRecord>, k: nat)
    requires k < |cs|
    ensures RawIps(cs)[k] == cs[k].ipInfo.rawIp
    decreases |cs|
  {
    if k < |cs| - 1 {
      RawIpsAt(cs[..|cs| - 1], k);
    }
  }

  lemma RawIpsAppend(cs: seq<ConnectionRecord>, c: ConnectionRecord)
    ensures RawIps(cs + [c]) == RawIps(cs) + [c.ipInfo.rawIp]
  {
    assert (cs + [c])[..|cs|] == cs;
  }

  /** Updating a record without touching its address keeps the address history. */
  lemma {:induction false} RawIpsUpdate(cs: seq<ConnectionRecord>, k: nat, c: ConnectionRecord)
    requires k < |cs| && c.ipInfo == cs[k].ipInfo
    ensures RawIps(cs[k := c]) == RawIps(cs)
    decreases |cs|
  {
    var n := |cs| - 1;
    if k < n {
      RawIpsUpdate(cs[..n], k, c);
      assert cs[k := c][..n] == cs[..n][k := c];
    } else {
      assert cs[k := c][..n] == cs[..n];
    }
  }

  /** The number of records not yet closed. */
  function OpenCount(cs: seq<ConnectionRecord>): (n: nat)
    ensures n <= |cs|
    decreases |cs|
  {
    if cs == [] then 0
    else OpenCount(cs[..|cs| - 1]) + if cs[|cs| - 1].closed then 0 else 1
  }

  /**
   * Replacing one record changes the open count only by that record: closing an
   * open record lowers it by one, any other update keeps it.
   */
  lemma {:induction false} OpenCountAfterUpdate(cs: seq<ConnectionRecord>, k: nat, c: ConnectionRecord)
    requires k < |cs|
    ensures OpenCount(cs[k := c]) ==
      OpenCount(cs) - (if cs[k].closed then 0 else 1) + (if c.closed then 0 else 1)
    decreases |cs|
  {
    var n := |cs| - 1;
    var updated := cs[k := c];
    if k < n {
      OpenCountAfterUpdate(cs[..n], k, c);
      assert updated[..n] == cs[..n][k := c];
    } else {
      assert updated[..n] == cs[..n];
    }
  }

  /** A history with an open record has a positive open count. */
  lemma {:induction false} OpenCountPositive(cs: seq<ConnectionRecord>, k: nat)
    requires k < |cs| && !cs[k].closed
    ensures OpenCount(cs) > 0
    decreases |cs|
  {
    if k < |cs| - 1 {
      OpenCountPositive(cs[..|cs| - 1], k);
    }
  }

  lemma OpenCountAppend(cs: seq<ConnectionRecord>, c: ConnectionRecord)
    ensures OpenCount(cs + [c]) == OpenCount(cs) + if c.closed then 0 else 1
  {
    assert (cs + [c])[..|cs|] == cs;
  }

  /**
   * A record agrees with the policy given the data events of its socket, and
   * its timer is armed exactly while it is open.
   */
  ghost predicate Conforms(policy: ResponsePolicy, c: ConnectionRecord, events: seq<Chunk>) {
    && Exchange(c.chunks, c.sent) == Replay(policy, events)
    && c.timerArmed == !c.closed
  }

  /** Every record of a history conforms, given the data events of each socket. */
  ghost predicate AllConform(policy: ResponsePolicy, cs: seq<ConnectionRecord>, events: seq<seq<Chunk>>) {
    && |events| == |cs|
    && forall k :: 0 <= k < |cs| ==> Conforms(policy, cs[k], events[k])
  }

  lemma AllConformAppend(policy: ResponsePolicy, cs: seq<ConnectionRecord>, events: seq<seq<Chunk>>,
                         c: ConnectionRecord, e: seq<Chunk>)
    requires AllConform(policy, cs, events) && Conforms(policy, c, e)
    ensures AllConform(policy, cs + [c], events + [e])
  {
  }

  lemma AllConformUpdate(policy: ResponsePolicy, cs: seq<ConnectionRecord>, events: seq<seq<Chunk>>,
                         k: nat, c: ConnectionRecord, e: seq<Chunk>)
    requires AllConform(policy, cs, events) && k < |cs| && Conforms(policy, c, e)
    ensures AllConform(policy, cs[k := c], events[k := e])
  {
  }

  /** The active list names records of the history, and its length is the open count. */
  ghost predicate ActiveTracked(activeCount: int, active: seq<nat>, cs: seq<ConnectionRecord>) {
    && activeCount == OpenCount(cs)
    && |active| == activeCount
    && forall i :: 0 <= i < |active| ==> active[i] < |cs|
  }

  lemma ActiveTrackedAppend(activeCount: int, active: seq<nat>, cs: seq<ConnectionRecord>, c: ConnectionRecord)
    requires ActiveTracked(activeCount, active, cs) && !c.closed
    ensures ActiveTracked(activeCount + 1, active + [|cs|], cs + [c])
  {
    OpenCountAppend(cs, c);
  }

  /** An update that leaves a record's `closed` flag alone keeps the active bookkeeping. */
  lemma ActiveTrackedUpdate(activeCount: int, active: seq<nat>, cs: seq<ConnectionRecord>, k: nat, c: ConnectionRecord)
    requires ActiveTracked(activeCount, active, cs) && k < |cs| && c.closed == cs[k].closed
    ensures ActiveTracked(activeCount, active, cs[k := c])
  {
    OpenCountAfterUpdate(cs, k, c);
  }

  /**
   * Closing an open record, decrementing the count and splicing out any one
   * entry of the active list keeps the active bookkeeping.
   */
  lemma ActiveTrackedClose(activeCount: int, active: seq<nat>, cs: seq<ConnectionRecord>, k: nat, c: ConnectionRecord,
                           start: int)
    requires ActiveTracked(activeCount, active, cs) && k < |cs| && !cs[k].closed && c.closed
    requires start < |active|
    ensures ActiveTracked(activeCount - 1, SpliceOne(active, start), cs[k := c])
  {
    OpenCountPositive(cs, k);
    OpenCountAfterUpdate(cs, k, c);
    var r := SpliceOne(active, start);
    forall i | 0 <= i < |r|
      ensures r[i] < |cs|
    {
      assert r[i] in active;
    }
  }

  /** Updating a record without touching its address keeps the history counts. */
  lemma HistoryCountedUpdate(total: int, unique: int, cs: seq<ConnectionRecord>, k: nat, c: ConnectionRecord)
    requires HistoryCounted(total, unique, cs) && k < |cs| && c.ipInfo == cs[k].ipInfo
    ensures HistoryCounted(total, unique, cs[k := c])
  {
    RawIpsUpdate(cs, k, c);
  }

  /** The total and the unique count agree with the history. */
  ghost predicate HistoryCounted(total: int, unique: int, cs: seq<ConnectionRecord>) {
    && total == |cs|
    && unique == UniqueCount(RawIps(cs))
  }

  lemma HistoryCountedAppend(total: int, unique: int, cs: seq<ConnectionRecord>, c: ConnectionRecord)
    requires HistoryCounted(total, unique, cs)
    ensures HistoryCounted(total + 1, unique + (if c.ipInfo.rawIp in RawIps(cs) then 0 else 1), cs + [c])
  {
    RawIpsAppend(cs, c);
    UniqueCountAppend(RawIps(cs), c.ipInfo.rawIp);
  }

  /** The distinct remote addresses of a connection history. */
  function Addresses(cs: seq<ConnectionRecord>): set<Option<string>> {
    set k | 0 <= k < |cs| :: cs[k].ipInfo.rawIp
  }

  /**
   * A unique count that agrees with the history is the number of distinct
   * remote addresses in it, and so at most the total.
   */
  lemma UniqueIsDistinctAddresses(total: int, unique: int, cs: seq<ConnectionRecord>)
    requires HistoryCounted(total, unique, cs)
    ensures unique == |Addresses(cs)|
    ensures 0 <= unique <= total
  {
    var ips := RawIps(cs);
    UniqueCountIsDistinctCount(ips);
    assert Elements(ips) == Addresses(cs) by {
      forall a | a in Elements(ips) ensures a in Addresses(cs) {
        var k :| 0 <= k < |ips| && ips[k] == a;
        RawIpsAt(cs, k);
      }
      forall a | a in Addresses(cs) ensures a in Elements(ips) {
        var k :| 0 <= k < |cs| && cs[k].ipInfo.rawIp == a;
        RawIpsAt(cs, k);
      }
    }
  }

  /** The listener record of one port. */
  class PortListener {
    const port: int
    const policy: ResponsePolicy
    const lookupEnabled: bool
    var hasError: bool
    var error: Option<string>
    var connectionCount: int
    var activeConnectionCount: int
    var uniqueConnectionCount: int
    /** Every accepted connection, never pruned. */
    var connections: seq<ConnectionRecord>
    /** The active list, as positions in `connections`. */
    var activeConnections: seq<nat>
    /** Read by the shutdown loop; no handler ever sets it. */
    var closed: bool
    /** How many times `server.close()` was called. */
    var closeRequests: nat
    /** The data events each socket delivered, by position in `connections`. */
    ghost var dataEvents: seq<seq<Chunk>>

    /**
     * The counters agree with the lists: the total with the history, the unique
     * count with the distinct addresses in it, and the active count (and the
     * active list's length) with the records not yet closed.
     */
    ghost predicate Valid()
      reads this`connectionCount, this`uniqueConnectionCount, this`activeConnectionCount
      reads this`connections, this`activeConnections, this`dataEvents
    {
      && HistoryCounted(connectionCount, uniqueConnectionCount, connections)
      && AllConform(policy, connections, dataEvents)
      && ActiveTracked(activeConnectionCount, activeConnections, connections)
    }

    /**
     * What the invariant implies for the counters: the unique count is the
     * number of distinct addresses seen, and neither it nor the active count
     * exceeds the total.
     */
    lemma CountersBounded()
      requires Valid()
      ensures uniqueConnectionCount == |Addresses(connections)|
      ensures 0 <= uniqueConnectionCount <= connectionCount
      ensures 0 <= activeConnectionCount == |activeConnections| <= connectionCount
    {
      UniqueIsDistinctAddresses(connectionCount, uniqueConnectionCount, connections);
    }

    /**
     * What the invariant implies for one socket, given the data events it
     * delivered: under `SendOnConnect` the message was sent once and no chunk
     * kept; under `ReplyOnData` every chunk was kept and answered once; under
     * `Silent` nothing was kept or sent. Its timer is armed exactly while it is
     * open.
     */
    lemma RecordFollowsPolicy(id: nat)
      requires Valid() && id < |connections|
      ensures policy.Silent? ==> connections[id].chunks == [] && connections[id].sent == []
      ensures policy.SendOnConnect? ==> connections[id].chunks == [] && connections[id].sent == [policy.message]
      ensures policy.ReplyOnData? ==>
        connections[id].chunks == dataEvents[id] && |connections[id].sent| == |dataEvents[id]| &&
        forall j :: 0 <= j < |connections[id].sent| ==> connections[id].sent[j] == policy.reply
      ensures connections[id].timerArmed <==> !connections[id].closed
    {
      ReplayOutcome(policy, dataEvents[id]);
    }

    constructor (port: int, policy: ResponsePolicy, lookupEnabled: bool)
      ensures Valid()
      ensures this.port == port && this.policy == policy && this.lookupEnabled == lookupEnabled
      ensures !hasError && error == None
      ensures connections == [] && activeConnections == []
      ensures connectionCount == 0 && activeConnectionCount == 0 && uniqueConnectionCount == 0
      ensures !closed && closeRequests == 0
    {
      this.port := port;
      this.policy := policy;
      this.lookupEnabled := lookupEnabled;
      hasError := false;
      error := None;
      connectionCount := 0;
      activeConnectionCount := 0;
      uniqueConnectionCount := 0;
      connections := [];
      activeConnections := [];
      closed := false;
      closeRequests := 0;
      dataEvents := [];
    }

    /** The listener's error event: recorded, and nothing else changes. */
    method OnError(err: string)
      requires Valid()
      modifies this`hasError, this`error
      ensures Valid()
      ensures hasError && error == Some(err)
    {
      hasError := true;
      error := Some(err);
    }

    /**
     * The accounting of the connection handler, once `getIpInfo` has settled:
     * the new record is appended to the history and to the active list, and the
     * unique count grows exactly when no earlier record has the same `rawIp`.
     * Under `SendOnConnect` the message has been sent once already.
     */
    method Accept(ipInfo: IpInfo) returns (id: nat)
      requires Valid()
      modifies this`connections, this`activeConnections, this`dataEvents
      modifies this`connectionCount, this`activeConnectionCount, this`uniqueConnectionCount
      ensures Valid()
      ensures id == |old(connections)|
      ensures connections == old(connections) + [ConnectionRecord(ipInfo, [], Opened(policy).sent, false, true)]
      ensures dataEvents == old(dataEvents) + [[]]
      ensures activeConnections == old(activeConnections) + [id]
      ensures connectionCount == old(connectionCount) + 1
      ensures activeConnectionCount == old(activeConnectionCount) + 1
      ensures uniqueConnectionCount ==
        old(uniqueConnectionCount) + if ipInfo.rawIp in old(RawIps(connections)) then 0 else 1
    {
      id := |connections|;
      var c := ConnectionRecord(ipInfo, [], [], false, true);
      if policy.SendOnConnect? {
        c := Send(c, policy.message);
      }
      var history := RawIps(connections);
      HistoryCountedAppend(connectionCount, uniqueConnectionCount, connections, c);
      ActiveTrackedAppend(activeConnectionCount, activeConnections, connections, c);
      AllConformAppend(policy, connections, dataEvents, c, []);
      if FirstIndex(history, ipInfo.rawIp).None? {
        uniqueConnectionCount := uniqueConnectionCount + 1;
      }
      connectionCount := connectionCount + 1;
      connections := connections + [c];
      activeConnectionCount := activeConnectionCount + 1;
      activeConnections := activeConnections + [id];
      dataEvents := dataEvents + [[]];
    }

    /** `send`: the message is written (ending the write side) and recorded. */
    static function Send(c: ConnectionRecord, msg: string): (d: ConnectionRecord)
      ensures d.sent == c.sent + [msg]
      ensures d.ipInfo == c.ipInfo && d.chunks == c.chunks && d.closed == c.closed && d.timerArmed == c.timerArmed
    {
      c.(sent := c.sent + [msg])
    }

    /** The whole connection handler: `getIpInfo` for the socket's address, then `Accept`. */
    method OnConnection(remoteAddress: Option<string>, lookup: string -> LookupReply) returns (id: nat)
      requires Valid()
      modifies this`connections, this`activeConnections, this`dataEvents
      modifies this`connectionCount, this`activeConnectionCount, this`uniqueConnectionCount
      ensures Valid()
      ensures id == |old(connections)|
      ensures connections ==
        old(connections) + [ConnectionRecord(GetIpInfo(remoteAddress, lookupEnabled, lookup), [], Opened(policy).sent, false, true)]
      ensures dataEvents == old(dataEvents) + [[]]
      ensures activeConnections == old(activeConnections) + [id]
      ensures connectionCount == old(connectionCount) + 1
      ensures activeConnectionCount == old(activeConnectionCount) + 1
      ensures uniqueConnectionCount ==
        old(uniqueConnectionCount) + if remoteAddress in old(RawIps(connections)) then 0 else 1
    {
      var ipInfo := GetIpInfo(remoteAddress, lookupEnabled, lookup);
      id := Accept(ipInfo);
    }

    /**
     * A data event on connection `id`: under `ReplyOnData` the chunk is kept and
     * the reply sent; otherwise no data handler was installed.
     */
    method OnData(id: nat, chunk: Chunk)
      requires Valid() && id < |connections|
      modifies this`connections, this`dataEvents
      ensures Valid()
      ensures dataEvents == old(dataEvents)[id := old(dataEvents)[id] + [chunk]]
      ensures var was := old(connections)[id];
        var now := Received(policy, Exchange(was.chunks, was.sent), chunk);
        connections == old(connections)[id := was.(chunks := now.chunks, sent := now.sent)]
    {
      var c := connections[id];
      ghost var events := dataEvents[id] + [chunk];
      assert events[..|events| - 1] == dataEvents[id];
      if policy.ReplyOnData? {
        c := c.(chunks := c.chunks + [chunk]);
        c := Send(c, policy.reply);
      }
      HistoryCountedUpdate(connectionCount, uniqueConnectionCount, connections, id, c);
      ActiveTrackedUpdate(activeConnectionCount, activeConnections, connections, id, c);
      AllConformUpdate(policy, connections, dataEvents, id, c, events);
      connections := connections[id := c];
      dataEvents := dataEvents[id := events];
    }

    /**
     * The socket close handler: the connection timeout is cleared, the record marked
     * closed, the active count decremented and one entry spliced out of the
     * active list at the index `findIndex` yields (see `RemoveOnCloseTakes`:
     * not necessarily connection `id`). The history and the other counters
     * stay. The invariant is kept when the socket had not closed before.
     */
    method OnClose(id: nat)
      requires Valid() && id < |connections|
      modifies this`connections, this`activeConnectionCount, this`activeConnections
      ensures connections == old(connections)[id := old(connections)[id].(closed := true, timerArmed := false)]
      ensures activeConnectionCount == old(activeConnectionCount) - 1
      ensures activeConnections == RemoveOnClose(old(activeConnections), old(connections)[id].ipInfo.rawIp)
      ensures !old(connections)[id].closed ==> Valid()
    {
      var c := connections[id];
      var index := FindIndex(RawIpProperties(|activeConnections|), c.ipInfo.rawIp);
      var d := c.(closed := true, timerArmed := false);
      if !c.closed {
        HistoryCountedUpdate(connectionCount, uniqueConnectionCount, connections, id, d);
        ActiveTrackedClose(activeConnectionCount, activeConnections, connections, id, d, index);
        AllConformUpdate(policy, connections, dataEvents, id, d, dataEvents[id]);
      }
      connections := connections[id := d];
      activeConnectionCount := activeConnectionCount - 1;
      activeConnections := SpliceOne(activeConnections, index);
    }

    /** The connection timeout fires: the socket is destroyed, which runs the close handler. */
    method OnTimeout(id: nat)
      requires Valid() && id < |connections| && connections[id].timerArmed
      modifies this`connections, this`activeConnectionCount, this`activeConnections
      ensures Valid()
      ensures connections == old(connections)[id := old(connections)[id].(closed := true, timerArmed := false)]
      ensures activeConnectionCount == old(activeConnectionCount) - 1
      ensures activeConnections == RemoveOnClose(old(activeConnections), old(connections)[id].ipInfo.rawIp)
    {
      OnClose(id);
    }

    /** `server.close()`: stop accepting. */
    method RequestClose()
      requires Valid()
      modifies this`closeRequests
      ensures Valid()
      ensures closeRequests == old(closeRequests) + 1
    {
      closeRequests := closeRequests + 1;
    }
  }

  /**
   * A listener with a reply configured and lookups disabled: after one
   * connection from a mapped IPv4 address and two data events on it, the
   * connection has kept both chunks and sent the reply twice, and the counters
   * record one connection, still active, from one address.
   */
  method ReplyTwiceExample() returns (chunks: seq<Chunk>, sent: seq<string>, total: int, active: int, unique: int)
    ensures chunks == [[1], [2]] && sent == ["r", "r"]
    ensures total == 1 && active == 1 && unique == 1
  {
    var listener := new PortListener(8000, ReplyOnData("r"), false);
    var id := listener.OnConnection(Some("::ffff:10.0.0.1"), _ => Rejected(None));
    listener.OnData(id, [1]);
    listener.OnData(id, [2]);
    listener.RecordFollowsPolicy(id);
    chunks, sent := listener.connections[id].chunks, listener.connections[id].sent;
    total := listener.connectionCount;
    active := listener.activeConnectionCount;
    unique := listener.uniqueConnectionCount;
  }
}
