# Port-Listener-5000: a Dafny model of the per-port bookkeeping

Port-Listener-5000 opens a TCP listener on every port of a configured range,
except the ports it is told to skip. It records who connects and, depending on
its configuration, either greets each connection with a fixed message or
answers every piece of data with a fixed reply. Each port keeps a record
(`serverInfo`) and updates it from its event handlers:

- an error flag and the error;
- a total, an active and a unique connection count;
- the history of all connections;
- the list of active ones.

Each connection record holds:

- the peer's address information (`ipInfo`), optionally enriched by a
  geolocation lookup;
- the chunks received and the messages sent;
- a `closed` flag;
- a connection timeout, armed once at accept, that destroys the socket when it fires.

On shutdown the program asks every listener to close.

This project models that bookkeeping with the sockets, timers, HTTP client and
console removed. All of it is in `index.js`. The modules are:

- `Ports` (`ports.dfy`): which ports of the range get a listener and which are
  reported as skipped, as pure functions over integers.
- `Text` (`text.dfy`) and `Address` (`address.dfy`): JavaScript's
  `split` with a string separator, and the derivation of `ip` and `rawIp` from
  the socket's remote address. `Address` also classifies the lookup answer into
  the nine copied attributes or an `error`. The lookup itself is a function
  parameter.
- `Response` (`response.dfy`): the precedence between `connectionSend`,
  `connectionReply` and silence, and what a connection's `chunks` and `sent`
  lists are after any sequence of data events.
- `Registry` (`registry.dfy`): the array operations the handlers use.
  - `find`/`findIndex` become `FirstIndex` and `FindIndex`.
  - `splice(start, 1)` becomes `SpliceOne`, with JavaScript's treatment of a
    negative start.
  - The unique-address count is `UniqueCount`.
  - The close handler's removal is `RemoveOnClose`, modelled exactly as written.
- `Listener` (`listener.dfy`): the class `PortListener`, one method per event
  handler.
  - `OnError`, `Accept`/`OnConnection`, `OnData`, `OnClose` and `OnTimeout`
    are the handlers; `RequestClose` stands for `server.close()`.
  - Its invariant `Valid` ties the counters to the lists. The total count is the
    history's length. The unique count is the number of distinct `rawIp` values
    in the history. The active count is both the number of records not yet
    closed and the active list's length.
  - `Valid` also ties every record to the response policy.
- `Servers` (`servers.dfy`): the start-up loop that fills `servers`, and
  `Shutdown`, the `close()` routine.

A connection object is shared by the history and the active list. Here the
history holds the records by value, and the active list holds positions in the
history. A connection is therefore named by its position, which never changes
because the history is never pruned.

The close handler looks up the entry to splice out with
`findIndex(i => i.rawIp === ipInfo.rawIp)` (index.js:76). Active entries are
connection objects, and they have no `rawIp` of their own. So for a socket with
a remote address the index is -1, and `splice(-1, 1)` removes the last active
entry, whichever connection closed. For a socket without one the index is 0,
and the first entry is removed.

The model reproduces this. `OnClose` states its new active list as
`RemoveOnClose`. `RemoveOnCloseTakes` says which entry that removes.
`ClosingFirstRemovesSecond` shows that when the first of two connections
closes, the second one is dropped instead. The counts stay consistent because
exactly one entry is removed per close.

The original `ip` is `split("::ffff:")[1]`, which is the text between the first
marker and the next one, or the end of the address. `NormaliseIpIff` states
that piece exactly, and `MappedIpv4` covers the usual single-marker case.

## Model

| member | source | states |
|---|---|---|
| Ports.RangeWhere | index.js:12-16 | the ports of `lo..hi`, in order, whose membership in `skipPorts` is the chosen one; `RangeWhereExact` characterises it as exactly those ports, each once and increasing, and `RangeSplits` shows the two kinds cover the range |
| Ports.ListenedPorts | index.js:12-16 | the ports that get a listener: `RangeWhere` of the ports not in `skipPorts`, characterised by `RangeWhereExact` |
| Ports.SkippedPorts | index.js:13-15 | the ports reported as skipped: `RangeWhere` of the ports in `skipPorts`, characterised by `RangeWhereExact` |
| Ports.RangeWhereExact | index.js:12-16 | the ports chosen from `lo..hi` are exactly the in-range ports whose membership in `skipPorts` matches, each once and in increasing order; this holds both for listened and for skipped ports |
| Ports.RangeSplits | index.js:12-16 | every port of the range is either listened on or skipped: the two counts add up to the range's size, and are zero for an empty range |
| Ports.RangeStep | index.js:12-16 | one iteration of the start-up loop takes the current port into exactly one of the two lists and leaves the rest of the range to do |
| Ports.SkipExample | index.js:12-16 | 8000..8005 with 8002 and 8004 skipped listens on 8000, 8001, 8003, 8005 and reports 8002, 8004 as skipped |
| Servers.ServerList.constructor | index.js:12-89 | after start-up, the listeners' ports are `ListenedPorts(rangeStart, rangeEnd, skipPorts)` in order, the skip notices are `SkippedPorts(...)`, and every listener is a distinct fresh object with the configured policy, zero counters, empty lists, no error and `closed` unset |
| Servers.ServerList.Shutdown | index.js:137-140 | each listener whose `closed` field is unset gets one more close request and the others none; since no listener ever has it set, every listener gets exactly one more; each listener's invariant is kept |
| Text.Find | index.js:112 | the first occurrence of the separator, or none exactly when it does not occur |
| Text.Split | index.js:112 | `split` with a non-empty string separator yields at least one piece, and no piece contains the separator |
| Text.JoinSplit | index.js:112 | joining the pieces of a split with the separator gives back the original text |
| Address.NormaliseIp | index.js:112 | an absent address gives a null `ip`; a non-null `ip` is non-empty and holds no `::ffff:` |
| Address.NormaliseIpIff | index.js:112 | for an address whose first `::ffff:` is at position i, `ip` is `x` if and only if `x` is non-empty and is the text from just after that marker up to the next marker or the end |
| Address.NoMarkerNoIp | index.js:112 | an address without `::ffff:` yields a null `ip` |
| Address.MappedIpv4 | index.js:112 | `::ffff:` followed by a non-empty text without colons yields exactly that text |
| Address.NormaliseIpExamples | index.js:112 | `::ffff:127.0.0.1` gives `127.0.0.1`; `::ffff:`, `::1` and an absent address give null |
| Address.ErrorOf | index.js:129 | the error is the answer's message when it has one, and `true` otherwise |
| Address.Attributes | index.js:119-127 | the nine attributes copied from a successful answer under their `ipInfo` names; `Classify` states each copy |
| Address.Classify | index.js:117-130 | a lookup answer is a success exactly when it is a parsed reply whose status is `success`; then the nine attributes are copied under their `ipInfo` names (`regionName` to `region`, `lat` to `latitude`, `lon` to `longitude`); otherwise it is an error carrying `message || true`, which covers a rejected request |
| Address.GetIpInfo | index.js:109-135 | `rawIp` is the remote address unchanged, and `ip` is its normalised form; no lookup is made exactly when lookup is disabled or `ip` is null; otherwise the enrichment is the classified answer for `ip` |
| Response.SelectPolicy | index.js:62-70 | a truthy `connectionSend` wins and is the message; otherwise a truthy `connectionReply` is the reply; otherwise the connection stays silent |
| Response.Opened | index.js:62-64 | the `chunks` and `sent` lists right after accept: the greeting sent once under `SendOnConnect`, nothing otherwise; `ReplayOutcome` covers it as the case of no data events |
| Response.Received | index.js:65-69 | one data event: under `ReplyOnData` the chunk and the reply are appended, otherwise the lists stay as no data handler is installed; `ReplayOutcome` gives the result of any sequence of them |
| Response.Replay | index.js:62-83 | the lists after accept and a sequence of data events, in order; `ReplayOutcome` gives its closed form for each policy |
| Response.ReplayOutcome | index.js:62-83 | after any sequence of data events: a silent connection has kept and sent nothing; a greeted one has sent exactly the greeting and kept nothing; a replying one has kept every chunk in order and sent the reply once per chunk |
| Registry.FirstIndex | index.js:55 | `find`: none exactly when the value is absent, otherwise the first position holding it |
| Registry.FindIndex | index.js:76 | `findIndex`: -1 exactly when the value is absent, otherwise the first position holding it |
| Registry.SpliceOne | index.js:76 | `splice(start, 1)` removes one element when the list is non-empty and `start` is below its length, leaves an empty list or a start past the end unchanged, and introduces nothing new |
| Registry.SpliceAt | index.js:76 | deleting at position k, or at k counted from the end, removes exactly element k and keeps the rest in order |
| Registry.RemoveOnClose | index.js:76 | the close handler's `splice(findIndex(i => i.rawIp === rawIp), 1)` over active entries that have no `rawIp` of their own; `RemoveOnCloseTakes` shows it drops the last entry for a known address and the first for an unknown one |
| Registry.RemoveOnCloseTakes | index.js:76 | the close handler's removal drops the last active entry when the closing socket has an address and the first one when it has none |
| Registry.ClosingFirstRemovesSecond | index.js:76 | when the first of two active connections closes, the one left active is the first |
| Registry.UniqueCount | index.js:55 | the unique count of a list is at most its length |
| Registry.UniqueCountAppend | index.js:55 | appending a value raises the unique count by one exactly when no earlier entry equals it |
| Registry.UniqueCountIsDistinctCount | index.js:55 | the unique count is the number of distinct values in the list |
| Registry.SameAddressCountsOnce | index.js:55 | any number of connections, at least one, from one address give a unique count of 1 |
| Registry.DistinctAddressesCountEach | index.js:55 | connections from pairwise different addresses are each counted |
| Listener.UniqueIsDistinctAddresses | index.js:55-57 | a unique count that agrees with the history is the number of distinct `rawIp` values in it, and is at most the total count |
| Listener.OpenCountAfterUpdate | index.js:74-75 | replacing one connection record changes the number of open records by that record alone: closing an open one lowers it by one, and any other change keeps it |
| Listener.HistoryCountedAppend | index.js:55-57 | appending a record keeps the total equal to the history's length, and raises the unique count exactly when its `rawIp` is new |
| Listener.ActiveTrackedClose | index.js:75-76 | closing an open record, decrementing the active count and splicing out any one active entry keeps the active count equal to both the open records and the active list's length |
| Listener.PortListener.CountersBounded | index.js:55-60 | in a consistent listener the unique count is the number of distinct addresses seen, and neither it nor the active count (which equals the active list's length) exceeds the total |
| Listener.PortListener.RecordFollowsPolicy | index.js:62-83 | each connection's `chunks` and `sent` are what the policy makes of the data events it delivered, and its timer is armed exactly while it is open |
| Listener.PortListener.constructor | index.js:18-29 | a new listener has no error, zero counters, empty lists and `closed` unset, and is consistent |
| Listener.PortListener.OnError | index.js:32-36 | the error event sets `hasError` and stores the error; no counter or list can change, and consistency is kept |
| Listener.PortListener.Accept | index.js:45-60 | after the lookup has settled: one record is appended to the history and its position to the active list; both counts rise by one; the unique count rises exactly when no earlier record has the same `rawIp`; the new record is open, armed, has kept nothing, and has sent the greeting exactly under `SendOnConnect`; consistency is kept |
| Listener.PortListener.Send | index.js:80-83 | sending appends the message to `sent` and changes nothing else in the record |
| Listener.PortListener.OnConnection | index.js:42-70 | the whole handler: exactly one record is appended, whose `ipInfo` is `GetIpInfo` of the remote address and which is open, armed, has kept nothing and has sent the greeting exactly under `SendOnConnect`; no data events are recorded for it yet; the active list and the counters change as in `Accept`, and consistency is kept |
| Listener.ReplyTwiceExample | index.js:42-83 | with a reply configured, one connection followed by two data events leaves both chunks kept and the reply sent twice, with one connection counted, active and unique |
| Listener.PortListener.OnData | index.js:66-69 | under `ReplyOnData` the chunk is appended to the connection's `chunks` and the reply to its `sent`; otherwise the record stays as it is; no other record, counter or list changes, and consistency is kept |
| Listener.PortListener.OnClose | index.js:72-78 | the closing record becomes closed with its timer cleared; the active count drops by one; the active list becomes `RemoveOnClose` of the old one; the history's other records and the other counters stay; for a socket that was still open, consistency is kept |
| Listener.PortListener.OnTimeout | index.js:52 | the connection timeout firing on an armed connection has exactly the close handler's effect and keeps consistency |
| Listener.PortListener.RequestClose | index.js:139 | `server.close()` is one more close request; consistency is kept |

## Left out

- Sockets, `net.createServer` and `server.listen` (index.js:26, 86) are I/O. Connection, data, close and error events are method calls with abstract arguments. The socket in a connection record, and the write done by `socket.end`, are not modelled; a send is recorded in `sent`.
- The listener's own `close` event handler only logs (index.js:38-40), and so do the `log` call in the close handler (index.js:77) and the logging helpers (index.js:91-107). They are not modelled. The skip notices of the start-up loop are kept as `skipNotices`.
- Creating the logs directory (index.js:9-10), the `new Date()` timestamps and the signal wiring (index.js:142-143) are environment and are not modelled.
- `setTimeout`/`clearTimeout` (index.js:52, 73) are reduced to the `timerArmed` flag, and the value of `connectionTimeout` plays no part. `OnTimeout` is the timer firing: `socket.destroy()` followed by the close handler.
- The `fetch` request to the geolocation service (index.js:117) is a network call. Its outcome is the `lookup` parameter of `OnConnection`: a parsed JSON reply or a rejection with an optional message. A reply that is not JSON is treated as a rejection.
- Scheduling between connections and ports is not modelled, and neither is the window between the lookup's `await` (index.js:43) and the registration of the socket's handlers. Each handler runs atomically.
- Errors are modelled as strings, and the error values of the geolocation answer (`message || true`) as `LookupError`. `lat`/`lon` are kept as `real`, because the model only copies them.
- The source never initialises a listener's `closed` field, so reading it gives `undefined`. The model starts it as `false`, which is equally falsy.
- Listener.PortListener.OnClose: re-establishes the invariant only when the socket had not closed before. Node delivers one close event per socket. A second close on an already closed record would lower the active count (and, on a non-empty list, the list's length with it) while the number of open records stays, so `activeConnectionCount == OpenCount(connections)` would no longer hold.
- Servers.ServerList.Shutdown: counts close requests. It does not model what `server.close()` does to a listener that has already stopped, since that is runtime behaviour outside the program.
- Port numbers and counters are unbounded integers, while the source uses JavaScript numbers. Both are exact at any size the program can reach, so nothing wraps around.
