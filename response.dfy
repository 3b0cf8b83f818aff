/**
 * The response policy: what a connection sends, chosen once from the
 * configuration, and the exchange of chunks and messages it produces over a
 * connection's life.
 */
module Response {
  import opened Wrappers

  newtype byte = x: int | 0 <= x < 256

  /** One received buffer. */
  type Chunk = seq<byte>

  /**
   * `SendOnConnect`: `connectionSend` is sent once on accept and no data handler
   * is installed; `ReplyOnData`: every data event is answered with
   * `connectionReply`; `Silent`: nothing is sent.
   */
  datatype ResponsePolicy = Silent | SendOnConnect(message: string) | ReplyOnData(reply: string)

  /** `connectionSend` takes precedence over `connectionReply`; unset and empty are alike. */
  function SelectPolicy(connectionSend: Option<string>, connectionReply: Option<string>): (p: ResponsePolicy)
    ensures p.SendOnConnect? <==> Truthy(connectionSend)
    ensures p.SendOnConnect? ==> p.message == connectionSend.value
    ensures p.ReplyOnData? <==> !Truthy(connectionSend) && Truthy(connectionReply)
    ensures p.ReplyOnData? ==> p.reply == connectionReply.value
  {
    if Truthy(connectionSend) then SendOnConnect(connectionSend.value)
    else if Truthy(connectionReply) then ReplyOnData(connectionReply.value)
    else Silent
  }

  /** A connection's `chunks` and `sent` lists. */
  datatype Exchange = Exchange(chunks: seq<Chunk>, sent: seq<string>)

  /** The lists right after accept. */
  function Opened(p: ResponsePolicy): Exchange {
    match p
    case SendOnConnect(m) => Exchange([], [m])
    case _ => Exchange([], [])
  }

  /** One data event: it reaches a handler only under `ReplyOnData`. */
  function Received(p: ResponsePolicy, e: Exchange, chunk: Chunk): Exchange {
    match p
    case ReplyOnData(m) => Exchange(e.chunks + [chunk], e.sent + [m])
    case _ => e
  }

  /** The lists after accept followed by the data events `events`, in order. */
  function Replay(p: ResponsePolicy, events: seq<Chunk>): Exchange
    decreases |events|
  {
    if events == [] then Opened(p)
    else Received(p, Replay(p, events[..|events| - 1]), events[|events| - 1])
  }

  /**
   * The three outcomes: a one-off send that ignores data, one reply per data
   * event with every chunk kept, or silence.
   */
  lemma {:induction false} ReplayOutcome(p: ResponsePolicy, events: seq<Chunk>)
    ensures Replay(p, events) ==
      match p
      case Silent => Exchange([], [])
      case SendOnConnect(m) => Exchange([], [m])
      case ReplyOnData(m) => Exchange(events, seq(|events|, _ => m))
    decreases |events|
  {
    if events != [] {
      var n := |events| - 1;
      ReplayOutcome(p, events[..n]);
      match p
      case ReplyOnData(m) =>
        assert events[..n] + [events[n]] == events;
        assert seq(n, _ => m) + [m] == seq(n + 1, _ => m);
      case _ =>
    }
  }
}
