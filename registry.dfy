/**
 * The array operations the listener applies to its connection lists: `find`
 * on the history, `findIndex` and `splice` on the active list, and the
 * first-seen count kept in `uniqueConnectionCount`.
 */
module Registry {
  import opened Wrappers

  /** The first index at which `x` occurs in `xs`. */
  function FirstIndex<T(==)>(xs: seq<T>, x: T): (r: Option<nat>)
    ensures r.None? <==> x !in xs
    ensures r.Some? ==> r.value < |xs| && xs[r.value] == x && x !in xs[..r.value]
  {
    if xs == [] then None
    else if xs[0] == x then Some(0)
    else match FirstIndex(xs[1..], x)
      case None => None
      case Some(k) =>
        assert xs[..k + 1] == [xs[0]] + xs[1..][..k];
        Some(k + 1)
  }

  /** `Array.prototype.findIndex` comparing with `x`: -1 when nothing matches. */
  function FindIndex<T(==)>(xs: seq<T>, x: T): (k: int)
    ensures -1 <= k < |xs|
    ensures k == -1 <==> x !in xs
    ensures k >= 0 ==> xs[k] == x && x !in xs[..k]
  {
    match FirstIndex(xs, x)
    case None => -1
    case Some(k) => k
  }

  /**
   * `Array.prototype.splice(start, 1)`: a negative start counts from the end
   * (and is clamped at 0); a start past the end removes nothing.
   */
  function SpliceOne<T>(xs: seq<T>, start: int): (r: seq<T>)
    ensures start < |xs| && |xs| > 0 ==> |r| == |xs| - 1
    ensures |xs| == 0 ==> r == []
    ensures start >= |xs| ==> r == xs
    ensures forall y :: y in r ==> y in xs
  {
    var k := if start >= 0 then start else if |xs| + start < 0 then 0 else |xs| + start;
    if k < |xs| then xs[..k] + xs[k + 1..] else xs
  }

  lemma SpliceAt<T>(xs: seq<T>, k: nat)
    requires k < |xs|
    ensures SpliceOne(xs, k) == xs[..k] + xs[k + 1..]
    ensures SpliceOne(xs, k - |xs|) == xs[..k] + xs[k + 1..]
  {
  }

  /**
   * The values `i.rawIp` takes over the active list: a connection object has no
   * `rawIp` property of its own (the address lives in `i.ipInfo.rawIp`), so each
   * reads as undefined.
   */
  function RawIpProperties(n: nat): seq<Option<string>> {
    seq(n, _ => None)
  }

  /**
   * The close handler's
   * `activeConnections.splice(activeConnections.findIndex(i => i.rawIp === rawIp), 1)`.
   */
  function RemoveOnClose<T>(active: seq<T>, rawIp: Option<string>): seq<T> {
    SpliceOne(active, FindIndex(RawIpProperties(|active|), rawIp))
  }

  /**
   * Which entry the close handler removes: for a known address the last one,
   * for an unknown address the first one, whichever connection is closing.
   */
  lemma {:induction false} RemoveOnCloseTakes<T>(active: seq<T>, rawIp: Option<string>)
    requires active != []
    ensures rawIp.Some? ==> RemoveOnClose(active, rawIp) == active[..|active| - 1]
    ensures rawIp.None? ==> RemoveOnClose(active, rawIp) == active[1..]
  {
    var props := RawIpProperties(|active|);
    if rawIp.Some? {
      assert rawIp !in props;
      SpliceAt(active, |active| - 1);
    } else {
      assert props[0] == rawIp;
      SpliceAt(active, 0);
    }
  }

  /**
   * With two connections from different peers active, closing the first one
   * removes the second from the active list and leaves the first in it.
   */
  lemma ClosingFirstRemovesSecond<T>(first: T, second: T, firstAddress: string)
    ensures RemoveOnClose([first, second], Some(firstAddress)) == [first]
  {
    RemoveOnCloseTakes([first, second], Some(firstAddress));
  }

  /**
   * The incremental count behind `uniqueConnectionCount`: an element counts
   * when no earlier element equals it.
   */
  function UniqueCount<T(==)>(xs: seq<T>): (n: nat)
    ensures n <= |xs|
    decreases |xs|
  {
    if xs == [] then 0
    else
      var earlier := xs[..|xs| - 1];
      UniqueCount(earlier) + if FirstIndex(earlier, xs[|xs| - 1]).None? then 1 else 0
  }

  /** One more element counts exactly when it is new. */
  lemma UniqueCountAppend<T>(xs: seq<T>, x: T)
    ensures UniqueCount(xs + [x]) == UniqueCount(xs) + if x in xs then 0 else 1
  {
    assert (xs + [x])[..|xs|] == xs;
  }

  function Elements<T>(xs: seq<T>): set<T> {
    set x | x in xs
  }

  predicate Distinct<T(==)>(xs: seq<T>) {
    forall i, j :: 0 <= i < j < |xs| ==> xs[i] != xs[j]
  }

  /** The incremental count is the number of distinct elements. */
  lemma {:induction false} UniqueCountIsDistinctCount<T>(xs: seq<T>)
    ensures UniqueCount(xs) == |Elements(xs)|
    decreases |xs|
  {
    if xs != [] {
      var earlier, last := xs[..|xs| - 1], xs[|xs| - 1];
      UniqueCountIsDistinctCount(earlier);
      assert xs == earlier + [last];
      assert Elements(xs) == Elements(earlier) + {last};
      if last in earlier {
        assert Elements(xs) == Elements(earlier);
      } else {
        assert last !in Elements(earlier);
      }
    }
  }

  /** A sequence without repetitions has as many elements as it is long. */
  lemma {:induction false} DistinctCard<T>(xs: seq<T>)
    requires Distinct(xs)
    ensures |Elements(xs)| == |xs|
    decreases |xs|
  {
    if xs != [] {
      var earlier, last := xs[..|xs| - 1], xs[|xs| - 1];
      DistinctCard(earlier);
      assert xs == earlier + [last];
      assert Elements(xs) == Elements(earlier) + {last};
      assert last !in Elements(earlier);
    }
  }

  /** N connections from one address count once. */
  lemma SameAddressCountsOnce<T>(xs: seq<T>, a: T)
    requires xs != [] && forall i :: 0 <= i < |xs| ==> xs[i] == a
    ensures UniqueCount(xs) == 1
  {
    UniqueCountIsDistinctCount(xs);
    assert Elements(xs) == {a};
  }

  /** N connections from N distinct addresses count N times. */
  lemma DistinctAddressesCountEach<T>(xs: seq<T>)
    requires Distinct(xs)
    ensures UniqueCount(xs) == |xs|
  {
    UniqueCountIsDistinctCount(xs);
    DistinctCard(xs);
  }
}
