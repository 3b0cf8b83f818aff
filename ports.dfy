/**
 * Which ports get a listener: the start-up loop walks the inclusive range
 * and either reports a port as skipped or creates its listener.
 */
module Ports {

  /**
   * The ports of `lo..hi`, in increasing order, whose membership in `skip`
   * equals `skipped`.
   */
  function RangeWhere(lo: int, hi: int, skip: seq<int>, skipped: bool): seq<int>
    decreases hi - lo + 1
  {
    if lo > hi then []
    else (if (lo in skip) == skipped then [lo] else []) + RangeWhere(lo + 1, hi, skip, skipped)
  }

  /** The ports that get a listener, in the order the listeners are created. */
  function ListenedPorts(lo: int, hi: int, skip: seq<int>): seq<int> {
    RangeWhere(lo, hi, skip, false)
  }

  /** The ports reported as skipped, one notice each, in order. */
  function SkippedPorts(lo: int, hi: int, skip: seq<int>): seq<int> {
    RangeWhere(lo, hi, skip, true)
  }

  /**
   * One step of the start-up loop: having collected `acc` for the ports below
   * `port`, taking `port` in (when it is of the chosen kind) leaves the rest
   * of the range to collect.
   */
  lemma RangeStep(acc: seq<int>, lo: int, port: int, hi: int, skip: seq<int>, skipped: bool)
    requires port <= hi
    requires acc + RangeWhere(port, hi, skip, skipped) == RangeWhere(lo, hi, skip, skipped)
    ensures (if (port in skip) == skipped then acc + [port] else acc) + RangeWhere(port + 1, hi, skip, skipped)
      == RangeWhere(lo, hi, skip, skipped)
  {
    var rest := RangeWhere(port + 1, hi, skip, skipped);
    if (port in skip) == skipped {
      assert RangeWhere(port, hi, skip, skipped) == [port] + rest;
      assert acc + ([port] + rest) == (acc + [port]) + rest;
    } else {
      assert RangeWhere(port, hi, skip, skipped) == [] + rest;
      assert [] + rest == rest;
    }
  }

  predicate Increasing(s: seq<int>) {
    forall i, j :: 0 <= i < j < |s| ==> s[i] < s[j]
  }

  /**
   * `RangeWhere` holds exactly the in-range ports of the chosen kind, each once,
   * in increasing order.
   */
  lemma {:induction false} RangeWhereExact(lo: int, hi: int, skip: seq<int>, skipped: bool)
    ensures forall p :: p in RangeWhere(lo, hi, skip, skipped) <==> lo <= p <= hi && (p in skip) == skipped
    ensures Increasing(RangeWhere(lo, hi, skip, skipped))
    decreases hi - lo + 1
  {
    if lo <= hi {
      RangeWhereExact(lo + 1, hi, skip, skipped);
      var tail := RangeWhere(lo + 1, hi, skip, skipped);
      assert forall k :: 0 <= k < |tail| ==> lo < tail[k] by {
        forall k | 0 <= k < |tail| ensures lo < tail[k] {
          assert tail[k] in tail;
        }
      }
    }
  }

  /** Every port of the range is either listened on or skipped. */
  lemma {:induction false} RangeSplits(lo: int, hi: int, skip: seq<int>)
    ensures |ListenedPorts(lo, hi, skip)| + |SkippedPorts(lo, hi, skip)| == if lo <= hi then hi - lo + 1 else 0
    decreases hi - lo + 1
  {
    if lo <= hi {
      RangeSplits(lo + 1, hi, skip);
    }
  }

  /** The range 8000..8005 with 8002 and 8004 skipped. */
  lemma SkipExample()
    ensures ListenedPorts(8000, 8005, [8002, 8004]) == [8000, 8001, 8003, 8005]
    ensures SkippedPorts(8000, 8005, [8002, 8004]) == [8002, 8004]
  {
    var skip := [8002, 8004];
    assert RangeWhere(8005, 8005, skip, false) == [8005];
    assert RangeWhere(8004, 8005, skip, false) == [8005];
    assert RangeWhere(8003, 8005, skip, false) == [8003, 8005];
    assert RangeWhere(8002, 8005, skip, false) == [8003, 8005];
    assert RangeWhere(8001, 8005, skip, false) == [8001, 8003, 8005];
    assert RangeWhere(8005, 8005, skip, true) == [];
    assert RangeWhere(8004, 8005, skip, true) == [8004];
    assert RangeWhere(8003, 8005, skip, true) == [8004];
    assert RangeWhere(8002, 8005, skip, true) == [8002, 8004];
    assert RangeWhere(8001, 8005, skip, true) == [8002, 8004];
  }
}
