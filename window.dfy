/** The sliding time window over the history table.

    The window is anchored on the largest timestamp present in the table, never
    on the wall clock, and keeps every row whose timestamp is at least the anchor
    minus the retention; the boundary is inclusive. It is a filter: rows keep the
    order in which they were appended, which need not be timestamp order. */
module Window {
  import opened Telemetry

  /** The largest timestamp in a non-empty table (the column maximum). */
  function MaxTimestamp(h: seq<Record>): (m: int)
    requires |h| > 0
    ensures forall i :: 0 <= i < |h| ==> h[i].timestamp <= m
    ensures exists i :: 0 <= i < |h| && h[i].timestamp == m
  {
    if |h| == 1 then h[0].timestamp
    else
      var rest := MaxTimestamp(h[1..]);
      assert forall i :: 1 <= i < |h| ==> h[i] == h[1..][i - 1];
      if h[0].timestamp >= rest then h[0].timestamp else rest
  }

  /** A row at least as new as every other holds the maximum timestamp. */
  lemma MaxTimestampAt(h: seq<Record>, j: int)
    requires 0 <= j < |h|
    requires forall i :: 0 <= i < |h| ==> h[i].timestamp <= h[j].timestamp
    ensures MaxTimestamp(h) == h[j].timestamp
  {
  }

  /** The rows whose timestamp is at least `lo`, in their original order. */
  function KeepFrom(h: seq<Record>, lo: int): (k: seq<Record>)
    ensures |k| <= |h|
    ensures forall i :: 0 <= i < |k| ==> k[i].timestamp >= lo
  {
    if h == [] then []
    else
      var rest := KeepFrom(h[1..], lo);
      if h[0].timestamp >= lo then [h[0]] + rest else rest
  }

  /** The filter keeps every copy of a row that meets the bound and no copy of
      one that does not. */
  lemma {:induction false} KeepFromCounts(h: seq<Record>, lo: int, r: Record)
    ensures multiset(KeepFrom(h, lo))[r] == if r.timestamp >= lo then multiset(h)[r] else 0
  {
    if h != [] {
      KeepFromCounts(h[1..], lo, r);
      assert h == [h[0]] + h[1..];
      assert multiset(h) == multiset([h[0]]) + multiset(h[1..]);
      if h[0].timestamp >= lo {
        var rest := KeepFrom(h[1..], lo);
        assert multiset([h[0]] + rest) == multiset([h[0]]) + multiset(rest);
      }
    }
  }

  /** First timestamp the window retains for a table whose newest row is at `anchor`. */
  function WindowStart(anchor: int): int
  {
    anchor - WINDOW_SECONDS
  }

  /** The eviction step of one refresh cycle: every row at most the retention
      older than the newest row is kept, with its multiplicity, and no other. */
  function Evict(h: seq<Record>): (e: seq<Record>)
    ensures h == [] ==> e == []
    ensures h != [] ==>
      forall r :: multiset(e)[r] == if MaxTimestamp(h) - r.timestamp <= WINDOW_SECONDS then multiset(h)[r] else 0
  {
    if h == [] then []
    else
      var lo := WindowStart(MaxTimestamp(h));
      assert forall r :: multiset(KeepFrom(h, lo))[r] == if r.timestamp >= lo then multiset(h)[r] else 0 by {
        forall r
          ensures multiset(KeepFrom(h, lo))[r] == if r.timestamp >= lo then multiset(h)[r] else 0
        {
          KeepFromCounts(h, lo, r);
        }
      }
      KeepFrom(h, lo)
  }

  /** Eviction retains exactly the rows within the retention of the newest one,
      with their multiplicities: a row is kept iff anchor - timestamp <= 3600. */
  lemma EvictKeepsExactlyTheWindow(h: seq<Record>, r: Record)
    requires |h| > 0
    ensures multiset(Evict(h))[r] ==
      if MaxTimestamp(h) - r.timestamp <= WINDOW_SECONDS then multiset(h)[r] else 0
    ensures r in Evict(h) <==> r in h && MaxTimestamp(h) - r.timestamp <= WINDOW_SECONDS
  {
    assert r in Evict(h) <==> multiset(Evict(h))[r] > 0;
    assert r in h <==> multiset(h)[r] > 0;
  }

  /** Filtering is order-preserving: it commutes with appending. */
  lemma {:induction false} KeepFromAppend(a: seq<Record>, b: seq<Record>, lo: int)
    ensures KeepFrom(a + b, lo) == KeepFrom(a, lo) + KeepFrom(b, lo)
  {
    if a == [] {
      assert a + b == b;
    } else {
      assert (a + b)[1..] == a[1..] + b;
      KeepFromAppend(a[1..], b, lo);
    }
  }

  /** Filtering keeps a row that satisfies the bound at its place, so the
      order of the table is never changed. */
  lemma {:induction false} KeepFromAll(h: seq<Record>, lo: int)
    requires forall i :: 0 <= i < |h| ==> h[i].timestamp >= lo
    ensures KeepFrom(h, lo) == h
  {
    if h != [] {
      KeepFromAll(h[1..], lo);
    }
  }

  /** Filtering twice with the same bound removes nothing more. */
  lemma {:induction false} KeepFromTwice(h: seq<Record>, lo: int)
    ensures KeepFrom(KeepFrom(h, lo), lo) == KeepFrom(h, lo)
  {
    if h != [] {
      KeepFromTwice(h[1..], lo);
      if h[0].timestamp >= lo {
        assert KeepFrom(h, lo) == [h[0]] + KeepFrom(h[1..], lo);
        assert ([h[0]] + KeepFrom(h[1..], lo))[1..] == KeepFrom(h[1..], lo);
      }
    }
  }

  /** The rows holding the newest timestamp always survive eviction, so the
      window of a non-empty table is non-empty and keeps the same anchor. */
  lemma EvictKeepsNewest(h: seq<Record>)
    requires |h| > 0
    ensures |Evict(h)| > 0
    ensures MaxTimestamp(Evict(h)) == MaxTimestamp(h)
    ensures forall i :: 0 <= i < |h| && h[i].timestamp == MaxTimestamp(h) ==> h[i] in Evict(h)
  {
    var m := MaxTimestamp(h);
    var e := Evict(h);
    forall i | 0 <= i < |h| && h[i].timestamp == m
      ensures h[i] in e
    {
      EvictKeepsExactlyTheWindow(h, h[i]);
    }
    var j :| 0 <= j < |h| && h[j].timestamp == m;
    assert h[j] in e;
    forall i | 0 <= i < |e|
      ensures e[i].timestamp <= m
    {
      EvictKeepsExactlyTheWindow(h, e[i]);
    }
    var jj :| 0 <= jj < |e| && e[jj] == h[j];
    assert e[jj].timestamp == m;
  }

  /** Eviction is idempotent: evicting a window again removes nothing. */
  lemma EvictIdempotent(h: seq<Record>)
    ensures Evict(Evict(h)) == Evict(h)
  {
    if h != [] {
      EvictKeepsNewest(h);
      KeepFromTwice(h, WindowStart(MaxTimestamp(h)));
    }
  }

  /** Every row of an evicted table lies within the retention of its newest row. */
  lemma EvictWithinWindow(h: seq<Record>)
    requires |h| > 0
    ensures |Evict(h)| > 0
    ensures forall i :: 0 <= i < |Evict(h)| ==>
      MaxTimestamp(Evict(h)) - Evict(h)[i].timestamp <= WINDOW_SECONDS
  {
    EvictKeepsNewest(h);
    forall i | 0 <= i < |Evict(h)|
      ensures MaxTimestamp(Evict(h)) - Evict(h)[i].timestamp <= WINDOW_SECONDS
    {
      EvictKeepsExactlyTheWindow(h, Evict(h)[i]);
    }
  }

  /** A single row is kept exactly when it meets the bound. */
  lemma KeepFromSingleton(x: Record, lo: int)
    ensures KeepFrom([x], lo) == if x.timestamp >= lo then [x] else []
  {
    assert [x][1..] == [];
  }

  /** Eviction never re-sorts: if the last appended row is retained it is still
      the last row afterwards, whatever its timestamp. */
  lemma EvictKeepsLastAppendedLast(h: seq<Record>)
    requires |h| > 0
    requires MaxTimestamp(h) - Last(h).timestamp <= WINDOW_SECONDS
    ensures |Evict(h)| > 0 && Last(Evict(h)) == Last(h)
  {
    var n := |h|;
    var lo := WindowStart(MaxTimestamp(h));
    var x := h[n - 1];
    var init := h[..n - 1];
    SplitLast(h);
    KeepFromAppend(init, [x], lo);
    KeepFromSingleton(x, lo);
    assert Evict(h) == KeepFrom(init, lo) + [x];
  }

  /** A non-empty table is its rows before the last, then the last. */
  lemma SplitLast(h: seq<Record>)
    requires |h| > 0
    ensures h == h[..|h| - 1] + [h[|h| - 1]]
  {
  }

  /** Timestamps do not decrease along the table. */
  predicate Sorted(h: seq<Record>)
  {
    forall i, j :: 0 <= i < j < |h| ==> h[i].timestamp <= h[j].timestamp
  }

  /** Eviction keeps a time-ordered table time-ordered (it never sorts one that
      is not, see `LatestRowMayBeOlder`). */
  lemma {:induction false} KeepFromSorted(h: seq<Record>, lo: int)
    requires Sorted(h)
    ensures Sorted(KeepFrom(h, lo))
  {
    if h != [] {
      KeepFromSorted(h[1..], lo);
      var rest := KeepFrom(h[1..], lo);
      forall i | 0 <= i < |rest|
        ensures h[0].timestamp <= rest[i].timestamp
      {
        KeepFromCounts(h[1..], lo, rest[i]);
        assert multiset(rest)[rest[i]] > 0;
        assert multiset(h[1..])[rest[i]] > 0;
        assert rest[i] in h[1..];
      }
    }
  }

  /** Arrival order is kept: a row appended after a newer one stays last and is
      older than the anchor. */
  lemma LatestRowMayBeOlder()
    ensures var h := [Record(7200, 50.0, 0.0, 0.0, 0.0, 0.0, 0.0),
                      Record(5400, 40.0, 0.0, 0.0, 0.0, 0.0, 0.0)];
            && Evict(h) == h
            && Last(Evict(h)).timestamp < MaxTimestamp(Evict(h))
            && !Sorted(Evict(h))
  {
    var h := [Record(7200, 50.0, 0.0, 0.0, 0.0, 0.0, 0.0),
              Record(5400, 40.0, 0.0, 0.0, 0.0, 0.0, 0.0)];
    MaxTimestampAt(h, 0);
    KeepFromAll(h, WindowStart(7200));
  }

  /** Readings every ten minutes from minute 0 to minute 70: the reading at
      minute 0 is evicted and the one at minute 10, exactly 60 minutes before
      the newest, is kept. */
  lemma TenMinuteScenario()
    ensures var h := seq(8, i => Record(i * 600, 0.0, 0.0, 0.0, 0.0, 0.0, 0.0));
            Evict(h) == h[1..]
  {
    var h := seq(8, i => Record(i * 600, 0.0, 0.0, 0.0, 0.0, 0.0, 0.0));
    MaxTimestampAt(h, 7);
    assert Evict(h) == KeepFrom(h, 600);
    assert h[0].timestamp < 600;
    assert KeepFrom(h, 600) == KeepFrom(h[1..], 600);
    KeepFromAll(h[1..], 600);
  }
}
