/** `calculate_robust_duration`: the length of a flight, computed from the
    timestamps of its telemetry after an inter-quartile-range outlier
    filter. Timestamps are real seconds; floating-point rounding is not
    modelled. */
module Duration {
  import opened Types

  ghost predicate SortedAsc(s: seq<real>) {
    forall i, j :: 0 <= i < j < |s| ==> s[i] <= s[j]
  }

  /** The smallest element of a non-empty sequence. */
  function MinOf(s: seq<real>): (m: real)
    requires |s| > 0
    ensures m in s
    ensures forall x :: x in s ==> m <= x
  {
    if |s| == 1 then s[0]
    else
      var rest := MinOf(s[1..]);
      assert forall x :: x in s ==> x == s[0] || x in s[1..];
      if s[0] <= rest then s[0] else rest
  }

  /** The largest element of a non-empty sequence. */
  function MaxOf(s: seq<real>): (m: real)
    requires |s| > 0
    ensures m in s
    ensures forall x :: x in s ==> x <= m
  {
    if |s| == 1 then s[0]
    else
      var rest := MaxOf(s[1..]);
      assert forall x :: x in s ==> x == s[0] || x in s[1..];
      if s[0] >= rest then s[0] else rest
  }

  /** A sorted sequence starts with its smallest element. */
  lemma SortedHeadIsLeast(s: seq<real>)
    requires SortedAsc(s) && |s| > 0
    ensures forall y :: y in s ==> s[0] <= y
  {
    forall y | y in s ensures s[0] <= y {
      var k :| 0 <= k < |s| && s[k] == y;
    }
  }

  /** A sorted sequence ends with its largest element. */
  lemma SortedLastIsGreatest(s: seq<real>)
    requires SortedAsc(s) && |s| > 0
    ensures forall y :: y in s ==> y <= s[|s| - 1]
  {
    forall y | y in s ensures y <= s[|s| - 1] {
      var k :| 0 <= k < |s| && s[k] == y;
    }
  }

  /** A sorted sequence stays sorted under a new head that is no larger
      than any of its elements. */
  lemma SortedCons(h: real, t: seq<real>)
    requires SortedAsc(t)
    requires forall y :: y in t ==> h <= y
    ensures SortedAsc([h] + t)
  {
    var r := [h] + t;
    forall i, j | 0 <= i < j < |r| ensures r[i] <= r[j] {
      if i == 0 {
        assert r[j] == t[j - 1];
        assert t[j - 1] in t;
      } else {
        assert r[i] == t[i - 1] && r[j] == t[j - 1];
      }
    }
  }

  /** Places x in front of the first element of s that is not smaller. */
  function Insert(x: real, s: seq<real>): (r: seq<real>)
    requires SortedAsc(s)
    ensures SortedAsc(r)
    ensures multiset(r) == multiset(s) + multiset{x}
  {
    if s == [] then [x]
    else if x <= s[0] then
      SortedHeadIsLeast(s);
      SortedCons(x, s);
      [x] + s
    else
      assert s == [s[0]] + s[1..];
      assert SortedAsc(s[1..]);
      var tail := Insert(x, s[1..]);
      SortedHeadIsLeast(s);
      forall y | y in tail ensures s[0] <= y {
        assert y in multiset(tail);
        if y != x {
          assert y in multiset(s[1..]);
          assert y in s;
        }
      }
      SortedCons(s[0], tail);
      [s[0]] + tail
  }

  /** Python's `sorted` on a list of timestamps. */
  function SortAsc(s: seq<real>): (r: seq<real>)
    ensures SortedAsc(r)
    ensures multiset(r) == multiset(s)
  {
    if s == [] then []
    else
      assert s == [s[0]] + s[1..];
      Insert(s[0], SortAsc(s[1..]))
  }

  /** The timestamps of the points that have one, in order
      (`[dp.timestamp for dp in flight_data if dp.timestamp]`). */
  function Timestamps(points: seq<DataPoint>): (ts: seq<real>)
    ensures |ts| <= |points|
  {
    if points == [] then []
    else
      var rest := Timestamps(points[1..]);
      match points[0].timestamp
      case Some(t) => [t] + rest
      case None => rest
  }

  /** Exactly the timestamps the points carry are collected. */
  lemma {:induction false} TimestampsOf(points: seq<DataPoint>)
    ensures var ts := Timestamps(points);
            && (forall i :: 0 <= i < |points| && points[i].timestamp.Some? ==> points[i].timestamp.value in ts)
            && (forall t :: t in ts ==> exists i :: 0 <= i < |points| && points[i].timestamp == Some(t))
  {
    if points != [] {
      TimestampsOf(points[1..]);
      assert forall i :: 1 <= i < |points| ==> points[i] == points[1..][i - 1];
      var rest := Timestamps(points[1..]);
      forall t | t in Timestamps(points)
        ensures exists i :: 0 <= i < |points| && points[i].timestamp == Some(t)
      {
        if t in rest {
          var k :| 0 <= k < |points[1..]| && points[1..][k].timestamp == Some(t);
          assert points[k + 1].timestamp == Some(t);
        } else {
          assert points[0].timestamp == Some(t);
        }
      }
    }
  }

  /** The elements of s inside the closed interval [lo, hi], in order. */
  function Within(s: seq<real>, lo: real, hi: real): (r: seq<real>)
    ensures |r| <= |s|
    ensures forall x :: x in r <==> x in s && lo <= x <= hi
  {
    if s == [] then []
    else
      var rest := Within(s[1..], lo, hi);
      assert forall x :: x in s <==> x == s[0] || x in s[1..];
      if lo <= s[0] <= hi then [s[0]] + rest else rest
  }

  lemma {:induction false} WithinSorted(s: seq<real>, lo: real, hi: real)
    requires SortedAsc(s)
    ensures SortedAsc(Within(s, lo, hi))
  {
    if s != [] {
      assert SortedAsc(s[1..]);
      WithinSorted(s[1..], lo, hi);
      var rest := Within(s[1..], lo, hi);
      if lo <= s[0] <= hi {
        SortedHeadIsLeast(s);
        assert forall y :: y in rest ==> y in s;
        SortedCons(s[0], rest);
      }
    }
  }

  /** Two distinct positions inside the interval leave at least two
      survivors. */
  lemma {:induction false} WithinKeepsTwo(s: seq<real>, lo: real, hi: real, i: nat, j: nat)
    requires i < j < |s|
    requires lo <= s[i] <= hi && lo <= s[j] <= hi
    ensures |Within(s, lo, hi)| >= 2
  {
    if i == 0 {
      assert s[j] in s[1..];
      assert s[j] in Within(s[1..], lo, hi);
    } else {
      assert s[1..][i - 1] == s[i] && s[1..][j - 1] == s[j];
      WithinKeepsTwo(s[1..], lo, hi, i - 1, j - 1);
    }
  }

  /** The first and last timestamps of an ascending sequence are its
      minimum and maximum. */
  lemma SortedEnds(s: seq<real>)
    requires |s| > 0
    ensures |SortAsc(s)| == |s|
    ensures SortAsc(s)[0] == MinOf(s) && SortAsc(s)[|s| - 1] == MaxOf(s)
  {
    SortedPermutationEnds(SortAsc(s), s);
  }

  lemma SortedPermutationEnds(r: seq<real>, s: seq<real>)
    requires |s| > 0 && SortedAsc(r) && multiset(r) == multiset(s)
    ensures |r| == |s|
    ensures r[0] == MinOf(s) && r[|s| - 1] == MaxOf(s)
  {
    assert |r| == |s| by {
      assert |r| == |multiset(r)| && |s| == |multiset(s)|;
    }
    var lo, hi := MinOf(s), MaxOf(s);
    assert r[0] in multiset(r) && r[|r| - 1] in multiset(r);
    assert lo in multiset(s) && hi in multiset(s);
    assert r[0] in s && r[|r| - 1] in s;
    assert lo in r && hi in r;
    SortedHeadIsLeast(r);
    SortedLastIsGreatest(r);
  }

  /** The survivors of the outlier filter, for n >= 4 sorted timestamps:
      quartile positions `int(n * 0.25)` and `int(n * 0.75)`, bounds
      `q1 - 2.5 * iqr` and `q3 + 2.5 * iqr`. */
  function Survivors(ts: seq<real>): (kept: seq<real>)
    requires |ts| >= 4
  {
    var n := |ts|;
    var q1 := ts[n / 4];
    var q3 := ts[3 * n / 4];
    var iqr := q3 - q1;
    Within(ts, q1 - 2.5 * iqr, q3 + 2.5 * iqr)
  }

  /** The duration read off ascending timestamps: the plain span below
      four of them, the span of the survivors of the outlier filter from
      four on. */
  function SortedDuration(ts: seq<real>): (d: real)
    requires SortedAsc(ts)
    ensures d >= 0.0
  {
    if |ts| < 2 then 0.0
    else if |ts| < 4 then ts[|ts| - 1] - ts[0]
    else
      var kept := Survivors(ts);
      WithinSorted(ts, ts[|ts| / 4] - 2.5 * (ts[3 * |ts| / 4] - ts[|ts| / 4]),
                       ts[3 * |ts| / 4] + 2.5 * (ts[3 * |ts| / 4] - ts[|ts| / 4]));
      if |kept| < 2 then ts[|ts| - 1] - ts[0]  // fallback: never taken (FallbackUnreachable)
      else kept[|kept| - 1] - kept[0]
  }

  /** `calculate_robust_duration`. */
  function RobustDuration(points: seq<DataPoint>): (d: real)
    ensures d >= 0.0
  {
    if |points| < 2 then 0.0
    else SortedDuration(SortAsc(Timestamps(points)))
  }

  /** Fewer than two points, or fewer than two timestamps, give 0. */
  lemma ShortInputIsZero(points: seq<DataPoint>)
    requires |points| < 2 || |Timestamps(points)| < 2
    ensures RobustDuration(points) == 0.0
  {
  }

  /** With two or three timestamps there is no filtering: the duration is
      the latest minus the earliest timestamp. */
  lemma FewTimestampsSpan(points: seq<DataPoint>)
    requires |points| >= 2
    requires 2 <= |Timestamps(points)| <= 3
    ensures RobustDuration(points) == MaxOf(Timestamps(points)) - MinOf(Timestamps(points))
  {
    var ts := Timestamps(points);
    var sorted := SortAsc(ts);
    SortedEnds(ts);
    assert RobustDuration(points) == SortedDuration(sorted);
  }

  /** The two quartile values always survive the filter and sit at
      distinct positions, so the fallback of the source (return the full
      span when fewer than two timestamps survive) is never taken. */
  lemma FallbackUnreachable(ts: seq<real>)
    requires |ts| >= 4
    requires SortedAsc(ts)
    ensures |Survivors(ts)| >= 2
  {
    var n := |ts|;
    var q1, q3 := ts[n / 4], ts[3 * n / 4];
    assert n / 4 < 3 * n / 4 < n;
    WithinKeepsTwo(ts, q1 - 2.5 * (q3 - q1), q3 + 2.5 * (q3 - q1), n / 4, 3 * n / 4);
  }

  /** The survivors of a sorted sequence span at least the two quartiles
      and at most the whole sequence. */
  lemma SurvivorBounds(ts: seq<real>)
    requires |ts| >= 4 && SortedAsc(ts)
    ensures |Survivors(ts)| >= 2
    ensures var kept := Survivors(ts);
            kept[0] <= ts[|ts| / 4] && ts[3 * |ts| / 4] <= kept[|kept| - 1]
    ensures var kept := Survivors(ts);
            ts[0] <= kept[0] && kept[|kept| - 1] <= ts[|ts| - 1]
  {
    var n := |ts|;
    var q1, q3 := ts[n / 4], ts[3 * n / 4];
    var lo, hi := q1 - 2.5 * (q3 - q1), q3 + 2.5 * (q3 - q1);
    FallbackUnreachable(ts);
    WithinSorted(ts, lo, hi);
    var kept := Within(ts, lo, hi);
    assert kept == Survivors(ts);
    assert q1 <= q3;
    SortedEndsBound(kept, q1, q3);
    SortedPieceEnds(ts, kept);
  }

  /** The ends of a sorted sequence bound any two of its elements. */
  lemma SortedEndsBound(r: seq<real>, a: real, b: real)
    requires SortedAsc(r) && a in r && b in r
    ensures r[0] <= a && b <= r[|r| - 1]
  {
    SortedHeadIsLeast(r);
    SortedLastIsGreatest(r);
  }

  /** A sorted selection from a sorted sequence lies between its ends. */
  lemma SortedPieceEnds(s: seq<real>, r: seq<real>)
    requires SortedAsc(s) && |s| > 0 && |r| > 0 && forall y :: y in r ==> y in s
    ensures s[0] <= r[0] && r[|r| - 1] <= s[|s| - 1]
  {
    assert r[0] in r && r[|r| - 1] in r;
    SortedEndsBound(s, r[0], r[|r| - 1]);
  }

  /** With four or more timestamps the duration lies between the
      inter-quartile range and the full span. */
  lemma LargeInputBounds(points: seq<DataPoint>)
    requires |points| >= 2
    requires |Timestamps(points)| >= 4
    ensures var ts := SortAsc(Timestamps(points));
            var n := |ts|;
            ts[3 * n / 4] - ts[n / 4] <= RobustDuration(points)
    ensures RobustDuration(points) <= MaxOf(Timestamps(points)) - MinOf(Timestamps(points))
  {
    var raw := Timestamps(points);
    var ts := SortAsc(raw);
    SortedDurationBounds(ts, raw);
    assert RobustDuration(points) == SortedDuration(ts);
  }

  lemma SortedDurationBounds(ts: seq<real>, raw: seq<real>)
    requires |raw| >= 4 && SortedAsc(ts) && multiset(ts) == multiset(raw)
    ensures |ts| == |raw|
    ensures ts[3 * |ts| / 4] - ts[|ts| / 4] <= SortedDuration(ts) <= MaxOf(raw) - MinOf(raw)
  {
    SortedPermutationEnds(ts, raw);
    SortedDurationWithin(ts);
  }

  /** From four sorted timestamps on, the duration lies between the
      inter-quartile range and the full span. */
  lemma SortedDurationWithin(ts: seq<real>)
    requires |ts| >= 4 && SortedAsc(ts)
    ensures ts[3 * |ts| / 4] - ts[|ts| / 4] <= SortedDuration(ts) <= ts[|ts| - 1] - ts[0]
  {
    SurvivorBounds(ts);
    SurvivorSpan(ts);
  }

  lemma SurvivorSpan(ts: seq<real>)
    requires |ts| >= 4 && SortedAsc(ts)
    requires |Survivors(ts)| >= 2
    ensures SortedDuration(ts) == Survivors(ts)[|Survivors(ts)| - 1] - Survivors(ts)[0]
  {
  }
}
