/** The consensus arithmetic of the pool manager: thresholds, the consensus serial and the error serial. */
module Consensus {
  import opened Wrappers
  import opened Storage
  import opened CentralStatus

  /** Counts come from `nameservers`, percentages from the number of `targets`. */
  datatype Pool = Pool(nameservers: seq<Id>, targets: nat, threshold: int)

  /** A pool manager status; `None` is the status of an entry nobody has reported on. */
  datatype Row = Row(nameserver: Id, status: Option<Verdict>, serial: nat)

  const MAXIMUM_THRESHOLD := 100

  /** `_exceed_or_meet_threshold`; a threshold of 0 is falsy and means the pool's own. */
  predicate Meets(pool: Pool, count: nat, threshold: int)
    requires pool.targets > 0
  {
    count * 100 >= (if threshold != 0 then threshold else pool.threshold) * pool.targets
  }

  lemma PercentageMeets(count: nat, targets: nat, threshold: int)
    requires targets > 0
    ensures count as real / targets as real * 100.0 >= threshold as real <==> count * 100 >= threshold * targets
  {
    var share := count as real / targets as real;
    assert share * targets as real == count as real;
    assert (share * 100.0 - threshold as real) * targets as real == (count * 100 - threshold * targets) as real;
  }

  /** `_exceed_or_meet_threshold` */
  method ExceedOrMeetThreshold(pool: Pool, count: nat, threshold: int) returns (met: bool)
    requires pool.targets > 0
    ensures met == Meets(pool, count, threshold)
    ensures threshold != 0 ==> (met <==> 100 * count >= threshold * pool.targets)
    ensures threshold == 0 ==> (met <==> 100 * count >= pool.threshold * pool.targets)
  {
    var threshold := if threshold == 0 then pool.threshold else threshold;
    var perc := count as real / pool.targets as real * 100.0;
    met := perc >= threshold as real;
    PercentageMeets(count, pool.targets, threshold);
  }

  function CountAtLeast(rows: seq<Row>, serial: nat): nat {
    if rows == [] then 0
    else CountAtLeast(rows[..|rows| - 1], serial) + if rows[|rows| - 1].serial >= serial then 1 else 0
  }

  function CountStatus(rows: seq<Row>, status: Verdict): nat {
    if rows == [] then 0
    else CountStatus(rows[..|rows| - 1], status) + if rows[|rows| - 1].status == Some(status) then 1 else 0
  }

  /** The positions of the statuses that have reached the serial. */
  function AtLeast(rows: seq<Row>, serial: nat): set<nat> {
    set i: nat | i < |rows| && rows[i].serial >= serial
  }

  /** The positions of the statuses with this verdict. */
  function With(rows: seq<Row>, status: Verdict): set<nat> {
    set i: nat | i < |rows| && rows[i].status == Some(status)
  }

  lemma AtLeastSnoc(rows: seq<Row>, serial: nat)
    requires rows != []
    ensures var n := |rows| - 1;
            |AtLeast(rows, serial)| == |AtLeast(rows[..n], serial)| + if rows[n].serial >= serial then 1 else 0
  {
    var n := |rows| - 1;
    var before, last: set<nat> := AtLeast(rows[..n], serial), if rows[n].serial >= serial then {n} else {};
    assert forall i: nat :: i in AtLeast(rows, serial) <==> i in before || i in last;
    assert AtLeast(rows, serial) == before + last;
  }

  /** The count is the number of statuses that have reached the serial. */
  lemma {:induction false} CountIsSize(rows: seq<Row>, serial: nat)
    ensures CountAtLeast(rows, serial) == |AtLeast(rows, serial)|
  {
    if rows != [] {
      CountIsSize(rows[..|rows| - 1], serial);
      AtLeastSnoc(rows, serial);
    }
  }

  lemma WithSnoc(rows: seq<Row>, status: Verdict)
    requires rows != []
    ensures var n := |rows| - 1;
            |With(rows, status)| == |With(rows[..n], status)| + if rows[n].status == Some(status) then 1 else 0
  {
    var n := |rows| - 1;
    var before, last: set<nat> := With(rows[..n], status), if rows[n].status == Some(status) then {n} else {};
    assert forall i: nat :: i in With(rows, status) <==> i in before || i in last;
    assert With(rows, status) == before + last;
  }

  /** The count is the number of statuses with this verdict. */
  lemma {:induction false} StatusCountIsSize(rows: seq<Row>, status: Verdict)
    ensures CountStatus(rows, status) == |With(rows, status)|
  {
    if rows != [] {
      StatusCountIsSize(rows[..|rows| - 1], status);
      WithSnoc(rows, status);
    }
  }

  lemma {:induction false} CountPositive(rows: seq<Row>, serial: nat)
    ensures CountAtLeast(rows, serial) > 0 <==> exists i :: 0 <= i < |rows| && rows[i].serial >= serial
  {
    if rows != [] {
      var n := |rows| - 1;
      CountPositive(rows[..n], serial);
      if CountAtLeast(rows[..n], serial) > 0 {
        var i :| 0 <= i < n && rows[..n][i].serial >= serial;
        assert rows[i].serial >= serial;
      }
      if i :| 0 <= i < |rows| && rows[i].serial >= serial {
        assert i < n ==> rows[..n][i].serial >= serial;
      }
    }
  }

  /** Raising serials and lowering the bar both raise the count. */
  lemma {:induction false} CountMonotone(rows: seq<Row>, more: seq<Row>, high: nat, low: nat)
    requires |rows| == |more| && forall i | 0 <= i < |rows| :: rows[i].serial <= more[i].serial
    requires low <= high
    ensures CountAtLeast(rows, high) <= CountAtLeast(more, low)
  {
    if rows != [] {
      var n := |rows| - 1;
      CountMonotone(rows[..n], more[..n], high, low);
    }
  }

  // ---------- sorting ----------

  predicate Before(a: nat, b: nat, descending: bool) { if descending then a >= b else a <= b }

  predicate Sorted(s: seq<nat>, descending: bool) {
    forall i, j | 0 <= i < j < |s| :: Before(s[i], s[j], descending)
  }

  function Insert(x: nat, s: seq<nat>, descending: bool): (r: seq<nat>)
    requires Sorted(s, descending)
    ensures Sorted(r, descending) && forall y :: y in r <==> y == x || y in s
  {
    if s == [] || Before(x, s[0], descending) then [x] + s
    else
      var rest := Insert(x, s[1..], descending);
      assert forall y | y in rest :: Before(s[0], y, descending) by {
        assert forall y | y in s[1..] :: Before(s[0], y, descending);
      }
      [s[0]] + rest
  }

  /** `_get_sorted_serials` */
  function SortedSerials(rows: seq<Row>, descending: bool): (r: seq<nat>)
    ensures Sorted(r, descending)
    ensures forall x :: x in r <==> exists i :: 0 <= i < |rows| && rows[i].serial == x
  {
    if rows == [] then []
    else
      var rest := SortedSerials(rows[1..], descending);
      var r := Insert(rows[0].serial, rest, descending);
      assert forall x :: x in r <==> exists i :: 0 <= i < |rows| && rows[i].serial == x by {
        forall x
          ensures x in r <==> exists i :: 0 <= i < |rows| && rows[i].serial == x
        {
          if x in rest {
            var i :| 0 <= i < |rows[1..]| && rows[1..][i].serial == x;
            assert rows[i + 1].serial == x;
          }
          if i :| 0 <= i < |rows| && rows[i].serial == x {
            assert i > 0 ==> rows[1..][i - 1].serial == x;
          }
        }
      }
      r
  }

  function Serials(rows: seq<Row>): seq<nat> {
    if rows == [] then [] else [rows[0].serial] + Serials(rows[1..])
  }

  lemma {:induction false} InsertAddsOne(x: nat, s: seq<nat>, descending: bool)
    requires Sorted(s, descending)
    ensures multiset(Insert(x, s, descending)) == multiset(s) + multiset{x}
  {
    if s != [] && !Before(x, s[0], descending) {
      InsertAddsOne(x, s[1..], descending);
      assert s == [s[0]] + s[1..];
    }
  }

  /** Sorting keeps every serial, as often as it was reported. */
  lemma {:induction false} SortingPermutes(rows: seq<Row>, descending: bool)
    ensures multiset(SortedSerials(rows, descending)) == multiset(Serials(rows))
  {
    if rows != [] {
      SortingPermutes(rows[1..], descending);
      InsertAddsOne(rows[0].serial, SortedSerials(rows[1..], descending), descending);
    }
  }

  // ---------- the consensus serial ----------

  /** The greatest serial among the first `k` rows that enough of all rows have reached; 0 if none. */
  function GreatestAgreed(pool: Pool, rows: seq<Row>, k: nat): nat
    requires pool.targets > 0 && k <= |rows|
  {
    if k == 0 then 0
    else
      var best, serial := GreatestAgreed(pool, rows, k - 1), rows[k - 1].serial;
      if Meets(pool, CountAtLeast(rows, serial), pool.threshold) && serial > best then serial else best
  }

  function ConsensusSerial(pool: Pool, rows: seq<Row>): nat
    requires pool.targets > 0
  {
    GreatestAgreed(pool, rows, |rows|)
  }

  lemma {:induction false} GreatestAgreedBound(pool: Pool, rows: seq<Row>, k: nat)
    requires pool.targets > 0 && k <= |rows|
    ensures var best := GreatestAgreed(pool, rows, k);
            && (best > 0 ==> Meets(pool, CountAtLeast(rows, best), pool.threshold)
                             && exists i :: 0 <= i < |rows| && rows[i].serial == best)
            && forall i | 0 <= i < k && Meets(pool, CountAtLeast(rows, rows[i].serial), pool.threshold) ::
                 rows[i].serial <= best
  {
    if k > 0 {
      GreatestAgreedBound(pool, rows, k - 1);
    }
  }

  /** The consensus serial was reported and enough statuses have reached it; no greater one has enough. */
  ghost predicate IsGreatestAgreed(pool: Pool, rows: seq<Row>, consensus: nat) {
    && (consensus > 0 ==>
          (exists i :: 0 <= i < |rows| && rows[i].serial == consensus)
          && 100 * |AtLeast(rows, consensus)| >= pool.threshold * pool.targets)
    && forall i | 0 <= i < |rows| && rows[i].serial > consensus ::
         100 * |AtLeast(rows, rows[i].serial)| < pool.threshold * pool.targets
  }

  lemma ConsensusIsGreatest(pool: Pool, rows: seq<Row>)
    requires pool.targets > 0
    ensures IsGreatestAgreed(pool, rows, ConsensusSerial(pool, rows))
  {
    var c := ConsensusSerial(pool, rows);
    GreatestAgreedBound(pool, rows, |rows|);
    CountIsSize(rows, c);
    forall i | 0 <= i < |rows| && rows[i].serial > c
      ensures 100 * |AtLeast(rows, rows[i].serial)| < pool.threshold * pool.targets
    {
      CountIsSize(rows, rows[i].serial);
    }
  }

  /** `_get_consensus_serial`, once the statuses are there: the descending scan stops at the first serial
      that meets the threshold. */
  method ScanForConsensus(pool: Pool, rows: seq<Row>) returns (consensus: nat)
    requires pool.targets > 0
    ensures consensus == ConsensusSerial(pool, rows) && IsGreatestAgreed(pool, rows, consensus)
  {
    ConsensusIsGreatest(pool, rows);
    consensus := 0;
    var serials := SortedSerials(rows, true);
    GreatestAgreedBound(pool, rows, |rows|);
    ghost var best := ConsensusSerial(pool, rows);
    assert best > 0 ==> best in serials;
    for n := 0 to |serials|
      invariant consensus == 0
      invariant forall m | 0 <= m < n :: !Meets(pool, CountAtLeast(rows, serials[m]), pool.threshold)
    {
      var count: nat := 0;
      for i := 0 to |rows|
        invariant count == CountAtLeast(rows[..i], serials[n])
      {
        if rows[i].serial >= serials[n] {
          count := count + 1;
        }
        assert rows[..i + 1][..i] == rows[..i];
      }
      assert rows[..|rows|] == rows;
      var met := ExceedOrMeetThreshold(pool, count, pool.threshold);
      if met {
        consensus := serials[n];
        assert consensus in serials;
        return;
      }
    }
  }

  /** The consensus serial is an order statistic: the serials up to it are exactly those that some row has
      reached and enough rows have reached. */
  lemma ConsensusIsOrderStatistic(pool: Pool, rows: seq<Row>, serial: nat)
    requires pool.targets > 0 && serial > 0
    ensures serial <= ConsensusSerial(pool, rows)
            <==> CountAtLeast(rows, serial) > 0 && Meets(pool, CountAtLeast(rows, serial), pool.threshold)
    ensures serial <= ConsensusSerial(pool, rows)
            <==> AtLeast(rows, serial) != {} && 100 * |AtLeast(rows, serial)| >= pool.threshold * pool.targets
  {
    CountIsSize(rows, serial);
    var c := ConsensusSerial(pool, rows);
    GreatestAgreedBound(pool, rows, |rows|);
    CountPositive(rows, serial);
    if serial <= c {
      CountMonotone(rows, rows, c, serial);
    } else if CountAtLeast(rows, serial) > 0 {
      var least := LeastAbove(rows, serial - 1);
      SameCount(rows, serial, least);
      var i :| 0 <= i < |rows| && rows[i].serial == least;
      assert !Meets(pool, CountAtLeast(rows, rows[i].serial), pool.threshold);
    }
  }

  lemma {:induction false} SameCount(rows: seq<Row>, low: nat, high: nat)
    requires low <= high && forall i | 0 <= i < |rows| && rows[i].serial >= low :: rows[i].serial >= high
    ensures CountAtLeast(rows, low) == CountAtLeast(rows, high)
  {
    if rows != [] {
      SameCount(rows[..|rows| - 1], low, high);
    }
  }

  /** Nameservers moving forward cannot move the consensus back. */
  lemma ConsensusMonotone(pool: Pool, rows: seq<Row>, more: seq<Row>)
    requires pool.targets > 0 && |rows| == |more|
    requires forall i | 0 <= i < |rows| :: rows[i].serial <= more[i].serial
    ensures ConsensusSerial(pool, rows) <= ConsensusSerial(pool, more)
  {
    var c := ConsensusSerial(pool, rows);
    if c > 0 {
      ConsensusIsOrderStatistic(pool, rows, c);
      ConsensusIsOrderStatistic(pool, more, c);
      CountMonotone(rows, more, c, c);
    }
  }

  // ---------- the error serial ----------

  /** The smallest serial above the consensus; 0 if there is none. */
  function LeastAbove(rows: seq<Row>, consensus: nat): (r: nat)
    ensures r == 0 <==> forall i | 0 <= i < |rows| :: rows[i].serial <= consensus
    ensures r > 0 ==> r > consensus && exists i :: 0 <= i < |rows| && rows[i].serial == r
    ensures r > 0 ==> forall i | 0 <= i < |rows| && rows[i].serial > consensus :: r <= rows[i].serial
  {
    if rows == [] then 0
    else
      var n := |rows| - 1;
      var least, serial := LeastAbove(rows[..n], consensus), rows[n].serial;
      assert forall i | 0 <= i < n :: rows[..n][i] == rows[i];
      if serial > consensus && (least == 0 || serial < least) then serial else least
  }

  /** The ascending scan of `_get_error_serial`. */
  method ScanForError(rows: seq<Row>, consensus: nat) returns (error: nat)
    ensures error == LeastAbove(rows, consensus)
  {
    error := 0;
    var serials := SortedSerials(rows, false);
    ghost var least := LeastAbove(rows, consensus);
    assert least > 0 ==> least in serials;
    for n := 0 to |serials|
      invariant error == 0
      invariant forall m | 0 <= m < n :: serials[m] <= consensus
    {
      if serials[n] > consensus {
        error := serials[n];
        assert error in serials;
        return;
      }
    }
  }

  /** The count of `_is_consensus`. */
  method CountRows(rows: seq<Row>, status: Verdict) returns (count: nat)
    ensures count == CountStatus(rows, status) == |With(rows, status)|
  {
    StatusCountIsSize(rows, status);
    count := 0;
    for i := 0 to |rows|
      invariant count == CountStatus(rows[..i], status)
    {
      if rows[i].status == Some(status) {
        count := count + 1;
      }
      assert rows[..i + 1][..i] == rows[..i];
    }
    assert rows[..|rows|] == rows;
  }
}
