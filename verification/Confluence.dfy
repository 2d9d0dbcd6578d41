/** Reports may arrive in any order and any number of times: between edits the outcome depends only on
    the largest serial reported in success and the largest reported in error. */
module Confluence {
  import opened Wrappers
  import opened Storage
  import opened CentralStatus

  /** How far error reports reach; an error for serial 0 reaches every pending row. */
  datatype Reach = Nowhere | UpTo(serial: nat) | Everywhere

  predicate Succeeded(best: Option<nat>, serial: nat) { best.Some? && serial <= best.value }

  predicate Failed(reach: Reach, serial: nat) {
    reach.Everywhere? || (reach.UpTo? && serial <= reach.serial)
  }

  function Best(reps: seq<Report>): Option<nat> {
    if reps == [] then None
    else
      var n, rest := |reps| - 1, Best(reps[..|reps| - 1]);
      if reps[n].verdict == Success && !Succeeded(rest, reps[n].serial) then Some(reps[n].serial) else rest
  }

  function Worst(reps: seq<Report>): Reach {
    if reps == [] then Nowhere
    else
      var n, rest := |reps| - 1, Worst(reps[..|reps| - 1]);
      if reps[n].verdict == Failure && reps[n].serial == 0 then Everywhere
      else if reps[n].verdict == Failure && !Failed(rest, reps[n].serial) then UpTo(reps[n].serial)
      else rest
  }

  /** `Best` is the largest success serial. */
  lemma {:induction false} BestIsLargest(reps: seq<Report>)
    ensures Best(reps).Some? ==> Report(Success, Best(reps).value) in reps
    ensures forall rep | rep in reps && rep.verdict == Success :: Succeeded(Best(reps), rep.serial)
  {
    if reps != [] {
      var n := |reps| - 1;
      BestIsLargest(reps[..n]);
      assert forall rep | rep in reps :: rep in reps[..n] || rep == reps[n];
      assert reps[n] in reps;
      if Best(reps) == Some(reps[n].serial) && reps[n].verdict == Success {
        assert reps[n] == Report(Success, reps[n].serial);
      }
    }
  }

  lemma {:induction false} WorstIsLargest(reps: seq<Report>)
    ensures Worst(reps).Everywhere? <==> Report(Failure, 0) in reps
    ensures Worst(reps).UpTo? ==> Report(Failure, Worst(reps).serial) in reps
    ensures forall rep | rep in reps && rep.verdict == Failure :: Failed(Worst(reps), rep.serial)
  {
    if reps != [] {
      var n := |reps| - 1;
      WorstIsLargest(reps[..n]);
      assert forall rep | rep in reps :: rep in reps[..n] || rep == reps[n];
      assert reps[n] in reps && reps[n] == Report(reps[n].verdict, reps[n].serial);
      assert forall rep | rep in reps[..n] :: rep in reps;
    }
  }

  // ---------- one row ----------

  /** A row after any reports with these extremes; `None` means deleted. */
  function Settle(row: Zone, best: Option<nat>, reach: Reach): Option<Zone> {
    if Waiting(row.status) && row.action != NoAction && Succeeded(best, row.serial) then
      if row.action == Delete then None else Some(row.(action := NoAction, status := Active))
    else if row.status == Pending && Failed(reach, row.serial) then Some(row.(status := Error))
    else Some(row)
  }

  function Better(best: Option<nat>, rep: Report): Option<nat> {
    if rep.verdict == Success && !Succeeded(best, rep.serial) then Some(rep.serial) else best
  }

  function Further(reach: Reach, rep: Report): Reach {
    if rep.verdict == Failure && rep.serial == 0 then Everywhere
    else if rep.verdict == Failure && !Failed(reach, rep.serial) then UpTo(rep.serial)
    else reach
  }

  lemma SettleStep(row: Zone, best: Option<nat>, reach: Reach, rep: Report)
    requires rep.verdict != NoZone && Settle(row, best, reach).Some?
    ensures var (next, deleted) := Transit(Settle(row, best, reach).value, rep);
            Settle(row, Better(best, rep), Further(reach, rep)) == if deleted then None else Some(next)
  {
  }

  lemma SettleGone(row: Zone, best: Option<nat>, reach: Reach, rep: Report)
    requires Settle(row, best, reach).None?
    ensures Settle(row, Better(best, rep), Further(reach, rep)).None?
  {
  }

  // ---------- the tables ----------

  ghost function Settled(records: Records, zone: Id, best: Option<nat>, reach: Reach): set<Id> {
    set r | r in records && records[r].zone == zone && Settle(RowOf(records[r]), best, reach).None?
  }

  ghost function SettleRecords(records: Records, zone: Id, best: Option<nat>, reach: Reach): Records {
    map r | r in records && r !in Settled(records, zone, best, reach) ::
      if records[r].zone == zone then WithRow(records[r], Settle(RowOf(records[r]), best, reach).value) else records[r]
  }

  ghost function SettleZone(zones: map<Id, Zone>, zone: Id, best: Option<nat>, reach: Reach): map<Id, Zone>
    requires zone in zones
  {
    var row := Settle(zones[zone], best, reach);
    if row.None? then zones - {zone} else zones[zone := row.value]
  }

  /** The tables after any reports with these extremes. */
  ghost function SettleDb(db: Db, zone: Id, best: Option<nat>, reach: Reach): Db
    requires zone in db.zones
  {
    Db(SettleZone(db.zones, zone, best, reach),
       SettleRecords(db.records, zone, best, reach),
       db.recordsets - Emptied(db.records, Settled(db.records, zone, best, reach)))
  }

  /** Deleting in two rounds empties the recordsets that deleting at once does. */
  lemma EmptiedTwice(records: Records, first: set<Id>, between: Records, second: set<Id>)
    requires first <= records.Keys && between.Keys == records.Keys - first && second <= between.Keys
    requires forall r | r in between :: between[r].recordset == records[r].recordset
    ensures Emptied(records, first + second) == Emptied(records, first) + Emptied(between, second)
  {
    forall rs
      ensures rs in Emptied(records, first + second) <==> rs in Emptied(records, first) + Emptied(between, second)
    {
      EmptiedIff(records, first, rs);
      EmptiedIff(records, first + second, rs);
      EmptiedIff(between, second, rs);
      if rs in Emptied(records, first + second) && rs !in Emptied(records, first) {
        var q :| q in records && records[q].recordset == rs && q !in first;
        assert q in second && between[q].recordset == rs;
        assert forall p | p in between && between[p].recordset == rs :: p in second;
      }
      if rs in Emptied(between, second) {
        var r :| r in second && between[r].recordset == rs;
        assert r in first + second && records[r].recordset == rs;
        forall q | q in records && records[q].recordset == rs
          ensures q in first + second
        {
          assert q in first || q in between;
        }
      }
    }
  }

  lemma SettleRecordStep(records: Records, zone: Id, best: Option<nat>, reach: Reach, rep: Report, r: Id)
    requires rep.verdict != NoZone && r in records && records[r].zone == zone
    ensures var between, row := SettleRecords(records, zone, best, reach), RowOf(records[r]);
            var later := Settle(row, Better(best, rep), Further(reach, rep));
            if r !in between then later.None?
            else
              var (next, deleted) := Transit(RowOf(between[r]), rep);
              between[r].zone == zone && later == if deleted then None else Some(next)
  {
    var row := RowOf(records[r]);
    if Settle(row, best, reach).None? {
      SettleGone(row, best, reach, rep);
    } else {
      SettleStep(row, best, reach, rep);
    }
  }

  lemma SettleRecordsStep(records: Records, zone: Id, best: Option<nat>, reach: Reach, rep: Report)
    requires rep.verdict != NoZone
    ensures var between := SettleRecords(records, zone, best, reach);
            && Settled(records, zone, Better(best, rep), Further(reach, rep))
               == Settled(records, zone, best, reach) + DeletedBy(between, zone, rep)
            && RecordsAfter(between, zone, rep) == SettleRecords(records, zone, Better(best, rep), Further(reach, rep))
  {
    var between := SettleRecords(records, zone, best, reach);
    var after := RecordsAfter(between, zone, rep);
    var all := SettleRecords(records, zone, Better(best, rep), Further(reach, rep));
    forall r | r in records
      ensures r in Settled(records, zone, Better(best, rep), Further(reach, rep))
              <==> r in Settled(records, zone, best, reach) || r in DeletedBy(between, zone, rep)
      ensures r in after <==> r in all
      ensures r in after ==> after[r] == all[r]
    {
      if records[r].zone == zone {
        SettleRecordStep(records, zone, best, reach, rep, r);
      } else {
        assert r in between && between[r] == records[r];
      }
    }
  }

  lemma SettleDbStep(db: Db, zone: Id, best: Option<nat>, reach: Reach, rep: Report)
    requires zone in db.zones && Settle(db.zones[zone], best, reach).Some? && rep.verdict != NoZone
    ensures Apply(SettleDb(db, zone, best, reach), zone, rep)
            == SettleDb(db, zone, Better(best, rep), Further(reach, rep))
  {
    var between := SettleRecords(db.records, zone, best, reach);
    var first, second := Settled(db.records, zone, best, reach), DeletedBy(between, zone, rep);
    SettleRecordsStep(db.records, zone, best, reach, rep);
    EmptiedTwice(db.records, first, between, second);
    SettleZoneStep(db.zones, zone, best, reach, rep);
    assert db.recordsets - Emptied(db.records, first) - Emptied(between, second)
        == db.recordsets - (Emptied(db.records, first) + Emptied(between, second));
  }

  lemma SettleZoneStep(zones: map<Id, Zone>, zone: Id, best: Option<nat>, reach: Reach, rep: Report)
    requires zone in zones && Settle(zones[zone], best, reach).Some? && rep.verdict != NoZone
    ensures ZonesAfter(SettleZone(zones, zone, best, reach), zone, rep)
            == SettleZone(zones, zone, Better(best, rep), Further(reach, rep))
  {
    SettleStep(zones[zone], best, reach, rep);
    var row := Settle(zones[zone], best, reach).value;
    assert zones[zone := row] - {zone} == zones - {zone};
  }

  // ---------- runs of reports ----------

  /** Every record has its recordset. */
  ghost predicate AllHoused(db: Db) {
    forall r | r in db.records :: db.records[r].recordset in db.recordsets
  }

  /** Reports received one after the other. */
  ghost function Deliver(db: Db, zone: Id, reps: seq<Report>): Db {
    if reps == [] then db else Receive(Deliver(db, zone, reps[..|reps| - 1]), zone, reps[|reps| - 1])
  }

  lemma SettledIsHoused(db: Db, zone: Id, best: Option<nat>, reach: Reach)
    requires zone in db.zones && AllHoused(db)
    ensures AllHoused(SettleDb(db, zone, best, reach))
  {
    var now := SettleDb(db, zone, best, reach);
    forall r | r in now.records
      ensures now.records[r].recordset in now.recordsets
    {
      EmptiedIff(db.records, Settled(db.records, zone, best, reach), db.records[r].recordset);
    }
  }

  /** The zone is waiting to be deleted, so a success report may remove it. */
  predicate Doomed(row: Zone) { row.action == Delete && Waiting(row.status) }

  /** Whatever removes a zone of this serial settles the row too, and nothing but a success can move it. */
  predicate NotAhead(row: Zone, serial: nat) {
    && (Waiting(row.status) && row.action != NoAction ==> row.serial <= serial)
    && !(row.status == Pending && row.action == NoAction)
  }

  /** If the zone is waiting to be deleted, its records are not ahead of it and none is pending with no action. */
  ghost predicate OrderFree(db: Db, zone: Id)
    requires zone in db.zones
  {
    Doomed(db.zones[zone]) ==>
      forall r | r in db.records && db.records[r].zone == zone :: NotAhead(RowOf(db.records[r]), db.zones[zone].serial)
  }

  /** Once the zone has gone, later reports would not have mattered. */
  lemma SettledForGood(db: Db, zone: Id, best: Option<nat>, reach: Reach, rep: Report)
    requires zone in db.zones && OrderFree(db, zone) && Settle(db.zones[zone], best, reach).None?
    ensures SettleDb(db, zone, Better(best, rep), Further(reach, rep)) == SettleDb(db, zone, best, reach)
  {
    var best', reach' := Better(best, rep), Further(reach, rep);
    forall r | r in db.records && db.records[r].zone == zone
      ensures Settle(RowOf(db.records[r]), best', reach') == Settle(RowOf(db.records[r]), best, reach)
    {
      assert NotAhead(RowOf(db.records[r]), db.zones[zone].serial);
    }
    assert Settled(db.records, zone, best', reach') == Settled(db.records, zone, best, reach);
    assert SettleRecords(db.records, zone, best', reach') == SettleRecords(db.records, zone, best, reach);
  }

  lemma {:induction false} DeliverSettles(db: Db, zone: Id, reps: seq<Report>)
    requires zone in db.zones && OrderFree(db, zone) && AllHoused(db)
    requires forall rep | rep in reps :: rep.verdict != NoZone
    ensures Deliver(db, zone, reps) == SettleDb(db, zone, Best(reps), Worst(reps))
  {
    if reps == [] {
      SettleNothing(db, zone);
    } else {
      var n := |reps| - 1;
      var best, reach := Best(reps[..n]), Worst(reps[..n]);
      assert reps[n] in reps && forall rep | rep in reps[..n] :: rep in reps;
      DeliverSettles(db, zone, reps[..n]);
      SettledIsHoused(db, zone, best, reach);
      if Settle(db.zones[zone], best, reach).Some? {
        SettleDbStep(db, zone, best, reach, reps[n]);
      } else {
        SettledForGood(db, zone, best, reach, reps[n]);
      }
    }
  }

  lemma SettleNothing(db: Db, zone: Id)
    requires zone in db.zones
    ensures SettleDb(db, zone, None, Nowhere) == db
  {
    assert Settled(db.records, zone, None, Nowhere) == {};
    assert SettleRecords(db.records, zone, None, Nowhere) == db.records;
    assert db.recordsets - {} == db.recordsets;
  }

  lemma SameExtremes(one: seq<Report>, other: seq<Report>)
    requires forall rep :: rep in one <==> rep in other
    ensures Best(one) == Best(other) && Worst(one) == Worst(other)
  {
    BestIsLargest(one);
    BestIsLargest(other);
    WorstIsLargest(one);
    WorstIsLargest(other);
  }

  /** Only the largest success serial and the reach of the errors matter. */
  lemma OnlyExtremesMatter(db: Db, zone: Id, one: seq<Report>, other: seq<Report>)
    requires zone in db.zones && OrderFree(db, zone) && AllHoused(db)
    requires forall rep | rep in one || rep in other :: rep.verdict != NoZone
    requires Best(one) == Best(other) && Worst(one) == Worst(other)
    ensures Deliver(db, zone, one) == Deliver(db, zone, other)
  {
    DeliverSettles(db, zone, one);
    DeliverSettles(db, zone, other);
  }

  /** Success and error reports, the same ones in both runs. */
  ghost predicate SameReports(one: seq<Report>, other: seq<Report>) {
    (forall rep :: rep in one <==> rep in other) && forall rep | rep in one :: rep.verdict != NoZone
  }

  /** Runs made of the same reports, in whatever order and however often each, end in the same tables. */
  ghost predicate Confluent(db: Db, zone: Id) {
    forall one, other | SameReports(one, other) :: Deliver(db, zone, one) == Deliver(db, zone, other)
  }

  /** Reports about a zone may come in any order exactly when it is not waiting to be deleted, or none of its
      records is ahead of it or pending with no action. */
  lemma ReportsAreConfluent(db: Db, zone: Id)
    requires zone in db.zones && AllHoused(db)
    ensures Confluent(db, zone) <==> OrderFree(db, zone)
  {
    if OrderFree(db, zone) {
      forall one, other | SameReports(one, other)
        ensures Deliver(db, zone, one) == Deliver(db, zone, other)
      {
        SameExtremes(one, other);
        OnlyExtremesMatter(db, zone, one, other);
      }
    } else {
      var one, other := OrderMatters(db, zone);
    }
  }

  // ---------- when the order matters ----------

  lemma DeliverTwo(db: Db, zone: Id, one: Report, two: Report)
    ensures Deliver(db, zone, [one, two]) == Receive(Receive(db, zone, one), zone, two)
  {
    assert [one, two][..1] == [one] && [one][..0] == [];
    assert Deliver(db, zone, [one]) == Receive(Deliver(db, zone, []), zone, one);
  }

  /** A success at the zone's own serial removes it, and whatever comes next is refused. */
  lemma LateIsRefused(db: Db, zone: Id, late: Report)
    requires zone in db.zones && AllHoused(db) && Doomed(db.zones[zone])
    ensures var gone := Report(Success, db.zones[zone].serial);
            Deliver(db, zone, [gone, late]) == Apply(db, zone, gone)
  {
    DeliverTwo(db, zone, Report(Success, db.zones[zone].serial), late);
  }

  /** A record that is ahead of its zone misses the report it waits for if the zone goes first; one that is
      pending with no action misses an error. */
  lemma OrderMatters(db: Db, zone: Id) returns (one: seq<Report>, other: seq<Report>)
    requires zone in db.zones && AllHoused(db) && !OrderFree(db, zone)
    ensures SameReports(one, other) && Deliver(db, zone, one) != Deliver(db, zone, other)
  {
    var serial := db.zones[zone].serial;
    var r :| r in db.records && db.records[r].zone == zone && !NotAhead(RowOf(db.records[r]), serial);
    var row, gone := RowOf(db.records[r]), Report(Success, serial);
    var late := if row.action != NoAction then Report(Success, row.serial) else Report(Failure, 0);
    one, other := [gone, late], [late, gone];
    LateIsRefused(db, zone, late);
    DeliverTwo(db, zone, late, gone);
    assert Transit(row, gone) == (row, false) && Transit(row, late) != (row, false);
    assert Apply(db, zone, gone).records[r] == db.records[r];
    LateMoves(db, zone, r, late, gone);
  }

  lemma LateMoves(db: Db, zone: Id, r: Id, late: Report, gone: Report)
    requires zone in db.zones && AllHoused(db) && r in db.records && db.records[r].zone == zone
    requires Transit(RowOf(db.records[r]), late) != (RowOf(db.records[r]), false)
    requires late.verdict != NoZone && gone.verdict == Success
    ensures var after := Receive(Receive(db, zone, late), zone, gone).records;
            r !in after || after[r] != db.records[r]
  {
  }
}
