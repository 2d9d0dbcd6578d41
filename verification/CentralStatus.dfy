/** How central turns a reported serial into zone and record status (`update_status`). */
module CentralStatus {
  import opened Wrappers
  import opened Storage

  datatype Verdict = Success | Failure | NoZone

  datatype Report = Report(verdict: Verdict, serial: nat)

  predicate Waiting(s: Status) { s == Pending || s == Error }

  /** `_update_zone_or_record_status`: the new row and whether it is to be deleted. */
  function Transit(row: Zone, rep: Report): (Zone, bool) {
    match rep.verdict
    case Success =>
      if (row.action == Create || row.action == Update) && Waiting(row.status) && rep.serial >= row.serial then
        (row.(action := NoAction, status := Active), false)
      else if row.action == Delete && Waiting(row.status) && rep.serial >= row.serial then
        (row.(action := NoAction, status := Deleted), true)
      else (row, false)
    case Failure =>
      if row.status == Pending && (rep.serial >= row.serial || rep.serial == 0) then (row.(status := Error), false)
      else (row, false)
    case NoZone => (row.(action := NoAction, status := Deleted), true)
  }

  /** `_update_zone_or_record_status` */
  method UpdateZoneOrRecordStatus(row: Zone, rep: Report) returns (after: Zone, deleted: bool)
    ensures (after, deleted) == Transit(row, rep)
  {
    after, deleted := row, false;
    if rep.verdict == Success {
      if row.action in {Create, Update} && row.status in {Pending, Error} && rep.serial >= row.serial {
        after := after.(action := NoAction);
        after := after.(status := Active);
      } else if row.action == Delete && row.status in {Pending, Error} && rep.serial >= row.serial {
        after := after.(action := NoAction);
        after := after.(status := Deleted);
        deleted := true;
      }
    } else if rep.verdict == Failure {
      if row.status == Pending && (rep.serial >= row.serial || rep.serial == 0) {
        after := after.(status := Error);
      }
    } else {
      after := after.(action := NoAction);
      after := after.(status := Deleted);
      deleted := true;
    }
  }

  function RowOf(r: Record): Zone { Zone(r.action, r.status, r.serial) }

  function WithRow(r: Record, row: Zone): Record {
    r.(action := row.action, status := row.status, serial := row.serial)
  }

  /** The storage criterion `_update_record_status` searches records with. */
  predicate Selected(r: Record, zone: Id, rep: Report) {
    && r.zone == zone
    && match rep.verdict
       case Success => Waiting(r.status) && r.serial <= rep.serial
       case Failure => r.status == Pending && (rep.serial == 0 || r.serial <= rep.serial)
       case NoZone => true
  }

  /** The criterion passes over no record the transition would touch, and only lets through an untouched
      one when that has no action left to complete. */
  lemma PrefilterIsExact(r: Record, zone: Id, rep: Report)
    requires r.zone == zone
    ensures Transit(RowOf(r), rep) != (RowOf(r), false)
            <==> Selected(r, zone, rep) && (rep.verdict == Success ==> r.action != NoAction)
  {
  }

  // ---------- one report, on the tables ----------

  datatype Db = Db(zones: map<Id, Zone>, records: Records, recordsets: map<Id, Id>)

  ghost function DbOf(st: Store): Db
    reads st
  {
    Db(st.zones, st.records, st.recordsets)
  }

  function DeletedBy(records: Records, zone: Id, rep: Report): set<Id> {
    set r | r in records && records[r].zone == zone && Transit(RowOf(records[r]), rep).1
  }

  function RecordsAfter(records: Records, zone: Id, rep: Report): Records {
    map r | r in records && r !in DeletedBy(records, zone, rep) ::
      if records[r].zone == zone then WithRow(records[r], Transit(RowOf(records[r]), rep).0) else records[r]
  }

  function ZonesAfter(zones: map<Id, Zone>, zone: Id, rep: Report): map<Id, Zone>
    requires zone in zones
  {
    var (row, deleted) := Transit(zones[zone], rep);
    if deleted then zones - {zone} else zones[zone := row]
  }

  ghost function Apply(db: Db, zone: Id, rep: Report): Db
    requires zone in db.zones
  {
    Db(ZonesAfter(db.zones, zone, rep),
       RecordsAfter(db.records, zone, rep),
       db.recordsets - Emptied(db.records, DeletedBy(db.records, zone, rep)))
  }

  /** The zone and its records are gone, with the recordsets that held only such records; all else is as before. */
  ghost predicate Purged(before: Db, after: Db, zone: Id) {
    && after.zones == before.zones - {zone}
    && (forall r :: r in after.records <==> r in before.records && before.records[r].zone != zone)
    && (forall r | r in after.records :: after.records[r] == before.records[r])
    && (forall rs :: rs in after.recordsets <==> rs in before.recordsets && !HeldOnly(before.records, zone, rs))
    && (forall rs | rs in after.recordsets :: after.recordsets[rs] == before.recordsets[rs])
  }

  /** The recordset held a record, and every record in it was of this zone. */
  ghost predicate HeldOnly(records: Records, zone: Id, rs: Id) {
    && (exists r :: r in records && records[r].recordset == rs)
    && forall r | r in records && records[r].recordset == rs :: records[r].zone == zone
  }

  /** A report that a nameserver does not have the zone removes all of it. */
  lemma NoZonePurges(db: Db, zone: Id, rep: Report)
    requires zone in db.zones && rep.verdict == NoZone
    ensures Purged(db, Apply(db, zone, rep), zone)
  {
    var gone := DeletedBy(db.records, zone, rep);
    assert forall r :: r in gone <==> r in db.records && db.records[r].zone == zone;
    forall rs
      ensures rs in Emptied(db.records, gone) <==> HeldOnly(db.records, zone, rs)
    {
      EmptiedIff(db.records, gone, rs);
    }
  }

  /** Every record to be deleted has its recordset. */
  predicate Housed(db: Db, zone: Id, rep: Report) {
    forall r | r in DeletedBy(db.records, zone, rep) :: db.records[r].recordset in db.recordsets
  }

  /** A report that cannot be carried out changes nothing. */
  ghost function Receive(db: Db, zone: Id, rep: Report): Db {
    if zone in db.zones && Housed(db, zone, rep) then Apply(db, zone, rep) else db
  }

  /** The tables after the records outside `todo` have been dealt with. */
  ghost predicate Midway(db: Db, zone: Id, rep: Report, todo: set<Id>, records: Records, recordsets: map<Id, Id>) {
    var gone := DeletedBy(db.records, zone, rep) - todo;
    && records.Keys == db.records.Keys - gone
    && (forall r | r in records ::
          records[r] == if r in todo then db.records[r] else RecordsAfter(db.records, zone, rep)[r])
    && recordsets == db.recordsets - Emptied(db.records, gone)
  }

  lemma SameLast(a: Records, b: Records, r: Id)
    requires r in a && a.Keys == b.Keys && forall q | q in a :: a[q].recordset == b[q].recordset
    ensures LastOf(a, r) == LastOf(b, r)
  {
    if q :| q in a && q != r && a[q].recordset == a[r].recordset {
      assert b[q].recordset == b[r].recordset;
    }
  }

  lemma MidwayKeep(db: Db, zone: Id, rep: Report, todo: set<Id>, records: Records, recordsets: map<Id, Id>, r: Id)
    requires Midway(db, zone, rep, todo, records, recordsets)
    requires r in todo && r in db.records && Selected(db.records[r], zone, rep)
    requires !Transit(RowOf(db.records[r]), rep).1
    ensures r in records && records[r] == db.records[r]
    ensures Midway(db, zone, rep, todo - {r},
                   records[r := WithRow(records[r], Transit(RowOf(records[r]), rep).0)], recordsets)
  {
    var all := DeletedBy(db.records, zone, rep);
    assert r !in all && all - todo == all - (todo - {r});
  }

  lemma MidwayDrop(db: Db, zone: Id, rep: Report, todo: set<Id>, records: Records, recordsets: map<Id, Id>,
                   r: Id, changed: Records)
    requires Midway(db, zone, rep, todo, records, recordsets)
    requires r in todo && r in db.records && Selected(db.records[r], zone, rep)
    requires Transit(RowOf(db.records[r]), rep).1
    requires changed == records[r := WithRow(db.records[r], Transit(RowOf(db.records[r]), rep).0)]
    ensures Midway(db, zone, rep, todo - {r}, changed - {r}, recordsets - LastOf(changed, r))
    ensures db.records[r].recordset in recordsets <==> db.records[r].recordset in db.recordsets
  {
    var all := DeletedBy(db.records, zone, rep);
    var gone := all - todo;
    assert r in all && all - (todo - {r}) == gone + {r};
    assert changed.Keys == records.Keys;
    SameLast(changed, db.records - gone, r);
    EmptiedStep(db.records, gone, r);
  }

  /** The body of the loop for one record. */
  method UpdateRecord(st: Store, r: Id, rep: Report) returns (ok: bool)
    requires r in st.records
    modifies st`records, st`recordsets
    ensures var (row, deleted) := Transit(RowOf(old(st.records)[r]), rep);
            var changed := old(st.records)[r := WithRow(old(st.records)[r], row)];
            && ok == (deleted ==> old(st.records)[r].recordset in old(st.recordsets))
            && st.records == (if deleted then changed - {r} else changed)
            && st.recordsets == old(st.recordsets) - if deleted then LastOf(changed, r) else {}
  {
    var row, deleted := UpdateZoneOrRecordStatus(RowOf(st.records[r]), rep);
    if row != RowOf(st.records[r]) {
      st.records := st.records[r := WithRow(st.records[r], row)];
    }
    assert st.records == old(st.records)[r := WithRow(old(st.records)[r], row)];
    ok := true;
    if deleted {
      ok := st.DropRecord(r);
    }
  }

  /** `_update_record_status`; `false` stands for a recordset that cannot be found. */
  method UpdateRecordStatus(st: Store, zone: Id, rep: Report) returns (ok: bool)
    modifies st`records, st`recordsets
    ensures ok == Housed(old(DbOf(st)), zone, rep)
    ensures ok ==> st.records == RecordsAfter(old(st.records), zone, rep)
    ensures ok ==> st.recordsets == old(st.recordsets) - Emptied(old(st.records), DeletedBy(old(st.records), zone, rep))
  {
    ghost var db := DbOf(st);
    var todo := set r | r in st.records && Selected(st.records[r], zone, rep);
    MidwayStart(db, zone, rep, todo);
    while todo != {}
      invariant todo <= db.records.Keys && forall r | r in todo :: Selected(db.records[r], zone, rep)
      invariant Midway(db, zone, rep, todo, st.records, st.recordsets)
      invariant forall r | r in DeletedBy(db.records, zone, rep) - todo :: db.records[r].recordset in db.recordsets
      decreases |todo|
    {
      var r :| r in todo;
      MidwayStep(db, zone, rep, todo, st.records, st.recordsets, r);
      var found := UpdateRecord(st, r, rep);
      if !found {
        return false;
      }
      todo := todo - {r};
    }
    MidwayEnd(db, zone, rep, st.records, st.recordsets);
    return true;
  }

  lemma MidwayStep(db: Db, zone: Id, rep: Report, todo: set<Id>, records: Records, recordsets: map<Id, Id>, r: Id)
    requires Midway(db, zone, rep, todo, records, recordsets)
    requires r in todo && r in db.records && Selected(db.records[r], zone, rep)
    ensures r in records && records[r] == db.records[r]
    ensures var (row, deleted) := Transit(RowOf(records[r]), rep);
            var changed := records[r := WithRow(records[r], row)];
            && Midway(db, zone, rep, todo - {r}, if deleted then changed - {r} else changed,
                      recordsets - if deleted then LastOf(changed, r) else {})
            && (deleted <==> r in DeletedBy(db.records, zone, rep))
            && (deleted ==> (db.records[r].recordset in recordsets <==> db.records[r].recordset in db.recordsets))
  {
    var (row, deleted) := Transit(RowOf(db.records[r]), rep);
    if deleted {
      MidwayDrop(db, zone, rep, todo, records, recordsets, r, records[r := WithRow(db.records[r], row)]);
    } else {
      MidwayKeep(db, zone, rep, todo, records, recordsets, r);
      assert recordsets - {} == recordsets;
    }
  }

  lemma MidwayStart(db: Db, zone: Id, rep: Report, todo: set<Id>)
    requires todo == set r | r in db.records && Selected(db.records[r], zone, rep)
    ensures Midway(db, zone, rep, todo, db.records, db.recordsets)
    ensures DeletedBy(db.records, zone, rep) - todo == {}
  {
    forall r | r in db.records && db.records[r].zone == zone
      ensures r in todo || Transit(RowOf(db.records[r]), rep) == (RowOf(db.records[r]), false)
    {
      PrefilterIsExact(db.records[r], zone, rep);
    }
    assert DeletedBy(db.records, zone, rep) - todo == {};
  }

  lemma MidwayEnd(db: Db, zone: Id, rep: Report, records: Records, recordsets: map<Id, Id>)
    requires Midway(db, zone, rep, {}, records, recordsets)
    ensures records == RecordsAfter(db.records, zone, rep)
    ensures recordsets == db.recordsets - Emptied(db.records, DeletedBy(db.records, zone, rep))
  {
    assert DeletedBy(db.records, zone, rep) - {} == DeletedBy(db.records, zone, rep);
  }

  /** `_update_zone_status`; `false` stands for ZoneNotFound. */
  method UpdateZoneStatus(st: Store, zone: Id, rep: Report) returns (ok: bool)
    modifies st`zones
    ensures ok == (zone in old(st.zones))
    ensures st.zones == if ok then ZonesAfter(old(st.zones), zone, rep) else old(st.zones)
  {
    if zone !in st.zones {
      return false;
    }
    var row, deleted := UpdateZoneOrRecordStatus(st.zones[zone], rep);
    if row.status != Deleted {
      st.zones := st.zones[zone := row];
    }
    if deleted {
      st.zones := st.zones - {zone};
    }
    return true;
  }

  /** `update_status`, a transaction: an exception undoes all of it. */
  method UpdateStatus(st: Store, zone: Id, rep: Report) returns (ok: bool)
    modifies st
    ensures ok == (zone in old(st.zones) && Housed(old(DbOf(st)), zone, rep))
    ensures DbOf(st) == Receive(old(DbOf(st)), zone, rep)
    ensures ok && rep.verdict == NoZone ==> Purged(old(DbOf(st)), DbOf(st), zone)
    ensures st.associations == old(st.associations) && st.zdnsRecords == old(st.zdnsRecords)
  {
    var records, recordsets := st.records, st.recordsets;
    ok := UpdateRecordStatus(st, zone, rep);
    if ok {
      ok := UpdateZoneStatus(st, zone, rep);
    }
    if !ok {
      st.records, st.recordsets := records, recordsets;
    } else if rep.verdict == NoZone {
      NoZonePurges(old(DbOf(st)), zone, rep);
    }
  }
}
