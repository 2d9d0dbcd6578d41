/** Central's own edits of zones and records: in every run of them, mixed with reports, the order in which the
    reports on a zone arrive makes no difference. Transfers from a master are not among them. */
module Edits {
  import opened Storage
  import opened CentralStatus
  import opened Confluence

  /** `increment_serial` with the clock at `now`. */
  function IncrementSerial(serial: nat, now: nat): (r: nat)
    ensures r > serial && r >= now && (r > serial + 1 ==> r == now)
  {
    if now <= serial then serial + 1 else now
  }

  datatype Step =
    /** A zone under a new id. */
    | CreateZone(zone: Id, serial: nat)
    /** `_update_zone_in_storage`, with or without a new serial. */
    | UpdateZone(zone: Id, increment: bool, now: nat)
    /** `_delete_zone_in_storage` */
    | DeleteZone(zone: Id)
    /** A record is created, updated or marked for deletion, and takes its zone's serial. */
    | WriteRecord(record: Id, zone: Id, recordset: Id, action: Action)
    /** A record or a zone made active without any report, as default records are, and on a backend's outcome. */
    | ActivateRecord(record: Id)
    | ActivateZone(zone: Id)
    /** A record, with its recordset if it was the last one there, or a zone removed on a backend's outcome. */
    | RemoveRecord(record: Id)
    | RemoveZone(zone: Id)
    /** `update_status` */
    | Reported(zone: Id, report: Report)

  ghost predicate Enabled(db: Db, step: Step) {
    match step
    case CreateZone(z, _) => z !in db.zones && forall r | r in db.records :: db.records[r].zone != z
    case UpdateZone(z, _, _) => z in db.zones
    case DeleteZone(z) => z in db.zones
    case WriteRecord(r, z, rs, action) =>
      && z in db.zones && action != NoAction
      && (r in db.records ==> db.records[r].zone == z && db.records[r].recordset == rs)
    case ActivateRecord(r) => r in db.records
    case ActivateZone(z) => z in db.zones
    case RemoveRecord(r) => r in db.records
    case RemoveZone(z) => z in db.zones
    case Reported(_, _) => true
  }

  ghost function Next(db: Db, step: Step): Db
    requires Enabled(db, step)
  {
    match step
    case CreateZone(z, serial) => db.(zones := db.zones[z := Zone(Create, Pending, serial)])
    case UpdateZone(z, increment, now) =>
      var serial := db.zones[z].serial;
      db.(zones := db.zones[z := Zone(Update, Pending, if increment then IncrementSerial(serial, now) else serial)])
    case DeleteZone(z) => db.(zones := db.zones[z := Zone(Delete, Pending, db.zones[z].serial)])
    case WriteRecord(r, z, rs, action) =>
      Db(db.zones, db.records[r := Record(z, rs, action, Pending, db.zones[z].serial)], db.recordsets[rs := z])
    case ActivateRecord(r) => db.(records := db.records[r := db.records[r].(action := NoAction, status := Active)])
    case ActivateZone(z) => db.(zones := db.zones[z := db.zones[z].(action := NoAction, status := Active)])
    case RemoveRecord(r) => db.(records := db.records - {r}, recordsets := db.recordsets - LastOf(db.records, r))
    case RemoveZone(z) => db.(zones := db.zones - {z})
    case Reported(z, rep) => Receive(db, z, rep)
  }

  /** No record is ahead of its zone, or pending with no action, and every record has its recordset. */
  ghost predicate InStep(db: Db) {
    && AllHoused(db)
    && forall r | r in db.records && db.records[r].zone in db.zones ::
         NotAhead(RowOf(db.records[r]), db.zones[db.records[r].zone].serial)
  }

  lemma ReceiveKeepsHoused(db: Db, zone: Id, rep: Report)
    requires AllHoused(db)
    ensures AllHoused(Receive(db, zone, rep))
  {
    var after := Receive(db, zone, rep);
    forall r | r in after.records
      ensures after.records[r].recordset in after.recordsets
    {
      if after != db {
        EmptiedIff(db.records, DeletedBy(db.records, zone, rep), db.records[r].recordset);
      }
    }
  }

  lemma ReceiveKeepsInStep(db: Db, zone: Id, rep: Report)
    requires InStep(db)
    ensures InStep(Receive(db, zone, rep))
  {
    ReceiveKeepsHoused(db, zone, rep);
  }

  lemma NextKeepsInStep(db: Db, step: Step)
    requires InStep(db) && Enabled(db, step)
    ensures InStep(Next(db, step))
  {
    match step {
      case Reported(z, rep) => ReceiveKeepsInStep(db, z, rep);
      case _ =>
    }
  }

  ghost predicate IsRun(states: seq<Db>, steps: seq<Step>) {
    && |states| == |steps| + 1 && states[0] == Db(map[], map[], map[])
    && forall k | 0 <= k < |steps| :: Enabled(states[k], steps[k]) && states[k + 1] == Next(states[k], steps[k])
  }

  lemma {:induction false} RunsStayInStep(states: seq<Db>, steps: seq<Step>, k: nat)
    requires IsRun(states, steps) && k <= |steps|
    ensures InStep(states[k])
  {
    if k > 0 {
      RunsStayInStep(states, steps, k - 1);
      NextKeepsInStep(states[k - 1], steps[k - 1]);
    }
  }

  /** Every zone that a run of edits and reports leaves in the store is confluent, also while being deleted. */
  lemma RunsStayConfluent(states: seq<Db>, steps: seq<Step>, k: nat, zone: Id)
    requires IsRun(states, steps) && k <= |steps| && zone in states[k].zones
    ensures Confluent(states[k], zone)
  {
    RunsStayInStep(states, steps, k);
    ReportsAreConfluent(states[k], zone);
  }
}
