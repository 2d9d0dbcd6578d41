/** Final outcome of a zone operation reported by the backend: `update_zone_status`. */
module Cascade {
  import opened Storage

  datatype Report = Success | Failure | OtherReport

  function Of(records: Records, zone: Id): set<Id> {
    set r | r in records && records[r].zone == zone
  }

  /** The four linked tables of a store. */
  datatype Tables = Tables(records: Records, recordsets: map<Id, Id>, associations: map<Id, Id>, zdns: set<Id>)

  ghost function TablesOf(st: Store): Tables
    reads st
  {
    Tables(st.records, st.recordsets, st.associations, st.zdnsRecords)
  }

  /** A record with its recordset, its association and the zdns record that names. */
  predicate RowLinked(t: Tables, r: Id)
    requires r in t.records
  {
    t.records[r].recordset in t.recordsets && r in t.associations && t.associations[r] in t.zdns
  }

  /** Every one of these records is linked, to a zdns record of its own. */
  ghost predicate Linked(t: Tables, rs: set<Id>) {
    && rs <= t.records.Keys
    && (forall r | r in rs :: RowLinked(t, r))
    && (forall a, b | a in rs && b in rs && t.associations[a] == t.associations[b] :: a == b)
  }

  function LinksOf(associations: map<Id, Id>, rs: set<Id>): set<Id> {
    set r | r in rs && r in associations :: associations[r]
  }

  /** The tables once the records in `gone` are deleted with everything that hangs on them. */
  ghost function Without(t: Tables, gone: set<Id>): Tables
    requires gone <= t.records.Keys
  {
    Tables(t.records - gone, t.recordsets - Emptied(t.records, gone), t.associations - gone,
           t.zdns - LinksOf(t.associations, gone))
  }

  /** `_delete_record_with_zone_delete`; `false` stands for a NotFound exception. */
  method DeleteRecordWithZone(st: Store, r: Id) returns (ok: bool)
    requires r in st.records
    modifies st
    ensures st.zones == old(st.zones)
    ensures ok == RowLinked(old(TablesOf(st)), r)
    ensures ok ==> TablesOf(st) == Without(old(TablesOf(st)), {r})
  {
    ghost var t := TablesOf(st);
    if r !in st.associations { return false; }
    var zdns := st.associations[r];
    st.associations := st.associations - {r};
    ok := st.DropRecord(r);
    if !ok { return false; }
    if zdns !in st.zdnsRecords { return false; }
    st.zdnsRecords := st.zdnsRecords - {zdns};
    EmptiedStep(t.records, {}, r);
    assert t.records - {} == t.records;
    assert {} + {r} == {r};
    assert LinksOf(t.associations, {r}) == {zdns};
  }

  lemma GoneTogether(t: Tables, done: set<Id>, r: Id)
    requires done <= t.records.Keys && r in t.records && r !in done
    ensures Without(t, done).records - {r} == t.records - (done + {r})
    ensures Without(t, done).associations - {r} == t.associations - (done + {r})
    ensures Without(t, done).recordsets - Emptied(Without(t, done).records, {r})
            == t.recordsets - Emptied(t.records, done + {r})
    ensures t.records[r].recordset in Without(t, done).recordsets <==> t.records[r].recordset in t.recordsets
  {
    var mid := t.records - done;
    EmptiedStep(t.records, done, r);
    EmptiedStep(mid, {}, r);
    assert mid - {} == mid;
    assert {} + {r} == {r};
  }

  /** After some linked records are gone, the next one is still linked exactly when it was at the start
      and shares its zdns record with none of them. */
  lemma NextRow(t: Tables, done: set<Id>, r: Id)
    requires Linked(t, done) && r in t.records && r !in done
    ensures RowLinked(Without(t, done), r) <==> Linked(t, done + {r})
    ensures RowLinked(Without(t, done), r) ==> Without(Without(t, done), {r}) == Without(t, done + {r})
  {
    GoneTogether(t, done, r);
    var mid := Without(t, done);
    if RowLinked(mid, r) {
      assert LinksOf(mid.associations, {r}) == {t.associations[r]};
      assert LinksOf(t.associations, done + {r}) == LinksOf(t.associations, done) + {t.associations[r]};
    }
  }

  lemma LinkedSubset(t: Tables, some: set<Id>, all: set<Id>)
    requires some <= all
    ensures Linked(t, all) ==> Linked(t, some)
  {
  }

  lemma NothingGone(t: Tables)
    ensures Without(t, {}) == t && Linked(t, {})
  {
  }

  /** One more record, after those in `done`. */
  method DeleteNext(st: Store, r: Id, ghost t: Tables, ghost done: set<Id>) returns (ok: bool)
    requires Linked(t, done) && r in t.records && r !in done && TablesOf(st) == Without(t, done)
    modifies st
    ensures st.zones == old(st.zones)
    ensures ok == Linked(t, done + {r})
    ensures ok ==> TablesOf(st) == Without(t, done + {r})
  {
    NextRow(t, done, r);
    ok := DeleteRecordWithZone(st, r);
  }

  /** The loop over the records of a deleted zone. */
  method DeleteRecords(st: Store, zone: Id) returns (ok: bool)
    modifies st
    ensures st.zones == old(st.zones)
    ensures ok == Linked(old(TablesOf(st)), Of(old(st.records), zone))
    ensures ok ==> TablesOf(st) == Without(old(TablesOf(st)), Of(old(st.records), zone))
  {
    ghost var t := TablesOf(st);
    ghost var all := Of(st.records, zone);
    var todo := Of(st.records, zone);
    ghost var done: set<Id> := {};
    NothingGone(t);
    while todo != {}
      invariant todo !! done && todo + done == all && all <= t.records.Keys
      invariant st.zones == old(st.zones) && Linked(t, done)
      invariant TablesOf(st) == Without(t, done)
      decreases |todo|
    {
      var r :| r in todo;
      todo := todo - {r};
      var rok := DeleteNext(st, r, t, done);
      done := done + {r};
      if !rok {
        LinkedSubset(t, done, all);
        return false;
      }
    }
    assert done == all;
    return true;
  }

  method DropNext(st: Store, r: Id, ghost t: Tables, ghost done: set<Id>) returns (ok: bool)
    requires done <= t.records.Keys && r in t.records && r !in done && TablesOf(st) == DroppedSome(t, done)
    modifies st`records, st`recordsets
    ensures ok == (t.records[r].recordset in t.recordsets)
    ensures ok ==> TablesOf(st) == DroppedSome(t, done + {r})
  {
    DropStep(t, done, r);
    ok := st.DropRecord(r);
  }

  /** The loop over the records of a zone whose creation failed: records and recordsets go, the rest stays. */
  method DropRecords(st: Store, zone: Id) returns (ok: bool)
    modifies st`records, st`recordsets
    ensures ok == forall r | r in Of(old(st.records), zone) :: old(st.records)[r].recordset in old(st.recordsets)
    ensures ok ==> TablesOf(st) == Dropped(old(TablesOf(st)), zone)
  {
    ghost var t := TablesOf(st);
    ghost var all := Of(st.records, zone);
    var todo := Of(st.records, zone);
    ghost var done: set<Id> := {};
    assert TablesOf(st) == DroppedSome(t, {});
    while todo != {}
      invariant todo !! done && todo + done == all && all <= t.records.Keys
      invariant TablesOf(st) == DroppedSome(t, done)
      invariant forall r | r in done :: t.records[r].recordset in t.recordsets
      decreases |todo|
    {
      var r :| r in todo;
      todo := todo - {r};
      var rok := DropNext(st, r, t, done);
      if !rok {
        assert r in all;
        return false;
      }
      done := done + {r};
    }
    assert done == all;
    return true;
  }

  ghost function DroppedSome(t: Tables, gone: set<Id>): Tables
    requires gone <= t.records.Keys
  {
    t.(records := t.records - gone, recordsets := t.recordsets - Emptied(t.records, gone))
  }

  ghost function Dropped(t: Tables, zone: Id): Tables {
    DroppedSome(t, Of(t.records, zone))
  }

  lemma DropStep(t: Tables, done: set<Id>, r: Id)
    requires done <= t.records.Keys && r in t.records && r !in done
    ensures var mid := DroppedSome(t, done);
            && mid.records - {r} == t.records - (done + {r})
            && mid.recordsets - LastOf(mid.records, r) == t.recordsets - Emptied(t.records, done + {r})
            && mid.records[r] == t.records[r]
            && (t.records[r].recordset in mid.recordsets <==> t.records[r].recordset in t.recordsets)
  {
    EmptiedStep(t.records, done, r);
  }

  function Activated(records: Records, zone: Id): Records {
    map r | r in records ::
      if records[r].zone == zone then records[r].(action := NoAction, status := Active) else records[r]
  }

  method ActivateRecords(st: Store, zone: Id)
    modifies st`records
    ensures st.records == Activated(old(st.records), zone)
  {
    var todo := Of(st.records, zone);
    while todo != {}
      invariant todo <= st.records.Keys == old(st.records).Keys
      invariant forall r | r in todo :: old(st.records)[r].zone == zone
      invariant forall r | r in st.records ::
                  st.records[r] == (if r in todo then old(st.records) else Activated(old(st.records), zone))[r]
      decreases |todo|
    {
      var r :| r in todo;
      todo := todo - {r};
      st.records := st.records[r := st.records[r].(action := NoAction, status := Active)];
    }
  }

  /** The outcomes after which the zone goes. */
  ghost predicate Removes(action: Action, report: Report) {
    (action == Delete && report == Success) || (action == Create && report == Failure)
  }

  /** `update_zone_status` for a zone object carrying `action` and the reported outcome. `false` stands
      for a NotFound exception; the operation is not a transaction, so a raise leaves it half done. */
  method UpdateZoneStatus(st: Store, zone: Id, action: Action, report: Report) returns (ok: bool)
    modifies st
    ensures action == Delete && report == Success ==>
              (ok <==> zone in old(st.zones) && Linked(old(TablesOf(st)), Of(old(st.records), zone)))
    ensures action == Create && report == Failure ==>
              (ok <==> zone in old(st.zones) && forall r | r in old(st.records) && old(st.records)[r].zone == zone ::
                         old(st.records)[r].recordset in old(st.recordsets))
    ensures !Removes(action, report) ==> (ok <==> zone in old(st.zones) || report == OtherReport)
    ensures !ok ==> st.zones == old(st.zones)
    ensures ok && action == Delete && report == Success ==>
              TablesOf(st) == Without(old(TablesOf(st)), Of(old(st.records), zone))
              && st.zones == old(st.zones) - {zone}
    ensures action == Create && report == Success ==>
              TablesOf(st) == old(TablesOf(st)).(records := Activated(old(st.records), zone))
    ensures ok && action == Create && report == Failure ==>
              TablesOf(st) == Dropped(old(TablesOf(st)), zone) && st.zones == old(st.zones) - {zone}
    ensures ok && report != OtherReport && !Removes(action, report) ==>
              zone in old(st.zones)
              && st.zones == old(st.zones)[zone := old(st.zones)[zone].(action := NoAction, status := Active)]
    ensures report == OtherReport || (report == Success && action != Create && action != Delete)
            || (report == Failure && action != Create) ==>
              TablesOf(st) == old(TablesOf(st))
    ensures report == OtherReport ==> ok && st.zones == old(st.zones)
  {
    ok := true;
    if action == Create && report == Success {
      ActivateRecords(st, zone);
    } else if action == Create && report == Failure {
      ok := DropRecords(st, zone);
    } else if action == Delete && report == Success {
      ok := DeleteRecords(st, zone);
    }
    if !ok || report == OtherReport { return; }
    if zone !in st.zones { return false; }
    if (report == Success && action == Delete) || (report == Failure && action == Create) {
      st.zones := st.zones - {zone};
    } else {
      st.zones := st.zones[zone := st.zones[zone].(action := NoAction, status := Active)];
    }
  }

  // ---------- what a final delete leaves behind ----------

  /** Records, associations and zdns records are linked one to one, across all zones. */
  ghost predicate OneToOne(t: Tables) {
    && t.associations.Keys == t.records.Keys
    && (forall a, b | a in t.associations && b in t.associations && t.associations[a] == t.associations[b] :: a == b)
    && t.zdns == LinksOf(t.associations, t.records.Keys)
  }

  /** A record and its recordset are in the same zone. */
  ghost predicate Consistent(t: Tables) {
    forall r | r in t.records ::
      t.records[r].recordset in t.recordsets && t.recordsets[t.records[r].recordset] == t.records[r].zone
  }

  lemma LinkedByOneToOne(t: Tables, zone: Id)
    requires OneToOne(t) && Consistent(t)
    ensures Linked(t, Of(t.records, zone))
  {
  }

  /** Nothing that hangs on a record of the zone is left, rows of other zones are as they were, and the
      one-to-one linkage survives. */
  lemma CascadeIsExact(t: Tables, zone: Id)
    requires OneToOne(t) && Consistent(t)
    ensures var gone := Of(t.records, zone); var t' := Without(t, gone);
            && (forall r | r in t'.records :: t'.records[r].zone != zone)
            && (forall r | r in t.records && t.records[r].zone == zone ::
                  r !in t'.associations && t.associations[r] !in t'.zdns)
            && (forall r | r in t.records && t.records[r].zone != zone ::
                  r in t'.records && t'.records[r] == t.records[r]
                  && r in t'.associations && t'.associations[r] == t.associations[r] && t.associations[r] in t'.zdns)
            && (forall rs | rs in t.recordsets && t.recordsets[rs] != zone ::
                  rs in t'.recordsets && t'.recordsets[rs] == t.recordsets[rs])
            && OneToOne(t') && Consistent(t')
  {
    var gone := Of(t.records, zone);
    var t' := Without(t, gone);
    forall rs | rs in Emptied(t.records, gone)
      ensures rs in t.recordsets && t.recordsets[rs] == zone
    {
      EmptiedIff(t.records, gone, rs);
    }
    forall r | r in t'.records
      ensures t'.records[r].recordset in t'.recordsets
    {
      EmptiedIff(t.records, gone, t.records[r].recordset);
    }
  }

  /** A recordset of the zone is left behind exactly when it held no record to begin with. */
  lemma EmptyRecordsetsSurvive(t: Tables, zone: Id, rs: Id)
    requires Consistent(t) && rs in t.recordsets && t.recordsets[rs] == zone
    ensures rs in Without(t, Of(t.records, zone)).recordsets <==>
            forall r | r in t.records :: t.records[r].recordset != rs
  {
    EmptiedIff(t.records, Of(t.records, zone), rs);
  }

  /** A failed creation removes records but not what they are linked to, so it keeps the one-to-one
      linkage only for a zone without records. */
  lemma FailedCreateBreaksLinkage(t: Tables, zone: Id)
    requires OneToOne(t)
    ensures OneToOne(Dropped(t, zone)) <==> Of(t.records, zone) == {}
  {
    if r :| r in Of(t.records, zone) {
      assert r in t.associations && r !in Dropped(t, zone).records;
    } else {
      assert Dropped(t, zone).records == t.records;
    }
  }
}
