/** The tables central works on, as maps from id to row, and the row deletion its operations share. */
module Storage {

  type Id = string

  datatype Action = NoAction | Create | Update | Delete

  datatype Status = Pending | Active | Error | Deleted

  datatype Zone = Zone(action: Action, status: Status, serial: nat)

  datatype Record = Record(zone: Id, recordset: Id, action: Action, status: Status, serial: nat)

  type Records = map<Id, Record>

  /** The recordsets that lose their last record when the records in `gone` are deleted one by one. */
  ghost function Emptied(records: Records, gone: set<Id>): set<Id>
    requires gone <= records.Keys
  {
    set r | r in gone && (forall q | q in records && records[q].recordset == records[r].recordset :: q in gone)
      :: records[r].recordset
  }

  lemma EmptiedIff(records: Records, gone: set<Id>, rs: Id)
    requires gone <= records.Keys
    ensures rs in Emptied(records, gone) <==>
            && (exists r :: r in gone && records[r].recordset == rs)
            && (forall q | q in records && records[q].recordset == rs :: q in gone)
  {
  }

  /** The recordset of `r` if no other record is in it. */
  ghost function LastOf(records: Records, r: Id): set<Id>
    requires r in records
  {
    if exists q :: q in records && q != r && records[q].recordset == records[r].recordset
    then {} else {records[r].recordset}
  }

  lemma EmptiedStep(records: Records, gone: set<Id>, r: Id)
    requires gone <= records.Keys && r in records && r !in gone
    ensures Emptied(records, gone + {r}) == Emptied(records, gone) + LastOf(records - gone, r)
    ensures records[r].recordset !in Emptied(records, gone)
  {
    var rs, left := records[r].recordset, records - gone;
    assert r in left && left[r] == records[r];
    if q :| q in left && q != r && left[q].recordset == rs {
      assert q in records && records[q].recordset == rs && q !in gone + {r};
    } else {
      forall q | q in records && records[q].recordset == rs
        ensures q in gone + {r}
      {
        assert q in gone || q in left;
      }
    }
    EmptiedIff(records, gone, rs);
    EmptiedIff(records, gone + {r}, rs);
    forall x | x != rs
      ensures x in Emptied(records, gone + {r}) <==> x in Emptied(records, gone)
    {
      EmptiedIff(records, gone, x);
      EmptiedIff(records, gone + {r}, x);
    }
  }

  /** `recordsets` maps a recordset to its zone, `associations` a record to its zdns record. */
  class Store {
    var zones: map<Id, Zone>
    var recordsets: map<Id, Id>
    var records: Records
    var associations: map<Id, Id>
    var zdnsRecords: set<Id>

    constructor ()
      ensures zones == map[] && recordsets == map[] && records == map[]
      ensures associations == map[] && zdnsRecords == {}
    {
      zones, recordsets, records, associations, zdnsRecords := map[], map[], map[], map[], {};
    }

    /** Delete a record, then its recordset if that was the last one; `false` stands for the exception
        raised when the recordset is missing. */
    method DropRecord(id: Id) returns (ok: bool)
      requires id in records
      modifies this`records, this`recordsets
      ensures ok == (old(records)[id].recordset in old(recordsets))
      ensures records == old(records) - {id}
      ensures recordsets == old(recordsets) - LastOf(old(records), id)
    {
      var rs := records[id].recordset;
      records := records - {id};
      if rs !in recordsets {
        return false;
      }
      var left := set q | q in records && records[q].recordset == rs;
      if |left| == 0 {
        assert left == {};
        assert forall q | q in old(records) && q != id :: q in records && q !in left;
        assert LastOf(old(records), id) == {rs};
        recordsets := recordsets - {rs};
      } else {
        var q :| q in left;
        assert q in old(records) && q != id;
        assert LastOf(old(records), id) == {};
      }
      return true;
    }
  }
}
