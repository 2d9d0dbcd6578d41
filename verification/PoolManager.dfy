/** The pool manager's status cache and `update_status`: what it remembers of each nameserver and what it
    tells central. */
module PoolManager {
  import opened Wrappers
  import opened Storage
  import opened CentralStatus
  import opened Consensus

  datatype Key = Key(nameserver: Id, zone: Id, action: Action)

  datatype Entry = Entry(status: Option<Verdict>, serial: nat)

  type Cache = map<Key, Entry>

  /** What mDNS says when asked for a nameserver's serial; `Unanswered` is a messaging error. */
  datatype Reply = Unanswered | Answer(status: Verdict, serial: Option<nat>)

  /** The zone object a report carries: a snapshot that may be out of date. */
  datatype ZoneCopy = ZoneCopy(id: Id, action: Action, status: Status, serial: nat)

  datatype Message = Message(zone: Id, report: Report)

  /** The action a zone's statuses are filed under. */
  function KeyAction(action: Action): Action { if action == NoAction then Update else action }

  function SerialOr0(serial: Option<nat>): nat { if serial.None? then 0 else serial.value }

  // ---------- retrieving statuses ----------

  /** `_retrieve_from_mdns`. A zone missing during an update is filed as a failed create. */
  function FromMdns(c: Cache, ns: Id, zone: Id, action: Action, reply: Reply): (Cache, Option<Row>) {
    match reply
    case Unanswered => (c, None)
    case Answer(status, serial) =>
      var missing := status == NoZone;
      var filed := if missing && action == Update then Create else action;
      var verdict := if !missing then Some(status)
                     else if action == Create || action == Update then Some(Failure)
                     else if action == Delete then Some(Success)
                     else None;
      (c[Key(ns, zone, filed) := Entry(verdict, SerialOr0(serial))], Some(Row(ns, verdict, SerialOr0(serial))))
  }

  function RetrieveOne(c: Cache, ns: Id, zone: Id, action: Action, reply: Reply): (Cache, Option<Row>) {
    var key := Key(ns, zone, action);
    if key in c then (c, Some(Row(ns, c[key].status, c[key].serial))) else FromMdns(c, ns, zone, action, reply)
  }

  function Append(rows: seq<Row>, row: Option<Row>): seq<Row> {
    if row.None? then rows else rows + [row.value]
  }

  /** `_retrieve_statuses` over these nameservers. */
  function Retrieve(c: Cache, nss: seq<Id>, zone: Id, action: Action, replies: Id -> Reply): (Cache, seq<Row>) {
    if nss == [] then (c, [])
    else
      var n := |nss| - 1;
      var before := Retrieve(c, nss[..n], zone, action, replies);
      var last := RetrieveOne(before.0, nss[n], zone, action, replies(nss[n]));
      (last.0, Append(before.1, last.1))
  }

  // ---------- one report ----------

  /** Entering a nameserver's report: the cache with it, and the serial that was there before. */
  function Enter(c: Cache, key: Key, status: Verdict, actual: Option<nat>): (Cache, nat) {
    var current := if key in c then c[key] else Entry(None, 0);
    if SerialOr0(actual) != 0 && current.serial <= SerialOr0(actual)
    then (c[key := Entry(Some(status), SerialOr0(actual))], current.serial)
    else (c[key := current], current.serial)
  }

  function Announce(zone: ZoneCopy, before: nat, consensus: nat): seq<Message> {
    if consensus != 0 && before <= consensus && zone.status != Active
    then [Message(zone.id, Report(Success, consensus))] else []
  }

  /** `_get_error_serial` and the error report it leads to. */
  function Complain(c: Cache, pool: Pool, zone: ZoneCopy, consensus: nat, first: Id -> Reply, second: Id -> Reply)
    : (Cache, seq<Message>)
    requires pool.targets > 0
  {
    var action := KeyAction(zone.action);
    var (c1, rows1) := Retrieve(c, pool.nameservers, zone.id, action, first);
    if !Meets(pool, CountStatus(rows1, Failure), pool.threshold) then
      (c1, [Message(zone.id, Report(Failure, 0))])
    else
      var (c2, rows2) := Retrieve(c1, pool.nameservers, zone.id, action, second);
      (c2, [Message(zone.id, Report(Failure, LeastAbove(rows2, consensus)))])
  }

  /** `_clear_cache` for one action. */
  function Clear(c: Cache, nss: seq<Id>, zone: Id, action: Action): Cache {
    map k | k in c && !(k.zone == zone && k.action == action && k.nameserver in nss) :: c[k]
  }

  function Finish(c: Cache, pool: Pool, zone: ZoneCopy, consensus: nat, replies: Id -> Reply): Cache
    requires pool.targets > 0
  {
    if consensus != zone.serial then c
    else
      var action := KeyAction(zone.action);
      var (c1, rows) := Retrieve(c, pool.nameservers, zone.id, action, replies);
      if Meets(pool, CountStatus(rows, Success), MAXIMUM_THRESHOLD)
      then Clear(c1, pool.nameservers, zone.id, action) else c1
  }

  /** The cache when the consensus is taken, and the statuses it is taken over. */
  function Consult(c: Cache, pool: Pool, zone: ZoneCopy, ns: Id, status: Verdict, actual: Option<nat>,
                   replies: Id -> Reply)
    : (Cache, seq<Row>)
  {
    var action := KeyAction(zone.action);
    Retrieve(Enter(c, Key(ns, zone.id, action), status, actual).0, pool.nameservers, zone.id, action, replies)
  }

  /** All that central is told of a report, in order. */
  function Told(c: Cache, pool: Pool, zone: ZoneCopy, status: Verdict, before: nat, consensus: nat,
                first: Id -> Reply, second: Id -> Reply)
    : (Cache, seq<Message>)
    requires pool.targets > 0
  {
    var (c1, complaint) := if status == Failure then Complain(c, pool, zone, consensus, first, second) else (c, []);
    var missing := if status == NoZone then [Message(zone.id, Report(NoZone, 0))] else [];
    (c1, Announce(zone, before, consensus) + complaint + missing)
  }

  /** `update_status`: the new cache and the messages for central, in order. `replies(n)` is what mDNS
      answers during the n-th retrieval. */
  function Process(c: Cache, pool: Pool, zone: ZoneCopy, ns: Id, status: Verdict, actual: Option<nat>,
                        replies: nat -> Id -> Reply): (Cache, seq<Message>)
    requires pool.targets > 0
  {
    var before := Enter(c, Key(ns, zone.id, KeyAction(zone.action)), status, actual).1;
    var (c1, rows) := Consult(c, pool, zone, ns, status, actual, replies(0));
    var consensus := ConsensusSerial(pool, rows);
    var (c2, messages) := Told(c1, pool, zone, status, before, consensus, replies(1), replies(2));
    (Finish(c2, pool, zone, consensus, replies(3)), messages)
  }

  class Service {
    const pool: Pool
    var cache: Cache
    var sent: seq<Message>

    constructor (pool: Pool)
      requires pool.targets > 0
      ensures this.pool == pool && cache == map[] && sent == []
    {
      this.pool := pool;
      cache, sent := map[], [];
    }

    /** `_retrieve_from_mdns` */
    method RetrieveFromMdns(ns: Id, zone: Id, action: Action, reply: Reply) returns (row: Option<Row>)
      modifies this`cache
      ensures (cache, row) == FromMdns(old(cache), ns, zone, action, reply)
    {
      if reply.Unanswered? {
        return None;
      }
      var filed, verdict := action, None;
      if reply.status == NoZone {
        match action {
          case Create =>
            verdict := Some(Failure);
          case Delete =>
            verdict := Some(Success);
          case Update =>
            filed, verdict := Create, Some(Failure);
          case NoAction =>
        }
      } else {
        verdict := Some(reply.status);
      }
      var serial := if reply.serial.Some? then reply.serial.value else 0;
      cache := cache[Key(ns, zone, filed) := Entry(verdict, serial)];
      row := Some(Row(ns, verdict, serial));
    }

    /** `_retrieve_statuses` */
    method RetrieveStatuses(zone: Id, action: Action, replies: Id -> Reply) returns (rows: seq<Row>)
      modifies this`cache
      ensures (cache, rows) == Retrieve(old(cache), pool.nameservers, zone, action, replies)
    {
      rows := [];
      var nss := pool.nameservers;
      for i := 0 to |nss|
        invariant (cache, rows) == Retrieve(old(cache), nss[..i], zone, action, replies)
      {
        assert nss[..i + 1][..i] == nss[..i];
        var key := Key(nss[i], zone, action);
        if key in cache {
          rows := rows + [Row(nss[i], cache[key].status, cache[key].serial)];
        } else {
          var row := RetrieveFromMdns(nss[i], zone, action, replies(nss[i]));
          if row.Some? {
            rows := rows + [row.value];
          }
        }
      }
      assert nss[..|nss|] == nss;
    }

    /** `_is_consensus` */
    method IsConsensus(zone: Id, action: Action, verdict: Verdict, threshold: int, replies: Id -> Reply)
      returns (met: bool)
      requires pool.targets > 0
      modifies this`cache
      ensures cache == Retrieve(old(cache), pool.nameservers, zone, action, replies).0
      ensures var rows := Retrieve(old(cache), pool.nameservers, zone, action, replies).1;
              met == Meets(pool, CountStatus(rows, verdict), threshold)
    {
      var rows := RetrieveStatuses(zone, action, replies);
      var count := CountRows(rows, verdict);
      met := ExceedOrMeetThreshold(pool, count, threshold);
    }

    method GetErrorSerial(zone: ZoneCopy, consensus: nat, first: Id -> Reply, second: Id -> Reply) returns (error: nat)
      requires pool.targets > 0
      modifies this`cache
      ensures (cache, [Message(zone.id, Report(Failure, error))])
              == Complain(old(cache), pool, zone, consensus, first, second)
      ensures error > consensus || error == 0
    {
      error := 0;
      var action := if zone.action == NoAction then Update else zone.action;
      var failed := IsConsensus(zone.id, action, Failure, pool.threshold, first);
      if failed {
        var rows := RetrieveStatuses(zone.id, action, second);
        error := ScanForError(rows, consensus);
      }
    }

    /** The messages a report gives rise to, after the consensus is known. */
    method TellCentral(zone: ZoneCopy, status: Verdict, before: nat, consensus: nat,
                       first: Id -> Reply, second: Id -> Reply)
      requires pool.targets > 0
      modifies this
      ensures (cache, sent) == (Told(old(cache), pool, zone, status, before, consensus, first, second).0,
                                old(sent) + Told(old(cache), pool, zone, status, before, consensus, first, second).1)
    {
      if consensus != 0 && before <= consensus && zone.status != Active {
        sent := sent + [Message(zone.id, Report(Success, consensus))];
      }
      if status == Failure {
        var error := GetErrorSerial(zone, consensus, first, second);
        if error > consensus || error == 0 {
          sent := sent + [Message(zone.id, Report(Failure, error))];
        }
      }
      if status == NoZone {
        sent := sent + [Message(zone.id, Report(NoZone, 0))];
      }
      assert sent == old(sent) + Told(old(cache), pool, zone, status, before, consensus, first, second).1;
    }

    method ClearCache(zone: Id, action: Action)
      modifies this`cache
      ensures cache == Clear(old(cache), pool.nameservers, zone, action)
    {
      var nss := pool.nameservers;
      for i := 0 to |nss|
        invariant cache == Clear(old(cache), nss[..i], zone, action)
      {
        if Key(nss[i], zone, action) in cache {
          cache := cache - {Key(nss[i], zone, action)};
        }
        assert forall ns :: ns in nss[..i + 1] <==> ns in nss[..i] || ns == nss[i];
      }
      assert nss[..|nss|] == nss;
    }

    method EnterReport(key: Key, status: Verdict, actual: Option<nat>) returns (before: nat)
      modifies this`cache
      ensures (cache, before) == Enter(old(cache), key, status, actual)
    {
      if key !in cache {
        cache := cache[key := Entry(None, 0)];
      }
      before := cache[key].serial;
      if actual.Some? && actual.value != 0 && before <= actual.value {
        cache := cache[key := Entry(Some(status), actual.value)];
      }
      assert cache == Enter(old(cache), key, status, actual).0;
    }

    method UpdateStatus(zone: ZoneCopy, ns: Id, status: Verdict, actual: Option<nat>, replies: nat -> Id -> Reply)
      requires pool.targets > 0
      modifies this
      ensures (cache, sent) == (Process(old(cache), pool, zone, ns, status, actual, replies).0,
                                old(sent) + Process(old(cache), pool, zone, ns, status, actual, replies).1)
    {
      var action := if zone.action == NoAction then Update else zone.action;
      var before := EnterReport(Key(ns, zone.id, action), status, actual);
      var rows := RetrieveStatuses(zone.id, action, replies(0));
      var consensus := ScanForConsensus(pool, rows);
      TellCentral(zone, status, before, consensus, replies(1), replies(2));
      if consensus == zone.serial {
        var settled := IsConsensus(zone.id, action, Success, MAXIMUM_THRESHOLD, replies(3));
        if settled {
          ClearCache(zone.id, action);
        }
      }
    }
  }

  // ---------- what a report leads to ----------

  /** A nameserver without the zone has failed a create or an update, which is filed as a create, and has carried
      out a delete. */
  lemma MissingZoneIsFiled(c: Cache, ns: Id, zone: Id, action: Action, serial: Option<nat>)
    requires action != NoAction
    ensures var filed := if action == Delete then Delete else Create;
            var verdict := if action == Delete then Success else Failure;
            var entry := Entry(Some(verdict), if serial.Some? then serial.value else 0);
            FromMdns(c, ns, zone, action, Answer(NoZone, serial))
            == (c[Key(ns, zone, filed) := entry], Some(Row(ns, entry.status, entry.serial)))
  {
  }

  /** The reports to central come in this order: a success, an error, a missing zone. */
  lemma ReportsSent(c: Cache, pool: Pool, zone: ZoneCopy, ns: Id, status: Verdict, actual: Option<nat>,
                    replies: nat -> Id -> Reply) returns (success: seq<Message>, error: seq<Message>)
    requires pool.targets > 0
    ensures Process(c, pool, zone, ns, status, actual, replies).1
            == success + error + if status == NoZone then [Message(zone.id, Report(NoZone, 0))] else []
    ensures var rows := Consult(c, pool, zone, ns, status, actual, replies(0)).1;
            success == Announce(zone, Enter(c, Key(ns, zone.id, KeyAction(zone.action)), status, actual).1,
                                ConsensusSerial(pool, rows))
    ensures status != Failure ==> error == []
    ensures status == Failure ==>
              |error| == 1 && error[0].zone == zone.id && error[0].report.verdict == Failure
              && ErrorSerial(c, pool, zone, ns, actual, replies, error[0].report.serial)
  {
    var (c1, rows) := Consult(c, pool, zone, ns, status, actual, replies(0));
    var consensus := ConsensusSerial(pool, rows);
    success := Announce(zone, Enter(c, Key(ns, zone.id, KeyAction(zone.action)), status, actual).1, consensus);
    error := if status == Failure then Complain(c1, pool, zone, consensus, replies(1), replies(2)).1 else [];
    if status == Failure {
      var rows1 := Retrieve(c1, pool.nameservers, zone.id, KeyAction(zone.action), replies(1)).1;
      StatusCountIsSize(rows1, Failure);
    }
  }

  /** The error serial after an error report: 0 unless enough nameservers have failed and one of them all is past
      the consensus, and then the least serial past it. */
  ghost predicate ErrorSerial(c: Cache, pool: Pool, zone: ZoneCopy, ns: Id, actual: Option<nat>,
                              replies: nat -> Id -> Reply, error: nat)
    requires pool.targets > 0
  {
    var action, nss := if zone.action == NoAction then Update else zone.action, pool.nameservers;
    var (c1, rows) := Consult(c, pool, zone, ns, Failure, actual, replies(0));
    var (c2, failing) := Retrieve(c1, nss, zone.id, action, replies(1));
    var ahead := Retrieve(c2, nss, zone.id, action, replies(2)).1;
    var consensus := ConsensusSerial(pool, rows);
    if 100 * |With(failing, Failure)| >= pool.threshold * pool.targets then IsLeastAbove(ahead, consensus, error)
    else error == 0
  }

  ghost predicate IsLeastAbove(rows: seq<Row>, consensus: nat, least: nat) {
    if forall i | 0 <= i < |rows| :: rows[i].serial <= consensus then least == 0
    else
      && least > consensus && (exists i | 0 <= i < |rows| :: rows[i].serial == least)
      && forall i | 0 <= i < |rows| && rows[i].serial > consensus :: least <= rows[i].serial
  }

  /** The cache and the consensus at the end of a report, before anything is cleared. */
  function AtTheEnd(c: Cache, pool: Pool, zone: ZoneCopy, ns: Id, status: Verdict, actual: Option<nat>,
                    replies: nat -> Id -> Reply): (Cache, nat)
    requires pool.targets > 0
  {
    var (c1, rows) := Consult(c, pool, zone, ns, status, actual, replies(0));
    var consensus := ConsensusSerial(pool, rows);
    var complained := Complain(c1, pool, zone, consensus, replies(1), replies(2)).0;
    (if status == Failure then complained else c1, consensus)
  }

  lemma ProcessFinishes(c: Cache, pool: Pool, zone: ZoneCopy, ns: Id, status: Verdict, actual: Option<nat>,
                        replies: nat -> Id -> Reply)
    requires pool.targets > 0
    ensures var (end, consensus) := AtTheEnd(c, pool, zone, ns, status, actual, replies);
            Process(c, pool, zone, ns, status, actual, replies).0 == Finish(end, pool, zone, consensus, replies(3))
  {
  }

  /** The entries of a zone and action are cleared exactly when the consensus is the zone's own serial and the
      nameservers in success are no fewer than the targets. */
  lemma ClearedWhenSettled(c: Cache, pool: Pool, zone: ZoneCopy, consensus: nat, replies: Id -> Reply)
    requires pool.targets > 0
    ensures var action := if zone.action == NoAction then Update else zone.action;
            var (asked, rows) := Retrieve(c, pool.nameservers, zone.id, action, replies);
            Finish(c, pool, zone, consensus, replies)
            == if consensus != zone.serial then c
               else if |With(rows, Success)| < pool.targets then asked
               else map k | k in asked && !(k.zone == zone.id && k.action == action && k.nameserver in pool.nameservers)
                      :: asked[k]
  {
    StatusCountIsSize(Retrieve(c, pool.nameservers, zone.id, KeyAction(zone.action), replies).1, Success);
  }

  // ---------- the cache only moves forward ----------

  /** Every nameserver of the pool has an entry. */
  predicate Full(c: Cache, nss: seq<Id>, zone: Id, action: Action) {
    forall ns | ns in nss :: Key(ns, zone, action) in c
  }

  function CachedRows(c: Cache, nss: seq<Id>, zone: Id, action: Action): seq<Row>
    requires Full(c, nss, zone, action)
  {
    seq(|nss|, i requires 0 <= i < |nss| => CachedRow(c, Key(nss[i], zone, action)))
  }

  function CachedRow(c: Cache, key: Key): Row
    requires key in c
  {
    Row(key.nameserver, c[key].status, c[key].serial)
  }

  /** With a full cache retrieval asks nobody and changes nothing. */
  lemma {:induction false} RetrieveFull(c: Cache, nss: seq<Id>, zone: Id, action: Action, replies: Id -> Reply)
    requires Full(c, nss, zone, action)
    ensures Retrieve(c, nss, zone, action, replies) == (c, CachedRows(c, nss, zone, action))
  {
    if nss != [] {
      var n := |nss| - 1;
      RetrieveFull(c, nss[..n], zone, action, replies);
      assert CachedRows(c, nss, zone, action)
          == CachedRows(c, nss[..n], zone, action) + [CachedRows(c, nss, zone, action)[n]];
    }
  }

  /** `later` still has the entry, with a serial that has not dropped. */
  predicate Kept(c: Cache, later: Cache, key: Key) {
    key in c ==> key in later && c[key].serial <= later[key].serial
  }

  /** The one way an entry can be overwritten: a create entry of a nameserver asked, during an update, for
      which nothing is cached. */
  predicate Exposed(c: Cache, nss: seq<Id>, zone: Id, action: Action, key: Key) {
    key.zone == zone && key.nameserver in nss && action == Update && key.action == Create
    && Key(key.nameserver, zone, Update) !in c
  }

  lemma {:induction false} RetrieveKeeps(c: Cache, nss: seq<Id>, zone: Id, action: Action, replies: Id -> Reply,
                                         key: Key)
    requires !Exposed(c, nss, zone, action, key)
    ensures Kept(c, Retrieve(c, nss, zone, action, replies).0, key)
    ensures forall k | k in c :: k in Retrieve(c, nss, zone, action, replies).0
  {
    if nss != [] {
      var n := |nss| - 1;
      RetrieveKeeps(c, nss[..n], zone, action, replies, key);
    }
  }

  lemma EnterKeeps(c: Cache, key: Key, status: Verdict, actual: Option<nat>)
    ensures forall k :: Kept(c, Enter(c, key, status, actual).0, k)
    ensures key in Enter(c, key, status, actual).0
  {
  }

  /** The cache just before `update_status` may clear it. */
  function BeforeClearing(c: Cache, pool: Pool, zone: ZoneCopy, ns: Id, status: Verdict, actual: Option<nat>,
                          replies: nat -> Id -> Reply): Cache
    requires pool.targets > 0
  {
    var (end, consensus) := AtTheEnd(c, pool, zone, ns, status, actual, replies);
    if consensus == zone.serial then Retrieve(end, pool.nameservers, zone.id, KeyAction(zone.action), replies(3)).0
    else end
  }

  lemma ProcessEndsBy(c: Cache, pool: Pool, zone: ZoneCopy, ns: Id, status: Verdict, actual: Option<nat>,
                      replies: nat -> Id -> Reply)
    requires pool.targets > 0
    ensures var before := BeforeClearing(c, pool, zone, ns, status, actual, replies);
            var after := Process(c, pool, zone, ns, status, actual, replies).0;
            after == before || after == Clear(before, pool.nameservers, zone.id, KeyAction(zone.action))
  {
  }

  lemma BeforeClearingKeeps(c: Cache, pool: Pool, zone: ZoneCopy, ns: Id, status: Verdict, actual: Option<nat>,
                            replies: nat -> Id -> Reply, key: Key)
    requires pool.targets > 0
    requires var action := KeyAction(zone.action);
             !Exposed(Enter(c, Key(ns, zone.id, action), status, actual).0, pool.nameservers, zone.id, action, key)
    ensures Kept(c, BeforeClearing(c, pool, zone, ns, status, actual, replies), key)
  {
    var action, nss := KeyAction(zone.action), pool.nameservers;
    var entered := Enter(c, Key(ns, zone.id, action), status, actual).0;
    EnterKeeps(c, Key(ns, zone.id, action), status, actual);
    RetrieveKeeps(entered, nss, zone.id, action, replies(0), key);
    var (c1, rows) := Consult(c, pool, zone, ns, status, actual, replies(0));
    RetrieveKeeps(c1, nss, zone.id, action, replies(1), key);
    var c1' := Retrieve(c1, nss, zone.id, action, replies(1)).0;
    RetrieveKeeps(c1', nss, zone.id, action, replies(2), key);
    var complained := Complain(c1, pool, zone, ConsensusSerial(pool, rows), replies(1), replies(2)).0;
    var c2 := if status == Failure then complained else c1;
    RetrieveKeeps(c2, nss, zone.id, action, replies(3), key);
  }

  function NothingThere(lost: Id): nat -> Id -> Reply {
    (n: nat) => (ns: Id) => if ns == lost then Answer(NoZone, None) else Unanswered
  }

  /** An exposed entry drops to serial 0 when its nameserver denies the zone. */
  lemma {:induction false} RetrieveLowers(c: Cache, nss: seq<Id>, zone: Id, lost: Id, n: nat)
    requires Key(lost, zone, Update) !in c
    ensures Retrieve(c, nss, zone, Update, NothingThere(lost)(n)).0
            == if lost in nss then c[Key(lost, zone, Create) := Entry(Some(Failure), 0)] else c
  {
    if nss != [] {
      RetrieveLowers(c, nss[..|nss| - 1], zone, lost, n);
    }
  }

  lemma ExposedIsLowered(c: Cache, pool: Pool, zone: ZoneCopy, ns: Id, status: Verdict, actual: Option<nat>, key: Key)
    requires pool.targets > 0 && KeyAction(zone.action) == Update
    requires Exposed(Enter(c, Key(ns, zone.id, Update), status, actual).0, pool.nameservers, zone.id, Update, key)
    ensures var after := Process(c, pool, zone, ns, status, actual, NothingThere(key.nameserver)).0;
            key in after && after[key].serial == 0
  {
    var nss, lost := pool.nameservers, key.nameserver;
    var replies := NothingThere(lost);
    var entered := Enter(c, Key(ns, zone.id, Update), status, actual).0;
    RetrieveLowers(entered, nss, zone.id, lost, 0);
    var (c1, rows) := Consult(c, pool, zone, ns, status, actual, replies(0));
    assert key == Key(lost, zone.id, Create) && c1 == entered[key := Entry(Some(Failure), 0)];
    RetrieveLowers(c1, nss, zone.id, lost, 1);
    RetrieveLowers(c1, nss, zone.id, lost, 2);
    RetrieveLowers(c1, nss, zone.id, lost, 3);
    assert c1[key := Entry(Some(Failure), 0)] == c1;
    ProcessEndsBy(c, pool, zone, ns, status, actual, replies);
  }

  predicate NotLowered(c: Cache, later: Cache, key: Key) {
    key in c && key in later ==> c[key].serial <= later[key].serial
  }

  /** A report never lowers a cached serial, whatever mDNS answers, exactly when the entry is not exposed. */
  lemma EntryNeverLowered(c: Cache, pool: Pool, zone: ZoneCopy, ns: Id, status: Verdict, actual: Option<nat>, key: Key)
    requires pool.targets > 0 && key in c && c[key].serial > 0
    ensures (forall replies: nat -> Id -> Reply ::
               NotLowered(c, Process(c, pool, zone, ns, status, actual, replies).0, key))
            <==> !Exposed(Enter(c, Key(ns, zone.id, KeyAction(zone.action)), status, actual).0,
                          pool.nameservers, zone.id, KeyAction(zone.action), key)
  {
    var action := KeyAction(zone.action);
    var entered := Enter(c, Key(ns, zone.id, action), status, actual).0;
    if Exposed(entered, pool.nameservers, zone.id, action, key) {
      ExposedIsLowered(c, pool, zone, ns, status, actual, key);
      assert !NotLowered(c, Process(c, pool, zone, ns, status, actual, NothingThere(key.nameserver)).0, key);
    } else {
      forall replies: nat -> Id -> Reply
        ensures NotLowered(c, Process(c, pool, zone, ns, status, actual, replies).0, key)
      {
        BeforeClearingKeeps(c, pool, zone, ns, status, actual, replies, key);
        ProcessEndsBy(c, pool, zone, ns, status, actual, replies);
      }
    }
  }

  /** While every nameserver has an entry for some zone and action, and none of them is exposed, a report
      about any zone cannot lower that consensus; it can only clear it, and only its own. */
  lemma ConsensusNeverDrops(c: Cache, pool: Pool, zone: ZoneCopy, ns: Id, status: Verdict, actual: Option<nat>,
                            replies: nat -> Id -> Reply, id: Id, action: Action)
    requires pool.targets > 0 && Full(c, pool.nameservers, id, action)
    requires forall n | n in pool.nameservers ::
               !Exposed(Enter(c, Key(ns, zone.id, KeyAction(zone.action)), status, actual).0,
                        pool.nameservers, zone.id, KeyAction(zone.action), Key(n, id, action))
    ensures var after, nss := Process(c, pool, zone, ns, status, actual, replies).0, pool.nameservers;
            && (!Full(after, nss, id, action) ==> id == zone.id && action == KeyAction(zone.action))
            && (Full(after, nss, id, action) ==>
                  ConsensusSerial(pool, CachedRows(c, nss, id, action))
                  <= ConsensusSerial(pool, CachedRows(after, nss, id, action)))
  {
    var nss := pool.nameservers;
    var before := BeforeClearing(c, pool, zone, ns, status, actual, replies);
    var after := Process(c, pool, zone, ns, status, actual, replies).0;
    ProcessEndsBy(c, pool, zone, ns, status, actual, replies);
    forall n | n in nss
      ensures Kept(c, before, Key(n, id, action)) && Key(n, id, action) in before
    {
      BeforeClearingKeeps(c, pool, zone, ns, status, actual, replies, Key(n, id, action));
    }
    if Full(after, nss, id, action) {
      assert forall i | 0 <= i < |nss| :: nss[i] in nss && Key(nss[i], id, action) in after;
      ConsensusMonotone(pool, CachedRows(c, nss, id, action), CachedRows(after, nss, id, action));
    }
  }

  // ---------- runs of reports ----------

  datatype Arrival = Arrival(zone: ZoneCopy, ns: Id, status: Verdict, actual: Option<nat>, replies: nat -> Id -> Reply)

  /** The report takes the first cache to the second. */
  ghost predicate Arrives(c: Cache, pool: Pool, a: Arrival, after: Cache)
    requires pool.targets > 0
  {
    after == Process(c, pool, a.zone, a.ns, a.status, a.actual, a.replies).0
  }

  /** No entry of this zone and action can be overwritten by a missing zone during this report. */
  ghost predicate Sheltered(c: Cache, pool: Pool, a: Arrival, id: Id, action: Action) {
    var key := Key(a.ns, a.zone.id, KeyAction(a.zone.action));
    var entered := Enter(c, key, a.status, a.actual).0;
    forall n | n in pool.nameservers :: !Exposed(entered, pool.nameservers, a.zone.id, key.action, Key(n, id, action))
  }

  /** A run of reports, and the caches before, between and after them, none of which lacks an entry of this zone
      and action. */
  ghost predicate FullRun(pool: Pool, caches: seq<Cache>, run: seq<Arrival>, id: Id, action: Action)
    requires pool.targets > 0
  {
    && |caches| == |run| + 1
    && (forall k | 0 <= k < |run| :: Arrives(caches[k], pool, run[k], caches[k + 1]))
    && (forall k | 0 <= k < |caches| :: Full(caches[k], pool.nameservers, id, action))
  }

  ghost predicate ShelteredRun(pool: Pool, caches: seq<Cache>, run: seq<Arrival>, id: Id, action: Action)
    requires |caches| == |run| + 1
  {
    forall k | 0 <= k < |run| :: Sheltered(caches[k], pool, run[k], id, action)
  }

  /** Both caches have every entry, and the consensus of the later one is not the lower. */
  ghost predicate NotBehind(pool: Pool, early: Cache, late: Cache, id: Id, action: Action)
    requires pool.targets > 0
  {
    var nss := pool.nameservers;
    && Full(early, nss, id, action) && Full(late, nss, id, action)
    && var (was, now) := (CachedRows(early, nss, id, action), CachedRows(late, nss, id, action));
       ConsensusSerial(pool, was) <= ConsensusSerial(pool, now)
  }

  lemma ArrivalKeepsConsensus(pool: Pool, c: Cache, a: Arrival, after: Cache, id: Id, action: Action)
    requires pool.targets > 0 && Arrives(c, pool, a, after) && Sheltered(c, pool, a, id, action)
    requires Full(c, pool.nameservers, id, action) && Full(after, pool.nameservers, id, action)
    ensures NotBehind(pool, c, after, id, action)
  {
    ConsensusNeverDrops(c, pool, a.zone, a.ns, a.status, a.actual, a.replies, id, action);
  }

  lemma NotBehindTransitive(pool: Pool, a: Cache, b: Cache, c: Cache, id: Id, action: Action)
    requires pool.targets > 0 && NotBehind(pool, a, b, id, action) && NotBehind(pool, b, c, id, action)
    ensures NotBehind(pool, a, c, id, action)
  {
  }

  lemma NotBehindItself(pool: Pool, c: Cache, id: Id, action: Action)
    requires pool.targets > 0 && Full(c, pool.nameservers, id, action)
    ensures NotBehind(pool, c, c, id, action)
  {
  }

  /** Over any run of reports about any zones, a consensus does not drop until a report clears it. */
  lemma {:induction false} RunsKeepConsensus(pool: Pool, caches: seq<Cache>, run: seq<Arrival>, id: Id, action: Action,
                                             j: nat, k: nat)
    requires pool.targets > 0 && j <= k <= |run|
    requires FullRun(pool, caches, run, id, action) && ShelteredRun(pool, caches, run, id, action)
    ensures NotBehind(pool, caches[j], caches[k], id, action)
  {
    if j == k {
      NotBehindItself(pool, caches[k], id, action);
    } else {
      RunsKeepConsensus(pool, caches, run, id, action, j, k - 1);
      assert Arrives(caches[k - 1], pool, run[k - 1], caches[k - 1 + 1]);
      ArrivalKeepsConsensus(pool, caches[k - 1], run[k - 1], caches[k], id, action);
      NotBehindTransitive(pool, caches[j], caches[k - 1], caches[k], id, action);
    }
  }

  /** Only create entries of a zone that is being updated need the shelter. */
  lemma OthersAreSheltered(c: Cache, pool: Pool, a: Arrival, id: Id, action: Action)
    requires action != Create || a.zone.id != id || KeyAction(a.zone.action) != Update
    ensures Sheltered(c, pool, a, id, action)
  {
  }
}
