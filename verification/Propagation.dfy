/** The whole protocol: nameserver reports, the pool manager and central, with messages that may be late, lost,
    repeated or out of order, and edits of central's tables that may be anything at all. Outside an edit a zone
    or record becomes active only when enough nameservers have caught up with it. The code has edits that make
    rows active outright: the default records of a new zone, and the outcome a backend reports for a zone. */
module Propagation {
  import opened Wrappers
  import opened Storage
  import CentralStatus
  import opened Consensus
  import opened PoolManager

  /** `nameserver` has at some time reported `serial` for `zone`. */
  datatype Seen = Seen(nameserver: Id, zone: Id, serial: nat)

  datatype System = System(seen: set<Seen>, cache: Cache, sent: set<Message>, db: CentralStatus.Db)

  datatype Event =
    /** A nameserver answers a poll with this serial. */
    | Observe(what: Seen)
    /** mDNS passes a report on to the pool manager. */
    | Notify(zone: ZoneCopy, nameserver: Id, status: CentralStatus.Verdict, actual: Option<nat>,
             replies: nat -> Id -> Reply)
    /** Central handles one message the pool manager has sent. */
    | Deliver(message: Message)
    /** Entries of the status cache reach the end of their lifetime. */
    | Expire(keys: set<Key>)
    /** Anything else that writes zones, records or recordsets. */
    | Edit(db: CentralStatus.Db)

  // ---------- steps ----------

  ghost predicate SeenBy(seen: set<Seen>, nameserver: Id, zone: Id, serial: nat) {
    serial > 0 ==> Seen(nameserver, zone, serial) in seen
  }

  /** mDNS passes on serials it was given, possibly long ago, and no others. */
  ghost predicate Truthful(seen: set<Seen>, zone: Id, replies: Id -> Reply) {
    forall ns :: replies(ns).Answer? ==> SeenBy(seen, ns, zone, SerialOr0(replies(ns).serial))
  }

  ghost predicate Honest(seen: set<Seen>, e: Event)
    requires e.Notify?
  {
    && SeenBy(seen, e.nameserver, e.zone.id, SerialOr0(e.actual))
    && forall n :: Truthful(seen, e.zone.id, e.replies(n))
  }

  /** One step; an event that cannot happen here changes nothing. */
  ghost function Next(pool: Pool, s: System, e: Event): System
    requires pool.targets > 0
  {
    match e
    case Observe(what) => s.(seen := s.seen + {what})
    case Notify(zone, ns, status, actual, replies) =>
      if !Honest(s.seen, e) then s
      else
        var (cache, out) := Process(s.cache, pool, zone, ns, status, actual, replies);
        s.(cache := cache, sent := s.sent + set m | m in out)
    case Deliver(m) => if m in s.sent then s.(db := CentralStatus.Receive(s.db, m.zone, m.report)) else s
    case Expire(keys) => s.(cache := s.cache - keys)
    case Edit(db) => s.(db := db)
  }

  /** The state after the first `k` events. */
  ghost function At(pool: Pool, s: System, run: seq<Event>, k: nat): System
    requires pool.targets > 0 && k <= |run|
  {
    if k == 0 then s else Next(pool, At(pool, s, run, k - 1), run[k - 1])
  }

  /** What a nameserver has once reported stays reported. */
  lemma {:induction false} ObservationsStay(pool: Pool, start: System, run: seq<Event>, j: nat, k: nat)
    requires pool.targets > 0 && j < k <= |run| && run[j].Observe?
    ensures run[j].what in At(pool, start, run, k).seen
  {
    if j < k - 1 {
      ObservationsStay(pool, start, run, j, k - 1);
    }
  }

  // ---------- the history invariant ----------

  ghost predicate HasReached(seen: set<Seen>, ns: Id, zone: Id, serial: nat) {
    exists x :: x in seen && x.nameserver == ns && x.zone == zone && x.serial >= serial
  }

  /** The nameservers among these that have reported at least this serial. */
  ghost function Reached(seen: set<Seen>, nss: seq<Id>, zone: Id, serial: nat): set<Id> {
    set ns | ns in nss && HasReached(seen, ns, zone, serial)
  }

  /** The nameservers that have reached the serial are at least the threshold, in percent of the targets. */
  ghost predicate EnoughReached(pool: Pool, seen: set<Seen>, zone: Id, serial: nat) {
    100 * |Reached(seen, pool.nameservers, zone, serial)| >= pool.threshold * pool.targets
  }

  ghost predicate CacheBacked(seen: set<Seen>, cache: Cache) {
    forall k | k in cache :: SeenBy(seen, k.nameserver, k.zone, cache[k].serial)
  }

  ghost predicate Backed(pool: Pool, s: System)
    requires pool.targets > 0
  {
    && CacheBacked(s.seen, s.cache)
    && forall m | m in s.sent && m.report.verdict == CentralStatus.Success ::
         m.report.serial > 0 && EnoughReached(pool, s.seen, m.zone, m.report.serial)
  }

  predicate Distinct(nss: seq<Id>) { forall i, j | 0 <= i < j < |nss| :: nss[i] != nss[j] }

  lemma {:induction false} RetrieveBacked(seen: set<Seen>, c: Cache, nss: seq<Id>, zone: Id, action: Action,
                                          replies: Id -> Reply)
    requires CacheBacked(seen, c) && Truthful(seen, zone, replies)
    ensures CacheBacked(seen, Retrieve(c, nss, zone, action, replies).0)
  {
    if nss != [] {
      RetrieveBacked(seen, c, nss[..|nss| - 1], zone, action, replies);
    }
  }

  /** Rows of distinct nameservers, each backed by a report, count no more nameservers than have reported. */
  lemma {:induction false} CountedHaveReached(seen: set<Seen>, c: Cache, nss: seq<Id>, zone: Id, action: Action,
                                              replies: Id -> Reply, serial: nat)
    requires CacheBacked(seen, c) && Truthful(seen, zone, replies) && Distinct(nss) && serial > 0
    ensures CountAtLeast(Retrieve(c, nss, zone, action, replies).1, serial) <= |Reached(seen, nss, zone, serial)|
  {
    if nss != [] {
      var n := |nss| - 1;
      var (c', rows) := Retrieve(c, nss[..n], zone, action, replies);
      CountedHaveReached(seen, c, nss[..n], zone, action, replies, serial);
      RetrieveBacked(seen, c, nss[..n], zone, action, replies);
      var row := RetrieveOne(c', nss[n], zone, action, replies(nss[n])).1;
      if row.Some? {
        assert (rows + [row.value])[..|rows|] == rows;
        assert SeenBy(seen, nss[n], zone, row.value.serial);
      }
      ReachedSnoc(seen, nss, zone, serial);
      if row.Some? && row.value.serial >= serial {
        assert Seen(nss[n], zone, row.value.serial) in seen;
      }
    }
  }

  lemma ReachedSnoc(seen: set<Seen>, nss: seq<Id>, zone: Id, serial: nat)
    requires nss != [] && Distinct(nss)
    ensures var n := |nss| - 1;
            var reached := if HasReached(seen, nss[n], zone, serial) then 1 else 0;
            |Reached(seen, nss, zone, serial)| == |Reached(seen, nss[..n], zone, serial)| + reached
  {
    var n := |nss| - 1;
    var some, all := Reached(seen, nss[..n], zone, serial), Reached(seen, nss, zone, serial);
    assert nss[n] !in nss[..n];
    assert forall ns :: ns in nss <==> ns in nss[..n] || ns == nss[n];
    assert all == some + if HasReached(seen, nss[n], zone, serial) then {nss[n]} else {};
  }

  lemma SubsetSize<T>(a: set<T>, b: set<T>)
    requires a <= b
    ensures |a| <= |b|
  {
    assert b == a + (b - a);
  }

  /** More reports, or a lower bar, cannot undo a threshold that was met. */
  lemma StillReached(pool: Pool, seen: set<Seen>, more: set<Seen>, zone: Id, high: nat, low: nat)
    requires pool.targets > 0 && seen <= more && low <= high && EnoughReached(pool, seen, zone, high)
    ensures EnoughReached(pool, more, zone, low)
  {
    SubsetSize(Reached(seen, pool.nameservers, zone, high), Reached(more, pool.nameservers, zone, low));
  }

  /** What a report leaves in the cache has been reported too. */
  lemma CacheStaysBacked(seen: set<Seen>, c: Cache, pool: Pool, zone: ZoneCopy, ns: Id, status: CentralStatus.Verdict,
                         actual: Option<nat>, replies: nat -> Id -> Reply)
    requires pool.targets > 0 && CacheBacked(seen, Consult(c, pool, zone, ns, status, actual, replies(0)).0)
    requires forall n: nat :: Truthful(seen, zone.id, replies(n))
    ensures CacheBacked(seen, Process(c, pool, zone, ns, status, actual, replies).0)
  {
    var nss, action := pool.nameservers, KeyAction(zone.action);
    var (c1, rows) := Consult(c, pool, zone, ns, status, actual, replies(0));
    RetrieveBacked(seen, c1, nss, zone.id, action, replies(1));
    RetrieveBacked(seen, Retrieve(c1, nss, zone.id, action, replies(1)).0, nss, zone.id, action, replies(2));
    var complained := Complain(c1, pool, zone, ConsensusSerial(pool, rows), replies(1), replies(2)).0;
    var c2 := if status == CentralStatus.Failure then complained else c1;
    RetrieveBacked(seen, c2, nss, zone.id, action, replies(3));
    ProcessEndsBy(c, pool, zone, ns, status, actual, replies);
  }

  /** A success is announced only for a consensus that enough nameservers have reached. */
  lemma AnnouncementBacked(seen: set<Seen>, c: Cache, pool: Pool, zone: ZoneCopy, replies: Id -> Reply)
    requires pool.targets > 0 && Distinct(pool.nameservers) && CacheBacked(seen, c) && Truthful(seen, zone.id, replies)
    ensures var rows := Retrieve(c, pool.nameservers, zone.id, KeyAction(zone.action), replies).1;
            var consensus := ConsensusSerial(pool, rows);
            consensus > 0 ==> EnoughReached(pool, seen, zone.id, consensus)
  {
    var action := KeyAction(zone.action);
    var rows := Retrieve(c, pool.nameservers, zone.id, action, replies).1;
    var consensus := ConsensusSerial(pool, rows);
    if consensus > 0 {
      ConsensusIsOrderStatistic(pool, rows, consensus);
      CountedHaveReached(seen, c, pool.nameservers, zone.id, action, replies, consensus);
    }
  }

  lemma OnlyAnnouncementsSucceed(c: Cache, pool: Pool, zone: ZoneCopy, ns: Id, status: CentralStatus.Verdict,
                                 actual: Option<nat>, replies: nat -> Id -> Reply, m: Message)
    requires pool.targets > 0 && m in Process(c, pool, zone, ns, status, actual, replies).1
    requires m.report.verdict == CentralStatus.Success
    ensures m.zone == zone.id && m.report.serial > 0
    ensures m.report.serial == ConsensusSerial(pool, Consult(c, pool, zone, ns, status, actual, replies(0)).1)
    ensures zone.status != Active
    ensures Enter(c, Key(ns, zone.id, KeyAction(zone.action)), status, actual).1 <= m.report.serial
  {
    var (c1, rows) := Consult(c, pool, zone, ns, status, actual, replies(0));
    var consensus := ConsensusSerial(pool, rows);
    var before := Enter(c, Key(ns, zone.id, KeyAction(zone.action)), status, actual).1;
    assert m in Told(c1, pool, zone, status, before, consensus, replies(1), replies(2)).1;
    assert m in Announce(zone, before, consensus);
  }

  lemma NotifyBacked(pool: Pool, s: System, e: Event)
    requires pool.targets > 0 && Distinct(pool.nameservers) && Backed(pool, s)
    requires e.Notify? && Honest(s.seen, e)
    ensures Backed(pool, Next(pool, s, e))
  {
    var zone, action := e.zone, KeyAction(e.zone.action);
    var entered := Enter(s.cache, Key(e.nameserver, zone.id, action), e.status, e.actual).0;
    assert CacheBacked(s.seen, entered);
    assert forall n: nat :: Truthful(s.seen, zone.id, e.replies(n));
    RetrieveBacked(s.seen, entered, pool.nameservers, zone.id, action, e.replies(0));
    AnnouncementBacked(s.seen, entered, pool, zone, e.replies(0));
    CacheStaysBacked(s.seen, s.cache, pool, zone, e.nameserver, e.status, e.actual, e.replies);
    var (cache, out) := Process(s.cache, pool, zone, e.nameserver, e.status, e.actual, e.replies);
    forall m | m in out && m.report.verdict == CentralStatus.Success
      ensures m.report.serial > 0 && EnoughReached(pool, s.seen, m.zone, m.report.serial)
    {
      OnlyAnnouncementsSucceed(s.cache, pool, zone, e.nameserver, e.status, e.actual, e.replies, m);
    }
  }

  lemma StepBacked(pool: Pool, s: System, e: Event)
    requires pool.targets > 0 && Distinct(pool.nameservers) && Backed(pool, s)
    ensures Backed(pool, Next(pool, s, e))
  {
    match e {
      case Observe(what) =>
        var more := s.seen + {what};
        forall m | m in s.sent && m.report.verdict == CentralStatus.Success
          ensures EnoughReached(pool, more, m.zone, m.report.serial)
        {
          StillReached(pool, s.seen, more, m.zone, m.report.serial, m.report.serial);
        }
      case Notify(_, _, _, _, _) =>
        if Honest(s.seen, e) {
          NotifyBacked(pool, s, e);
        }
      case _ =>
    }
  }

  // ---------- safety ----------

  /** A zone or record that is active now and was not before has been reached, at its own serial, by
      enough nameservers. */
  ghost predicate StepSafe(pool: Pool, s: System, after: System)
    requires pool.targets > 0
  {
    && (forall id | id in after.db.zones && after.db.zones[id].status == Active
           && !(id in s.db.zones && s.db.zones[id].status == Active) ::
          EnoughReached(pool, s.seen, id, after.db.zones[id].serial))
    && (forall r | r in after.db.records && after.db.records[r].status == Active
           && !(r in s.db.records && s.db.records[r].status == Active) ::
          EnoughReached(pool, s.seen, after.db.records[r].zone, after.db.records[r].serial))
  }

  lemma StepIsSafe(pool: Pool, s: System, e: Event)
    requires pool.targets > 0 && Backed(pool, s) && !e.Edit?
    ensures StepSafe(pool, s, Next(pool, s, e))
  {
    var after := Next(pool, s, e);
    if e.Deliver? && e.message in s.sent {
      var zone, rep := e.message.zone, e.message.report;
      forall serial: nat | serial <= rep.serial && rep.verdict == CentralStatus.Success
        ensures EnoughReached(pool, s.seen, zone, serial)
      {
        StillReached(pool, s.seen, s.seen, zone, rep.serial, serial);
      }
    }
  }

  lemma {:induction false} RunBacked(pool: Pool, s: System, run: seq<Event>, k: nat)
    requires pool.targets > 0 && Distinct(pool.nameservers) && Backed(pool, s) && k <= |run|
    ensures Backed(pool, At(pool, s, run, k))
  {
    if k > 0 {
      RunBacked(pool, s, run, k - 1);
      StepBacked(pool, At(pool, s, run, k - 1), run[k - 1]);
    }
  }

  /** Activation safety: in every run that starts with nothing cached and nothing sent, each step other than an
      edit that makes a zone (or a record) of serial S active finds that the nameservers which have at some time
      reported a serial of at least S meet the threshold. */
  lemma ActivationSafety(pool: Pool, start: System, run: seq<Event>, k: nat)
    requires pool.targets > 0 && Distinct(pool.nameservers)
    requires start.cache == map[] && start.sent == {}
    requires k < |run| && !run[k].Edit?
    ensures StepSafe(pool, At(pool, start, run, k), At(pool, start, run, k + 1))
  {
    RunBacked(pool, start, run, k);
    StepIsSafe(pool, At(pool, start, run, k), run[k]);
  }

  // ---------- progress ----------

  /** The statuses the consensus is taken over after this report. */
  function Consulted(pool: Pool, s: System, e: Event): seq<Row>
    requires e.Notify?
  {
    Consult(s.cache, pool, e.zone, e.nameserver, e.status, e.actual, e.replies(0)).1
  }

  /** With this report the nameservers at or past the serial are there and meet the threshold, and the zone was not
      taken to be active nor this nameserver ahead of the others. */
  ghost predicate Completes(pool: Pool, s: System, e: Event, serial: nat)
    requires pool.targets > 0 && e.Notify?
  {
    var rows := Consulted(pool, s, e);
    var key := Key(e.nameserver, e.zone.id, KeyAction(e.zone.action));
    && AtLeast(rows, serial) != {} && 100 * |AtLeast(rows, serial)| >= pool.threshold * pool.targets
    && e.zone.status != Active && Enter(s.cache, key, e.status, e.actual).1 <= ConsensusSerial(pool, rows)
  }

  ghost predicate Announces(pool: Pool, s: System, e: Event, serial: nat)
    requires pool.targets > 0 && e.Notify?
  {
    exists consensus | consensus >= serial :: SuccessOf(e.zone.id, consensus) in Said(pool, s, e)
  }

  function SuccessOf(zone: Id, serial: nat): Message {
    Message(zone, CentralStatus.Report(CentralStatus.Success, serial))
  }

  function Said(pool: Pool, s: System, e: Event): seq<Message>
    requires pool.targets > 0 && e.Notify?
  {
    Process(s.cache, pool, e.zone, e.nameserver, e.status, e.actual, e.replies).1
  }

  /** A report makes the pool manager announce a serial, or a later one, exactly when it completes agreement on it. */
  lemma AgreementIsAnnounced(pool: Pool, s: System, e: Event, serial: nat)
    requires pool.targets > 0 && e.Notify? && serial > 0
    ensures Announces(pool, s, e, serial) <==> Completes(pool, s, e, serial)
    ensures Announces(pool, s, e, serial) ==>
              SuccessOf(e.zone.id, ConsensusSerial(pool, Consulted(pool, s, e))) in Said(pool, s, e)
              && ConsensusSerial(pool, Consulted(pool, s, e)) >= serial
  {
    var rows := Consulted(pool, s, e);
    var consensus := ConsensusSerial(pool, rows);
    var before := Enter(s.cache, Key(e.nameserver, e.zone.id, KeyAction(e.zone.action)), e.status, e.actual).1;
    ConsensusIsOrderStatistic(pool, rows, serial);
    if Completes(pool, s, e, serial) {
      assert Announce(e.zone, before, consensus) == [SuccessOf(e.zone.id, consensus)];
      assert Said(pool, s, e)[0] == SuccessOf(e.zone.id, consensus);
    }
    if c :| c >= serial && SuccessOf(e.zone.id, c) in Said(pool, s, e) {
      var m := SuccessOf(e.zone.id, c);
      OnlyAnnouncementsSucceed(s.cache, pool, e.zone, e.nameserver, e.status, e.actual, e.replies, m);
    }
  }

  lemma SuccessActivates(db: CentralStatus.Db, id: Id, serial: nat)
    requires id in db.zones && (db.zones[id].action == Create || db.zones[id].action == Update)
    requires CentralStatus.Waiting(db.zones[id].status) && db.zones[id].serial <= serial
    requires forall r | r in db.records :: db.records[r].recordset in db.recordsets
    ensures var after := CentralStatus.Receive(db, id, CentralStatus.Report(CentralStatus.Success, serial));
            after.zones == db.zones[id := db.zones[id].(action := NoAction, status := Active)]
  {
  }

  /** The converse of safety: once a report completes the agreement of a threshold of nameservers on the serial
      of a waiting zone, the pool manager has sent a message whose delivery makes the zone active. */
  lemma AgreementActivates(pool: Pool, s: System, e: Event, id: Id) returns (m: Message)
    requires pool.targets > 0 && e.Notify? && Honest(s.seen, e) && e.zone.id == id && id in s.db.zones
    requires var z := s.db.zones[id];
             (z.action == Create || z.action == Update) && CentralStatus.Waiting(z.status) && z.serial > 0
    requires Completes(pool, s, e, s.db.zones[id].serial)
    requires forall r | r in s.db.records :: s.db.records[r].recordset in s.db.recordsets
    ensures m in Next(pool, s, e).sent
    ensures Next(pool, Next(pool, s, e), Deliver(m)).db.zones
            == s.db.zones[id := s.db.zones[id].(action := NoAction, status := Active)]
  {
    AgreementIsAnnounced(pool, s, e, s.db.zones[id].serial);
    var consensus := ConsensusSerial(pool, Consulted(pool, s, e));
    m := SuccessOf(id, consensus);
    SuccessActivates(s.db, id, consensus);
    var (cache, out) := Process(s.cache, pool, e.zone, e.nameserver, e.status, e.actual, e.replies);
    assert Next(pool, s, e) == s.(cache := cache, sent := s.sent + set x | x in out);
  }
}
