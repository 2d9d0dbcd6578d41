/** Polling a nameserver for a zone's serial: two nested retry loops with one budget of attempts and time. */
module Poll {
  import opened Wrappers
  import opened Storage
  import opened CentralStatus

  datatype Rcode = NoError | NxDomain | Refused | ServFail | OtherRcode

  /** An RRset of the answer section; `serial` is that of its first item when it is an SOA. */
  datatype Answer = Answer(name: string, isIn: bool, isSoa: bool, serial: nat)

  datatype Response = Response(rcode: Rcode, authoritative: bool, answer: seq<Answer>)

  /** How one attempt to send ends; `Fatal` is a socket error that is not retried. */
  datatype Attempt = Replied(response: Response) | Again | TimedOut | BadResponse | Fatal

  datatype Target = Target(name: string, serial: nat, action: Action)

  /** The network and the clock: `plan(n)` is the outcome of the n-th attempt and the time it takes. */
  class Wire {
    const plan: nat -> (Attempt, real)
    var sends: nat
    var clock: real

    constructor (plan: nat -> (Attempt, real))
      ensures this.plan == plan && sends == 0 && clock == 0.0
    {
      this.plan := plan;
      sends, clock := 0, 0.0;
    }

    /** `_send_dns_message`; an attempt takes no longer than its timeout. */
    ghost predicate Timely(timeout: nat) {
      forall n :: 0.0 <= plan(n).1 <= timeout as real
    }

    method Send(ghost timeout: nat) returns (a: Attempt)
      requires Timely(timeout)
      modifies this
      ensures a == plan(old(sends)).0 && sends == old(sends) + 1
      ensures clock == old(clock) + plan(old(sends)).1
    {
      var (outcome, taken) := plan(sends);
      a, sends, clock := outcome, sends + 1, clock + taken;
    }

    method Sleep(t: nat)
      modifies this`clock
      ensures clock == old(clock) + t as real
    {
      clock := clock + t as real;
    }
  }

  // ---------- what a reply is worth ----------

  predicate Denied(r: Response) { r.rcode == NxDomain || r.rcode == Refused || r.rcode == ServFail }

  /** The reply `_make_and_send_dns_message` lets through. */
  function Screened(a: Attempt): Option<Response> {
    if !a.Replied? then None
    else if Denied(a.response) || (a.response.rcode == NoError && a.response.answer == []) then Some(a.response)
    else if !a.response.authoritative || a.response.rcode != NoError then None
    else Some(a.response)
  }

  predicate ZoneMissing(r: Response) { Denied(r) || r.answer == [] }

  /** The serial in a reply to a question about this zone, if there is one. */
  function SerialOf(r: Option<Response>, name: string): Option<nat> {
    if r.Some? && !ZoneMissing(r.value) && |r.value.answer| == 1
       && r.value.answer[0].name == name && r.value.answer[0].isIn && r.value.answer[0].isSoa
    then Some(r.value.answer[0].serial) else None
  }

  function SerialFrom(a: Attempt, name: string): Option<nat> { SerialOf(Screened(a), name) }

  predicate MissingIn(a: Attempt) { Screened(a).Some? && ZoneMissing(Screened(a).value) }

  /** What counts as a reply without the zone: a denial, or an empty answer without an error. */
  lemma MissingMeans(a: Attempt)
    ensures MissingIn(a) <==>
              a.Replied?
              && (a.response.rcode in {NxDomain, Refused, ServFail}
                  || (a.response.rcode == NoError && a.response.answer == []))
  {
  }

  /** What counts as a serial: an authoritative reply without an error whose one answer is the zone's SOA. */
  lemma SerialMeans(a: Attempt, name: string, serial: nat)
    ensures SerialFrom(a, name) == Some(serial) <==>
              a == Replied(Response(NoError, true, [Answer(name, true, true, serial)]))
  {
    if SerialFrom(a, name) == Some(serial) {
      assert a.response.answer == [a.response.answer[0]];
    }
  }

  /** Attempts that are made again. */
  predicate Retried(a: Attempt) { a == Again || a == TimedOut }

  /** An attempt that ends the polling: its serial is new enough, or it finds no zone where none is expected. */
  predicate Decisive(a: Attempt, zone: Target) {
    || (SerialFrom(a, zone.name).Some? && SerialFrom(a, zone.name).value >= zone.serial)
    || (MissingIn(a) && zone.serial == 0 && zone.action in {Delete, NoAction})
  }

  type Plan = nat -> (Attempt, real)

  /** The serial of the latest attempt that brought one. */
  function Latest(plan: Plan, lo: nat, hi: nat, name: string): Option<nat> {
    if hi <= lo then None
    else
      var s := SerialFrom(plan(hi - 1).0, name);
      if s.Some? then s else Latest(plan, lo, hi - 1, name)
  }

  lemma {:induction false} LatestMeans(plan: Plan, lo: nat, hi: nat, name: string)
    ensures Latest(plan, lo, hi, name).None? <==> forall n: nat | lo <= n < hi :: SerialFrom(plan(n).0, name).None?
    ensures Latest(plan, lo, hi, name).Some? ==>
              exists n: nat :: lo <= n < hi && SerialFrom(plan(n).0, name) == Latest(plan, lo, hi, name)
                               && forall m: nat | n < m < hi :: SerialFrom(plan(m).0, name).None?
  {
    if lo < hi {
      LatestMeans(plan, lo, hi - 1, name);
    }
  }

  /** One of these attempts found no zone. */
  ghost predicate SeenMissing(plan: Plan, lo: nat, hi: nat) {
    exists n: nat :: lo <= n < hi && MissingIn(plan(n).0)
  }

  /** The attempts charged for: those up to the last one that was not retried. */
  function Charged(plan: Plan, lo: nat, hi: nat): nat {
    if hi <= lo then 0 else if Retried(plan(hi - 1).0) then Charged(plan, lo, hi - 1) else hi - lo
  }

  // ---------- the time budget ----------

  /** `max_prop_time` */
  function MaxPropTime(timeout: nat, maxRetries: nat, retryInterval: nat, delay: nat): nat {
    timeout * maxRetries + maxRetries * retryInterval + delay
  }

  /** The time taken by these attempts and one sleep after each. */
  ghost function Elapsed(plan: Plan, lo: nat, hi: nat, interval: nat): real {
    if hi <= lo then 0.0 else Elapsed(plan, lo, hi - 1, interval) + plan(hi - 1).1 + interval as real
  }

  lemma {:induction false} ElapsedAdds(plan: Plan, lo: nat, mid: nat, hi: nat, interval: nat)
    requires lo <= mid <= hi
    ensures Elapsed(plan, lo, hi, interval) == Elapsed(plan, lo, mid, interval) + Elapsed(plan, mid, hi, interval)
  {
    if mid < hi {
      ElapsedAdds(plan, lo, mid, hi - 1, interval);
    }
  }

  /** Attempts within their timeout, and a sleep after each, fit the bound computed elsewhere. */
  lemma {:induction false} ElapsedFits(plan: Plan, lo: nat, hi: nat, timeout: nat, interval: nat, maxRetries: nat,
                                       delay: nat)
    requires lo <= hi <= lo + maxRetries && forall n :: 0.0 <= plan(n).1 <= timeout as real
    ensures Elapsed(plan, lo, hi, interval) + delay as real <= MaxPropTime(timeout, maxRetries, interval, delay) as real
  {
    if lo < hi {
      ElapsedFits(plan, lo, hi - 1, timeout, interval, maxRetries - 1, delay);
      assert timeout * maxRetries == timeout * (maxRetries - 1) + timeout;
      assert maxRetries * interval == (maxRetries - 1) * interval + interval;
      assert MaxPropTime(timeout, maxRetries, interval, delay)
          == MaxPropTime(timeout, maxRetries - 1, interval, delay) + timeout + interval;
    }
  }

  /** The bound cannot be lowered: it is what `maxRetries` attempts that all time out take. */
  lemma {:induction false} MaxPropTimeIsReached(plan: Plan, lo: nat, timeout: nat, interval: nat, maxRetries: nat,
                                                delay: nat)
    requires forall n :: plan(n) == (TimedOut, timeout as real)
    ensures Elapsed(plan, lo, lo + maxRetries, interval) + delay as real
            == MaxPropTime(timeout, maxRetries, interval, delay) as real
  {
    if maxRetries > 0 {
      MaxPropTimeIsReached(plan, lo, timeout, interval, maxRetries - 1, delay);
      assert timeout * maxRetries == timeout * (maxRetries - 1) + timeout;
      assert maxRetries * interval == (maxRetries - 1) * interval + interval;
      assert MaxPropTime(timeout, maxRetries, interval, delay)
          == MaxPropTime(timeout, maxRetries - 1, interval, delay) + timeout + interval;
    }
  }

  // ---------- the loops ----------

  /** The sleep that does not follow the last attempt when that was not retried. */
  ghost function Unslept(plan: Plan, lo: nat, hi: nat, interval: nat): nat {
    if lo < hi && !Retried(plan(hi - 1).0) then interval else 0
  }

  /** `_make_and_send_dns_message`: the reply of the last attempt made, all earlier ones having failed in a
      way that is retried. `raised` stands for a socket error that escapes. */
  method MakeAndSend(wire: Wire, timeout: nat, interval: nat, maxRetries: nat)
    returns (response: Option<Response>, retry: nat, raised: bool)
    requires wire.Timely(timeout)
    modifies wire
    ensures retry <= maxRetries && wire.sends == old(wire.sends) + retry
    ensures retry < maxRetries ==> retry > 0 && !Retried(wire.plan(wire.sends - 1).0)
    ensures forall n | old(wire.sends) <= n < wire.sends - 1 :: Retried(wire.plan(n).0)
    ensures response == if retry > 0 then Screened(wire.plan(wire.sends - 1).0) else None
    ensures raised <==> retry > 0 && wire.plan(wire.sends - 1).0 == Fatal
    ensures wire.clock == old(wire.clock) + Elapsed(wire.plan, old(wire.sends), wire.sends, interval)
                          - Unslept(wire.plan, old(wire.sends), wire.sends, interval) as real
  {
    retry, response, raised := 0, None, false;
    while retry < maxRetries
      invariant retry <= maxRetries && wire.sends == old(wire.sends) + retry
      invariant response == None && !raised
      invariant forall n | old(wire.sends) <= n < wire.sends :: Retried(wire.plan(n).0)
      invariant wire.clock == old(wire.clock) + Elapsed(wire.plan, old(wire.sends), wire.sends, interval)
    {
      retry := retry + 1;
      var a := wire.Send(timeout);
      match a {
        case Again =>
          wire.Sleep(interval);
        case TimedOut =>
          wire.Sleep(interval);
        case BadResponse =>
          break;
        case Fatal =>
          raised := true;
          break;
        case Replied(r) =>
          response := Some(r);
          break;
      }
    }
    if response.Some? {
      var r := response.value;
      if r.rcode in {NxDomain, Refused, ServFail} || (r.rcode == NoError && r.answer == []) {
      } else if !r.authoritative || r.rcode != NoError {
        response := None;
      }
    }
  }

  /** What is known while the polling goes on, after the attempts from `lo` up to `hi`. */
  ghost predicate Polling(plan: Plan, lo: nat, hi: nat, zone: Target, status: Verdict, actual: Option<nat>) {
    && (forall n | lo <= n < hi :: Undecided(plan(n).0, zone))
    && status == (if SeenMissing(plan, lo, hi) then NoZone else Failure)
    && actual == Latest(plan, lo, hi, zone.name) && (actual.Some? ==> actual.value < zone.serial)
  }

  predicate Undecided(a: Attempt, zone: Target) { a != Fatal && !Decisive(a, zone) }

  lemma {:induction false} LatestSkips(plan: Plan, lo: nat, mid: nat, hi: nat, name: string)
    requires lo <= mid <= hi && forall n | mid <= n < hi :: Retried(plan(n).0)
    ensures Latest(plan, lo, hi, name) == Latest(plan, lo, mid, name)
    ensures Charged(plan, lo, hi) == Charged(plan, lo, mid)
  {
    if mid < hi {
      LatestSkips(plan, lo, mid, hi - 1, name);
    }
  }

  /** Attempts that were retried say nothing; only the last of a round can. */
  lemma RoundEnds(plan: Plan, lo: nat, mid: nat, hi: nat, zone: Target, status: Verdict, actual: Option<nat>)
    requires lo <= mid < hi && Polling(plan, lo, mid, zone, status, actual)
    requires forall n | mid <= n < hi - 1 :: Retried(plan(n).0)
    ensures forall n | lo <= n < hi - 1 :: Undecided(plan(n).0, zone)
    ensures Charged(plan, lo, hi - 1) == Charged(plan, lo, mid)
    ensures var a := plan(hi - 1).0;
            var s := SerialFrom(a, zone.name);
            Undecided(a, zone) ==>
              Polling(plan, lo, hi, zone, if MissingIn(a) then NoZone else status, if s.Some? then s else actual)
  {
    LatestSkips(plan, lo, mid, hi - 1, zone.name);
    if n: nat :| lo <= n < mid && MissingIn(plan(n).0) {
      assert SeenMissing(plan, lo, hi);
    }
    if MissingIn(plan(hi - 1).0) {
      assert SeenMissing(plan, lo, hi);
    }
  }

  /** What the polling comes to: it stops at the first decisive attempt, or when it has made them all. */
  ghost predicate Outcome(plan: Plan, lo: nat, hi: nat, zone: Target, maxRetries: nat,
                          status: Verdict, actual: Option<nat>, retriesLeft: nat)
    requires lo <= hi
  {
    if lo < hi && Decisive(plan(hi - 1).0, zone) then
      var serial := SerialFrom(plan(hi - 1).0, zone.name);
      && retriesLeft + Charged(plan, lo, hi - 1) == maxRetries
      && (if serial.Some? then status == Success && actual == serial else status == NoZone && actual == Some(0))
    else
      && hi == lo + maxRetries && retriesLeft == 0
      && status == (if SeenMissing(plan, lo, hi) then NoZone else Failure)
      && actual == Latest(plan, lo, hi, zone.name)
  }

  /** What a reply says of the zone: that it is missing, or which serial it has. */
  method ReadReply(response: Option<Response>, name: string) returns (missing: bool, serial: Option<nat>)
    ensures missing == (response.Some? && ZoneMissing(response.value)) && serial == SerialOf(response, name)
  {
    missing, serial := false, None;
    if response.Some? && (response.value.rcode in {NxDomain, Refused, ServFail} || |response.value.answer| == 0) {
      missing := true;
    } else if response.Some? && |response.value.answer| == 1 && response.value.answer[0].name == name
              && response.value.answer[0].isIn && response.value.answer[0].isSoa {
      serial := Some(response.value.answer[0].serial);
    }
  }

  /** One round of sending, and what it adds to what is known. */
  method Round(wire: Wire, timeout: nat, interval: nat, retriesLeft: nat, zone: Target, ghost lo: nat,
               ghost status: Verdict, ghost actual: Option<nat>)
    returns (missing: bool, serial: Option<nat>, retry: nat, raised: bool)
    requires wire.Timely(timeout) && lo <= wire.sends && Polling(wire.plan, lo, wire.sends, zone, status, actual)
    modifies wire
    ensures retry <= retriesLeft && wire.sends == old(wire.sends) + retry
    ensures retry < retriesLeft ==> retry > 0 && !Retried(wire.plan(wire.sends - 1).0)
    ensures raised <==> retry > 0 && wire.plan(wire.sends - 1).0 == Fatal
    ensures missing <==> retry > 0 && MissingIn(wire.plan(wire.sends - 1).0)
    ensures serial == if retry > 0 then SerialFrom(wire.plan(wire.sends - 1).0, zone.name) else None
    ensures retry > 0 ==>
              var ending := missing && zone.serial == 0 && zone.action in {Delete, NoAction};
              Decisive(wire.plan(wire.sends - 1).0, zone) == (ending || (serial.Some? && serial.value >= zone.serial))
    ensures !(missing && serial.Some?)
    ensures forall n | lo <= n < wire.sends - 1 :: Undecided(wire.plan(n).0, zone)
    ensures retry > 0 ==> Charged(wire.plan, lo, wire.sends - 1) == Charged(wire.plan, lo, old(wire.sends))
    ensures retry == 0 || Undecided(wire.plan(wire.sends - 1).0, zone) ==>
              Polling(wire.plan, lo, wire.sends, zone, if missing then NoZone else status,
                      if serial.Some? then serial else actual)
    ensures wire.clock == old(wire.clock) + Elapsed(wire.plan, lo, wire.sends, interval)
                          - Elapsed(wire.plan, lo, old(wire.sends), interval)
                          - Unslept(wire.plan, old(wire.sends), wire.sends, interval) as real
  {
    ghost var mid := wire.sends;
    var response;
    response, retry, raised := MakeAndSend(wire, timeout, interval, retriesLeft);
    missing, serial := ReadReply(response, zone.name);
    ElapsedAdds(wire.plan, lo, mid, wire.sends, interval);
    if retry > 0 {
      RoundEnds(wire.plan, lo, mid, wire.sends, zone, status, actual);
    }
  }

  /** `get_serial_number`. Every attempt but a last one that is not retried is followed by one sleep, so it takes no
      longer than `max_prop_time`. */
  method GetSerialNumber(wire: Wire, zone: Target, timeout: nat, interval: nat, maxRetries: nat, delay: nat)
    returns (status: Verdict, actual: Option<nat>, retriesLeft: nat, raised: bool)
    requires wire.Timely(timeout)
    modifies wire
    ensures old(wire.sends) <= wire.sends <= old(wire.sends) + maxRetries
    ensures forall n | old(wire.sends) <= n < wire.sends - 1 :: Undecided(wire.plan(n).0, zone)
    ensures raised <==> wire.sends > old(wire.sends) && wire.plan(wire.sends - 1).0 == Fatal
    ensures !raised ==> Outcome(wire.plan, old(wire.sends), wire.sends, zone, maxRetries, status, actual, retriesLeft)
    ensures wire.clock == old(wire.clock) + delay as real + Elapsed(wire.plan, old(wire.sends), wire.sends, interval)
                          - Unslept(wire.plan, old(wire.sends), wire.sends, interval) as real
    ensures wire.clock <= old(wire.clock) + MaxPropTime(timeout, maxRetries, interval, delay) as real
  {
    actual, status, retriesLeft, raised := None, Failure, maxRetries, false;
    wire.Sleep(delay);
    ghost var lo, begin := wire.sends, wire.clock;
    while true
      invariant lo <= wire.sends && wire.sends - lo + retriesLeft == maxRetries && !raised
      invariant Charged(wire.plan, lo, wire.sends) == wire.sends - lo
      invariant wire.sends == lo || retriesLeft > 0
      invariant Polling(wire.plan, lo, wire.sends, zone, status, actual)
      invariant wire.clock == begin + Elapsed(wire.plan, lo, wire.sends, interval)
      decreases retriesLeft
    {
      var missing, serial, retry;
      missing, serial, retry, raised := Round(wire, timeout, interval, retriesLeft, zone, lo, status, actual);
      if raised {
        break;
      }
      if missing {
        status := NoZone;
        if zone.serial == 0 && zone.action in {Delete, NoAction} {
          actual := Some(0);
          break;
        }
      } else if serial.Some? {
        actual := serial;
      }
      if actual.Some? && actual.value >= zone.serial {
        status := Success;
        break;
      }
      retriesLeft := retriesLeft - retry;
      if retriesLeft == 0 {
        break;
      }
      wire.Sleep(interval);
    }
    ElapsedFits(wire.plan, lo, wire.sends, timeout, interval, maxRetries, delay);
  }
}
