/** Buffering of notifications across nested calls of decorated operations. */
module Notifications {

  /** A notification: its context and type are part of the payload here. */
  type Payload = string

  /** One decorated call as it ran: the decorated calls made by its body, in order, and how it ended.
      `payloads` is what the plugin hands out for a call that returned. */
  datatype Call = Call(nested: seq<Call>, returned: bool, payloads: seq<Payload>)

  function Reverse<T>(s: seq<T>): (r: seq<T>)
    ensures |r| == |s| && forall i | 0 <= i < |s| :: r[i] == s[|s| - 1 - i]
  {
    if s == [] then [] else Reverse(s[1..]) + [s[0]]
  }

  /** The payloads of the calls that returned, in the order in which those calls ended. */
  function Ended(c: Call): seq<Payload>
    decreases c, 1
  {
    EndedAll(c.nested) + if c.returned then c.payloads else []
  }

  function EndedAll(cs: seq<Call>): seq<Payload>
    decreases cs, 0
  {
    if cs == [] then [] else Ended(cs[0]) + EndedAll(cs[1..])
  }

  lemma {:induction false} EndedAllSnoc(cs: seq<Call>, c: Call)
    ensures EndedAll(cs + [c]) == EndedAll(cs) + Ended(c)
  {
    if cs == [] {
      assert EndedAll([c]) == Ended(c) + EndedAll([]);
    } else {
      EndedAllSnoc(cs[1..], c);
      assert (cs + [c])[1..] == cs[1..] + [c];
    }
  }

  /** The payload occurrences below a call, counted call by call. */
  function Emittable(c: Call): multiset<Payload>
    decreases c, 1
  {
    EmittableAll(c.nested) + if c.returned then multiset(c.payloads) else multiset{}
  }

  function EmittableAll(cs: seq<Call>): multiset<Payload>
    decreases cs, 0
  {
    if cs == [] then multiset{} else Emittable(cs[0]) + EmittableAll(cs[1..])
  }

  lemma {:induction false} EndedIsEmittable(c: Call)
    ensures multiset(Ended(c)) == Emittable(c)
    decreases c, 1
  {
    EndedAllIsEmittable(c.nested);
  }

  lemma {:induction false} EndedAllIsEmittable(cs: seq<Call>)
    ensures multiset(EndedAll(cs)) == EmittableAll(cs)
    decreases cs, 0
  {
    if cs != [] {
      EndedIsEmittable(cs[0]);
      EndedAllIsEmittable(cs[1..]);
    }
  }

  lemma ReverseAppend<T>(a: seq<T>, b: seq<T>)
    ensures Reverse(a + b) == Reverse(b) + Reverse(a)
  {
  }

  lemma ReverseKeepsMultiset<T>(s: seq<T>)
    ensures multiset(Reverse(s)) == multiset(s)
  {
    if s != [] {
      ReverseKeepsMultiset(s[1..]);
      assert s == [s[0]] + s[1..];
    }
  }

  /** A thread's buffer, and the notifier behind it. */
  class Buffer {
    var stack: int
    var queue: seq<Payload>
    var emitted: seq<Payload>

    constructor ()
      ensures stack == 0 && queue == [] && emitted == []
    {
      stack, queue, emitted := 0, [], [];
    }

    /** One call of a decorated operation. A nested call only adds to the front of the queue; the
        outermost one sends the whole queue and empties it, whether it returns or raises. */
    method Run(c: Call)
      requires stack >= 0
      modifies this
      ensures stack == old(stack)
      ensures old(stack) > 0 ==> queue == Reverse(Ended(c)) + old(queue) && emitted == old(emitted)
      ensures old(stack) == 0 ==> queue == [] && emitted == old(emitted) + (Reverse(Ended(c)) + old(queue))
      decreases c, 1
    {
      stack := stack + 1;
      // try:
      RunBody(c.nested);
      if c.returned {
        Enqueue(c.payloads);
      }
      QueuedIsEnded(c, old(queue));
      // finally:
      stack := stack - 1;
      if stack == 0 {
        Flush();
      }
    }

    /** The decorated calls made by an operation's body. */
    method RunBody(cs: seq<Call>)
      requires stack > 0
      modifies this
      ensures stack == old(stack) && emitted == old(emitted)
      ensures queue == Reverse(EndedAll(cs)) + old(queue)
      decreases cs, 0
    {
      for i := 0 to |cs|
        invariant stack == old(stack) && emitted == old(emitted)
        invariant queue == Reverse(EndedAll(cs[..i])) + old(queue)
      {
        Run(cs[i]);
        QueuedSnoc(cs, i, old(queue));
      }
      assert cs[..|cs|] == cs;
    }

    method Enqueue(payloads: seq<Payload>)
      modifies this
      ensures stack == old(stack) && emitted == old(emitted)
      ensures queue == Reverse(payloads) + old(queue)
    {
      for i := 0 to |payloads|
        invariant stack == old(stack) && emitted == old(emitted)
        invariant queue == Reverse(payloads[..i]) + old(queue)
      {
        queue := [payloads[i]] + queue;
        assert payloads[..i + 1] == payloads[..i] + [payloads[i]];
        ReverseAppend(payloads[..i], [payloads[i]]);
      }
      assert payloads[..|payloads|] == payloads;
    }

    method Flush()
      modifies this
      ensures stack == old(stack) && queue == [] && emitted == old(emitted) + old(queue)
    {
      for i := 0 to |queue|
        invariant queue == old(queue) && stack == old(stack)
        invariant emitted == old(emitted) + queue[..i]
      {
        emitted := emitted + [queue[i]];
      }
      queue := [];
    }
  }

  lemma QueuedSnoc(cs: seq<Call>, i: nat, below: seq<Payload>)
    requires i < |cs|
    ensures Reverse(Ended(cs[i])) + (Reverse(EndedAll(cs[..i])) + below) == Reverse(EndedAll(cs[..i + 1])) + below
  {
    assert cs[..i + 1] == cs[..i] + [cs[i]];
    EndedAllSnoc(cs[..i], cs[i]);
    ReverseAppend(EndedAll(cs[..i]), Ended(cs[i]));
  }

  lemma QueuedIsEnded(c: Call, below: seq<Payload>)
    ensures c.returned ==>
              Reverse(c.payloads) + (Reverse(EndedAll(c.nested)) + below) == Reverse(Ended(c)) + below
    ensures !c.returned ==> Ended(c) == EndedAll(c.nested)
  {
    if c.returned {
      ReverseAppend(EndedAll(c.nested), c.payloads);
    }
  }

  /** What one outermost call sends: latest queued first. */
  function SentBy(c: Call): seq<Payload> { Reverse(Ended(c)) }

  /** What a run of outermost calls on a new buffer sends. */
  function Sent(cs: seq<Call>): seq<Payload> {
    if cs == [] then [] else Sent(cs[..|cs| - 1]) + SentBy(cs[|cs| - 1])
  }

  lemma SentByIsEmittable(c: Call)
    ensures multiset(SentBy(c)) == Emittable(c)
  {
    EndedIsEmittable(c);
    ReverseKeepsMultiset(Ended(c));
  }

  lemma {:induction false} EmittableAllSnoc(cs: seq<Call>, c: Call)
    ensures EmittableAll(cs + [c]) == EmittableAll(cs) + Emittable(c)
  {
    if cs == [] {
      assert EmittableAll([c]) == Emittable(c) + EmittableAll([]);
    } else {
      EmittableAllSnoc(cs[1..], c);
      assert (cs + [c])[1..] == cs[1..] + [c];
    }
  }

  lemma SentSnoc(cs: seq<Call>, c: Call)
    ensures Sent(cs + [c]) == Sent(cs) + SentBy(c)
  {
    assert (cs + [c])[..|cs|] == cs;
  }

  /** Over any run, exactly the payloads of the calls that returned are sent, once each. */
  lemma {:induction false} SentIsEmittable(cs: seq<Call>)
    ensures multiset(Sent(cs)) == EmittableAll(cs)
  {
    if cs != [] {
      var before, last := cs[..|cs| - 1], cs[|cs| - 1];
      assert cs == before + [last];
      SentIsEmittable(before);
      SentByIsEmittable(last);
      SentSnoc(before, last);
      EmittableAllSnoc(before, last);
    }
  }

  /** A run of outermost calls: nothing is left over in between, and everything due has been sent. */
  method RunAll(cs: seq<Call>) returns (b: Buffer)
    ensures b.stack == 0 && b.queue == []
    ensures b.emitted == Sent(cs) && multiset(b.emitted) == EmittableAll(cs)
  {
    b := new Buffer();
    for i := 0 to |cs|
      invariant fresh(b) && b.stack == 0 && b.queue == []
      invariant b.emitted == Sent(cs[..i])
    {
      b.Run(cs[i]);
      assert cs[..i + 1][..i] == cs[..i];
    }
    assert cs[..|cs|] == cs;
    SentIsEmittable(cs);
  }
}
