/** Sharing out a list of shards between the members of a group, and the shard range each one sweeps. */
module Partition {
  import opened Wrappers

  datatype Error = ZeroDivision | NotAMember | EmptyRange

  /** `int(math.ceil(float(a) / float(b)))` */
  function CeilDiv(a: nat, b: nat): (r: nat)
    requires b > 0
    ensures r * b >= a && (r > 0 ==> (r - 1) * b < a)
  {
    (a + b - 1) / b
  }

  /** `s[lo:hi]`, which stops at the end of the list. */
  function Slice<T>(s: seq<T>, lo: nat, hi: nat): seq<T>
    requires lo <= hi
  {
    s[if lo < |s| then lo else |s|..if hi < |s| then hi else |s|]
  }

  /** `members.index(me)` */
  function IndexOf(members: seq<string>, me: string): (r: Option<nat>)
    ensures r.None? <==> me !in members
    ensures r.Some? ==> r.value < |members| && members[r.value] == me && me !in members[..r.value]
  {
    if members == [] then None
    else if members[0] == me then Some(0)
    else
      var r := IndexOf(members[1..], me);
      if r.None? then None
      else
        assert members[..r.value + 1] == [members[0]] + members[1..][..r.value];
        Some(r.value + 1)
  }

  /** The slice of the member at `index`. */
  function Share(count: nat, index: nat, partitions: seq<int>): seq<int>
    requires count > 0
  {
    var size := CeilDiv(|partitions|, count);
    Slice(partitions, size * index, size * index + size)
  }

  /** `_partition` */
  method PartitionFor(members: seq<string>, me: string, partitions: seq<int>) returns (r: Result<seq<int>, Error>)
    ensures members == [] <==> r == Err(ZeroDivision)
    ensures members != [] && me !in members <==> r == Err(NotAMember)
    ensures me in members ==> r.Ok? && r.value == Share(|members|, IndexOf(members, me).value, partitions)
  {
    var memberCount, partitionCount := |members|, |partitions|;
    if memberCount == 0 {
      return Err(ZeroDivision);
    }
    var partitionSize := CeilDiv(partitionCount, memberCount);
    var index := IndexOf(members, me);
    if index.None? {
      return Err(NotAMember);
    }
    var start := partitionSize * index.value;
    var end := start + partitionSize;
    return Ok(Slice(partitions, start, end));
  }

  // ---------- exactness ----------

  /** The shares of the first `k` members, one after the other. */
  function Shares(count: nat, k: nat, partitions: seq<int>): seq<int>
    requires count > 0
  {
    if k == 0 then [] else Shares(count, k - 1, partitions) + Share(count, k - 1, partitions)
  }

  /** `s[:n]` */
  function Prefix<T>(s: seq<T>, n: nat): seq<T> {
    if n < |s| then s[..n] else s
  }

  lemma SliceExtends<T>(s: seq<T>, lo: nat, hi: nat)
    requires lo <= hi
    ensures Prefix(s, lo) + Slice(s, lo, hi) == Prefix(s, hi)
  {
  }

  lemma OneMore(size: nat, k: nat)
    requires k > 0
    ensures size * k == size * (k - 1) + size && size * (k - 1) >= 0
  {
  }

  lemma {:induction false} SharesArePrefix(count: nat, k: nat, partitions: seq<int>)
    requires count > 0
    ensures Shares(count, k, partitions) == Prefix(partitions, CeilDiv(|partitions|, count) * k)
  {
    if k > 0 {
      SharesArePrefix(count, k - 1, partitions);
      var size := CeilDiv(|partitions|, count);
      var before := size * (k - 1);
      OneMore(size, k);
      SliceExtends(partitions, before, before + size);
    }
  }

  lemma ShareIsSmall(count: nat, index: nat, partitions: seq<int>)
    requires count > 0
    ensures |Share(count, index, partitions)| <= CeilDiv(|partitions|, count)
  {
  }

  /** Together the members get the whole list, in order, each at most its fair share rounded up. */
  lemma SharesCoverAll(count: nat, partitions: seq<int>)
    requires count > 0
    ensures Shares(count, count, partitions) == partitions
    ensures forall i: nat :: |Share(count, i, partitions)| <= CeilDiv(|partitions|, count)
  {
    SharesArePrefix(count, count, partitions);
    forall i: nat
      ensures |Share(count, i, partitions)| <= CeilDiv(|partitions|, count)
    {
      ShareIsSmall(count, i, partitions);
    }
  }

  /** Whether position `j` of the list is in the share at `index`. */
  predicate Holds(count: nat, index: nat, partitions: seq<int>, j: nat)
    requires count > 0
  {
    var size := CeilDiv(|partitions|, count);
    size * index <= j < size * index + size
  }

  lemma {:induction false} MultiplesGrow(size: nat, a: nat, b: nat)
    requires a <= b
    ensures size * a <= size * b
  {
    if a < b {
      MultiplesGrow(size, a, b - 1);
      assert size * b == size * (b - 1) + size;
    }
  }

  lemma SharesApart(count: nat, a: nat, b: nat, partitions: seq<int>, j: nat)
    requires count > 0 && a < b && Holds(count, a, partitions, j)
    ensures !Holds(count, b, partitions, j)
  {
    var size := CeilDiv(|partitions|, count);
    MultiplesGrow(size, a + 1, b);
    assert size * (a + 1) == size * a + size;
  }

  lemma HeldByOne(count: nat, partitions: seq<int>, j: nat) returns (owner: nat)
    requires count > 0 && j < |partitions|
    ensures owner < count && Holds(count, owner, partitions, j)
    ensures forall i: nat | Holds(count, i, partitions, j) :: i == owner
  {
    var size := CeilDiv(|partitions|, count);
    assert size > 0;
    owner := j / size;
    assert size * owner <= j < size * owner + size;
    if owner >= count {
      MultiplesGrow(size, count, owner);
      assert false;
    }
    forall i: nat | Holds(count, i, partitions, j)
      ensures i == owner
    {
      if i < owner {
        SharesApart(count, i, owner, partitions, j);
      } else if owner < i {
        SharesApart(count, owner, i, partitions, j);
      }
    }
  }

  // ---------- shard ranges ----------

  /** `_my_range`: first and last partition; an empty share has neither. */
  function MyRange(mine: seq<int>): Result<(int, int), Error> {
    if mine == [] then Err(EmptyRange) else Ok((mine[0], mine[|mine| - 1]))
  }

  /** `BETWEEN lo,hi` */
  predicate InRange(range: Result<(int, int), Error>, shard: int) {
    range.Ok? && range.value.0 <= shard <= range.value.1
  }

  predicate Increasing(partitions: seq<int>) {
    forall i, j | 0 <= i < j < |partitions| :: partitions[i] < partitions[j]
  }

  lemma RangeIsShare(count: nat, index: nat, partitions: seq<int>, j: nat)
    requires count > 0 && Increasing(partitions) && j < |partitions|
    ensures InRange(MyRange(Share(count, index, partitions)), partitions[j]) <==> Holds(count, index, partitions, j)
  {
    var size := CeilDiv(|partitions|, count);
    var lo, hi := size * index, size * index + size;
    var mine := Share(count, index, partitions);
    if mine != [] {
      var last := if hi < |partitions| then hi - 1 else |partitions| - 1;
      assert mine[0] == partitions[lo] && mine[|mine| - 1] == partitions[last];
      if j < lo {
        assert partitions[j] < partitions[lo];
      } else if j > last {
        assert partitions[last] < partitions[j];
      } else {
        assert partitions[lo] <= partitions[j] <= partitions[last];
      }
    }
  }

  /** Every listed shard falls in the BETWEEN filter of exactly one member. */
  lemma ShardSweptByOne(count: nat, partitions: seq<int>, shard: int) returns (owner: nat)
    requires count > 0 && Increasing(partitions) && shard in partitions
    ensures owner < count && InRange(MyRange(Share(count, owner, partitions)), shard)
    ensures forall i: nat | InRange(MyRange(Share(count, i, partitions)), shard) :: i == owner
  {
    var j :| 0 <= j < |partitions| && partitions[j] == shard;
    owner := HeldByOne(count, partitions, j);
    RangeIsShare(count, owner, partitions, j);
    forall i: nat | InRange(MyRange(Share(count, i, partitions)), shard)
      ensures i == owner
    {
      RangeIsShare(count, i, partitions, j);
    }
  }

  // ---------- keeping tasks informed ----------

  /** A periodic task; `None` until it first hears of its partitions. */
  class PeriodicTask {
    var myPartitions: Option<seq<int>>

    constructor ()
      ensures myPartitions == None
    {
      myPartitions := None;
    }

    method OnPartitionChange(mine: seq<int>)
      modifies this
      ensures myPartitions == Some(mine)
    {
      myPartitions := Some(mine);
    }
  }

  /** `coordinated` says whether there is a coordination backend. */
  class Partitioner {
    const coordinated: bool
    const myId: string
    const partitions: seq<int>
    var started: bool
    var myPartitions: Option<seq<int>>
    var callbacks: seq<PeriodicTask>

    constructor (coordinated: bool, myId: string, partitions: seq<int>)
      ensures this.coordinated == coordinated && this.myId == myId && this.partitions == partitions
      ensures !started && myPartitions == None && callbacks == []
    {
      this.coordinated, this.myId, this.partitions := coordinated, myId, partitions;
      started, myPartitions, callbacks := false, None, [];
    }

    /** Every subscribed task works on the partitions held here. */
    ghost predicate InSync()
      reads this, callbacks
    {
      forall t | t in callbacks :: t.myPartitions == myPartitions
    }

    method RunCallbacks()
      requires myPartitions.Some?
      modifies callbacks
      ensures InSync()
    {
      for i := 0 to |callbacks|
        invariant forall j | 0 <= j < i :: callbacks[j].myPartitions == myPartitions
      {
        callbacks[i].OnPartitionChange(myPartitions.value);
      }
    }

    /** `start`, with the group's sorted members. With a backend it takes the share but tells nobody. */
    method Start(members: seq<string>) returns (ok: bool)
      modifies this, callbacks
      ensures ok == (!coordinated || myId in members) && callbacks == old(callbacks)
      ensures ok ==> started
      ensures !ok ==> started == old(started) && myPartitions == old(myPartitions)
      ensures ok && coordinated ==> myPartitions == Some(Share(|members|, IndexOf(members, myId).value, partitions))
      ensures !coordinated ==> myPartitions == Some(partitions)
      ensures !coordinated ==> InSync()
      ensures ok && coordinated ==> (InSync() <==> forall t | t in callbacks :: old(t.myPartitions) == myPartitions)
      ensures coordinated ==> forall t | t in callbacks :: t.myPartitions == old(t.myPartitions)
    {
      if coordinated {
        var r := PartitionFor(members, myId, partitions);
        if r.Err? {
          return false;
        }
        myPartitions := Some(r.value);
      } else {
        myPartitions := Some(partitions);
        RunCallbacks();
      }
      started := true;
      ok := true;
    }

    /** `_on_group_change` */
    method OnGroupChange(members: seq<string>) returns (ok: bool)
      modifies this, callbacks
      ensures ok == (myId in members) && callbacks == old(callbacks) && started == old(started)
      ensures ok ==> InSync() && myPartitions == Some(Share(|members|, IndexOf(members, myId).value, partitions))
      ensures !ok ==> myPartitions == old(myPartitions)
      ensures !ok ==> forall t | t in callbacks :: t.myPartitions == old(t.myPartitions)
    {
      var r := PartitionFor(members, myId, partitions);
      if r.Err? {
        return false;
      }
      myPartitions := Some(r.value);
      RunCallbacks();
      ok := true;
    }

    /** `watch_partition_change`: a task that subscribes after the start is told at once. */
    method WatchPartitionChange(task: PeriodicTask)
      requires started ==> myPartitions.Some?
      modifies this`callbacks, task
      ensures callbacks == old(callbacks) + [task] && started == old(started) && myPartitions == old(myPartitions)
      ensures started && old(InSync()) ==> InSync()
      ensures task.myPartitions == if started then myPartitions else old(task.myPartitions)
    {
      callbacks := callbacks + [task];
      if started {
        task.OnPartitionChange(myPartitions.value);
      }
    }
  }
}
