/** View priorities: the stored numbers form an ordered list of views, newest first. */
module Views {

  type Id = string

  datatype Info = Info(name: string, priority: int)

  type Table = map<Id, Info>

  /** The table spells out `order`: the view at index i has priority i + 1. */
  ghost predicate Spells(t: Table, order: seq<Id>) {
    && (forall i, j | 0 <= i < j < |order| :: order[i] != order[j])
    && t.Keys == (set id | id in order)
    && (forall i | 0 <= i < |order| :: t[order[i]].priority == i + 1)
  }

  /** The priorities are 1..n, each used once. */
  ghost predicate Ranked(t: Table) {
    && (forall id | id in t :: 1 <= t[id].priority <= |t|)
    && (forall a, b | a in t && b in t && t[a].priority == t[b].priority :: a == b)
  }

  ghost predicate NamesUnique(t: Table) {
    forall a, b | a in t && b in t && t[a].name == t[b].name :: a == b
  }

  /** What the loop of `create_view` leaves behind once the new row is in the table. */
  function Raised(t: Table, name: string): Table {
    map id | id in t :: if t[id].name == name then t[id] else Info(t[id].name, t[id].priority + 1)
  }

  function Lowered(t: Table, priority: int): Table {
    map id | id in t :: if t[id].priority > priority then Info(t[id].name, t[id].priority - 1) else t[id]
  }

  class ViewStore {
    var infos: Table

    constructor ()
      ensures infos == map[] && Spells(infos, [])
    {
      infos := map[];
    }

    /** `create_view`: the row arrives from the backend with its own priority, then every row of another
        name moves down by one. */
    method Create(id: Id, info: Info)
      requires id !in infos
      modifies this
      ensures infos == Raised(old(infos)[id := info], info.name)
    {
      infos := infos[id := info];
      ghost var start := infos;
      var todo := infos.Keys;
      while todo != {}
        invariant todo <= infos.Keys == start.Keys
        invariant forall k | k in todo :: infos[k] == start[k]
        invariant forall k | k in start && k !in todo :: infos[k] == Raised(start, info.name)[k]
        decreases |todo|
      {
        var k :| k in todo;
        todo := todo - {k};
        if infos[k].name != info.name {
          infos := infos[k := infos[k].(priority := infos[k].priority + 1)];
        }
      }
    }

    /** `_delete_zdns_view_info`: the row goes, then every row below it moves up by one. */
    method Delete(id: Id)
      requires id in infos
      modifies this
      ensures infos == Lowered(old(infos) - {id}, old(infos)[id].priority)
    {
      var gone := infos[id];
      infos := infos - {id};
      ghost var start := infos;
      var todo := infos.Keys;
      while todo != {}
        invariant todo <= infos.Keys == start.Keys
        invariant forall k | k in todo :: infos[k] == start[k]
        invariant forall k | k in start && k !in todo :: infos[k] == Lowered(start, gone.priority)[k]
        decreases |todo|
      {
        var k :| k in todo;
        todo := todo - {k};
        if infos[k].priority > gone.priority {
          infos := infos[k := infos[k].(priority := infos[k].priority - 1)];
        }
      }
    }
  }

  // ---------- the list behind the numbers ----------

  function Without(order: seq<Id>, id: Id): seq<Id> {
    if order == [] then []
    else if order[0] == id then order[1..]
    else [order[0]] + Without(order[1..], id)
  }

  /** Creating a view puts it at the head of the list. */
  lemma CreateIsCons(t: Table, order: seq<Id>, id: Id, info: Info)
    requires Spells(t, order) && id !in t
    requires info.priority == 1 && forall k | k in t :: t[k].name != info.name
    ensures Spells(Raised(t[id := info], info.name), [id] + order)
  {
    var after := [id] + order;
    var t' := Raised(t[id := info], info.name);
    forall i | 0 <= i < |after|
      ensures after[i] in t' && t'[after[i]].priority == i + 1
    {
      if i > 0 {
        assert after[i] == order[i - 1] && order[i - 1] in order;
      }
    }
    forall i, j | 0 <= i < j < |after|
      ensures after[i] != after[j]
    {
      assert after[j] == order[j - 1] && order[j - 1] in order;
    }
    assert forall k | k in t :: k in order && k in after;
  }

  lemma {:induction false} WithoutSkips(order: seq<Id>, p: nat)
    requires p < |order| && forall i, j | 0 <= i < j < |order| :: order[i] != order[j]
    ensures Without(order, order[p]) == order[..p] + order[p + 1..]
  {
    if p > 0 {
      WithoutSkips(order[1..], p - 1);
      assert order[1..][p - 1] == order[p];
      assert order == [order[0]] + order[1..];
    }
  }

  /** Deleting a view removes it from the list; the others keep their order. */
  lemma DeleteIsRemove(t: Table, order: seq<Id>, id: Id)
    requires Spells(t, order) && id in t
    ensures Spells(Lowered(t - {id}, t[id].priority), Without(order, id))
  {
    assert id in order;
    var p :| 0 <= p < |order| && order[p] == id;
    WithoutSkips(order, p);
    DropSpells(t, order, p);
  }

  lemma DropMovesUp(t: Table, order: seq<Id>, p: nat, i: nat)
    requires Spells(t, order) && p < |order| && i < |order| && i != p
    ensures order[i] in t && order[i] != order[p]
    ensures Lowered(t - {order[p]}, p + 1)[order[i]].priority == if i < p then i + 1 else i
  {
    assert order[i] in order;
  }

  lemma DropSpells(t: Table, order: seq<Id>, p: nat)
    requires Spells(t, order) && p < |order|
    ensures Spells(Lowered(t - {order[p]}, p + 1), order[..p] + order[p + 1..])
  {
    var after, t' := order[..p] + order[p + 1..], Lowered(t - {order[p]}, p + 1);
    forall i | 0 <= i < |after|
      ensures after[i] == order[if i < p then i else i + 1]
      ensures after[i] in t' && t'[after[i]].priority == i + 1
    {
      DropMovesUp(t, order, p, if i < p then i else i + 1);
    }
    forall k | k in t'
      ensures k in after
    {
      assert k in order;
    }
  }

  lemma {:induction false} SpellsCount(t: Table, order: seq<Id>)
    requires Spells(t, order)
    ensures |t| == |order|
  {
    DistinctCount(order);
    assert |t.Keys| == |t|;
  }

  lemma {:induction false} DistinctCount(s: seq<Id>)
    requires forall i, j | 0 <= i < j < |s| :: s[i] != s[j]
    ensures |set x | x in s| == |s|
  {
    if s != [] {
      DistinctCount(s[1..]);
      assert (set x | x in s) == {s[0]} + set x | x in s[1..];
    }
  }

  lemma SpellsRanked(t: Table, order: seq<Id>)
    requires Spells(t, order)
    ensures Ranked(t)
  {
    SpellsCount(t, order);
    forall id | id in t
      ensures 1 <= t[id].priority <= |t| && order[t[id].priority - 1] == id
    {
      assert id in order;
    }
  }

  // ---------- runs ----------

  datatype Op = CreateView(id: Id, info: Info) | DeleteView(id: Id)

  predicate Enabled(t: Table, op: Op) {
    match op
    case CreateView(id, info) => id !in t && info.priority == 1 && forall k | k in t :: t[k].name != info.name
    case DeleteView(id) => id in t
  }

  function Apply(t: Table, op: Op): Table
    requires Enabled(t, op)
  {
    match op
    case CreateView(id, info) => Raised(t[id := info], info.name)
    case DeleteView(id) => Lowered(t - {id}, t[id].priority)
  }

  function Reorder(order: seq<Id>, op: Op): seq<Id> {
    match op
    case CreateView(id, _) => [id] + order
    case DeleteView(id) => Without(order, id)
  }

  /** A run of the two operations, each allowed where it happens. */
  predicate Runs(t: Table, ops: seq<Op>)
    decreases |ops|
  {
    |ops| == 0 || (Enabled(t, ops[0]) && Runs(Apply(t, ops[0]), ops[1..]))
  }

  function Final(t: Table, ops: seq<Op>): Table
    requires Runs(t, ops)
    decreases |ops|
  {
    if |ops| == 0 then t else Final(Apply(t, ops[0]), ops[1..])
  }

  function FinalOrder(order: seq<Id>, ops: seq<Op>): seq<Id>
    decreases |ops|
  {
    if |ops| == 0 then order else FinalOrder(Reorder(order, ops[0]), ops[1..])
  }

  lemma {:induction false} RunSpells(t: Table, order: seq<Id>, ops: seq<Op>)
    requires Spells(t, order) && Runs(t, ops)
    ensures Spells(Final(t, ops), FinalOrder(order, ops))
    decreases |ops|
  {
    if |ops| > 0 {
      match ops[0] {
        case CreateView(id, info) => CreateIsCons(t, order, id, info);
        case DeleteView(id) => DeleteIsRemove(t, order, id);
      }
      RunSpells(Apply(t, ops[0]), Reorder(order, ops[0]), ops[1..]);
    }
  }

  /** Over every run from an empty table the priorities are 1..n without repeats, and reading the views by
      priority gives the ordered list with each new view put at its head. */
  lemma PrioritiesSpellTheList(ops: seq<Op>)
    requires Runs(map[], ops)
    ensures Spells(Final(map[], ops), FinalOrder([], ops)) && Ranked(Final(map[], ops))
  {
    RunSpells(map[], [], ops);
    SpellsRanked(Final(map[], ops), FinalOrder([], ops));
  }

  /** A new row of a new name keeps the table ranked exactly when it arrives with priority 1. */
  lemma FreshNameNeedsPriorityOne(t: Table, order: seq<Id>, id: Id, info: Info)
    requires Spells(t, order) && id !in t
    requires forall k | k in t :: t[k].name != info.name
    ensures Ranked(Raised(t[id := info], info.name)) <==> info.priority == 1
  {
    var t', q := Raised(t[id := info], info.name), info.priority;
    SpellsCount(t, order);
    if q == 1 {
      CreateIsCons(t, order, id, info);
      SpellsRanked(t', [id] + order);
    } else {
      assert t'.Keys == t.Keys + {id};
      assert t'[id].priority == q;
      if 2 <= q <= |order| + 1 {
        var other := order[q - 2];
        assert other in order && t'[other].priority == q;
      }
    }
  }

  /** A new row that repeats a name leaves the old row of that name where it was. The table then stays
      ranked only if that row was the newest and the new one comes in behind it. */
  lemma TakenNameNeedsPriorityTwo(t: Table, order: seq<Id>, id: Id, info: Info, k: Id)
    requires Spells(t, order) && NamesUnique(t) && id !in t
    requires k in t && t[k].name == info.name
    ensures Ranked(Raised(t[id := info], info.name)) <==> info.priority == 2 && t[k].priority == 1
  {
    var t', p, q := Raised(t[id := info], info.name), t[k].priority, info.priority;
    SpellsCount(t, order);
    assert k in order;
    assert t'.Keys == t.Keys + {id};
    assert t'[id].priority == q && t'[k].priority == p;
    if p > 1 {
      var above := order[p - 2];
      assert above in order && t'[above].priority == p;
    } else if q == 2 {
      SecondSpells(t, order, id, info);
      SpellsRanked(t', [order[0], id] + order[1..]);
    } else if 3 <= q <= |order| + 1 {
      var other := order[q - 2];
      assert other in order && t'[other].priority == q;
    }
  }

  lemma SecondSpells(t: Table, order: seq<Id>, id: Id, info: Info)
    requires Spells(t, order) && NamesUnique(t) && id !in t
    requires |order| > 0 && info.priority == 2 && t[order[0]].name == info.name
    ensures Spells(Raised(t[id := info], info.name), [order[0], id] + order[1..])
  {
    var after, t' := [order[0], id] + order[1..], Raised(t[id := info], info.name);
    assert order[0] in order;
    forall i | 0 <= i < |after|
      ensures after[i] in t' && t'[after[i]].priority == i + 1
      ensures i >= 2 ==> after[i] == order[i - 1] && order[i - 1] in order
    {
      if i >= 2 {
        assert order[i - 1] in order;
      }
    }
    forall j | j in t'
      ensures j in after
    {
      if j != id {
        assert j in order;
        var i :| 0 <= i < |order| && order[i] == j;
        assert after[if i == 0 then 0 else i + 1] == j;
      }
    }
    assert t'.Keys == set j | j in after;
  }
}
