/** Change tracking of the object layer: which fields changed since the last reset, and what they were. */
module ChangeTracking {
  import opened Wrappers

  datatype State<V> = State(fields: map<string, V>, changes: set<string>, originals: map<string, V>)

  /** The property setter. */
  function SetField<V(==)>(s: State<V>, name: string, value: V): State<V> {
    var differs := name in s.fields && value != s.fields[name];
    State(s.fields[name := value],
          if differs || name !in s.fields then s.changes + {name} else s.changes,
          if differs && name !in s.originals then s.originals[name := s.fields[name]] else s.originals)
  }

  function Names(names: seq<string>): set<string> { set n | n in names }

  /** `obj_reset_changes(names)`; an empty list counts as no list, which resets everything. */
  function ResetFields<V>(s: State<V>, names: seq<string>): State<V> {
    if names == [] then State(s.fields, {}, map[])
    else State(s.fields, s.changes - Names(names), s.originals - Names(names))
  }

  /** `obj_get_changes` */
  function Changes<V>(s: State<V>): map<string, V> {
    map k | k in s.changes && k in s.fields :: s.fields[k]
  }

  /** `obj_get_original_value`; `None` stands for `KeyError`. */
  function Original<V>(s: State<V>, name: string): Option<V> {
    if name in s.originals then Some(s.originals[name])
    else if name in s.fields then Some(s.fields[name])
    else None
  }

  class DesignateObject<V(==)> {
    const declared: set<string>
    var fields: map<string, V>
    var changes: set<string>
    var originals: map<string, V>

    ghost predicate Valid()
      reads this
    {
      changes <= fields.Keys <= declared
    }

    ghost function Value(): State<V>
      reads this
    {
      State(fields, changes, originals)
    }

    constructor (declared: set<string>)
      ensures Valid() && this.declared == declared && Value() == State(map[], {}, map[])
    {
      this.declared := declared;
      fields, changes, originals := map[], {}, map[];
    }

    /** Assignment to a field; `false` stands for the `AttributeError` of an undeclared name. */
    method Set(name: string, value: V) returns (ok: bool)
      requires Valid()
      modifies this
      ensures Valid() && ok == (name in declared)
      ensures Value() == if ok then SetField(old(Value()), name, value) else old(Value())
    {
      if name !in declared {
        return false;
      }
      if (name in fields && value != fields[name]) || name !in fields {
        changes := changes + {name};
      }
      if name in fields && value != fields[name] && name !in originals {
        originals := originals[name := fields[name]];
      }
      fields := fields[name := value];
      ok := true;
    }

    method Reset(names: seq<string>)
      requires Valid()
      modifies this
      ensures Valid() && Value() == ResetFields(old(Value()), names)
    {
      if names != [] {
        changes := changes - set n | n in names;
        ghost var kept := changes;
        for i := 0 to |names|
          invariant fields == old(fields) && changes == kept
          invariant originals == old(originals) - Names(names[..i])
        {
          originals := originals - {names[i]};
          assert names[..i + 1] == names[..i] + [names[i]];
        }
        assert names[..|names|] == names;
      } else {
        changes, originals := {}, map[];
      }
    }

    method GetChanges() returns (r: map<string, V>)
      requires Valid()
      ensures r == Changes(Value())
    {
      r := map[];
      var todo := changes;
      while todo != {}
        invariant todo <= changes
        invariant r == map k | k in changes - todo :: fields[k]
        decreases |todo|
      {
        var k :| k in todo;
        r := r[k := fields[k]];
        todo := todo - {k};
      }
    }

    method GetOriginalValue(name: string) returns (r: Option<V>)
      ensures r == Original(Value(), name)
    {
      if name in originals {
        return Some(originals[name]);
      } else if name in fields {
        return Some(fields[name]);
      } else {
        return None;
      }
    }
  }

  // ---------- runs ----------

  datatype Op<V> = Assign(name: string, value: V) | Reset(names: seq<string>)

  function Apply<V(==)>(s: State<V>, op: Op<V>): State<V> {
    match op
    case Assign(n, v) => SetField(s, n, v)
    case Reset(ns) => ResetFields(s, ns)
  }

  function Run<V(==)>(s: State<V>, ops: seq<Op<V>>): State<V>
    decreases |ops|
  {
    if |ops| == 0 then s else Run(Apply(s, ops[0]), ops[1..])
  }

  /** The reference: what each field was when it was last covered by a reset. */
  function Rebase<V(==)>(snapshot: map<string, V>, s: State<V>, op: Op<V>): map<string, V> {
    match op
    case Assign(_, _) => snapshot
    case Reset(ns) =>
      if ns == [] then s.fields
      else (snapshot - Names(ns)) + (map k | k in Names(ns) && k in s.fields :: s.fields[k])
  }

  function Snapshot<V(==)>(snapshot: map<string, V>, s: State<V>, ops: seq<Op<V>>): map<string, V>
    decreases |ops|
  {
    if |ops| == 0 then snapshot else Snapshot(Rebase(snapshot, s, ops[0]), Apply(s, ops[0]), ops[1..])
  }

  ghost predicate Tracks<V>(s: State<V>, snapshot: map<string, V>) {
    && snapshot.Keys <= s.fields.Keys
    && (forall k | k in s.fields && k !in s.changes :: k in snapshot && snapshot[k] == s.fields[k])
    && (forall k | k in snapshot :: Original(s, k) == Some(snapshot[k]))
  }

  lemma StepTracks<V>(s: State<V>, snapshot: map<string, V>, op: Op<V>)
    requires Tracks(s, snapshot)
    ensures Tracks(Apply(s, op), Rebase(snapshot, s, op))
  {
  }

  lemma {:induction false} RunTracks<V>(s: State<V>, snapshot: map<string, V>, ops: seq<Op<V>>)
    requires Tracks(s, snapshot)
    ensures Tracks(Run(s, ops), Snapshot(snapshot, s, ops))
    decreases |ops|
  {
    if |ops| > 0 {
      StepTracks(s, snapshot, ops[0]);
      RunTracks(Apply(s, ops[0]), Rebase(snapshot, s, ops[0]), ops[1..]);
    }
  }

  /** From a full reset on, through any assignments and any full or partial resets: a field outside the
      change set is as it was when last reset, the changes laid over those values give the object, and
      the original value of a field that was set then is the value it had. */
  lemma TrackingIsExact<V>(start: State<V>, ops: seq<Op<V>>)
    ensures var reset := ResetFields(start, []);
            var now, then_ := Run(reset, ops), Snapshot(reset.fields, reset, ops);
            && (forall k | k in now.fields && (k !in then_ || then_[k] != now.fields[k]) :: k in now.changes)
            && then_ + Changes(now) == now.fields
            && (forall k | k in then_ :: Original(now, k) == Some(then_[k]))
  {
    var reset := ResetFields(start, []);
    RunTracks(reset, reset.fields, ops);
  }

  lemma {:induction false} AssignmentsKeepSnapshot<V>(snapshot: map<string, V>, s: State<V>, ops: seq<Op<V>>)
    requires forall op | op in ops :: op.Assign?
    ensures Snapshot(snapshot, s, ops) == snapshot
    decreases |ops|
  {
    if |ops| > 0 {
      AssignmentsKeepSnapshot(snapshot, Apply(s, ops[0]), ops[1..]);
    }
  }

  /** With assignments only, the reference is the object as it was at the reset. */
  lemma SinceReset<V>(start: State<V>, sets: seq<Op<V>>)
    requires forall op | op in sets :: op.Assign?
    ensures var now := Run(ResetFields(start, []), sets);
            && start.fields + Changes(now) == now.fields
            && (forall k | k in start.fields :: Original(now, k) == Some(start.fields[k]))
  {
    TrackingIsExact(start, sets);
    AssignmentsKeepSnapshot(start.fields, ResetFields(start, []), sets);
  }

  /** After a full reset nothing is marked; an assignment marks its field exactly when it changes the value or sets it
      for the first time, and leaves every other mark alone. */
  lemma MarksAreChanges<V>(start: State<V>, name: string, value: V)
    ensures ResetFields(start, []).changes == {} && ResetFields(start, []).originals == map[]
    ensures var after := SetField(start, name, value);
            && after.changes - {name} == start.changes - {name}
            && (name in after.changes <==>
                  name in start.changes || name !in start.fields || start.fields[name] != value)
            && after.fields == start.fields[name := value]
  {
  }

  /** With assignments only since a full reset, the marked fields are exactly those assigned a value that differed
      from the one they had, or that had none, and a field keeps its mark when it goes back to what it was. */
  lemma {:induction false} MarkedSinceReset<V>(start: State<V>, sets: seq<Op<V>>, name: string)
    requires forall op | op in sets :: op.Assign?
    ensures name in Run(start, sets).changes <==> name in start.changes || Altered(start, sets, name)
    decreases |sets|
  {
    if |sets| > 0 {
      MarkedSinceReset(Apply(start, sets[0]), sets[1..], name);
    }
  }

  /** Some assignment to the field met another value, or none. */
  predicate Altered<V(==)>(s: State<V>, sets: seq<Op<V>>, name: string)
    requires forall op | op in sets :: op.Assign?
    decreases |sets|
  {
    |sets| > 0
    && ((sets[0].name == name && (name !in s.fields || s.fields[name] != sets[0].value))
        || Altered(Apply(s, sets[0]), sets[1..], name))
  }
}
