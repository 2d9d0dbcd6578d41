/** Parent zones: which zone a new zone is filed under, and how creating and deleting zones keep the forest. */
module ZoneForest {
  import opened Wrappers
  import opened Text

  type Id = nat

  /** The zones of one pool, by id. */
  datatype Zone = Zone(name: string, tenant: string, parent: Option<Id>)

  type Zones = map<Id, Zone>

  datatype Error =
    | IllegalChildZone | IllegalParentZone | NoServersConfigured | NeedView | DuplicateZone | BackendFailed
    | ZoneNotFound | ZoneHasSubZone

  // ---------- names ----------

  /** `outer` is what is left of `inner` after one or more of its leading labels. */
  predicate Encloses(outer: string, inner: string) {
    |outer| < |inner| && inner[|inner| - |outer| - 1] == '.' && inner[|inner| - |outer|..] == outer
  }

  lemma EnclosesTransitive(a: string, b: string, c: string)
    requires Encloses(a, b) && Encloses(b, c)
    ensures Encloses(a, c)
  {
    assert c[|c| - |b|..][|b| - |a|..] == c[|c| - |a|..];
    assert c[|c| - |b|..][|b| - |a| - 1] == c[|c| - |a| - 1];
  }

  /** The names enclosing one name are nested in each other. */
  lemma EnclosersNested(a: string, b: string, c: string)
    requires Encloses(a, c) && Encloses(b, c)
    ensures a == b || Encloses(a, b) || Encloses(b, a)
  {
    if |a| == |b| {
      assert a == b;
    } else if |a| < |b| {
      NestedInLonger(a, b, c);
    } else {
      NestedInLonger(b, a, c);
    }
  }

  lemma NestedInLonger(a: string, b: string, c: string)
    requires Encloses(a, c) && Encloses(b, c) && |a| < |b|
    ensures Encloses(a, b)
  {
    assert c[|c| - |b|..][|b| - |a|..] == c[|c| - |a|..];
    assert c[|c| - |b|..][|b| - |a| - 1] == c[|c| - |a| - 1];
  }

  // ---------- SQL LIKE ----------

  /** `s LIKE pattern`, for patterns without an escape character */
  predicate Like(pattern: string, s: string)
    decreases |pattern|, |s|
  {
    if pattern == "" then s == ""
    else if pattern[0] == '%' then Like(pattern[1..], s) || (s != "" && Like(pattern, s[1..]))
    else s != "" && (pattern[0] == '_' || pattern[0] == s[0]) && Like(pattern[1..], s[1..])
  }

  /** The characters a zone name may hold. */
  predicate NameChar(c: char) {
    'a' <= c <= 'z' || 'A' <= c <= 'Z' || '0' <= c <= '9' || c == '_' || c == '-' || c == '.'
  }

  predicate ZoneName(name: string) {
    name != "" && name[|name| - 1] == '.' && forall c | c in name :: NameChar(c)
  }

  /** Same length, and equal except where the first name has an underscore. */
  predicate Fits(name: string, s: string) {
    |s| == |name| && forall i | 0 <= i < |name| :: name[i] == '_' || name[i] == s[i]
  }

  predicate NoPercent(name: string) { '%' !in name }

  lemma {:induction false} LikeIsFits(name: string, s: string)
    requires NoPercent(name)
    ensures Like(name, s) <==> Fits(name, s)
  {
    if name != "" {
      assert name[0] in name && forall c | c in name[1..] :: c in name;
      if s != "" {
        LikeIsFits(name[1..], s[1..]);
        if Fits(name, s) {
          assert forall i | 0 <= i < |name| - 1 :: name[1..][i] == name[i + 1] && s[1..][i] == s[i + 1];
        }
        if Fits(name[1..], s[1..]) && (name[0] == '_' || name[0] == s[0]) {
          assert forall i | 1 <= i < |name| :: name[i] == name[1..][i - 1] && s[i] == s[1..][i - 1];
        }
      }
    }
  }

  /** `_is_superzone`'s search term */
  function SubzonePattern(name: string): string { "%." + name }

  /** What the search term finds: names that end in a dot and something the wanted name fits. */
  predicate Matches(name: string, s: string) {
    |name| < |s| && s[|s| - |name| - 1] == '.' && Fits(name, s[|s| - |name|..])
  }

  lemma {:induction false} PatternFinds(name: string, s: string)
    requires NoPercent(name)
    ensures Like(SubzonePattern(name), s) <==> Matches(name, s)
    decreases |s|
  {
    var pattern := SubzonePattern(name);
    assert pattern[0] == '%' && pattern[1..] == "." + name;
    var rest := "." + name;
    assert rest[1..] == name;
    if s != "" {
      LikeIsFits(name, s[1..]);
      PatternFinds(name, s[1..]);
      if |s| == |name| + 1 {
        assert s[|s| - |name|..] == s[1..];
      } else if |s| > |name| + 1 {
        assert s[1..][|s| - 1 - |name|..] == s[|s| - |name|..];
      }
    }
  }

  lemma PlainNameMatches(name: string, s: string)
    requires '_' !in name
    ensures Matches(name, s) <==> Encloses(name, s)
  {
    if Matches(name, s) {
      var tail := s[|s| - |name|..];
      assert forall i | 0 <= i < |name| :: name[i] in name && name[i] == tail[i];
      assert tail == name;
    }
  }

  lemma EnclosedMatches(name: string, s: string)
    requires Encloses(name, s)
    ensures Matches(name, s)
  {
  }

  // ---------- creating and deleting, on values ----------

  /** `p` is the zone with the longest name enclosing `name`. */
  predicate Nearest(zones: Zones, name: string, p: Option<Id>) {
    match p
    case None => forall i | i in zones :: !Encloses(zones[i].name, name)
    case Some(id) =>
      && id in zones && Encloses(zones[id].name, name)
      && forall i | i in zones && Encloses(zones[i].name, name) :: |zones[i].name| <= |zones[id].name|
  }

  predicate Taken(zones: Zones, name: string) { exists i :: i in zones && zones[i].name == name }

  /** The zones the search for subzones of `name` finds. */
  function Found(zones: Zones, name: string): set<Id> {
    set i | i in zones && Matches(name, zones[i].name)
  }

  /** Filing `name` under its nearest encloser, and then the zones `adopted` under `name`. */
  ghost predicate Grown(before: Zones, after: Zones, id: Id, name: string, tenant: string, adopted: set<Id>) {
    && id !in before && !Taken(before, name) && after.Keys == before.Keys + {id}
    && after[id].name == name && after[id].tenant == tenant && Nearest(before, name, after[id].parent)
    && (after[id].parent.Some? ==> before[after[id].parent.value].tenant == tenant)
    && (forall i | i in before && Matches(name, before[i].name) :: before[i].tenant == tenant)
    && adopted <= Found(before, name)
    && (forall i | i in before :: after[i] == if i in adopted then before[i].(parent := Some(id)) else before[i])
  }

  /** A creation that went through: the new zone has adopted everything found. */
  ghost predicate Created(before: Zones, after: Zones, id: Id, name: string, tenant: string) {
    Grown(before, after, id, name, tenant, Found(before, name))
  }

  /** A deletion that went through: nothing else the caller can see was filed under the zone. */
  ghost predicate Deleted(before: Zones, after: Zones, id: Id, caller: Option<string>) {
    && id in before && Sees(caller, before[id]) && after == before - {id}
    && forall i | i in before && Sees(caller, before[i]) :: before[i].parent != Some(id)
  }

  /** A caller sees the zones of its own tenant, or all of them. */
  predicate Sees(caller: Option<string>, zone: Zone) { caller.None? || caller.value == zone.tenant }

  // ---------- the invariants ----------

  predicate NamesDiffer(zones: Zones) {
    forall i, j | i in zones && j in zones && zones[i].name == zones[j].name :: i == j
  }

  /** Two zones of which one encloses the other belong to one tenant. */
  predicate OneTenantPerTree(zones: Zones) {
    forall i, j | i in zones && j in zones && Encloses(zones[i].name, zones[j].name) ::
      zones[i].tenant == zones[j].tenant
  }

  predicate HasEncloser(zones: Zones, name: string) {
    exists i :: i in zones && Encloses(zones[i].name, name)
  }

  /** The parent is a zone of the same tenant with a shorter name. */
  predicate Filed(zones: Zones, zone: Zone) {
    zone.parent.Some? ==>
      var p := zone.parent.value;
      p in zones && zones[p].tenant == zone.tenant && |zones[p].name| < |zone.name|
  }

  /** Only a zone that nothing encloses lacks a parent. */
  predicate Rooted(zones: Zones, zone: Zone) {
    zone.parent.None? ==> !HasEncloser(zones, zone.name)
  }

  ghost predicate Linked(zones: Zones) {
    && NamesDiffer(zones) && OneTenantPerTree(zones)
    && forall i | i in zones :: Filed(zones, zones[i])
  }

  ghost predicate Sound(zones: Zones) {
    Linked(zones) && forall i | i in zones :: Rooted(zones, zones[i])
  }

  /** The parent, if any, encloses the zone. */
  predicate Under(zones: Zones, zone: Zone)
    requires zone.parent.Some? ==> zone.parent.value in zones
  {
    zone.parent.Some? ==> Encloses(zones[zone.parent.value].name, zone.name)
  }

  ghost predicate Forest(zones: Zones) {
    Sound(zones) && forall i | i in zones :: Filed(zones, zones[i]) && Under(zones, zones[i])
  }

  /** Another tenant has a zone above the name. */
  predicate AboveOf(zones: Zones, name: string, tenant: string) {
    exists i :: i in zones && Encloses(zones[i].name, name) && zones[i].tenant != tenant
  }

  /** Another tenant has a zone that the search for subzones finds. */
  predicate BelowOf(zones: Zones, name: string, tenant: string) {
    exists i :: i in zones && Matches(name, zones[i].name) && zones[i].tenant != tenant
  }

  /** All zones above a name belong to one tenant, so looking at the nearest is enough. */
  lemma NearestSpeaksForAll(zones: Zones, name: string, parent: Option<Id>, tenant: string)
    requires NamesDiffer(zones) && OneTenantPerTree(zones) && Nearest(zones, name, parent)
    ensures AboveOf(zones, name, tenant) <==> parent.Some? && zones[parent.value].tenant != tenant
  {
    if parent.Some? {
      forall i | i in zones && Encloses(zones[i].name, name)
        ensures zones[i].tenant == zones[parent.value].tenant
      {
        EnclosersNested(zones[i].name, zones[parent.value].name, name);
      }
    }
  }

  /** The new zone is there, and the others have kept their names and tenants. */
  ghost predicate Named(before: Zones, after: Zones, id: Id, name: string, tenant: string) {
    && id !in before && after.Keys == before.Keys + {id} && after[id].name == name && after[id].tenant == tenant
    && forall i | i in before :: after[i].name == before[i].name && after[i].tenant == before[i].tenant
  }

  lemma GrowthIsAdmitted(before: Zones, after: Zones, id: Id, name: string, tenant: string, adopted: set<Id>)
    requires NamesDiffer(before) && OneTenantPerTree(before) && Grown(before, after, id, name, tenant, adopted)
    ensures Named(before, after, id, name, tenant)
    ensures !AboveOf(before, name, tenant) && !BelowOf(before, name, tenant) && !Taken(before, name)
  {
    NearestSpeaksForAll(before, name, after[id].parent, tenant);
  }

  lemma AdmittedKeepsTenants(before: Zones, after: Zones, id: Id, name: string, tenant: string)
    requires NamesDiffer(before) && OneTenantPerTree(before) && Named(before, after, id, name, tenant)
    requires !AboveOf(before, name, tenant) && !BelowOf(before, name, tenant) && !Taken(before, name)
    ensures NamesDiffer(after) && OneTenantPerTree(after)
  {
    forall i, j | i in after && j in after && Encloses(after[i].name, after[j].name)
      ensures after[i].tenant == after[j].tenant
    {
      if i == id && j in before {
        EnclosedMatches(name, before[j].name);
      }
    }
  }

  lemma GrowthKeepsTenants(before: Zones, after: Zones, id: Id, name: string, tenant: string, adopted: set<Id>)
    requires Linked(before) && Grown(before, after, id, name, tenant, adopted)
    ensures NamesDiffer(after) && OneTenantPerTree(after)
  {
    GrowthIsAdmitted(before, after, id, name, tenant, adopted);
    AdmittedKeepsTenants(before, after, id, name, tenant);
  }

  lemma NewIsFiled(before: Zones, after: Zones, id: Id, name: string, tenant: string, adopted: set<Id>)
    requires Grown(before, after, id, name, tenant, adopted)
    ensures Filed(after, after[id]) && Rooted(after, after[id]) && Under(after, after[id])
  {
    assert forall i | i in before :: after[i].name == before[i].name && after[i].tenant == before[i].tenant;
  }

  /** The new zone encloses this one, which it has not adopted and which has no parent. */
  predicate Missed(name: string, zone: Zone) { Encloses(name, zone.name) && zone.parent.None? }

  lemma OldStaysFiled(before: Zones, after: Zones, id: Id, name: string, tenant: string, adopted: set<Id>, i: Id)
    requires Grown(before, after, id, name, tenant, adopted) && i in before && Filed(before, before[i])
    ensures Filed(after, after[i])
    ensures Rooted(before, before[i]) ==> (Rooted(after, after[i]) <==> i in adopted || !Missed(name, before[i]))
  {
    if i in adopted {
      assert Matches(name, before[i].name);
    } else {
      assert after[i] == before[i];
      assert forall e | e in before :: after[e].name == before[e].name;
      if Missed(name, before[i]) {
        assert Encloses(after[id].name, after[i].name);
      }
    }
  }

  /** However far the adoptions get, the links stay sound except where a zone below has no parent yet. */
  lemma GrowthKeepsSound(before: Zones, after: Zones, id: Id, name: string, tenant: string, adopted: set<Id>)
    requires Linked(before) && Grown(before, after, id, name, tenant, adopted)
    ensures Linked(after)
    ensures Sound(before) ==> (Sound(after) <==> forall i | i in before && i !in adopted :: !Missed(name, before[i]))
  {
    GrowthKeepsTenants(before, after, id, name, tenant, adopted);
    NewIsFiled(before, after, id, name, tenant, adopted);
    forall i | i in before
      ensures Filed(after, after[i])
      ensures Rooted(before, before[i]) ==> (Rooted(after, after[i]) <==> i in adopted || !Missed(name, before[i]))
    {
      OldStaysFiled(before, after, id, name, tenant, adopted, i);
    }
  }

  lemma CreateKeepsSound(before: Zones, after: Zones, id: Id, name: string, tenant: string)
    requires Sound(before) && Created(before, after, id, name, tenant)
    ensures Sound(after)
  {
    GrowthKeepsSound(before, after, id, name, tenant, Found(before, name));
    forall i | i in before && Missed(name, before[i])
      ensures i in Found(before, name)
    {
      EnclosedMatches(name, before[i].name);
    }
  }

  /** Creating a zone keeps the forest exactly when the search term finds nothing but names it encloses. */
  lemma CreateKeepsForest(before: Zones, after: Zones, id: Id, name: string, tenant: string)
    requires Forest(before) && Created(before, after, id, name, tenant)
    ensures Forest(after) <==> forall i | i in before && Matches(name, before[i].name) :: Encloses(name, before[i].name)
  {
    CreateKeepsSound(before, after, id, name, tenant);
    NewIsFiled(before, after, id, name, tenant, Found(before, name));
    forall i | i in before
      ensures Filed(after, after[i])
      ensures Under(after, after[i]) <==> (Matches(name, before[i].name) ==> Encloses(name, before[i].name))
    {
      assert Filed(before, before[i]) && Under(before, before[i]);
      assert i in Found(before, name) <==> Matches(name, before[i].name);
    }
  }

  /** Which names can always be created safely? Those without an underscore, which LIKE reads as any character. */
  ghost predicate AlwaysKeepsForest(name: string, tenant: string) {
    forall before: Zones, after: Zones, id: Id | Forest(before) && Created(before, after, id, name, tenant) ::
      Forest(after)
  }

  lemma UnderscoreOvermatches(name: string, k: nat) returns (inner: string)
    requires ZoneName(name) && k < |name| && name[k] == '_'
    ensures ZoneName(inner) && Matches(name, inner) && !Encloses(name, inner) && |name| < |inner|
  {
    var other := name[k := 'x'];
    inner := "x." + other;
    assert inner[2..] == other && other[k] != name[k];
    assert forall c | c in name :: NameChar(c);
    assert forall i | 0 <= i < |name| :: name[i] in name;
  }

  lemma UnderscoreMisfiles(name: string, tenant: string, k: nat) returns (before: Zones, after: Zones)
    requires ZoneName(name) && k < |name| && name[k] == '_'
    ensures 0 in before && ZoneName(before[0].name)
    ensures Forest(before) && Created(before, after, 1, name, tenant) && !Forest(after)
  {
    var inner := UnderscoreOvermatches(name, k);
    before := map[0 := Zone(inner, tenant, None)];
    after := map[0 := Zone(inner, tenant, Some(1)), 1 := Zone(name, tenant, None)];
    LoneZone(before, after, inner, name, tenant);
    assert after[1].name == name;
  }

  lemma LoneZone(before: Zones, after: Zones, inner: string, name: string, tenant: string)
    requires |name| < |inner| && Matches(name, inner) && before == map[0 := Zone(inner, tenant, None)]
    requires after == map[0 := Zone(inner, tenant, Some(1)), 1 := Zone(name, tenant, None)]
    ensures Forest(before) && Created(before, after, 1, name, tenant)
  {
    assert !Encloses(inner, inner) && !Encloses(inner, name);
  }

  lemma PlainNamesAreSafe(name: string, tenant: string)
    requires ZoneName(name)
    ensures AlwaysKeepsForest(name, tenant) <==> '_' !in name
  {
    assert NoPercent(name);
    if '_' in name {
      var k :| 0 <= k < |name| && name[k] == '_';
      var before, after := UnderscoreMisfiles(name, tenant, k);
    } else {
      forall before: Zones, after: Zones, id: Id | Forest(before) && Created(before, after, id, name, tenant)
        ensures Forest(after)
      {
        forall i | i in before
          ensures Matches(name, before[i].name) <==> Encloses(name, before[i].name)
        {
          PlainNameMatches(name, before[i].name);
        }
        CreateKeepsForest(before, after, id, name, tenant);
      }
    }
  }

  /** Deleting needs only sight of the caller's own zones: no other tenant can have a zone filed under this one. */
  lemma DeleteKeepsSound(before: Zones, after: Zones, id: Id, caller: Option<string>)
    requires Linked(before) && Deleted(before, after, id, caller)
    ensures Linked(after) && (Sound(before) ==> Sound(after)) && (Forest(before) ==> Forest(after))
    ensures forall i | i in before :: before[i].parent != Some(id)
  {
    forall i | i in before
      ensures before[i].parent != Some(id)
    {
      assert Filed(before, before[i]);
    }
    forall i | i in after
      ensures Filed(after, after[i])
    {
      assert Filed(before, before[i]);
    }
  }

  // ---------- runs ----------

  /** A creation that stops half-way has adopted only some of the zones found. */
  datatype Step =
    | CreateZone(id: Id, name: string, tenant: string, adopted: set<Id>)
    | DeleteZone(id: Id, caller: Option<string>)
    | Refused

  ghost predicate Steps(before: Zones, step: Step, after: Zones) {
    match step
    case CreateZone(id, name, tenant, adopted) => ZoneName(name) && Grown(before, after, id, name, tenant, adopted)
    case DeleteZone(id, caller) => Deleted(before, after, id, caller)
    case Refused => after == before
  }

  ghost predicate IsRun(states: seq<Zones>, steps: seq<Step>) {
    && |states| == |steps| + 1 && states[0] == map[]
    && forall k | 0 <= k < |steps| :: Steps(states[k], steps[k], states[k + 1])
  }

  /** A creation that adopts every zone without a parent that it encloses; one that went through always does. */
  ghost predicate MissesNone(before: Zones, step: Step) {
    step.CreateZone? ==> forall i | i in before && i !in step.adopted :: !Missed(step.name, before[i])
  }

  ghost predicate Completes(before: Zones, step: Step) {
    step.CreateZone? ==> step.adopted == Found(before, step.name)
  }

  /** Whatever is created, wholly or in part, and deleted, each tree belongs to one tenant and the parent links
      cannot loop. */
  lemma {:induction false} RunsStayLinked(states: seq<Zones>, steps: seq<Step>, k: nat)
    requires IsRun(states, steps) && k <= |steps|
    ensures Linked(states[k])
  {
    if k > 0 {
      RunsStayLinked(states, steps, k - 1);
      assert Steps(states[k - 1], steps[k - 1], states[k]);
      match steps[k - 1]
      case CreateZone(id, name, tenant, adopted) =>
        GrowthKeepsSound(states[k - 1], states[k], id, name, tenant, adopted);
      case DeleteZone(id, caller) => DeleteKeepsSound(states[k - 1], states[k], id, caller);
      case Refused =>
    }
  }

  /** As long as no creation misses a zone below, only zones that nothing encloses lack a parent. */
  lemma {:induction false} RunsStaySound(states: seq<Zones>, steps: seq<Step>, k: nat)
    requires IsRun(states, steps) && k <= |steps|
    requires forall j | 0 <= j < |steps| :: MissesNone(states[j], steps[j])
    ensures Sound(states[k])
  {
    if k > 0 {
      RunsStaySound(states, steps, k - 1);
      assert Steps(states[k - 1], steps[k - 1], states[k]) && MissesNone(states[k - 1], steps[k - 1]);
      match steps[k - 1]
      case CreateZone(id, name, tenant, adopted) =>
        GrowthKeepsSound(states[k - 1], states[k], id, name, tenant, adopted);
      case DeleteZone(id, caller) => DeleteKeepsSound(states[k - 1], states[k], id, caller);
      case Refused =>
    }
  }

  /** When creations go through and no created name holds an underscore, every parent is an enclosing zone. */
  lemma {:induction false} PlainRunsStayForests(states: seq<Zones>, steps: seq<Step>, k: nat)
    requires IsRun(states, steps) && k <= |steps|
    requires forall j | 0 <= j < |steps| :: Completes(states[j], steps[j])
    requires forall j | 0 <= j < |steps| && steps[j].CreateZone? :: '_' !in steps[j].name
    ensures Forest(states[k])
  {
    if k > 0 {
      PlainRunsStayForests(states, steps, k - 1);
      assert Steps(states[k - 1], steps[k - 1], states[k]) && Completes(states[k - 1], steps[k - 1]);
      match steps[k - 1]
      case CreateZone(id, name, tenant, adopted) =>
        PlainNamesAreSafe(name, tenant);
        assert Created(states[k - 1], states[k], id, name, tenant);
      case DeleteZone(id, caller) => DeleteKeepsSound(states[k - 1], states[k], id, caller);
      case Refused =>
    }
  }

  // ---------- following the parents ----------

  /** The zone that the parent links lead to. */
  ghost function Root(zones: Zones, id: Id): (r: Id)
    requires Linked(zones) && id in zones
    ensures r in zones && zones[r].parent == None && zones[r].tenant == zones[id].tenant
    ensures Sound(zones) ==> !HasEncloser(zones, zones[r].name)
    decreases |zones[id].name|
  {
    assert Filed(zones, zones[id]) && (Sound(zones) ==> Rooted(zones, zones[id]));
    if zones[id].parent.None? then id else Root(zones, zones[id].parent.value)
  }

  predicate EnclosesOrIs(outer: string, inner: string) { outer == inner || Encloses(outer, inner) }

  lemma {:induction false} RootEncloses(zones: Zones, id: Id)
    requires Forest(zones) && id in zones
    ensures EnclosesOrIs(zones[Root(zones, id)].name, zones[id].name)
    decreases |zones[id].name|
  {
    assert Filed(zones, zones[id]) && Under(zones, zones[id]);
    if zones[id].parent.Some? {
      var p := zones[id].parent.value;
      RootEncloses(zones, p);
      if zones[Root(zones, p)].name != zones[p].name {
        EnclosesTransitive(zones[Root(zones, p)].name, zones[p].name, zones[id].name);
      }
    }
  }

  /** The parents lead to the topmost zone above the one they start from: it encloses all the others. */
  lemma RootIsTopmost(zones: Zones, id: Id, other: Id)
    requires Forest(zones) && id in zones && other in zones && EnclosesOrIs(zones[other].name, zones[id].name)
    ensures EnclosesOrIs(zones[Root(zones, id)].name, zones[other].name)
  {
    RootEncloses(zones, id);
    var root := Root(zones, id);
    if zones[other].name != zones[id].name && zones[root].name != zones[id].name {
      EnclosersNested(zones[root].name, zones[other].name, zones[id].name);
    }
    assert !Encloses(zones[other].name, zones[root].name);
  }

  // ---------- the service ----------

  /** Dropping leading labels leaves an enclosing name, shorter the more are dropped. */
  lemma {:induction false} JoinTail(parts: seq<string>, i: nat)
    requires i < |parts|
    ensures var tail, whole := Join(parts[i..], '.'), Join(parts, '.');
            if i == 0 then tail == whole else Encloses(tail, whole)
  {
    if i == 0 {
      assert parts[0..] == parts;
    } else {
      JoinTail(parts[1..], i - 1);
      assert parts[1..][i - 1..] == parts[i..];
      var inner, outer := Join(parts[1..], '.'), Join(parts, '.');
      assert outer == parts[0] + ['.'] + inner;
      assert outer[|outer| - |inner|..] == inner;
      assert Encloses(inner, outer);
      if i > 1 {
        EnclosesTransitive(Join(parts[i..], '.'), inner, outer);
      }
    }
  }

  /** The names `_is_subzone` looks up are exactly the enclosing ones, longest first. */
  lemma LookedUp(name: string, labels: seq<string>, outer: string) returns (i: nat)
    requires labels == Split(name, '.') && Encloses(outer, name)
    ensures 1 <= i < |labels| && outer == Join(labels[i..], '.')
  {
    var p := name[..|name| - |outer| - 1];
    assert name == p + ['.'] + outer;
    SplitConcat(p, outer, '.');
    i := |Split(p, '.')|;
    assert labels[i..] == Split(outer, '.');
    JoinSplit(outer, '.');
  }

  lemma TailsShrink(labels: seq<string>, i: nat, j: nat)
    requires i <= j < |labels|
    ensures |Join(labels[j..], '.')| <= |Join(labels[i..], '.')|
  {
    JoinTail(labels[i..], j - i);
    assert labels[i..][j - i..] == labels[j..];
  }

  function Bearing(zones: Zones, name: string): set<Id> {
    set i | i in zones && zones[i].name == name
  }

  lemma NameFoundOnce(zones: Zones, name: string)
    ensures NamesDiffer(zones) && Taken(zones, name) ==> |Bearing(zones, name)| == 1
  {
    if i :| NamesDiffer(zones) && i in zones && zones[i].name == name {
      assert Bearing(zones, name) == {i};
    }
  }

  /** The zones of one pool. */
  class Central {
    var zones: Zones

    constructor ()
      ensures zones == map[] && Forest(zones)
    {
      zones := map[];
    }

    /** `find_zone` by name: anything but one match counts as not found. */
    method FindByName(name: string) returns (r: Option<Id>)
      ensures r.Some? <==> |Bearing(zones, name)| == 1
      ensures r.None? && NamesDiffer(zones) ==> !Taken(zones, name)
      ensures r.Some? ==> r.value in zones && zones[r.value].name == name
    {
      var found := Bearing(zones, name);
      NameFoundOnce(zones, name);
      if |found| != 1 {
        return None;
      }
      var id :| id in found;
      return Some(id);
    }

    /** `_is_subzone` */
    method IsSubzone(name: string) returns (r: Option<Id>)
      requires Linked(zones)
      ensures Nearest(zones, name, r)
    {
      var labels := Split(name, '.');
      JoinSplit(name, '.');
      var i := 1;
      while i < |labels|
        invariant 1 <= i <= |labels|
        invariant forall j | 1 <= j < i :: !Taken(zones, Join(labels[j..], '.'))
      {
        var found := FindByName(Join(labels[i..], '.'));
        if found.Some? {
          JoinTail(labels, i);
          FoundIsNearest(labels, name, zones, i, found.value);
          return found;
        }
        i := i + 1;
      }
      forall z | z in zones
        ensures !Encloses(zones[z].name, name)
      {
        if Encloses(zones[z].name, name) {
          var k := LookedUp(name, labels, zones[z].name);
          assert Taken(zones, Join(labels[k..], '.'));
        }
      }
      r := None;
    }

    /** `_is_superzone`; only the zones it finds are of interest here. */
    method IsSuperzone(name: string) returns (subzones: set<Id>)
      requires ZoneName(name)
      ensures subzones == Found(zones, name)
    {
      subzones := set i | i in zones && Like(SubzonePattern(name), zones[i].name);
      forall i | i in zones
        ensures i in subzones <==> Matches(name, zones[i].name)
      {
        PatternFinds(name, zones[i].name);
      }
    }

    /** `create_zone`, past the checks of quota, policy, name and TTL; `id` is the new identifier. What lies between
        storing and adopting may fail (`updates == None`), and so may any update after the first few. */
    method CreateZone(id: Id, name: string, tenant: string, hasServers: bool, hasView: bool, updates: Option<nat>)
      returns (r: Result<Zone, Error>)
      requires Linked(zones) && ZoneName(name) && id !in zones
      modifies this
      ensures var refusal := Refusal(old(zones), name, tenant, hasServers, hasView);
              if refusal.Some? then r == Err(refusal.value) && zones == old(zones)
              else Stored(old(zones), zones, r, id, name, tenant, updates)
      ensures Linked(zones)
      ensures r != Err(BackendFailed) && old(Sound(zones)) ==> Sound(zones)
      ensures r != Err(BackendFailed) && old(Forest(zones)) && '_' !in name ==> Forest(zones)
    {
      var parent := IsSubzone(name);
      NearestSpeaksForAll(zones, name, parent, tenant);
      if parent.Some? && zones[parent.value].tenant != tenant {
        return Err(IllegalChildZone);
      }
      var subzones := IsSuperzone(name);
      if i :| i in subzones && zones[i].tenant != tenant {
        return Err(IllegalParentZone);
      }
      if !hasServers {
        return Err(NoServersConfigured);
      }
      r := StoreZone(id, name, tenant, parent, subzones, hasView, updates);
    }

    /** `_create_zone` */
    method StoreZone(id: Id, name: string, tenant: string, parent: Option<Id>, subzones: set<Id>, hasView: bool,
                     updates: Option<nat>)
      returns (r: Result<Zone, Error>)
      requires Linked(zones) && ZoneName(name) && id !in zones
      requires Nearest(zones, name, parent) && subzones == Found(zones, name)
      requires !AboveOf(zones, name, tenant) && !BelowOf(zones, name, tenant)
      modifies this
      ensures if !hasView then r == Err(NeedView) && zones == old(zones)
              else if Taken(old(zones), name) then r == Err(DuplicateZone) && zones == old(zones)
              else Stored(old(zones), zones, r, id, name, tenant, updates)
      ensures Linked(zones)
      ensures r != Err(BackendFailed) && old(Sound(zones)) ==> Sound(zones)
      ensures r != Err(BackendFailed) && old(Forest(zones)) && '_' !in name ==> Forest(zones)
    {
      ghost var before := zones;
      if !hasView {
        return Err(NeedView);
      }
      var same := FindByName(name);
      if same.Some? {
        return Err(DuplicateZone);
      }
      zones := zones[id := Zone(name, tenant, parent)];
      var adopted := {};
      if updates.Some? {
        adopted := Adopt(subzones, id, updates.value);
      }
      GrowthFrom(before, zones, id, name, tenant, parent, adopted);
      GrowthKept(before, zones, id, name, tenant, adopted);
      if updates.None? || updates.value < |subzones| {
        return Err(BackendFailed);
      }
      return Ok(Zone(name, tenant, parent));
    }

    /** The loop that hands the zones found under the new one over to it, until it is done or an update fails. */
    method Adopt(subzones: set<Id>, id: Id, updates: nat) returns (adopted: set<Id>)
      requires subzones <= zones.Keys
      modifies this
      ensures zones.Keys == old(zones.Keys) && adopted <= subzones
      ensures if |subzones| <= updates then adopted == subzones else |adopted| == updates
      ensures forall i | i in zones ::
                zones[i] == if i in adopted then old(zones)[i].(parent := Some(id)) else old(zones)[i]
    {
      adopted := {};
      var todo := subzones;
      while todo != {} && |adopted| < updates
        invariant adopted !! todo && adopted + todo == subzones && zones.Keys == old(zones.Keys)
        invariant |adopted| <= updates
        invariant forall i | i in zones ::
                    zones[i] == if i in adopted then old(zones)[i].(parent := Some(id)) else old(zones)[i]
        decreases |todo|
      {
        var i :| i in todo;
        zones := zones[i := zones[i].(parent := Some(id))];
        adopted, todo := adopted + {i}, todo - {i};
      }
      assert |subzones| == |adopted| + |todo|;
    }

    /** `delete_zone` by a caller that abandons the zone, so that its row goes at once. */
    method DeleteZone(id: Id, caller: Option<string>) returns (r: Result<Zone, Error>)
      requires Linked(zones)
      modifies this
      ensures Linked(zones) && (old(Sound(zones)) ==> Sound(zones)) && (old(Forest(zones)) ==> Forest(zones))
      ensures r.Ok? ==> Deleted(old(zones), zones, id, caller) && r.value == old(zones)[id]
      ensures r.Err? ==> zones == old(zones)
      ensures var visible := id in old(zones) && Sees(caller, old(zones)[id]);
              && (r == Err(ZoneNotFound) <==> !visible)
              && (r == Err(ZoneHasSubZone) <==>
                    visible && exists i | i in old(zones) :: old(zones)[i].parent == Some(id))
      ensures r.Err? ==> r.error in {ZoneNotFound, ZoneHasSubZone}
      ensures id in old(zones) && caller.Some? && caller.value != old(zones)[id].tenant ==>
                r == Err(ZoneNotFound) && zones == old(zones)
      ensures id in old(zones) && caller in {None, Some(old(zones)[id].tenant)} ==>
                r == if exists i | i in old(zones) :: old(zones)[i].parent == Some(id) then Err(ZoneHasSubZone)
                     else Ok(old(zones)[id])
    {
      ghost var before := zones;
      if id !in zones || (caller.Some? && caller.value != zones[id].tenant) {
        return Err(ZoneNotFound);
      }
      var zone := zones[id];
      var children := set i | i in zones && caller in {None, Some(zones[i].tenant)} && zones[i].parent == Some(id);
      if children != {} {
        var i :| i in children;
        return Err(ZoneHasSubZone);
      }
      zones := zones - {id};
      assert forall i | i in before && Sees(caller, before[i]) && before[i].parent == Some(id) :: i in children;
      DeleteKeepsSound(before, zones, id, caller);
      r := Ok(zone);
    }
  }

  /** Why a creation is refused before anything is stored; the checks are made in this order. */
  function Refusal(zones: Zones, name: string, tenant: string, hasServers: bool, hasView: bool): Option<Error> {
    if AboveOf(zones, name, tenant) then Some(IllegalChildZone)
    else if BelowOf(zones, name, tenant) then Some(IllegalParentZone)
    else if !hasServers then Some(NoServersConfigured)
    else if !hasView then Some(NeedView)
    else if Taken(zones, name) then Some(DuplicateZone)
    else None
  }

  /** A creation that failed after this many adoptions. */
  ghost predicate Interrupted(before: Zones, after: Zones, id: Id, name: string, tenant: string, updates: nat) {
    exists adopted | |adopted| == updates :: Grown(before, after, id, name, tenant, adopted)
  }

  /** What comes of storing a zone: all the zones found are adopted, or the creation fails on the way. */
  ghost predicate Stored(before: Zones, after: Zones, r: Result<Zone, Error>, id: Id, name: string, tenant: string,
                         updates: Option<nat>)
  {
    if updates.Some? && |Found(before, name)| <= updates.value then
      Created(before, after, id, name, tenant) && r == Ok(Zone(name, tenant, after[id].parent))
    else
      r == Err(BackendFailed)
      && Interrupted(before, after, id, name, tenant, if updates.Some? then updates.value else 0)
  }

  lemma GrowthFrom(before: Zones, after: Zones, id: Id, name: string, tenant: string, parent: Option<Id>,
                   adopted: set<Id>)
    requires NamesDiffer(before) && OneTenantPerTree(before) && id !in before && Nearest(before, name, parent)
    requires !AboveOf(before, name, tenant) && !BelowOf(before, name, tenant) && !Taken(before, name)
    requires after.Keys == before.Keys + {id} && after[id] == Zone(name, tenant, parent)
    requires adopted <= Found(before, name)
    requires forall i | i in before :: after[i] == if i in adopted then before[i].(parent := Some(id)) else before[i]
    ensures Grown(before, after, id, name, tenant, adopted)
  {
    NearestSpeaksForAll(before, name, parent, tenant);
  }

  lemma CreateKept(before: Zones, after: Zones, id: Id, name: string, tenant: string)
    requires Sound(before) && Created(before, after, id, name, tenant) && ZoneName(name)
    ensures Sound(after)
    ensures Forest(before) && '_' !in name ==> Forest(after)
  {
    CreateKeepsSound(before, after, id, name, tenant);
    PlainNamesAreSafe(name, tenant);
  }

  lemma GrowthKept(before: Zones, after: Zones, id: Id, name: string, tenant: string, adopted: set<Id>)
    requires Linked(before) && Grown(before, after, id, name, tenant, adopted) && ZoneName(name)
    ensures Linked(after)
    ensures adopted == Found(before, name) && Sound(before) ==> Sound(after)
    ensures adopted == Found(before, name) && Forest(before) && '_' !in name ==> Forest(after)
  {
    GrowthKeepsSound(before, after, id, name, tenant, adopted);
    if adopted == Found(before, name) && Sound(before) {
      assert Created(before, after, id, name, tenant);
      CreateKept(before, after, id, name, tenant);
    }
  }

  lemma FoundIsNearest(labels: seq<string>, name: string, zones: Zones, i: nat, id: Id)
    requires labels == Split(name, '.') && 1 <= i < |labels| && id in zones && zones[id].name == Join(labels[i..], '.')
    requires forall j | 1 <= j < i :: !Taken(zones, Join(labels[j..], '.'))
    requires Encloses(zones[id].name, name)
    ensures Nearest(zones, name, Some(id))
  {
    forall z | z in zones && Encloses(zones[z].name, name)
      ensures |zones[z].name| <= |zones[id].name|
    {
      var k := LookedUp(name, labels, zones[z].name);
      assert k < i ==> Taken(zones, Join(labels[k..], '.'));
      TailsShrink(labels, i, k);
    }
  }
}
