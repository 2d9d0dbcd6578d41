/** Marker pagination over several sort keys: the query, and what one execution of it returns. */
module Pagination {
  import opened Wrappers

  datatype Dir = Asc | Desc

  type Row = map<string, int>

  datatype Error = BothDirections | UnequalLengths | UnknownDirection | InvalidSortKey | MarkerNotFound | InvalidMarker

  // ---------- mixed-direction lexicographic order ----------

  predicate Beyond(a: int, b: int, dir: Dir) { if dir == Desc then a < b else a > b }

  /** `a` comes strictly after `b`. */
  predicate After(a: seq<int>, b: seq<int>, dirs: seq<Dir>)
    requires |a| == |b| == |dirs|
  {
    |a| > 0 && (Beyond(a[0], b[0], dirs[0]) || (a[0] == b[0] && After(a[1..], b[1..], dirs[1..])))
  }

  /** `a` and `b` agree up to position `i`, where `a` goes beyond `b`. */
  predicate PartsAt(a: seq<int>, b: seq<int>, dirs: seq<Dir>, i: nat)
    requires |a| == |b| == |dirs|
  {
    i < |a| && (forall j | 0 <= j < i :: a[j] == b[j]) && Beyond(a[i], b[i], dirs[i])
  }

  lemma {:induction false} AfterParts(a: seq<int>, b: seq<int>, dirs: seq<Dir>)
    requires |a| == |b| == |dirs|
    ensures After(a, b, dirs) <==> exists i: nat :: PartsAt(a, b, dirs, i)
  {
    if |a| > 0 {
      AfterParts(a[1..], b[1..], dirs[1..]);
      if Beyond(a[0], b[0], dirs[0]) {
        assert PartsAt(a, b, dirs, 0);
      } else if a[0] == b[0] {
        if i: nat :| PartsAt(a[1..], b[1..], dirs[1..], i) {
          forall j | 0 <= j < i + 1
            ensures a[j] == b[j]
          {
            assert j > 0 ==> a[1..][j - 1] == b[1..][j - 1];
          }
          assert PartsAt(a, b, dirs, i + 1);
        }
        if i: nat :| PartsAt(a, b, dirs, i) {
          assert PartsAt(a[1..], b[1..], dirs[1..], i - 1);
        }
      }
    }
  }

  lemma {:induction false} AfterIrreflexive(a: seq<int>, dirs: seq<Dir>)
    requires |a| == |dirs|
    ensures !After(a, a, dirs)
  {
    if |a| > 0 {
      AfterIrreflexive(a[1..], dirs[1..]);
    }
  }

  lemma {:induction false} AfterTransitive(a: seq<int>, b: seq<int>, c: seq<int>, dirs: seq<Dir>)
    requires |a| == |b| == |c| == |dirs| && After(a, b, dirs) && After(b, c, dirs)
    ensures After(a, c, dirs)
  {
    if a[0] == b[0] && b[0] == c[0] {
      AfterTransitive(a[1..], b[1..], c[1..], dirs[1..]);
    }
  }

  lemma {:induction false} AfterTotal(a: seq<int>, b: seq<int>, dirs: seq<Dir>)
    requires |a| == |b| == |dirs|
    ensures a == b || After(a, b, dirs) || After(b, a, dirs)
  {
    if |a| > 0 && a[0] == b[0] {
      AfterTotal(a[1..], b[1..], dirs[1..]);
      assert a == [a[0]] + a[1..] && b == [b[0]] + b[1..];
    }
  }

  // ---------- the query ----------

  datatype Test =
    | Equals(column: string, value: int)
    | Less(column: string, value: int)
    | Greater(column: string, value: int)

  predicate Holds(t: Test, row: Row)
    requires t.column in row
  {
    match t
    case Equals(c, v) => row[c] == v
    case Less(c, v) => row[c] < v
    case Greater(c, v) => row[c] > v
  }

  /** An OR of ANDs. */
  type Criteria = seq<seq<Test>>

  predicate Speaks(tests: seq<Test>, columns: set<string>) {
    forall i | 0 <= i < |tests| :: tests[i].column in columns
  }

  predicate AllHold(tests: seq<Test>, row: Row)
    requires Speaks(tests, row.Keys)
  {
    forall i | 0 <= i < |tests| :: Holds(tests[i], row)
  }

  predicate Passes(criteria: Criteria, row: Row)
    requires forall i | 0 <= i < |criteria| :: Speaks(criteria[i], row.Keys)
  {
    exists i :: 0 <= i < |criteria| && AllHold(criteria[i], row)
  }

  function Project(row: Row, keys: seq<string>): seq<int>
    requires forall k | k in keys :: k in row
  {
    seq(|keys|, i requires 0 <= i < |keys| => row[keys[i]])
  }

  /** The conjunction for position `i`: equal on the keys before it, beyond the marker on it. */
  function Conjunction(keys: seq<string>, values: seq<int>, dirs: seq<Dir>, i: nat): seq<Test>
    requires i < |keys| == |values| == |dirs|
  {
    seq(i, j requires 0 <= j < i => Equals(keys[j], values[j]))
    + [if dirs[i] == Desc then Less(keys[i], values[i]) else Greater(keys[i], values[i])]
  }

  lemma ConjunctionParts(keys: seq<string>, values: seq<int>, dirs: seq<Dir>, i: nat, row: Row)
    requires i < |keys| == |values| == |dirs| && forall k | k in keys :: k in row
    ensures Speaks(Conjunction(keys, values, dirs, i), row.Keys)
    ensures AllHold(Conjunction(keys, values, dirs, i), row) <==> PartsAt(Project(row, keys), values, dirs, i)
  {
    var c, p := Conjunction(keys, values, dirs, i), Project(row, keys);
    assert forall j | 0 <= j < i :: c[j] == Equals(keys[j], values[j]) && (Holds(c[j], row) <==> p[j] == values[j]);
    assert Holds(c[i], row) <==> Beyond(p[i], values[i], dirs[i]);
  }

  ghost predicate AreConjunctions(criteria: Criteria, keys: seq<string>, values: seq<int>, dirs: seq<Dir>)
    requires |criteria| <= |keys| == |values| == |dirs|
  {
    forall i | 0 <= i < |criteria| :: criteria[i] == Conjunction(keys, values, dirs, i)
  }

  /** The OR of ANDs says "strictly after the marker". */
  lemma CriteriaMeanAfter(criteria: Criteria, keys: seq<string>, values: seq<int>, dirs: seq<Dir>, row: Row)
    requires |criteria| == |keys| == |values| == |dirs| && AreConjunctions(criteria, keys, values, dirs)
    requires forall k | k in keys :: k in row
    ensures forall i | 0 <= i < |criteria| :: Speaks(criteria[i], row.Keys)
    ensures Passes(criteria, row) <==> After(Project(row, keys), values, dirs)
  {
    var p := Project(row, keys);
    forall i: nat | i < |criteria|
      ensures Speaks(criteria[i], row.Keys) && (AllHold(criteria[i], row) <==> PartsAt(p, values, dirs, i))
    {
      ConjunctionParts(keys, values, dirs, i, row);
    }
    AfterParts(p, values, dirs);
    if i: nat :| PartsAt(p, values, dirs, i) {
      assert AllHold(criteria[i], row);
    }
  }

  function ParseDir(name: string): Option<Dir> {
    if name == "asc" then Some(Asc) else if name == "desc" then Some(Desc) else None
  }

  /** One direction name per key, as `sort_query` settles them. */
  function DirNames(n: nat, sortDir: Option<string>, sortDirs: Option<seq<string>>): seq<string> {
    if sortDirs.Some? then sortDirs.value
    else seq(n, i requires 0 <= i < n => if sortDir.Some? then sortDir.value else "asc")
  }

  predicate BothGiven(sortDir: Option<string>, sortDirs: Option<seq<string>>) {
    sortDir.Some? && sortDir.value != "" && sortDirs.Some? && sortDirs.value != []
  }

  predicate SortableBy(columns: set<string>, key: string, name: string) { ParseDir(name).Some? && key in columns }

  /** The directions are well given, one for each key, and every key is a column. */
  predicate Sortable(columns: set<string>, keys: seq<string>, sortDir: Option<string>, sortDirs: Option<seq<string>>) {
    var names := DirNames(|keys|, sortDir, sortDirs);
    && !BothGiven(sortDir, sortDirs)
    && |names| == |keys|
    && forall i | 0 <= i < |keys| :: SortableBy(columns, keys[i], names[i])
  }

  /** Position `i` is the first one at fault. */
  predicate FirstFault(columns: set<string>, keys: seq<string>, names: seq<string>, i: nat)
    requires |names| == |keys|
  {
    && i < |keys| && !SortableBy(columns, keys[i], names[i])
    && forall j | 0 <= j < i :: SortableBy(columns, keys[j], names[j])
  }

  /** The first position at fault has no direction, or else no column. */
  ghost predicate NoDirection(columns: set<string>, keys: seq<string>, names: seq<string>)
    requires |names| == |keys|
  {
    exists i: nat :: FirstFault(columns, keys, names, i) && ParseDir(names[i]).None?
  }

  ghost predicate NoColumn(columns: set<string>, keys: seq<string>, names: seq<string>)
    requires |names| == |keys|
  {
    exists i: nat :: FirstFault(columns, keys, names, i) && ParseDir(names[i]).Some?
  }

  /** `sort_query` */
  method SortQuery(columns: set<string>, keys: seq<string>, sortDir: Option<string>, sortDirs: Option<seq<string>>)
    returns (r: Result<seq<Dir>, Error>)
    ensures r.Ok? <==> Sortable(columns, keys, sortDir, sortDirs)
    ensures r.Ok? ==>
              var names := DirNames(|keys|, sortDir, sortDirs);
              |r.value| == |keys| && forall i | 0 <= i < |keys| :: ParseDir(names[i]) == Some(r.value[i])
    ensures r == Err(BothDirections) <==> BothGiven(sortDir, sortDirs)
    ensures r == Err(UnequalLengths) <==>
              !BothGiven(sortDir, sortDirs) && |DirNames(|keys|, sortDir, sortDirs)| != |keys|
    ensures !BothGiven(sortDir, sortDirs) && |DirNames(|keys|, sortDir, sortDirs)| == |keys| ==>
              var names := DirNames(|keys|, sortDir, sortDirs);
              && (r == Err(UnknownDirection) <==> NoDirection(columns, keys, names))
              && (r == Err(InvalidSortKey) <==> NoColumn(columns, keys, names))
    ensures r.Err? ==> r.error in {BothDirections, UnequalLengths, UnknownDirection, InvalidSortKey}
  {
    if sortDir.Some? && sortDir.value != "" && sortDirs.Some? && sortDirs.value != [] {
      return Err(BothDirections);
    }
    var name := if sortDirs.None? && sortDir.None? then Some("asc") else sortDir;
    var names := if sortDirs.Some? then sortDirs.value else seq(|keys|, i => name.value);
    if |names| != |keys| {
      return Err(UnequalLengths);
    }
    var known := map["asc" := Asc, "desc" := Desc];
    var dirs: seq<Dir> := [];
    for i := 0 to |keys|
      invariant |dirs| == i
      invariant forall j | 0 <= j < i :: ParseDir(names[j]) == Some(dirs[j])
      invariant forall j | 0 <= j < i :: SortableBy(columns, keys[j], names[j])
    {
      if names[i] !in known {
        assert FirstFault(columns, keys, names, i);
        return Err(UnknownDirection);
      }
      if keys[i] !in columns {
        assert FirstFault(columns, keys, names, i);
        return Err(InvalidSortKey);
      }
      dirs := dirs + [known[names[i]]];
    }
    return Ok(dirs);
  }

  /** One conjunction per key: equal on the keys before it, beyond the marker on it. */
  method BuildCriteria(keys: seq<string>, values: seq<int>, dirs: seq<Dir>) returns (criteria: Criteria)
    requires |keys| == |values| == |dirs|
    ensures |criteria| == |keys| && AreConjunctions(criteria, keys, values, dirs)
  {
    criteria := [];
    for i := 0 to |keys|
      invariant |criteria| == i && AreConjunctions(criteria, keys, values, dirs)
    {
      var attrs: seq<Test> := [];
      for j := 0 to i
        invariant attrs == Conjunction(keys, values, dirs, i)[..j]
      {
        attrs := attrs + [Equals(keys[j], values[j])];
      }
      if dirs[i] == Desc {
        attrs := attrs + [Less(keys[i], values[i])];
      } else {
        attrs := attrs + [Greater(keys[i], values[i])];
      }
      criteria := criteria + [attrs];
    }
  }

  lemma UnknownIsRefused(columns: set<string>, keys: seq<string>, sortDir: Option<string>)
    requires keys != [] && sortDir !in {None, Some("asc"), Some("desc")}
    ensures NoDirection(columns, keys, DirNames(|keys|, sortDir, None)) && !Sortable(columns, keys, sortDir, None)
  {
    assert !SortableBy(columns, keys[0], DirNames(|keys|, sortDir, None)[0]);
    assert FirstFault(columns, keys, DirNames(|keys|, sortDir, None), 0);
  }

  datatype Query = Query(keys: seq<string>, dirs: seq<Dir>, criteria: Option<Criteria>, limit: Option<nat>)

  /** `paginate_query`. It drops its own `sortDirs` argument: only `sortDir` reaches `sort_query`, so all
      keys are sorted in one direction whatever the caller asks for. */
  method PaginateQuery(columns: set<string>, limit: Option<nat>, keys: seq<string>, marker: Option<Row>,
                       sortDir: Option<string>, sortDirs: Option<seq<string>>) returns (r: Result<Query, Error>)
    requires marker.Some? ==> marker.value.Keys == columns
    ensures r.Ok? <==> Sortable(columns, keys, sortDir, None)
    ensures r == Err(UnknownDirection) <==> NoDirection(columns, keys, DirNames(|keys|, sortDir, None))
    ensures r == Err(InvalidSortKey) <==> NoColumn(columns, keys, DirNames(|keys|, sortDir, None))
    ensures r.Ok? ==> r.value.keys == keys && r.value.limit == limit && |r.value.dirs| == |keys|
    ensures r.Ok? && sortDir == Some("desc") ==> forall i | 0 <= i < |keys| :: r.value.dirs[i] == Desc
    ensures r.Ok? && (sortDir == Some("asc") || sortDir == None) ==>
              forall i | 0 <= i < |keys| :: r.value.dirs[i] == Asc
    ensures keys != [] && sortDir !in {None, Some("asc"), Some("desc")} ==> r == Err(UnknownDirection)
    ensures r.Ok? ==> (r.value.criteria.None? <==> marker.None?)
    ensures r.Ok? && marker.Some? ==>
              |r.value.criteria.value| == |keys|
              && AreConjunctions(r.value.criteria.value, keys, Project(marker.value, keys), r.value.dirs)
  {
    if keys != [] && sortDir !in {None, Some("asc"), Some("desc")} {
      UnknownIsRefused(columns, keys, sortDir);
    }
    var sorted := SortQuery(columns, keys, sortDir, None);
    if sorted.Err? {
      return Err(sorted.error);
    }
    var dirs := sorted.value;
    if marker.None? {
      return Ok(Query(keys, dirs, None, limit));
    }
    var values: seq<int> := [];
    for i := 0 to |keys|
      invariant values == Project(marker.value, keys)[..i]
    {
      values := values + [marker.value[keys[i]]];
    }
    var criteria := BuildCriteria(keys, values, dirs);
    return Ok(Query(keys, dirs, Some(criteria), limit));
  }

  /** `check_marker`: the marker's row as it is now; `None` stands for an identifier that is malformed. */
  method CheckMarker(table: set<Row>, id: Option<int>) returns (r: Result<Row, Error>)
    requires forall row | row in table :: "id" in row
    ensures r == Err(InvalidMarker) <==> id.None?
    ensures r.Ok? ==> id.Some? && r.value in table && r.value["id"] == id.value
    ensures r.Err? && id.Some? ==> r.error == MarkerNotFound && forall row | row in table :: row["id"] != id.value
  {
    if id.None? {
      return Err(InvalidMarker);
    }
    var found := set row | row in table && row["id"] == id.value;
    if found == {} {
      assert forall row | row in table :: row !in found;
      return Err(MarkerNotFound);
    }
    var row :| row in found;
    return Ok(row);
  }
}
