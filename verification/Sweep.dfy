/** A periodic task's walk over a table, page by page, while other services insert and delete rows. */
module Sweep {
  import opened Wrappers
  import opened Pagination
  import Partition

  type Table = set<Row>

  /** What stays the same over a sweep: the sort keys and directions, the filter and the page size. */
  datatype Plan = Plan(columns: set<string>, keys: seq<string>, dirs: seq<Dir>, base: Row -> bool, limit: Option<nat>)

  /** The keys are columns, and the unique id is one of them. */
  predicate WellKeyed(p: Plan) {
    |p.keys| == |p.dirs| && "id" in p.keys && "id" in p.columns && forall k | k in p.keys :: k in p.columns
  }

  predicate IsTable(p: Plan, t: Table) {
    && (forall r | r in t :: r.Keys == p.columns)
    && ("id" in p.columns ==> forall a, b | a in t && b in t && a["id"] == b["id"] :: a == b)
  }

  predicate Marked(p: Plan, mark: Option<seq<int>>) {
    mark.Some? ==> |mark.value| == |p.keys|
  }

  function Key(p: Plan, r: Row): seq<int>
    requires WellKeyed(p) && r.Keys == p.columns
  {
    Project(r, p.keys)
  }

  predicate Later(p: Plan, a: Row, b: Row)
    requires WellKeyed(p) && a.Keys == p.columns && b.Keys == p.columns
  {
    After(Key(p, a), Key(p, b), p.dirs)
  }

  predicate Eligible(p: Plan, mark: Option<seq<int>>, r: Row)
    requires WellKeyed(p) && r.Keys == p.columns && Marked(p, mark)
  {
    p.base(r) && (mark.Some? ==> After(Key(p, r), mark.value, p.dirs))
  }

  /** The first eligible rows of the table in order: all of them, or `limit` of them and nothing before. */
  ghost predicate IsPage(p: Plan, t: Table, mark: Option<seq<int>>, page: seq<Row>)
    requires WellKeyed(p) && IsTable(p, t) && Marked(p, mark)
  {
    && (forall i | 0 <= i < |page| :: page[i] in t && Eligible(p, mark, page[i]))
    && (forall i, j | 0 <= i < j < |page| :: Later(p, page[j], page[i]))
    && (p.limit.Some? ==> |page| <= p.limit.value)
    && (forall r | r in t && Eligible(p, mark, r) && r !in page ::
          p.limit == Some(|page|) && forall i | 0 <= i < |page| :: Later(p, r, page[i]))
  }

  lemma SameKeySameRow(p: Plan, t: Table, a: Row, b: Row)
    requires WellKeyed(p) && IsTable(p, t) && a in t && b in t && Key(p, a) == Key(p, b)
    ensures a == b
  {
    var i :| 0 <= i < |p.keys| && p.keys[i] == "id";
    assert Key(p, a)[i] == a["id"] && Key(p, b)[i] == b["id"];
  }

  // ---------- executing a query ----------

  ghost predicate Leads(p: Plan, t: Table, seen: set<Row>, first: Row)
    requires WellKeyed(p) && IsTable(p, t)
  {
    seen <= t && first in seen && forall r | r in seen && r != first :: Later(p, r, first)
  }

  lemma LeadsStep(p: Plan, t: Table, seen: set<Row>, first: Row, r: Row)
    requires WellKeyed(p) && IsTable(p, t) && Leads(p, t, seen, first) && r in t && r !in seen
    ensures Leads(p, t, seen + {r}, if Later(p, first, r) then r else first)
  {
    if Later(p, first, r) {
      forall x | x in seen
        ensures Later(p, x, r)
      {
        if x != first {
          AfterTransitive(Key(p, x), Key(p, first), Key(p, r), p.dirs);
        }
      }
    } else {
      AfterTotal(Key(p, first), Key(p, r), p.dirs);
      if Key(p, first) == Key(p, r) {
        SameKeySameRow(p, t, first, r);
      }
    }
  }

  /** The first row of a non-empty set in sort order. */
  method FirstOf(p: Plan, t: Table, rows: set<Row>) returns (first: Row)
    requires WellKeyed(p) && IsTable(p, t) && rows <= t && rows != {}
    ensures first in rows && forall r | r in rows && r != first :: Later(p, r, first)
  {
    first :| first in rows;
    var todo := rows - {first};
    ghost var seen := {first};
    while todo != {}
      invariant todo <= rows && Leads(p, t, seen, first)
      invariant forall r :: r in rows <==> r in seen || r in todo
      invariant forall r | r in todo :: r !in seen
      decreases |todo|
    {
      var r :| r in todo;
      LeadsStep(p, t, seen, first, r);
      seen := seen + {r};
      todo := todo - {r};
      if Later(p, first, r) {
        first := r;
      }
    }
  }

  /** The rows of the page precede each other and all of the rest. */
  ghost predicate Ordered(p: Plan, t: Table, page: seq<Row>, rest: set<Row>)
    requires WellKeyed(p) && IsTable(p, t)
  {
    && rest <= t && (forall i | 0 <= i < |page| :: page[i] in t && page[i] !in rest)
    && (forall i, j | 0 <= i < j < |page| :: Later(p, page[j], page[i]))
    && (forall r | r in rest :: forall i | 0 <= i < |page| :: Later(p, r, page[i]))
  }

  lemma OrderedStep(p: Plan, t: Table, page: seq<Row>, rest: set<Row>, first: Row)
    requires WellKeyed(p) && IsTable(p, t) && Ordered(p, t, page, rest)
    requires first in rest && forall r | r in rest && r != first :: Later(p, r, first)
    ensures Ordered(p, t, page + [first], rest - {first})
  {
  }

  /** ORDER BY and LIMIT over the rows a query selects. */
  method TakePage(p: Plan, t: Table, ghost mark: Option<seq<int>>, selected: set<Row>) returns (page: seq<Row>)
    requires WellKeyed(p) && IsTable(p, t) && Marked(p, mark)
    requires forall r :: r in selected <==> r in t && Eligible(p, mark, r)
    ensures IsPage(p, t, mark, page)
  {
    page := [];
    var rest := selected;
    while rest != {} && (p.limit.Some? ==> |page| < p.limit.value)
      invariant Ordered(p, t, page, rest) && Splits(selected, page, rest)
      invariant p.limit.Some? ==> |page| <= p.limit.value
      decreases |rest|
    {
      var r := FirstOf(p, t, rest);
      OrderedStep(p, t, page, rest, r);
      page := page + [r];
      rest := rest - {r};
    }
    TakenIsPage(p, t, mark, selected, page, rest);
  }

  ghost predicate Splits(selected: set<Row>, page: seq<Row>, rest: set<Row>) {
    forall r :: r in selected <==> r in rest || r in page
  }

  lemma TakenIsPage(p: Plan, t: Table, mark: Option<seq<int>>, selected: set<Row>, page: seq<Row>, rest: set<Row>)
    requires WellKeyed(p) && IsTable(p, t) && Marked(p, mark)
    requires forall r :: r in selected <==> r in t && Eligible(p, mark, r)
    requires Ordered(p, t, page, rest) && Splits(selected, page, rest)
    requires p.limit.Some? ==> |page| <= p.limit.value
    requires rest == {} || p.limit == Some(|page|)
    ensures IsPage(p, t, mark, page)
  {
    forall i | 0 <= i < |page|
      ensures page[i] in t && Eligible(p, mark, page[i])
    {
      assert page[i] in page && page[i] in selected;
    }
    forall r | r in t && Eligible(p, mark, r) && r !in page
      ensures p.limit == Some(|page|) && forall i | 0 <= i < |page| :: Later(p, r, page[i])
    {
      assert r in selected && r in rest;
    }
  }

  /** The storage layer sorts all keys in one direction. */
  predicate OneWay(p: Plan, sortDir: string) {
    && ParseDir(sortDir).Some? && |p.dirs| == |p.keys|
    && forall i | 0 <= i < |p.dirs| :: p.dirs[i] == ParseDir(sortDir).value
  }

  /** `find_zones` with a marker, as the storage layer runs it on the table of the moment. */
  method FindPage(p: Plan, sortDir: string, t: Table, marker: Option<int>)
    returns (page: Result<seq<Row>, Error>, ghost mark: Option<seq<int>>)
    requires WellKeyed(p) && IsTable(p, t)
    requires OneWay(p, sortDir)
    ensures marker.None? ==> page.Ok? && mark == None
    ensures page.Err? ==> page.error == MarkerNotFound && marker.Some? && forall r | r in t :: r["id"] != marker.value
    ensures page.Ok? && marker.Some? ==>
              exists r | r in t :: r["id"] == marker.value && mark == Some(Key(p, r))
    ensures page.Ok? ==> Marked(p, mark) && IsPage(p, t, mark, page.value)
  {
    var row: Option<Row> := None;
    mark := None;
    if marker.Some? {
      var found := CheckMarker(t, marker);
      if found.Err? {
        return Err(found.error), None;
      }
      row := Some(found.value);
      mark := Some(Key(p, found.value));
    }
    var r := PaginateQuery(p.columns, p.limit, p.keys, row, Some(sortDir), None);
    assert Sortable(p.columns, p.keys, Some(sortDir), None);
    var q := r.value;
    assert q.dirs == p.dirs;
    if row.Some? {
      forall x | x in t
        ensures forall i | 0 <= i < |q.criteria.value| :: Speaks(q.criteria.value[i], x.Keys)
        ensures Passes(q.criteria.value, x) <==> After(Key(p, x), mark.value, p.dirs)
      {
        CriteriaMeanAfter(q.criteria.value, p.keys, mark.value, p.dirs, x);
      }
    }
    var selected := set x | x in t && p.base(x) && (q.criteria.Some? ==> Passes(q.criteria.value, x));
    var taken := TakePage(p, t, mark, selected);
    page := Ok(taken);
  }

  // ---------- the sweep ----------

  /** `Cut` means the sweep was still going when the recorded history ended. */
  datatype Ending = Finished | MarkerLost | Cut

  function IdOf(r: Row): Option<int> { if "id" in r then Some(r["id"]) else None }

  function Last(page: seq<Row>): Row
    requires page != []
  {
    page[|page| - 1]
  }

  /** One fetch: the marker's key in the table as it was then, and the page read. */
  datatype Fetch = Fetch(mark: Option<seq<int>>, page: seq<Row>)

  ghost predicate Fetched(p: Plan, t: Table, f: Fetch)
    requires WellKeyed(p)
  {
    IsTable(p, t) && Marked(p, f.mark) && IsPage(p, t, f.mark, f.page)
  }

  /** `mark` is the key that the last row of the page has in the table `t`. */
  ghost predicate MarksLast(p: Plan, page: seq<Row>, t: Table, mark: Option<seq<int>>)
    requires WellKeyed(p) && IsTable(p, t)
  {
    page != [] && exists r | r in t :: IdOf(r) == IdOf(Last(page)) && mark == Some(Key(p, r))
  }

  /** Fetch k was made on table k, behind the last row of fetch k - 1 as table k has it. */
  ghost predicate Swept(p: Plan, tables: seq<Table>, fs: seq<Fetch>)
    requires WellKeyed(p)
  {
    && |fs| <= |tables|
    && (forall k | 0 <= k < |fs| :: Fetched(p, tables[k], fs[k]))
    && (fs != [] ==> fs[0].mark == None)
    && (forall k | 0 <= k < |fs| - 1 :: MarksLast(p, fs[k].page, tables[k + 1], fs[k + 1].mark))
  }

  lemma SweptSnoc(p: Plan, tables: seq<Table>, fs: seq<Fetch>, f: Fetch)
    requires WellKeyed(p) && |fs| < |tables| && Swept(p, tables, fs) && Fetched(p, tables[|fs|], f)
    requires if fs == [] then f.mark == None else MarksLast(p, fs[|fs| - 1].page, tables[|fs|], f.mark)
    ensures Swept(p, tables, fs + [f])
  {
  }

  function Flatten(fs: seq<Fetch>): seq<Row> {
    if fs == [] then [] else Flatten(fs[..|fs| - 1]) + fs[|fs| - 1].page
  }

  /** The id of the last row read, or nothing before the first page. */
  function LastId(fs: seq<Fetch>): Option<int> {
    if fs == [] || fs[|fs| - 1].page == [] then None else IdOf(Last(fs[|fs| - 1].page))
  }

  predicate Lost(t: Table, id: Option<int>) {
    forall r | r in t :: IdOf(r) != id
  }

  /** One turn of the loop of `_iter`, behind the fetches made so far. */
  method FetchNext(p: Plan, sortDir: string, tables: seq<Table>, marker: Option<int>, ghost fs: seq<Fetch>, k: nat)
    returns (page: Result<seq<Row>, Error>, ghost more: seq<Fetch>)
    requires WellKeyed(p) && OneWay(p, sortDir)
    requires k == |fs| < |tables| && IsTable(p, tables[k]) && Swept(p, tables, fs)
    requires marker == LastId(fs) && (fs != [] ==> fs[k - 1].page != [])
    ensures page.Err? ==> more == fs && fs != [] && Lost(tables[k], LastId(fs))
    ensures page.Ok? ==> Swept(p, tables, more) && |more| == k + 1 && more[k].page == page.value
    ensures page.Ok? ==> Flatten(more) == Flatten(fs) + page.value
    ensures page.Ok? && page.value != [] ==> LastId(more) == IdOf(Last(page.value)) != None
  {
    ghost var mark;
    page, mark := FindPage(p, sortDir, tables[k], marker);
    more := fs;
    if page.Ok? {
      ghost var f := Fetch(mark, page.value);
      SweptSnoc(p, tables, fs, f);
      more := fs + [f];
      assert more[..k] == fs;
    }
  }

  /** The row was in one of the first `n` tables and passed the filter. */
  ghost predicate Offered(p: Plan, tables: seq<Table>, n: nat, r: Row)
    requires n <= |tables|
  {
    p.base(r) && exists k | 0 <= k < n :: r in tables[k]
  }

  lemma {:induction false} FlattenOffered(p: Plan, tables: seq<Table>, fs: seq<Fetch>, n: nat)
    requires WellKeyed(p) && Swept(p, tables, fs) && n <= |fs|
    ensures forall r | r in Flatten(fs[..n]) :: Offered(p, tables, n, r)
  {
    if n > 0 {
      FlattenOffered(p, tables, fs, n - 1);
      assert fs[..n][..n - 1] == fs[..n - 1];
      assert Fetched(p, tables[n - 1], fs[n - 1]);
      forall r | r in Flatten(fs[..n])
        ensures Offered(p, tables, n, r)
      {
        if r in Flatten(fs[..n - 1]) {
          var k :| 0 <= k < n - 1 && r in tables[k];
        } else {
          assert r in tables[n - 1];
        }
      }
    }
  }

  /** `_iter`; `tables[k]` is the table as the k-th fetch finds it. */
  method Iter(p: Plan, sortDir: string, tables: seq<Table>)
    returns (yielded: seq<Row>, ending: Ending, ghost fs: seq<Fetch>)
    requires WellKeyed(p) && OneWay(p, sortDir)
    requires forall k | 0 <= k < |tables| :: IsTable(p, tables[k])
    ensures Swept(p, tables, fs) && yielded == Flatten(fs)
    ensures forall r | r in yielded :: Offered(p, tables, |tables|, r)
    ensures ending == Finished <==> fs != [] && fs[|fs| - 1].page == []
    ensures ending == Cut ==> |fs| == |tables|
    ensures ending == MarkerLost ==>
              0 < |fs| < |tables| && fs[|fs| - 1].page != [] && Lost(tables[|fs|], LastId(fs))
  {
    yielded, ending, fs := [], Cut, [];
    var marker: Option<int> := None;
    for k := 0 to |tables|
      invariant |fs| == k && Swept(p, tables, fs) && yielded == Flatten(fs) && ending == Cut
      invariant (k > 0 ==> fs[k - 1].page != []) && marker == LastId(fs)
    {
      var items;
      items, fs := FetchNext(p, sortDir, tables, marker, fs, k);
      if items.Err? {
        ending := MarkerLost;
        break;
      }
      yielded := yielded + items.value;
      if |items.value| == 0 {
        ending := Finished;
        break;
      }
      marker := IdOf(Last(items.value));
    }
    FlattenOffered(p, tables, fs, |fs|);
    assert fs[..|fs|] == fs;
  }

  // ---------- exactly once ----------

  function Times(rows: seq<Row>, id: int): nat {
    if rows == [] then 0 else Times(rows[..|rows| - 1], id) + if IdOf(rows[|rows| - 1]) == Some(id) then 1 else 0
  }

  lemma {:induction false} TimesAppend(a: seq<Row>, b: seq<Row>, id: int)
    ensures Times(a + b, id) == Times(a, id) + Times(b, id)
  {
    if b == [] {
      assert a + b == a;
    } else {
      TimesAppend(a, b[..|b| - 1], id);
      assert (a + b)[..|a + b| - 1] == a + b[..|b| - 1];
    }
  }

  lemma {:induction false} TimesNone(rows: seq<Row>, id: int)
    requires forall i | 0 <= i < |rows| :: IdOf(rows[i]) != Some(id)
    ensures Times(rows, id) == 0
  {
    if rows != [] {
      TimesNone(rows[..|rows| - 1], id);
    }
  }

  /** A list whose rows with this id are all the same row, and which repeats no row. */
  lemma {:induction false} TimesOfRow(rows: seq<Row>, row: Row, id: int)
    requires IdOf(row) == Some(id)
    requires forall i | 0 <= i < |rows| && IdOf(rows[i]) == Some(id) :: rows[i] == row
    requires forall i, j | 0 <= i < j < |rows| :: rows[i] != rows[j]
    ensures Times(rows, id) == if row in rows then 1 else 0
  {
    if rows != [] {
      var n := |rows| - 1;
      TimesOfRow(rows[..n], row, id);
      assert row in rows <==> row in rows[..n] || row == rows[n];
    }
  }

  /** A row of the table is on a non-empty page exactly when it is eligible and not after the last row. */
  lemma PageHolds(p: Plan, t: Table, f: Fetch, row: Row)
    requires WellKeyed(p) && Fetched(p, t, f) && row in t && f.page != []
    ensures row in f.page <==> Eligible(p, f.mark, row) && !Later(p, row, Last(f.page))
  {
    if row in f.page {
      var i :| 0 <= i < |f.page| && f.page[i] == row;
      if Later(p, row, Last(f.page)) {
        if i < |f.page| - 1 {
          AfterTransitive(Key(p, row), Key(p, Last(f.page)), Key(p, row), p.dirs);
        }
        AfterIrreflexive(Key(p, row), p.dirs);
      }
    }
  }

  lemma PageTimes(p: Plan, t: Table, f: Fetch, row: Row, id: int)
    requires WellKeyed(p) && Fetched(p, t, f) && row in t && row["id"] == id
    ensures Times(f.page, id) == if row in f.page then 1 else 0
  {
    forall i, j | 0 <= i < j < |f.page|
      ensures f.page[i] != f.page[j]
    {
      AfterIrreflexive(Key(p, f.page[i]), p.dirs);
    }
    TimesOfRow(f.page, row, id);
  }

  /** No marker row had its sort keys changed between being read and being looked up. */
  ghost predicate MarkersStill(p: Plan, tables: seq<Table>, fs: seq<Fetch>)
    requires WellKeyed(p) && Swept(p, tables, fs)
  {
    forall k | 0 <= k < |fs| - 1 :: fs[k].page != [] && fs[k + 1].mark == Some(Key(p, Last(fs[k].page)))
  }

  /** In each of the first `n` tables the row with this id passes the filter and has these sort keys. */
  ghost predicate Stays(p: Plan, tables: seq<Table>, n: nat, id: int, keys: seq<int>)
    requires WellKeyed(p) && n <= |tables| && forall k | 0 <= k < n :: IsTable(p, tables[k])
  {
    forall k | 0 <= k < n :: StaysIn(p, tables[k], id, keys)
  }

  ghost predicate StaysIn(p: Plan, t: Table, id: int, keys: seq<int>)
    requires WellKeyed(p) && IsTable(p, t)
  {
    exists r | r in t :: r["id"] == id && p.base(r) && Key(p, r) == keys
  }

  /** A non-empty page holds a settled row once if its keys lie between the marker and the last row, else not. */
  lemma PageTally(p: Plan, t: Table, f: Fetch, id: int, keys: seq<int>)
    requires WellKeyed(p) && Fetched(p, t, f) && f.page != [] && StaysIn(p, t, id, keys)
    ensures |keys| == |p.keys|
    ensures Times(f.page, id) ==
            if (f.mark.Some? ==> After(keys, f.mark.value, p.dirs)) && !After(keys, Key(p, Last(f.page)), p.dirs)
            then 1 else 0
  {
    var row :| row in t && row["id"] == id && p.base(row) && Key(p, row) == keys;
    PageHolds(p, t, f, row);
    PageTimes(p, t, f, row, id);
  }

  lemma TimesOfPage(fs: seq<Fetch>, k: nat, id: int)
    requires k < |fs|
    ensures Times(Flatten(fs[..k + 1]), id) == Times(Flatten(fs[..k]), id) + Times(fs[k].page, id)
  {
    assert fs[..k + 1][..k] == fs[..k];
    TimesAppend(Flatten(fs[..k]), fs[k].page, id);
  }

  function ReadBy(p: Plan, keys: seq<int>, mark: Option<seq<int>>): nat
    requires |keys| == |p.dirs| && (mark.Some? ==> |mark.value| == |p.dirs|)
  {
    if mark.None? || After(keys, mark.value, p.dirs) then 0 else 1
  }

  /** One page takes the count from where its marker leaves it to where its last row does. */
  lemma ReadStep(p: Plan, t: Table, f: Fetch, id: int, keys: seq<int>)
    requires WellKeyed(p) && Fetched(p, t, f) && f.page != [] && StaysIn(p, t, id, keys)
    ensures |keys| == |p.keys|
    ensures ReadBy(p, keys, f.mark) + Times(f.page, id) == ReadBy(p, keys, Some(Key(p, Last(f.page))))
  {
    PageTally(p, t, f, id, keys);
    if f.mark.Some? {
      LastIsPastMark(p, t, f);
      NotYetStaysNotYet(keys, Key(p, Last(f.page)), f.mark.value, p.dirs);
    }
  }

  /** The first fetch has a last row, and the one after it a marker key. */
  ghost predicate Follows(p: Plan, f: Fetch, next: Fetch)
    requires WellKeyed(p)
  {
    f.page != [] && Last(f.page).Keys == p.columns && next.mark.Some? && Marked(p, next.mark)
  }

  ghost predicate Chained(p: Plan, fs: seq<Fetch>)
    requires WellKeyed(p)
  {
    forall k | 0 <= k < |fs| - 1 :: Follows(p, fs[k], fs[k + 1])
  }

  lemma SweptIsChained(p: Plan, tables: seq<Table>, fs: seq<Fetch>)
    requires WellKeyed(p) && Swept(p, tables, fs)
    ensures Chained(p, fs)
  {
    forall k | 0 <= k < |fs| - 1
      ensures Follows(p, fs[k], fs[k + 1])
    {
      assert MarksLast(p, fs[k].page, tables[k + 1], fs[k + 1].mark);
      assert Fetched(p, tables[k], fs[k]) && Fetched(p, tables[k + 1], fs[k + 1]);
    }
  }

  /** A marker row that moved back over the keys between being read and being looked up counts 1, one that moved
      forward over them -1. */
  ghost function Jump(p: Plan, keys: seq<int>, f: Fetch, next: Fetch): int
    requires WellKeyed(p) && Follows(p, f, next) && |keys| == |p.keys|
  {
    ReadBy(p, keys, Some(Key(p, Last(f.page)))) - ReadBy(p, keys, next.mark)
  }

  /** The net jumps of the first `n` markers. */
  ghost function Jumps(p: Plan, fs: seq<Fetch>, keys: seq<int>, n: nat): int
    requires WellKeyed(p) && Chained(p, fs) && |keys| == |p.keys| && (n > 0 ==> n < |fs|)
  {
    if n == 0 then 0
    else
      assert Follows(p, fs[n - 1], fs[n - 1 + 1]);
      Jumps(p, fs, keys, n - 1) + Jump(p, keys, fs[n - 1], fs[n])
  }

  /** After each non-empty page the row has been read once if its keys are not past that page, else not yet, plus
      once for each net jump back over it. */
  lemma {:induction false} ReadSoFar(p: Plan, tables: seq<Table>, fs: seq<Fetch>, k: nat, id: int, keys: seq<int>)
    requires WellKeyed(p) && Chained(p, fs) && k < |fs| <= |tables| && |keys| == |p.keys|
    requires fs[0].mark == None && fs[k].page != [] && Last(fs[k].page).Keys == p.columns
    requires forall j | 0 <= j <= k :: FetchedBeside(p, tables[j], fs[j], id, keys)
    ensures Times(Flatten(fs[..k + 1]), id) == ReadBy(p, keys, Some(Key(p, Last(fs[k].page)))) + Jumps(p, fs, keys, k)
  {
    assert FetchedBeside(p, tables[k], fs[k], id, keys);
    TimesOfPage(fs, k, id);
    ReadStep(p, tables[k], fs[k], id, keys);
    if k > 0 {
      assert Follows(p, fs[k - 1], fs[k - 1 + 1]);
      ReadSoFar(p, tables, fs, k - 1, id, keys);
    }
  }

  /** A fetch made while the row with this id was there. */
  ghost predicate FetchedBeside(p: Plan, t: Table, f: Fetch, id: int, keys: seq<int>)
    requires WellKeyed(p)
  {
    Fetched(p, t, f) && StaysIn(p, t, id, keys)
  }

  lemma NotYetStaysNotYet(keys: seq<int>, last: seq<int>, mark: seq<int>, dirs: seq<Dir>)
    requires |keys| == |last| == |mark| == |dirs| && After(last, mark, dirs)
    ensures After(keys, last, dirs) ==> After(keys, mark, dirs)
  {
    if After(keys, last, dirs) {
      AfterTransitive(keys, last, mark, dirs);
    }
  }

  lemma LastIsPastMark(p: Plan, t: Table, f: Fetch)
    requires WellKeyed(p) && Fetched(p, t, f) && f.page != [] && f.mark.Some?
    ensures After(Key(p, Last(f.page)), f.mark.value, p.dirs)
  {
  }

  /** An empty page means nothing is left behind the marker. */
  lemma EmptyPage(p: Plan, t: Table, f: Fetch, row: Row)
    requires WellKeyed(p) && Fetched(p, t, f) && row in t && f.page == [] && p.limit != Some(0)
    ensures !Eligible(p, f.mark, row)
  {
  }

  /** How often a finished sweep yields a row that stays in the table, with its filter columns and sort keys, for
      the whole sweep: once, plus the net jumps of the markers over it. Nothing else that happens to the other
      rows matters. */
  lemma SweepCount(p: Plan, tables: seq<Table>, fs: seq<Fetch>, id: int, keys: seq<int>)
    requires WellKeyed(p) && p.limit != Some(0)
    requires Swept(p, tables, fs) && fs != [] && fs[|fs| - 1].page == []
    requires Stays(p, tables, |fs|, id, keys) && |keys| == |p.keys|
    ensures Chained(p, fs)
    ensures Times(Flatten(fs), id) == 1 + Jumps(p, fs, keys, |fs| - 1)
  {
    var n := |fs| - 1;
    SweptIsChained(p, tables, fs);
    assert StaysIn(p, tables[n], id, keys);
    var row :| row in tables[n] && row["id"] == id && p.base(row) && Key(p, row) == keys;
    assert Fetched(p, tables[n], fs[n]);
    EmptyPage(p, tables[n], fs[n], row);
    assert Flatten(fs) == Flatten(fs[..n]);
    assert n > 0 && ReadBy(p, keys, fs[n].mark) == 1;
    assert Follows(p, fs[n - 1], fs[n - 1 + 1]);
    ReadSoFar(p, tables, fs, n - 1, id, keys);
    assert fs[..n - 1 + 1] == fs[..n];
  }

  lemma {:induction false} StillMeansNoJumps(p: Plan, tables: seq<Table>, fs: seq<Fetch>, keys: seq<int>, n: nat)
    requires WellKeyed(p) && Swept(p, tables, fs) && MarkersStill(p, tables, fs)
    requires Chained(p, fs) && |keys| == |p.keys| && (n > 0 ==> n < |fs|)
    ensures Jumps(p, fs, keys, n) == 0
  {
    if n > 0 {
      StillMeansNoJumps(p, tables, fs, keys, n - 1);
      assert fs[n - 1 + 1].mark == Some(Key(p, Last(fs[n - 1].page)));
    }
  }

  /** With markers that keep their sort keys, each such row is yielded exactly once. */
  lemma SweepYieldsOnce(p: Plan, tables: seq<Table>, fs: seq<Fetch>, id: int, keys: seq<int>)
    requires WellKeyed(p) && p.limit != Some(0)
    requires Swept(p, tables, fs) && MarkersStill(p, tables, fs) && fs != [] && fs[|fs| - 1].page == []
    requires Stays(p, tables, |fs|, id, keys) && |keys| == |p.keys|
    ensures Times(Flatten(fs), id) == 1
  {
    SweepCount(p, tables, fs, id, keys);
    StillMeansNoJumps(p, tables, fs, keys, |fs| - 1);
  }

  /** The sort keys of a caller that asks for none: creation time, then id. */
  predicate InCreationOrder(p: Plan) { p.keys == ["created_at", "id"] }

  /** A row that is in both tables has one creation time. */
  ghost predicate SameCreation(p: Plan, t: Table, u: Table)
    requires WellKeyed(p) && InCreationOrder(p) && IsTable(p, t) && IsTable(p, u)
  {
    forall a, b | a in t && b in u && a["id"] == b["id"] :: a["created_at"] == b["created_at"]
  }

  /** The creation time of a row is written once. */
  ghost predicate CreationTimesStay(p: Plan, tables: seq<Table>)
    requires WellKeyed(p) && InCreationOrder(p)
  {
    && (forall k | 0 <= k < |tables| :: IsTable(p, tables[k]))
    && forall j, k | 0 <= j < |tables| && 0 <= k < |tables| :: SameCreation(p, tables[j], tables[k])
  }

  /** In creation order no marker ever moves. */
  lemma CreationOrderIsStill(p: Plan, tables: seq<Table>, fs: seq<Fetch>)
    requires WellKeyed(p) && InCreationOrder(p) && CreationTimesStay(p, tables) && Swept(p, tables, fs)
    ensures MarkersStill(p, tables, fs)
  {
    forall k | 0 <= k < |fs| - 1
      ensures fs[k].page != [] && fs[k + 1].mark == Some(Key(p, Last(fs[k].page)))
    {
      assert MarksLast(p, fs[k].page, tables[k + 1], fs[k + 1].mark);
      var r :| r in tables[k + 1] && IdOf(r) == IdOf(Last(fs[k].page)) && fs[k + 1].mark == Some(Key(p, r));
      assert Fetched(p, tables[k], fs[k]);
      SameCreationSameKey(p, tables, r, k + 1, Last(fs[k].page), k);
    }
  }

  lemma SameCreationSameKey(p: Plan, tables: seq<Table>, a: Row, j: nat, b: Row, k: nat)
    requires WellKeyed(p) && InCreationOrder(p) && CreationTimesStay(p, tables) && j < |tables| && k < |tables|
    requires a in tables[j] && b in tables[k] && IdOf(a) == IdOf(b)
    ensures Key(p, a) == Key(p, b)
  {
    assert IsTable(p, tables[j]) && IsTable(p, tables[k]);
    assert p.keys[0] == "created_at" && p.keys[1] == "id";
    assert SameCreation(p, tables[j], tables[k]);
    assert a["id"] == b["id"] && a["created_at"] == b["created_at"];
  }

  // ---------- a table that does not change ----------

  lemma {:induction false} FixedMarkersStill(p: Plan, tables: seq<Table>, fs: seq<Fetch>)
    requires WellKeyed(p) && Swept(p, tables, fs)
    requires forall k | 0 <= k < |tables| :: tables[k] == tables[0]
    ensures MarkersStill(p, tables, fs)
  {
    forall k | 0 <= k < |fs| - 1
      ensures fs[k].page != [] && fs[k + 1].mark == Some(Key(p, Last(fs[k].page)))
    {
      assert Fetched(p, tables[k], fs[k]) && MarksLast(p, fs[k].page, tables[k + 1], fs[k + 1].mark);
    }
  }

  /** The last rows of the pages read so far: all different, all in the table, none past the latest. */
  lemma {:induction false} LastRowsDiffer(p: Plan, tables: seq<Table>, fs: seq<Fetch>, k: nat) returns (lasts: set<Row>)
    requires WellKeyed(p) && Swept(p, tables, fs) && MarkersStill(p, tables, fs) && k < |fs| && fs[k].page != []
    requires forall j | 0 <= j < |tables| :: tables[j] == tables[0]
    ensures lasts <= tables[0] && |lasts| == k + 1
    ensures forall r | r in lasts :: r.Keys == p.columns && !Later(p, r, Last(fs[k].page))
  {
    var last := Last(fs[k].page);
    assert Fetched(p, tables[k], fs[k]);
    AfterIrreflexive(Key(p, last), p.dirs);
    if k == 0 {
      lasts := {last};
    } else {
      var before := LastRowsDiffer(p, tables, fs, k - 1);
      var previous := Last(fs[k - 1].page);
      LastIsPastMark(p, tables[k], fs[k]);
      assert Fetched(p, tables[k - 1], fs[k - 1]);
      assert Later(p, last, previous);
      forall r | r in before
        ensures !Later(p, r, last)
      {
        if Later(p, r, last) {
          AfterTransitive(Key(p, r), Key(p, last), Key(p, previous), p.dirs);
        }
      }
      lasts := before + {last};
    }
  }

  /** On a table that does not change, a sweep fetches at most one page per row before the empty one. */
  lemma FixedSweepEnds(p: Plan, tables: seq<Table>, fs: seq<Fetch>)
    requires WellKeyed(p) && Swept(p, tables, fs) && fs != [] && fs[|fs| - 1].page != []
    requires forall j | 0 <= j < |tables| :: tables[j] == tables[0]
    ensures |fs| <= |tables[0]|
  {
    FixedMarkersStill(p, tables, fs);
    var lasts := LastRowsDiffer(p, tables, fs, |fs| - 1);
    assert tables[0] == lasts + (tables[0] - lasts);
  }

  /** A whole sweep of a table nobody else touches. */
  method IterFixed(p: Plan, sortDir: string, t: Table) returns (yielded: seq<Row>, ending: Ending)
    requires WellKeyed(p) && OneWay(p, sortDir) && IsTable(p, t) && p.limit != Some(0)
    ensures ending == Finished
    ensures forall r | r in t && p.base(r) :: Times(yielded, r["id"]) == 1
  {
    var tables := seq(|t| + 1, i => t);
    ghost var fs;
    yielded, ending, fs := Iter(p, sortDir, tables);
    assert fs != [] && Fetched(p, tables[|fs| - 1], fs[|fs| - 1]);
    if fs[|fs| - 1].page != [] {
      assert Last(fs[|fs| - 1].page) in t;
      FixedSweepEnds(p, tables, fs);
      assert false;
    }
    FixedMarkersStill(p, tables, fs);
    forall r | r in t && p.base(r)
      ensures Times(yielded, r["id"]) == 1
    {
      SweepYieldsOnce(p, tables, fs, r["id"], Key(p, r));
    }
  }
}
