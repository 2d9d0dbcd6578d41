/** Serialisation of objects to the primitive form that travels over RPC, and back. */
module Primitives {
  import opened Wrappers

  /** A Python value: a scalar, a string, a list, a dictionary, or one of the repository's objects. */
  datatype Py =
    | Scalar(n: int)
    | Text(s: string)
    | List(items: seq<Py>)
    | Dict(entries: map<string, Py>)
    | Object(obj: Obj)

  /** `fields` holds the fields that are set. */
  datatype Obj = Obj(cls: string, fields: map<string, Py>, changes: set<string>, originals: map<string, Py>)

  /** `isList` marks a class with `ListObjectMixin`. */
  datatype Class = Class(isList: bool, declared: set<string>)

  type Registry = map<string, Class>

  const NAME := "designate_object.name"
  const DATA := "designate_object.data"
  const CHANGES := "designate_object.changes"
  const ORIGINALS := "designate_object.original_values"

  predicate IsItems(c: Class, field: string) { c.isList && field == "objects" }

  predicate LooksLikeObject(v: Py) { v.Dict? && NAME in v.entries }

  /** An object its class can build: declared fields only, and for a list object a list of objects. */
  predicate WellFormed(reg: Registry, o: Obj)
    decreases o
  {
    && o.cls in reg
    && o.fields.Keys <= reg[o.cls].declared
    && (reg[o.cls].isList ==> "objects" in o.fields)
    && forall f | f in o.fields :: FieldWellFormed(reg, reg[o.cls], f, o.fields[f])
  }

  predicate FieldWellFormed(reg: Registry, c: Class, field: string, v: Py)
    decreases v
  {
    if IsItems(c, field) then
      v.List? && forall i | 0 <= i < |v.items| :: v.items[i].Object? && WellFormed(reg, v.items[i].obj)
    else v.Object? ==> WellFormed(reg, v.obj)
  }

  /** `p` is a primitive form of `o`; the order of the change list is free. */
  predicate Encodes(reg: Registry, o: Obj, p: Py)
    requires WellFormed(reg, o)
    decreases o
  {
    && p.Dict? && p.entries.Keys == {NAME, DATA, CHANGES, ORIGINALS}
    && p.entries[NAME] == Text(o.cls)
    && p.entries[ORIGINALS] == Dict(o.originals)
    && IsListing(p.entries[CHANGES], o.changes)
    && p.entries[DATA].Dict?
    && p.entries[DATA].entries.Keys == o.fields.Keys
    && forall f | f in o.fields :: FieldEncodes(reg, reg[o.cls], f, o.fields[f], p.entries[DATA].entries[f])
  }

  predicate FieldEncodes(reg: Registry, c: Class, field: string, v: Py, q: Py)
    requires FieldWellFormed(reg, c, field, v)
    decreases v
  {
    if IsItems(c, field) then
      && q.List? && |q.items| == |v.items|
      && forall i | 0 <= i < |v.items| :: Encodes(reg, v.items[i].obj, q.items[i])
    else if v.Object? then Encodes(reg, v.obj, q)
    else q == v
  }

  predicate IsListing(q: Py, s: set<string>) {
    && q.List?
    && (forall i | 0 <= i < |q.items| :: q.items[i].Text? && q.items[i].s in s)
    && (forall n | n in s :: Text(n) in q.items)
  }

  function Listed(q: Py): set<string>
    requires q.List?
  {
    set i | 0 <= i < |q.items| && q.items[i].Text? :: q.items[i].s
  }

  /** The shape every primitive needs before its fields are looked at. */
  predicate Framed(reg: Registry, p: Py) {
    && p.Dict? && {NAME, DATA, CHANGES, ORIGINALS} <= p.entries.Keys
    && p.entries[NAME].Text? && p.entries[NAME].s in reg
    && p.entries[DATA].Dict? && p.entries[CHANGES].List? && p.entries[ORIGINALS].Dict?
    && p.entries[DATA].entries.Keys <= reg[p.entries[NAME].s].declared
  }

  /** `from_primitive`; `None` stands for an exception (a missing key, an unknown class or field). */
  function Decode(reg: Registry, p: Py): Option<Obj>
    decreases p, 0
  {
    if !Framed(reg, p) then None
    else
      var fields := DecodeData(reg, reg[p.entries[NAME].s], p.entries[DATA]);
      if fields.None? then None
      else Some(Obj(p.entries[NAME].s, fields.value, Listed(p.entries[CHANGES]), p.entries[ORIGINALS].entries))
  }

  /** A list object starts out with an empty `objects` field. */
  function Blank(c: Class): map<string, Py> {
    if c.isList then map["objects" := List([])] else map[]
  }

  function DecodeData(reg: Registry, c: Class, data: Py): (r: Option<map<string, Py>>)
    requires data.Dict?
    ensures r.None? <==> exists f | f in data.entries :: DecodeField(reg, c, f, data.entries[f]).None?
    ensures r.Some? ==> r.value == Blank(c) + map f | f in data.entries :: DecodeField(reg, c, f, data.entries[f]).value
    decreases data, 0
  {
    if exists f | f in data.entries :: DecodeField(reg, c, f, data.entries[f]).None? then None
    else Some(Blank(c) + map f | f in data.entries :: DecodeField(reg, c, f, data.entries[f]).value)
  }

  function DecodeField(reg: Registry, c: Class, field: string, q: Py): Option<Py>
    decreases q, 1
  {
    if IsItems(c, field) then
      if !q.List? then None else DecodeItems(reg, q.items)
    else if LooksLikeObject(q) then
      var o := Decode(reg, q);
      if o.None? then None else Some(Object(o.value))
    else Some(q)
  }

  function DecodeItems(reg: Registry, items: seq<Py>): (r: Option<Py>)
    ensures r.Some? ==> r.value.List? && |r.value.items| == |items|
    ensures r.Some? ==>
              forall i | 0 <= i < |items| ::
                Decode(reg, items[i]).Some? && r.value.items[i] == Object(Decode(reg, items[i]).value)
    ensures r.None? ==> exists i | 0 <= i < |items| :: Decode(reg, items[i]).None?
    decreases items
  {
    if exists i | 0 <= i < |items| :: Decode(reg, items[i]).None? then None
    else Some(List(seq(|items|, i requires 0 <= i < |items| => Object(Decode(reg, items[i]).value))))
  }

  // ---------- the loops ----------

  method ToPrimitive(reg: Registry, o: Obj) returns (p: Py)
    requires WellFormed(reg, o)
    ensures Encodes(reg, o, p)
    decreases o, 0
  {
    var c := reg[o.cls];
    var data: map<string, Py> := map[];
    var todo := o.fields.Keys;
    while todo != {}
      invariant todo <= o.fields.Keys && data.Keys == o.fields.Keys - todo
      invariant forall f | f in data :: FieldEncodes(reg, c, f, o.fields[f], data[f])
      decreases |todo|
    {
      var f :| f in todo;
      var q := FieldToPrimitive(reg, c, f, o.fields[f]);
      data := data[f := q];
      todo := todo - {f};
    }
    var names := ListNames(o.changes);
    p := Dict(map["designate_object.name" := Text(o.cls), "designate_object.data" := Dict(data),
                  "designate_object.changes" := names, "designate_object.original_values" := Dict(o.originals)]);
    Assembled(reg, o, data, names, p);
  }

  lemma Assembled(reg: Registry, o: Obj, data: map<string, Py>, names: Py, p: Py)
    requires WellFormed(reg, o) && data.Keys == o.fields.Keys && IsListing(names, o.changes)
    requires forall f | f in data :: FieldEncodes(reg, reg[o.cls], f, o.fields[f], data[f])
    requires p == Dict(map["designate_object.name" := Text(o.cls), "designate_object.data" := Dict(data),
                           "designate_object.changes" := names,
                           "designate_object.original_values" := Dict(o.originals)])
    ensures Encodes(reg, o, p)
  {
  }

  method ListNames(names: set<string>) returns (q: Py)
    ensures IsListing(q, names)
  {
    var list: seq<Py> := [];
    var left := names;
    while left != {}
      invariant left <= names
      invariant IsListing(List(list), names - left)
      decreases |left|
    {
      var n :| n in left;
      list := list + [Text(n)];
      left := left - {n};
    }
    q := List(list);
  }

  method FieldToPrimitive(reg: Registry, c: Class, field: string, v: Py) returns (q: Py)
    requires FieldWellFormed(reg, c, field, v)
    ensures FieldEncodes(reg, c, field, v, q)
    decreases v, 1
  {
    q := v;
    if c.isList && field == "objects" {
      var list: seq<Py> := [];
      for i := 0 to |v.items|
        invariant |list| == i
        invariant forall j | 0 <= j < i :: Encodes(reg, v.items[j].obj, list[j])
      {
        var item := ToPrimitive(reg, v.items[i].obj);
        list := list + [item];
      }
      q := List(list);
    } else if v.Object? {
      q := ToPrimitive(reg, v.obj);
    }
  }

  method FromPrimitive(reg: Registry, p: Py) returns (r: Option<Obj>)
    ensures r == Decode(reg, p)
    decreases p, 0
  {
    if !p.Dict? { return None; }
    if "designate_object.name" !in p.entries || "designate_object.data" !in p.entries { return None; }
    var name, data := p.entries["designate_object.name"], p.entries["designate_object.data"];
    if !name.Text? || name.s !in reg { return None; }
    var cls := reg[name.s];
    if !data.Dict? || exists f | f in data.entries :: f !in cls.declared { return None; }
    if "designate_object.changes" !in p.entries || "designate_object.original_values" !in p.entries { return None; }
    var changes, originals := p.entries["designate_object.changes"], p.entries["designate_object.original_values"];
    if !changes.List? || !originals.Dict? { return None; }
    var fields := DataFromPrimitive(reg, cls, data);
    if fields.None? { return None; }
    return Some(Obj(name.s, fields.value, Listed(changes), originals.entries));
  }

  method DataFromPrimitive(reg: Registry, c: Class, data: Py) returns (r: Option<map<string, Py>>)
    requires data.Dict?
    ensures r == DecodeData(reg, c, data)
    decreases data, 0
  {
    var fields := Blank(c);
    var todo := data.entries.Keys;
    while todo != {}
      invariant todo <= data.entries.Keys
      invariant DataSoFar(reg, c, data, todo, fields)
      decreases |todo|
    {
      var f :| f in todo;
      var v := FieldFromPrimitive(reg, c, f, data.entries[f]);
      if v.None? { return None; }
      fields := fields[f := v.value];
      todo := todo - {f};
    }
    DataComplete(reg, c, data, todo, fields);
    return Some(fields);
  }

  /** `fields` is the blank object plus the decoded form of every entry outside `todo`. */
  ghost predicate DataSoFar(reg: Registry, c: Class, data: Py, todo: set<string>, fields: map<string, Py>)
    requires data.Dict?
  {
    && fields.Keys == Blank(c).Keys + (data.entries.Keys - todo)
    && forall f | f in fields ::
         if f in data.entries && f !in todo then DecodeField(reg, c, f, data.entries[f]) == Some(fields[f])
         else fields[f] == Blank(c)[f]
  }

  lemma DataComplete(reg: Registry, c: Class, data: Py, todo: set<string>, fields: map<string, Py>)
    requires data.Dict? && todo == {} && DataSoFar(reg, c, data, todo, fields)
    ensures DecodeData(reg, c, data) == Some(fields)
  {
    assert forall f | f in data.entries :: f in fields && DecodeField(reg, c, f, data.entries[f]) == Some(fields[f]);
    assert DecodeData(reg, c, data).value == fields;
  }

  method FieldFromPrimitive(reg: Registry, c: Class, field: string, q: Py) returns (v: Option<Py>)
    ensures v == DecodeField(reg, c, field, q)
    decreases q, 1
  {
    if c.isList && field == "objects" {
      if !q.List? { return None; }
      var list: seq<Py> := [];
      for i := 0 to |q.items|
        invariant |list| == i
        invariant forall j | 0 <= j < i ::
                    Decode(reg, q.items[j]).Some? && list[j] == Object(Decode(reg, q.items[j]).value)
      {
        var item := FromPrimitive(reg, q.items[i]);
        if item.None? { return None; }
        list := list + [Object(item.value)];
      }
      assert DecodeItems(reg, q.items).Some? && DecodeItems(reg, q.items).value.items == list;
      return Some(List(list));
    } else if q.Dict? && "designate_object.name" in q.entries {
      var o := FromPrimitive(reg, q);
      return if o.None? then None else Some(Object(o.value));
    }
    return Some(q);
  }

  // ---------- round trip ----------

  /** No plain field value, at any depth of objects, is a dictionary that claims to be an object. */
  predicate Clean(reg: Registry, o: Obj)
    requires WellFormed(reg, o)
    decreases o
  {
    forall f | f in o.fields :: FieldClean(reg, reg[o.cls], f, o.fields[f])
  }

  predicate FieldClean(reg: Registry, c: Class, field: string, v: Py)
    requires FieldWellFormed(reg, c, field, v)
    decreases v
  {
    if IsItems(c, field) then forall i | 0 <= i < |v.items| :: Clean(reg, v.items[i].obj)
    else if v.Object? then Clean(reg, v.obj)
    else !(v.Dict? && "designate_object.name" in v.entries)
  }

  /** An object comes back from its primitive form, with its set fields, change set and original values,
      exactly when it is clean. */
  lemma {:induction false} RoundTrip(reg: Registry, o: Obj, p: Py)
    requires WellFormed(reg, o) && Encodes(reg, o, p)
    ensures Decode(reg, p) == Some(o) <==> Clean(reg, o)
    decreases o
  {
    var c, data := reg[o.cls], p.entries[DATA].entries;
    forall f | f in o.fields
      ensures DecodeField(reg, c, f, data[f]) == Some(o.fields[f]) <==> FieldClean(reg, c, f, o.fields[f])
    {
      FieldRoundTrip(reg, c, f, o.fields[f], data[f]);
    }
    assert Listed(p.entries[CHANGES]) == o.changes;
    if Clean(reg, o) {
      assert forall f | f in data :: DecodeField(reg, c, f, data[f]) == Some(o.fields[f]);
      var fields := map f | f in data :: DecodeField(reg, c, f, data[f]).value;
      assert fields == o.fields;
      assert Blank(c) + fields == fields;
    } else {
      var f :| f in o.fields && !FieldClean(reg, c, f, o.fields[f]);
      assert DecodeField(reg, c, f, data[f]) != Some(o.fields[f]);
    }
  }

  lemma {:induction false} FieldRoundTrip(reg: Registry, c: Class, field: string, v: Py, q: Py)
    requires FieldWellFormed(reg, c, field, v) && FieldEncodes(reg, c, field, v, q)
    ensures DecodeField(reg, c, field, q) == Some(v) <==> FieldClean(reg, c, field, v)
    decreases v
  {
    if IsItems(c, field) {
      forall i | 0 <= i < |v.items|
        ensures Decode(reg, q.items[i]) == Some(v.items[i].obj) <==> Clean(reg, v.items[i].obj)
      {
        RoundTrip(reg, v.items[i].obj, q.items[i]);
      }
      var r := DecodeItems(reg, q.items);
      if forall i | 0 <= i < |v.items| :: Clean(reg, v.items[i].obj) {
        assert r.Some? && r.value.items == v.items;
      } else {
        var i :| 0 <= i < |v.items| && !Clean(reg, v.items[i].obj);
        assert Decode(reg, q.items[i]) != Some(v.items[i].obj);
      }
    } else if v.Object? {
      RoundTrip(reg, v.obj, q);
      assert LooksLikeObject(q);
    }
  }
}
