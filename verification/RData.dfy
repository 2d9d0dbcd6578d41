/** Text form of MX, SOA and SSHFP record data (sections 3.3.9 and 3.3.13 of RFC 1035, section 3.2 of
    RFC 4255): printing, parsing and the round trips between the two. */
module RData {
  import opened Wrappers
  import opened Text

  datatype Mx = Mx(priority: int, exchange: string)

  datatype Soa = Soa(mname: string, rname: string, serial: int, refresh: int, retry: int,
                     expire: int, minimum: int)

  datatype Sshfp = Sshfp(algorithm: int, fpType: int, fingerprint: string)

  /** The guard `repr(int(v)) == v`; `int` raising counts as a failed guard. */
  predicate Canonical(v: string) {
    PyInt(v).Some? && Repr(PyInt(v).value) == v
  }

  /** Canonical texts are "0" and those that start with a digit other than 0, after a minus sign or not. */
  lemma CanonicalMeans(v: string)
    ensures Canonical(v) <==> Plain(v) || (v != "" && v[0] == '-' && Plain(v[1..]) && v[1..] != "0")
  {
    ReprMeans(v);
  }

  // ---------- MX ----------

  function MxToString(r: Mx): string {
    Join([Repr(r.priority), r.exchange], ' ')
  }

  function MxFromString(v: string): Option<Mx> {
    var p := Split(v, ' ');
    if |p| == 2 && Canonical(p[0]) then Some(Mx(PyInt(p[0]).value, p[1])) else None
  }

  /** Parsing undoes printing exactly for exchanges without a space. */
  lemma MxPrintParse(r: Mx)
    ensures MxFromString(MxToString(r)) == Some(r) <==> ' ' !in r.exchange
  {
    ReprHasNoSpace(r.priority);
    PyIntRepr(r.priority);
    if ' ' !in r.exchange {
      SplitJoin([Repr(r.priority), r.exchange], ' ');
    }
    SplitHasNoSep(MxToString(r), ' ');
  }

  /** Printing undoes parsing for every accepted string. */
  lemma MxParsePrint(v: string)
    requires MxFromString(v).Some?
    ensures MxToString(MxFromString(v).value) == v
  {
    JoinSplit(v, ' ');
    var p := Split(v, ' ');
    assert p == [p[0], p[1]];
  }

  class MxRecord {
    var data: Mx

    constructor (data: Mx)
      ensures this.data == data
    {
      this.data := data;
    }

    /** `_from_string`; `false` stands for `ValueError`, which leaves the fields alone. */
    method FromString(value: string) returns (ok: bool)
      modifies this
      ensures ok == MxFromString(value).Some?
      ensures data == if ok then MxFromString(value).value else old(data)
    {
      var parts := Split(value, ' ');
      if |parts| != 2 {
        return false;
      }
      var priority, exchange := parts[0], parts[1];
      var n := PyInt(priority);
      if n.None? || Repr(n.value) != priority {
        return false;
      }
      data := data.(priority := n.value);
      data := data.(exchange := exchange);
      return true;
    }
  }

  // ---------- SSHFP ----------

  function SshfpToString(r: Sshfp): string {
    Join([Repr(r.algorithm), Repr(r.fpType), r.fingerprint], ' ')
  }

  function SshfpFromString(v: string): Option<Sshfp> {
    var p := Split(v, ' ');
    if |p| == 3 && Canonical(p[0]) && Canonical(p[1])
    then Some(Sshfp(PyInt(p[0]).value, PyInt(p[1]).value, p[2]))
    else None
  }

  lemma SshfpPrintParse(r: Sshfp)
    ensures SshfpFromString(SshfpToString(r)) == Some(r) <==> ' ' !in r.fingerprint
  {
    ReprHasNoSpace(r.algorithm);
    ReprHasNoSpace(r.fpType);
    PyIntRepr(r.algorithm);
    PyIntRepr(r.fpType);
    if ' ' !in r.fingerprint {
      SplitJoin([Repr(r.algorithm), Repr(r.fpType), r.fingerprint], ' ');
    }
    SplitHasNoSep(SshfpToString(r), ' ');
  }

  lemma SshfpParsePrint(v: string)
    requires SshfpFromString(v).Some?
    ensures SshfpToString(SshfpFromString(v).value) == v
  {
    JoinSplit(v, ' ');
    var p := Split(v, ' ');
    assert p == [p[0], p[1], p[2]];
  }

  class SshfpRecord {
    var data: Sshfp

    constructor (data: Sshfp)
      ensures this.data == data
    {
      this.data := data;
    }

    /** `_from_string`, with its loop over the two-element set of numeric fields. */
    method FromString(value: string) returns (ok: bool)
      modifies this
      ensures ok == SshfpFromString(value).Some?
      ensures data == if ok then SshfpFromString(value).value else old(data)
    {
      var parts := Split(value, ' ');
      if |parts| != 3 {
        return false;
      }
      var todo := {parts[0], parts[1]};
      while todo != {}
        invariant todo <= {parts[0], parts[1]}
        invariant forall v | v in {parts[0], parts[1]} - todo :: Canonical(v)
        invariant data == old(data)
        decreases |todo|
      {
        var v :| v in todo;
        var n := PyInt(v);
        if n.None? || Repr(n.value) != v {
          return false;
        }
        todo := todo - {v};
      }
      assert parts[0] in {parts[0], parts[1]} - todo;
      assert parts[1] in {parts[0], parts[1]} - todo;
      data := data.(algorithm := PyInt(parts[0]).value);
      data := data.(fpType := PyInt(parts[1]).value);
      data := data.(fingerprint := parts[2]);
      return true;
    }
  }

  // ---------- SOA ----------

  /** `int` applied to each word, stopping at the first `ValueError`. */
  function ParseAll(words: seq<string>): (r: Option<seq<int>>)
    ensures r.Some? ==> |r.value| == |words| && forall i | 0 <= i < |words| :: PyInt(words[i]) == Some(r.value[i])
    ensures r.Some? <==> forall w | w in words :: PyInt(w).Some?
  {
    if |words| == 0 then Some([])
    else
      var n, rest := PyInt(words[0]), ParseAll(words[1..]);
      if n.None? || rest.None? then None else Some([n.value] + rest.value)
  }

  function ReprAll(ns: seq<int>): (r: seq<string>)
    ensures |r| == |ns| && forall i | 0 <= i < |ns| :: r[i] == Repr(ns[i])
  {
    if |ns| == 0 then [] else [Repr(ns[0])] + ReprAll(ns[1..])
  }

  lemma {:induction false} ParseAllReprAll(ns: seq<int>)
    ensures ParseAll(ReprAll(ns)) == Some(ns)
    ensures forall w | w in ReprAll(ns) :: ' ' !in w
  {
    if |ns| > 0 {
      ParseAllReprAll(ns[1..]);
      PyIntRepr(ns[0]);
      ReprHasNoSpace(ns[0]);
      assert ReprAll(ns)[1..] == ReprAll(ns[1..]);
      assert ns == [ns[0]] + ns[1..];
    }
  }

  lemma {:induction false} ReprAllParseAll(words: seq<string>)
    requires ParseAll(words).Some?
    ensures ReprAll(ParseAll(words).value) == words <==> forall i | 0 <= i < |words| :: Canonical(words[i])
  {
    var ns := ParseAll(words).value;
    forall i | 0 <= i < |words|
      ensures Canonical(words[i]) <==> ReprAll(ns)[i] == words[i]
    {
    }
  }

  /** The five numbers of an SOA record in wire order. */
  function Numbers(r: Soa): seq<int> {
    [r.serial, r.refresh, r.retry, r.expire, r.minimum]
  }

  function SoaOf(mname: string, rname: string, ns: seq<int>): Soa
    requires |ns| == 5
  {
    Soa(mname, rname, ns[0], ns[1], ns[2], ns[3], ns[4])
  }

  function SoaToString(r: Soa): string {
    Join([r.mname, r.rname] + ReprAll(Numbers(r)), ' ')
  }

  function SoaFromString(v: string): Option<Soa> {
    var p := Split(v, ' ');
    if |p| == 7 && ParseAll(p[2..]).Some? then Some(SoaOf(p[0], p[1], ParseAll(p[2..]).value)) else None
  }

  lemma SoaSplit(r: Soa)
    requires ' ' !in r.mname && ' ' !in r.rname
    ensures Split(SoaToString(r), ' ') == [r.mname, r.rname] + ReprAll(Numbers(r))
  {
    ParseAllReprAll(Numbers(r));
    SplitJoin([r.mname, r.rname] + ReprAll(Numbers(r)), ' ');
  }

  lemma SoaPrintParse(r: Soa)
    ensures SoaFromString(SoaToString(r)) == Some(r) <==> ' ' !in r.mname && ' ' !in r.rname
  {
    var p := Split(SoaToString(r), ' ');
    if ' ' !in r.mname && ' ' !in r.rname {
      SoaSplit(r);
      ParseAllReprAll(Numbers(r));
      assert p[2..] == ReprAll(Numbers(r));
    }
    SplitHasNoSep(SoaToString(r), ' ');
  }

  lemma SoaOfSplit(mname: string, rname: string, ns: seq<int>)
    requires |ns| == 5 && ' ' !in mname && ' ' !in rname
    ensures Split(SoaToString(SoaOf(mname, rname, ns)), ' ') == [mname, rname] + ReprAll(ns)
  {
    SoaSplit(SoaOf(mname, rname, ns));
    assert Numbers(SoaOf(mname, rname, ns)) == ns;
  }

  lemma SoaPrintsItsWords(v: string)
    requires SoaFromString(v).Some?
    ensures var p, r := Split(v, ' '), SoaFromString(v).value;
            Split(SoaToString(r), ' ') == [p[0], p[1]] + ReprAll(ParseAll(p[2..]).value)
  {
    var p := Split(v, ' ');
    SplitHasNoSep(v, ' ');
    assert p[0] in p && p[1] in p;
    SoaOfSplit(p[0], p[1], ParseAll(p[2..]).value);
  }

  /** SOA parsing has no `repr` guard, so printing gives an accepted string back exactly when its five
      numbers are in canonical form. */
  lemma SoaParsePrint(v: string)
    requires SoaFromString(v).Some?
    ensures SoaToString(SoaFromString(v).value) == v
            <==> forall i | 2 <= i < 7 :: Canonical(Split(v, ' ')[i])
  {
    var p, printed := Split(v, ' '), SoaToString(SoaFromString(v).value);
    JoinSplit(v, ' ');
    JoinSplit(printed, ' ');
    SoaPrintsItsWords(v);
    ReprAllParseAll(p[2..]);
    SameTail(p, ReprAll(ParseAll(p[2..]).value));
    assert forall i | 2 <= i < 7 :: p[i] == p[2..][i - 2];
    assert forall j | 0 <= j < 5 :: p[2..][j] == p[j + 2];
  }

  lemma SameTail(p: seq<string>, tail: seq<string>)
    requires |p| >= 2
    ensures [p[0], p[1]] + tail == p <==> tail == p[2..]
  {
    assert ([p[0], p[1]] + tail)[2..] == tail;
    assert p == [p[0], p[1]] + p[2..];
  }

  /** The words from the third up to the `n`-th are numbers. */
  predicate Reads(p: seq<string>, n: nat)
    requires n <= |p|
  {
    forall i | 2 <= i < n :: PyInt(p[i]).Some?
  }

  class SoaRecord {
    var data: Soa

    constructor (data: Soa)
      ensures this.data == data
    {
      this.data := data;
    }

    /** `_from_string`. The fields are assigned one by one, so a bad number leaves those before it
        changed: only a wrong number of words leaves the record alone. */
    method FromString(v: string) returns (ok: bool)
      modifies this
      ensures ok == SoaFromString(v).Some?
      ensures ok ==> data == SoaFromString(v).value
      ensures |Split(v, ' ')| != 7 ==> data == old(data)
      ensures |Split(v, ' ')| == 7 ==>
                var p := Split(v, ' ');
                && data.mname == p[0] && data.rname == p[1]
                && data.serial == (if Reads(p, 3) then PyInt(p[2]).value else old(data.serial))
                && data.refresh == (if Reads(p, 4) then PyInt(p[3]).value else old(data.refresh))
                && data.retry == (if Reads(p, 5) then PyInt(p[4]).value else old(data.retry))
                && data.expire == (if Reads(p, 6) then PyInt(p[5]).value else old(data.expire))
                && data.minimum == (if Reads(p, 7) then PyInt(p[6]).value else old(data.minimum))
    {
      var p := Split(v, ' ');
      if |p| != 7 {
        return false;
      }
      data := data.(mname := p[0]);
      data := data.(rname := p[1]);
      if PyInt(p[2]).None? { return false; }
      data := data.(serial := PyInt(p[2]).value);
      if PyInt(p[3]).None? { return false; }
      data := data.(refresh := PyInt(p[3]).value);
      if PyInt(p[4]).None? { return false; }
      data := data.(retry := PyInt(p[4]).value);
      if PyInt(p[5]).None? { return false; }
      data := data.(expire := PyInt(p[5]).value);
      if PyInt(p[6]).None? { return false; }
      data := data.(minimum := PyInt(p[6]).value);
      return true;
    }
  }
}
