/** Splitting a zone transfer into DNS messages (section 2.2 of RFC 5936). */
module Axfr {
  import opened Wrappers

  /** A row of the records query; a missing ttl means the zone's. */
  datatype Row = Row(rrtype: string, ttl: Option<nat>, name: string, rdata: string)

  datatype Rrset = Rrset(name: string, ttl: nat, rrtype: string, rdata: string)

  type Answers = seq<Rrset>

  /** Whether a message with the question and these answers can be rendered within a size limit. */
  type Fits = (Answers, int) -> bool

  datatype Message = Packet(answers: Answers, maxSize: int, tsig: bool) | Servfail

  /** `Raised` is an exception that escapes the handler. */
  datatype Ending = Complete | Aborted | Raised

  const TSIG_RRSIZE := 10 + 64 + 160 + 1

  function ToRrset(row: Row, zoneTtl: nat): Rrset {
    Rrset(row.name, if row.ttl.Some? then row.ttl.value else zoneTtl, row.rrtype, row.rdata)
  }

  function ToRrsets(rows: seq<Row>, zoneTtl: nat): (r: Answers)
    ensures |r| == |rows| && forall i | 0 <= i < |rows| :: r[i] == ToRrset(rows[i], zoneTtl)
  {
    seq(|rows|, i requires 0 <= i < |rows| => ToRrset(rows[i], zoneTtl))
  }

  /** The room left for answers: the configured size, at most 65535, less what TSIG will need. */
  function Limit(configured: int, hadTsig: bool): int {
    (if configured > 65535 then 65535 else configured) - if hadTsig then TSIG_RRSIZE else 0
  }

  /** The size-limited renderer: adding an RRset either succeeds or leaves the message as it was. */
  class Renderer {
    const fits: Fits
    var maxSize: int
    var answers: Answers

    constructor (fits: Fits, maxSize: int)
      ensures this.fits == fits && this.maxSize == maxSize && answers == []
    {
      this.fits, this.maxSize := fits, maxSize;
      answers := [];
    }

    /** `false` stands for TooBig. */
    method AddRrset(r: Rrset) returns (ok: bool)
      modifies this`answers
      ensures ok == fits(old(answers) + [r], maxSize)
      ensures answers == if ok then old(answers) + [r] else old(answers)
    {
      ok := fits(answers + [r], maxSize);
      if ok {
        answers := answers + [r];
      }
    }

    /** `_finalize_packet` */
    method Finalize(hadTsig: bool) returns (p: Message)
      modifies this`maxSize
      ensures p == Packet(answers, old(maxSize) + if hadTsig then TSIG_RRSIZE else 0, hadTsig)
    {
      if hadTsig {
        maxSize := maxSize + TSIG_RRSIZE;
      }
      p := Packet(answers, maxSize, hadTsig);
    }
  }

  // ---------- splits ----------

  function Concat(split: seq<Answers>): Answers {
    if split == [] then [] else Concat(split[..|split| - 1]) + split[|split| - 1]
  }

  ghost predicate AllFit(split: seq<Answers>, fits: Fits, limit: int) {
    forall k | 0 <= k < |split| :: fits(split[k], limit)
  }

  /** No part is empty, and none could have taken the RRset after it. */
  ghost predicate Greedy(split: seq<Answers>, fits: Fits, limit: int) {
    && AllFit(split, fits, limit)
    && (forall k | 0 <= k < |split| :: split[k] != [])
    && (forall k | 0 <= k < |split| - 1 :: !fits(split[k] + [split[k + 1][0]], limit))
  }

  function AnswersOf(out: seq<Message>): seq<Answers>
    requires forall m | m in out :: m.Packet?
  {
    seq(|out|, i requires 0 <= i < |out| => out[i].answers)
  }

  /** The answers of all the packets, in order. */
  function Sent(out: seq<Message>): Answers {
    if out == [] then []
    else
      var last := out[|out| - 1];
      Sent(out[..|out| - 1]) + if last.Packet? then last.answers else []
  }

  lemma {:induction false} SentIsConcat(out: seq<Message>)
    requires forall m | m in out :: m.Packet?
    ensures Sent(out) == Concat(AnswersOf(out))
  {
    if out != [] {
      SentIsConcat(out[..|out| - 1]);
      assert AnswersOf(out)[..|out| - 1] == AnswersOf(out[..|out| - 1]);
    }
  }

  /** Packets as `_finalize_packet` leaves them: the limit the answers were held to, plus the room reserved
      for TSIG. */
  ghost predicate Finalized(out: seq<Message>, limit: int, hadTsig: bool) {
    forall m | m in out :: m.Packet? && m.tsig == hadTsig && m.maxSize == limit + if hadTsig then TSIG_RRSIZE else 0
  }

  /** The records of a transfer. */
  function Transfer(soa: Row, others: seq<Row>, zoneTtl: nat): Answers {
    ToRrsets([soa] + others + [soa], zoneTtl)
  }

  /** The answers carry the rows in order, each with its own ttl, or the zone's when it has none. */
  ghost predicate Carry(answers: Answers, rows: seq<Row>, zoneTtl: nat) {
    && |answers| == |rows|
    && forall k | 0 <= k < |rows| ::
         && answers[k].name == rows[k].name && answers[k].rrtype == rows[k].rrtype && answers[k].rdata == rows[k].rdata
         && (rows[k].ttl.Some? ==> answers[k].ttl == rows[k].ttl.value)
         && (rows[k].ttl.None? ==> answers[k].ttl == zoneTtl)
  }

  /** Every packet ends up as large as was configured, but no larger than a message over TCP can be, and its
      answers leave the 235 bytes that a TSIG may need when the request had one. */
  ghost predicate WithinConfigured(out: seq<Message>, fits: Fits, configured: int, hadTsig: bool) {
    var size := if configured > 65535 then 65535 else configured;
    forall m | m in out && m.Packet? ::
      m.maxSize == size && m.tsig == hadTsig && fits(m.answers, if hadTsig then size - 235 else size)
  }

  lemma FinalizedWithin(out: seq<Message>, fits: Fits, configured: int, hadTsig: bool)
    requires Finalized(out, Limit(configured, hadTsig), hadTsig)
    requires AllFit(AnswersOf(out), fits, Limit(configured, hadTsig))
    ensures WithinConfigured(out, fits, configured, hadTsig)
  {
    forall m | m in out
      ensures fits(m.answers, Limit(configured, hadTsig))
    {
      var k :| 0 <= k < |out| && out[k] == m;
      assert AnswersOf(out)[k] == m.answers;
    }
  }

  /** What the handler has sent when it stops before record `i`. */
  ghost predicate SentUpTo(out: seq<Message>, rrs: Answers, i: nat, fits: Fits, limit: int, hadTsig: bool)
    requires i <= |rrs|
  {
    && Finalized(out, limit, hadTsig)
    && Concat(AnswersOf(out)) == rrs[..i]
    && Greedy(AnswersOf(out), fits, limit)
    && (i < |rrs| && out != [] ==> !fits(out[|out| - 1].answers + [rrs[i]], limit))
  }

  /** The packetising loop over all the records; `stop` is where it ended. */
  method SendRecords(records: seq<Row>, zoneTtl: nat, limit: int, hadTsig: bool, fits: Fits)
    returns (out: seq<Message>, ending: Ending, ghost stop: nat)
    requires records != []
    ensures ending == Raised <==> !fits([], limit)
    ensures ending == Raised ==> out == []
    ensures ending != Raised ==>
              stop <= |records| && SentUpTo(out, ToRrsets(records, zoneTtl), stop, fits, limit, hadTsig)
    ensures ending == Complete ==> stop == |records|
    ensures ending == Aborted ==> stop < |records| && !fits([ToRrset(records[stop], zoneTtl)], limit)
  {
    ghost var rrs := ToRrsets(records, zoneTtl);
    var i: nat := 0;
    var renderer: Renderer? := null;
    out, stop := [], 0;
    while i < |records|
      invariant stop <= i <= |records|
      invariant renderer == null ==> stop == i
      invariant renderer != null ==> fresh(renderer) && renderer.fits == fits && renderer.maxSize == limit
      invariant renderer != null ==> renderer.answers == rrs[stop..i] && stop < i && fits(renderer.answers, limit)
      invariant i > 0 ==> fits([], limit)
      invariant SentUpTo(out, rrs, stop, fits, limit, hadTsig)
      decreases |records| - i, if renderer == null then 0 else 1
    {
      if renderer == null {
        if !fits([], limit) {
          return out, Raised, stop;
        }
        renderer := new Renderer(fits, limit);
      }
      var ok := AddRecord(renderer, records[i], zoneTtl, rrs, stop, i);
      if ok {
        i := i + 1;
      } else if |renderer.answers| == 0 {
        assert rrs[i..i + 1] == [rrs[i]];
        return out, Aborted, stop;
      } else {
        out := FinishPacket(renderer, out, rrs, stop, i, hadTsig);
        stop, renderer := i, null;
      }
    }
    if renderer != null {
      out := FinishPacket(renderer, out, rrs, stop, i, hadTsig);
      stop := i;
    }
    ending := Complete;
  }

  /** One more record into the renderer, which holds those from `stop` up to `i`. */
  method AddRecord(renderer: Renderer, record: Row, zoneTtl: nat, ghost rrs: Answers, ghost stop: nat, ghost i: nat)
    returns (ok: bool)
    requires stop <= i < |rrs| && rrs[i] == ToRrset(record, zoneTtl) && renderer.answers == rrs[stop..i]
    modifies renderer`answers
    ensures ok == renderer.fits(rrs[stop..i + 1], renderer.maxSize)
    ensures rrs[stop..i + 1] == rrs[stop..i] + [rrs[i]]
    ensures renderer.answers == rrs[stop..if ok then i + 1 else i]
  {
    var rrset := BuildRrset(record, zoneTtl);
    ok := renderer.AddRrset(rrset);
    assert rrs[stop..i] + [rrs[i]] == rrs[stop..i + 1];
  }

  method BuildRrset(record: Row, zoneTtl: nat) returns (r: Rrset)
    ensures r == ToRrset(record, zoneTtl)
  {
    var ttl := zoneTtl;
    if record.ttl.Some? {
      ttl := record.ttl.value;
    }
    r := Rrset(record.name, ttl, record.rrtype, record.rdata);
  }

  method FinishPacket(renderer: Renderer, out: seq<Message>, ghost rrs: Answers, ghost i: nat, ghost j: nat,
                      hadTsig: bool)
    returns (more: seq<Message>)
    requires i < j <= |rrs| && renderer.answers == rrs[i..j] && renderer.fits(renderer.answers, renderer.maxSize)
    requires j < |rrs| ==> !renderer.fits(renderer.answers + [rrs[j]], renderer.maxSize)
    requires SentUpTo(out, rrs, i, renderer.fits, renderer.maxSize, hadTsig)
    modifies renderer`maxSize
    ensures SentUpTo(more, rrs, j, renderer.fits, old(renderer.maxSize), hadTsig)
  {
    var p := renderer.Finalize(hadTsig);
    SendPacket(out, rrs, i, j, renderer.fits, old(renderer.maxSize), hadTsig, p);
    more := out + [p];
  }

  /** `_handle_axfr` for a zone that was found: the SOA, the other records in order and the SOA again, as
      packets within the limit; or such packets up to a record too large for any packet, then SERVFAIL. */
  method HandleAxfr(soas: seq<Row>, others: seq<Row>, zoneTtl: nat, configured: int, hadTsig: bool, fits: Fits)
    returns (out: seq<Message>, ending: Ending)
    ensures ending == Raised <==> soas == [] || !fits([], Limit(configured, hadTsig))
    ensures ending == Raised ==> out == []
    ensures ending == Complete ==> Carry(Sent(out), [soas[0]] + others + [soas[0]], zoneTtl)
    ensures ending == Aborted ==>
              exists i | 0 <= i < |others| + 2 :: Carry(Sent(out), ([soas[0]] + others + [soas[0]])[..i], zoneTtl)
    ensures WithinConfigured(out, fits, configured, hadTsig)
    ensures ending == Complete ==>
              var rrs := Transfer(soas[0], others, zoneTtl);
              SentUpTo(out, rrs, |rrs|, fits, Limit(configured, hadTsig), hadTsig)
    ensures ending == Aborted ==>
              var rrs := Transfer(soas[0], others, zoneTtl);
              out != [] && out[|out| - 1] == Servfail
              && StoppedByOversized(out[..|out| - 1], rrs, fits, Limit(configured, hadTsig), hadTsig)
  {
    if soas == [] {
      return [], Raised;
    }
    var records := others;
    records := [soas[0]] + records;
    records := records + [soas[0]];

    var limit := configured;
    if limit > 65535 {
      limit := 65535;
    }
    if hadTsig {
      limit := limit - TSIG_RRSIZE;
    }

    ghost var stop;
    out, ending, stop := SendRecords(records, zoneTtl, limit, hadTsig, fits);
    if ending == Aborted {
      ghost var packets := out;
      SentIsConcat(packets);
      FinalizedWithin(packets, fits, configured, hadTsig);
      assert ToRrsets(records, zoneTtl)[..stop] == ToRrsets(records[..stop], zoneTtl);
      assert Carry(Sent(packets), records[..stop], zoneTtl);
      out := out + [Servfail];
      assert out[..|out| - 1] == packets;
      assert AbortedAt(packets, ToRrsets(records, zoneTtl), stop, fits, limit, hadTsig);
    } else if ending == Complete {
      SentIsConcat(out);
      FinalizedWithin(out, fits, configured, hadTsig);
    }
  }

  ghost predicate AbortedAt(packets: seq<Message>, rrs: Answers, i: nat, fits: Fits, limit: int, hadTsig: bool) {
    i < |rrs| && SentUpTo(packets, rrs, i, fits, limit, hadTsig) && !fits([rrs[i]], limit)
  }

  ghost predicate StoppedByOversized(packets: seq<Message>, rrs: Answers, fits: Fits, limit: int, hadTsig: bool) {
    exists i: nat :: AbortedAt(packets, rrs, i, fits, limit, hadTsig)
  }

  lemma PacketConcat(out: seq<Message>, rrs: Answers, i: nat, j: nat, p: Message)
    requires i < j <= |rrs| && p.Packet? && p.answers == rrs[i..j] && forall m | m in out :: m.Packet?
    requires Concat(AnswersOf(out)) == rrs[..i]
    ensures Concat(AnswersOf(out + [p])) == rrs[..j]
  {
    AnswersSnoc(out, p);
    ConcatSnoc(AnswersOf(out), p.answers);
    assert rrs[..i] + rrs[i..j] == rrs[..j];
  }

  lemma PacketGreedy(out: seq<Message>, rrs: Answers, i: nat, j: nat, fits: Fits, limit: int, p: Message)
    requires i < j <= |rrs| && p.Packet? && p.answers == rrs[i..j] && forall m | m in out :: m.Packet?
    requires Greedy(AnswersOf(out), fits, limit) && fits(p.answers, limit)
    requires out != [] ==> !fits(out[|out| - 1].answers + [rrs[i]], limit)
    ensures Greedy(AnswersOf(out + [p]), fits, limit)
  {
    AnswersSnoc(out, p);
    assert p.answers[0] == rrs[i];
    assert out != [] ==> AnswersOf(out)[|out| - 1] == out[|out| - 1].answers;
    GreedySnoc(AnswersOf(out), p.answers, fits, limit);
  }

  /** Sending the records from `i` to `j` as one packet. */
  lemma SendPacket(out: seq<Message>, rrs: Answers, i: nat, j: nat, fits: Fits, limit: int, hadTsig: bool, p: Message)
    requires i < j <= |rrs| && SentUpTo(out, rrs, i, fits, limit, hadTsig)
    requires p == Packet(rrs[i..j], limit + if hadTsig then TSIG_RRSIZE else 0, hadTsig)
    requires fits(p.answers, limit) && (j < |rrs| ==> !fits(p.answers + [rrs[j]], limit))
    ensures SentUpTo(out + [p], rrs, j, fits, limit, hadTsig)
  {
    PacketConcat(out, rrs, i, j, p);
    PacketGreedy(out, rrs, i, j, fits, limit, p);
    assert (out + [p])[|out + [p]| - 1] == p;
  }

  lemma AnswersSnoc(out: seq<Message>, p: Message)
    requires p.Packet? && forall m | m in out :: m.Packet?
    ensures AnswersOf(out + [p]) == AnswersOf(out) + [p.answers]
  {
  }

  lemma ConcatSnoc(split: seq<Answers>, next: Answers)
    ensures Concat(split + [next]) == Concat(split) + next
  {
    assert (split + [next])[..|split|] == split;
  }

  lemma GreedySnoc(split: seq<Answers>, next: Answers, fits: Fits, limit: int)
    requires Greedy(split, fits, limit) && next != [] && fits(next, limit)
    requires split != [] ==> !fits(split[|split| - 1] + [next[0]], limit)
    ensures Greedy(split + [next], fits, limit)
  {
  }

  // ---------- optimality ----------

  /** A stretch of a message that fits, fits: true of any renderer whose messages only grow. */
  ghost predicate Hereditary(fits: Fits, limit: int) {
    forall a: Answers, b: Answers, c: Answers {:trigger fits(a + b + c, limit)} ::
      fits(a + b + c, limit) ==> fits(b, limit)
  }

  function Total(size: Rrset -> nat, rrs: Answers): nat {
    if rrs == [] then 0 else Total(size, rrs[..|rrs| - 1]) + size(rrs[|rrs| - 1])
  }

  lemma {:induction false} TotalAppend(size: Rrset -> nat, a: Answers, b: Answers)
    ensures Total(size, a + b) == Total(size, a) + Total(size, b)
  {
    if b == [] {
      assert a + b == a;
    } else {
      TotalAppend(size, a, b[..|b| - 1]);
      assert (a + b)[..|a + b| - 1] == a + b[..|b| - 1];
    }
  }

  /** Sizes that add up are hereditary. */
  lemma AdditiveIsHereditary(fits: Fits, limit: int, header: nat, size: Rrset -> nat)
    requires forall a: Answers :: fits(a, limit) <==> header + Total(size, a) <= limit
    ensures Hereditary(fits, limit)
  {
    forall a: Answers, b: Answers, c: Answers | fits(a + b + c, limit)
      ensures fits(b, limit)
    {
      TotalAppend(size, a, b);
      TotalAppend(size, a + b, c);
    }
  }

  lemma {:induction false} ConcatFront(split: seq<Answers>)
    requires split != []
    ensures Concat(split) == split[0] + Concat(split[1..])
  {
    var n := |split| - 1;
    if n > 0 {
      ConcatFront(split[..n]);
      assert split[..n][1..] == split[1..][..n - 1];
      assert split[1..][n - 1] == split[n];
      assert split[0] + (Concat(split[1..][..n - 1]) + split[n]) == split[0] + Concat(split[1..][..n - 1]) + split[n];
    } else {
      assert split[..0] == [] && split[1..] == [];
    }
  }

  /** The greedy split of a tail needs no more packets than any split of the whole. */
  lemma {:induction false} GreedyStaysAhead(greedy: seq<Answers>, other: seq<Answers>, skipped: Answers,
                                            fits: Fits, limit: int)
    requires Hereditary(fits, limit) && Greedy(greedy, fits, limit) && AllFit(other, fits, limit)
    requires Concat(other) == skipped + Concat(greedy)
    ensures |greedy| <= |other|
    decreases |other|
  {
    if greedy != [] {
      ConcatFront(greedy);
      assert |Concat(other)| > 0;
      ConcatFront(other);
      var g, o := greedy[0], other[0];
      var left, right := Concat(greedy[1..]), Concat(other[1..]);
      assert o + right == skipped + g + left;
      if |left| > |right| {
        ConcatFront(greedy[1..]);
        assert left[0] == greedy[1][0];
        NextWouldFit(g, left, o, skipped, right, fits, limit);
        assert false;
      } else {
        var whole := o + right;
        var rest := right[..|right| - |left|];
        assert whole[|whole| - |left|..] == left && whole[|whole| - |right|..] == right;
        assert right == rest + left;
        GreedyStaysAhead(greedy[1..], other[1..], rest, fits, limit);
      }
    }
  }

  /** If the other split's first packet reaches past the greedy one's, the greedy one can take one more
      record. */
  lemma NextWouldFit(g: Answers, left: Answers, o: Answers, skipped: Answers, right: Answers, fits: Fits, limit: int)
    requires Hereditary(fits, limit) && fits(o, limit)
    requires o + right == skipped + g + left && |left| > |right|
    ensures fits(g + [left[0]], limit)
  {
    var taken := g + [left[0]];
    var whole := skipped + taken;
    assert (o + right)[..|whole|] == whole;
    assert o[..|whole|] == whole;
    assert skipped + taken + o[|whole|..] == o;
    assert fits(skipped + taken + o[|whole|..], limit);
  }

  /** No order-preserving split within the limit uses fewer packets than a complete transfer. */
  lemma TransferIsOptimal(out: seq<Message>, rrs: Answers, fits: Fits, limit: int, hadTsig: bool, other: seq<Answers>)
    requires Hereditary(fits, limit) && SentUpTo(out, rrs, |rrs|, fits, limit, hadTsig)
    requires Concat(other) == rrs && AllFit(other, fits, limit)
    ensures |out| <= |other|
  {
    var greedy := AnswersOf(out);
    assert Concat(greedy) == rrs[..|rrs|] == rrs;
    assert Concat(other) == [] + Concat(greedy);
    GreedyStaysAhead(greedy, other, [], fits, limit);
  }

  /** Every record sent fits in a message of its own, so with a hereditary renderer a transfer is aborted
      exactly at the first record that does not. */
  lemma {:induction false} SentRecordsFitAlone(split: seq<Answers>, fits: Fits, limit: int, k: nat)
    requires Hereditary(fits, limit) && AllFit(split, fits, limit) && k < |Concat(split)|
    ensures fits([Concat(split)[k]], limit)
  {
    var n := |split| - 1;
    var before := Concat(split[..n]);
    if k < |before| {
      SentRecordsFitAlone(split[..n], fits, limit, k);
    } else {
      var p, j := split[n], k - |before|;
      assert p[..j] + [p[j]] + p[j + 1..] == p;
      assert fits(p[..j] + [p[j]] + p[j + 1..], limit);
    }
  }

  lemma AbortsAtFirstOversized(packets: seq<Message>, rrs: Answers, i: nat, fits: Fits, limit: int, hadTsig: bool)
    requires Hereditary(fits, limit) && i <= |rrs| && SentUpTo(packets, rrs, i, fits, limit, hadTsig)
    ensures forall k | 0 <= k < i :: fits([rrs[k]], limit)
  {
    forall k | 0 <= k < i
      ensures fits([rrs[k]], limit)
    {
      assert rrs[..i][k] == rrs[k];
      SentRecordsFitAlone(AnswersOf(packets), fits, limit, k);
    }
  }
}
