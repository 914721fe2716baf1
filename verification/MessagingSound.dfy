/** What `read_message` accepts: exactly the messages, whoever wrote them. */
module MessagingSound {
  import opened Bytes
  import opened Messaging

  // ---------------------------------------------------------------- the wire format

  /** A record with the bytes that carry it. */
  datatype Text = Text(bytes: Bytes, record: Bytes)

  /** `t` carries `r` in version 2: its length and its bytes. */
  ghost predicate Plain(t: Bytes, r: Bytes)
  {
    |t| == 4 + |r| && Get32(t[..4]) == |r| && t[4..] == r
  }

  /** `t` carries `r` in version 1: chunks, none of them empty, and an empty one at the end. */
  ghost predicate InChunks(t: Bytes, r: Bytes)
    decreases |t|
  {
    |t| >= 2 &&
    var n := Get16(t[..2]);
    if n == 0 then |t| == 2 && r == []
    else |t| >= 2 + n && |r| >= n && t[2..2 + n] == r[..n] && InChunks(t[2 + n..], r[n..])
  }

  ghost predicate Carries(v1: bool, t: Text)
  {
    if v1 then InChunks(t.bytes, t.record) else Plain(t.bytes, t.record)
  }

  /** The texts with separators between them and `end` behind them. */
  function Wire(ts: seq<Text>, end: Byte): Bytes
    requires ts != []
  {
    if |ts| == 1 then ts[0].bytes + [end] else ts[0].bytes + [RSEP] + Wire(ts[1..], end)
  }

  function Records(ts: seq<Text>): seq<Bytes>
  {
    if ts == [] then [] else [ts[0].record] + Records(ts[1..])
  }

  /** `ts` fill buffers from `i` on: they end there, or the next separator finds no buffer. */
  ghost predicate Legal(v1: bool, ts: seq<Text>, end: Byte, outs: seq<Bytes>, i: nat)
  {
    && 0 < |ts| <= |outs| - i
    && (forall j :: 0 <= j < |ts| ==> Carries(v1, ts[j]))
    && (forall j :: 0 <= j < |ts| ==> ts[j].record == [] || |outs[i + j]| + |ts[j].record| <= MAX_RECORD)
    && (end == 0 || (end == RSEP && i + |ts| == |outs|))
  }

  function ReadV(v1: bool, b: Bytes, outs: seq<Bytes>, i: nat): Outcome
    requires i < |outs|
  {
    if v1 then ReadV1(b, outs, i) else ReadV2(b, outs, i)
  }

  function Result(ts: seq<Text>, end: Byte, outs: seq<Bytes>, i: nat, rest: Bytes): Outcome
    requires i < |outs|
  {
    Done(i + |ts| + (if end == 0 then 0 else 1), Filled(outs, i, Records(ts)), rest)
  }

  // ---------------------------------------------------------------- one record

  /** Reading a text is as reading its record and going on behind it. */
  lemma TextRead(v1: bool, t: Text, x: Bytes, outs: seq<Bytes>, i: nat)
    requires i < |outs| && Carries(v1, t) && x != []
    requires t.record == [] || |outs[i]| + |t.record| <= MAX_RECORD
    ensures var outs' := outs[i := outs[i] + t.record];
            ReadV(v1, t.bytes + x, outs, i) ==
            AfterRecord(x, outs', i, if i + 1 < |outs| then ReadV(v1, x[1..], outs', i + 1) else Failed)
  {
    hide AfterRecord;
    if v1 { ChunksRead(t.bytes, t.record, x, outs, i); } else { PlainRead(t.bytes, t.record, x, outs, i); }
  }

  lemma PlainRead(t: Bytes, r: Bytes, x: Bytes, outs: seq<Bytes>, i: nat)
    requires i < |outs| && Plain(t, r) && x != [] && (r == [] || |outs[i]| + |r| <= MAX_RECORD)
    ensures var outs' := outs[i := outs[i] + r];
            ReadV2(t + x, outs, i) ==
            AfterRecord(x, outs', i, if i + 1 < |outs| then ReadV2(x[1..], outs', i + 1) else Failed)
  {
    hide AfterRecord, Get32;
    var b, n := t + x, |r|;
    assert b[..4] == t[..4] && b[4..4 + n] == r && b[4 + n..] == x && b[5 + n..] == x[1..];
  }

  lemma {:induction false} ChunksRead(t: Bytes, r: Bytes, x: Bytes, outs: seq<Bytes>, i: nat)
    requires i < |outs| && InChunks(t, r) && x != [] && (r == [] || |outs[i]| + |r| <= MAX_RECORD)
    ensures var outs' := outs[i := outs[i] + r];
            ReadV1(t + x, outs, i) ==
            AfterRecord(x, outs', i, if i + 1 < |outs| then ReadV1(x[1..], outs', i + 1) else Failed)
    decreases |t|
  {
    hide AfterRecord, Get16;
    var b, n := t + x, Get16(t[..2]);
    assert b[..2] == t[..2];
    if n == 0 {
      assert outs[i] + r == outs[i];
      assert outs[i := outs[i] + r] == outs;
      assert b[2..] == x && b[3..] == x[1..];
    } else {
      var o1 := outs[i := outs[i] + r[..n]];
      assert b[2..2 + n] == r[..n] && b[2 + n..] == t[2 + n..] + x;
      ChunksRead(t[2 + n..], r[n..], x, o1, i);
      assert r[..n] + r[n..] == r;
      assert outs[i] + r[..n] + r[n..] == outs[i] + r;
      assert o1[i := o1[i] + r[n..]] == outs[i := outs[i] + r];
    }
  }

  /** Whatever is read to the end of a record begins with a text. */
  lemma TextFound(v1: bool, b: Bytes, outs: seq<Bytes>, i: nat) returns (t: Text, x: Bytes)
    requires i < |outs| && ReadV(v1, b, outs, i).Done?
    ensures b == t.bytes + x && Carries(v1, t) && x != []
    ensures t.record == [] || |outs[i]| + |t.record| <= MAX_RECORD
  {
    if v1 { t, x := ChunksFound(b, outs, i); } else { t, x := PlainFound(b, outs, i); }
  }

  lemma PlainFound(b: Bytes, outs: seq<Bytes>, i: nat) returns (t: Text, x: Bytes)
    requires i < |outs| && ReadV2(b, outs, i).Done?
    ensures b == t.bytes + x && Plain(t.bytes, t.record) && x != []
    ensures t.record == [] || |outs[i]| + |t.record| <= MAX_RECORD
  {
    hide AfterRecord, Get32;
    var n := Get32(b[..4]);
    t, x := Text(b[..4 + n], b[4..4 + n]), b[4 + n..];
    assert t.bytes[..4] == b[..4];
  }

  lemma {:induction false} ChunksFound(b: Bytes, outs: seq<Bytes>, i: nat) returns (t: Text, x: Bytes)
    requires i < |outs| && ReadV1(b, outs, i).Done?
    ensures b == t.bytes + x && InChunks(t.bytes, t.record) && x != []
    ensures t.record == [] || |outs[i]| + |t.record| <= MAX_RECORD
    decreases |b|
  {
    hide Get16;
    var n := Get16(b[..2]);
    if n == 0 {
      t, x := Text(b[..2], []), b[2..];
      assert t.bytes[..2] == b[..2];
    } else {
      var t';
      t', x := ChunksFound(b[2 + n..], outs[i := outs[i] + b[2..2 + n]], i);
      t := Text(b[..2 + n] + t'.bytes, b[2..2 + n] + t'.record);
      assert t.bytes[..2] == b[..2] && t.bytes[2..2 + n] == b[2..2 + n] == t.record[..n];
      assert t.bytes[2 + n..] == t'.bytes && t.record[n..] == t'.record;
      assert b == b[..2 + n] + b[2 + n..];
    }
  }

  // ---------------------------------------------------------------- all records

  /** Texts that are legal are read, to their end and no further. */
  lemma {:induction false} WireRead(v1: bool, ts: seq<Text>, end: Byte, outs: seq<Bytes>, i: nat, rest: Bytes)
    requires i < |outs| && Legal(v1, ts, end, outs, i)
    ensures ReadV(v1, Wire(ts, end) + rest, outs, i) == Result(ts, end, outs, i, rest)
    decreases |ts|
  {
    hide ReadV, Carries;
    var t, outs' := ts[0], outs[i := outs[i] + ts[0].record];
    if |ts| == 1 {
      var x := [end] + rest;
      assert Wire(ts, end) + rest == t.bytes + x;
      TextRead(v1, t, x, outs, i);
      assert x[1..] == rest && ts[1..] == [];
      assert Records(ts) == [t.record] && Records(ts)[1..] == [];
      assert x[0] == end;
      assert Filled(outs, i, Records(ts)) == outs';
      assert ReadV(v1, t.bytes + x, outs, i) == Done(i + 1 + (if end == 0 then 0 else 1), outs', rest);
    } else {
      var x := [RSEP] + (Wire(ts[1..], end) + rest);
      assert Wire(ts, end) + rest == t.bytes + x;
      TextRead(v1, t, x, outs, i);
      assert x[1..] == Wire(ts[1..], end) + rest;
      LegalRest(v1, ts, end, outs, i);
      WireRead(v1, ts[1..], end, outs', i + 1, rest);
      assert Records(ts)[0] == t.record && Records(ts)[1..] == Records(ts[1..]);
    }
  }

  lemma LegalRest(v1: bool, ts: seq<Text>, end: Byte, outs: seq<Bytes>, i: nat)
    requires i < |outs| && Legal(v1, ts, end, outs, i) && |ts| > 1
    ensures Legal(v1, ts[1..], end, outs[i := outs[i] + ts[0].record], i + 1)
  {
    hide Carries;
  }

  lemma LegalOne(v1: bool, t: Text, end: Byte, outs: seq<Bytes>, i: nat)
    requires i < |outs| && Carries(v1, t) && (t.record == [] || |outs[i]| + |t.record| <= MAX_RECORD)
    requires end == 0 || (end == RSEP && i + 1 == |outs|)
    ensures Legal(v1, [t], end, outs, i)
  {
  }

  lemma LegalMore(v1: bool, t: Text, ts: seq<Text>, end: Byte, outs: seq<Bytes>, i: nat)
    requires i + 1 < |outs| && Carries(v1, t) && (t.record == [] || |outs[i]| + |t.record| <= MAX_RECORD)
    requires Legal(v1, ts, end, outs[i := outs[i] + t.record], i + 1)
    ensures Legal(v1, [t] + ts, end, outs, i)
  {
    hide Carries;
  }

  /** Whatever is read was legal texts. */
  lemma {:induction false} WireFound(v1: bool, b: Bytes, outs: seq<Bytes>, i: nat) returns (ts: seq<Text>, end: Byte)
    requires i < |outs| && ReadV(v1, b, outs, i).Done?
    ensures ts != [] && Legal(v1, ts, end, outs, i) && b == Wire(ts, end) + ReadV(v1, b, outs, i).rest
    decreases |outs| - i
  {
    hide ReadV, Carries, Legal, Filled, Records;
    var t, x := TextFound(v1, b, outs, i);
    TextRead(v1, t, x, outs, i);
    var outs' := outs[i := outs[i] + t.record];
    if x[0] == RSEP && i + 1 < |outs| {
      var ts';
      ts', end := WireFound(v1, x[1..], outs', i + 1);
      LegalMore(v1, t, ts', end, outs, i);
      ts := [t] + ts';
      assert ts[1..] == ts' && x == [RSEP] + x[1..];
    } else {
      ts, end := [t], x[0];
      LegalOne(v1, t, end, outs, i);
      assert x == [end] + x[1..];
    }
  }

  // ---------------------------------------------------------------- whole messages

  /** Keep-alive bytes, and nothing else, are skipped. */
  lemma {:induction false} SkippedNoops(b: Bytes) returns (n: nat)
    ensures b == Noops(n) + SkipNoops(b) && (SkipNoops(b) == [] || SkipNoops(b)[0] != 0x90)
  {
    if b != [] && b[0] == NOOP {
      n := SkippedNoops(b[1..]);
      n := n + 1;
      assert b == [NOOP] + b[1..];
    } else {
      n := 0;
    }
  }

  /** `shc`, a version of at most 2, of which those above 127 are negative, and a known header. */
  predicate Opening(b: Bytes)
  {
    && |b| >= 5 && b[0] == 0x73 && b[1] == 0x68 && b[2] == 0x63
    && (b[3] <= 2 || b[3] >= 128) && KnownHeader(b[4])
  }

  predicate OpensV1(b: Bytes)
    requires |b| >= 5
  {
    b[3] != 2
  }

  lemma OpeningExactly(b: Bytes)
    ensures GoodPreamble(b) <==> Opening(b)
    ensures Opening(b) ==> (Signed(b[3]) < 2 <==> OpensV1(b))
  {
    hide KnownHeader;
    if |b| >= 5 {
      assert b[..3] == [b[0], b[1], b[2]] && MAGIC[..3] == [0x73, 0x68, 0x63];
    }
  }

  /** `read_message` gives records exactly if the input, behind keep-alive bytes, is an opening and
      legal texts of its version; then it gives those records and leaves what is behind them. */
  lemma ReadExactly(b: Bytes, outs: seq<Bytes>)
    ensures var x := SkipNoops(b);
            Read(b, outs).1.Done? <==>
              && |outs| > 0 && Opening(x)
              && exists ts, end, rest :: Legal(OpensV1(x), ts, end, outs, 0) && x[5..] == Wire(ts, end) + rest
    ensures var x := SkipNoops(b);
            if |outs| > 0 && Opening(x) then Read(b, outs).0 == x[4] else Read(b, outs) == (0, Failed)
    ensures var x := SkipNoops(b);
            forall ts, end, rest ::
              |outs| > 0 && Opening(x) && Legal(OpensV1(x), ts, end, outs, 0) && x[5..] == Wire(ts, end) + rest ==>
                Read(b, outs) == (x[4], Result(ts, end, outs, 0, rest))
  {
    hide KnownHeader, Carries, Wire, Filled, SkipNoops;
    var x := SkipNoops(b);
    OpeningExactly(x);
    if |outs| > 0 && Opening(x) {
      var v1 := OpensV1(x);
      assert Read(b, outs) == (x[4], ReadV(v1, x[5..], outs, 0));
      forall ts, end, rest | Legal(v1, ts, end, outs, 0) && x[5..] == Wire(ts, end) + rest
        ensures Read(b, outs) == (x[4], Result(ts, end, outs, 0, rest))
      {
        WireRead(v1, ts, end, outs, 0, rest);
      }
      if Read(b, outs).1.Done? {
        var ts, end := WireFound(v1, x[5..], outs, 0);
        assert x[5..] == Wire(ts, end) + Read(b, outs).1.rest;
      }
    }
  }

  // ---------------------------------------------------------------- empty records

  /** A body without records is read as one empty record. */
  lemma NoRecords(outs: seq<Bytes>, i: nat, tail: Bytes)
    requires i < |outs|
    ensures ReadV2(Body([], 2) + tail, outs, i) == ReadV1(Body([], 1) + tail, outs, i) == Done(i + 1, outs, tail)
  {
    var b2, b1 := Body([], 2) + tail, Body([], 1) + tail;
    assert b2[..4] == U32(0) && b2[4..4] == [] && b2[4..] == [0] + tail;
    assert outs[i] + [] == outs[i] && outs[i := outs[i]] == outs;
    assert b1[..2] == U16(0) && b1[2..] == [0] + tail;
  }

  /** The bytes of the first `n` records as a reader of version 2 counts them. */
  function Counted(rs: seq<Bytes>, n: nat): nat
    requires n <= |rs|
  {
    if n == 0 then 0 else 5 + |rs[0]| + Counted(rs[1..], n - 1)
  }

  /** An empty record has a length for the reader, but the builder writes none. */
  function Written(rs: seq<Bytes>, n: nat): nat
    requires n <= |rs|
  {
    if n == 0 then 0 else (if rs[0] == [] then 1 else 5 + |rs[0]|) + Written(rs[1..], n - 1)
  }

  lemma {:induction false} WireLength(ts: seq<Text>, end: Byte, rs: seq<Bytes>)
    requires ts != [] && |ts| <= |rs| && forall j :: 0 <= j < |ts| ==> Plain(ts[j].bytes, ts[j].record)
    requires forall j :: 0 <= j < |ts| ==> |ts[j].record| == |rs[j]|
    ensures |Wire(ts, end)| == Counted(rs, |ts|)
  {
    if |ts| == 1 {
      assert Counted(rs[1..], 0) == 0;
    } else {
      WireLength(ts[1..], end, rs[1..]);
    }
  }

  lemma {:induction false} BodyLength(rs: seq<Bytes>, n: nat)
    requires 0 < n <= |rs|
    ensures |Body(rs, 2)| == Written(rs, n) + if n < |rs| then |Body(rs[n..], 2)| else 0
  {
    hide U32;
    if n == 1 {
      assert Written(rs[1..], 0) == 0;
    } else {
      BodyLength(rs[1..], n - 1);
      assert rs[1..][n - 1..] == rs[n..];
    }
  }

  lemma {:induction false} WrittenLess(rs: seq<Bytes>, n: nat, j: nat)
    requires j < n <= |rs| && rs[j] == []
    ensures Written(rs, n) < Counted(rs, n)
  {
    if j == 0 { WrittenLeast(rs[1..], n - 1); } else { WrittenLess(rs[1..], n - 1, j - 1); }
  }

  lemma {:induction false} WrittenLeast(rs: seq<Bytes>, n: nat)
    requires n <= |rs|
    ensures Written(rs, n) <= Counted(rs, n)
  {
    if n > 0 { WrittenLeast(rs[1..], n - 1); }
  }

  lemma {:induction false} RecordsAt(ts: seq<Text>, j: nat)
    requires j < |ts|
    ensures |Records(ts)| == |ts| && Records(ts)[j] == ts[j].record
  {
    if |ts| > 1 { RecordsAt(ts[1..], if j > 0 then j - 1 else 0); }
  }

  /** Version 2 reads back what was built exactly if none of the records there are buffers for is
      empty. */
  lemma InvertsV2Exactly(outs: seq<Bytes>, i: nat, rs: seq<Bytes>, tail: Bytes)
    requires i < |outs| && rs != [] && Roomy(outs, i, rs)
    ensures ReadV2(Body(rs, 2) + tail, outs, i)
         == Done(i + Count(|outs| - i, |rs|), Filled(outs, i, rs), Left(rs, |outs| - i, 2, tail))
         <==> NoneEmpty(outs, i, rs)
  {
    hide ReadV2, Body, Filled, Left, Count;
    if NoneEmpty(outs, i, rs) { ReadInvertsV2(outs, i, rs, tail); }
    if ReadV2(Body(rs, 2) + tail, outs, i)
       == Done(i + Count(|outs| - i, |rs|), Filled(outs, i, rs), Left(rs, |outs| - i, 2, tail)) {
      forall j | 0 <= j < |rs| && i + j < |outs| ensures rs[j] != [] { InvertedNonEmpty(outs, i, rs, tail, j); }
    }
  }

  lemma InvertedNonEmpty(outs: seq<Bytes>, i: nat, rs: seq<Bytes>, tail: Bytes, j: nat)
    requires i < |outs| && rs != [] && Roomy(outs, i, rs) && j < |rs| && i + j < |outs|
    requires ReadV2(Body(rs, 2) + tail, outs, i)
          == Done(i + Count(|outs| - i, |rs|), Filled(outs, i, rs), Left(rs, |outs| - i, 2, tail))
    ensures rs[j] != []
  {
    hide ReadV2, Body, Filled, Wire, Counted, Written, Records, Carries;
    var room := |outs| - i;
    var n := if |rs| <= room then |rs| else room;
    var ts, end := WireFound(false, Body(rs, 2) + tail, outs, i);
    WireRead(false, ts, end, outs, i, Left(rs, room, 2, tail));
    SameLengths(ts, end, outs, i, rs);
    LegalPlain(ts, end, outs, i);
    WireLength(ts, end, rs);
    BodyLength(rs, n);
    if rs[j] == [] { WrittenLess(rs, n, j); }
  }

  lemma LegalPlain(ts: seq<Text>, end: Byte, outs: seq<Bytes>, i: nat)
    requires i < |outs| && Legal(false, ts, end, outs, i)
    ensures ts != [] && forall j :: 0 <= j < |ts| ==> Plain(ts[j].bytes, ts[j].record)
  {
    forall j | 0 <= j < |ts| ensures Plain(ts[j].bytes, ts[j].record) { assert Carries(false, ts[j]); }
  }

  lemma SameLengths(ts: seq<Text>, end: Byte, outs: seq<Bytes>, i: nat, rs: seq<Bytes>)
    requires i < |outs| && rs != [] && Legal(false, ts, end, outs, i)
    requires i + |ts| + (if end == 0 then 0 else 1) == i + Count(|outs| - i, |rs|)
    requires Filled(outs, i, Records(ts)) == Filled(outs, i, rs)
    ensures |ts| == if |rs| <= |outs| - i then |rs| else |outs| - i
    ensures forall j :: 0 <= j < |ts| ==> |ts[j].record| == |rs[j]|
  {
    hide Carries, Filled, Records;
    forall j | 0 <= j < |ts| ensures |ts[j].record| == |rs[j]| {
      RecordsAt(ts, j);
      FilledAt(outs, i, Records(ts), i + j);
      FilledAt(outs, i, rs, i + j);
    }
  }
}
