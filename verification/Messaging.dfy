/** The messages of the cache protocol: building them, and reading them from a socket that
    hands out record data in pieces. */
module Messaging {
  import opened Bytes

  const RSEP: Byte := 0x80
  const NOOP: Byte := 0x90
  const MAX_RECORD: nat := 0x1000_0000
  const MAX_CHUNK: nat := 65535
  const PROTOCOL_VERSION: int := 2

  const MAGIC: Bytes := [0x73, 0x68, 0x63, 2]

  /** `hdr_check`. */
  predicate KnownHeader(h: Byte)
  {
    || 0x01 <= h <= 0x0E || h == 0x10 || h == 0x11
    || 0x21 <= h <= 0x23 || h == 0x31 || h == 0x32 || h == 0x41 || h == 0x42
    || h == 0x90 || h == 0x98 || h == 0x99 || 0xA0 <= h <= 0xA3
  }

  // ---------------------------------------------------------------- building

  /** `_chunkize_buffer`. */
  function Chunked(b: Bytes): Bytes
  {
    if |b| <= MAX_CHUNK then U16(|b|) + b + U16(0)
    else U16(MAX_CHUNK) + b[..MAX_CHUNK] + Chunked(b[MAX_CHUNK..])
  }

  /** A record as `build_message` writes it. */
  function Record(r: Bytes, version: int): Bytes
  {
    if version < 2 then (if r == [] then U16(0) else Chunked(r))
    else if r == [] then [] else U32(|r|) + r
  }

  /** The records with separators between them and the terminator behind them. */
  function Body(rs: seq<Bytes>, version: int): Bytes
  {
    if rs == [] then (if version < 2 then U16(0) else U32(0)) + [0]
    else if |rs| == 1 then Record(rs[0], version) + [0]
    else Record(rs[0], version) + [RSEP] + Body(rs[1..], version)
  }

  function Message(h: Byte, rs: seq<Bytes>, version: int): Bytes
  {
    MAGIC + [h] + Body(rs, version)
  }

  // ---------------------------------------------------------------- reading

  /** What reading records gives: their number as the code reports it, the buffers, and the
      input left. */
  datatype Outcome = Failed | Done(count: nat, outs: seq<Bytes>, rest: Bytes)

  /** What follows a record: another one, the end, or an error. */
  function AfterRecord(b: Bytes, outs: seq<Bytes>, i: nat, next: Outcome): Outcome
  {
    if b == [] then Failed
    else if b[0] == RSEP then (if i + 1 == |outs| then Done(i + 2, outs, b[1..]) else next)
    else if b[0] == 0 then Done(i + 1, outs, b[1..])
    else Failed
  }

  /** The version 2 branch of `read_message` at record `i`. */
  function ReadV2(b: Bytes, outs: seq<Bytes>, i: nat): Outcome
    requires i < |outs|
    decreases |b|
  {
    if |b| < 4 then Failed
    else
      var n := Get32(b[..4]);
      if |b| <= 4 + n || (n > 0 && |outs[i]| + n > MAX_RECORD) then Failed
      else
        var outs' := outs[i := outs[i] + b[4..4 + n]];
        AfterRecord(b[4 + n..], outs', i, if i + 1 < |outs| then ReadV2(b[5 + n..], outs', i + 1) else Failed)
  }

  /** The version 1 branch of `read_message` at record `i`. */
  function ReadV1(b: Bytes, outs: seq<Bytes>, i: nat): Outcome
    requires i < |outs|
    decreases |b|
  {
    if |b| < 2 then Failed
    else
      var n := Get16(b[..2]);
      if n == 0 then
        AfterRecord(b[2..], outs, i, if i + 1 < |outs| && |b| > 2 then ReadV1(b[3..], outs, i + 1) else Failed)
      else if |b| < 2 + n || |outs[i]| + n > MAX_RECORD then Failed
      else ReadV1(b[2 + n..], outs[i := outs[i] + b[2..2 + n]], i)
  }

  /** Skips the bytes that keep a connection alive. */
  function SkipNoops(b: Bytes): Bytes
  {
    if b != [] && b[0] == NOOP then SkipNoops(b[1..]) else b
  }

  /** A `char`. */
  function Signed(b: Byte): int
  {
    if b < 128 then b as int else b as int - 256
  }

  predicate GoodPreamble(b: Bytes)
  {
    |b| >= 5 && b[..3] == MAGIC[..3] && Signed(b[3]) <= PROTOCOL_VERSION && KnownHeader(b[4])
  }

  /** `read_message`. */
  function Read(b: Bytes, outs: seq<Bytes>): (Byte, Outcome)
  {
    var b := SkipNoops(b);
    if |outs| < 1 || !GoodPreamble(b) then (0, Failed)
    else (b[4], if Signed(b[3]) < 2 then ReadV1(b[5..], outs, 0) else ReadV2(b[5..], outs, 0))
  }

  // ---------------------------------------------------------------- reading inverts building

  /** The buffers after the records from `i` on were appended to them, as far as they go. */
  function Filled(outs: seq<Bytes>, i: nat, rs: seq<Bytes>): seq<Bytes>
    requires i < |outs|
    decreases |rs|
  {
    if rs == [] then outs
    else
      var outs' := outs[i := outs[i] + rs[0]];
      if i + 1 == |outs| then outs' else Filled(outs', i + 1, rs[1..])
  }

  /** What the buffers end up with: record `j - i` behind what was in buffer `j`. */
  lemma {:induction false} FilledAt(outs: seq<Bytes>, i: nat, rs: seq<Bytes>, j: nat)
    requires i < |outs| && j < |outs|
    ensures |Filled(outs, i, rs)| == |outs|
    ensures Filled(outs, i, rs)[j] == if i <= j < i + |rs| then outs[j] + rs[j - i] else outs[j]
    decreases |rs|
  {
    if rs != [] && i + 1 < |outs| {
      FilledAt(outs[i := outs[i] + rs[0]], i + 1, rs[1..], j);
    }
  }

  ghost predicate Roomy(outs: seq<Bytes>, i: nat, rs: seq<Bytes>)
  {
    forall j :: 0 <= j < |rs| && i + j < |outs| ==> |outs[i + j]| + |rs[j]| <= MAX_RECORD
  }

  /** None of the records there are buffers for is empty. */
  ghost predicate NoneEmpty(outs: seq<Bytes>, i: nat, rs: seq<Bytes>)
  {
    forall j :: 0 <= j < |rs| && i + j < |outs| ==> rs[j] != []
  }

  /** The code reports one too many when it stops at a separator because it has no buffer
      left. */
  function Count(room: nat, records: nat): nat
  {
    if records <= room then records else room + 1
  }

  /** What is left of a body and `tail` once the records that fit were read. */
  function Left(rs: seq<Bytes>, room: nat, version: int, tail: Bytes): Bytes
  {
    if |rs| <= room then tail else Body(rs[room..], version) + tail
  }

  /** What follows the first record of a body. */
  function Follows(rs: seq<Bytes>, version: int, tail: Bytes): Bytes
    requires rs != []
  {
    if |rs| == 1 then [0] + tail else [RSEP] + (Body(rs[1..], version) + tail)
  }

  lemma BodySplits(rs: seq<Bytes>, version: int, tail: Bytes)
    requires rs != []
    ensures Body(rs, version) + tail == Record(rs[0], version) + Follows(rs, version, tail)
  {
    hide Record;
  }

  lemma OneV2(r: Bytes, x: Bytes, outs: seq<Bytes>, i: nat)
    requires i < |outs| && 0 < |r| && |outs[i]| + |r| <= MAX_RECORD && x != []
    ensures var outs' := outs[i := outs[i] + r];
            ReadV2(U32(|r|) + r + x, outs, i) ==
            AfterRecord(x, outs', i, if i + 1 < |outs| then ReadV2(x[1..], outs', i + 1) else Failed)
  {
    hide U32, Get32, AfterRecord;
    var b, n := U32(|r|) + r + x, |r|;
    Read32(n);
    assert b[..4] == U32(n) && b[4..4 + n] == r;
    assert b[4 + n..] == x && b[5 + n..] == x[1..];
  }

  /** Given what a first record leads to, what the whole body does. */
  lemma Followed(outs: seq<Bytes>, i: nat, rs: seq<Bytes>, version: int, tail: Bytes, next: Outcome)
    requires i < |outs| && rs != []
    requires |rs| > 1 && i + 1 < |outs| ==>
               next == Done(i + 1 + Count(|outs| - i - 1, |rs| - 1), Filled(outs, i + 1, rs[1..]),
                            Left(rs[1..], |outs| - i - 1, version, tail))
    ensures AfterRecord(Follows(rs, version, tail), outs, i, next)
         == Done(i + Count(|outs| - i, |rs|), if |rs| > 1 && i + 1 < |outs| then Filled(outs, i + 1, rs[1..]) else outs,
                 Left(rs, |outs| - i, version, tail))
  {
    hide Body, Filled;
    var x := Follows(rs, version, tail);
    if |rs| == 1 {
      assert x[1..] == tail;
    } else {
      assert x[1..] == Body(rs[1..], version) + tail;
      if |rs| > |outs| - i && i + 1 < |outs| {
        assert rs[1..][|outs| - i - 1..] == rs[|outs| - i..];
      }
    }
  }

  /** Version 2: reading a built body gives its records, one to a buffer, and leaves what
      comes after it. */
  lemma {:induction false} ReadInvertsV2(outs: seq<Bytes>, i: nat, rs: seq<Bytes>, tail: Bytes)
    requires i < |outs| && rs != [] && NoneEmpty(outs, i, rs) && Roomy(outs, i, rs)
    ensures ReadV2(Body(rs, 2) + tail, outs, i)
         == Done(i + Count(|outs| - i, |rs|), Filled(outs, i, rs), Left(rs, |outs| - i, 2, tail))
    decreases |rs|
  {
    hide U32, AfterRecord, ReadV2, Body, Count, Left;
    var outs', x := outs[i := outs[i] + rs[0]], Follows(rs, 2, tail);
    BodySplits(rs, 2, tail);
    OneV2(rs[0], x, outs, i);
    if |rs| > 1 && i + 1 < |outs| {
      assert x[1..] == Body(rs[1..], 2) + tail;
      ReadInvertsV2(outs', i + 1, rs[1..], tail);
    }
    Followed(outs', i, rs, 2, tail, if i + 1 < |outs| then ReadV2(x[1..], outs', i + 1) else Failed);
  }

  // ---------------------------------------------------------------- version 1

  lemma OneChunk(r: Bytes, x: Bytes, outs: seq<Bytes>, i: nat)
    requires i < |outs| && 0 < |r| <= MAX_CHUNK && |outs[i]| + |r| <= MAX_RECORD
    ensures ReadV1(U16(|r|) + r + x, outs, i) == ReadV1(x, outs[i := outs[i] + r], i)
  {
    hide U16, Get16;
    var b, n := U16(|r|) + r + x, |r|;
    Read16(n);
    assert b[..2] == U16(n) && b[2..2 + n] == r && b[2 + n..] == x;
  }

  lemma EndOfRecord(x: Bytes, outs: seq<Bytes>, i: nat)
    requires i < |outs| && x != []
    ensures ReadV1(U16(0) + x, outs, i) ==
            AfterRecord(x, outs, i, if i + 1 < |outs| then ReadV1(x[1..], outs, i + 1) else Failed)
  {
    var b := U16(0) + x;
    assert b[..2] == U16(0) && b[2..] == x && b[3..] == x[1..];
  }

  /** Version 1: reading inverts `_chunkize_buffer`, also at multiples of the chunk size. */
  lemma {:induction false} ReadInvertsChunks(r: Bytes, x: Bytes, outs: seq<Bytes>, i: nat)
    requires i < |outs| && 0 < |r| && |outs[i]| + |r| <= MAX_RECORD
    ensures ReadV1(Chunked(r) + x, outs, i) == ReadV1(U16(0) + x, outs[i := outs[i] + r], i)
    decreases |r|
  {
    hide U16, ReadV1;
    if |r| <= MAX_CHUNK {
      assert Chunked(r) + x == U16(|r|) + r + (U16(0) + x);
      OneChunk(r, U16(0) + x, outs, i);
    } else {
      var c, d := r[..MAX_CHUNK], r[MAX_CHUNK..];
      assert Chunked(r) + x == U16(|c|) + c + (Chunked(d) + x);
      OneChunk(c, Chunked(d) + x, outs, i);
      ReadInvertsChunks(d, x, outs[i := outs[i] + c], i);
      assert outs[i] + c + d == outs[i] + r;
      assert outs[i := outs[i] + c][i := outs[i] + r] == outs[i := outs[i] + r];
    }
  }

  lemma OneV1(r: Bytes, x: Bytes, outs: seq<Bytes>, i: nat)
    requires i < |outs| && |outs[i]| + |r| <= MAX_RECORD && x != []
    ensures var outs' := outs[i := outs[i] + r];
            ReadV1(Record(r, 1) + x, outs, i) ==
            AfterRecord(x, outs', i, if i + 1 < |outs| then ReadV1(x[1..], outs', i + 1) else Failed)
  {
    hide U16, ReadV1, Chunked, AfterRecord;
    var outs' := outs[i := outs[i] + r];
    if r == [] {
      assert outs[i] + r == outs[i];
      assert outs' == outs;
    } else {
      ReadInvertsChunks(r, x, outs, i);
    }
    EndOfRecord(x, outs', i);
  }

  /** Version 1: the same for a body of any records, empty ones among them. */
  lemma {:induction false} ReadInvertsV1(outs: seq<Bytes>, i: nat, rs: seq<Bytes>, tail: Bytes)
    requires i < |outs| && rs != [] && Roomy(outs, i, rs)
    ensures ReadV1(Body(rs, 1) + tail, outs, i)
         == Done(i + Count(|outs| - i, |rs|), Filled(outs, i, rs), Left(rs, |outs| - i, 1, tail))
    decreases |rs|
  {
    hide U16, AfterRecord, ReadV1, Body, Count, Left, Record;
    var outs', x := outs[i := outs[i] + rs[0]], Follows(rs, 1, tail);
    BodySplits(rs, 1, tail);
    OneV1(rs[0], x, outs, i);
    if |rs| > 1 && i + 1 < |outs| {
      assert x[1..] == Body(rs[1..], 1) + tail;
      ReadInvertsV1(outs', i + 1, rs[1..], tail);
    }
    Followed(outs', i, rs, 1, tail, if i + 1 < |outs| then ReadV1(x[1..], outs', i + 1) else Failed);
  }

  // ---------------------------------------------------------------- whole messages

  function Noops(n: nat): Bytes
  {
    if n == 0 then [] else [NOOP] + Noops(n - 1)
  }

  lemma {:induction false} NoopsSkipped(n: nat, b: Bytes)
    requires b == [] || b[0] != NOOP
    ensures SkipNoops(Noops(n) + b) == b
  {
    if n == 0 {
      assert Noops(n) + b == b;
    } else {
      assert (Noops(n) + b)[1..] == Noops(n - 1) + b;
      NoopsSkipped(n - 1, b);
    }
  }

  lemma PreambleRead(n: nat, h: Byte, body: Bytes, outs: seq<Bytes>)
    requires KnownHeader(h) && 0 < |outs|
    ensures Read(Noops(n) + (MAGIC + [h] + body), outs) == (h, ReadV2(body, outs, 0))
  {
    hide ReadV1, ReadV2, KnownHeader, Noops, SkipNoops;
    var b := MAGIC + [h] + body;
    NoopsSkipped(n, b);
    assert b[5..] == body;
    assert b[..3] == MAGIC[..3];
  }

  /** Reading what was built, behind any number of keep-alive bytes, gives the header, the
      number and the contents of the records, and leaves what comes after the message. */
  lemma ReadInvertsBuild(h: Byte, rs: seq<Bytes>, n: nat, outs: seq<Bytes>, tail: Bytes)
    requires KnownHeader(h) && rs != [] && 0 < |outs| && NoneEmpty(outs, 0, rs) && Roomy(outs, 0, rs)
    ensures Read(Noops(n) + Message(h, rs, 2) + tail, outs)
         == (h, Done(Count(|outs|, |rs|), Filled(outs, 0, rs), Left(rs, |outs|, 2, tail)))
  {
    hide Read, Body, Filled, Left, Count, KnownHeader, Noops;
    var body := Body(rs, 2) + tail;
    assert Noops(n) + Message(h, rs, 2) + tail == Noops(n) + (MAGIC + [h] + body);
    PreambleRead(n, h, body, outs);
    ReadInvertsV2(outs, 0, rs, tail);
  }
}
