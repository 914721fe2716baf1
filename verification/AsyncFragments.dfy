/** A message that arrives in pieces. */
module AsyncFragments {
  import opened Bytes
  import opened Messaging
  import opened AsyncModel

  /** Where a record starts. */
  ghost predicate AtStart(c: Context)
  {
    Valid(c) && c.state == InRecord && c.coff == 0 && c.rlen == 0
  }

  /** After a body: every record was handed over under its number. */
  function AtEnd(c: Context, rs: seq<Bytes>): Context
    requires Valid(c) && rs != []
  {
    c.(state := Finished, rlen := |rs[|rs| - 1]|, coff := |rs[|rs| - 1]|, rnum := c.rnum + |rs| - 1,
       got := c.got[..c.rnum] + [c.got[c.rnum] + rs[0]] + rs[1..], buf := [])
  }

  /** The cuts of a body that leave the reader stuck: behind a separator and before the end of
      the length that follows. */
  predicate BadCut(rs: seq<Bytes>, cut: nat)
  {
    |rs| > 1 && var next := 4 + |rs[0]| + 1;
    (next <= cut < next + 4 || (next + 4 <= cut && BadCut(rs[1..], cut - next)))
  }

  ghost predicate Sendable(rs: seq<Bytes>)
  {
    rs != [] && forall j :: 0 <= j < |rs| ==> 0 < |rs[j]| < TWO16
  }

  // ---------------------------------------------------------------- one record

  lemma LengthRead(c: Context, n: nat, x: Bytes)
    requires AtStart(c) && c.buf == U32(n) + x && 0 < n < TWO32
    ensures Border(c) == Goes(c.(rlen := n, buf := x))
  {
    hide U32, Get32;
    Read32(n);
    assert c.buf[..4] == U32(n) && c.buf[4..] == x;
  }

  /** A length and part of the data. */
  lemma PartialRecord(c: Context, r: Bytes, cut: nat)
    requires AtStart(c) && 0 < |r| < TWO32 && cut <= |r| && c.buf == U32(|r|) + r[..cut]
    ensures Parse(c).Stops? && Parse(c).c.state == InRecord && !Stuck(Parse(c).c)
  {
    hide U32;
    LengthRead(c, |r|, r[..cut]);
  }

  /** A record with something behind it. */
  lemma FullRecord(c: Context, r: Bytes, x: Bytes)
    requires AtStart(c) && 0 < |r| < TWO32 && x != [] && c.buf == U32(|r|) + r + x
    ensures Parse(c) == Parse(c.(rlen := |r|, coff := |r|, buf := x, got := c.got[c.rnum := c.got[c.rnum] + r]))
  {
    hide U32, NextRecord;
    assert c.buf == U32(|r|) + (r + x);
    LengthRead(c, |r|, r + x);
    var c1 := Border(c).c;
    CutBefore(r, x, |r|);
    assert [] + x == x;
    assert Data(c1) == Goes(Taken(c1, |r|));
    IterateGoes(c);
  }

  lemma LastRecord(c: Context, x: Bytes)
    requires Valid(c) && c.state == InRecord && 0 < c.coff == c.rlen && c.buf == [0] + x
    ensures Parse(c) == Stops(c.(state := Finished, buf := x))
  {
    assert c.buf[1..] == x;
  }

  /** Behind a separator: with a whole length the next record starts, without one the reader
      is stuck. */
  lemma Separator(c: Context, x: Bytes)
    requires Valid(c) && c.state == InRecord && 0 < c.coff == c.rlen && c.buf == [RSEP] + x
    ensures var d := c.(rnum := c.rnum + 1, got := c.got + [[]], rlen := 0, coff := 0, buf := x);
            && AtStart(d)
            && (|x| >= 4 && Get32(x[..4]) > 0 ==> Parse(c) == Parse(d))
            && (|x| < 4 ==> Parse(c) == Stops(d.(coff := c.coff)))
  {
    hide Get32;
    assert c.buf[1..] == x;
    var d := c.(rnum := c.rnum + 1, got := c.got + [[]], rlen := 0, coff := 0, buf := x);
    if |x| >= 4 && Get32(x[..4]) > 0 {
      assert Border(c) == Border(d) == Goes(d.(rlen := Get32(x[..4]), buf := x[4..]));
      assert Iterate(c) == Iterate(d);
    }
  }

  // ---------------------------------------------------------------- a body

  lemma BodyLength(rs: seq<Bytes>)
    requires Sendable(rs)
    ensures |Body(rs, 2)| == 4 + |rs[0]| + (if |rs| == 1 then 1 else 1 + |Body(rs[1..], 2)|)
    ensures |Body(rs, 2)| >= 4 && Body(rs, 2)[..4] == U32(|rs[0]|)
  {
    hide U32;
  }

  /** A cut through a body: the reader waits for more, and is stuck exactly at a bad cut. A
      whole body is read to its end. */
  lemma {:induction false} PartialBody(c: Context, rs: seq<Bytes>, cut: nat)
    requires AtStart(c) && Sendable(rs) && cut <= |Body(rs, 2)| && c.buf == Body(rs, 2)[..cut]
    ensures Parse(c).Stops?
    ensures cut < |Body(rs, 2)| ==> Parse(c).c.state == InRecord && (Stuck(Parse(c).c) <==> BadCut(rs, cut))
    ensures cut == |Body(rs, 2)| ==> Parse(c).c == AtEnd(c, rs)
    decreases |rs|
  {
    hide U32, Get32, Parse, Body;
    var r, b := rs[0], Body(rs, 2);
    BodyLength(rs);
    if cut >= 4 { BodyCut(rs, cut); }
    if cut < 4 {
      WaitsForLength(c);
    } else if cut <= 4 + |r| {
      PartialRecord(c, r, cut - 4);
    } else {
      var x := Follows(rs, 2, [])[..cut - 4 - |r|];
      FullRecord(c, r, x);
      var c1 := c.(rlen := |r|, coff := |r|, buf := x, got := c.got[c.rnum := c.got[c.rnum] + r]);
      if |rs| == 1 {
        assert x == [0] + [];
        LastRecord(c1, []);
        AtEndOne(c, rs, c1);
      } else {
        NextBody(c, c1, rs, cut);
      }
    }
  }

  lemma WaitsForLength(c: Context)
    requires AtStart(c) && |c.buf| < 4
    ensures Parse(c) == Stops(c)
  {
  }

  lemma BodyCut(rs: seq<Bytes>, cut: nat)
    requires Sendable(rs) && 4 <= cut <= |Body(rs, 2)|
    ensures var r := rs[0];
            && |Follows(rs, 2, [])| == |Body(rs, 2)| - 4 - |r|
            && (cut <= 4 + |r| ==> Body(rs, 2)[..cut] == U32(|r|) + r[..cut - 4])
            && (cut > 4 + |r| ==> Body(rs, 2)[..cut] == U32(|r|) + r + Follows(rs, 2, [])[..cut - 4 - |r|])
  {
    hide U32, Body;
    BodySplits(rs, 2, []);
    assert Body(rs, 2) + [] == Body(rs, 2);
  }

  lemma AtEndOne(c: Context, rs: seq<Bytes>, c1: Context)
    requires Valid(c) && |rs| == 1
    requires c1 == c.(rlen := |rs[0]|, coff := |rs[0]|, buf := c1.buf, got := c.got[c.rnum := c.got[c.rnum] + rs[0]])
    ensures c1.(state := Finished, buf := []) == AtEnd(c, rs)
  {
    assert c1.got == c.got[..c.rnum] + [c.got[c.rnum] + rs[0]] + rs[1..];
  }

  lemma AtEndMore(c: Context, rs: seq<Bytes>, d: Context)
    requires Valid(c) && |rs| > 1
    requires d == c.(rlen := 0, coff := 0, buf := d.buf, rnum := c.rnum + 1,
                     got := c.got[c.rnum := c.got[c.rnum] + rs[0]] + [[]])
    ensures AtEnd(d, rs[1..]) == AtEnd(c, rs)
  {
    assert [] + rs[1] == rs[1];
    assert d.got[..d.rnum] + [d.got[d.rnum] + rs[1]] + rs[1..][1..] ==
           c.got[..c.rnum] + [c.got[c.rnum] + rs[0]] + rs[1..];
  }

  lemma NextBody(c: Context, c1: Context, rs: seq<Bytes>, cut: nat)
    requires AtStart(c) && Sendable(rs) && |rs| > 1 && 4 + |rs[0]| < cut <= |Body(rs, 2)|
    requires |Follows(rs, 2, [])| == |Body(rs, 2)| - 4 - |rs[0]|
    requires c1 == c.(rlen := |rs[0]|, coff := |rs[0]|, buf := Follows(rs, 2, [])[..cut - 4 - |rs[0]|],
                      got := c.got[c.rnum := c.got[c.rnum] + rs[0]])
    ensures Parse(c1).Stops?
    ensures cut < |Body(rs, 2)| ==> Parse(c1).c.state == InRecord && (Stuck(Parse(c1).c) <==> BadCut(rs, cut))
    ensures cut == |Body(rs, 2)| ==> Parse(c1).c == AtEnd(c, rs)
    decreases |rs|, 0
  {
    hide U32, Get32, Parse, Body;
    var rest, cut' := Body(rs[1..], 2), cut - 5 - |rs[0]|;
    assert rest + [] == rest;
    var x := rest[..cut'];
    assert c1.buf == [RSEP] + x;
    Separator(c1, x);
    BodyLength(rs);
    BodyLength(rs[1..]);
    if |x| >= 4 {
      Read32(|rs[1]|);
      assert x[..4] == rest[..4];
      var d := c1.(rnum := c1.rnum + 1, got := c1.got + [[]], rlen := 0, coff := 0, buf := x);
      PartialBody(d, rs[1..], cut');
      AtEndMore(c, rs, d);
    }
  }

  // ---------------------------------------------------------------- a message

  function Opening(n: nat, h: Byte): Bytes
  {
    Noops(n) + (MAGIC + [h])
  }

  function Stream(n: nat, h: Byte, rs: seq<Bytes>): Bytes
  {
    Opening(n, h) + Body(rs, 2)
  }

  /** That is what `build_message` makes, behind `n` keep-alive bytes. */
  lemma StreamBuilt(n: nat, h: Byte, rs: seq<Bytes>)
    ensures Stream(n, h, rs) == Noops(n) + Message(h, rs, 2)
  {
    hide Noops, Body;
  }

  /** The context at the start of the first record. */
  function Opened(h: Byte): Context
  {
    FRESH.(state := InRecord, first := MAGIC[0], header := h)
  }

  lemma {:induction false} NoopsLength(n: nat)
    ensures |Noops(n)| == n && forall j :: 0 <= j < n ==> Noops(n)[j] == NOOP
  {
    if n > 0 { NoopsLength(n - 1); }
  }

  lemma NoopsCut(n: nat, cut: nat)
    requires cut <= n
    ensures |Noops(n)| == n && Noops(n)[..cut] == Noops(cut)
  {
    NoopsLength(n);
    NoopsLength(cut);
  }

  lemma OpeningRead(n: nat, h: Byte)
    ensures Preamble(FRESH.Fed(Opening(n, h))) == Opened(h)
  {
    var b := MAGIC + [h];
    NoopsSkipped(n, b);
    hide SkipNoops, Noops;
    assert [] + Opening(n, h) == Opening(n, h);
    var c1 := Begin(FRESH.Fed(Opening(n, h)));
    assert c1.buf == [0x68, 0x63, 2, h];
    assert [0x73] + c1.buf[..2] == MAGIC[..3];
    var c2 := Magic(c1);
    assert c2.buf == [h];
    assert c2.buf[1..] == [];
  }

  /** A cut before the first record leaves the reader waiting. */
  lemma PartialOpening(n: nat, h: Byte, cut: nat)
    requires cut <= n + 4
    ensures |Opening(n, h)| == n + 5
    ensures var c := Preamble(FRESH.Fed(Opening(n, h)[..cut])); Reading(c) && c.state != InRecord
  {
    NoopsCut(n, if cut < n then cut else n);
    var b := Opening(n, h)[..cut];
    assert [] + b == b;
    if cut <= n {
      assert b == Noops(cut) + [];
      NoopsSkipped(cut, []);
    } else {
      var m := (MAGIC + [h])[..cut - n];
      assert b == Noops(n) + m;
      NoopsSkipped(n, m);
      hide SkipNoops, Noops;
      var c1 := Begin(FRESH.Fed(b));
      assert c1.buf == m[1..];
      if cut == n + 4 {
        assert c1.buf == [0x68, 0x63, 2];
        assert [0x73] + c1.buf[..2] == MAGIC[..3];
        assert Magic(c1).buf == [];
      }
    }
  }

  /** The cuts of a message that leave the reader stuck. */
  predicate BadMessageCut(n: nat, rs: seq<Bytes>, cut: nat)
  {
    n + 5 <= cut && BadCut(rs, cut - n - 5)
  }

  /** The context after a whole message. */
  function AfterMessage(h: Byte, rs: seq<Bytes>): Context
    requires rs != []
  {
    FRESH.(state := Finished, first := MAGIC[0], header := h, got := rs, rnum := |rs| - 1, done := 1,
           rlen := |rs[|rs| - 1]|, coff := |rs[|rs| - 1]|)
  }

  lemma WholeMessage(c: Context, h: Byte, rs: seq<Bytes>)
    requires rs != [] && c == Opened(h).(buf := c.buf)
    ensures AtEnd(c, rs).(done := 1) == AfterMessage(h, rs)
  {
    assert [] + rs[0] == rs[0];
    assert [] + [rs[0]] + rs[1..] == rs;
    assert c.got[..c.rnum] + [c.got[c.rnum] + rs[0]] + rs[1..] == rs;
  }

  /** A prefix of a message fed at once. */
  lemma PartialMessage(n: nat, h: Byte, rs: seq<Bytes>, cut: nat)
    requires Sendable(rs) && 0 < cut <= |Stream(n, h, rs)|
    ensures var o := Feed(FRESH, Stream(n, h, rs)[..cut]);
            && o.Stops? && Valid(o.c)
            && (cut < |Stream(n, h, rs)| ==> Reading(o.c) && (Stuck(o.c) <==> BadMessageCut(n, rs, cut)))
            && (cut == |Stream(n, h, rs)| ==> o.c == AfterMessage(h, rs))
  {
    hide Preamble, Parse, Opening, Body, BadCut;
    var b := Stream(n, h, rs)[..cut];
    PartialOpening(n, h, if cut < n + 4 then cut else n + 4);
    assert [] + b == b;
    if cut <= n + 4 {
      assert b == Opening(n, h)[..cut];
      PreambleSplit(FRESH.Fed(b), []);
      assert !BadMessageCut(n, rs, cut);
    } else {
      var x := Body(rs, 2)[..cut - n - 5];
      assert b == Opening(n, h) + x;
      OpeningRead(n, h);
      PreambleSplit(FRESH.Fed(Opening(n, h)), x);
      assert FRESH.Fed(Opening(n, h)).Fed(x) == FRESH.Fed(b);
      var c := Opened(h).Fed(x);
      assert c.buf == x;
      PartialBody(c, rs, cut - n - 5);
      ParseTerminates(c);
      if cut == |Stream(n, h, rs)| {
        WholeMessage(c, h, rs);
      }
    }
  }

  // ---------------------------------------------------------------- pieces

  /** The pieces fed one after the other; once the loop spins nothing more is read. */
  function FeedAll(c: Context, ps: seq<Bytes>): (o: AsyncModel.Outcome)
    requires Valid(c)
    ensures o.Stops? ==> Valid(o.c)
  {
    if ps == [] then Stops(c)
    else
      var o := FeedAll(c, ps[..|ps| - 1]);
      if o.Stops? then FeedValid(o.c, ps[|ps| - 1]); Feed(o.c, ps[|ps| - 1]) else Spins
  }

  lemma FeedValid(c: Context, b: Bytes)
    requires Valid(c)
    ensures Feed(c, b).Stops? ==> Valid(Feed(c, b).c)
  {
    var c1 := Restarted(c.Fed(b));
    var c2 := Preamble(c1);
    if c2.state == InRecord { ParseTerminates(c2); }
  }

  ghost predicate Pieces(ps: seq<Bytes>)
  {
    forall j :: 0 <= j < |ps| ==> ps[j] != []
  }

  /** No cut between two of the pieces is bad. */
  ghost predicate GoodCuts(n: nat, rs: seq<Bytes>, ps: seq<Bytes>)
  {
    forall j :: 0 < j < |ps| ==> !BadMessageCut(n, rs, |Concat(ps[..j])|)
  }

  lemma {:induction false} ConcatCuts(ps: seq<Bytes>, j: nat)
    requires Pieces(ps) && j < |ps|
    ensures Concat(ps[..j]) <= Concat(ps) && |Concat(ps[..j])| < |Concat(ps)|
    ensures |Concat(ps[..j])| + |ps[|ps| - 1]| <= |Concat(ps)|
    ensures j > 0 ==> Concat(ps[..j]) != []
    decreases |ps|
  {
    var init := ps[..|ps| - 1];
    if j < |init| {
      ConcatCuts(init, j);
      assert init[..j] == ps[..j];
    } else {
      assert ps[..j] == init;
    }
    if j > 0 { ConcatCuts(ps[..j], 0); }
  }

  /** The pieces of a message, all cuts good, do what feeding them at once does. */
  lemma {:induction false} PiecesAsOne(n: nat, h: Byte, rs: seq<Bytes>, ps: seq<Bytes>)
    requires Sendable(rs) && Pieces(ps) && ps != [] && GoodCuts(n, rs, ps)
    requires Concat(ps[..|ps| - 1]) <= Stream(n, h, rs) && |Concat(ps[..|ps| - 1])| < |Stream(n, h, rs)|
    ensures FeedAll(FRESH, ps) == Feed(FRESH, Concat(ps))
    decreases |ps|
  {
    hide Feed, BadMessageCut;
    var init, last := ps[..|ps| - 1], ps[|ps| - 1];
    if init == [] {
      assert Concat(ps) == last;
    } else {
      GoodInit(n, rs, ps);
      ConcatCuts(init, |init| - 1);
      PiecesAsOne(n, h, rs, init);
      var cut := |Concat(init)|;
      ConcatCuts(ps, |init|);
      assert Stream(n, h, rs)[..cut] == Concat(init);
      PartialMessage(n, h, rs, cut);
      FeedSplit(FRESH, Concat(init), last);
    }
  }

  lemma GoodInit(n: nat, rs: seq<Bytes>, ps: seq<Bytes>)
    requires |ps| > 1 && GoodCuts(n, rs, ps)
    ensures GoodCuts(n, rs, ps[..|ps| - 1]) && !BadMessageCut(n, rs, |Concat(ps[..|ps| - 1])|)
  {
    var init := ps[..|ps| - 1];
    forall j | 0 < j < |init| ensures !BadMessageCut(n, rs, |Concat(init[..j])|) {
      assert init[..j] == ps[..j];
    }
  }

  /** However a message is cut, if no cut is bad the reader hands over its records, finishes
      exactly at its end, says so once and leaves the bytes of the next message alone. */
  lemma Fragmentation(n: nat, h: Byte, rs: seq<Bytes>, tail: Bytes, ps: seq<Bytes>)
    requires Sendable(rs) && Pieces(ps) && ps != [] && Concat(ps) == Stream(n, h, rs) + tail
    requires |tail| < |ps[|ps| - 1]|
    requires GoodCuts(n, rs, ps)
    ensures FeedAll(FRESH, ps) == Stops(AfterMessage(h, rs).(buf := tail))
  {
    hide Feed, BadMessageCut, FeedAll;
    var s, init := Stream(n, h, rs), ps[..|ps| - 1];
    ConcatCuts(ps, |init|);
    assert Concat(init) <= s;
    PiecesAsOne(n, h, rs, ps);
    PartialMessage(n, h, rs, |s|);
    assert s[..|s|] == s;
    if tail != [] {
      FeedSplit(FRESH, s, tail);
      assert [] + tail == tail;
    } else {
      assert s + tail == s;
    }
  }

  /** With a bad cut the parse loop never returns. */
  lemma {:induction false} BadCutSpins(n: nat, h: Byte, rs: seq<Bytes>, ps: seq<Bytes>, j: nat)
    requires Sendable(rs) && Pieces(ps) && ps != [] && Concat(ps[..|ps| - 1]) <= Stream(n, h, rs)
    requires 0 < j < |ps| && BadMessageCut(n, rs, |Concat(ps[..j])|)
    ensures FeedAll(FRESH, ps) == Spins
    decreases |ps|
  {
    hide Feed, BadMessageCut;
    var init := ps[..|ps| - 1];
    if j < |init| {
      assert init[..j] == ps[..j];
      ConcatCuts(init, |init| - 1);
      BadCutSpins(n, h, rs, init, j);
    } else if GoodCuts(n, rs, init) {
      assert init == ps[..j];
      FirstBadSpins(n, h, rs, ps);
    } else {
      var i :| 0 < i < |init| && BadMessageCut(n, rs, |Concat(init[..i])|);
      ConcatCuts(init, |init| - 1);
      BadCutSpins(n, h, rs, init, i);
    }
  }

  /** The reader gets through a message exactly if no cut is bad. */
  lemma FragmentationExact(n: nat, h: Byte, rs: seq<Bytes>, tail: Bytes, ps: seq<Bytes>)
    requires Sendable(rs) && Pieces(ps) && ps != [] && Concat(ps) == Stream(n, h, rs) + tail
    requires |tail| < |ps[|ps| - 1]|
    ensures FeedAll(FRESH, ps) == if GoodCuts(n, rs, ps) then Stops(AfterMessage(h, rs).(buf := tail)) else Spins
  {
    hide FeedAll, BadMessageCut, AfterMessage;
    if GoodCuts(n, rs, ps) {
      Fragmentation(n, h, rs, tail, ps);
    } else {
      var j :| 0 < j < |ps| && BadMessageCut(n, rs, |Concat(ps[..j])|);
      ConcatCuts(ps, |ps| - 1);
      assert Concat(ps[..|ps| - 1]) <= Stream(n, h, rs);
      BadCutSpins(n, h, rs, ps, j);
    }
  }

  lemma FirstBadSpins(n: nat, h: Byte, rs: seq<Bytes>, ps: seq<Bytes>)
    requires Sendable(rs) && Pieces(ps) && |ps| > 1 && Concat(ps[..|ps| - 1]) <= Stream(n, h, rs)
    requires GoodCuts(n, rs, ps[..|ps| - 1]) && BadMessageCut(n, rs, |Concat(ps[..|ps| - 1])|)
    ensures FeedAll(FRESH, ps) == Spins
  {
    hide Feed;
    var init, last := ps[..|ps| - 1], ps[|ps| - 1];
    var cut := |Concat(init)|;
    ConcatCuts(init, |init| - 1);
    BadWithin(rs, cut - n - 5);
    PartialOpening(n, h, 0);
    PiecesAsOne(n, h, rs, init);
    assert Stream(n, h, rs)[..cut] == Concat(init);
    PartialMessage(n, h, rs, cut);
    FeedSplit(FRESH, Concat(init), last);
  }

  /** A bad cut is inside the body. */
  lemma {:induction false} BadWithin(rs: seq<Bytes>, cut: nat)
    requires Sendable(rs) && BadCut(rs, cut)
    ensures cut < |Body(rs, 2)|
    decreases |rs|
  {
    hide Body, U32;
    BodyLength(rs);
    BodyLength(rs[1..]);
    var next := 5 + |rs[0]|;
    if cut >= next + 4 {
      BadWithin(rs[1..], cut - next);
    }
  }
}
