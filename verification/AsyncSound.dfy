/** What the incremental reader takes for a message and what for an error. */
module AsyncSound {
  import opened Bytes
  import opened Messaging
  import opened MessagingSound
  import opened AsyncModel

  // ---------------------------------------------------------------- the preamble

  /** `n` bytes are skipped to the first one that is not for keeping alive. */
  ghost predicate Starts(b: Bytes, x: Bytes)
  {
    (exists n :: b == Noops(n) + x) && (x == [] || x[0] != 0x90)
  }

  /** A new message: a failure exactly if its first three bytes are not `shc` or the fourth is a
      version above 2; a fourth below 2, or above 127, makes it version 1; otherwise the fifth byte
      is the header and the records begin. With fewer bytes the reader waits. */
  lemma PreambleExactly(c: Context, x: Bytes)
    requires c.state == Idle && Starts(c.buf, x)
    ensures var c' := Preamble(c);
            if x == [] then c'.state == Idle && c'.buf == [] && c'.header == 0
            else if |x| < 4 then c'.state == InMagic && c'.first == x[0] && c'.buf == x[1..] && c'.header == 0
            else
              var wrong := x[0] != 0x73 || x[1] != 0x68 || x[2] != 0x63 || 2 < x[3] < 128;
              && (c'.state == Failure <==> wrong)
              && c'.errors == c.errors + (if wrong then 1 else 0)
              && (wrong ==> c'.header == 0)
              && (wrong ==> c'.buf == x[4..])
              && (!wrong && x[3] != 2 ==> c'.state == Version1 && c'.buf == x[4..])
              && (!wrong && x[3] == 2 && |x| == 4 ==> c'.state == InHeader && c'.buf == [])
              && (!wrong && x[3] == 2 && |x| > 4 ==>
                    c'.state == InRecord && c'.header == x[4] && c'.buf == x[5..])
  {
    var n :| c.buf == Noops(n) + x;
    NoopsSkipped(n, x);
    if |x| >= 4 {
      var b := x[1..];
      assert [x[0]] + b[..2] == [x[0], x[1], x[2]] && MAGIC[..3] == [0x73, 0x68, 0x63];
      assert b[3..] == x[4..] && x[4..][..] == x[4..];
    }
  }

  /** Without bytes nothing happens. An update without any only makes a finished reader ready for the
      next message. */
  lemma NothingFed(c: Context)
    requires Valid(c)
    ensures Feed(c, []) == Stops(c)
    ensures c.buf == [] && c.state != Finished ==> Update(c) == Stops(c)
    ensures c.buf == [] && c.state == Finished ==> Update(c) == Stops(FRESH.(header := c.header, first := c.first))
  {
  }

  // ---------------------------------------------------------------- the records

  /** The loop from the length of a record on. */
  function Onward(c: Context): AsyncModel.Outcome
    requires Valid(c)
  {
    var o := Length(c);
    if !o.Goes? then o
    else
      var d := Data(o.c);
      if d.Goes? then
        OnwardValid(c);
        Parse(d.c)
      else d
  }

  lemma OnwardValid(c: Context)
    requires Valid(c) && Length(c).Goes? && Data(Length(c).c).Goes?
    ensures Valid(Data(Length(c).c).c)
  {
  }

  /** Where a record begins. */
  ghost predicate Ready(c: Context)
  {
    Valid(c) && c.state == InRecord && c.got[c.rnum] == []
  }

  lemma ParseOnward(c: Context)
    requires Ready(c) && c.coff == c.rlen == 0
    ensures Parse(c) == Onward(c)
  {
    hide Length, Data;
  }

  /** Behind the data of a record. */
  lemma ParseNext(c: Context)
    requires Valid(c) && c.state == InRecord && c.coff == c.rlen > 0 && c.buf != []
    ensures c.buf[0] == RSEP ==> NextRecord(c).Goes? && Ready(NextRecord(c).c) && Parse(c) == Onward(NextRecord(c).c)
    ensures c.buf[0] != RSEP ==> Parse(c) == NextRecord(c)
  {
    hide Length, Data;
  }

  /** A record of `n` bytes, all of them there, and at least one byte behind them. */
  lemma OnwardData(c: Context, n: nat)
    requires Ready(c) && 0 < n && |c.buf| > 4 + n && n == Get32(c.buf[..4])
    ensures var d := c.(rlen := n, coff := n, buf := c.buf[4 + n..], got := c.got[c.rnum := c.buf[4..4 + n]]);
            Valid(d) && Onward(c) == Parse(d)
  {
    hide Get32, Parse;
    assert c.buf[4..][..n] == c.buf[4..4 + n] && c.buf[4..][n..] == c.buf[4 + n..];
    assert [] + c.buf[4..4 + n] == c.buf[4..4 + n];
  }

  /** Anything less and the reader waits for more. */
  lemma OnwardWaits(c: Context)
    requires Ready(c)
    requires |c.buf| < 4 || |c.buf| <= 4 + Get32(c.buf[..4])
    ensures Onward(c).Stops? && Onward(c).c.state in {InRecord, AtSeparator}
  {
    hide Get32, Parse;
  }

  /** What is left when the loop has come to an end, and the byte that ended it. */
  ghost predicate Ended(c: Context, ts: seq<Text>, end: Byte, c': Context)
    requires Valid(c)
  {
    && ts != [] && end != RSEP && (forall j :: 0 <= j < |ts| ==> Plain(ts[j].bytes, ts[j].record))
    && c.buf == Wire(ts, end) + c'.buf
    && c'.got == c.got[..c.rnum] + Records(ts)
    && c'.state == (if end == 0 then Finished else Failure)
    && c'.errors == c.errors + (if end == 0 then 0 else 1)
  }

  lemma EndedOne(c: Context, t: Text, c': Context)
    requires Ready(c) && Plain(t.bytes, t.record) && |c.buf| > |t.bytes| && c.buf[..|t.bytes|] == t.bytes
    requires c.buf[|t.bytes|] != RSEP
    requires var end := c.buf[|t.bytes|];
             && c'.buf == c.buf[|t.bytes| + 1..] && c'.got == c.got[c.rnum := t.record]
             && c'.state == (if end == 0 then Finished else Failure)
             && c'.errors == c.errors + (if end == 0 then 0 else 1)
    ensures Ended(c, [t], c.buf[|t.bytes|], c')
  {
    hide Plain;
    assert Records([t]) == [t.record] by { assert [t][1..] == []; }
    assert c.got[c.rnum := t.record] == c.got[..c.rnum] + [t.record];
    assert c.buf == t.bytes + [c.buf[|t.bytes|]] + c.buf[|t.bytes| + 1..];
  }

  lemma EndedMore(c: Context, t: Text, d: Context, ts: seq<Text>, end: Byte, c': Context)
    requires Ready(c) && Plain(t.bytes, t.record) && |c.buf| > |t.bytes| && c.buf[..|t.bytes|] == t.bytes
    requires c.buf[|t.bytes|] == RSEP
    requires Valid(d) && d.buf == c.buf[|t.bytes| + 1..] && d.rnum == c.rnum + 1
    requires d.got == c.got[c.rnum := t.record] + [[]] && d.errors == c.errors && Ended(d, ts, end, c')
    ensures Ended(c, [t] + ts, end, c')
  {
    hide Plain;
    var all := [t] + ts;
    assert all[1..] == ts;
    assert Records(all) == [t.record] + Records(ts);
    assert d.got[..d.rnum] == c.got[..c.rnum] + [t.record];
    assert c.buf == t.bytes + [RSEP] + d.buf;
  }

  /** If the loop comes to an end, it has read a body: whole records with separators between them, and
      behind them a 0, if it is finished, or a byte that should not be there, if it has failed. */
  lemma {:induction false} OnwardEnds(c: Context) returns (ts: seq<Text>, end: Byte)
    requires Ready(c) && Onward(c).Stops? && Onward(c).c.state in {Finished, Failure}
    ensures Ended(c, ts, end, Onward(c).c)
    decreases |c.buf|
  {
    hide Get32, Parse, Ended, Data;
    if |c.buf| < 4 || |c.buf| <= 4 + Get32(c.buf[..4]) { OnwardWaits(c); }
    var n := Get32(c.buf[..4]);
    var t := Text(c.buf[..4 + n], c.buf[4..4 + n]);
    assert t.bytes[..4] == c.buf[..4];
    var d, c' := Behind(c, n), Onward(c).c;
    OnwardBehind(c, n);
    if c.buf[4 + n] == RSEP {
      ts, end := OnwardEnds(d);
      EndedMore(c, t, d, ts, end, c');
      ts := [t] + ts;
    } else {
      EndedOne(c, t, c');
      ts, end := [t], c.buf[4 + n];
    }
  }

  /** Where the next record begins. */
  function Behind(c: Context, n: nat): Context
    requires Valid(c) && |c.buf| > 4 + n
  {
    c.(rlen := 0, coff := n, buf := c.buf[5 + n..], rnum := c.rnum + 1,
       got := c.got[c.rnum := c.buf[4..4 + n]] + [[]])
  }

  lemma OnwardBehind(c: Context, n: nat)
    requires Ready(c) && |c.buf| > 4 + n && n == Get32(c.buf[..4])
    ensures Ready(Behind(c, n))
    ensures c.buf[4 + n] == RSEP ==> Onward(c) == Onward(Behind(c, n))
    ensures c.buf[4 + n] != RSEP ==>
              Onward(c).Stops? &&
              var c' := Onward(c).c;
              && c'.buf == c.buf[5 + n..] && c'.got == c.got[c.rnum := c.buf[4..4 + n]]
              && c'.state == (if c.buf[4 + n] == 0 then Finished else Failure)
              && c'.errors == c.errors + (if c.buf[4 + n] == 0 then 0 else 1)
  {
    hide Parse, Onward, Get32;
    if n == 0 {
      OnwardEmpty(c);
    } else {
      OnwardData(c, n);
      var d := c.(rlen := n, coff := n, buf := c.buf[4 + n..], got := c.got[c.rnum := c.buf[4..4 + n]]);
      assert d.buf[1..] == c.buf[5 + n..];
      ParseNext(d);
    }
  }

  lemma OnwardEmpty(c: Context)
    requires Ready(c) && |c.buf| > 4 && Get32(c.buf[..4]) == 0
    ensures c.buf[4] == RSEP ==> Onward(c) == Onward(Behind(c, 0))
    ensures c.buf[4] != RSEP ==>
              Onward(c).Stops? &&
              var c' := Onward(c).c;
              && c'.buf == c.buf[5..] && c'.got == c.got[c.rnum := c.buf[4..4]]
              && c'.state == (if c.buf[4] == 0 then Finished else Failure)
              && c'.errors == c.errors + (if c.buf[4] == 0 then 0 else 1)
  {
    hide Parse, Get32;
    assert c.buf[4..][1..] == c.buf[5..];
    assert c.buf[4..4] == [];
    assert c.got[c.rnum := c.buf[4..4]] == c.got;
    if c.buf[4] == RSEP { ParseOnward(Behind(c, 0)); }
  }

  // ---------------------------------------------------------------- whole messages

  /** Bytes a new reader takes for a whole message are one: `shc`, version 2 and a header, behind any
      keep-alive bytes, and a body. It hands on the records, closes them once, and leaves what is
      behind the message. */
  lemma FinishedMessage(b: Bytes) returns (x: Bytes, ts: seq<Text>)
    requires Valid(FRESH) && Feed(FRESH, b).Stops? && Feed(FRESH, b).c.state == Finished
    ensures Starts(b, x) && |x| > 4 && x[..4] == [0x73, 0x68, 0x63, 2]
    ensures ts != [] && (forall j :: 0 <= j < |ts| ==> Plain(ts[j].bytes, ts[j].record))
    ensures var c' := Feed(FRESH, b).c;
            && x[5..] == Wire(ts, 0) + c'.buf && c'.header == x[4]
            && c'.got == Records(ts) && c'.done == 1 && c'.errors == 0
  {
    hide Preamble, Parse, Onward, SkipNoops, Feed, Wire, Records;
    x := Skips(b);
    var c := FRESH.Fed(b);
    var d := Preamble(c);
    FirstFeed(b);
    PreambleExactly(c, x);
    PreambleKeeps(c);
    ParseOnward(d);
    var end;
    ts, end := OnwardEnds(d);
    ParseHeader(d);
    assert d.got[..0] + Records(ts) == Records(ts);
    assert x[..4] == [x[0], x[1], x[2], x[3]];
  }

  lemma Skips(b: Bytes) returns (x: Bytes)
    ensures Starts(b, x) && Starts(FRESH.Fed(b).buf, x)
  {
    var n := SkippedNoops(b);
    x := SkipNoops(b);
    assert [] + b == b;
  }

  lemma FirstFeed(b: Bytes)
    requires Valid(FRESH) && Feed(FRESH, b).Stops? && Feed(FRESH, b).c.state == Finished
    ensures var d := Preamble(FRESH.Fed(b));
            && Valid(d) && d.state == InRecord
            && Parse(d).Stops? && Feed(FRESH, b) == Stops(Parse(d).c.(done := Parse(d).c.done + 1))
  {
    hide Parse;
    assert [] + b == b;
  }

  lemma PreambleKeeps(c: Context)
    ensures var d := Preamble(c);
            && d.rlen == c.rlen && d.coff == c.coff && d.rnum == c.rnum && d.got == c.got && d.done == c.done
  {
  }

  lemma {:induction false} ParseHeader(c: Context)
    requires Valid(c)
    ensures Parse(c).Stops? ==> Parse(c).c.header == c.header && Parse(c).c.done == c.done
    decreases |c.buf|
  {
    if c.coff <= c.rlen {
      BorderValid(c);
      if Iterate(c).Goes? {
        IterateGoes(c);
        ParseHeader(Iterate(c).c);
      }
    }
  }
}
