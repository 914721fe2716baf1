/** The incremental reader of version 2 messages on values: what an update does with the bytes
    it has, and why it does not matter how they arrived. */
module AsyncModel {
  import opened Bytes
  import opened Messaging

  datatype State = Idle | InMagic | InHeader | InRecord | AtSeparator | Finished | Failure | Version1

  /** The reading context with what its callback has been given: `got[i]` are the bytes of
      record `i`, `done` and `errors` count the closing calls for the current message. */
  datatype Context = Context(
    state: State,
    first: Byte,
    header: Byte,
    rlen: nat,
    coff: nat,
    rnum: nat,
    buf: Bytes,
    got: seq<Bytes>,
    done: nat,
    errors: nat)
  {
    function Fed(b: Bytes): Context {
      this.(buf := buf + b)
    }
  }

  const FRESH: Context := Context(Idle, 0, 0, 0, 0, 0, [], [[]], 0, 0)

  ghost predicate Valid(c: Context)
  {
    |c.got| == c.rnum + 1
  }

  /** What a loop iteration leads to. */
  datatype Outcome = Goes(c: Context) | Stops(c: Context) | Spins

  /** `async_read_move_to_next_record`. */
  function NextRecord(c: Context): Outcome
  {
    if c.buf == [] then Stops(c.(state := AtSeparator))
    else
      var c' := c.(buf := c.buf[1..]);
      if c.buf[0] == RSEP then Goes(c'.(state := InRecord, got := c.got + [[]], rnum := c.rnum + 1, rlen := 0))
      else if c.buf[0] == 0 then Stops(c'.(state := Finished))
      else Stops(c'.(state := Failure, errors := c.errors + 1))
  }

  /** The length of the next record. */
  function Length(c: Context): Outcome
  {
    if |c.buf| < 4 then Stops(c)
    else
      var n := Get32(c.buf[..4]);
      var c1 := c.(buf := c.buf[4..]);
      var o := if n == 0 then NextRecord(c1) else Goes(c1);
      if o.Goes? then Goes(o.c.(rlen := n, coff := 0)) else o
  }

  /** `n` bytes of data are taken and handed to the callback. */
  function Taken(c: Context, n: nat): Context
    requires Valid(c) && n <= |c.buf|
  {
    c.(coff := c.coff + n, buf := c.buf[n..], got := c.got[c.rnum := c.got[c.rnum] + c.buf[..n]])
  }

  function Least(a: nat, b: nat): nat { if a < b then a else b }

  /** The data at hand. */
  function Data(c: Context): Outcome
    requires Valid(c)
  {
    if c.rlen <= c.coff then Goes(c)
    else
      var c' := Taken(c, Least(c.rlen - c.coff, |c.buf|));
      if c'.buf == [] then Stops(c') else Goes(c')
  }

  /** An iteration up to the data: the separator and the length, where they are due. */
  function Border(c: Context): Outcome
  {
    if c.coff != c.rlen then Goes(c)
    else
      var o := if c.rlen > 0 then NextRecord(c) else Goes(c);
      if o.Goes? then Length(o.c) else o
  }

  lemma BorderValid(c: Context)
    requires Valid(c) && c.coff <= c.rlen
    ensures Border(c).Goes? ==> Valid(Border(c).c) && Border(c).c.coff <= Border(c).c.rlen
    ensures Border(c).Goes? && c.state == InRecord ==> Border(c).c.state == InRecord
  {
  }

  /** One iteration of the loop of `async_read_parse_protocol_v2`. It repeats itself forever
      with an offset past the length. */
  function Iterate(c: Context): Outcome
    requires Valid(c)
  {
    if c.coff > c.rlen then Spins
    else
      var o := Border(c);
      BorderValid(c);
      if o.Goes? then Data(o.c) else o
  }

  /** With an offset past the length both halves of the iteration leave everything as it is, so
      it repeats itself. */
  lemma SpinsForever(c: Context)
    requires Valid(c) && c.coff > c.rlen
    ensures Border(c) == Goes(c) && Data(c) == Goes(c)
  {
  }

  lemma IterateGoes(c: Context)
    requires Valid(c) && Iterate(c).Goes?
    ensures var c' := Iterate(c).c;
            && Valid(c') && |c'.buf| < |c.buf| && c'.coff <= c'.rlen
            && (c.state == InRecord ==> c'.state == InRecord)
  {
    BorderValid(c);
  }

  /** `async_read_parse_protocol_v2`. */
  function Parse(c: Context): (o: Outcome)
    requires Valid(c)
    ensures !o.Goes?
    decreases |c.buf|
  {
    var o := Iterate(c);
    if o.Goes? then
      IterateGoes(c);
      Parse(o.c)
    else o
  }

  /** The offset of the last record is still there, but not its length. */
  predicate Stuck(c: Context)
  {
    c.state == InRecord && c.coff > c.rlen
  }

  /** The loop terminates unless it starts with an offset past the length. */
  lemma {:induction false} ParseTerminates(c: Context)
    requires Valid(c)
    ensures Parse(c).Spins? <==> c.coff > c.rlen
    ensures Parse(c).Stops? ==> Valid(Parse(c).c)
    ensures Parse(c).Stops? && c.state == InRecord ==> Parse(c).c.state in {InRecord, AtSeparator, Finished, Failure}
    decreases |c.buf|
  {
    if c.coff <= c.rlen {
      IterateStops(c);
      if Iterate(c).Goes? {
        IterateGoes(c);
        ParseTerminates(Iterate(c).c);
      }
    }
  }

  lemma IterateStops(c: Context)
    requires Valid(c) && c.coff <= c.rlen
    ensures !Iterate(c).Spins? && Valid(Iterate(c).c)
    ensures c.state == InRecord ==> Iterate(c).c.state in {InRecord, AtSeparator, Finished, Failure}
  {
    BorderValid(c);
  }

  // ---------------------------------------------------------------- an update

  /** Skips keep-alive bytes and takes the first byte of the magic. */
  function Begin(c: Context): Context
  {
    var b := SkipNoops(c.buf);
    if b == [] then c.(buf := [], header := 0)
    else c.(buf := b[1..], header := 0, first := b[0], state := InMagic)
  }

  function Magic(c: Context): Context
  {
    if |c.buf| < 3 then c
    else
      var c' := c.(buf := c.buf[3..]);
      if [c.first] + c.buf[..2] != MAGIC[..3] || Signed(c.buf[2]) > PROTOCOL_VERSION then
        c'.(state := Failure, errors := c.errors + 1)
      else if Signed(c.buf[2]) < 2 then c'.(state := Version1)
      else c'.(state := InHeader)
  }

  function Header(c: Context): Context
  {
    if c.buf == [] then c else c.(header := c.buf[0], buf := c.buf[1..], state := InRecord)
  }

  /** The parts of a message before its records. */
  function Preamble(c: Context): Context
  {
    var c1 := if c.state == Idle then Begin(c) else c;
    var c2 := if c1.state == InMagic then Magic(c1) else c1;
    if c2.state == InHeader then Header(c2) else c2
  }

  function Restarted(c: Context): Context
  {
    if c.state == Finished then FRESH.(buf := c.buf, header := c.header, first := c.first) else c
  }

  function Closed(o: Outcome): Outcome
  {
    if o.Stops? && o.c.state == Finished then Stops(o.c.(done := o.c.done + 1)) else o
  }

  /** `async_read_context_update`. */
  function Update(c: Context): Outcome
    requires Valid(c)
  {
    var c1 := Restarted(c);
    if c1.buf == [] then Stops(c1)
    else
      var c2 := Preamble(c1);
      if c2.state == InRecord then Closed(Parse(c2)) else Stops(c2)
  }

  /** `async_read_context_consume_data`. */
  function Feed(c: Context, b: Bytes): Outcome
    requires Valid(c)
  {
    if b == [] then Stops(c) else Update(c.Fed(b))
  }

  // ---------------------------------------------------------------- a cut does not matter

  /** A message is being read. */
  predicate Reading(c: Context)
  {
    c.state == Idle || c.state == InMagic || c.state == InHeader || c.state == InRecord
  }

  lemma NextSplit(c: Context, q: Bytes)
    requires c.buf != []
    ensures NextRecord(c).Goes? ==> NextRecord(c.Fed(q)) == Goes(NextRecord(c).c.Fed(q))
    ensures NextRecord(c).Stops? ==> NextRecord(c.Fed(q)) == Stops(NextRecord(c).c.Fed(q))
  {
    assert (c.buf + q)[1..] == c.buf[1..] + q;
  }

  /** What an iteration does does not depend on bytes it does not need. */
  lemma BorderSplit(c: Context, q: Bytes)
    requires Valid(c) && c.coff <= c.rlen && c.state == InRecord
    ensures Border(c).Goes? ==> Border(c.Fed(q)) == Goes(Border(c).c.Fed(q))
    ensures Border(c).Stops? && Border(c).c.state in {Finished, Failure} ==>
              Border(c.Fed(q)) == Stops(Border(c).c.Fed(q))
  {
    if c.coff == c.rlen {
      if c.rlen > 0 {
        if c.buf != [] { NextSplit(c, q); }
        if NextRecord(c).Goes? { LengthSplit(NextRecord(c).c, q); }
      } else {
        LengthSplit(c, q);
      }
    }
  }

  lemma LengthSplit(c: Context, q: Bytes)
    requires c.state == InRecord
    ensures Length(c).Goes? ==> Length(c.Fed(q)) == Goes(Length(c).c.Fed(q))
    ensures Length(c).Stops? && Length(c).c.state in {Finished, Failure} ==>
              Length(c.Fed(q)) == Stops(Length(c).c.Fed(q))
  {
    hide Get32;
    if |c.buf| >= 4 {
      assert (c.buf + q)[..4] == c.buf[..4];
      assert (c.buf + q)[4..] == c.buf[4..] + q;
      var c1 := c.(buf := c.buf[4..]);
      if c1.buf != [] { NextSplit(c1, q); }
    }
  }

  lemma DataSplit(c: Context, q: Bytes)
    requires Valid(c) && q != []
    ensures Data(c).Goes? ==> Data(c.Fed(q)) == Goes(Data(c).c.Fed(q))
    ensures Data(c).Stops? ==> Valid(Data(c).c)
    ensures Data(c).Stops? && Data(c).c.coff == c.rlen ==> Data(c.Fed(q)) == Goes(Data(c).c.Fed(q))
    ensures Data(c).Stops? && Data(c).c.coff < c.rlen ==> Data(c.Fed(q)) == Data(Data(c).c.Fed(q))
  {
    if c.rlen > c.coff {
      if |c.buf| >= c.rlen - c.coff {
        DataSuffices(c, q);
      } else {
        DataResumes(c, q);
      }
    }
  }

  /** Data that is all there does not need what comes behind it. */
  lemma DataSuffices(c: Context, q: Bytes)
    requires Valid(c) && q != [] && 0 < c.rlen - c.coff <= |c.buf|
    ensures !Data(c).Spins? && Data(c.Fed(q)) == Goes(Data(c).c.Fed(q))
    ensures Valid(Data(c).c) && Data(c).c.coff == c.rlen
  {
    hide Taken, Data;
    var n := c.rlen - c.coff;
    TakenEarly(c, q, n);
    DataTakes(c, n);
    DataTakes(c.Fed(q), n);
  }

  lemma DataTakes(c: Context, n: nat)
    requires Valid(c) && c.rlen > c.coff && n == Least(c.rlen - c.coff, |c.buf|)
    ensures Data(c) == if Taken(c, n).buf == [] then Stops(Taken(c, n)) else Goes(Taken(c, n))
  {
    hide Taken;
  }

  lemma TakenEarly(c: Context, q: Bytes, n: nat)
    requires Valid(c) && n <= |c.buf|
    ensures Taken(c.Fed(q), n) == Taken(c, n).Fed(q)
    ensures Valid(Taken(c, n)) && Taken(c, n).coff == c.coff + n && Taken(c, n).rlen == c.rlen
  {
    CutBefore(c.buf, q, n);
  }

  /** Data that comes in two parts adds up. */
  lemma DataResumes(c: Context, q: Bytes)
    requires Valid(c) && q != [] && |c.buf| < c.rlen - c.coff
    ensures Data(c).Stops? && Valid(Data(c).c) && Data(c.Fed(q)) == Data(Data(c).c.Fed(q))
  {
    hide Taken, Data;
    var k := Least(c.rlen - c.coff - |c.buf|, |q|);
    TakenTwice(c, q, k);
    DataTakes(c, |c.buf|);
    DataTakes(c.Fed(q), |c.buf| + k);
    DataTakes(Taken(c, |c.buf|).Fed(q), k);
  }

  lemma TakenTwice(c: Context, q: Bytes, k: nat)
    requires Valid(c) && k <= |q|
    ensures var c1 := Taken(c, |c.buf|);
            && c1.buf == [] && c1.coff == c.coff + |c.buf| && c1.rlen == c.rlen && Valid(c1) && c1.Fed(q).buf == q
            && Taken(c.Fed(q), |c.buf| + k) == Taken(c1.Fed(q), k)
  {
    var c1, g := Taken(c, |c.buf|), c.got[c.rnum];
    CutBehind(c.buf, q, |c.buf| + k);
    CutBefore(c.buf, [], |c.buf|);
    assert c1.Fed(q).buf == q;
    assert g + c.buf + q[..k] == g + (c.buf + q[..k]);
    assert c1.got[c.rnum := g + c.buf + q[..k]] == c.got[c.rnum := g + c.buf + q[..k]];
  }

  lemma CutBefore(a: Bytes, q: Bytes, n: nat)
    requires n <= |a|
    ensures (a + q)[..n] == a[..n] && (a + q)[n..] == a[n..] + q
    ensures a[..|a|] == a && a[|a|..] == []
  {
  }

  lemma CutBehind(a: Bytes, q: Bytes, n: nat)
    requires |a| <= n <= |a| + |q|
    ensures (a + q)[..n] == a + q[..n - |a|] && (a + q)[n..] == q[n - |a|..]
  {
  }

  /** Where the loop stops and may go on, more bytes continue it; where it has ended the
      message, they are left alone. */
  lemma {:induction false} ParseSplit(c: Context, q: Bytes)
    requires Valid(c) && c.state == InRecord && c.coff <= c.rlen && q != []
    ensures Parse(c).Stops? && Valid(Parse(c).c) && Parse(c).c.state in {InRecord, AtSeparator, Finished, Failure}
    ensures var c1 := Parse(c).c; c1.state == InRecord && !Stuck(c1) ==> Parse(c.Fed(q)) == Parse(c1.Fed(q))
    ensures var c1 := Parse(c).c; c1.state in {Finished, Failure} ==> Parse(c.Fed(q)) == Stops(c1.Fed(q))
    decreases |c.buf|
  {
    hide Border, Data;
    ParseTerminates(c);
    BorderValid(c);
    BorderSplit(c, q);
    var o := Border(c);
    if o.Goes? {
      DataSplit(o.c, q);
      if Data(o.c).Goes? {
        IterateGoes(c);
        ParseSplit(Data(o.c).c, q);
      } else {
        DataStops(o.c, q);
      }
    } else {
      BorderStops(c);
    }
  }

  lemma DataStops(c: Context, q: Bytes)
    requires Valid(c) && Data(c).Stops? && c.state == InRecord && q != []
    ensures Valid(Data(c).c) && Data(c).c.coff <= Data(c).c.rlen == c.rlen && Data(c).c.state == InRecord
    ensures Data(c).c.coff < c.rlen ==> Iterate(Data(c).c.Fed(q)) == Data(Data(c).c.Fed(q))
  {
  }

  lemma BorderStops(c: Context)
    requires Valid(c) && c.state == InRecord && c.coff <= c.rlen && Border(c).Stops?
    ensures Border(c).c.state == InRecord && !Stuck(Border(c).c) ==> Border(c).c == c
  {
  }

  lemma {:induction false} SkipSplit(a: Bytes, b: Bytes)
    ensures SkipNoops(a + b) == if SkipNoops(a) == [] then SkipNoops(b) else SkipNoops(a) + b
  {
    if a == [] {
      assert a + b == b;
    } else if a[0] == NOOP {
      assert (a + b)[1..] == a[1..] + b;
      SkipSplit(a[1..], b);
    }
  }

  lemma BeginSplit(c: Context, q: Bytes)
    requires c.state == Idle
    ensures Begin(c).state == InMagic ==> Begin(c.Fed(q)) == Begin(c).Fed(q)
    ensures Begin(c).state == Idle ==> Begin(c.Fed(q)) == Begin(Begin(c).Fed(q))
  {
    SkipSplit(c.buf, q);
    assert [] + q == q;
  }

  lemma MagicSplit(c: Context, q: Bytes)
    requires c.state == InMagic
    ensures Magic(c).state != InMagic ==> Magic(c.Fed(q)) == Magic(c).Fed(q)
    ensures Magic(c).state == InMagic ==> Magic(c) == c
  {
    if |c.buf| >= 3 {
      assert (c.buf + q)[..2] == c.buf[..2] && (c.buf + q)[3..] == c.buf[3..] + q;
    }
  }

  lemma HeaderSplit(c: Context, q: Bytes)
    requires c.state == InHeader
    ensures Header(c).state == InRecord ==> Header(c.Fed(q)) == Header(c).Fed(q)
    ensures Header(c).state != InRecord ==> Header(c) == c
  {
    if c.buf != [] {
      assert (c.buf + q)[1..] == c.buf[1..] + q;
    }
  }

  lemma PreambleSplit(c: Context, q: Bytes)
    requires Reading(c)
    ensures Preamble(c).state !in {Idle, InMagic, InHeader} ==> Preamble(c.Fed(q)) == Preamble(c).Fed(q)
    ensures Preamble(c).state in {Idle, InMagic, InHeader} ==> Preamble(c.Fed(q)) == Preamble(Preamble(c).Fed(q))
    ensures Valid(c) ==> Valid(Preamble(c))
    ensures Preamble(c).rlen == c.rlen && Preamble(c).coff == c.coff
  {
    hide SkipNoops, Begin, Magic, Header;
    BeginStates(c);
    var c1 := if c.state == Idle then Begin(c) else c;
    if c.state == Idle { BeginSplit(c, q); }
    var c2 := if c1.state == InMagic then Magic(c1) else c1;
    MagicStates(c1);
    HeaderStates(c2);
    if c1.state == InMagic { MagicSplit(c1, q); }
    if c2.state == InHeader { HeaderSplit(c2, q); }
  }

  /** Two contexts that differ only before the records. */
  ghost predicate SameRecord(c: Context, c': Context)
  {
    c'.rlen == c.rlen && c'.coff == c.coff && c'.rnum == c.rnum && c'.got == c.got
  }

  lemma BeginStates(c: Context)
    requires Reading(c)
    ensures SameRecord(c, Begin(c)) && (c.state == Idle ==> Begin(c).state in {Idle, InMagic})
  {
  }

  lemma MagicStates(c: Context)
    ensures SameRecord(c, Magic(c)) && (c.state == InMagic ==> Magic(c).state in {InMagic, InHeader, Version1, Failure})
  {
  }

  lemma HeaderStates(c: Context)
    ensures SameRecord(c, Header(c)) && (c.state == InHeader ==> Header(c).state in {InHeader, InRecord})
  {
  }

  /** Whatever is fed in two parts might have been fed in one, unless the cut leaves the
      reader stuck; bytes behind the end of a message stay where they are. */
  lemma FeedSplit(c: Context, p: Bytes, q: Bytes)
    requires Valid(c) && Reading(c) && !Stuck(c) && p != [] && q != []
    requires c.state != InRecord ==> c.coff == c.rlen == 0
    ensures Feed(c, p).Stops? && Valid(Feed(c, p).c)
    ensures var c1 := Feed(c, p).c; Reading(c1) && !Stuck(c1) ==> Feed(c, p + q) == Feed(c1, q)
    ensures var c1 := Feed(c, p).c; Stuck(c1) ==> Feed(c1, q) == Spins
    ensures var c1 := Feed(c, p).c; c1.state in {Finished, Failure} ==> Feed(c, p + q) == Stops(c1.Fed(q))
  {
    hide Parse, Preamble;
    assert c.buf + (p + q) == c.buf + p + q;
    var x := c.Fed(p);
    PreambleSplit(x, q);
    var c2 := Preamble(x);
    if c2.state == InRecord {
      ParseSplit(c2, q);
      var c1 := Parse(c2).c;
      if c1.state == InRecord { ParsePreamble(c1.Fed(q)); }
      if Stuck(c1) { ParseTerminates(c1.Fed(q)); }
    }
  }

  /** After a message the next bytes join those that were left alone, and are read as if the
      reader were new. */
  lemma NextMessage(c: Context, q: Bytes)
    requires Valid(c) && c.state == Finished && q != []
    ensures Feed(c, q) == Feed(FRESH.(header := c.header, first := c.first), c.buf + q)
  {
    hide Parse, Preamble;
    assert [] + (c.buf + q) == c.buf + q;
  }

  lemma ParsePreamble(c: Context)
    requires c.state == InRecord
    ensures Preamble(c) == c
  {
  }
}
