/** Streaming a value to a version 1 client: chunks are sent as soon as they are full. */
module Chunker {
  import opened Bytes
  import opened Messaging

  const RESPONSE: Byte := 0x99

  /** What is sent before the data. */
  const OPENING: Bytes := [0x73, 0x68, 0x63, 1, RESPONSE]

  /** The full chunks of a value. */
  function Emitted(v: Bytes): Bytes
  {
    if |v| < MAX_CHUNK then []
    else U16(MAX_CHUNK) + v[..MAX_CHUNK] + Emitted(v[MAX_CHUNK..])
  }

  /** What the full chunks leave. */
  function Remainder(v: Bytes): (r: Bytes)
    ensures |r| < MAX_CHUNK
  {
    if |v| < MAX_CHUNK then v else Remainder(v[MAX_CHUNK..])
  }

  /** A last chunk that says it has `size` bytes. */
  function Flush(size: nat, r: Bytes): Bytes
  {
    if size == 0 then [] else U16(size) + r
  }

  /** The size that the last chunk is given: of the data that comes with the completion, if it
      fills no chunk, else of all that is left. */
  function LastSize(acc: Bytes, data: Bytes): nat
  {
    if |acc| + |data| < MAX_CHUNK && data != [] then |data| else |Remainder(acc + data)|
  }

  // ---------------------------------------------------------------- streaming as one shot

  /** Data that arrives later is chunked with what was left before. */
  lemma {:induction false} EmittedLater(v: Bytes, d: Bytes)
    ensures Emitted(v + d) == Emitted(v) + Emitted(Remainder(v) + d)
    ensures Remainder(v + d) == Remainder(Remainder(v) + d)
    decreases |v|
  {
    hide U16;
    if |v| >= MAX_CHUNK {
      assert (v + d)[..MAX_CHUNK] == v[..MAX_CHUNK];
      assert (v + d)[MAX_CHUNK..] == v[MAX_CHUNK..] + d;
      EmittedLater(v[MAX_CHUNK..], d);
    }
  }

  /** A chunked value is its full chunks, the rest and the end mark. */
  lemma {:induction false} ChunkedSplits(v: Bytes)
    requires v != []
    ensures Chunked(v) == Emitted(v) + Flush(|Remainder(v)|, Remainder(v)) + U16(0)
    decreases |v|
  {
    hide U16;
    if |v| == MAX_CHUNK {
      assert v[..MAX_CHUNK] == v && v[MAX_CHUNK..] == [];
      assert Emitted(v) == U16(MAX_CHUNK) + v + [];
    } else if |v| > MAX_CHUNK {
      ChunkedSplits(v[MAX_CHUNK..]);
    }
  }

  /** The body sent for a value: what the last chunk says decides whether it is the body that
      would be built in one piece. */
  function Sent(v: Bytes, size: nat): Bytes
  {
    Emitted(v) + Flush(size, Remainder(v)) + U16(0) + [0]
  }

  lemma SentWhole(v: Bytes, size: nat)
    requires size < MAX_CHUNK
    ensures Sent(v, size) == Body([v], 1) <==> size == |Remainder(v)|
  {
    hide U16, Emitted, Remainder;
    var good := |Remainder(v)|;
    if v == [] {
      EmptyEmitted();
    } else {
      ChunkedSplits(v);
    }
    assert Sent(v, good) == Body([v], 1);
    if size != good && Sent(v, size) == Sent(v, good) {
      SizesDiffer(v, size, good);
      assert false;
    }
  }

  lemma EmptyEmitted()
    ensures Emitted([]) == [] && Remainder([]) == []
  {
  }

  lemma SizesDiffer(v: Bytes, a: nat, b: nat)
    requires a < MAX_CHUNK && b < MAX_CHUNK && a != b
    ensures Sent(v, a) != Sent(v, b)
  {
    var n := |Emitted(v)|;
    Read16(a);
    Read16(b);
    hide U16, Get16, Emitted, Remainder;
    assert Sent(v, a)[n..n + 2] == U16(a) by { FirstField(v, a); }
    assert Sent(v, b)[n..n + 2] == U16(b) by { FirstField(v, b); }
  }

  lemma FirstField(v: Bytes, size: nat)
    ensures var n := |Emitted(v)|; |Sent(v, size)| >= n + 2 && Sent(v, size)[n..n + 2] == U16(size)
  {
    hide U16, Emitted, Remainder;
    var n := |Emitted(v)|;
    if size == 0 {
      assert Sent(v, size) == Emitted(v) + (U16(0) + [0]);
    } else {
      assert Sent(v, size) == Emitted(v) + (U16(size) + (Remainder(v) + U16(0) + [0]));
    }
  }

  /** The completion sends the right size exactly if it brings no data onto data that waits. */
  lemma LastSizeExact(v: Bytes, d: Bytes)
    ensures LastSize(Remainder(v), d) == |Remainder(v + d)|
       <==> Remainder(v) == [] || d == [] || |Remainder(v)| + |d| >= MAX_CHUNK
  {
    EmittedLater(v, d);
  }

  // ---------------------------------------------------------------- the handler

  /** The fields of a request that the handler changes, and all it has sent. */
  datatype Reply = Reply(copied: nat, accumulator: Bytes, output: Bytes, done: nat)

  const FRESH: Reply := Reply(0, [], [], 0)

  /** `get_async_data_handler` for a version 1 client and a plain get. */
  function Handle(r: Reply, data: Bytes, totalSize: nat, timestamp: bool): Reply
  {
    var r1 := if r.copied == 0 then r.(output := r.output + OPENING) else r;
    if data == [] && totalSize == 0 then
      r1.(output := r1.output + (U16(0) + [0]), done := r.done + 1)
    else
      var all := r.accumulator + data;
      var r2 := r1.(copied := r.copied + |data|, accumulator := Remainder(all), output := r1.output + Emitted(all));
      if totalSize > 0 && timestamp then Completed(r2, LastSize(r.accumulator, data)) else r2
  }

  /** The last chunk, if there is one, and the end of the response. */
  function Completed(r: Reply, size: nat): Reply
  {
    r.(output := r.output + Flush(size, r.accumulator) + (U16(0) + [0]),
       accumulator := if size == 0 then r.accumulator else [],
       done := r.done + 2)
  }

  /** The pieces of a value, as they come before the completion. `total` is what the fetch
      says the size of the value is. */
  function HandleAll(r: Reply, ps: seq<Bytes>, total: nat): Reply
  {
    if ps == [] then r else Handle(HandleAll(r, ps[..|ps| - 1], total), ps[|ps| - 1], total, false)
  }

  /** Along the way the full chunks have been sent, behind one opening, and less than a chunk
      waits. */
  lemma {:induction false} PiecesSent(ps: seq<Bytes>, total: nat)
    requires forall j :: 0 <= j < |ps| ==> ps[j] != []
    ensures var v := Concat(ps);
            && (ps != [] ==> v != [])
            && HandleAll(FRESH, ps, total) ==
               Reply(|v|, Remainder(v), if ps == [] then [] else OPENING + Emitted(v), 0)
  {
    hide Emitted, Remainder, U16, Handle;
    if ps == [] {
      EmptyEmitted();
    } else {
      var init, last := ps[..|ps| - 1], ps[|ps| - 1];
      PiecesSent(init, total);
      HandlePiece(HandleAll(FRESH, init, total), last, total, false);
      EmittedLater(Concat(init), last);
      EmptyEmitted();
      var out := Emitted(Remainder(Concat(init)) + last);
      assert [] + OPENING + out == OPENING + ([] + out);
      assert OPENING + Emitted(Concat(init)) + out == OPENING + (Emitted(Concat(init)) + out);
    }
  }

  /** A piece before the completion, or one without a total size, which never completes. */
  lemma HandlePiece(r: Reply, data: Bytes, total: nat, timestamp: bool)
    requires data != [] && (total == 0 || !timestamp)
    ensures var all := r.accumulator + data;
            Handle(r, data, total, timestamp) ==
            Reply(r.copied + |data|, Remainder(all),
                  (if r.copied == 0 then r.output + OPENING else r.output) + Emitted(all), r.done)
  {
    hide Emitted, Remainder, U16;
  }

  /** The request is done exactly after an end call, without data and size, or a completion; nothing
      waits after a completion. */
  lemma Closes(r: Reply, data: Bytes, total: nat, timestamp: bool)
    ensures var r' := Handle(r, data, total, timestamp);
            var ended, completed := data == [] && total == 0, total > 0 && timestamp;
            && r'.done == r.done + (if ended then 1 else if completed then 2 else 0)
            && r'.copied == r.copied + |data|
            && (if ended then r'.accumulator == r.accumulator
                else if completed then r'.accumulator == []
                else r'.accumulator == Remainder(r.accumulator + data))
  {
    hide Emitted, U16;
    if |r.accumulator + data| < MAX_CHUNK { assert Remainder(r.accumulator + data) == r.accumulator + data; }
  }

  /** Whatever pieces a value comes in, the completion makes the response the one that would
      be built for the value at once. If it brings data of its own, that is so exactly unless
      the data is added to waiting data without filling a chunk. */
  lemma Streamed(ps: seq<Bytes>, last: Bytes, total: nat)
    requires forall j :: 0 <= j < |ps| ==> ps[j] != []
    requires total > 0
    ensures var v, w := Concat(ps), Concat(ps) + last;
            Handle(HandleAll(FRESH, ps, total), last, total, true).output == OPENING + Body([w], 1)
            <==> Remainder(v) == [] || last == [] || |Remainder(v)| + |last| >= MAX_CHUNK
  {
    hide Emitted, Remainder, U16, LastSize, Body;
    var v, w, r := Concat(ps), Concat(ps) + last, HandleAll(FRESH, ps, total);
    PiecesSent(ps, total);
    EmittedLater(v, last);
    EmptyEmitted();
    LastSizeExact(v, last);
    LastSizeBound(Remainder(v), last);
    var size := LastSize(Remainder(v), last);
    SentWhole(w, size);
    var out := Handle(r, last, total, true).output;
    assert out == OPENING + Sent(w, size) by { Gathered(v, last, w, size, r); }
    assert out[|OPENING|..] == Sent(w, size);
    assert (OPENING + Body([w], 1))[|OPENING|..] == Body([w], 1);
  }

  lemma Gathered(v: Bytes, last: Bytes, w: Bytes, size: nat, r: Reply)
    requires Emitted(w) == Emitted(v) + Emitted(Remainder(v) + last) && Remainder(w) == Remainder(Remainder(v) + last)
    requires r.accumulator == Remainder(v) && r.output + (if r.copied == 0 then OPENING else []) == OPENING + Emitted(v)
    ensures var out := OPENING + Emitted(v) + Emitted(Remainder(v) + last);
            Completed(r.(accumulator := Remainder(w), output := out), size).output == OPENING + Sent(w, size)
  {
    hide Emitted, Remainder, U16;
  }

  lemma LastSizeBound(acc: Bytes, data: Bytes)
    ensures LastSize(acc, data) < MAX_CHUNK
  {
  }

  /** A value without data. */
  lemma StreamedEmpty(timestamp: bool)
    ensures Handle(FRESH, [], 0, timestamp).output == OPENING + Body([[]], 1)
  {
    hide U16;
    assert [] + OPENING == OPENING;
  }

  // ---------------------------------------------------------------- the request in place

  class Request {
    var copied: nat
    var accumulator: Bytes
    var output: Bytes
    var done: nat

    function View(): Reply
      reads this
    {
      Reply(copied, accumulator, output, done)
    }

    constructor ()
      ensures View() == FRESH
    {
      copied, accumulator, output, done := 0, [], [], 0;
    }

    method Send(b: Bytes)
      modifies `output
      ensures output == old(output) + b
    {
      output := output + b;
    }

    /** `send_async_data_response_epilogue`. */
    method SendEpilogue()
      modifies `output, `done
      ensures output == old(output) + (U16(0) + [0]) && done == old(done) + 1
    {
      Send(U16(0) + [0]);
      done := done + 1;
    }

    /** The loop that sends full chunks and keeps the rest. */
    method SendChunks(data: Bytes) returns (size: nat)
      requires |accumulator| < MAX_CHUNK
      modifies `copied, `accumulator, `output
      ensures output == old(output) + Emitted(old(accumulator) + data)
      ensures accumulator == Remainder(old(accumulator) + data)
      ensures copied == old(copied) + |data|
      ensures size == LastSize(old(accumulator), data)
    {
      hide U16, Emitted, Remainder;
      var all := accumulator + data;
      var off, left := 0, |accumulator| + |data|;
      size := |accumulator|;
      assert data[0..] == data;
      while left >= MAX_CHUNK
        invariant off <= |data| && size == |accumulator| < MAX_CHUNK && left == size + |data| - off
        invariant output + Emitted(accumulator + data[off..]) == old(output) + Emitted(all)
        invariant Remainder(accumulator + data[off..]) == Remainder(all)
        invariant copied == old(copied) + off
        invariant accumulator == if off == 0 then old(accumulator) else []
        invariant off == 0 || |all| >= MAX_CHUNK
      {
        ghost var rest := accumulator + data[off..];
        var chunk, copy := U16(MAX_CHUNK), MAX_CHUNK;
        if size > 0 {
          chunk := chunk + accumulator;
          copy := copy - size;
          size, accumulator := 0, [];
        }
        if |data| - off >= copy {
          chunk := chunk + data[off..off + copy];
          off := off + copy;
          copied := copied + copy;
        }
        assert chunk == U16(MAX_CHUNK) + rest[..MAX_CHUNK];
        assert rest[MAX_CHUNK..] == [] + data[off..];
        EmitOne(rest, old(output), output, all);
        Send(chunk);
        left := size + |data| - off;
      }
      EmitNone(accumulator + data[off..]);
      if |data| > off {
        accumulator := accumulator + data[off..];
        size := |data| - off;
        copied := copied + (|data| - off);
      }
    }

    method Respond(data: Bytes, totalSize: nat, timestamp: bool) returns (rc: int)
      requires |accumulator| < MAX_CHUNK
      modifies this
      ensures View() == Handle(old(View()), data, totalSize, timestamp)
      ensures rc == if data == [] && totalSize == 0 && !timestamp then -1 else 0
    {
      hide U16, Emitted, Remainder;
      if copied == 0 {
        Send(OPENING);
      }
      if |data| == 0 && totalSize == 0 {
        SendEpilogue();
        return if timestamp then 0 else -1;
      }
      var size := SendChunks(data);
      if totalSize > 0 && timestamp {
        if size > 0 {
          Send(U16(size) + accumulator);
          accumulator := [];
        }
        SendEpilogue();
        done := done + 1;
      }
      rc := 0;
    }
  }

  lemma EmitOne(rest: Bytes, before: Bytes, output: Bytes, all: Bytes)
    requires |rest| >= MAX_CHUNK && output + Emitted(rest) == before + Emitted(all)
    ensures output + (U16(MAX_CHUNK) + rest[..MAX_CHUNK]) + Emitted(rest[MAX_CHUNK..]) == before + Emitted(all)
    ensures Remainder(rest) == Remainder(rest[MAX_CHUNK..])
  {
    hide U16;
  }

  lemma EmitNone(rest: Bytes)
    ensures |rest| < MAX_CHUNK ==> Emitted(rest) == [] && Remainder(rest) == rest
  {
  }
}
