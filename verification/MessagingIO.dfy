/** The loops that build messages into a buffer and read them from a socket. */
module MessagingIO {
  import opened Bytes
  import opened Messaging

  /** A growing buffer. */
  class Buffer {
    var data: Bytes

    constructor ()
      ensures data == []
    {
      data := [];
    }

    method Add(b: Bytes)
      modifies this
      ensures data == old(data) + b
    {
      data := data + b;
    }
  }

  /** The receiving end of a connection: what the peer has sent and nobody has read. */
  class Socket {
    var input: Bytes

    constructor (input: Bytes)
      ensures this.input == input
    {
      this.input := input;
    }

    /** A read of a short field, which arrives whole unless the input ends. */
    method Take(n: nat) returns (b: Bytes)
      modifies this
      ensures |b| == if |old(input)| < n then |old(input)| else n
      ensures b == old(input)[..|b|] && input == old(input)[|b|..]
    {
      var k := if |input| < n then |input| else n;
      b, input := input[..k], input[k..];
    }

    /** A read of record data, which may give less than asked, but something if there is
        something. */
    method TakeSome(n: nat) returns (b: Bytes)
      requires n > 0
      modifies this
      ensures |b| <= n && |b| <= |old(input)| && (b == [] ==> old(input) == [])
      ensures b == old(input)[..|b|] && input == old(input)[|b|..]
    {
      if input == [] {
        b := [];
      } else {
        var k: nat :| 1 <= k <= n && k <= |input|;
        b, input := input[..k], input[k..];
      }
    }
  }

  // ---------------------------------------------------------------- building

  /** `_chunkize_buffer`. */
  method Chunkize(b: Bytes, out: Buffer)
    modifies out
    ensures out.data == old(out.data) + Chunked(b)
  {
    hide U16;
    var ofx, left := 0, |b|;
    while true
      invariant 0 <= ofx <= |b| && left == |b| - ofx
      invariant out.data + Chunked(b[ofx..]) == old(out.data) + Chunked(b)
      decreases left
    {
      var n := if left > MAX_CHUNK then MAX_CHUNK else left;
      left := left - n;
      ghost var before := out.data;
      out.Add(U16(n));
      out.Add(b[ofx..ofx + n]);
      if left == 0 {
        out.Add(U16(0));
        assert b[ofx..ofx + n] == b[ofx..];
        assert out.data == before + Chunked(b[ofx..]);
        return;
      }
      assert b[ofx..][..n] == b[ofx..ofx + n] && b[ofx..][n..] == b[ofx + n..];
      assert before + Chunked(b[ofx..]) == out.data + Chunked(b[ofx + n..]);
      ofx := ofx + n;
    }
  }

  method AddRecord(r: Bytes, out: Buffer, version: int)
    modifies out
    ensures out.data == old(out.data) + Record(r, version)
  {
    hide U16, U32, Chunked;
    if r != [] {
      if version < 2 {
        Chunkize(r, out);
      } else {
        out.Add(U32(|r|));
        out.Add(r);
      }
    } else if version < 2 {
      out.Add(U16(0));
    }
  }

  /** The records of `build_message`, with what stands between and behind them. */
  method AddRecords(rs: seq<Bytes>, out: Buffer, version: int)
    requires rs != []
    modifies out
    ensures out.data + [0] == old(out.data) + Body(rs, version)
  {
    hide Record, Body, Rest;
    ghost var goal := old(out.data) + Body(rs, version);
    assert rs[0..] == rs;
    for i := 0 to |rs|
      invariant out.data + (if i == 0 then Body(rs[i..], version) else Rest(rs[i..], version)) == goal
    {
      ghost var before := out.data;
      if i > 0 {
        out.Add([RSEP]);
        RestAt(before, rs, i, version);
      }
      before := out.data;
      AddRecord(rs[i], out, version);
      RecordAt(before, rs, i, version);
    }
    RestAt(out.data, rs, |rs|, version);
  }

  lemma RestAt(b: Bytes, rs: seq<Bytes>, i: nat, version: int)
    requires i <= |rs|
    ensures b + Rest(rs[i..], version) == if i == |rs| then b + [0] else b + [RSEP] + Body(rs[i..], version)
  {
    hide Body;
  }

  lemma RecordAt(b: Bytes, rs: seq<Bytes>, i: nat, version: int)
    requires i < |rs|
    ensures b + Body(rs[i..], version) == b + Record(rs[i], version) + Rest(rs[i + 1..], version)
  {
    hide Record, Body, Rest;
    RestSplits(rs[i..], version);
    assert rs[i..][1..] == rs[i + 1..];
  }

  /** `build_message`. */
  method BuildMessage(h: Byte, rs: seq<Bytes>, out: Buffer, version: int)
    modifies out
    ensures out.data == old(out.data) + Message(h, rs, version)
  {
    hide U16, U32, Record;
    out.Add(MAGIC);
    out.Add([h]);
    if rs != [] {
      AddRecords(rs, out, version);
    } else if version < 2 {
      out.Add(U16(0));
    } else {
      out.Add(U32(0));
    }
    out.Add([0]);
  }

  /** What is still to be written when the records `rs` are. */
  ghost function Rest(rs: seq<Bytes>, version: int): Bytes
  {
    if rs == [] then [0] else [RSEP] + Body(rs, version)
  }

  lemma RestSplits(rs: seq<Bytes>, version: int)
    requires rs != []
    ensures Body(rs, version) == Record(rs[0], version) + Rest(rs[1..], version)
  {
    hide Record;
  }

  // ---------------------------------------------------------------- reading

  /** Reads `n` bytes of record `i` in as many pieces as they come in. */
  method ReadData(s: Socket, outs: array<Bytes>, i: nat, n: nat) returns (ok: bool)
    requires i < outs.Length
    modifies s, outs
    ensures ok <==> |old(s.input)| >= n && (n == 0 || |old(outs[i])| + n <= MAX_RECORD)
    ensures ok ==> s.input == old(s.input)[n..]
    ensures ok ==> outs[..] == old(outs[..])[i := old(outs[i]) + old(s.input)[..n]]
  {
    var left := n;
    ghost var got := 0;
    while left != 0
      invariant 0 <= left && left + got == n && got <= |old(s.input)| && s.input == old(s.input)[got..]
      invariant outs[i] == old(outs[i]) + old(s.input)[..got]
      invariant forall j :: 0 <= j < outs.Length && j != i ==> outs[j] == old(outs[j])
      invariant got == 0 || |outs[i]| <= MAX_RECORD
    {
      var piece := s.TakeSome(left);
      if piece == [] {
        return false;
      }
      left := left - |piece|;
      assert old(s.input)[..got] + piece == old(s.input)[..got + |piece|];
      got := got + |piece|;
      outs[i] := outs[i] + piece;
      if |outs[i]| > MAX_RECORD {
        return false;
      }
    }
    ok := true;
  }

  /** The loop of `read_message` for version 2. */
  method ReadRecordsV2(s: Socket, outs: array<Bytes>) returns (rc: int)
    requires outs.Length > 0
    modifies s, outs
    ensures Reports(ReadV2(old(s.input), old(outs[..]), 0), rc, outs[..], s.input)
  {
    hide Get32;
    var i := 0;
    while true
      invariant i < outs.Length
      invariant ReadV2(s.input, outs[..], i) == ReadV2(old(s.input), old(outs[..]), 0)
      decreases |s.input|
    {
      ghost var b := s.input;
      var field := s.Take(4);
      if |field| != 4 {
        return -1;
      }
      var n := Get32(field);
      var ok := ReadData(s, outs, i, n);
      if !ok {
        return -1;
      }
      assert s.input == b[4 + n..] && b[4..][..n] == b[4..4 + n];
      assert |b| > 4 + n ==> b[4 + n..][1..] == b[5 + n..];
      var sep := s.Take(1);
      if |sep| != 1 {
        return -1;
      }
      if sep[0] == RSEP {
        i := i + 1;
        if i == outs.Length {
          return i + 1;
        }
      } else if sep[0] == 0 {
        return i + 1;
      } else {
        return -1;
      }
    }
  }

  /** A return code, buffers and input that agree with an outcome. */
  ghost predicate Reports(o: Outcome, rc: int, outs: seq<Bytes>, input: Bytes)
  {
    if o.Failed? then rc == -1 else rc >= 0 && o == Done(rc, outs, input)
  }

  /** The loop of `read_message` for version 1. */
  method ReadRecordsV1(s: Socket, outs: array<Bytes>) returns (rc: int)
    requires outs.Length > 0
    modifies s, outs
    ensures Reports(ReadV1(old(s.input), old(outs[..]), 0), rc, outs[..], s.input)
  {
    hide Get16;
    var i := 0;
    while true
      invariant i < outs.Length
      invariant ReadV1(s.input, outs[..], i) == ReadV1(old(s.input), old(outs[..]), 0)
      decreases |s.input|
    {
      ghost var b := s.input;
      var field := s.Take(2);
      if |field| != 2 {
        return -1;
      }
      var n := Get16(field);
      if n == 0 {
        var sep := s.Take(1);
        if |sep| != 1 {
          return -1;
        }
        assert b[2..][1..] == b[3..];
        if sep[0] == RSEP {
          i := i + 1;
          if i == outs.Length {
            return i + 1;
          }
        } else if sep[0] == 0 {
          return i + 1;
        } else {
          return -1;
        }
      } else {
        var ok := ReadData(s, outs, i, n);
        if !ok {
          return -1;
        }
        assert s.input == b[2 + n..] && b[2..][..n] == b[2..2 + n];
      }
    }
  }

  /** What comes before the records: keep-alive bytes, the magic with the version, and the
      header. */
  method ReadPreamble(s: Socket) returns (ok: bool, version: int, h: Byte)
    modifies s
    ensures ok <==> GoodPreamble(SkipNoops(old(s.input)))
    ensures ok ==> var b := SkipNoops(old(s.input)); version == Signed(b[3]) && h == b[4] && s.input == b[5..]
  {
    hide KnownHeader;
    ok, version, h := false, 0, 0;
    var first := s.Take(1);
    while first == [NOOP]
      invariant |first| <= 1 && SkipNoops(first + s.input) == SkipNoops(old(s.input))
      invariant first == [] ==> s.input == []
      decreases |s.input|, |first|
    {
      assert (first + s.input)[1..] == s.input;
      ghost var before := s.input;
      first := s.Take(1);
      assert first + s.input == before;
    }
    ghost var b := first + s.input;
    var more := s.Take(3);
    if |first| + |more| != 4 {
      return;
    }
    var magic := first + more;
    assert b == magic + s.input;
    if magic[..3] != MAGIC[..3] || Signed(magic[3]) > PROTOCOL_VERSION {
      assert b[..3] == magic[..3];
      return;
    }
    var header := s.Take(1);
    if |header| != 1 || !KnownHeader(header[0]) {
      return;
    }
    ok, version, h := true, Signed(magic[3]), header[0];
    assert b[5..] == s.input && b[..3] == magic[..3];
  }

  /** `read_message`: the header and the records do not depend on how the data was cut. */
  method ReadMessage(s: Socket, outs: array<Bytes>) returns (rc: int, h: Byte)
    modifies s, outs
    ensures Reports(Read(old(s.input), old(outs[..])).1, rc, outs[..], s.input)
    ensures rc != -1 ==> h == Read(old(s.input), old(outs[..])).0
  {
    hide ReadV1, ReadV2, KnownHeader, SkipNoops, GoodPreamble, Signed;
    if outs.Length < 1 {
      return -1, 0;
    }
    var ok, version;
    ok, version, h := ReadPreamble(s);
    if !ok {
      return -1, h;
    }
    if version < 2 {
      rc := ReadRecordsV1(s, outs);
    } else {
      rc := ReadRecordsV2(s, outs);
    }
  }
}
