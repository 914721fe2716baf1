/** The kepaxos messages on the wire. */
module KepaxosCodec {
  import opened Wrappers
  import opened Bytes

  /** What `kepaxos_msg_t` holds. `peer` is the sender with its terminating zero. */
  datatype Msg = Msg(
    peer: Bytes,
    ballot: nat,
    seqno: nat,
    mtype: Byte,
    ctype: Byte,
    committed: Byte,
    key: Bytes,
    data: Bytes)

  /** `KEPAXOS_MSGLEN_MIN`. */
  const MIN_LENGTH: nat := 29

  /** The numbers and lengths that the C types can hold. */
  ghost predicate Fits(m: Msg)
  {
    m.ballot < TWO64 && m.seqno < TWO64 && |m.key| < TWO32 && |m.data| < TWO32
  }

  function Head(m: Msg): Bytes
  {
    U16(|m.peer|) + m.peer + U64(m.ballot) + U64(m.seqno)
  }

  /** `kepaxos_build_message`. The length of the sender is cut to 16 bits. */
  function Encode(m: Msg): Bytes
  {
    Head(m) + [m.mtype, m.ctype, m.committed] + U32(|m.key|) + m.key + U32(|m.data|) + m.data
  }

  /** `kepaxos_parse_message`. */
  function Decode(b: Bytes): Result<Msg>
  {
    if |b| < MIN_LENGTH then Error
    else
      var s := 2 + Get16(b[..2]);
      if |b| < s + 27 then Error
      else
        var klen := Get32(b[s + 19..s + 23]);
        var k := s + 23 + klen;
        if |b| < k + 4 then Error
        else
          var dlen := Get32(b[k..k + 4]);
          if |b| < k + 4 + dlen then Error
          else Ok(Msg(b[2..s], Get64(b[s..s + 8]), Get64(b[s + 8..s + 16]), b[s + 16], b[s + 17], b[s + 18],
                      b[s + 23..k], b[k + 4..k + 4 + dlen]))
  }

  // ---------------------------------------------------------------- round trips

  /** Where the parts of an encoded message are. */
  lemma Layout(m: Msg, b: Bytes)
    requires b == Encode(m)
    ensures var s := 2 + |m.peer|; var k := s + 23 + |m.key|;
            && |b| == k + 4 + |m.data|
            && b[..2] == U16(|m.peer|) && b[2..s] == m.peer
            && b[s..s + 8] == U64(m.ballot) && b[s + 8..s + 16] == U64(m.seqno)
            && b[s + 16] == m.mtype && b[s + 17] == m.ctype && b[s + 18] == m.committed
            && b[s + 19..s + 23] == U32(|m.key|) && b[s + 23..k] == m.key
            && b[k..k + 4] == U32(|m.data|) && b[k + 4..] == m.data
  {
    hide U16, U32, U64;
  }

  /** Parsing gives back what was built exactly if the length of the sender, with its zero,
      fits in 16 bits. */
  lemma RoundTrip(m: Msg)
    requires Fits(m)
    ensures Decode(Encode(m)) == Ok(m) <==> |m.peer| < TWO16
  {
    hide U16, U32, U64, Get32, Get64, Encode;
    var b := Encode(m);
    Layout(m, b);
    Mod16(|m.peer|);
    Read32(|m.key|);
    Read32(|m.data|);
    Read64(m.ballot);
    Read64(m.seqno);
    if |m.peer| < TWO16 {
      var k := 2 + |m.peer| + 23 + |m.key|;
      assert b[k + 4..k + 4 + |m.data|] == b[k + 4..];
    } else if Decode(b).Ok? {
      assert |Decode(b).value.peer| == Get16(b[..2]);
    }
  }

  /** Building a parsed message again gives the part of the input that was parsed. */
  lemma Rebuild(b: Bytes)
    requires Decode(b).Ok?
    ensures Encode(Decode(b).value) <= b && Fits(Decode(b).value)
  {
    hide U16, U32, U64, Get16, Get32, Get64;
    var m := Decode(b).value;
    var s := 2 + |m.peer|;
    var k := s + 23 + |m.key|;
    Write16(b[..2]);
    Write64(b[s..s + 8]);
    Write64(b[s + 8..s + 16]);
    Write32(b[s + 19..s + 23]);
    Write32(b[k..k + 4]);
    Pieces(b, s, k, k + 4 + |m.data|);
  }

  lemma Pieces(b: Bytes, s: nat, k: nat, end: nat)
    requires 2 <= s && s + 23 <= k && k + 4 <= end <= |b|
    ensures b[..2] + b[2..s] + b[s..s + 8] + b[s + 8..s + 16] + [b[s + 16], b[s + 17], b[s + 18]]
            + b[s + 19..s + 23] + b[s + 23..k] + b[k..k + 4] + b[k + 4..end] == b[..end]
  {
  }

  /** The C string at the start of `b`. */
  function CString(b: Bytes): Bytes
  {
    if b == [] || b[0] == 0 then [] else [b[0]] + CString(b[1..])
  }

  /** It ends before the first zero. */
  lemma {:induction false} CStringEnds(b: Bytes)
    ensures CString(b) <= b && 0 !in CString(b) && (|CString(b)| < |b| ==> b[|CString(b)|] == 0)
  {
    if b != [] && b[0] != 0 { CStringEnds(b[1..]); }
  }

  /** The arguments of `kepaxos_build_message` for a parsed message. */
  function Again(m: Msg): Msg
  {
    m.(peer := CString(m.peer) + [0], committed := if m.committed != 0 then 1 else 0)
  }

  lemma {:induction false} CStringShorter(b: Bytes)
    requires 0 in b
    ensures |CString(b)| < |b|
  {
    if b[0] != 0 {
      assert 0 in b[1..];
      CStringShorter(b[1..]);
    }
  }

  /** Building from what was parsed gives back a prefix of the input exactly if the sender
      ends at its only zero and the committed byte is 0 or 1. */
  lemma BuildAgain(b: Bytes)
    requires Decode(b).Ok? && 0 in Decode(b).value.peer
    ensures var m := Decode(b).value;
            Encode(Again(m)) <= b <==> m.peer == CString(m.peer) + [0] && m.committed <= 1
  {
    hide U16, U32, U64, Get16, Get32, Get64, Encode, CString;
    var m := Decode(b).value;
    var a := Again(m);
    CStringShorter(m.peer);
    Rebuild(b);
    if Encode(a) <= b {
      var e := Encode(a);
      Layout(a, e);
      Read16(|a.peer|);
      assert b[..2] == e[..2];
      assert |a.peer| == |m.peer|;
      var s := 2 + |a.peer|;
      assert b[2..s] == e[2..s];
      assert b[s + 18] == e[s + 18];
    }
  }

  // ---------------------------------------------------------------- the walk over a buffer

  /** `memcpy` to position `p` of a buffer. */
  method Put(a: array<Byte>, p: nat, src: Bytes) returns (q: nat)
    requires p + |src| <= a.Length
    modifies a
    ensures q == p + |src| && a[..q] == old(a[..p]) + src
  {
    for i := 0 to |src|
      invariant a[..p] == old(a[..p]) && a[p..p + i] == src[..i]
    {
      a[p + i] := src[i];
      assert a[p..p + i + 1] == a[p..p + i] + [src[i]];
    }
    q := p + |src|;
    assert a[..q] == a[..p] + a[p..q];
  }

  method PutHead(a: array<Byte>, sender: Bytes, ballot: nat, seqno: nat, ghost m: Msg) returns (p: nat)
    requires m.peer == sender + [0] && m.ballot == ballot && m.seqno == seqno
    requires |sender| + 19 <= a.Length
    modifies a
    ensures p == |sender| + 19 && a[..p] == Head(m)
  {
    hide U16, U32, U64;
    p := Put(a, 0, U16(|sender| + 1));
    p := Put(a, p, sender + [0]);
    p := Put(a, p, U64(ballot));
    p := Put(a, p, U64(seqno));
  }

  /** `kepaxos_build_message` for a sender without its zero. The buffer is filled to its end. */
  method Build(sender: Bytes, mtype: Byte, ctype: Byte, ballot: nat, key: Bytes, data: Bytes, seqno: nat,
               committed: bool)
    returns (a: array<Byte>)
    ensures fresh(a)
    ensures a[..] == Encode(Msg(sender + [0], ballot, seqno, mtype, ctype, if committed then 1 else 0, key, data))
  {
    hide U16, U32, U64;
    var length := MIN_LENGTH + |key| + |data| + |sender| + 1;
    a := new Byte[length](_ => 0);
    ghost var m := Msg(sender + [0], ballot, seqno, mtype, ctype, if committed then 1 else 0, key, data);
    var p := PutHead(a, sender, ballot, seqno, m);
    hide Head;
    p := Put(a, p, [mtype, ctype, if committed then 1 else 0]);
    p := Put(a, p, U32(|key|));
    p := Put(a, p, key);
    p := Put(a, p, U32(|data|));
    p := Put(a, p, data);
    assert a[..p] == a[..];
  }

  /** `kepaxos_parse_message` over a buffer of `length` bytes, none read behind its end. */
  method Parse(a: array<Byte>) returns (r: Result<Msg>)
    ensures r == Decode(a[..])
  {
    hide Get32, Get64, Get16;
    var expected := MIN_LENGTH;
    if a.Length < expected {
      return Error;
    }
    var p := 0;
    var slen := Get16(a[p..p + 2]);
    p := p + 2;
    var peer := p;
    p := p + slen;
    expected := expected + slen;
    if a.Length < expected {
      return Error;
    }
    var ballot := Get64(a[p..p + 8]);
    p := p + 8;
    var seqno := Get64(a[p..p + 8]);
    p := p + 8;
    var mtype, ctype, committed := a[p], a[p + 1], a[p + 2];
    p := p + 3;
    var klen := Get32(a[p..p + 4]);
    expected := expected + klen;
    if a.Length < expected {
      return Error;
    }
    p := p + 4;
    var key := p;
    p := p + klen;
    var dlen := Get32(a[p..p + 4]);
    expected := expected + dlen;
    if a.Length < expected {
      return Error;
    }
    p := p + 4;
    r := Ok(Msg(a[peer..peer + slen], ballot, seqno, mtype, ctype, committed, a[key..key + klen], a[p..p + dlen]));
  }
}
