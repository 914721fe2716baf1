/** The asynchronous reading context, updated in place. */
module AsyncReader {
  import opened Bytes
  import Messaging
  import opened AsyncModel
  import M = AsyncModel

  class Reader {
    var state: State
    var first: Byte
    var header: Byte
    var rlen: nat
    var coff: nat
    var rnum: nat
    var buf: Bytes

    // What the callback has been given.
    var got: seq<Bytes>
    var done: nat
    var errors: nat

    function View(): Context
      reads this
    {
      Context(state, first, header, rlen, coff, rnum, buf, got, done, errors)
    }

    constructor ()
      ensures View() == FRESH
    {
      state, first, header := Idle, 0, 0;
      rlen, coff, rnum, buf := 0, 0, 0, [];
      got, done, errors := [[]], 0, 0;
    }

    /** `rbuf_read` of up to `n` bytes. */
    method Take(n: nat) returns (b: Bytes)
      modifies `buf
      ensures b == old(buf)[..Least(n, |old(buf)|)] && buf == old(buf)[Least(n, |old(buf)|)..]
    {
      var k := Least(n, |buf|);
      b, buf := buf[..k], buf[k..];
    }

    /** `async_read_move_to_next_record`. */
    method NextRecord() returns (rc: int)
      modifies this
      ensures M.NextRecord(old(View())) == if rc == 0 then Goes(View()) else Stops(View())
    {
      if |buf| < 1 {
        state := AtSeparator;
        return 1;
      }
      var sep := Take(1);
      if sep[0] == Messaging.RSEP {
        state := InRecord;
        got := got + [[]];
        rnum := rnum + 1;
        rlen := 0;
        rc := 0;
      } else if sep[0] == 0 {
        state := Finished;
        rc := 1;
      } else {
        state := Failure;
        errors := errors + 1;
        rc := -1;
      }
    }

    /** The separator, if a record has ended, and the length of the next record. */
    method ReadBorder() returns (more: bool)
      requires coff == rlen
      modifies this
      ensures M.Border(old(View())) == if more then Goes(View()) else Stops(View())
    {
      hide Get32, M.NextRecord;
      if rlen > 0 {
        var rc := NextRecord();
        if rc != 0 {
          return false;
        }
      }
      if |buf| < 4 {
        return false;
      }
      var field := Take(4);
      var n := Get32(field);
      if n == 0 {
        var rc := NextRecord();
        if rc != 0 {
          return false;
        }
      }
      rlen := n;
      coff := 0;
      more := true;
    }

    /** `async_read_parse_protocol_v2`. Where its loop would go round forever without changing
        anything, this one returns with `spins`. */
    method ParseV2() returns (spins: bool)
      requires Valid(View()) && state == InRecord
      modifies this
      ensures M.Parse(old(View())) == if spins then Spins else Stops(View())
    {
      hide M.NextRecord, M.Length, Get32;
      spins := false;
      while true
        invariant Valid(View()) && state == InRecord
        invariant M.Parse(View()) == M.Parse(old(View()))
        decreases |buf|
      {
        ghost var c := View();
        if coff > rlen {
          return true;
        }
        BorderValid(c);
        if coff == rlen {
          var more := ReadBorder();
          if !more {
            return;
          }
        }
        if M.Iterate(c).Goes? { IterateGoes(c); }
        if rlen > coff {
          var data := Take(rlen - coff);
          got := got[rnum := got[rnum] + data];
          coff := coff + |data|;
          if buf == [] {
            return;
          }
        }
      }
    }

    /** `async_read_context_update`. */
    method Update() returns (spins: bool)
      requires Valid(View())
      modifies this
      ensures M.Update(old(View())) == if spins then Spins else Stops(View())
    {
      hide M.Parse;
      spins := false;
      if state == Finished {
        state, rnum, rlen, coff := Idle, 0, 0, 0;
        got, done, errors := [[]], 0, 0;
      }
      if buf == [] {
        return;
      }
      ReadPreamble();
      if state == InRecord {
        spins := ParseV2();
        if !spins && state == Finished {
          done := done + 1;
        }
      }
    }

    /** The keep-alive bytes, the magic and the header, as far as they have come. */
    method ReadPreamble()
      requires Valid(View()) && buf != []
      modifies `state, `first, `header, `buf, `errors
      ensures Valid(View()) && View() == M.Preamble(old(View()))
    {
      if state == Idle {
        SkipNoops();
      }
      if state == InMagic {
        ReadMagic();
      }
      if state == InHeader {
        if |buf| < 1 {
          return;
        }
        var b := Take(1);
        header := b[0];
        state := InRecord;
      }
    }

    method SkipNoops()
      requires buf != []
      modifies `state, `first, `header, `buf
      ensures View() == M.Begin(old(View()))
    {
      header := 0;
      var b := Take(1);
      while b[0] == Messaging.NOOP && |buf| > 0
        invariant header == 0 && state == old(state) && first == old(first)
        invariant |b| == 1 && Messaging.SkipNoops(b + buf) == Messaging.SkipNoops(old(buf))
        decreases |buf|
      {
        assert (b + buf)[1..] == buf;
        ghost var before := buf;
        b := Take(1);
        assert b + buf == before;
      }
      assert (b + buf)[1..] == buf;
      if b[0] == Messaging.NOOP && |buf| == 0 {
        assert Messaging.SkipNoops(b + buf) == [];
        return;
      }
      assert Messaging.SkipNoops(b + buf) == b + buf;
      first := b[0];
      state := InMagic;
    }

    method ReadMagic()
      modifies `state, `buf, `errors
      ensures View() == M.Magic(old(View()))
    {
      if |buf| < 3 {
        return;
      }
      var more := Take(3);
      assert more[..2] == old(buf)[..2];
      if [first] + more[..2] != Messaging.MAGIC[..3] || Messaging.Signed(more[2]) > Messaging.PROTOCOL_VERSION {
        state := Failure;
        errors := errors + 1;
      } else if Messaging.Signed(more[2]) < 2 {
        state := Version1;
      } else {
        state := InHeader;
      }
    }

    /** `async_read_context_consume_data`. */
    method Consume(b: Bytes) returns (spins: bool)
      requires Valid(View())
      modifies this
      ensures M.Feed(old(View()), b) == if spins then Spins else Stops(View())
    {
      hide M.Update;
      spins := false;
      if b != [] {
        buf := buf + b;
        spins := Update();
      }
    }
  }
}
