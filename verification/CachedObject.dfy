/** A cached object in memory: a small buffer inside it that gives way to a larger one, and a
    list of listeners that are called while it is fetched. */
module CachedObject {
  import opened Wrappers
  import opened Bytes
  import opened FanOut

  const INLINE: nat := 32

  /** Where the data pointer leads. */
  datatype Where = Nowhere | Inline | Heap

  /** The `data`, `dlen` and `dbuf` fields. */
  class Store {
    const dbuf: array<Byte>
    var heap: array<Byte>
    var at: Where
    var dlen: nat
    ghost var repr: set<object>

    ghost predicate Valid()
      reads this, repr
    {
      && this in repr && dbuf in repr && heap in repr && dbuf.Length == INLINE && dbuf != heap
      && (at == Nowhere ==> dlen == 0)
      && (at == Inline ==> dlen <= INLINE)
      && (at == Heap ==> heap.Length == dlen)
    }

    function Contents(): Bytes
      requires Valid()
      reads this, repr
    {
      if at == Nowhere then [] else if at == Inline then dbuf[..dlen] else heap[..]
    }

    lemma Length()
      requires Valid()
      ensures |Contents()| == dlen
    {
    }

    constructor ()
      ensures Valid() && fresh(repr) && Contents() == [] && at == Nowhere
    {
      var b := new Byte[INLINE](_ => 0);
      var h := new Byte[0];
      dbuf, heap, at, dlen := b, h, Nowhere, 0;
      new;
      repr := {this, b, h};
    }

    /** `malloc` or `realloc` to a larger size. */
    method Grow(n: nat)
      requires Valid() && n >= dlen
      modifies `heap, `at, `dlen, `repr
      ensures Valid() && fresh(repr - old(repr)) && at == Heap && dlen == n && fresh(heap)
      ensures Contents()[..old(dlen)] == old(Contents())
    {
      var h := new Byte[n](_ => 0);
      if at == Inline {
        Copy(dbuf[..dlen], h, 0);
      } else if at == Heap {
        Copy(heap[..], h, 0);
      }
      assert h[..dlen] == Contents();
      heap, at, dlen := h, Heap, n;
      repr := repr + {h};
    }

    /** Adds to the data, in the buffer inside while that is large enough. */
    method Append(piece: Bytes)
      requires Valid() && (at == Heap ==> dlen > INLINE)
      modifies repr
      ensures Valid() && fresh(repr - old(repr)) && (at == Heap ==> dlen > INLINE)
      ensures Contents() == old(Contents()) + piece && at != Nowhere
    {
      var olen := dlen;
      if olen + |piece| > INLINE {
        Grow(olen + |piece|);
        Copy(piece, heap, olen);
        assert heap[..] == heap[..olen] + heap[olen..];
      } else {
        at, dlen := Inline, olen + |piece|;
        Copy(piece, dbuf, olen);
        assert dbuf[..dlen] == dbuf[..olen] + dbuf[olen..dlen];
      }
    }

    /** Takes over a buffer that came from storage, whatever its size. */
    method Adopt(h: array<Byte>)
      requires Valid() && at == Nowhere && h != dbuf
      modifies `heap, `at, `dlen, `repr
      ensures Valid() && repr == old(repr) + {h}
      ensures Contents() == h[..] && at != Nowhere
    {
      heap, at, dlen := h, Heap, h.Length;
      repr := repr + {h};
    }

    /** Copies a volatile value or else takes over a buffer that came from storage. */
    method Load(v: Bytes, h: array<Byte>)
      requires Valid() && at == Nowhere && h !in repr
      modifies repr
      ensures Valid() && fresh(repr - old(repr) - {h}) && h[..] == old(h[..])
      ensures Contents() == Found(v, h[..]) && at != Nowhere
    {
      if |v| > 0 {
        assert [] + v == v;
        Append(v);
      } else {
        Adopt(h);
      }
    }
  }

  /** The local value of a key: the volatile one, unless that is empty. */
  function Found(v: Bytes, stored: Bytes): Bytes
  {
    if |v| > 0 then v else stored
  }

  /** `memcpy`. */
  method Copy(src: Bytes, dst: array<Byte>, p: nat)
    requires p + |src| <= dst.Length
    modifies dst
    ensures dst[p..p + |src|] == src
    ensures dst[..p] == old(dst[..p]) && dst[p + |src|..] == old(dst[p + |src|..])
  {
    for i := 0 to |src|
      invariant dst[p..p + i] == src[..i]
      invariant dst[..p] == old(dst[..p]) && dst[p + |src|..] == old(dst[p + |src|..])
    {
      dst[p + i] := src[i];
      assert dst[p..p + i + 1] == dst[p..p + i] + [src[i]];
    }
  }

  // ---------------------------------------------------------------- listeners

  /** A registered callback with what it has been called with. */
  class Listener {
    var got: Bytes
    var notices: seq<Notice>

    // What the callback has returned for data last: an error, or not.
    var refuses: bool

    constructor ()
      ensures Value() == Client([], [])
    {
      got, notices, refuses := [], [], false;
    }

    function Value(): Client
      reads this
    {
      Client(got, notices)
    }

    /** The callback of the client with data. Whether it returns an error is up to the client. */
    method Data(piece: Bytes) returns (rc: int)
      modifies this
      ensures Value() == old(Value()).(got := old(got) + piece) && refuses == (rc != 0)
    {
      got := got + piece;
      rc := *;
      refuses := rc != 0;
    }

    /** `shardcache_get_async_helper` in front of that callback. */
    method Help(piece: Bytes) returns (rc: int)
      modifies this
      ensures Value() == Given(old(Value()), piece) && refuses == (rc != 0)
    {
      if |piece| == 0 {
        End(Notice.Error);
        rc := *;
        refuses := rc != 0;
      } else {
        rc := Data(piece);
      }
    }

    method End(n: Notice)
      modifies this
      ensures Value() == old(Value()).(notices := old(notices) + [n]) && refuses == old(refuses)
    {
      notices := notices + [n];
    }
  }

  lemma {:induction false} WithoutSnoc(ls: seq<Listener>, l: Listener, gone: set<Listener>)
    ensures Without(ls + [l], gone) == Without(ls, gone) + (if l in gone then [] else [l])
  {
    if ls == [] {
      assert ls + [l] == [l] && [l][1..] == [];
    } else {
      var all, rest := ls + [l], Without(ls[1..], gone);
      var first, last := if ls[0] in gone then [] else [ls[0]], if l in gone then [] else [l];
      assert all[0] == ls[0] && all[1..] == ls[1..] + [l];
      WithoutSnoc(ls[1..], l, gone);
      assert Without(all, gone) == first + Without(all[1..], gone);
      assert first + (rest + last) == first + rest + last;
    }
  }

  lemma {:induction false} WithoutMore(ls: seq<Listener>, l: Listener, gone: set<Listener>)
    requires l !in ls
    ensures Without(ls, gone + {l}) == Without(ls, gone)
  {
    if ls != [] { WithoutMore(ls[1..], l, gone); }
  }

  /** Of the first `i` listeners `kept` are those that have not refused. */
  ghost predicate Sorted(all: seq<Listener>, i: nat, kept: seq<Listener>, refused: set<Listener>)
  {
    i <= |all| && kept == Without(all[..i], refused) && forall l :: l in refused ==> l in all[..i]
  }

  lemma SortedMore(all: seq<Listener>, i: nat, kept: seq<Listener>, refused: set<Listener>, ok: bool)
    requires Distinct(all) && i < |all| && Sorted(all, i, kept, refused)
    ensures all[i] !in refused
    ensures if ok then Sorted(all, i + 1, kept + [all[i]], refused) else Sorted(all, i + 1, kept, refused + {all[i]})
  {
    hide Without;
    assert all[..i + 1] == all[..i] + [all[i]] && all[i] !in all[..i];
    WithoutMore(all[..i], all[i], refused);
    WithoutSnoc(all[..i], all[i], if ok then refused else refused + {all[i]});
  }

  lemma SortedAll(all: seq<Listener>, kept: seq<Listener>, refused: set<Listener>)
    requires Sorted(all, |all|, kept, refused)
    ensures kept == Without(all, refused)
  {
    assert all[..|all|] == all;
  }

  lemma WithoutDistinct(ls: seq<Listener>, gone: set<Listener>)
    requires Distinct(ls)
    ensures Distinct(Without(ls, gone))
  {
    if ls != [] {
      WithoutDistinct(ls[1..], gone);
      WithoutIn(ls[1..], gone, ls[0]);
    }
  }

  // ---------------------------------------------------------------- the object

  class Cached {
    const store: Store
    var fetching: bool
    var complete: bool
    var listeners: seq<Listener>
    ghost var clients: set<Listener>

    /** The data apart from the clients. */
    ghost predicate Stored()
      reads this, store, store.repr
    {
      && store.Valid() && this !in store.repr
      && (!complete && store.at == Heap ==> store.dlen > INLINE)
      && (forall l :: l in clients ==> l !in store.repr)
    }

    /** A registered listener is a client, and registered once. */
    ghost predicate Registered()
      reads this
    {
      Distinct(listeners) && forall l :: l in listeners ==> l in clients
    }

    ghost predicate Valid()
      reads this, store, store.repr
    {
      Stored() && Registered()
    }

    ghost function Clients(): map<Listener, Client>
      reads this, clients
    {
      map l | l in clients :: l.Value()
    }

    ghost function View(): Object<Listener>
      requires Valid()
      reads this, store, store.repr, clients
    {
      Object(store.Contents(), store.at != Nowhere, fetching, complete, listeners, Clients())
    }

    constructor ()
      ensures Valid() && View() == Fresh() && fresh(store) && fresh(store.repr) && clients == {}
    {
      var s := new Store();
      store, fetching, complete, listeners, clients := s, false, false, [], {};
      new;
      assert Clients() == map[];
    }

    /** `list_foreach_value` over a callback that may refuse the piece, or the end call that an
        empty one is; who does is taken off the list. */
    method NotifyPiece(piece: Bytes) returns (ghost refused: set<Listener>)
      requires Registered()
      modifies `listeners, listeners
      ensures Registered()
      ensures listeners == Without(old(listeners), refused)
      ensures forall l :: l in old(listeners) ==> (l in refused <==> l.refuses)
      ensures Clients() == map l | l in clients ::
                if l in old(listeners) then Given(old(l.Value()), piece) else old(l.Value())
    {
      var all, kept := listeners, [];
      refused := {};
      assert Sorted(all, 0, kept, refused);
      hide Without, Given, Sorted;
      for i := 0 to |all|
        invariant listeners == all
        invariant Sorted(all, i, kept, refused)
        invariant forall j :: 0 <= j < i ==> all[j].Value() == Given(old(all[j].Value()), piece)
        invariant forall j :: 0 <= j < i ==> (all[j] in refused <==> all[j].refuses)
        invariant forall j :: i <= j < |all| ==> all[j].Value() == old(all[j].Value())
        invariant forall l :: l in clients && l !in all ==> l.Value() == old(l.Value())
      {
        var l := all[i];
        var rc := l.Help(piece);
        SortedMore(all, i, kept, refused, rc == 0);
        if rc == 0 {
          kept := kept + [l];
        } else {
          refused := refused + {l};
        }
      }
      SortedAll(all, kept, refused);
      listeners := kept;
      WithoutDistinct(all, refused);
      forall l | l in kept ensures l in clients { WithoutIn(all, refused, l); }
    }

    /** `list_foreach_value` over a callback that ends every listener. */
    method NotifyEnd(n: Notice)
      requires Registered()
      modifies `listeners, listeners
      ensures Registered() && listeners == [] && forall l :: l in old(listeners) ==> l.refuses == old(l.refuses)
      ensures Clients() == map l | l in clients ::
                if l in old(listeners) then old(l.Value()).(notices := old(l.notices) + [n]) else old(l.Value())
    {
      var all := listeners;
      for i := 0 to |all|
        invariant listeners == all
        invariant forall j :: 0 <= j < i ==>
                    all[j].Value() == old(all[j].Value()).(notices := old(all[j].notices) + [n])
        invariant forall j :: i <= j < |all| ==> all[j].Value() == old(all[j].Value())
        invariant forall j :: 0 <= j < |all| ==> all[j].refuses == old(all[j].refuses)
        invariant forall l :: l in clients && l !in all ==> l.Value() == old(l.Value())
      {
        all[i].End(n);
      }
      listeners := [];
    }

    /** `arc_ops_fetch_from_peer_async_cb` with data of the value. */
    method Piece(piece: Bytes) returns (ghost refused: set<Listener>)
      requires Valid() && fetching && !complete
      modifies this, store.repr, listeners
      ensures Valid() && View() == Appended(old(View()), piece, refused)
      ensures |piece| > 0 ==> forall l :: l in old(listeners) ==> (l in refused <==> l.refuses)
    {
      hide Distinct, Without, Store.Contents;
      assert store.Contents() + [] == store.Contents();
      refused := {};
      store.Append(piece);
      if |piece| > 0 {
        refused := NotifyPiece(piece);
      }
    }

    /** The same at the end of the value. */
    method Finish()
      requires Valid()
      modifies this, listeners
      ensures Valid() && View() == Finished(old(View()))
      ensures forall l :: l in old(listeners) ==> l.refuses == old(l.refuses)
    {
      hide Distinct, Without, Store.Contents, Store.Valid;
      store.Length();
      NotifyEnd(Complete(store.dlen));
      complete, fetching := true, false;
    }

    /** The same when the fetch fails. */
    method Fail()
      requires Valid()
      modifies this, listeners
      ensures Valid() && View() == Failed(old(View()))
    {
      hide Distinct, Without, Store.Contents, Store.Valid;
      NotifyEnd(Notice.Error);
      fetching := false;
    }

    /** `shardcache_get`: a client gets what there is, and more later if it is not all. */
    method Join(l: Listener)
      requires Valid() && l !in clients && l !in store.repr && l.Value() == Client([], [])
      modifies this, l
      ensures Valid() && clients == old(clients) + {l} && View() == Joined(old(View()), l)
    {
      hide Store.Valid, Store.Contents, Without;
      store.Length();
      ghost var data := store.Contents();
      if complete {
        var _ := l.Data(store.Contents());
        l.End(Complete(store.dlen));
        assert [] + [Complete(|data|)] == [Complete(|data|)];
      } else {
        if store.dlen > 0 {
          var _ := l.Data(store.Contents());
        }
        listeners := listeners + [l];
      }
      assert [] + data == data;
      assert l.Value() == Client(data, if complete then [Complete(|data|)] else []);
      clients := clients + {l};
      assert Clients() == old(Clients())[l := l.Value()];
    }

    /** A local value, copied from the volatile storage or else taken over from the other one,
        goes to whoever listens. */
    method Deliver(v: Bytes, h: array<Byte>) returns (ghost refused: set<Listener>)
      requires Valid() && store.at == Nowhere && !fetching && !complete && h !in store.repr
      modifies this, store.repr, listeners
      ensures Valid() && View() == Handed(old(View()), Found(v, old(h[..])), refused).(complete := true)
      ensures forall l :: l in listeners ==> l in old(listeners)
      ensures forall l :: l in old(listeners) ==> (l in refused <==> l.refuses)
    {
      hide Distinct, Without, Store.Contents;
      store.Length();
      assert [] + Found(v, h[..]) == Found(v, h[..]);
      complete := true;
      store.Load(v, h);
      assert forall l :: l in clients ==> l !in store.repr;
      refused := NotifyPiece(store.Contents());
      forall l | l in listeners ensures l in old(listeners) { WithoutIn(old(listeners), refused, l); }
    }

    /** The end of `arc_ops_fetch` with a volatile value `v`, none if that is empty, or the
        value `h` from storage, which may be empty. */
    method Local(v: Bytes, h: array<Byte>) returns (ghost refused: set<Listener>)
      requires Valid() && store.at == Nowhere && !fetching && !complete && h !in store.repr
      modifies this, store.repr, listeners
      ensures Valid() && View() == Finished(Handed(old(View()), Found(v, old(h[..])), refused))
      ensures forall l :: l in old(listeners) ==> (l in refused <==> l.refuses)
    {
      hide Handed;
      refused := Deliver(v, h);
      assert forall i :: 0 <= i < |listeners| ==> listeners[i] in old(listeners);
      Finish();
    }
  }
}
