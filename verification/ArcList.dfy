/** The intrusive doubly linked lists of the ARC cache: the links, the cached
    objects that embed one, and the four list heads with their byte and item
    counters. */
module ArcList {
  import opened Wrappers

  type Key = seq<char>

  /** One `prev`/`next` pair. `entry` is the object the link is embedded in, null
      for the head of a list, which is embedded in no object. */
  class Link {
    var prev: Link?
    var next: Link?
    var entry: ArcObject?

    constructor ()
      ensures prev == this && next == this && entry == null
    {
      prev := this;
      next := this;
      entry := null;
    }
  }

  /** A cached object. `handles` counts the references given out and not yet
      released; `evicts` counts the runs of the evict callback. */
  class ArcObject {
    const key: Key
    const link: Link
    var state: ArcState?
    var size: nat
    var async: bool
    var locked: bool
    var refs: nat
    var evicts: nat
    ghost var handles: nat

    constructor (key: Key, size: nat)
      ensures this.key == key && this.size == size && fresh(link)
      ensures link.entry == this && link.prev == link && link.next == link
      ensures state == null && !async && !locked && refs == 1 && evicts == 0 && handles == 1
    {
      this.key := key;
      this.size := size;
      link := new Link();
      state := null;
      async := false;
      locked := false;
      refs := 1;
      evicts := 0;
      handles := 1;
      new;
      link.entry := this;
    }
  }

  /** `s` without its first `o`. */
  function Without<T(==)>(s: seq<T>, o: T): (r: seq<T>)
  {
    if s == [] then [] else if s[0] == o then s[1..] else [s[0]] + Without(s[1..], o)
  }

  lemma {:induction false} WithoutAt<T>(s: seq<T>, k: nat)
    requires Distinct(s) && k < |s|
    ensures Without(s, s[k]) == s[..k] + s[k + 1..]
  {
    if k > 0 {
      WithoutAt(s[1..], k - 1);
      assert s[..k] + s[k + 1..] == [s[0]] + (s[1..][..k - 1] + s[1..][k..]);
    }
  }

  /** `ring` is the links of `objs` between two occurrences of the head. */
  ghost predicate Shape(head: Link, objs: seq<ArcObject>, ring: seq<Link>)
  {
    && |ring| == |objs| + 2
    && ring[0] == head
    && ring[|objs| + 1] == head
    && (forall i {:trigger objs[i]} :: 0 <= i < |objs| ==> ring[i + 1] == objs[i].link)
  }

  /** The head is met twice on a turn, every other link once. */
  ghost predicate OneTurn(ring: seq<Link>)
  {
    forall i, j :: 0 <= i < j < |ring| && ring[i] == ring[j] ==> i == 0 && j == |ring| - 1
  }

  lemma ShapeCut(head: Link, objs: seq<ArcObject>, ring: seq<Link>, k: int)
    requires Shape(head, objs, ring) && Distinct(objs) && OneTurn(ring) && 0 <= k < |objs|
    ensures Shape(head, objs[..k] + objs[k + 1..], ring[..k + 1] + ring[k + 2..])
    ensures Distinct(objs[..k] + objs[k + 1..])
    ensures objs[k] !in objs[..k] + objs[k + 1..] && objs[k].link !in ring[..k + 1] + ring[k + 2..]
    ensures forall l :: l in ring[..k + 1] + ring[k + 2..] ==> l in ring
  {
  }

  /** The links at `i` and `i + 1` of `r` point at each other. */
  ghost predicate Joined(r: seq<Link>, i: int)
    requires 0 <= i < |r| - 1
    reads r`next, r`prev
  {
    r[i].next == r[i + 1] && r[i + 1].prev == r[i]
  }

  ghost predicate Chained(r: seq<Link>)
    reads r`next, r`prev
  {
    forall i {:trigger Joined(r, i)} :: 0 <= i < |r| - 1 ==> Joined(r, i)
  }

  /** Once the neighbours of `r[k]` point at each other, `r` without `r[k]` is chained. */
  lemma ChainedCut(r: seq<Link>, k: int)
    requires 0 < k < |r| - 1
    requires forall i {:trigger Joined(r, i)} :: 0 <= i < |r| - 1 && i != k - 1 && i != k ==> Joined(r, i)
    requires r[k - 1].next == r[k + 1] && r[k + 1].prev == r[k - 1]
    ensures Chained(r[..k] + r[k + 1..])
  {
    var r' := r[..k] + r[k + 1..];
    forall i | 0 <= i < |r'| - 1 ensures Joined(r', i) {
      if i < k - 1 {
        assert Joined(r, i);
      } else if i > k - 1 {
        assert Joined(r, i + 1);
        assert r'[i] == r[i + 1] && r'[i + 1] == r[i + 2];
      }
    }
  }

  /** No link is in both lists. */
  ghost predicate Separate(a: ArcState, b: ArcState)
    reads a`ring, b`ring
  {
    a != b && (forall l :: l in a.ring ==> l !in b.ring) && (forall l :: l in b.ring ==> l !in a.ring)
  }

  /** Four well linked lists that share no link. */
  ghost predicate Woven(a: ArcState, b: ArcState, c: ArcState, d: ArcState)
    reads a`objs, a`ring, a.ring`next, a.ring`prev, a.ring`entry, a.head`entry
    reads b`objs, b`ring, b.ring`next, b.ring`prev, b.ring`entry, b.head`entry
    reads c`objs, c`ring, c.ring`next, c.ring`prev, c.ring`entry, c.head`entry
    reads d`objs, d`ring, d.ring`next, d.ring`prev, d.ring`entry, d.head`entry
  {
    && a.Linked() && b.Linked() && c.Linked() && d.Linked()
    && Separate(a, b) && Separate(a, c) && Separate(a, d) && Separate(b, c) && Separate(b, d) && Separate(c, d)
  }

  /** Four new lists. */
  lemma NewWoven(a: ArcState, b: ArcState, c: ArcState, d: ArcState)
    requires a.Linked() && b.Linked() && c.Linked() && d.Linked()
    requires a.ring == [a.head, a.head] && b.ring == [b.head, b.head]
    requires c.ring == [c.head, c.head] && d.ring == [d.head, d.head]
    requires a != b && a != c && a != d && b != c && b != d && c != d
    requires a.head != b.head && a.head != c.head && a.head != d.head
    requires b.head != c.head && b.head != d.head && c.head != d.head
    ensures Woven(a, b, c, d)
  {
    hide ArcState.Linked;
  }

  /** One of the mru, mfu, mrug and mfug lists. `objs` is its content from the most
      to the least recently used object, `ring` the links met on one full turn, with
      the head at both ends. */
  class ArcState {
    const head: Link
    var size: nat
    var count: nat
    ghost var objs: seq<ArcObject>
    ghost var ring: seq<Link>

    constructor ()
      ensures Linked() && objs == [] && size == 0 && count == 0
      ensures fresh(head) && ring == [head, head]
    {
      head := new Link();
      size, count := 0, 0;
      objs := [];
      new;
      ring := [head, head];
    }

    /** The links form one ring through the head, each link knows its object, and no
        object occurs twice. */
    ghost predicate Linked()
      reads this`objs, this`ring, ring`next, ring`prev, ring`entry, head`entry
    {
      && Shape(head, objs, ring)
      && Distinct(objs)
      && head.entry == null
      && (forall i {:trigger objs[i]} :: 0 <= i < |objs| ==> objs[i].link.entry == objs[i])
      && Chained(ring)
    }

    twostate lemma Untouched()
      requires old(Linked())
      requires unchanged(`objs) && unchanged(`ring)
      requires forall l :: l in ring ==> l.next == old(l.next) && l.prev == old(l.prev) && l.entry == old(l.entry)
      ensures Linked()
    {
      forall i | 0 <= i < |ring| - 1 ensures Joined(ring, i) {
        assert old(Joined(ring, i));
      }
    }

    /** The head is met twice on a turn, every other link once. */
    lemma RingTurns()
      requires Linked()
      ensures OneTurn(ring)
    {
      forall i, j | 0 <= i < j < |ring| ensures ring[i] == ring[j] ==> i == 0 && j == |ring| - 1 {
        assert 0 < i ==> objs[i - 1].link.entry == objs[i - 1];
        assert j < |ring| - 1 ==> objs[j - 1].link.entry == objs[j - 1];
      }
    }

    /** `arc_list_prepend`: inserts `o`, which is not in the list, right after the head. */
    method Insert(o: ArcObject)
      requires Linked()
      requires o.link !in ring && o.link.entry == o
      modifies this`objs, this`ring, head`next, {ring[1]}`prev, o.link`next, o.link`prev
      ensures Linked()
      ensures objs == [o] + old(objs)
      ensures ring == [head, o.link] + old(ring)[1..]
    {
      RingTurns();
      assert Joined(ring, 0);
      var list := o.link;
      var prev := head;
      var next := head.next;
      next.prev := list;
      list.next := next;
      list.prev := prev;
      prev.next := list;
      objs := [o] + objs;
      ring := [head, o.link] + ring[1..];
      forall i | 0 <= i < |ring| - 1 ensures Joined(ring, i) {
        if i >= 2 {
          assert old(Joined(ring, i - 1));
        }
      }
    }

    /** `arc_list_splice` of the neighbours of `l`. */
    method Splice(l: Link, ghost k: int)
      requires Chained(ring) && OneTurn(ring) && 0 < k < |ring| - 1 && l == ring[k]
      modifies ring`next, ring`prev
      ensures forall i {:trigger Joined(ring, i)} :: 0 <= i < |ring| - 1 && i != k - 1 && i != k ==> Joined(ring, i)
      ensures ring[k - 1].next == ring[k + 1] && ring[k + 1].prev == ring[k - 1]
      ensures l.prev == old(l.prev) && l.next == old(l.next)
    {
      assert Joined(ring, k - 1) && Joined(ring, k);
      l.next.prev := l.prev;
      l.prev.next := l.next;
      forall i | 0 <= i < |ring| - 1 && i != k - 1 && i != k ensures Joined(ring, i) {
        assert old(Joined(ring, i));
      }
    }

    /** The content after the link at `k` has been spliced out. */
    ghost method Contract(k: int)
      requires Shape(head, objs, ring) && Distinct(objs) && OneTurn(ring) && 0 <= k < |objs|
      requires forall i {:trigger Joined(ring, i)} :: 0 <= i < |ring| - 1 && i != k && i != k + 1 ==> Joined(ring, i)
      requires ring[k].next == ring[k + 2] && ring[k + 2].prev == ring[k]
      requires head.entry == null
      requires forall i {:trigger objs[i]} :: 0 <= i < |objs| ==> objs[i].link.entry == objs[i]
      modifies this`objs, this`ring
      ensures Linked()
      ensures objs == old(objs)[..k] + old(objs)[k + 1..]
      ensures old(objs[k]) !in objs && old(objs[k]).link !in ring
      ensures forall l :: l in ring ==> l in old(ring)
    {
      ShapeCut(head, objs, ring, k);
      ChainedCut(ring, k + 1);
      objs := objs[..k] + objs[k + 1..];
      ring := ring[..k + 1] + ring[k + 2..];
    }

    /** Takes `o` out of the ring; its own pointers are left as they were. */
    method Detach(o: ArcObject)
      requires Linked() && o in objs
      modifies this`objs, this`ring, ring`next, ring`prev
      ensures Linked()
      ensures objs == Without(old(objs), o)
      ensures o !in objs && o.link !in ring && o.link.entry == o
      ensures forall l :: l in ring ==> l in old(ring)
    {
      ghost var k :| 0 <= k < |objs| && objs[k] == o;
      RingTurns();
      Splice(o.link, k + 1);
      WithoutAt(objs, k);
      Contract(k);
    }

    lemma NotLinked(o: ArcObject)
      requires Linked() && o !in objs && o.link.entry == o
      ensures o.link !in ring
    {
      forall j | 0 <= j < |ring| ensures ring[j] != o.link {
        assert 0 < j < |ring| - 1 ==> objs[j - 1].link.entry == objs[j - 1];
      }
    }

    lemma NoneLinked(o: ArcObject, b: ArcState, c: ArcState, d: ArcState)
      requires Woven(this, b, c, d) && o.link.entry == o
      requires o !in objs && o !in b.objs && o !in c.objs && o !in d.objs
      ensures o.link !in ring && o.link !in b.ring && o.link !in c.ring && o.link !in d.ring
    {
      NotLinked(o);
      b.NotLinked(o);
      c.NotLinked(o);
      d.NotLinked(o);
    }

    /** `arc_list_prepend` of an object that is on none of the lists. */
    method Prepend(o: ArcObject, ghost b: ArcState, ghost c: ArcState, ghost d: ArcState)
      requires Woven(this, b, c, d) && o.link.entry == o
      requires o !in objs && o !in b.objs && o !in c.objs && o !in d.objs
      modifies this`objs, this`ring, ring`next, ring`prev, o.link`next, o.link`prev
      ensures Woven(this, b, c, d)
      ensures objs == [o] + old(objs)
    {
      NoneLinked(o, b, c, d);
      Insert(o);
      forall x | x == b || x == c || x == d ensures x.Linked() && Separate(this, x) {
        assert old(x.Linked()) && old(Separate(this, x));
        x.Untouched();
      }
    }

    /** `arc_list_remove`. */
    method Remove(o: ArcObject, ghost b: ArcState, ghost c: ArcState, ghost d: ArcState)
      requires Woven(this, b, c, d) && o in objs
      modifies this`objs, this`ring, ring`next, ring`prev
      ensures Woven(this, b, c, d)
      ensures objs == Without(old(objs), o)
    {
      RingMembers();
      Detach(o);
      label detached:
      o.link.next := null;
      o.link.prev := null;
      forall i | 0 <= i < |ring| - 1 ensures Joined(ring, i) {
        assert old@detached(Joined(ring, i));
      }
      forall x | x == b || x == c || x == d ensures x.Linked() && Separate(this, x) {
        assert old(x.Linked()) && old(Separate(this, x));
        x.Untouched();
      }
    }

    /** Takes `o` off this list, and its bytes and its item off the counters. */
    method Drop(o: ArcObject, ghost b: ArcState, ghost c: ArcState, ghost d: ArcState)
      requires Woven(this, b, c, d) && o in objs && size >= o.size && count > 0
      modifies o`state, this, ring`next, ring`prev
      ensures Woven(this, b, c, d)
      ensures objs == Without(old(objs), o)
      ensures size == old(size) - o.size && count == old(count) - 1 && o.state == null
    {
      hide Woven, Without;
      size := size - o.size;
      Remove(o, b, c, d);
      count := count - 1;
      o.state := null;
    }

    /** Puts `o` at the head of this list, and its bytes and its item on the counters. */
    method Add(o: ArcObject, ghost b: ArcState, ghost c: ArcState, ghost d: ArcState)
      requires Woven(this, b, c, d) && o.link.entry == o
      requires o !in objs && o !in b.objs && o !in c.objs && o !in d.objs
      modifies o`state, this, ring`next, ring`prev, o.link`next, o.link`prev
      ensures Woven(this, b, c, d)
      ensures objs == [o] + old(objs)
      ensures size == old(size) + o.size && count == old(count) + 1 && o.state == this
    {
      hide Woven;
      Prepend(o, b, c, d);
      count := count + 1;
      o.state := this;
      size := size + o.size;
    }

    /** Gives an object of this list a new size, which the counter follows. */
    method Resize(o: ArcObject, n: nat)
      requires size >= o.size
      modifies this`size, o`size
      ensures size == old(size) - old(o.size) + n && o.size == n
    {
      size := size - o.size;
      o.size := n;
      size := size + o.size;
    }

    /** `arc_list_move_to_head`. */
    method MoveToHead(o: ArcObject, ghost b: ArcState, ghost c: ArcState, ghost d: ArcState)
      requires Woven(this, b, c, d) && o in objs
      modifies this`objs, this`ring, ring`next, ring`prev
      ensures Woven(this, b, c, d)
      ensures objs == [o] + Without(old(objs), o)
    {
      RingMembers();
      assert o.link in ring && ring[0] == head;
      Detach(o);
      assert ring[1] in old(ring);
      Insert(o);
      forall x | x == b || x == c || x == d ensures x.Linked() && Separate(this, x) {
        assert old(x.Linked()) && old(Separate(this, x));
        x.Untouched();
      }
    }

    lemma RingMembers()
      requires Linked()
      ensures forall o :: o in objs ==> o.link in ring
    {
      forall o | o in objs ensures o.link in ring {
        var k :| 0 <= k < |objs| && objs[k] == o;
        assert ring[k + 1] == o.link;
      }
    }

    /** Brings `o` to the head, unless it is there already. */
    method Raise(o: ArcObject, ghost b: ArcState, ghost c: ArcState, ghost d: ArcState)
      requires Woven(this, b, c, d) && o in objs
      modifies this`objs, this`ring, ring`next, ring`prev
      ensures Woven(this, b, c, d)
      ensures objs == [o] + Without(old(objs), o)
    {
      var first := First(o);
      if !first {
        MoveToHead(o, b, c, d);
      } else {
        assert objs == [o] + objs[1..];
      }
    }

    /** Whether `o` is at the head already. */
    method First(o: ArcObject) returns (b: bool)
      requires Linked() && o in objs
      ensures b <==> objs[0] == o
    {
      assert Joined(ring, 0);
      assert objs[0].link.entry == objs[0];
      ghost var k :| 0 <= k < |objs| && objs[k] == o;
      assert objs[k].link.entry == objs[k];
      b := head.next == o.link;
    }

    /** `arc_state_lru`: the object at the tail. */
    method Lru() returns (o: ArcObject)
      requires Linked() && objs != []
      ensures o == objs[|objs| - 1]
    {
      assert Joined(ring, |ring| - 2);
      assert objs[|objs| - 1].link.entry == objs[|objs| - 1];
      o := head.prev.entry;
    }
  }
}
