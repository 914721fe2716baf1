/** The ARC cache on values: its four lists, its hash and its reference counts, the
    critical sections as functions on that value, and the invariants of every run. */
module ArcModel {
  import opened Wrappers
  import opened ArcList

  datatype Which = Mru | Mfu | Mrug | Mfug

  /** The four lists, most recently used object first. */
  datatype Lists = Lists(mru: seq<ArcObject>, mfu: seq<ArcObject>, mrug: seq<ArcObject>, mfug: seq<ArcObject>) {

    function Get(w: Which): seq<ArcObject> {
      match w
      case Mru => mru
      case Mfu => mfu
      case Mrug => mrug
      case Mfug => mfug
    }

    function Put(w: Which, l: seq<ArcObject>): (r: Lists)
      ensures forall w' :: r.Get(w') == if w' == w then l else Get(w')
    {
      match w
      case Mru => this.(mru := l)
      case Mfu => this.(mfu := l)
      case Mrug => this.(mrug := l)
      case Mfug => this.(mfug := l)
    }

    /** The list `o` is on. */
    function Where(o: ArcObject): Option<Which> {
      if o in mru then Some(Mru)
      else if o in mfu then Some(Mfu)
      else if o in mrug then Some(Mrug)
      else if o in mfug then Some(Mfug)
      else None
    }

    /** The listed objects. */
    ghost function All(): set<ArcObject> {
      (set o | o in mru) + (set o | o in mfu) + (set o | o in mrug) + (set o | o in mfug)
    }

    /** No object occurs twice, neither on one list nor on two. */
    ghost predicate Proper() {
      && (forall w :: Distinct(Get(w)))
      && (forall w1, w2, o :: o in Get(w1) && o in Get(w2) ==> w1 == w2)
    }
  }

  /** What is kept about one object. `refs` is its reference count; `handles` the
      references given out and not yet released; `evicts` the runs of the evict callback;
      `fetching` that a thread is fetching its value outside of the lock. */
  datatype Info = Info(size: nat, refs: nat, handles: nat, evicts: nat, locked: bool, fetching: bool) {

    /** `release_ref`: the evict callback runs when the count reaches zero. */
    function Unref(): Info
      requires refs > 0
    {
      this.(refs := refs - 1, evicts := if refs == 1 then evicts + 1 else evicts)
    }

    function Retained(): Info
    {
      this.(refs := refs + 1, handles := handles + 1)
    }

    function Released(): Info
      requires refs > 0 && handles > 0
    {
      this.(handles := handles - 1).Unref()
    }
  }

  /** The hash, and every object the cache ever made. */
  datatype Books = Books(hash: map<Key, ArcObject>, objs: map<ArcObject, Info>) {

    predicate Hashed(o: ArcObject) {
      o.key in hash && hash[o.key] == o
    }

    function Set(o: ArcObject, i: Info): (b: Books)
      ensures b.Sizes() == Sizes()[o := i.size]
    {
      this.(objs := objs[o := i])
    }

    function Sizes(): map<ArcObject, nat> {
      map o | o in objs :: objs[o].size
    }

    /** `ht_delete_if_equals`, and the release of the reference the hash held. */
    function Unhash(o: ArcObject): (b: Books)
      requires o in objs && (Hashed(o) ==> objs[o].refs > 0)
      ensures b.Sizes() == Sizes() && b.objs.Keys == objs.Keys
    {
      if Hashed(o) then Books(hash - {o.key}, objs[o := objs[o].Unref()]) else this
    }
  }

  datatype Cache = Cache(
    lists: Lists,
    books: Books,
    c: nat,
    p: nat,
    cos: nat,
    needsBalance: nat,
    strict: bool)
  {
    function Bytes(w: Which): nat {
      Sum(books.Sizes(), lists.Get(w))
    }
  }

  /** The bytes of the objects of `l`. */
  function Sum(size: map<ArcObject, nat>, l: seq<ArcObject>): nat {
    if l == [] then 0 else (if l[0] in size then size[l[0]] else 0) + Sum(size, l[1..])
  }

  const OBJECT_SIZE: nat := 104
  const INLINE_KEY: nat := 32

  /** `ARC_OBJ_BASE_SIZE`: a key of more than 32 bytes has its own allocation. */
  function BaseSize(key: Key): nat {
    OBJECT_SIZE + if |key| > INLINE_KEY then |key| else 0
  }

  // ---------------------------------------------------------------- critical sections

  /** How many times the bytes `a` of one ghost list hold the bytes `b` of the other. */
  function Ratio(a: nat, b: nat): nat
  {
    if b != 0 then Quotient(a, b) else Quotient(a, 2)
  }

  function Quotient(a: nat, b: nat): nat
    requires b > 0
  {
    a / b
  }

  /** The new target of the mru list after a hit on a ghost list. */
  function Adapt(s: Cache, from: Which): nat
  {
    var mrug, mfug := s.Bytes(Mrug), s.Bytes(Mfug);
    match from
    case Mrug => Min(s.c, s.p + Max(Ratio(mfug, mrug), 1))
    case Mfug =>
      var step := Max(Ratio(mrug, mfug), 1);
      if s.p > step then s.p - step else 0
    case _ => s.p
  }

  function Min(a: nat, b: nat): nat { if a < b then a else b }
  function Max(a: nat, b: nat): nat { if a > b then a else b }

  /** `arc_move`. Moving an object that is on no list to mru starts its fetch, which
      `Finish` completes. */
  function Move(s: Cache, o: ArcObject, to: Option<Which>): Cache
    requires o in s.books.objs && (s.books.Hashed(o) ==> s.books.objs[o].refs > 0)
  {
    var from := s.lists.Where(o);
    if s.books.objs[o].locked || (to == Some(Mfu) && from == None) then s
    else if from != None && from == to then
      s.(lists := s.lists.Put(to.value, [o] + Without(s.lists.Get(to.value), o)))
    else
      var l := if from.Some? then s.lists.Put(from.value, Without(s.lists.Get(from.value), o)) else s.lists;
      match to
      case None => s.(lists := l, books := s.books.Unhash(o))
      case Some(w) =>
        if from == None && (w == Mru || w == Mfu) then s.(books := Begin(s.books, o))
        else s.(lists := l.Put(w, [o] + l.Get(w)), p := if from.Some? then Adapt(s, from.value) else s.p)
  }

  function Begin(b: Books, o: ArcObject): Books
    requires o in b.objs
  {
    b.Set(o, b.objs[o].(locked := true, fetching := true))
  }

  datatype Fetched = NotFound | DontKeep | Keep(size: nat)

  /** The end of a fetch: `NotFound` for -1, `DontKeep` for 1, `Keep` for the rest. */
  function Finish(s: Cache, o: ArcObject, rc: Fetched): Cache
    requires o in s.books.objs && (s.books.Hashed(o) ==> s.books.objs[o].refs > 0)
  {
    var b := s.books.Set(o, s.books.objs[o].(fetching := false));
    if !rc.Keep? || rc.size >= s.c then
      s.(books := b.Unhash(o))
    else
      s.(books := b.Set(o, b.objs[o].(size := BaseSize(o.key) + s.cos + rc.size, locked := false)),
         lists := s.lists.Put(Mru, [o] + s.lists.Get(Mru)),
         needsBalance := s.needsBalance + 1)
  }

  /** `arc_update_resource_size`. */
  function Resize(s: Cache, o: ArcObject, n: nat): Cache
    requires o in s.books.objs
  {
    var from := s.lists.Where(o);
    s.(books := if from == Some(Mru) || from == Some(Mfu)
                then s.books.Set(o, s.books.objs[o].(size := BaseSize(o.key) + s.cos + n))
                else s.books,
       needsBalance := s.needsBalance + 1)
  }

  /** A lookup that misses: the new object enters the hash and its fetch starts. */
  function Create(s: Cache, o: ArcObject): Cache
  {
    s.(books := Books(s.books.hash[o.key := o],
                      s.books.objs[o := Info(BaseSize(o.key) + s.cos, 2, 1, 0, true, true)]))
  }

  /** The object a lookup or a load made for a key that has got one in the meantime. */
  function Discard(s: Cache, o: ArcObject): Cache
  {
    s.(books := s.books.Set(o, Info(BaseSize(o.key) + s.cos, 0, 0, 1, false, false)))
  }

  /** `arc_load` of a key that is not in the hash: the object enters no list. */
  function Load(s: Cache, o: ArcObject): Cache
  {
    s.(books := Books(s.books.hash[o.key := o],
                      s.books.objs[o := Info(BaseSize(o.key) + s.cos, 1, 0, 0, false, false)]))
  }

  function Retain(s: Cache, o: ArcObject): Cache
    requires o in s.books.objs
  {
    s.(books := s.books.Set(o, s.books.objs[o].Retained()))
  }

  function Release(s: Cache, o: ArcObject): Cache
    requires o in s.books.objs && s.books.objs[o].refs > 0 && s.books.objs[o].handles > 0
  {
    s.(books := s.books.Set(o, s.books.objs[o].Released()))
  }

  // ---------------------------------------------------------------- invariants

  /** References are conserved: one of the hash, and the handles. The evict callback has
      run exactly when there is none left. An object being fetched is locked, is in the
      hash, and is held by its fetcher. */
  ghost predicate Fine(i: Info, hashed: bool)
  {
    && i.refs == (if hashed then 1 else 0) + i.handles
    && i.evicts == (if i.refs == 0 then 1 else 0)
    && (i.fetching ==> i.locked && hashed && i.handles > 0)
  }

  ghost predicate Sound(b: Books)
  {
    && (forall k :: k in b.hash ==> b.hash[k] in b.objs && b.hash[k].key == k)
    && (forall o :: o in b.objs ==> Fine(b.objs[o], b.Hashed(o)))
  }

  /** A listed object is in the hash under its key and is not locked. */
  ghost predicate Placed(l: Lists, b: Books)
  {
    && l.Proper()
    && (forall o :: o in l.All() ==> o in b.objs && b.Hashed(o) && !b.objs[o].locked)
  }

  function Total(s: Cache): nat
  {
    s.Bytes(Mru) + s.Bytes(Mfu) + s.Bytes(Mrug) + s.Bytes(Mfug)
  }

  /** The target is within the capacity and, unless balancing is pending, the bytes are. */
  ghost predicate Bounded(s: Cache)
  {
    && s.p <= s.c
    && (s.needsBalance == 0 ==> Total(s) <= 2 * s.c)
  }

  /** The invariant of every run, whatever sizes are set. */
  ghost predicate Core(s: Cache)
  {
    Sound(s.books) && Placed(s.lists, s.books)
  }

  /** The bounds are still there. */
  ghost predicate Keeps(s: Cache, s': Cache)
  {
    Bounded(s) ==> Bounded(s')
  }

  // ---------------------------------------------------------------- sums

  lemma {:induction false} SumConcat(size: map<ArcObject, nat>, a: seq<ArcObject>, b: seq<ArcObject>)
    ensures Sum(size, a + b) == Sum(size, a) + Sum(size, b)
  {
    if a == [] {
      assert a + b == b;
    } else {
      SumConcat(size, a[1..], b);
      assert (a + b)[1..] == a[1..] + b;
    }
  }

  lemma {:induction false} SumWithout(size: map<ArcObject, nat>, l: seq<ArcObject>, o: ArcObject)
    requires o in l && o in size
    ensures Sum(size, l) == Sum(size, Without(l, o)) + size[o]
  {
    if l[0] != o {
      SumWithout(size, l[1..], o);
      assert Without(l, o)[1..] == Without(l[1..], o);
    }
  }

  /** The bytes of a list depend on the sizes of its own objects only. */
  lemma {:induction false} SumFrame(size: map<ArcObject, nat>, size': map<ArcObject, nat>, l: seq<ArcObject>)
    requires forall o :: o in l ==> o in size && o in size' && size[o] == size'[o]
    ensures Sum(size, l) == Sum(size', l)
  {
    if l != [] {
      SumFrame(size, size', l[1..]);
    }
  }

  /** A new size for one object of a list. */
  lemma {:induction false} SumUpdate(size: map<ArcObject, nat>, l: seq<ArcObject>, o: ArcObject, n: nat)
    requires Distinct(l) && o in l && o in size && (forall x :: x in l ==> x in size)
    ensures Sum(size, l) >= size[o] && Sum(size[o := n], l) == Sum(size, l) - size[o] + n
  {
    forall x | x in Without(l, o) ensures x in size && x != o { WithoutMember(l, o, x); }
    SumWithout(size, l, o);
    SumWithout(size[o := n], l, o);
    SumFrame(size, size[o := n], Without(l, o));
  }

  // ---------------------------------------------------------------- lists

  lemma {:induction false} WithoutMembers<T>(l: seq<T>, o: T)
    requires Distinct(l) && o in l
    ensures Distinct(Without(l, o)) && |Without(l, o)| == |l| - 1
    ensures forall x :: x in Without(l, o) <==> x in l && x != o
  {
    var k :| 0 <= k < |l| && l[k] == o;
    WithoutAt(l, k);
    forall x | x in l && x != o ensures x in l[..k] + l[k + 1..] {
      var j :| 0 <= j < |l| && l[j] == x;
      assert (l[..k] + l[k + 1..])[if j < k then j else j - 1] == x;
    }
  }

  lemma WithoutMember<T>(l: seq<T>, o: T, x: T)
    requires Distinct(l) && o in l
    ensures x in Without(l, o) <==> x in l && x != o
  {
    WithoutMembers(l, o);
  }

  lemma WhereIs(l: Lists, o: ArcObject)
    ensures l.Where(o).Some? <==> o in l.All()
    ensures l.Where(o).Some? ==> o in l.Get(l.Where(o).value)
    ensures forall w :: o in l.Get(w) ==> o in l.All() && (l.Proper() ==> l.Where(o) == Some(w))
  {
  }

  /** Taking an object off its list. */
  lemma TakeProper(l: Lists, w: Which, o: ArcObject)
    requires l.Proper() && o in l.Get(w)
    ensures l.Put(w, Without(l.Get(w), o)).Proper()
    ensures l.Put(w, Without(l.Get(w), o)).All() == l.All() - {o}
  {
    hide Without, Distinct;
    WithoutMembers(l.Get(w), o);
    var l' := l.Put(w, Without(l.Get(w), o));
    forall w' ensures Distinct(l'.Get(w')) { assert Distinct(l.Get(w')); }
    forall x ensures x in l'.All() <==> x in l.All() - {o} { InAll(l, x); InAll(l', x); }
  }

  lemma InAll(l: Lists, x: ArcObject)
    ensures x in l.All() <==> exists w :: x in l.Get(w)
  {
    if x in l.All() {
      assert x in l.Get(Mru) || x in l.Get(Mfu) || x in l.Get(Mrug) || x in l.Get(Mfug);
    }
  }

  lemma DistinctPush<T>(l: seq<T>, o: T)
    requires Distinct(l) && o !in l
    ensures Distinct([o] + l)
    ensures forall x :: x in [o] + l <==> x == o || x in l
  {
  }

  /** Putting an object that is on no list at the head of one. */
  lemma PushProper(l: Lists, w: Which, o: ArcObject)
    requires l.Proper() && o !in l.All()
    ensures l.Put(w, [o] + l.Get(w)).Proper()
    ensures l.Put(w, [o] + l.Get(w)).All() == l.All() + {o}
  {
    WhereIs(l, o);
    DistinctPush(l.Get(w), o);
    var l' := l.Put(w, [o] + l.Get(w));
    forall w' ensures Distinct(l'.Get(w')) { assert Distinct(l.Get(w')); }
    forall x ensures x in l'.All() <==> x in l.All() + {o} { InAll(l, x); InAll(l', x); }
  }
}
