/** What each critical section of the ARC cache does to the object it names, and that it leaves
    the others alone. */
module ArcLaws {
  import opened Wrappers
  import opened ArcList
  import opened ArcModel
  import opened ArcInvariant
  import opened ArcBalance
  import Runs = ArcRuns

  // ---------------------------------------------------------------- order

  /** The objects of `l` other than `o`, in order. */
  function Rest(l: seq<ArcObject>, o: ArcObject): seq<ArcObject>
  {
    if l == [] then [] else (if l[0] == o then [] else [l[0]]) + Rest(l[1..], o)
  }

  lemma {:induction false} RestAbsent(l: seq<ArcObject>, o: ArcObject)
    requires o !in l
    ensures Rest(l, o) == l
  {
    if l != [] { RestAbsent(l[1..], o); }
  }

  lemma {:induction false} RestWithout(l: seq<ArcObject>, o: ArcObject)
    requires Distinct(l) && o in l
    ensures Without(l, o) == Rest(l, o)
  {
    if l[0] == o { RestAbsent(l[1..], o); } else { RestWithout(l[1..], o); }
  }

  lemma RestHead(l: seq<ArcObject>, o: ArcObject)
    ensures Rest([o] + l, o) == Rest(l, o)
  {
    assert ([o] + l)[1..] == l;
  }

  /** `m` is `l` with `o` first on `to` and nowhere else; all others are where they were, in the
      same order. */
  ghost predicate Raised(l: Lists, m: Lists, o: ArcObject, to: Which)
  {
    && m.Proper() && m.Get(to) != [] && m.Get(to)[0] == o
    && forall v :: Rest(m.Get(v), o) == Rest(l.Get(v), o)
  }

  lemma MovedRaises(l: Lists, o: ArcObject, w: Which, to: Which)
    requires l.Proper() && o in l.Get(w)
    ensures Raised(l, Moved(l, o, w, to), o, to)
  {
    MovedProper(l, o, w, to);
    forall v ensures Rest(Moved(l, o, w, to).Get(v), o) == Rest(l.Get(v), o) {
      MovedRest(l, o, w, to, v);
    }
  }

  lemma MovedRest(l: Lists, o: ArcObject, w: Which, to: Which, v: Which)
    requires l.Proper() && o in l.Get(w)
    ensures Rest(Moved(l, o, w, to).Get(v), o) == Rest(l.Get(v), o)
  {
    hide Rest, Distinct, Without;
    var t := Taken(l, o, w);
    TakenRest(l, o, w, v);
    RestAbsent(t.Get(v), o);
    RestHead(t.Get(v), o);
  }

  lemma TakenRest(l: Lists, o: ArcObject, w: Which, v: Which)
    requires l.Proper() && o in l.Get(w)
    ensures Taken(l, o, w).Get(v) == Rest(l.Get(v), o) && o !in Taken(l, o, w).Get(v)
  {
    hide Rest, Distinct;
    RestWithout(l.Get(w), o);
    WithoutMembers(l.Get(w), o);
    if v != w { RestAbsent(l.Get(v), o); }
  }

  /** There is one such `m` only. */
  lemma RaisedOnce(l: Lists, m: Lists, m': Lists, o: ArcObject, to: Which)
    requires Raised(l, m, o, to) && Raised(l, m', o, to)
    ensures m == m'
  {
    forall v ensures m.Get(v) == m'.Get(v) {
      RaisedAt(l, m, o, to, v);
      RaisedAt(l, m', o, to, v);
    }
    assert m.Get(Mru) == m'.Get(Mru) && m.Get(Mfu) == m'.Get(Mfu);
    assert m.Get(Mrug) == m'.Get(Mrug) && m.Get(Mfug) == m'.Get(Mfug);
  }

  lemma RaisedAt(l: Lists, m: Lists, o: ArcObject, to: Which, v: Which)
    requires Raised(l, m, o, to)
    ensures m.Get(v) == (if v == to then [o] else []) + Rest(l.Get(v), o)
  {
    hide Rest;
    if v == to {
      var t := m.Get(to)[1..];
      assert m.Get(to) == [o] + t && Distinct(m.Get(to));
      RestHead(t, o);
      RestAbsent(t, o);
    } else {
      RestAbsent(m.Get(v), o);
    }
  }

  // ---------------------------------------------------------------- the target

  /** `d` is how many times the bytes `b`, or 2 if there are none, fit into `a`, but at least 1. */
  predicate Times(d: nat, a: nat, b: nat)
  {
    var unit := if b == 0 then 2 else b;
    if a < unit then d == 1 else d * unit <= a < d * unit + unit
  }

  lemma QuotientTimes(a: nat, b: nat)
    requires b > 0
    ensures Quotient(a, b) * b <= a < Quotient(a, b) * b + b
    ensures a < b <==> Quotient(a, b) == 0
  {
  }

  lemma RatioTimes(a: nat, b: nat)
    ensures Times(Max(Ratio(a, b), 1), a, b)
  {
    hide Quotient;
    QuotientTimes(a, if b == 0 then 2 else b);
  }

  /** By how much a hit on a ghost list moves the target: by how many times the bytes of that list
      fit into the other one. */
  lemma AdaptAmount(s: Cache) returns (up: nat, down: nat)
    ensures Times(up, s.Bytes(Mfug), s.Bytes(Mrug)) && Times(down, s.Bytes(Mrug), s.Bytes(Mfug))
    ensures Adapt(s, Mrug) == if s.p + up < s.c then s.p + up else s.c
    ensures Adapt(s, Mfug) == if down < s.p then s.p - down else 0
    ensures Adapt(s, Mru) == Adapt(s, Mfu) == s.p
  {
    hide Ratio;
    var a, b := s.Bytes(Mrug), s.Bytes(Mfug);
    RatioTimes(a, b);
    RatioTimes(b, a);
    up, down := Max(Ratio(b, a), 1), Max(Ratio(a, b), 1);
  }

  // ---------------------------------------------------------------- hits and drops

  /** A hit on an object that is on a list brings it to the head of mfu, moves the target as the
      list says, and changes nothing else. A hit on any other object changes nothing. */
  lemma TouchExactly(s: Cache, o: ArcObject)
    requires Core(s) && o in s.books.objs
    ensures s.books.Hashed(o) ==> s.books.objs[o].refs > 0
    ensures var s' := Move(s, o, Some(Mfu));
            match s.lists.Where(o)
            case None => s' == s
            case Some(w) => Raised(s.lists, s'.lists, o, Mfu) && s' == s.(lists := s'.lists, p := Adapt(s, w))
  {
    Runs.Counts(s.books, o);
    var from := s.lists.Where(o);
    WhereIs(s.lists, o);
    if from.Some? {
      hide Adapt;
      MoveTo(s, o, from.value, Mfu);
      MovedRaises(s.lists, o, from.value, Mfu);
      if from.value == Mfu { var _, _ := AdaptAmount(s); }
    }
  }

  /** The books are the same but for `o`. */
  ghost predicate Besides(b: Books, b': Books, o: ArcObject)
  {
    && b'.objs.Keys == b.objs.Keys + {o}
    && forall x :: x in b.objs && x != o ==> b'.objs[x] == b.objs[x] && (b'.Hashed(x) <==> b.Hashed(x))
  }

  lemma UnhashBesides(b: Books, o: ArcObject)
    requires Sound(b) && o in b.objs
    ensures b.Hashed(o) ==> b.objs[o].refs > 0
    ensures Besides(b, b.Unhash(o), o) && !b.Unhash(o).Hashed(o)
    ensures b.Unhash(o).objs[o].handles == b.objs[o].handles
    ensures b.Unhash(o).objs[o].refs == b.objs[o].handles
  {
    assert Fine(b.objs[o], b.Hashed(o));
    forall x | x in b.objs && x != o ensures b.Unhash(o).Hashed(x) <==> b.Hashed(x) {
      assert x.key == o.key && b.Hashed(o) ==> !b.Hashed(x);
    }
  }

  /** A drop takes an object that is not locked off its list and out of the hash, leaves the order
      of the others and the target, and only the handles still count. A locked one stays. */
  lemma DropExactly(s: Cache, o: ArcObject)
    requires Core(s) && o in s.books.objs
    ensures s.books.Hashed(o) ==> s.books.objs[o].refs > 0
    ensures var s' := Move(s, o, None);
            if s.books.objs[o].locked then s' == s
            else
              && s' == s.(lists := s'.lists, books := s'.books)
              && (forall v :: s'.lists.Get(v) == Rest(s.lists.Get(v), o))
              && Besides(s.books, s'.books, o) && !s'.books.Hashed(o)
              && s'.books.objs[o].refs == s'.books.objs[o].handles == s.books.objs[o].handles
  {
    hide Rest, Without, Books.Unhash, Adapt, Besides;
    UnhashBesides(s.books, o);
    WhereIs(s.lists, o);
    var from := s.lists.Where(o);
    if from.Some? {
      MoveOut(s, o, from.value);
      forall v { TakenRest(s.lists, o, from.value, v); }
    } else {
      forall v { RestAbsent(s.lists.Get(v), o); }
    }
  }

  // ---------------------------------------------------------------- new objects and sizes

  /** The bytes of an object without a value: its 104 bytes, the object of the user and a key that
      does not fit in 32 bytes. */
  function Bare(s: Cache, key: Key): nat
  {
    if |key| <= 32 then 104 + s.cos else 104 + s.cos + |key|
  }

  /** A miss enters the hash, held by it and by the caller, and is locked for its fetch. */
  lemma CreateExactly(s: Cache, o: ArcObject)
    requires Core(s) && o !in s.books.objs && o.key !in s.books.hash
    ensures var s' := Create(s, o); var i := s'.books.objs[o];
            && s' == s.(books := s'.books) && Besides(s.books, s'.books, o) && s'.books.Hashed(o)
            && i.size == Bare(s, o.key) && i.refs == 2 && i.handles == 1 && i.locked && i.fetching
  {
  }

  /** The object of a lost race is evicted, and the hash stays. */
  lemma DiscardExactly(s: Cache, o: ArcObject)
    requires Core(s) && o !in s.books.objs && o.key in s.books.hash
    ensures var s' := Discard(s, o); var i := s'.books.objs[o];
            && s' == s.(books := s'.books) && Besides(s.books, s'.books, o) && s'.books.hash == s.books.hash
            && i.refs == i.handles == 0 && i.evicts == 1 && !i.fetching
  {
  }

  /** A loaded object is in the hash, held by it alone, and is not being fetched. */
  lemma LoadExactly(s: Cache, o: ArcObject)
    requires Core(s) && o !in s.books.objs && o.key !in s.books.hash
    ensures var s' := ArcModel.Load(s, o); var i := s'.books.objs[o];
            && s' == s.(books := s'.books) && Besides(s.books, s'.books, o) && s'.books.Hashed(o)
            && i.size == Bare(s, o.key) && i.refs == 1 && i.handles == 0 && !i.locked && !i.fetching
  {
  }

  /** Moving an object that is on no list to mru locks it for its fetch, unless it is locked already,
      and changes nothing else. */
  lemma StartExactly(s: Cache, o: ArcObject)
    requires Core(s) && o in s.books.objs && s.lists.Where(o) == None
    ensures s.books.Hashed(o) ==> s.books.objs[o].refs > 0
    ensures var s' := Move(s, o, Some(Mru)); var i := s.books.objs[o];
            && s' == s.(books := s'.books) && s'.books.hash == s.books.hash && Besides(s.books, s'.books, o)
            && s'.books.objs[o] == if i.locked then i else i.(locked := true, fetching := true)
  {
    Runs.Counts(s.books, o);
  }

  /** A fetched value of `n` bytes that fits leaves its object first on mru, unlocked, in the hash,
      with `n` bytes more than a bare one, and balancing pending. */
  lemma KeptExactly(s: Cache, o: ArcObject, n: nat)
    requires Core(s) && o in s.books.objs && s.books.objs[o].fetching && n < s.c
    ensures s.books.Hashed(o) && s.books.objs[o].refs > 0
    ensures var s' := ArcModel.Finish(s, o, Keep(n)); var i := s'.books.objs[o];
            && s'.lists.mru == [o] + s.lists.mru && s'.lists == s.lists.(mru := s'.lists.mru)
            && s' == s.(lists := s'.lists, books := s'.books, needsBalance := s'.needsBalance)
            && s'.needsBalance == s.needsBalance + 1
            && Besides(s.books, s'.books, o) && s'.books.hash == s.books.hash
            && i == s.books.objs[o].(size := Bare(s, o.key) + n, locked := false, fetching := false)
  {
    assert Fine(s.books.objs[o], s.books.Hashed(o));
  }

  /** Any other end of a fetch leaves it on no list and out of the hash, with the handles alone. */
  lemma UnkeptExactly(s: Cache, o: ArcObject, rc: Fetched)
    requires Core(s) && o in s.books.objs && s.books.objs[o].fetching
    requires rc.Keep? ==> rc.size >= s.c
    ensures s.books.Hashed(o) && s.books.objs[o].refs > 0
    ensures var s' := ArcModel.Finish(s, o, rc); var i := s'.books.objs[o];
            && s' == s.(books := s'.books) && s'.lists.Where(o) == None
            && Besides(s.books, s'.books, o) && !s'.books.Hashed(o)
            && i.refs == i.handles == s.books.objs[o].handles && i.locked && !i.fetching
  {
    hide Sum, Books.Sizes, Besides;
    assert Fine(s.books.objs[o], s.books.Hashed(o));
    Runs.FetchEnds(s, o);
    WhereIs(s.lists, o);
    var b := s.books.Set(o, s.books.objs[o].(fetching := false));
    UnhashBesides(b, o);
    BesidesSet(s.books, o, s.books.objs[o].(fetching := false), b.Unhash(o));
  }

  lemma BesidesSet(b: Books, o: ArcObject, i: Info, b': Books)
    requires o in b.objs && Besides(b.Set(o, i), b', o)
    ensures Besides(b, b', o)
  {
  }

  /** A new size is recorded for an object on mru or mfu only, as that of a bare object and the
      value; balancing is pending in any case. */
  lemma ResizeExactly(s: Cache, o: ArcObject, n: nat)
    requires Core(s) && o in s.books.objs
    ensures var s' := ArcModel.Resize(s, o, n); var i := s.books.objs[o];
            && s' == s.(books := s'.books, needsBalance := s'.needsBalance) && s'.needsBalance == s.needsBalance + 1
            && s'.books.hash == s.books.hash && Besides(s.books, s'.books, o)
            && s'.books.objs[o] ==
               if o in s.lists.mru || o in s.lists.mfu then i.(size := Bare(s, o.key) + n) else i
  {
    WhereIs(s.lists, o);
  }

  // ---------------------------------------------------------------- handles over a run

  /** The handles of `o` a step gives out. */
  ghost function Gained(s: Cache, step: Runs.Step, o: ArcObject): nat
  {
    match step
    case Acquire(k) => if k in s.books.hash && s.books.hash[k] == o then 1 else 0
    case Miss(x) => if x == o && o.key !in s.books.hash then 1 else 0
    case Retain(x) => if x == o then 1 else 0
    case _ => 0
  }

  ghost function AllGained(s: Cache, steps: seq<Runs.Step>, o: ArcObject): nat
    requires Core(s) && Runs.Possible(s, steps)
    decreases |steps|
  {
    if steps == [] then 0
    else
      Runs.StepKeeps(s, steps[0]);
      Gained(s, steps[0], o) + AllGained(Runs.Apply(s, steps[0]), steps[1..], o)
  }

  function Releases(steps: seq<Runs.Step>, o: ArcObject): nat
  {
    if steps == [] then 0 else (if steps[0] == Runs.Release(o) then 1 else 0) + Releases(steps[1..], o)
  }

  ghost function Handles(s: Cache, o: ArcObject): nat
  {
    if o in s.books.objs then s.books.objs[o].handles else 0
  }

  lemma Alive(s: Cache, k: Key)
    requires Core(s) && k in s.books.hash
    ensures s.books.hash[k] in s.books.objs
  {
  }

  lemma MoveHandles(s: Cache, x: ArcObject, to: Option<Which>, o: ArcObject)
    requires x in s.books.objs && (s.books.Hashed(x) ==> s.books.objs[x].refs > 0)
    ensures Handles(Move(s, x, to), o) == Handles(s, o)
  {
    hide Adapt, Lists.Where, Lists.Put, Without, Books.Sizes;
  }

  lemma FinishHandles(s: Cache, x: ArcObject, rc: Fetched, o: ArcObject)
    requires x in s.books.objs && (s.books.Hashed(x) ==> s.books.objs[x].refs > 0)
    ensures Handles(ArcModel.Finish(s, x, rc), o) == Handles(s, o)
  {
    hide Lists.Put, Books.Sizes;
  }

  lemma HandlesNext(s: Cache, step: Runs.Step, o: ArcObject)
    requires Core(s) && Runs.Enabled(s, step)
    ensures Handles(Runs.Apply(s, step), o) + (if step == Runs.Release(o) then 1 else 0)
         == Handles(s, o) + Gained(s, step, o)
  {
    hide Placed, Move, ArcModel.Finish, Lists.Where, Balance, Books.Sizes;
    match step
    case Acquire(k) => if k in s.books.hash { Alive(s, k); }
    case Touch(x) => Runs.Counts(s.books, x); MoveHandles(s, x, Some(Mfu), o);
    case Drop(x) => Runs.Counts(s.books, x); MoveHandles(s, x, None, o);
    case Finish(x, rc) => Runs.Counts(s.books, x); FinishHandles(s, x, rc, o);
    case Rebalance => BalanceHandles(s, o);
    case _ =>
  }

  lemma BalanceHandles(s: Cache, o: ArcObject)
    requires Core(s)
    ensures Handles(Balance(s), o) == Handles(s, o)
  {
    if s.needsBalance > 0 {
      hide Balance, Core, CutInTurn, Share;
      BalanceResult(s);
      if o in s.books.objs {
        assert ForgotAt(s.books, Balance(s).books, o, o in s.lists.All() - Balance(s).lists.All());
      }
    }
  }

  /** In every run the handles of an object are those it had and those given out, less the
      released ones: no other section takes one or gives one. */
  lemma {:induction false} HandlesConserved(s: Cache, steps: seq<Runs.Step>, o: ArcObject)
    requires Core(s) && Runs.Possible(s, steps)
    ensures Handles(Runs.Exec(s, steps), o) + Releases(steps, o) == Handles(s, o) + AllGained(s, steps, o)
    decreases |steps|
  {
    hide Core, Handles, Gained, Runs.Enabled, Runs.Apply;
    if steps != [] {
      Runs.StepKeeps(s, steps[0]);
      HandlesNext(s, steps[0], o);
      HandlesConserved(Runs.Apply(s, steps[0]), steps[1..], o);
    }
  }
}
