/** `arc_balance`: the two loops as functions, and what they leave behind. */
module ArcBalance {
  import opened Wrappers
  import opened ArcList
  import opened ArcModel
  import opened ArcInvariant

  const TWO_64: nat := 0x1_0000_0000_0000_0000

  /** `c - p` on a `size_t`. */
  function Share(s: Cache): nat
  {
    if s.p <= s.c then s.c - s.p else (s.c - s.p) % TWO_64
  }

  function Last<T>(l: seq<T>): T
    requires l != []
  {
    l[|l| - 1]
  }

  function Init<T>(l: seq<T>): seq<T>
    requires l != []
  {
    l[..|l| - 1]
  }

  function Ghost(w: Which): Which
  {
    if w == Mru then Mrug else Mfug
  }

  /** The tail of a list is an object arc_move accepts. */
  lemma {:induction false} LastOf(s: Cache, w: Which)
    requires Core(s) && s.lists.Get(w) != []
    ensures var o := Last(s.lists.Get(w));
            && o in s.books.objs && s.books.objs[o].refs > 0
            && s.books.Hashed(o) && !s.books.objs[o].locked && !s.books.objs[o].fetching
            && s.lists.Where(o) == Some(w) && o in s.lists.All()
            && Taken(s.lists, o, w) == s.lists.Put(w, Init(s.lists.Get(w)))
            && Taken(s.lists, o, w).All() == s.lists.All() - {o}
  {
    var l := s.lists.Get(w);
    WhereIs(s.lists, Last(l));
    assert Fine(s.books.objs[Last(l)], true);
    WithoutAt(l, |l| - 1);
    TakeProper(s.lists, w, Last(l));
  }

  /** The lists after the tail of `w` has moved to the head of its ghost list. */
  function TailMoved(l: Lists, w: Which): (r: Lists)
    requires l.Get(w) != [] && (w == Mru || w == Mfu)
    ensures |r.mru| + |r.mfu| < |l.mru| + |l.mfu|
  {
    l.Put(w, Init(l.Get(w))).Put(Ghost(w), [Last(l.Get(w))] + l.Get(Ghost(w)))
  }

  lemma DemoteMoves(s: Cache, w: Which)
    requires Core(s) && s.lists.Get(w) != [] && (w == Mru || w == Mfu)
    ensures var o := Last(s.lists.Get(w));
            && o in s.books.objs && s.books.objs[o].refs > 0
            && Move(s, o, Some(Ghost(w))) == s.(lists := TailMoved(s.lists, w))
            && Core(s.(lists := TailMoved(s.lists, w)))
  {
    var o := Last(s.lists.Get(w));
    LastOf(s, w);
    MoveTo(s, o, w, Ghost(w));
    assert Moved(s.lists, o, w, Ghost(w)) == TailMoved(s.lists, w);
    MovedProper(s.lists, o, w, Ghost(w));
  }

  /** Moving the tail of mru or mfu to the head of its ghost list. */
  ghost function Demote(s: Cache, w: Which): (r: Cache)
    requires Core(s) && s.lists.Get(w) != [] && (w == Mru || w == Mfu)
    ensures r == s.(lists := TailMoved(s.lists, w))
    ensures Core(r) && |r.lists.mru| + |r.lists.mfu| < |s.lists.mru| + |s.lists.mfu|
  {
    DemoteMoves(s, w);
    Move(s, Last(s.lists.Get(w)), Some(Ghost(w)))
  }

  /** Forgetting the tail of a ghost list. */
  ghost function Forget(s: Cache, w: Which): (r: Cache)
    requires Core(s) && s.lists.Get(w) != [] && (w == Mrug || w == Mfug)
    ensures var o := Last(s.lists.Get(w));
            && o in s.books.objs && s.books.Hashed(o) && s.books.objs[o].refs > 0
            && !s.books.objs[o].fetching
            && r == s.(lists := s.lists.Put(w, Init(s.lists.Get(w))), books := s.books.Unhash(o))
    ensures Core(r)
    ensures Last(s.lists.Get(w)) in s.lists.All() && r.lists.All() == s.lists.All() - {Last(s.lists.Get(w))}
    ensures |r.lists.mrug| + |r.lists.mfug| < |s.lists.mrug| + |s.lists.mfug|
  {
    LastOf(s, w);
    DropListed(s, Last(s.lists.Get(w)), w);
    MoveOut(s, Last(s.lists.Get(w)), w);
    Move(s, Last(s.lists.Get(w)), None)
  }

  /** The list the first loop takes an object from. */
  function Overfull(s: Cache): (w: Option<Which>)
    ensures w.Some? ==> (w.value == Mru || w.value == Mfu) && s.lists.Get(w.value) != []
  {
    if s.Bytes(Mru) + s.Bytes(Mfu) <= s.c then None
    else if s.Bytes(Mru) > s.p then Some(Mru)
    else if s.Bytes(Mfu) > Share(s) then Some(Mfu)
    else None
  }

  /** The ghost list the second loop takes an object from. */
  function OverfullGhost(s: Cache): (w: Option<Which>)
    ensures w.Some? ==> (w.value == Mrug || w.value == Mfug) && s.lists.Get(w.value) != []
  {
    if s.Bytes(Mrug) + s.Bytes(Mfug) <= s.c then None
    else if s.Bytes(Mfug) > s.p then Some(Mfug)
    else if s.Bytes(Mrug) > Share(s) then Some(Mrug)
    else None
  }

  /** The first loop: from mru and mfu to their ghost lists. */
  ghost function Spill(s: Cache): (r: Cache)
    requires Core(s)
    ensures Core(r)
    decreases |s.lists.mru| + |s.lists.mfu|
  {
    var w := Overfull(s);
    if w == None then s else Spill(Demote(s, w.value))
  }

  /** The second loop: out of the ghost lists. */
  ghost function Trim(s: Cache): (r: Cache)
    requires Core(s)
    ensures Core(r)
    decreases |s.lists.mrug| + |s.lists.mfug|
  {
    var w := OverfullGhost(s);
    if w == None then s else Trim(Forget(s, w.value))
  }

  lemma SpillOnce(s: Cache)
    requires Core(s)
    ensures Overfull(s).None? ==> Spill(s) == s
    ensures Overfull(s).Some? ==> Spill(s) == Spill(Demote(s, Overfull(s).value))
    ensures s.Bytes(Mru) + s.Bytes(Mfu) <= s.c ==> Overfull(s).None?
  {
  }

  lemma TrimOnce(s: Cache)
    requires Core(s)
    ensures OverfullGhost(s).None? ==> Trim(s) == s
    ensures OverfullGhost(s).Some? ==> Trim(s) == Trim(Forget(s, OverfullGhost(s).value))
    ensures s.Bytes(Mrug) + s.Bytes(Mfug) <= s.c ==> OverfullGhost(s).None?
  {
  }

  ghost function Balance(s: Cache): (r: Cache)
    requires Core(s)
    ensures Core(r)
  {
    if s.needsBalance == 0 then s else Trim(Spill(s)).(needsBalance := 0)
  }

  // ---------------------------------------------------------------- what the loops do

  /** A tail of `l` has become the head of the ghost list `g`, in the same order. */
  ghost predicate Shifted(l: seq<ArcObject>, l': seq<ArcObject>, g: seq<ArcObject>, g': seq<ArcObject>)
  {
    |l'| <= |l| && l' + g' == l + g
  }

  /** `l'` is `l`, or was cut from it because one object more would exceed `limit`. */
  ghost predicate CutDownTo(size: map<ArcObject, nat>, l: seq<ArcObject>, l': seq<ArcObject>, limit: nat)
  {
    l' <= l && (|l'| < |l| ==> Sum(size, l[..|l'| + 1]) > limit)
  }

  lemma ShiftedOnce(l: seq<ArcObject>, l': seq<ArcObject>, g: seq<ArcObject>, g': seq<ArcObject>)
    requires l != [] && Shifted(Init(l), l', [Last(l)] + g, g')
    ensures Shifted(l, l', g, g')
  {
    assert Init(l) + ([Last(l)] + g) == l + g;
  }

  lemma CutOnce(size: map<ArcObject, nat>, l: seq<ArcObject>, l': seq<ArcObject>, limit: nat)
    requires l != [] && Sum(size, l) > limit && CutDownTo(size, Init(l), l', limit)
    ensures CutDownTo(size, l, l', limit)
  {
    if |l'| < |Init(l)| {
      assert Init(l)[..|l'| + 1] == l[..|l'| + 1];
    } else {
      assert l[..|l'| + 1] == l;
    }
  }

  /** A list within its share is not cut. */
  lemma WithinShare(size: map<ArcObject, nat>, l: seq<ArcObject>, l': seq<ArcObject>, limit: nat)
    requires CutDownTo(size, l, l', limit) && Sum(size, l) <= limit
    ensures l' == l
  {
    var n := if |l'| < |l| then |l'| + 1 else |l|;
    SumPrefix(size, l, n);
    assert l[..|l|] == l;
  }

  lemma SumPrefix(size: map<ArcObject, nat>, l: seq<ArcObject>, n: nat)
    requires n <= |l|
    ensures Sum(size, l[..n]) <= Sum(size, l)
  {
    SumConcat(size, l[..n], l[n..]);
    assert l == l[..n] + l[n..];
  }

  /** How a loop ends with `a` and `b` bytes on its lists: within `c` or, if a new size has left
      the target above the capacity, perhaps at its `break`, with neither above its share. */
  predicate Fits(c: nat, p: nat, share: nat, a: nat, b: nat)
  {
    a + b <= c || (p > c && a <= p && b <= share)
  }

  /** What a loop leaves of the list `a`, which it cuts first, and of `b`, which it cuts only once
      `a` is within `p`. Each is cut only above its share, and no further than the bytes of both
      demand. */
  ghost predicate CutInTurn(size: map<ArcObject, nat>, c: nat, p: nat, share: nat,
                            a: seq<ArcObject>, a': seq<ArcObject>, b: seq<ArcObject>, b': seq<ArcObject>)
  {
    && CutDownTo(size, a, a', p) && CutDownTo(size, b, b', share)
    && Fits(c, p, share, Sum(size, a'), Sum(size, b'))
    && (|a'| < |a| ==> Sum(size, a[..|a'| + 1]) + Sum(size, b) > c)
    && (|b'| < |b| ==> Sum(size, a') <= p && Sum(size, a') + Sum(size, b[..|b'| + 1]) > c)
  }

  lemma FirstTurn(size: map<ArcObject, nat>, c: nat, p: nat, share: nat,
                  a: seq<ArcObject>, a': seq<ArcObject>, b: seq<ArcObject>, b': seq<ArcObject>)
    requires a != [] && Sum(size, a) > p && Sum(size, a) + Sum(size, b) > c
    requires CutInTurn(size, c, p, share, Init(a), a', b, b')
    ensures CutInTurn(size, c, p, share, a, a', b, b')
  {
    hide Sum;
    CutOnce(size, a, a', p);
    assert a[..|a'| + 1] == if |a'| < |Init(a)| then Init(a)[..|a'| + 1] else a;
  }

  lemma SecondTurn(size: map<ArcObject, nat>, c: nat, p: nat, share: nat,
                   a: seq<ArcObject>, a': seq<ArcObject>, b: seq<ArcObject>, b': seq<ArcObject>)
    requires b != [] && Sum(size, a) <= p && Sum(size, b) > share && Sum(size, a) + Sum(size, b) > c
    requires CutInTurn(size, c, p, share, a, a', Init(b), b')
    ensures CutInTurn(size, c, p, share, a, a', b, b')
  {
    hide Sum;
    WithinShare(size, a, a', p);
    CutOnce(size, b, b', share);
    assert b[..|b'| + 1] == if |b'| < |Init(b)| then Init(b)[..|b'| + 1] else b;
  }

  /** So little as it says of the way there, it leaves one outcome only. */
  lemma OneOutcome(size: map<ArcObject, nat>, c: nat, p: nat, share: nat, a: seq<ArcObject>, b: seq<ArcObject>,
                   a1: seq<ArcObject>, b1: seq<ArcObject>, a2: seq<ArcObject>, b2: seq<ArcObject>)
    requires CutInTurn(size, c, p, share, a, a1, b, b1) && CutInTurn(size, c, p, share, a, a2, b, b2)
    ensures a1 == a2 && b1 == b2
  {
    hide Sum;
    if |a1| < |a2| { FirstStops(size, c, p, share, a, a1, b, b1, a2, b2); }
    if |a2| < |a1| { FirstStops(size, c, p, share, a, a2, b, b2, a1, b1); }
    if |b1| < |b2| { LongerPrefix(size, b, b1, b2); }
    if |b2| < |b1| { LongerPrefix(size, b, b2, b1); }
  }

  lemma FirstStops(size: map<ArcObject, nat>, c: nat, p: nat, share: nat, a: seq<ArcObject>, a1: seq<ArcObject>,
                   b: seq<ArcObject>, b1: seq<ArcObject>, a2: seq<ArcObject>, b2: seq<ArcObject>)
    requires CutInTurn(size, c, p, share, a, a1, b, b1) && CutInTurn(size, c, p, share, a, a2, b, b2)
    ensures |a1| >= |a2|
  {
    hide Sum;
    assert |b2| == |b| ==> b2 == b;
    if |a1| < |a2| { LongerPrefix(size, a, a1, a2); }
  }

  lemma LongerPrefix(size: map<ArcObject, nat>, l: seq<ArcObject>, l1: seq<ArcObject>, l2: seq<ArcObject>)
    requires l1 <= l && l2 <= l && |l1| < |l2|
    ensures Sum(size, l[..|l1| + 1]) <= Sum(size, l2)
  {
    SumPrefix(size, l2, |l1| + 1);
    assert l2[..|l1| + 1] == l[..|l1| + 1];
  }

  /** The first loop moves tails only, first those of mru and then those of mfu; nothing but the
      lists changes. */
  ghost predicate Spilled(s: Cache, r: Cache)
  {
    && r == s.(lists := r.lists)
    && Shifted(s.lists.mru, r.lists.mru, s.lists.mrug, r.lists.mrug)
    && Shifted(s.lists.mfu, r.lists.mfu, s.lists.mfug, r.lists.mfug)
    && CutInTurn(s.books.Sizes(), s.c, s.p, Share(s), s.lists.mru, r.lists.mru, s.lists.mfu, r.lists.mfu)
  }

  lemma SpilledOnce(s: Cache, w: Which, r: Cache)
    requires (w == Mru || w == Mfu) && s.lists.Get(w) != [] && s.Bytes(Mru) + s.Bytes(Mfu) > s.c
    requires if w == Mru then s.Bytes(Mru) > s.p else s.Bytes(Mru) <= s.p && s.Bytes(Mfu) > Share(s)
    requires Spilled(s.(lists := TailMoved(s.lists, w)), r)
    ensures Spilled(s, r)
  {
    hide CutInTurn, Books.Sizes, Sum;
    var size, l, l' := s.books.Sizes(), s.lists, r.lists;
    assert Share(s.(lists := TailMoved(s.lists, w))) == Share(s);
    hide Share;
    if w == Mru {
      ShiftedOnce(l.mru, l'.mru, l.mrug, l'.mrug);
      FirstTurn(size, s.c, s.p, Share(s), l.mru, l'.mru, l.mfu, l'.mfu);
    } else {
      ShiftedOnce(l.mfu, l'.mfu, l.mfug, l'.mfug);
      SecondTurn(size, s.c, s.p, Share(s), l.mru, l'.mru, l.mfu, l'.mfu);
    }
  }

  lemma {:induction false} SpillResult(s: Cache)
    requires Core(s)
    ensures Spilled(s, Spill(s))
    decreases |s.lists.mru| + |s.lists.mfu|
  {
    var w := Overfull(s);
    if w.Some? {
      SpillResult(Demote(s, w.value));
      SpilledOnce(s, w.value, Spill(Demote(s, w.value)));
    }
  }

  /** The objects of `gone` have left the hash, one reference less each; nothing else
      has changed in the books. */
  ghost predicate Forgot(b: Books, b': Books, gone: set<ArcObject>)
  {
    && b'.objs.Keys == b.objs.Keys
    && forall o :: o in b.objs ==> ForgotAt(b, b', o, o in gone)
  }

  ghost predicate ForgotAt(b: Books, b': Books, o: ArcObject, gone: bool)
    requires o in b.objs && o in b'.objs
  {
    && (b'.Hashed(o) <==> b.Hashed(o) && !gone)
    && b'.objs[o].size == b.objs[o].size
    && (if gone then b.objs[o].refs > 0 && b'.objs[o] == b.objs[o].Unref() else b'.objs[o] == b.objs[o])
  }

  lemma ForgotOne(b: Books, o: ArcObject)
    requires Sound(b) && o in b.objs && b.Hashed(o)
    ensures b.objs[o].refs > 0 && Forgot(b, b.Unhash(o), {o})
  {
    assert Fine(b.objs[o], true);
    forall x | x in b.objs && x != o ensures b.Unhash(o).Hashed(x) <==> b.Hashed(x) {
      assert x.key == o.key ==> !b.Hashed(x);
    }
  }

  lemma ForgotMore(b: Books, b1: Books, b2: Books, gone: set<ArcObject>, more: set<ArcObject>)
    requires Forgot(b, b1, gone) && Forgot(b1, b2, more) && gone !! more
    ensures Forgot(b, b2, gone + more)
  {
  }

  /** The second loop drops tails only, first those of mfug and then those of mrug. Exactly the
      dropped objects have left the hash. */
  ghost predicate Trimmed(s: Cache, r: Cache)
  {
    TrimmedLists(s, r) && Forgot(s.books, r.books, s.lists.All() - r.lists.All())
  }

  ghost predicate TrimmedLists(s: Cache, r: Cache)
  {
    && r == s.(lists := s.lists.(mrug := r.lists.mrug, mfug := r.lists.mfug), books := r.books)
    && CutInTurn(s.books.Sizes(), s.c, s.p, Share(s), s.lists.mfug, r.lists.mfug, s.lists.mrug, r.lists.mrug)
  }

  lemma TrimmedListsOnce(s: Cache, w: Which, b: Books, r: Cache)
    requires (w == Mrug || w == Mfug) && s.lists.Get(w) != [] && b.Sizes() == s.books.Sizes()
    requires s.Bytes(Mrug) + s.Bytes(Mfug) > s.c
    requires if w == Mfug then s.Bytes(Mfug) > s.p else s.Bytes(Mfug) <= s.p && s.Bytes(Mrug) > Share(s)
    requires TrimmedLists(s.(lists := s.lists.Put(w, Init(s.lists.Get(w))), books := b), r)
    ensures TrimmedLists(s, r)
  {
    hide CutInTurn, Books.Sizes, Sum;
    var size, l, l' := s.books.Sizes(), s.lists, r.lists;
    assert Share(s.(lists := s.lists.Put(w, Init(s.lists.Get(w))), books := b)) == Share(s);
    hide Share;
    if w == Mfug {
      FirstTurn(size, s.c, s.p, Share(s), l.mfug, l'.mfug, l.mrug, l'.mrug);
    } else {
      SecondTurn(size, s.c, s.p, Share(s), l.mfug, l'.mfug, l.mrug, l'.mrug);
    }
  }

  lemma PrefixAll(l: Lists, r: Lists)
    requires forall w :: r.Get(w) <= l.Get(w)
    ensures r.All() <= l.All()
  {
    forall o | o in r.All() ensures o in l.All() {
      WhereIs(r, o);
      var w := r.Where(o).value;
      assert o in l.Get(w);
      WhereIs(l, o);
    }
  }

  lemma TrimmedPrefix(s: Cache, r: Cache)
    requires TrimmedLists(s, r)
    ensures r.lists.All() <= s.lists.All()
  {
    forall w ensures r.lists.Get(w) <= s.lists.Get(w) {}
    PrefixAll(s.lists, r.lists);
  }

  lemma ForgotOnce(b: Books, o: ArcObject, b': Books, all: set<ArcObject>, rest: set<ArcObject>)
    requires Sound(b) && o in b.objs && b.Hashed(o) && b.objs[o].refs > 0
    requires o in all && rest <= all - {o}
    requires Forgot(b.Unhash(o), b', all - {o} - rest)
    ensures Forgot(b, b', all - rest)
  {
    ForgotOne(b, o);
    ForgotMore(b, b.Unhash(o), b', {o}, all - {o} - rest);
    assert {o} + (all - {o} - rest) == all - rest;
  }

  lemma TrimmedOnce(s: Cache, w: Which, r: Cache)
    requires Core(s) && (w == Mrug || w == Mfug) && s.lists.Get(w) != []
    requires s.Bytes(Mrug) + s.Bytes(Mfug) > s.c
    requires if w == Mfug then s.Bytes(Mfug) > s.p else s.Bytes(Mfug) <= s.p && s.Bytes(Mrug) > Share(s)
    requires Trimmed(Forget(s, w), r)
    ensures Trimmed(s, r)
  {
    TrimmedListsOnce(s, w, Forget(s, w).books, r);
    TrimmedPrefix(Forget(s, w), r);
    ForgotOnce(s.books, Last(s.lists.Get(w)), r.books, s.lists.All(), r.lists.All());
  }

  lemma {:induction false} TrimResult(s: Cache)
    requires Core(s)
    ensures Trimmed(s, Trim(s))
    decreases |s.lists.mrug| + |s.lists.mfug|
  {
    hide Trimmed, Sum, Books.Sizes, Share;
    var w := OverfullGhost(s);
    if w.Some? {
      TrimResult(Forget(s, w.value));
      TrimmedOnce(s, w.value, Trim(Forget(s, w.value)));
    } else {
      TrimmedNothing(s);
    }
  }

  lemma TrimmedNothing(s: Cache)
    requires OverfullGhost(s).None?
    ensures Trimmed(s, s)
  {
    hide Sum, Lists.All, Books.Sizes;
    assert s.lists.All() - s.lists.All() == {};
  }

  // ---------------------------------------------------------------- the whole of arc_balance

  /** `arc_balance` leaves at most `c` bytes on mru and mfu and at most `c` on the ghost
      lists, unless the target is above the capacity. It takes objects from the tails only:
      mru and mfu are prefixes of what they were, each followed by its ghost list as before up
      to a forgotten tail. The lists are cut in turn, each only while it is above its share,
      and exactly the forgotten objects leave the hash. */
  ghost predicate Balanced(s: Cache, r: Cache)
  {
    && r == s.(lists := r.lists, books := r.books, needsBalance := 0)
    && CutInTurn(s.books.Sizes(), s.c, s.p, Share(s), s.lists.mru, r.lists.mru, s.lists.mfu, r.lists.mfu)
    && CutInTurn(s.books.Sizes(), s.c, s.p, Share(s),
                 (s.lists.mfu + s.lists.mfug)[|r.lists.mfu|..], r.lists.mfug,
                 (s.lists.mru + s.lists.mrug)[|r.lists.mru|..], r.lists.mrug)
    && Forgot(s.books, r.books, s.lists.All() - r.lists.All())
  }

  /** That is one outcome only. */
  lemma BalancedOnce(s: Cache, r: Cache, r': Cache)
    requires Core(r) && Core(r') && Balanced(s, r) && Balanced(s, r')
    ensures r == r'
  {
    var size, l, m, m' := s.books.Sizes(), s.lists, r.lists, r'.lists;
    assert m.mru <= l.mru && m.mfu <= l.mfu;
    hide CutInTurn, Share, Books.Sizes, Forgot;
    OneOutcome(size, s.c, s.p, Share(s), l.mru, l.mfu, m.mru, m.mfu, m'.mru, m'.mfu);
    OneOutcome(size, s.c, s.p, Share(s), (l.mfu + l.mfug)[|m.mfu|..], (l.mru + l.mrug)[|m.mru|..],
               m.mfug, m.mrug, m'.mfug, m'.mrug);
    ForgotOnly(s.books, r.books, r'.books, l.All() - m.All());
  }

  lemma ForgotOnly(b: Books, b1: Books, b2: Books, gone: set<ArcObject>)
    requires Sound(b1) && Sound(b2) && Forgot(b, b1, gone) && Forgot(b, b2, gone)
    ensures b1 == b2
  {
    forall o | o in b.objs ensures b1.objs[o] == b2.objs[o] && (b1.Hashed(o) <==> b2.Hashed(o)) {
      assert ForgotAt(b, b1, o, o in gone) && ForgotAt(b, b2, o, o in gone);
    }
    assert b1.objs == b2.objs;
    forall k ensures k in b1.hash <==> k in b2.hash
      ensures k in b1.hash && k in b2.hash ==> b1.hash[k] == b2.hash[k]
    {
      if k in b1.hash { assert b1.Hashed(b1.hash[k]) && b2.Hashed(b1.hash[k]); }
      if k in b2.hash { assert b2.Hashed(b2.hash[k]) && b1.Hashed(b2.hash[k]); }
    }
    assert b1.hash == b2.hash;
  }

  lemma ShiftedAll(l: Lists, r: Lists)
    requires Shifted(l.mru, r.mru, l.mrug, r.mrug) && Shifted(l.mfu, r.mfu, l.mfug, r.mfug)
    ensures l.All() == r.All()
  {
    forall o ensures o in l.All() <==> o in r.All() {
      assert o in l.mru + l.mrug <==> o in r.mru + r.mrug;
      assert o in l.mfu + l.mfug <==> o in r.mfu + r.mfug;
    }
  }

  lemma ShiftedTail(l: seq<ArcObject>, l': seq<ArcObject>, g: seq<ArcObject>, g': seq<ArcObject>)
    requires Shifted(l, l', g, g')
    ensures (l + g)[|l'|..] == g'
  {
    assert (l' + g')[|l'|..] == g';
  }

  lemma BalanceResult(s: Cache)
    requires Core(s) && s.needsBalance > 0
    ensures Balanced(s, Balance(s))
  {
    hide Core, Spill, Trim, CutInTurn, Sum, Books.Sizes, Forgot, Shifted;
    SpillResult(s);
    var t := Spill(s);
    assert Share(t) == Share(s);
    hide Share;
    TrimResult(t);
    ShiftedAll(s.lists, t.lists);
    ShiftedTail(s.lists.mru, t.lists.mru, s.lists.mrug, t.lists.mrug);
    ShiftedTail(s.lists.mfu, t.lists.mfu, s.lists.mfug, t.lists.mfug);
    ForgotSizes(t.books, Trim(t).books, t.lists.All() - Trim(t).lists.All());
  }

  /** How many bytes are left. */
  lemma BalancedFits(s: Cache)
    requires Core(s) && s.needsBalance > 0
    ensures var r := Balance(s);
            && r.c == s.c && r.p == s.p && r.needsBalance == 0 && r.books.Sizes() == s.books.Sizes()
            && Fits(s.c, s.p, Share(s), r.Bytes(Mru), r.Bytes(Mfu))
            && Fits(s.c, s.p, Share(s), r.Bytes(Mfug), r.Bytes(Mrug))
  {
    hide Core, Balance, Share, Sum, Books.Sizes, Forgot, CutDownTo, Fits;
    BalanceResult(s);
    ForgotSizes(s.books, Balance(s).books, s.lists.All() - Balance(s).lists.All());
  }

  /** As long as the target is above the capacity, mfu keeps every object, however many bytes
      they have. */
  lemma OverTarget(s: Cache)
    requires Core(s) && s.needsBalance > 0 && s.p > s.c && s.Bytes(Mfu) <= Share(s)
    ensures Balance(s).lists.mfu == s.lists.mfu && Total(Balance(s)) >= s.Bytes(Mfu)
  {
    hide Share, Balance, Core, CutDownTo, Sum, Books.Sizes;
    BalanceResult(s);
    WithinShare(s.books.Sizes(), s.lists.mfu, Balance(s).lists.mfu, Share(s));
    ForgotSizes(s.books, Balance(s).books, s.lists.All() - Balance(s).lists.All());
  }

  lemma ForgotSizes(b: Books, b': Books, gone: set<ArcObject>)
    requires Forgot(b, b', gone)
    ensures b'.Sizes() == b.Sizes()
  {
    forall o | o in b.objs ensures b'.objs[o].size == b.objs[o].size {
      assert ForgotAt(b, b', o, o in gone);
    }
  }
}
