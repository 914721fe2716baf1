/** The ARC cache as it is in memory: linked lists with byte and item counters, objects
    that point at their list, a hash, and reference counts. Each critical section is a
    method proved against the function on values that specifies it. */
module Arc {
  import opened Wrappers
  import opened ArcList
  import opened ArcModel
  import opened ArcInvariant
  import opened ArcBalance
  import Runs = ArcRuns

  class Arc {
    const mru: ArcState
    const mfu: ArcState
    const mrug: ArcState
    const mfug: ArcState
    const cos: nat
    var hash: map<Key, ArcObject>
    var c: nat
    var p: nat
    var needsBalance: nat
    var strict: bool
    ghost var lists: Lists
    ghost var books: Books

    function State(w: Which): ArcState
    {
      match w
      case Mru => mru
      case Mfu => mfu
      case Mrug => mrug
      case Mfug => mfug
    }

    ghost function States(): set<ArcState>
    {
      {mru, mfu, mrug, mfug}
    }

    ghost function Objects(): set<ArcObject>
      reads this`books
    {
      books.objs.Keys
    }

    /** The links of the heads and of the objects. */
    ghost function Links(): set<Link>
      reads this`books
    {
      {mru.head, mfu.head, mrug.head, mfug.head} + set o | o in Objects() :: o.link
    }

    ghost function Model(): Cache
      reads this
    {
      Cache(lists, books, c, p, cos, needsBalance, strict)
    }

    /** The list `w` in memory is the one of `lists`, and its counters are right. */
    ghost predicate Holds(w: Which)
      reads this`books, this`lists, State(w)`objs, State(w)`count, State(w)`size
    {
      && State(w).objs == lists.Get(w)
      && State(w).count == |lists.Get(w)|
      && State(w).size == Sum(books.Sizes(), lists.Get(w))
    }

    /** The object points at the list it is on. */
    ghost predicate Points(o: ArcObject)
      reads this`lists, o`state, o.link`entry
    {
      o.link.entry == o && o.state == StateAt(lists.Where(o))
    }

    function StateAt(w: Option<Which>): ArcState?
    {
      if w.None? then null else State(w.value)
    }

    /** The books say what the object holds. */
    ghost predicate Recorded(o: ArcObject)
      requires o in books.objs
      reads this`books, o`size, o`refs, o`handles, o`evicts, o`locked
    {
      books.objs[o] == Info(o.size, o.refs, o.handles, o.evicts, o.locked, books.objs[o].fetching)
    }

    /** The lists in memory are `lists`. */
    ghost predicate Shelved()
      reads this`lists, this`books, States()`objs, States()`ring, States()`size, States()`count
      reads Objects()`state, Links()`entry
      reads mru.ring`next, mru.ring`prev, mru.ring`entry, mfu.ring`next, mfu.ring`prev, mfu.ring`entry
      reads mrug.ring`next, mrug.ring`prev, mrug.ring`entry, mfug.ring`next, mfug.ring`prev, mfug.ring`entry
    {
      && Woven(mru, mfu, mrug, mfug)
      && (forall w :: Holds(w))
      && lists.Proper() && lists.All() <= books.objs.Keys
      && (forall o :: o in books.objs ==> Points(o))
    }

    ghost predicate Wired()
      reads this, States(), Objects(), Links(), mru.ring, mfu.ring, mrug.ring, mfug.ring
    {
      && Shelved()
      && hash == books.hash
      && (forall o :: o in books.objs ==> Recorded(o))
    }

    ghost predicate Valid()
      reads this, States(), Objects(), Links(), mru.ring, mfu.ring, mrug.ring, mfug.ring
    {
      Wired() && Core(Model())
    }

    /** `arc_create`. */
    constructor (size: nat, cos: nat, strict: bool)
      ensures Valid() && Model() == Runs.Empty(size, cos, strict)
      ensures p == size / 4 && (c == p + p || c == p + p + 1)
      ensures fresh(mru) && fresh(mfu) && fresh(mrug) && fresh(mfug)
      ensures fresh(mru.head) && fresh(mfu.head) && fresh(mrug.head) && fresh(mfug.head)
    {
      hide Woven, ArcState.Linked, Wired, Core;
      mru := new ArcState();
      mfu := new ArcState();
      mrug := new ArcState();
      mfug := new ArcState();
      this.cos := cos;
      hash := map[];
      c := size / 2;
      p := size / 2 / 2;
      needsBalance := 0;
      this.strict := strict;
      lists := Lists([], [], [], []);
      books := Books(map[], map[]);
      new;
      NewWoven(mru, mfu, mrug, mfug);
      Initially(size, cos, strict);
    }

    lemma Initially(size: nat, cos: nat, strict: bool)
      requires Woven(mru, mfu, mrug, mfug) && hash == map[]
      requires Model() == Runs.Empty(size, cos, strict)
      requires mru.objs == mfu.objs == mrug.objs == mfug.objs == []
      requires mru.size == mfu.size == mrug.size == mfug.size == 0
      requires mru.count == mfu.count == mrug.count == mfug.count == 0
      ensures Valid()
    {
      hide Woven;
      Runs.EmptyInv(size, cos, strict);
      forall w ensures Holds(w) {}
    }

    /** What taking an object off its list relies on. */
    lemma Takable(o: ArcObject, w: Which)
      requires lists.Proper() && lists.Where(o) == Some(w) && o in books.objs
      ensures o in lists.Get(w)
      ensures Sum(books.Sizes(), lists.Get(w)) == Sum(books.Sizes(), Without(lists.Get(w), o)) + books.objs[o].size
      ensures |Without(lists.Get(w), o)| == |lists.Get(w)| - 1
      ensures forall x :: Taken(lists, o, w).Where(x) == if x == o then None else lists.Where(x)
      ensures Taken(lists, o, w).Proper() && Taken(lists, o, w).All() <= lists.All()
    {
      WhereIs(lists, o);
      SumWithout(books.Sizes(), lists.Get(w), o);
      WithoutMembers(lists.Get(w), o);
      TakeProper(lists, w, o);
      forall x { WhereTaken(lists, o, w, x); }
    }

    /** The lists other than `w`. */
    ghost function Others(w: Which): (ArcState, ArcState, ArcState)
    {
      match w
      case Mru => (mfu, mrug, mfug)
      case Mfu => (mru, mrug, mfug)
      case Mrug => (mru, mfu, mfug)
      case Mfug => (mru, mfu, mrug)
    }

    lemma Rotate(w: Which)
      ensures Woven(mru, mfu, mrug, mfug) <==> Woven(State(w), Others(w).0, Others(w).1, Others(w).2)
      ensures Woven(mru, mfu, mrug, mfug) ==> forall v :: v != w ==> State(v) != State(w)
    {
      hide ArcState.Linked;
    }

    /** `lists` follows a change of the list `w` in memory. */
    ghost method Relist(w: Which, l: Lists)
      requires Woven(mru, mfu, mrug, mfug) && l.Proper() && l.All() <= books.objs.Keys
      requires forall v :: v != w ==> Holds(v) && l.Get(v) == lists.Get(v)
      requires State(w).objs == l.Get(w) && State(w).count == |l.Get(w)|
      requires State(w).size == Sum(books.Sizes(), l.Get(w))
      requires forall x :: x in books.objs ==> x.link.entry == x && x.state == StateAt(l.Where(x))
      modifies this`lists
      ensures Shelved() && lists == l
    {
      hide Woven, ArcModel.Lists.Proper, ArcModel.Lists.All, ArcModel.Lists.Where, Sum, Books.Sizes;
      lists := l;
      forall v ensures Holds(v) {
        assert v != w ==> old(Holds(v));
      }
      assert Woven(mru, mfu, mrug, mfug);
    }

    /** Takes `o` off its list. */
    method Take(o: ArcObject, ghost w: Which)
      requires Wired() && o in books.objs && lists.Where(o) == Some(w)
      modifies this`lists, o`state, State(w), State(w).ring`next, State(w).ring`prev
      ensures Wired()
      ensures lists == Taken(old(lists), o, w)
      ensures o.state == null
    {
      hide Woven, ArcModel.Lists.Proper, ArcModel.Lists.All, ArcModel.Lists.Where, Distinct, Sum, Books.Sizes, Without;
      Takable(o, w);
      Rotate(w);
      assert Points(o) && Holds(w) && Recorded(o);
      o.state.Drop(o, Others(w).0, Others(w).1, Others(w).2);
      Rotate(w);
      forall v | v != w ensures Holds(v) {
        assert old(Holds(v));
      }
      forall x | x in books.objs ensures x.link.entry == x && x.state == StateAt(Taken(lists, o, w).Where(x)) {
        assert old(Points(x));
      }
      forall x | x in books.objs ensures Recorded(x) {
        assert old(Recorded(x));
      }
      Relist(w, Taken(lists, o, w));
    }

    /** What putting an object on a list relies on. */
    lemma Puttable(o: ArcObject, w: Which)
      requires lists.Proper() && lists.Where(o) == None && o in books.objs && lists.All() <= books.objs.Keys
      ensures Sum(books.Sizes(), [o] + lists.Get(w)) == Sum(books.Sizes(), lists.Get(w)) + books.objs[o].size
      ensures forall v :: o !in lists.Get(v)
      ensures forall x :: Pushed(lists, o, w).Where(x) == if x == o then Some(w) else lists.Where(x)
      ensures Pushed(lists, o, w).Proper() && Pushed(lists, o, w).All() <= books.objs.Keys
    {
      WhereIs(lists, o);
      assert ([o] + lists.Get(w))[1..] == lists.Get(w);
      PushProper(lists, w, o);
      forall x { WherePushed(lists, o, w, x); }
    }

    /** Puts `o`, which is on no list, at the head of `st`. */
    method Put(o: ArcObject, st: ArcState, ghost w: Which)
      requires Wired() && o in books.objs && lists.Where(o) == None && st == State(w)
      modifies this`lists, o`state, st, st.ring`next, st.ring`prev, o.link`next, o.link`prev
      ensures Wired()
      ensures lists == Pushed(old(lists), o, w)
      ensures o.state == st
    {
      hide Woven, ArcModel.Lists.Proper, ArcModel.Lists.All, ArcModel.Lists.Where, Distinct, Sum, Books.Sizes;
      Puttable(o, w);
      Rotate(w);
      assert Points(o) && Recorded(o);
      assert Holds(Mru) && Holds(Mfu) && Holds(Mrug) && Holds(Mfug);
      st.Add(o, Others(w).0, Others(w).1, Others(w).2);
      Rotate(w);
      forall v | v != w ensures Holds(v) {
        assert old(Holds(v));
      }
      forall x | x in books.objs ensures x.link.entry == x && x.state == StateAt(Pushed(lists, o, w).Where(x)) {
        assert old(Points(x));
      }
      forall x | x in books.objs ensures Recorded(x) {
        assert old(Recorded(x));
      }
      Relist(w, Pushed(lists, o, w));
    }

    /** `arc_list_move_to_head` of an object that is not at the head already. */
    method ToHead(o: ArcObject, ghost w: Which)
      requires Wired() && o in books.objs && lists.Where(o) == Some(w)
      modifies this`lists, State(w)`objs, State(w)`ring, State(w).ring`next, State(w).ring`prev
      ensures Wired()
      ensures lists == old(lists).Put(w, [o] + Without(old(lists).Get(w), o))
    {
      hide Woven, ArcModel.Lists.Proper, ArcModel.Lists.All, ArcModel.Lists.Where, Distinct, Sum, Books.Sizes, Without;
      Headable(o, w);
      Rotate(w);
      assert Points(o) && Holds(w);
      o.state.Raise(o, Others(w).0, Others(w).1, Others(w).2);
      Rotate(w);
      forall v | v != w ensures Holds(v) {
        assert old(Holds(v));
      }
      forall x | x in books.objs
        ensures x.link.entry == x && x.state == StateAt(lists.Put(w, [o] + Without(lists.Get(w), o)).Where(x))
      {
        assert old(Points(x));
      }
      forall x | x in books.objs ensures Recorded(x) {
        assert old(Recorded(x));
      }
      Relist(w, lists.Put(w, [o] + Without(lists.Get(w), o)));
    }

    lemma Headable(o: ArcObject, w: Which)
      requires lists.Proper() && lists.Where(o) == Some(w) && o in books.objs && lists.All() <= books.objs.Keys
      ensures var l := [o] + Without(lists.Get(w), o);
              && o in lists.Get(w)
              && Sum(books.Sizes(), l) == Sum(books.Sizes(), lists.Get(w)) && |l| == |lists.Get(w)|
              && (forall x :: lists.Put(w, l).Where(x) == lists.Where(x))
              && lists.Put(w, l).Proper() && lists.Put(w, l).All() <= books.objs.Keys
    {
      WhereIs(lists, o);
      var l := [o] + Without(lists.Get(w), o);
      SumWithout(books.Sizes(), lists.Get(w), o);
      assert l[1..] == Without(lists.Get(w), o);
      WithoutMembers(lists.Get(w), o);
      MovedProper(lists, o, w, w);
      assert Moved(lists, o, w, w) == lists.Put(w, l);
      forall x ensures lists.Put(w, l).Where(x) == lists.Where(x) {
        HeadWhere(lists, o, w, x);
      }
    }

    lemma HeadWhere(ls: Lists, o: ArcObject, w: Which, x: ArcObject)
      requires ls.Proper() && o in ls.Get(w)
      ensures ls.Put(w, [o] + Without(ls.Get(w), o)).Where(x) == ls.Where(x)
    {
      WithoutMembers(ls.Get(w), o);
      forall v ensures x in ls.Put(w, [o] + Without(ls.Get(w), o)).Get(v) <==> x in ls.Get(v) {}
      WhereSame(ls, ls.Put(w, [o] + Without(ls.Get(w), o)), x);
    }

    /** The books follow a change to `o` that does not concern its size. */
    ghost method Rebook(o: ArcObject, b: Books)
      requires Shelved() && o in books.objs
      requires b.objs.Keys == books.objs.Keys && b.Sizes() == books.Sizes() && hash == b.hash
      requires forall x :: x in books.objs && x != o ==> b.objs[x] == books.objs[x] && Recorded(x)
      requires b.objs[o] == Info(o.size, o.refs, o.handles, o.evicts, o.locked, b.objs[o].fetching)
      modifies this`books
      ensures Wired() && books == b
    {
      hide Woven, ArcModel.Lists.Proper, ArcModel.Lists.All, ArcModel.Lists.Where, Sum, Books.Sizes;
      books := b;
      forall v ensures Holds(v) { assert old(Holds(v)); }
      forall x | x in books.objs ensures Points(x) { assert old(Points(x)); }
      forall x | x in books.objs ensures Recorded(x) { assert x != o ==> old(Recorded(x)); }
      assert Woven(mru, mfu, mrug, mfug);
    }

    /** `release_ref`, and the callback it makes when no reference is left. The callback
        resets the list of the object, which is none by then. `b` are the books after it. */
    method ReleaseRef(o: ArcObject, ghost b: Books)
      requires Shelved() && o in books.objs && o.refs > 0 && (o.refs == 1 ==> o.state == null)
      requires b.objs.Keys == books.objs.Keys && b.Sizes() == books.Sizes() && hash == b.hash
      requires forall x :: x in books.objs && x != o ==> b.objs[x] == books.objs[x] && Recorded(x)
      requires b.objs[o] == Info(o.size, o.refs, o.handles, o.evicts, o.locked, b.objs[o].fetching).Unref()
      modifies this`books, o`refs, o`evicts
      ensures Wired() && books == b
    {
      hide Shelved, Books.Sizes;
      o.refs := o.refs - 1;
      if o.refs == 0 {
        o.evicts := o.evicts + 1;
        assert o.state == null;
      }
      assert forall x :: x in books.objs && x != o ==> old(Recorded(x));
      Rebook(o, b);
    }

    /** `ht_delete_if_equals`, and the release of the reference of the hash. */
    method Unhash(o: ArcObject)
      requires Wired() && o in books.objs
      requires books.Hashed(o) ==> books.objs[o].refs > 0
      requires books.objs[o].refs == 1 ==> o.state == null
      modifies this`hash, this`books, o`refs, o`evicts
      ensures Wired() && books == old(books).Unhash(o)
    {
      hide Shelved, Books.Sizes;
      assert Recorded(o);
      if o.key in hash && hash[o.key] == o {
        hash := hash - {o.key};
        assert forall x :: x in books.objs && x != o ==> old(Recorded(x));
        ReleaseRef(o, books.Unhash(o));
      }
    }

    ghost function Target(to: ArcState?): Option<Which>
    {
      if to == mru then Some(Mru)
      else if to == mfu then Some(Mfu)
      else if to == mrug then Some(Mrug)
      else if to == mfug then Some(Mfug)
      else None
    }

    /** The new target of the mru list after a hit on the ghost list `from`. */
    method Adapt(from: ArcState, ghost w: Which)
      requires Wired() && from == State(w)
      modifies this`p
      ensures Wired() && p == ArcModel.Adapt(old(Model()), w)
    {
      hide Woven, ArcModel.Lists.Proper, ArcModel.Lists.All, ArcModel.Lists.Where, Sum, Books.Sizes;
      assert Holds(Mrug) && Holds(Mfug);
      Rotate(w);
      if from == mrug {
        var step := Ratio(mfug.size, mrug.size);
        p := Min(c, p + Max(step, 1));
      } else if from == mfug {
        var step := Max(Ratio(mrug.size, mfug.size), 1);
        if p > step {
          p := p - step;
        } else {
          p := 0;
        }
      }
    }

    /** The calls of `arc_move` the cache makes: to drop an object, to promote it to mfu, to
        move one that is on a list, and to start the fetch of a new one. */
    ghost predicate Movable(o: ArcObject, to: ArcState?)
      reads this, o`state
    {
      && o in books.objs
      && (to == null || to in States())
      && (to == null || to == mfu || o.state != null || (to == mru && books.Hashed(o) && books.objs[o].handles > 0))
    }

    lemma RingInLinks(w: Which)
      requires Shelved()
      ensures forall l :: l in State(w).ring ==> l in Links()
      ensures forall o :: o in books.objs ==> o.link in Links()
    {
      hide Sum, Books.Sizes, Separate, Distinct, Chained;
      assert State(w).Linked() && Holds(w);
      forall l | l in State(w).ring ensures l in Links() {
        var j :| 0 <= j < |State(w).ring| && State(w).ring[j] == l;
        if 0 < j < |State(w).ring| - 1 {
          var o := State(w).objs[j - 1];
          WhereIs(lists, o);
          assert o.link == l;
        }
      }
    }

    lemma Placement(o: ArcObject, w: Which)
      requires Shelved() && o in books.objs && lists.Where(o) == Some(w)
      ensures o.state == State(w) && Taken(lists, o, w).Where(o) == None
      ensures forall v :: v != w ==> State(v) != State(w)
    {
      hide Woven, Sum, Books.Sizes;
      assert Points(o);
      WhereIs(lists, o);
      WhereTaken(lists, o, w, o);
      Rotate(w);
    }

    /** A listed object leaves its list, which moves the target. */
    method Leave(o: ArcObject, ghost w: Which)
      requires Wired() && o in books.objs && lists.Where(o) == Some(w) && o.state == State(w)
      modifies this`lists, this`p, o`state, State(w), State(w).ring`next, State(w).ring`prev
      ensures Wired() && o.state == null
      ensures lists == Taken(old(lists), o, w) && p == ArcModel.Adapt(old(Model()), w)
    {
      hide Shelved, ArcModel.Lists.Proper, ArcModel.Lists.All, ArcModel.Lists.Where, Distinct, Sum, Books.Sizes;
      hide Without, Links;
      assert Recorded(o);
      Adapt(o.state, w);
      Take(o, w);
    }

    /** A ghost is not asynchronous. */
    method Calm(o: ArcObject, to: ArcState)
      requires Wired() && o in books.objs
      modifies o`async
      ensures Wired() && o.async == (old(o.async) && to != mrug && to != mfug)
    {
      hide Shelved;
      if to == mrug || to == mfug {
        o.async := false;
      }
    }

    /** A listed object goes off its list and to the head of another. */
    method Transfer(o: ArcObject, to: ArcState, ghost w: Which, ghost t: Which)
      requires Wired() && o in books.objs && lists.Where(o) == Some(w) && to == State(t) && t != w
      modifies this`lists, this`p, o`state, o`async, States(), Links()`next, Links()`prev
      ensures Wired()
      ensures lists == Moved(old(lists), o, w, t) && p == ArcModel.Adapt(old(Model()), w)
      ensures o.async == (old(o.async) && to != mrug && to != mfug)
    {
      hide Shelved, ArcModel.Lists.Proper, ArcModel.Lists.All, ArcModel.Lists.Where, Distinct, Sum, Books.Sizes;
      hide Without, Links;
      Placement(o, w);
      RingInLinks(w);
      RingInLinks(t);
      Leave(o, w);
      Calm(o, to);
      assert to.ring == old(to.ring);
      Put(o, to, t);
    }

    /** What `arc_move` finds: the object points at its list and is recorded in the books. */
    lemma MoveFacts(o: ArcObject, to: ArcState?)
      requires Valid() && Movable(o, to)
      ensures o.state == StateAt(lists.Where(o)) && (o.state == null <==> lists.Where(o).None?)
      ensures o.locked == books.objs[o].locked
      ensures to == StateAt(Target(to)) && (o.state == to <==> lists.Where(o) == Target(to))
      ensures (to == mfu <==> Target(to) == Some(Mfu)) && (to == mru <==> Target(to) == Some(Mru))
    {
      hide Sum, Books.Sizes, Holds, ArcState.Linked, ArcModel.Lists.Where, Core;
      assert Points(o) && Recorded(o);
    }

    lemma MoveInv(o: ArcObject, to: ArcState?)
      requires Valid() && Movable(o, to)
      requires o.state == null <==> lists.Where(o).None?
      requires (to == mfu <==> Target(to) == Some(Mfu)) && (to == mru <==> Target(to) == Some(Mru))
      requires to == StateAt(Target(to)) && o.locked == books.objs[o].locked
      ensures books.Hashed(o) ==> books.objs[o].refs > 0
      ensures Core(ArcModel.Move(Model(), o, Target(to))) && Keeps(Model(), ArcModel.Move(Model(), o, Target(to)))
    {
      hide Wired;
      Runs.Counts(books, o);
      var s, t := Model(), Target(to);
      WhereIs(lists, o);
      if t.None? {
        Runs.DropKeeps(s, o);
      } else if o.state != null {
        Runs.ShiftKeeps(s, o, t.value);
      } else if to == mfu {
        Runs.TouchKeeps(s, o);
      } else if !o.locked {
        Runs.BeginKeeps(s, o);
        assert ArcModel.Move(s, o, t) == s.(books := Begin(s.books, o));
      }
    }

    /** Locks an object whose fetch starts. */
    method Lock(o: ArcObject)
      requires Wired() && o in books.objs
      modifies this`books, o`locked
      ensures Wired() && books == Begin(old(books), o)
    {
      hide Shelved, Books.Sizes;
      assert Recorded(o);
      assert forall x :: x in books.objs && x != o ==> Recorded(x);
      o.locked := true;
      assert forall x :: x in books.objs && x != o ==> old(Recorded(x));
      SameSizes(o, books.objs[o].(locked := true, fetching := true));
      Rebook(o, Begin(books, o));
    }

    lemma SameSizes(o: ArcObject, i: Info)
      requires o in books.objs && i.size == books.objs[o].size
      ensures books.Set(o, i).Sizes() == books.Sizes()
    {
    }

    /** `arc_move`: `fetch` tells that the caller must fetch the object and then call
        `Finish`. */
    method Move(o: ArcObject, to: ArcState?) returns (fetch: bool)
      requires Valid() && Movable(o, to)
      modifies this, o, States(), Links()`next, Links()`prev
      ensures Valid() && Keeps(old(Model()), Model())
      ensures old(books.Hashed(o) ==> books.objs[o].refs > 0)
      ensures Model() == ArcModel.Move(old(Model()), o, Target(to))
      ensures fetch <==> old(!o.locked && o.state == null) && to == mru
    {
      hide Shelved, Core, Keeps, ArcModel.Lists.Where, Without, Books.Sizes, Links, ArcModel.Adapt, Sum;
      MoveFacts(o, to);
      MoveInv(o, to);
      ghost var s, w, t := Model(), lists.Where(o), Target(to);
      fetch := false;
      if o.locked || (to == mfu && o.state == null) {
        return;
      }
      var from := o.state;
      if from != null && from == to {
        RingInLinks(w.value);
        ToHead(o, w.value);
        assert Model() == ArcModel.Move(s, o, t);
      } else if to == null {
        Discharge(o, w);
        assert Model() == ArcModel.Move(s, o, t);
      } else if from != null {
        Transfer(o, to, w.value, t.value);
        assert Model() == ArcModel.Move(s, o, t);
      } else {
        Lock(o);
        fetch := true;
        assert Model() == ArcModel.Move(s, o, t);
      }
    }

    /** Off its list, if any, and out of the hash. */
    method Discharge(o: ArcObject, ghost w: Option<Which>)
      requires Wired() && o in books.objs && lists.Where(o) == w && o.state == StateAt(w)
      requires books.Hashed(o) ==> books.objs[o].refs > 0
      modifies this`lists, this`hash, this`books, o`state, o`refs, o`evicts, States(), Links()`next, Links()`prev
      ensures Wired()
      ensures books == old(books).Unhash(o)
      ensures lists == if w.Some? then Taken(old(lists), o, w.value) else old(lists)
    {
      hide Shelved, ArcModel.Lists.Where, Without, Books.Sizes, Links, Sum;
      if o.state != null {
        RingInLinks(w.value);
        Take(o, w.value);
      }
      Unhash(o);
    }

    /** The counters are the bytes of the lists. */
    lemma Sizes()
      requires Valid()
      ensures Core(Model())
      ensures mru.size == Model().Bytes(Mru) && mfu.size == Model().Bytes(Mfu)
      ensures mrug.size == Model().Bytes(Mrug) && mfug.size == Model().Bytes(Mfug)
    {
      hide Woven, Sum, Books.Sizes;
      assert Holds(Mru) && Holds(Mfu) && Holds(Mrug) && Holds(Mfug);
    }

    /** The object at the tail of `st`, which is not empty. */
    method Tail(st: ArcState, ghost w: Which) returns (o: ArcObject)
      requires Valid() && st == State(w) && lists.Get(w) != []
      ensures o == Last(lists.Get(w)) && o in books.objs && o.state == st
      ensures Target(mrug) == Some(Mrug) && Target(mfug) == Some(Mfug) && Target(null) == None
    {
      hide Sum, Books.Sizes;
      assert Holds(w) && st.Linked();
      o := st.Lru();
      LastOf(Model(), w);
      assert Points(o);
    }

    /** The tail of mru or mfu goes to the head of its ghost list. */
    method DemoteTail(st: ArcState, to: ArcState, ghost w: Which)
      requires Valid() && (w == Mru || w == Mfu) && st == State(w) && to == State(Ghost(w)) && lists.Get(w) != []
      modifies this, Objects(), States(), Links()`next, Links()`prev
      ensures Valid() && Core(old(Model())) && Model() == Demote(old(Model()), w)
    {
      hide Wired, Core;
      Sizes();
      var o := Tail(st, w);
      var fetch := Move(o, to);
    }

    /** The tail of a ghost list is forgotten. */
    method ForgetTail(st: ArcState, ghost w: Which)
      requires Valid() && (w == Mrug || w == Mfug) && st == State(w) && lists.Get(w) != []
      modifies this, Objects(), States(), Links()`next, Links()`prev
      ensures Valid() && Core(old(Model())) && Model() == Forget(old(Model()), w)
    {
      hide Wired, Core;
      Sizes();
      var o := Tail(st, w);
      var fetch := Move(o, null);
    }

    /** `c - p` on a `size_t`. */
    method Room() returns (n: nat)
      ensures n == Share(Model())
    {
      n := if p <= c then c - p else (c - p) % TWO_64;
    }

    /** One turn of the first loop; `more` tells that it has moved an object. */
    method SpillTurn() returns (more: bool)
      requires Valid() && mru.size + mfu.size > c
      modifies this, Objects(), States(), Links()`next, Links()`prev
      ensures Valid() && Objects() == old(Objects()) && Core(old(Model()))
      ensures more == old(Overfull(Model())).Some?
      ensures Model() == if more then Demote(old(Model()), old(Overfull(Model())).value) else old(Model())
    {
      hide Wired, Core, Share, Cache.Bytes;
      Sizes();
      var room := Room();
      more := true;
      if mru.size > p {
        assert Overfull(Model()) == Some(Mru);
        DemoteTail(mru, mrug, Mru);
      } else if mfu.size > room {
        assert Overfull(Model()) == Some(Mfu);
        DemoteTail(mfu, mfug, Mfu);
      } else {
        more := false;
      }
    }

    /** The first loop of `arc_balance`. */
    method SpillOver()
      requires Valid()
      modifies this, Objects(), States(), Links()`next, Links()`prev
      ensures Valid() && Objects() == old(Objects())
      ensures Core(old(Model())) && Model() == Spill(old(Model()))
    {
      hide Wired, Core, Overfull, Cache.Bytes, Spill;
      Sizes();
      while mru.size + mfu.size > c
        invariant Valid() && Core(Model()) && Objects() == old(Objects())
        invariant Spill(Model()) == Spill(old(Model()))
        decreases |lists.mru| + |lists.mfu|
      {
        SpillOnce(Model());
        var more := SpillTurn();
        Sizes();
        if !more {
          break;
        }
      }
      Sizes();
      SpillOnce(Model());
    }

    /** One turn of the second loop; `more` tells that it has forgotten an object. */
    method TrimTurn() returns (more: bool)
      requires Valid() && mrug.size + mfug.size > c
      modifies this, Objects(), States(), Links()`next, Links()`prev
      ensures Valid() && Objects() == old(Objects()) && Core(old(Model()))
      ensures more == old(OverfullGhost(Model())).Some?
      ensures Model() == if more then Forget(old(Model()), old(OverfullGhost(Model())).value) else old(Model())
    {
      hide Wired, Core, Share, Cache.Bytes;
      Sizes();
      var room := Room();
      more := true;
      if mfug.size > p {
        assert OverfullGhost(Model()) == Some(Mfug);
        ForgetTail(mfug, Mfug);
      } else if mrug.size > room {
        assert OverfullGhost(Model()) == Some(Mrug);
        ForgetTail(mrug, Mrug);
      } else {
        more := false;
      }
    }

    /** The second loop of `arc_balance`. */
    method TrimGhosts()
      requires Valid()
      modifies this, Objects(), States(), Links()`next, Links()`prev
      ensures Valid() && Objects() == old(Objects())
      ensures Core(old(Model())) && Model() == Trim(old(Model()))
    {
      hide Wired, Core, OverfullGhost, Cache.Bytes, Trim;
      Sizes();
      while mrug.size + mfug.size > c
        invariant Valid() && Core(Model()) && Objects() == old(Objects())
        invariant Trim(Model()) == Trim(old(Model()))
        decreases |lists.mrug| + |lists.mfug|
      {
        TrimOnce(Model());
        var more := TrimTurn();
        Sizes();
        if !more {
          break;
        }
      }
      Sizes();
      TrimOnce(Model());
    }

    /** `arc_balance`. */
    method Balance()
      requires Valid()
      modifies this, Objects(), States(), Links()`next, Links()`prev
      ensures Valid() && Objects() == old(Objects())
      ensures Core(old(Model())) && Model() == ArcBalance.Balance(old(Model()))
      ensures needsBalance == 0 && (Bounded(old(Model())) ==> p <= c && Total(Model()) <= 2 * c)
    {
      hide Wired, Core, Bounded, Spill, Trim, Cache.Bytes;
      Sizes();
      Balances();
      if needsBalance == 0 {
        return;
      }
      SpillOver();
      TrimGhosts();
      Flag(0);
    }

    method Flag(n: nat)
      requires Wired()
      modifies this`needsBalance
      ensures Wired() && needsBalance == n
    {
      hide Shelved;
      needsBalance := n;
    }

    lemma Balances()
      requires Valid()
      ensures Core(Model()) && Core(ArcBalance.Balance(Model())) && ArcBalance.Balance(Model()).needsBalance == 0
      ensures Bounded(Model()) ==>
                var s := ArcBalance.Balance(Model()); s.p <= s.c && Total(s) <= 2 * s.c
    {
      hide Wired;
      Runs.BalanceKeeps(Model());
    }

    /** The books follow a change to an object that is on no list. */
    ghost method RebookUnlisted(o: ArcObject, b: Books)
      requires Shelved() && lists.Where(o) == None
      requires b.objs.Keys == books.objs.Keys + {o} && hash == b.hash && o.link.entry == o && o.state == null
      requires forall x :: x in books.objs && x != o ==> b.objs[x] == books.objs[x] && Recorded(x)
      requires b.objs[o] == Info(o.size, o.refs, o.handles, o.evicts, o.locked, b.objs[o].fetching)
      modifies this`books
      ensures Wired() && books == b
    {
      hide Woven, ArcModel.Lists.Proper, Sum;
      forall w ensures Sum(b.Sizes(), lists.Get(w)) == Sum(books.Sizes(), lists.Get(w)) {
        UnlistedSum(o, b, w);
      }
      books := b;
      forall v ensures Holds(v) { assert old(Holds(v)); }
      forall x | x in books.objs ensures Points(x) { assert x in old(books.objs) ==> old(Points(x)); }
      forall x | x in books.objs ensures Recorded(x) { assert x != o ==> old(Recorded(x)); }
      assert Woven(mru, mfu, mrug, mfug);
    }

    lemma UnlistedSum(o: ArcObject, b: Books, w: Which)
      requires lists.Where(o) == None && lists.All() <= books.objs.Keys
      requires forall x :: x in books.objs && x != o ==> x in b.objs && b.objs[x] == books.objs[x]
      ensures Sum(b.Sizes(), lists.Get(w)) == Sum(books.Sizes(), lists.Get(w))
    {
      WhereIs(lists, o);
      forall x | x in lists.Get(w) ensures x in books.objs && x != o { WhereIs(lists, x); }
      SumFrame(b.Sizes(), books.Sizes(), lists.Get(w));
    }

    /** The fetch of `o` is over. */
    ghost method Settle(o: ArcObject)
      requires Wired() && o in books.objs && lists.Where(o) == None && o.state == null
      modifies this`books
      ensures Wired() && books == old(books).Set(o, old(books).objs[o].(fetching := false))
    {
      hide Shelved, Books.Sizes, ArcModel.Lists.Where;
      assert Recorded(o);
      Pointed(o);
      RebookUnlisted(o, books.Set(o, books.objs[o].(fetching := false)));
    }

    lemma Pointed(o: ArcObject)
      requires Shelved() && o in books.objs
      ensures o.link.entry == o && o.state == StateAt(lists.Where(o))
    {
      hide Woven, Holds, ArcModel.Lists.Proper, ArcModel.Lists.All, ArcModel.Lists.Where;
      assert Points(o);
    }

    /** A fetched object gets its size, is unlocked and enters mru. */
    method Keep(o: ArcObject, n: nat)
      requires Wired() && o in books.objs && lists.Where(o) == None && o.state == null
      modifies this`lists, this`books, this`needsBalance, o, mru, Links()`next, Links()`prev
      ensures Wired() && needsBalance == old(needsBalance) + 1
      ensures books == old(books).Set(o, old(books).objs[o].(size := n, locked := false))
      ensures lists == Pushed(old(lists), o, Mru)
    {
      hide Shelved, Books.Sizes, ArcModel.Lists.Where, Links;
      assert Recorded(o);
      Pointed(o);
      RingInLinks(Mru);
      o.size := n;
      o.locked := false;
      assert forall x :: x in books.objs && x != o ==> old(Recorded(x));
      RebookUnlisted(o, books.Set(o, books.objs[o].(size := n, locked := false)));
      Put(o, mru, Mru);
      Flag(needsBalance + 1);
    }

    /** The end of a fetch, which `arc_move` had started. */
    method Finish(o: ArcObject, rc: Fetched)
      requires Valid() && o in books.objs && books.objs[o].fetching
      modifies this, o, States(), Links()`next, Links()`prev
      ensures Valid() && Objects() == old(Objects()) && Keeps(old(Model()), Model())
      ensures old(books.Hashed(o) ==> books.objs[o].refs > 0)
      ensures Model() == ArcModel.Finish(old(Model()), o, rc)
    {
      hide Wired, Core, Keeps, Sum, Books.Sizes, ArcModel.Lists.Where;
      FinishFacts(o, rc);
      Settle(o);
      if !rc.Keep? || rc.size >= c {
        Unhash(o);
      } else {
        Keep(o, BaseSize(o.key) + cos + rc.size);
      }
      assert Model() == ArcModel.Finish(old(Model()), o, rc);
    }

    lemma FinishFacts(o: ArcObject, rc: Fetched)
      requires Valid() && o in books.objs && books.objs[o].fetching
      ensures books.Hashed(o) && books.objs[o].refs > 0 && lists.Where(o) == None
      ensures o.state == null
      ensures Core(ArcModel.Finish(Model(), o, rc)) && Keeps(Model(), ArcModel.Finish(Model(), o, rc))
    {
      hide Woven, Holds, Sum, Books.Sizes;
      Runs.FinishKeeps(Model(), o, rc);
      Runs.FetchEnds(Model(), o);
      WhereIs(lists, o);
      assert Points(o);
    }

    lemma ResizedSum(o: ArcObject, w: Which, n: nat, v: Which)
      requires lists.Proper() && lists.All() <= books.objs.Keys && o in books.objs && lists.Where(o) == Some(w)
      ensures var size := books.Sizes();
              if v == w then Sum(size, lists.Get(v)) >= books.objs[o].size
                             && Sum(size[o := n], lists.Get(v)) == Sum(size, lists.Get(v)) - books.objs[o].size + n
              else Sum(size[o := n], lists.Get(v)) == Sum(size, lists.Get(v))
    {
      WhereIs(lists, o);
      var l, size := lists.Get(v), books.Sizes();
      forall x | x in l ensures x in size { WhereIs(lists, x); }
      if v == w {
        SumUpdate(size, l, o, n);
      } else {
        SumFrame(size[o := n], size, l);
      }
    }

    /** The books follow a new size of an object on the list `w`, whose counter has it. */
    ghost method RebookSize(o: ArcObject, w: Which)
      requires Woven(mru, mfu, mrug, mfug) && lists.Proper() && lists.All() <= books.objs.Keys && hash == books.hash
      requires o in books.objs && lists.Where(o) == Some(w)
      requires forall v :: v != w ==> Holds(v)
      requires State(w).objs == lists.Get(w) && State(w).count == |lists.Get(w)|
      requires State(w).size == Sum(books.Sizes(), lists.Get(w)) - books.objs[o].size + o.size
      requires forall x :: x in books.objs ==> Points(x) && (x != o ==> Recorded(x))
      requires books.objs[o].(size := o.size) ==
               Info(o.size, o.refs, o.handles, o.evicts, o.locked, books.objs[o].fetching)
      modifies this`books
      ensures Wired() && books == old(books).Set(o, old(books).objs[o].(size := o.size))
    {
      hide Woven, ArcModel.Lists.Proper, ArcModel.Lists.All, ArcModel.Lists.Where, Sum, Books.Sizes;
      forall v { ResizedSum(o, w, o.size, v); }
      books := books.Set(o, books.objs[o].(size := o.size));
      forall v ensures Holds(v) { assert v != w ==> old(Holds(v)); }
      forall x | x in books.objs ensures Points(x) { assert old(Points(x)); }
      forall x | x in books.objs ensures Recorded(x) { assert x != o ==> old(Recorded(x)); }
      assert Woven(mru, mfu, mrug, mfug);
    }

    method SetSize(o: ArcObject, n: nat, ghost w: Which)
      requires Wired() && o in books.objs && lists.Where(o) == Some(w)
      modifies this`books, o`size, State(w)`size
      ensures Wired() && books == old(books).Set(o, old(books).objs[o].(size := n))
    {
      hide Woven, ArcModel.Lists.Proper, ArcModel.Lists.All, ArcModel.Lists.Where, Sum, Books.Sizes;
      ResizedSum(o, w, n, w);
      Rotate(w);
      assert Points(o) && Recorded(o) && Holds(w);
      o.state.Resize(o, n);
      forall v | v != w ensures Holds(v) { assert old(Holds(v)); }
      forall x | x in books.objs ensures Points(x) && (x != o ==> Recorded(x)) { assert old(Points(x) && Recorded(x)); }
      RebookSize(o, w);
    }

    /** `arc_update_resource_size`. */
    method UpdateSize(o: ArcObject, n: nat)
      requires Valid() && o in books.objs
      modifies this, o, States()
      ensures Valid() && Objects() == old(Objects()) && Keeps(old(Model()), Model())
      ensures Model() == ArcModel.Resize(old(Model()), o, n)
    {
      hide Shelved, Core, Keeps, Sum, Books.Sizes, ArcModel.Lists.Where;
      SizeFacts(o, n);
      if o.state == mru || o.state == mfu {
        SetSize(o, BaseSize(o.key) + cos + n, lists.Where(o).value);
      }
      Flag(needsBalance + 1);
      assert Model() == ArcModel.Resize(old(Model()), o, n);
    }

    lemma SizeFacts(o: ArcObject, n: nat)
      requires Valid() && o in books.objs
      ensures o.state == mru <==> lists.Where(o) == Some(Mru)
      ensures o.state == mfu <==> lists.Where(o) == Some(Mfu)
      ensures Core(ArcModel.Resize(Model(), o, n)) && Keeps(Model(), ArcModel.Resize(Model(), o, n))
    {
      hide Holds, Sum, Books.Sizes, ArcModel.Lists.Where, ArcState.Linked;
      Runs.ResizeKeeps(Model(), o, n);
      assert Points(o);
    }

    lemma Unknown(o: ArcObject)
      requires Wired() && o !in books.objs
      ensures lists.Where(o) == None
    {
      hide Woven, Holds;
      WhereIs(lists, o);
    }

    method NewObject(key: Key) returns (o: ArcObject)
      requires Wired()
      ensures Wired() && fresh(o) && fresh(o.link) && o.key == key && Brand(o)
    {
      hide Woven, ArcModel.Lists.Proper, ArcModel.Lists.All, ArcModel.Lists.Where, Sum, Books.Sizes;
      o := new ArcObject(key, BaseSize(key) + cos);
      forall v ensures Holds(v) { assert old(Holds(v)); }
      forall x | x in books.objs ensures Points(x) && Recorded(x) { assert old(Points(x) && Recorded(x)); }
      assert old(Woven(mru, mfu, mrug, mfug));
      assert Woven(mru, mfu, mrug, mfug);
    }

    /** A new object enters the hash, which takes a reference of its own. */
    method Admit(o: ArcObject)
      requires Wired() && Brand(o)
      modifies this`hash, this`books, o`refs
      ensures Wired()
      ensures books == Hashing(old(books), o)
    {
      hide Shelved, Books.Sizes, ArcModel.Lists.Where;
      Unknown(o);
      o.refs := o.refs + 1;
      hash := hash[o.key := o];
      assert forall x :: x in books.objs ==> old(Recorded(x));
      RebookUnlisted(o, Books(hash, books.objs[o := Info(o.size, o.refs, o.handles, o.evicts, o.locked, false)]));
    }

    /** A new object whose key is taken loses both references. */
    method Reject(o: ArcObject)
      requires Wired() && Brand(o)
      modifies this`books, o`refs, o`handles, o`evicts
      ensures Wired()
      ensures books == old(books).Set(o, Info(BaseSize(o.key) + cos, 0, 0, 1, false, false))
    {
      hide Shelved, Books.Sizes, ArcModel.Lists.Where;
      Unknown(o);
      o.refs := o.refs + 1;
      o.refs := o.refs - 1;
      o.refs := o.refs - 1;
      o.handles := 0;
      o.evicts := o.evicts + 1;
      assert forall x :: x in books.objs ==> old(Recorded(x));
      RebookUnlisted(o, Books(hash, books.objs[o := Info(o.size, o.refs, o.handles, o.evicts, o.locked, false)]));
    }

    lemma InsertKeeps(s: Cache, o: ArcObject)
      requires Core(s) && o !in s.books.objs && s.cos == cos
      ensures o.key in s.books.hash ==> Core(Discard(s, o)) && Keeps(s, Discard(s, o))
      ensures o.key !in s.books.hash ==> Core(Create(s, o)) && Keeps(s, Create(s, o))
      ensures o.key !in s.books.hash ==> Core(ArcModel.Load(s, o)) && Keeps(s, ArcModel.Load(s, o))
      ensures o.key !in s.books.hash ==> Core(s.(books := Hashing(s.books, o)))
    {
      hide Core, Keeps, Create, Discard, ArcModel.Load;
      if o.key in s.books.hash {
        Runs.DiscardKeeps(s, o);
      } else {
        Runs.CreateKeeps(s, o);
        Runs.LoadKeeps(s, o);
        var i := Info(BaseSize(o.key) + s.cos, 2, 1, 0, false, false);
        assert Hashing(s.books, o) == Books(s.books.hash[o.key := o], s.books.objs[o := i]);
        Runs.EnterKeeps(s, o, i);
      }
    }

    lemma HashBooks()
      requires Wired()
      ensures hash == books.hash
    {
    }

    ghost predicate Brand(o: ArcObject)
      reads this`books, o, o.link`entry
    {
      && o !in books.objs && o.link.entry == o && o.state == null
      && o.size == BaseSize(o.key) + cos && o.refs == 1 && o.handles == 1 && o.evicts == 0 && !o.locked
    }

    /** A new object enters the hash and its fetch starts. */
    method Enroll(o: ArcObject)
      requires Valid() && Brand(o) && o.key !in hash
      modifies this, o, States(), Links()`next, Links()`prev, o.link`next, o.link`prev
      ensures Valid() && Objects() == old(Objects()) + {o} && Keeps(old(Model()), Model())
      ensures Model() == Create(old(Model()), o)
    {
      hide Wired, Core, Keeps, ArcModel.Lists.Where, Begin, Create, Hashing;
      ghost var s := Model();
      HashBooks();
      Unknown(o);
      InsertKeeps(s, o);
      ghost var b := Hashing(books, o);
      CreateBooks(s, o);
      Admit(o);
      assert Model() == s.(books := b);
      StartFetch(o);
    }

    /** The books with a new object in the hash, not yet locked. */
    ghost function Hashing(b: Books, o: ArcObject): Books
    {
      Books(b.hash[o.key := o], b.objs[o := Info(BaseSize(o.key) + cos, 2, 1, 0, false, false)])
    }

    lemma CreateBooks(s: Cache, o: ArcObject)
      requires s.cos == cos
      ensures var b := Hashing(s.books, o);
              && o in b.objs && b.Hashed(o) && b.objs[o].handles == 1 && !b.objs[o].locked
              && b.objs.Keys == s.books.objs.Keys + {o} && Begin(b, o).objs.Keys == b.objs.Keys
              && Create(s, o) == s.(books := Begin(b, o))
    {
    }

    method Refuse(o: ArcObject)
      requires Valid() && Brand(o) && o.key in hash
      modifies this, o
      ensures Valid() && Objects() == old(Objects()) + {o} && Keeps(old(Model()), Model())
      ensures Model() == Discard(old(Model()), o)
    {
      hide Wired, Core, Keeps;
      HashBooks();
      InsertKeeps(Model(), o);
      Reject(o);
      assert Model() == Discard(old(Model()), o);
    }

    /** A lookup that misses, up to the start of the fetch. `created` tells that the object
        has entered the hash; otherwise it is discarded and the lookup starts again. */
    method Miss(key: Key) returns (o: ArcObject, created: bool)
      requires Valid()
      modifies this, States(), Links()`next, Links()`prev
      ensures Valid() && fresh(o) && fresh(o.link) && o.key == key && o !in old(books.objs)
      ensures created <==> key !in old(hash)
      ensures Objects() == old(Objects()) + {o} && Keeps(old(Model()), Model())
      ensures Model() == if created then Create(old(Model()), o) else Discard(old(Model()), o)
    {
      hide Wired, Core, Keeps, Create, Discard;
      o := NewObject(key);
      created := key !in hash;
      if created {
        Enroll(o);
      } else {
        Refuse(o);
      }
    }

    /** `arc_move` of an object that has just entered the hash to mru. */
    method StartFetch(o: ArcObject)
      requires Valid() && o in books.objs && books.Hashed(o) && books.objs[o].handles > 0
      requires !books.objs[o].locked && lists.Where(o) == None
      modifies this, o, States(), Links()`next, Links()`prev
      ensures Valid()
      ensures Model() == old(Model()).(books := Begin(old(books), o))
    {
      hide Wired, Core;
      MruTarget();
      var fetch := Move(o, mru);
    }

    lemma MruTarget()
      ensures Target(mru) == Some(Mru)
    {
    }

    /** `retain_ref`. */
    method Retain(o: ArcObject)
      requires Valid() && o in books.objs && books.objs[o].refs > 0
      modifies this`books, o`refs, o`handles
      ensures Valid() && Objects() == old(Objects()) && Keeps(old(Model()), Model())
      ensures Model() == ArcModel.Retain(old(Model()), o)
    {
      hide Shelved, Core, Keeps, Books.Sizes;
      Runs.RetainKeeps(Model(), o);
      assert Recorded(o);
      ghost var b := books.Set(o, books.objs[o].Retained());
      SameSizes(o, books.objs[o].Retained());
      o.refs := o.refs + 1;
      o.handles := o.handles + 1;
      assert forall x :: x in books.objs ==> old(Recorded(x));
      Rebook(o, b);
      assert Model() == ArcModel.Retain(old(Model()), o);
    }

    /** `arc_release_resource`. */
    method Release(o: ArcObject)
      requires Valid() && Runs.Releasable(books, o)
      modifies this`books, o`refs, o`evicts, o`handles
      ensures Valid() && Objects() == old(Objects()) && Keeps(old(Model()), Model()) && old(books.objs[o].refs) > 0
      ensures Model() == ArcModel.Release(old(Model()), o)
    {
      hide Shelved, Core, Keeps, Books.Sizes;
      Runs.ReleaseKeeps(Model(), o);
      LastRef(o);
      assert Recorded(o);
      ghost var b := books.Set(o, books.objs[o].Released());
      SameSizes(o, books.objs[o].Released());
      o.handles := o.handles - 1;
      assert forall x :: x in books.objs ==> old(Recorded(x));
      ReleaseRef(o, b);
      assert Model() == ArcModel.Release(old(Model()), o);
    }

    /** An object whose last reference is a handle is on no list. */
    lemma LastRef(o: ArcObject)
      requires Valid() && Runs.Held(books, o)
      ensures o.refs == 1 ==> o.state == null
    {
      hide Woven, Holds, ArcModel.Lists.Proper;
      assert Points(o) && Recorded(o);
      assert Fine(books.objs[o], books.Hashed(o));
      WhereIs(lists, o);
    }

    /** The atomic hash lookup that retains what it finds. */
    method Acquire(key: Key) returns (o: ArcObject?)
      requires Valid()
      modifies this`books, Objects()
      ensures Valid() && Objects() == old(Objects()) && Keeps(old(Model()), Model())
      ensures Runs.Enabled(old(Model()), Runs.Acquire(key)) && Model() == Runs.Apply(old(Model()), Runs.Acquire(key))
      ensures o != null <==> key in old(hash)
      ensures o != null ==> o == old(hash)[key] && o.key == key && Runs.Held(books, o)
      ensures o != null ==> o.locked == old(hash[key].locked) && o.state == old(hash[key].state)
    {
      hide Wired, Core;
      HashBooks();
      if key in hash {
        o := hash[key];
        HashedAlive(key);
        Retain(o);
      } else {
        o := null;
      }
    }

    lemma HashedAlive(key: Key)
      requires Valid() && key in hash
      ensures hash[key] in books.objs && books.objs[hash[key]].refs > 0 && hash[key].key == key
    {
      hide Shelved;
      Runs.Counts(books, hash[key]);
    }

    /** `arc_drop_resource`. */
    method Drop(o: ArcObject)
      requires Valid() && Runs.Releasable(books, o)
      modifies this, o, States(), Links()`next, Links()`prev
      ensures Valid() && Objects() == old(Objects()) && Keeps(old(Model()), Model())
      ensures Runs.Possible(old(Model()), [Runs.Drop(o), Runs.Release(o)])
      ensures Model() == Runs.Exec(old(Model()), [Runs.Drop(o), Runs.Release(o)])
      ensures !old(o.locked) ==> Runs.Gone(old(Model()), Model(), o)
    {
      hide Wired, Core, Runs.Gone;
      ghost var s := Model();
      Dropping(o);
      if !o.locked { DroppingWhole(o); }
      var fetch := Move(o, null);
      Release(o);
    }

    lemma DroppingWhole(o: ArcObject)
      requires Valid() && Runs.Releasable(books, o) && !o.locked
      ensures books.Hashed(o) ==> books.objs[o].refs > 0
      ensures var t := ArcModel.Move(Model(), o, None);
              Runs.Releasable(t.books, o) && t.books.objs[o].refs > 0 && Runs.Gone(Model(), ArcModel.Release(t, o), o)
    {
      hide Shelved, Core, ArcModel.Move, Runs.Gone;
      assert Recorded(o);
      Runs.DropsWhole(Model(), o);
    }

    lemma Dropping(o: ArcObject)
      requires Valid() && Runs.Releasable(books, o)
      ensures books.Hashed(o) ==> books.objs[o].refs > 0
      ensures Target(null) == None
      ensures var t := ArcModel.Move(Model(), o, None);
              && Core(t) && t.books.objs.Keys == books.objs.Keys
              && Runs.Releasable(t.books, o) && t.books.objs[o].refs > 0
              && Runs.Possible(Model(), [Runs.Drop(o), Runs.Release(o)])
              && ArcModel.Release(t, o) == Runs.Exec(Model(), [Runs.Drop(o), Runs.Release(o)])
    {
      hide Wired;
      Runs.DropKeeps(Model(), o);
      var s := Model();
      var t := ArcModel.Move(s, o, None);
      assert Runs.Releasable(t.books, o);
      Runs.Counts(t.books, o);
      Runs.ExecMore(s, [], Runs.Drop(o));
      assert [] + [Runs.Drop(o)] == [Runs.Drop(o)];
      Runs.ExecMore(s, [Runs.Drop(o)], Runs.Release(o));
      assert [Runs.Drop(o)] + [Runs.Release(o)] == [Runs.Drop(o), Runs.Release(o)];
    }

    /** The cache is where the run `steps` from `s` leads. */
    ghost predicate Ran(s: Cache, steps: seq<Runs.Step>)
      reads this
    {
      Core(s) && Runs.Possible(s, steps) && Model() == Runs.Exec(s, steps)
    }

    lemma RanMore(s: Cache, steps: seq<Runs.Step>, t: Cache, step: Runs.Step)
      requires Core(s) && Runs.Possible(s, steps) && t == Runs.Exec(s, steps)
      requires Runs.Enabled(t, step) && Model() == Runs.Apply(t, step)
      ensures Ran(s, steps + [step])
    {
      hide Core, Runs.Enabled, Runs.Apply, Runs.Possible, Runs.Exec;
      Runs.ExecMore(s, steps, step);
    }

    /** The hit path of a lookup: the object goes to mfu and the lists are balanced. No fetch
        starts, so the move cannot fail. */
    method Hit(o: ArcObject)
      requires Valid() && Runs.Held(books, o)
      modifies this, Objects(), States(), Links()`next, Links()`prev
      ensures Valid() && Objects() == old(Objects()) && Runs.Held(books, o) && strict == old(strict)
      ensures Core(old(Model())) && Runs.Enabled(old(Model()), Runs.Touch(o))
      ensures Core(Runs.Apply(old(Model()), Runs.Touch(o)))
      ensures Model() == ArcBalance.Balance(Runs.Apply(old(Model()), Runs.Touch(o)))
      ensures needsBalance == 0 && (Bounded(old(Model())) ==> p <= c && Total(Model()) <= 2 * c)
    {
      hide Wired, Core, Bounded, ArcModel.Move, ArcBalance.Balance, Total;
      Touching(o);
      var fetch := Move(o, mfu);
      assert !fetch;
      Runs.BalanceHeld(Model(), o);
      Balance();
    }

    lemma Touching(o: ArcObject)
      requires Valid() && Runs.Held(books, o)
      ensures Target(mfu) == Some(Mfu) && mfu != mru
      ensures books.Hashed(o) ==> books.objs[o].refs > 0
      ensures Runs.Apply(Model(), Runs.Touch(o)) == ArcModel.Move(Model(), o, Some(Mfu))
      ensures Core(ArcModel.Move(Model(), o, Some(Mfu))) && ArcModel.Move(Model(), o, Some(Mfu)).books == books
      ensures ArcModel.Move(Model(), o, Some(Mfu)).strict == strict
    {
      hide ArcState.Linked;
      Runs.TouchKeeps(Model(), o);
    }

    lemma RanOn(s: Cache, a: seq<Runs.Step>, t: Cache, b: seq<Runs.Step>)
      requires Core(s) && Runs.Possible(s, a) && t == Runs.Exec(s, a) && Ran(t, b)
      ensures Ran(s, a + b)
    {
      hide Core, Runs.Possible, Runs.Exec;
      Runs.ExecConcat(s, a, b);
    }

    /** The sections from the end of the fetch of a new object to the end of the lookup. */
    function Ending(obj: ArcObject, rc: Fetched): seq<Runs.Step>
    {
      [Runs.Finish(obj, rc), if rc.NotFound? then Runs.Release(obj) else Runs.Rebalance]
    }

    lemma EndingIs(obj: ArcObject, rc: Fetched)
      ensures [] + [Runs.Finish(obj, rc)] + [if rc.NotFound? then Runs.Release(obj) else Runs.Rebalance]
           == Ending(obj, rc)
    {
    }

    method Complete(obj: ArcObject, rc: Fetched) returns (o: ArcObject?)
      requires Valid() && obj in books.objs && books.objs[obj].fetching
      modifies this, Objects(), States(), Links()`next, Links()`prev
      ensures Valid() && Ran(old(Model()), Ending(obj, rc)) && strict == old(strict)
      ensures o == if rc.NotFound? then null else obj
      ensures o != null ==> Runs.Held(books, obj)
      ensures Keeps(old(Model()), Model()) && (o != null ==> needsBalance == 0)
    {
      hide Wired, Core, ArcBalance.Balance, Total, ArcModel.Finish, ArcModel.Release;
      hide Ran, Runs.Possible, Runs.Exec, Runs.Enabled, Runs.Apply, Ending;
      EndingIs(obj, rc);
      ghost var s := Model();
      Nothing(s);
      Runs.FinishStep(s, obj, rc);
      Finish(obj, rc);
      Runs.FinishHeld(s, obj, rc);
      RanMore(s, [], s, Runs.Finish(obj, rc));
      ghost var steps := [] + [Runs.Finish(obj, rc)];
      ghost var t := Model();
      WhereRan(s, steps);
      if rc.NotFound? {
        Runs.ReleaseStep(t, obj);
        Release(obj);
        RanMore(s, steps, t, Runs.Release(obj));
        o := null;
      } else {
        Runs.BalanceHeld(t, obj);
        Runs.RebalanceStep(t);
        Balance();
        RanMore(s, steps, t, Runs.Rebalance);
        o := obj;
      }
    }

    lemma Nothing(s: Cache)
      requires Core(s)
      ensures Runs.Possible(s, []) && Runs.Exec(s, []) == s
    {
    }

    lemma WhereRan(s: Cache, steps: seq<Runs.Step>)
      requires Ran(s, steps)
      ensures Core(s) && Runs.Possible(s, steps) && Model() == Runs.Exec(s, steps)
    {
    }

    /** The miss path of a lookup, whose fetch ends with `rc`; `made` is the object it makes. */
    method FetchNew(key: Key, rc: Fetched) returns (o: ArcObject?, ghost made: ArcObject)
      requires Valid() && key !in hash
      modifies this, Objects(), States(), Links()`next, Links()`prev
      ensures Valid() && fresh(made) && made.key == key && strict == old(strict)
      ensures Ran(old(Model()), [Runs.Miss(made)] + Ending(made, rc))
      ensures o == if rc.NotFound? then null else made
      ensures o != null ==> Runs.Held(books, o)
      ensures Keeps(old(Model()), Model()) && (o != null ==> needsBalance == 0)
    {
      hide Wired, Core, Total, Create, Ran, Runs.Possible, Runs.Exec, Ending;
      ghost var s := Model();
      HashBooks();
      Nothing(s);
      var obj, created := Miss(key);
      made := obj;
      Created(s, obj);
      RanMore(s, [], s, Runs.Miss(obj));
      ghost var t := Model();
      WhereRan(s, [] + [Runs.Miss(obj)]);
      o := Complete(obj, rc);
      RanOn(s, [] + [Runs.Miss(obj)], t, Ending(obj, rc));
      assert [] + [Runs.Miss(obj)] == [Runs.Miss(obj)];
    }

    lemma Created(s: Cache, o: ArcObject)
      ensures o in Create(s, o).books.objs && Create(s, o).books.objs[o].fetching && Create(s, o).strict == s.strict
    {
    }

    /** The sections of a lookup that finds `h`; `short` is that the mode is not strict and the
        object on mfu already. */
    function Hitting(key: Key, h: ArcObject, short: bool): seq<Runs.Step>
    {
      if short then [Runs.Acquire(key)] else [Runs.Acquire(key), Runs.Touch(h), Runs.Rebalance]
    }

    /** `arc_lookup` with no other thread in between; `rc` is what the fetch, if any, ends
        with, and `made` the object a miss makes. In strict mode a lookup that returns a handle
        ends within the bound. */
    method Lookup(key: Key, rc: Fetched) returns (o: ArcObject?, ghost made: ArcObject?)
      requires Valid()
      modifies this, Objects(), States(), Links()`next, Links()`prev
      ensures Valid() && strict == old(strict)
      ensures key in old(hash) ==>
                && o == old(hash)[key]
                && Ran(old(Model()), Hitting(key, old(hash)[key], !strict && old(hash[key].state) == mfu))
      ensures key !in old(hash) ==>
                && made != null && fresh(made) && made.key == key && o == (if rc.NotFound? then null else made)
                && Ran(old(Model()), [Runs.Acquire(key), Runs.Miss(made)] + Ending(made, rc))
      ensures o != null ==> o.key == key && Runs.Held(books, o)
      ensures Keeps(old(Model()), Model()) && (o != null && strict ==> needsBalance == 0)
      ensures o != null && strict && Bounded(old(Model())) ==> Total(Model()) <= 2 * c
    {
      hide Wired, Core, ArcBalance.Balance, Total, Ran, Runs.Possible, Runs.Exec, Runs.Enabled, Runs.Apply;
      hide Ending, Hitting;
      ghost var s := Model();
      HashBooks();
      Nothing(s);
      made := null;
      AcquireKeepsMode(s, key);
      o := Acquire(key);
      RanMore(s, [], s, Runs.Acquire(key));
      ghost var t := Model();
      WhereRan(s, [] + [Runs.Acquire(key)]);
      if o != null {
        HittingIs(key, o);
        if strict || o.state != mfu {
          Hit(o);
          HitRan(s, [] + [Runs.Acquire(key)], t, o);
        }
      } else {
        o, made := FetchNew(key, rc);
        RanOn(s, [] + [Runs.Acquire(key)], t, [Runs.Miss(made)] + Ending(made, rc));
        assert [] + [Runs.Acquire(key)] + ([Runs.Miss(made)] + Ending(made, rc))
            == [Runs.Acquire(key), Runs.Miss(made)] + Ending(made, rc);
      }
    }

    lemma HittingIs(key: Key, h: ArcObject)
      ensures [] + [Runs.Acquire(key)] == Hitting(key, h, true)
      ensures [] + [Runs.Acquire(key)] + [Runs.Touch(h)] + [Runs.Rebalance] == Hitting(key, h, false)
    {
    }

    lemma AcquireKeepsMode(s: Cache, key: Key)
      requires Core(s)
      ensures Runs.Enabled(s, Runs.Acquire(key)) && Runs.Apply(s, Runs.Acquire(key)).strict == s.strict
      ensures Runs.Apply(s, Runs.Acquire(key)).books.hash == s.books.hash
    {
    }

    lemma HitRan(s: Cache, steps: seq<Runs.Step>, t: Cache, o: ArcObject)
      requires Core(s) && Runs.Possible(s, steps) && t == Runs.Exec(s, steps)
      requires Runs.Enabled(t, Runs.Touch(o)) && Core(Runs.Apply(t, Runs.Touch(o)))
      requires Model() == ArcBalance.Balance(Runs.Apply(t, Runs.Touch(o)))
      ensures Ran(s, steps + [Runs.Touch(o)] + [Runs.Rebalance])
    {
      hide Core, Runs.Possible, Runs.Exec;
      Runs.ExecMore(s, steps, Runs.Touch(o));
      RanMore(s, steps + [Runs.Touch(o)], Runs.Apply(t, Runs.Touch(o)), Runs.Rebalance);
    }

    /** `arc_remove`. The object of the key, unless it is being fetched, is on no list and
        not in the hash afterwards, and every other object is where it was. */
    method Remove(key: Key)
      requires Valid()
      modifies this, Objects(), States(), Links()`next, Links()`prev
      ensures Valid() && Keeps(old(Model()), Model())
      ensures key in old(hash) ==>
                var o := old(hash)[key];
                Ran(old(Model()), [Runs.Acquire(key), Runs.Drop(o), Runs.Release(o)])
      ensures key in old(hash) && !old(hash[key].locked) ==> Runs.Gone(old(Model()), Model(), old(hash)[key])
      ensures key !in old(hash) ==> Model() == old(Model())
    {
      hide Wired, Core, Runs.Possible, Runs.Exec, Ran;
      ghost var s := Model();
      HashBooks();
      Nothing(s);
      var o := Acquire(key);
      if o != null {
        RanMore(s, [], s, Runs.Acquire(key));
        ghost var t := Model();
        WhereRan(s, [] + [Runs.Acquire(key)]);
        StillHeld(s, key);
        Drop(o);
        GoneSince(s, key, t, o);
        Dropped(s, key, t, o);
      }
    }

    /** Holding an object moves nothing. */
    lemma GoneSince(s: Cache, key: Key, t: Cache, o: ArcObject)
      requires Core(s) && key in s.books.hash && t == Runs.Apply(s, Runs.Acquire(key))
      ensures Runs.Gone(t, Model(), o) ==> Runs.Gone(s, Model(), o)
    {
      hide ArcModel.Lists.Where;
    }

    lemma StillHeld(s: Cache, key: Key)
      requires Core(s) && key in s.books.hash && Model() == Runs.Apply(s, Runs.Acquire(key))
      ensures Runs.Releasable(books, s.books.hash[key])
    {
      var o := s.books.hash[key];
      assert Fine(s.books.objs[o], s.books.Hashed(o));
    }

    lemma Dropped(s: Cache, key: Key, t: Cache, o: ArcObject)
      requires Core(s) && Runs.Possible(s, [] + [Runs.Acquire(key)]) && t == Runs.Exec(s, [] + [Runs.Acquire(key)])
      requires Core(t) && Runs.Possible(t, [Runs.Drop(o), Runs.Release(o)])
      requires Model() == Runs.Exec(t, [Runs.Drop(o), Runs.Release(o)])
      ensures Ran(s, [Runs.Acquire(key), Runs.Drop(o), Runs.Release(o)])
    {
      hide Core, Runs.Possible, Runs.Exec;
      RanOn(s, [] + [Runs.Acquire(key)], t, [Runs.Drop(o), Runs.Release(o)]);
      assert [] + [Runs.Acquire(key)] + [Runs.Drop(o), Runs.Release(o)]
          == [Runs.Acquire(key), Runs.Drop(o), Runs.Release(o)];
    }

    /** `arc_load`: an object for a key that has none enters the hash, but no list, and only
        the hash refers to it. */
    method Load(key: Key) returns (loaded: bool, ghost o: ArcObject?)
      requires Valid()
      modifies this
      ensures Valid() && Keeps(old(Model()), Model())
      ensures loaded <==> key !in old(hash)
      ensures loaded ==> o != null && o !in old(books.objs) && o.key == key && Model() == ArcModel.Load(old(Model()), o)
      ensures !loaded ==> Model() == old(Model())
    {
      hide Wired, Core, Hashing;
      ghost var s := Model();
      HashBooks();
      o := null;
      loaded := key !in hash;
      if loaded {
        var obj := NewObject(key);
        InsertKeeps(s, obj);
        CreateBooks(s, obj);
        LoadBooks(s, obj);
        Admit(obj);
        assert Model() == s.(books := Hashing(s.books, obj));
        Release(obj);
        o := obj;
      }
    }

    lemma LoadBooks(s: Cache, o: ArcObject)
      requires s.cos == cos
      ensures var t := s.(books := Hashing(s.books, o));
              && Runs.Releasable(t.books, o) && t.books.objs[o].refs > 0
              && ArcModel.Release(t, o) == ArcModel.Load(s, o)
    {
    }

    /** `arc_set_size`, to any size. The bounds hold afterwards exactly if it is roomy. */
    method SetCapacity(size: nat)
      requires Valid()
      modifies `c
      ensures Valid() && Model() == old(Model()).(c := size / 2)
      ensures Bounded(Model()) <==> Runs.Roomy(old(Model()), size / 2)
      ensures size / 2 >= old(c) ==> Keeps(old(Model()), Model())
    {
      hide Shelved, Core, Bounded, Total;
      Runs.SizeExact(Model(), size);
      c := size / 2;
    }

    /** `arc_set_mode`. */
    method SetMode(mode: bool)
      requires Valid()
      modifies `strict
      ensures Valid() && Core(old(Model())) && Keeps(old(Model()), Model())
      ensures strict == mode && Runs.Enabled(old(Model()), Runs.SetMode(mode))
      ensures Model() == Runs.Apply(old(Model()), Runs.SetMode(mode))
    {
      hide Shelved, Core;
      Runs.StepKeeps(Model(), Runs.SetMode(mode));
      strict := mode;
    }
  }
}
