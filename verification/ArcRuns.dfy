/** Runs of the ARC cache: every interleaving of its critical sections. */
module ArcRuns {
  import opened Wrappers
  import opened ArcList
  import opened ArcModel
  import opened ArcInvariant
  import opened ArcBalance

  /** One critical section. `Acquire` is the atomic hash lookup that retains the object;
      `Touch` the move of a found object to mfu; `Drop` the move of a held object to no
      list; `Miss` the creation of an object by a lookup or, when the key has got one in
      the meantime, its disposal; `Finish` the end of its fetch. */
  datatype Step =
    | Acquire(key: Key)
    | Touch(obj: ArcObject)
    | Rebalance
    | Miss(obj: ArcObject)
    | Finish(obj: ArcObject, rc: Fetched)
    | Drop(obj: ArcObject)
    | Retain(obj: ArcObject)
    | Release(obj: ArcObject)
    | Resize(obj: ArcObject, n: nat)
    | Load(obj: ArcObject)
    | SetSize(n: nat)
    | SetMode(strict: bool)

  ghost predicate Held(b: Books, o: ArcObject)
  {
    o in b.objs && b.objs[o].handles > 0
  }

  /** The fetcher of an object keeps its handle until the fetch ends. */
  ghost predicate Releasable(b: Books, o: ArcObject)
  {
    Held(b, o) && (b.objs[o].fetching ==> b.objs[o].handles > 1)
  }

  /** A step names only objects its caller holds, or new ones. */
  ghost predicate Enabled(s: Cache, step: Step)
  {
    match step
    case Touch(o) => Held(s.books, o)
    case Miss(o) => o !in s.books.objs
    case Finish(o, _) => o in s.books.objs && s.books.objs[o].fetching
    case Drop(o) => Held(s.books, o)
    case Retain(o) => Held(s.books, o)
    case Release(o) => Releasable(s.books, o)
    case Resize(o, _) => Held(s.books, o)
    case Load(o) => o !in s.books.objs
    case _ => true
  }

  /** The capacity is not below the target and, unless balancing is pending, half the bytes fit. */
  predicate Roomy(s: Cache, c: nat)
  {
    s.p <= c && (s.needsBalance == 0 ==> Total(s) <= 2 * c)
  }

  /** A new size keeps the bounds exactly if it is roomy; one that is not smaller is. */
  lemma SizeExact(s: Cache, n: nat)
    requires Core(s)
    ensures Core(s.(c := n / 2))
    ensures Bounded(s.(c := n / 2)) <==> Roomy(s, n / 2)
    ensures Bounded(s) && n / 2 >= s.c ==> Roomy(s, n / 2)
  {
    assert Total(s.(c := n / 2)) == Total(s);
  }

  lemma Counts(b: Books, o: ArcObject)
    requires Sound(b) && o in b.objs
    ensures b.Hashed(o) ==> b.objs[o].refs > 0
    ensures b.objs[o].handles > 0 ==> b.objs[o].refs > 0
  {
    assert Fine(b.objs[o], b.Hashed(o));
  }

  ghost function Apply(s: Cache, step: Step): Cache
    requires Core(s) && Enabled(s, step)
  {
    match step
    case Acquire(k) => if k in s.books.hash then ArcModel.Retain(s, s.books.hash[k]) else s
    case Touch(o) => Counts(s.books, o); Move(s, o, Some(Mfu))
    case Rebalance => Balance(s)
    case Miss(o) => if o.key in s.books.hash then Discard(s, o) else Create(s, o)
    case Finish(o, rc) => Counts(s.books, o); ArcModel.Finish(s, o, rc)
    case Drop(o) => Counts(s.books, o); Move(s, o, None)
    case Retain(o) => ArcModel.Retain(s, o)
    case Release(o) => Counts(s.books, o); ArcModel.Release(s, o)
    case Resize(o, n) => ArcModel.Resize(s, o, n)
    case Load(o) => if o.key in s.books.hash then Discard(s, o) else ArcModel.Load(s, o)
    case SetSize(n) => s.(c := n / 2)
    case SetMode(m) => s.(strict := m)
  }

  lemma FinishStep(s: Cache, o: ArcObject, rc: Fetched)
    requires Core(s) && o in s.books.objs && s.books.objs[o].fetching
    ensures Enabled(s, Finish(o, rc)) && (s.books.Hashed(o) ==> s.books.objs[o].refs > 0)
    ensures Apply(s, Finish(o, rc)) == ArcModel.Finish(s, o, rc)
  {
    Counts(s.books, o);
  }

  lemma ReleaseStep(s: Cache, o: ArcObject)
    requires Core(s) && Releasable(s.books, o)
    ensures Enabled(s, Release(o)) && s.books.objs[o].refs > 0 && Apply(s, Release(o)) == ArcModel.Release(s, o)
  {
    Counts(s.books, o);
  }

  lemma RebalanceStep(s: Cache)
    requires Core(s)
    ensures Enabled(s, Rebalance) && Apply(s, Rebalance) == Balance(s)
  {
  }

  /** `arc_create`. */
  function Empty(c: nat, cos: nat, strict: bool): Cache
  {
    Cache(Lists([], [], [], []), Books(map[], map[]), c / 2, c / 2 / 2, cos, 0, strict)
  }

  // ---------------------------------------------------------------- bytes

  lemma TakenTotal(s: Cache, o: ArcObject, w: Which)
    requires o in s.lists.Get(w) && o in s.books.objs
    ensures Total(s.(lists := Taken(s.lists, o, w))) + s.books.objs[o].size == Total(s)
  {
    SumWithout(s.books.Sizes(), s.lists.Get(w), o);
  }

  lemma PushedTotal(s: Cache, o: ArcObject, w: Which)
    requires o in s.books.objs
    ensures Total(s.(lists := s.lists.Put(w, [o] + s.lists.Get(w)))) == Total(s) + s.books.objs[o].size
  {
    assert ([o] + s.lists.Get(w))[1..] == s.lists.Get(w);
  }

  /** Moving a listed object conserves the bytes. */
  lemma MovedTotal(s: Cache, o: ArcObject, w: Which, to: Which)
    requires o in s.lists.Get(w) && o in s.books.objs
    ensures Total(s.(lists := Moved(s.lists, o, w, to))) == Total(s)
  {
    TakenTotal(s, o, w);
    PushedTotal(s.(lists := Taken(s.lists, o, w)), o, to);
  }

  // ---------------------------------------------------------------- each step keeps the invariant

  /** Other lists, of the same objects or fewer. */
  lemma ListsKeep(s: Cache, l: Lists, p: nat)
    requires Core(s) && l.Proper() && l.All() <= s.lists.All()
    requires (s.p <= s.c ==> p <= s.c) && Total(s.(lists := l)) <= Total(s)
    ensures Core(s.(lists := l, p := p)) && Keeps(s, s.(lists := l, p := p))
  {
    assert Total(s.(lists := l, p := p)) == Total(s.(lists := l));
  }

  /** Other books, that agree on the listed objects. */
  lemma BooksKeep(s: Cache, b: Books)
    requires Core(s) && Sound(b)
    requires forall o :: o in s.lists.All() ==>
               o in b.objs && b.Hashed(o) && !b.objs[o].locked && s.books.objs[o].size == b.objs[o].size
    ensures Core(s.(books := b)) && Keeps(s, s.(books := b))
  {
    var s' := s.(books := b);
    forall w ensures s'.Bytes(w) == s.Bytes(w) {
      forall x | x in s.lists.Get(w) ensures x in s.lists.All() { WhereIs(s.lists, x); }
      SumFrame(s.books.Sizes(), b.Sizes(), s.lists.Get(w));
    }
  }

  /** A change to one object that is on no list, or that keeps its size and lock. */
  lemma SetKeeps(s: Cache, o: ArcObject, i: Info)
    requires Core(s) && Fine(i, s.books.Hashed(o))
    requires o !in s.lists.All() || (i.size == s.books.objs[o].size && !i.locked)
    ensures Core(s.(books := s.books.Set(o, i))) && Keeps(s, s.(books := s.books.Set(o, i)))
  {
    BooksKeep(s, s.books.Set(o, i));
  }

  /** The target stays within the capacity; a hit on mrug raises it, a hit on mfug lowers it,
      as far as there is room. */
  lemma AdaptBound(s: Cache, w: Which)
    requires s.p <= s.c
    ensures Adapt(s, w) <= s.c
    ensures w == Mrug ==> Adapt(s, w) > s.p || Adapt(s, w) == s.c == s.p
    ensures w == Mfug ==> Adapt(s, w) < s.p || Adapt(s, w) == 0 == s.p
    ensures w == Mru || w == Mfu ==> Adapt(s, w) == s.p
  {
  }

  /** A hit: the total is conserved, even from a ghost list, so the bound needs no new
      balancing; the target stays within the capacity. */
  lemma TouchKeeps(s: Cache, o: ArcObject)
    requires Core(s) && o in s.books.objs
    ensures s.books.Hashed(o) ==> s.books.objs[o].refs > 0
    ensures var s' := Move(s, o, Some(Mfu));
            Core(s') && Keeps(s, s') && Total(s') == Total(s) && s'.books == s.books
  {
    Counts(s.books, o);
    var from := s.lists.Where(o);
    WhereIs(s.lists, o);
    if from.Some? {
      var w := from.value;
      MoveTo(s, o, w, Mfu);
      MovedProper(s.lists, o, w, Mfu);
      MovedTotal(s, o, w, Mfu);
      if s.p <= s.c { AdaptBound(s, w); }
      ListsKeep(s, Moved(s.lists, o, w, Mfu), Move(s, o, Some(Mfu)).p);
      assert Total(Move(s, o, Some(Mfu))) == Total(s.(lists := Moved(s.lists, o, w, Mfu)));
    }
  }

  /** Moving a listed object to any list. */
  lemma ShiftKeeps(s: Cache, o: ArcObject, to: Which)
    requires Core(s) && o in s.books.objs && s.lists.Where(o).Some?
    ensures s.books.Hashed(o) ==> s.books.objs[o].refs > 0
    ensures Core(Move(s, o, Some(to))) && Keeps(s, Move(s, o, Some(to)))
  {
    Counts(s.books, o);
    var w := s.lists.Where(o).value;
    WhereIs(s.lists, o);
    MoveTo(s, o, w, to);
    MovedProper(s.lists, o, w, to);
    MovedTotal(s, o, w, to);
    if s.p <= s.c { AdaptBound(s, w); }
    ListsKeep(s, Moved(s.lists, o, w, to), Move(s, o, Some(to)).p);
  }

  /** Starting the fetch of an object that is in the hash and held. */
  lemma BeginKeeps(s: Cache, o: ArcObject)
    requires Core(s) && Held(s.books, o) && s.books.Hashed(o) && o !in s.lists.All()
    ensures Core(s.(books := Begin(s.books, o))) && Keeps(s, s.(books := Begin(s.books, o)))
  {
    assert Fine(s.books.objs[o], true);
    SetKeeps(s, o, s.books.objs[o].(locked := true, fetching := true));
  }

  lemma UnhashKeeps(s: Cache, o: ArcObject)
    requires Core(s) && o in s.books.objs && o !in s.lists.All() && !s.books.objs[o].fetching
    ensures s.books.Hashed(o) ==> s.books.objs[o].refs > 0
    ensures Core(s.(books := s.books.Unhash(o))) && Keeps(s, s.(books := s.books.Unhash(o)))
  {
    Counts(s.books, o);
    if s.books.Hashed(o) {
      UnhashSound(s.books, o);
      BooksKeep(s, s.books.Unhash(o));
    }
  }

  lemma DropKeeps(s: Cache, o: ArcObject)
    requires Core(s) && o in s.books.objs
    ensures s.books.Hashed(o) ==> s.books.objs[o].refs > 0
    ensures Core(Move(s, o, None)) && Keeps(s, Move(s, o, None))
  {
    Counts(s.books, o);
    assert Fine(s.books.objs[o], s.books.Hashed(o));
    var from := s.lists.Where(o);
    WhereIs(s.lists, o);
    if from.Some? {
      MoveOut(s, o, from.value);
      var l := Taken(s.lists, o, from.value);
      TakeProper(s.lists, from.value, o);
      TakenTotal(s, o, from.value);
      ListsKeep(s, l, s.p);
      UnhashKeeps(s.(lists := l), o);
    } else if !s.books.objs[o].locked {
      UnhashKeeps(s, o);
    }
  }

  /** Dropping an object that is not locked takes it off its list and out of the hash, and
      leaves every other object where it is. */
  lemma DropForgets(s: Cache, o: ArcObject, x: ArcObject)
    requires Core(s) && o in s.books.objs && !s.books.objs[o].locked && x in s.books.objs
    ensures s.books.Hashed(o) ==> s.books.objs[o].refs > 0
    ensures var s' := Move(s, o, None);
            && s'.lists.Where(x) == (if x == o then None else s.lists.Where(x))
            && s'.books.Hashed(x) == (x != o && s.books.Hashed(x))
  {
    hide Total, Sum, Adapt, Books.Sizes;
    Counts(s.books, o);
    WhereIs(s.lists, o);
    assert x != o && x.key == o.key && s.books.Hashed(o) ==> !s.books.Hashed(x);
    var from := s.lists.Where(o);
    if from.Some? {
      MoveOut(s, o, from.value);
      WhereTaken(s.lists, o, from.value, x);
    }
  }

  /** From `s` to `s'` the object has left its list and the hash, and every other object is where
      it was. */
  ghost predicate Gone(s: Cache, s': Cache, o: ArcObject)
  {
    && s'.lists.Where(o) == None && !s'.books.Hashed(o)
    && forall x :: x in s.books.objs && x != o ==>
         s'.lists.Where(x) == s.lists.Where(x) && s'.books.Hashed(x) == s.books.Hashed(x)
  }

  /** `arc_drop_resource` of an object that is not being fetched. */
  lemma DropsWhole(s: Cache, o: ArcObject)
    requires Core(s) && Releasable(s.books, o) && !s.books.objs[o].locked
    ensures s.books.Hashed(o) ==> s.books.objs[o].refs > 0
    ensures Releasable(Move(s, o, None).books, o) && Move(s, o, None).books.objs[o].refs > 0
    ensures Gone(s, ArcModel.Release(Move(s, o, None), o), o)
  {
    hide Move, Lists.Where;
    DropForgets(s, o, o);
    DropHeld(s, o);
    forall x | x in s.books.objs && x != o { DropForgets(s, o, x); }
  }

  lemma DropHeld(s: Cache, o: ArcObject)
    requires Core(s) && Releasable(s.books, o)
    requires s.books.Hashed(o) ==> s.books.objs[o].refs > 0
    ensures Releasable(Move(s, o, None).books, o) && Move(s, o, None).books.objs[o].refs > 0
  {
    assert Fine(s.books.objs[o], s.books.Hashed(o));
    DropKeeps(s, o);
    Counts(Move(s, o, None).books, o);
  }

  /** A new object that enters the hash. */
  lemma EnterKeeps(s: Cache, o: ArcObject, i: Info)
    requires Core(s) && o !in s.books.objs && o.key !in s.books.hash && Fine(i, true)
    ensures var s' := s.(books := Books(s.books.hash[o.key := o], s.books.objs[o := i]));
            Core(s') && Keeps(s, s')
  {
    var b := Books(s.books.hash[o.key := o], s.books.objs[o := i]);
    forall x | x in b.objs ensures Fine(b.objs[x], b.Hashed(x)) {
      assert x != o ==> Fine(s.books.objs[x], s.books.Hashed(x));
    }
    BooksKeep(s, b);
  }

  lemma CreateKeeps(s: Cache, o: ArcObject)
    requires Core(s) && o !in s.books.objs && o.key !in s.books.hash
    ensures Core(Create(s, o)) && Keeps(s, Create(s, o))
  {
    var i := Info(BaseSize(o.key) + s.cos, 2, 1, 0, true, true);
    assert Create(s, o) == s.(books := Books(s.books.hash[o.key := o], s.books.objs[o := i]));
    EnterKeeps(s, o, i);
  }

  lemma LoadKeeps(s: Cache, o: ArcObject)
    requires Core(s) && o !in s.books.objs && o.key !in s.books.hash
    ensures Core(ArcModel.Load(s, o)) && Keeps(s, ArcModel.Load(s, o))
  {
    var i := Info(BaseSize(o.key) + s.cos, 1, 0, 0, false, false);
    assert ArcModel.Load(s, o) == s.(books := Books(s.books.hash[o.key := o], s.books.objs[o := i]));
    EnterKeeps(s, o, i);
  }

  lemma DiscardKeeps(s: Cache, o: ArcObject)
    requires Core(s) && o !in s.books.objs && o.key in s.books.hash
    ensures Core(Discard(s, o)) && Keeps(s, Discard(s, o))
  {
    assert !s.books.Hashed(o) && o !in s.lists.All();
    var i := Info(BaseSize(o.key) + s.cos, 0, 0, 1, false, false);
    assert Discard(s, o) == s.(books := s.books.Set(o, i));
    SetKeeps(s, o, i);
  }

  lemma FetchEnds(s: Cache, o: ArcObject)
    requires Core(s) && o in s.books.objs && s.books.objs[o].fetching
    ensures s.books.Hashed(o) && s.books.objs[o].refs > 0 && s.books.objs[o].locked
    ensures o !in s.lists.All()
    ensures var s' := s.(books := s.books.Set(o, s.books.objs[o].(fetching := false)));
            Core(s') && Keeps(s, s')
  {
    assert Fine(s.books.objs[o], s.books.Hashed(o));
    SetKeeps(s, o, s.books.objs[o].(fetching := false));
  }

  /** A kept object enters mru, and the lists need balancing. */
  function Kept(s: Cache, o: ArcObject, n: nat): Cache
    requires o in s.books.objs
  {
    s.(books := s.books.Set(o, s.books.objs[o].(size := n, locked := false)),
       lists := s.lists.Put(Mru, [o] + s.lists.Get(Mru)),
       needsBalance := s.needsBalance + 1)
  }

  lemma ListKeeps(s: Cache, o: ArcObject, n: nat)
    requires Core(s) && o in s.books.objs && !s.books.objs[o].fetching && o !in s.lists.All() && s.books.Hashed(o)
    ensures Core(Kept(s, o, n)) && Keeps(s, Kept(s, o, n))
  {
    assert Fine(s.books.objs[o], s.books.Hashed(o));
    SetKeeps(s, o, s.books.objs[o].(size := n, locked := false));
    PushProper(s.lists, Mru, o);
  }

  /** The end of a fetch. A failed one leaves the object locked and out of the hash. */
  lemma FinishKeeps(s: Cache, o: ArcObject, rc: Fetched)
    requires Core(s) && o in s.books.objs && s.books.objs[o].fetching
    ensures s.books.Hashed(o) && s.books.objs[o].refs > 0
    ensures Core(ArcModel.Finish(s, o, rc)) && Keeps(s, ArcModel.Finish(s, o, rc))
  {
    hide Core, Bounded, Lists.Proper, Lists.All, Books.Sizes;
    FetchEnds(s, o);
    var s1 := s.(books := s.books.Set(o, s.books.objs[o].(fetching := false)));
    if !rc.Keep? || rc.size >= s.c {
      assert ArcModel.Finish(s, o, rc) == s1.(books := s1.books.Unhash(o));
      UnhashKeeps(s1, o);
    } else {
      assert ArcModel.Finish(s, o, rc) == Kept(s1, o, BaseSize(o.key) + s.cos + rc.size);
      ListKeeps(s1, o, BaseSize(o.key) + s.cos + rc.size);
    }
  }

  lemma ReleaseKeeps(s: Cache, o: ArcObject)
    requires Core(s) && Releasable(s.books, o)
    ensures s.books.objs[o].refs > 0
    ensures Core(ArcModel.Release(s, o)) && Keeps(s, ArcModel.Release(s, o))
  {
    assert Fine(s.books.objs[o], s.books.Hashed(o));
    SetKeeps(s, o, s.books.objs[o].Released());
  }

  lemma RetainKeeps(s: Cache, o: ArcObject)
    requires Core(s) && o in s.books.objs && s.books.objs[o].refs > 0
    ensures Core(ArcModel.Retain(s, o)) && Keeps(s, ArcModel.Retain(s, o))
  {
    assert Fine(s.books.objs[o], s.books.Hashed(o));
    SetKeeps(s, o, s.books.objs[o].Retained());
  }

  lemma ResizeKeeps(s: Cache, o: ArcObject, n: nat)
    requires Core(s) && o in s.books.objs
    ensures Core(ArcModel.Resize(s, o, n)) && Keeps(s, ArcModel.Resize(s, o, n))
  {
    assert Fine(s.books.objs[o], s.books.Hashed(o));
  }

  lemma BalanceKeeps(s: Cache)
    requires Core(s)
    ensures Core(Balance(s)) && Keeps(s, Balance(s)) && Balance(s).needsBalance == 0
  {
    if s.needsBalance > 0 {
      BalancedFits(s);
    }
  }

  /** The creator of an object still holds it when its fetch is over. */
  lemma FinishHeld(s: Cache, o: ArcObject, rc: Fetched)
    requires Core(s) && o in s.books.objs && s.books.objs[o].fetching
    requires s.books.Hashed(o) ==> s.books.objs[o].refs > 0
    ensures Releasable(ArcModel.Finish(s, o, rc).books, o)
    ensures ArcModel.Finish(s, o, rc).books.objs.Keys == s.books.objs.Keys
    ensures ArcModel.Finish(s, o, rc).strict == s.strict
  {
    assert Fine(s.books.objs[o], s.books.Hashed(o));
  }

  /** Balancing takes no handle away. */
  lemma BalanceHeld(s: Cache, o: ArcObject)
    requires Core(s) && Held(s.books, o)
    ensures Held(Balance(s).books, o) && Balance(s).books.objs.Keys == s.books.objs.Keys
    ensures Balance(s).strict == s.strict
  {
    if s.needsBalance > 0 {
      BalanceResult(s);
      assert ForgotAt(s.books, Balance(s).books, o, o in s.lists.All() - Balance(s).lists.All());
    }
  }

  /** A step that sets a new size has room for what is there. */
  ghost predicate Fitting(s: Cache, step: Step)
  {
    step.SetSize? ==> Roomy(s, step.n / 2)
  }

  /** Every critical section keeps the invariant. */
  lemma StepKeeps(s: Cache, step: Step)
    requires Core(s) && Enabled(s, step)
    ensures Core(Apply(s, step))
    ensures Fitting(s, step) ==> Keeps(s, Apply(s, step))
  {
    match step
    case Acquire(k) =>
      if k in s.books.hash {
        Counts(s.books, s.books.hash[k]);
        RetainKeeps(s, s.books.hash[k]);
      }
    case Touch(o) => TouchKeeps(s, o);
    case Rebalance => BalanceKeeps(s);
    case Miss(o) =>
      if o.key in s.books.hash { DiscardKeeps(s, o); } else { CreateKeeps(s, o); }
    case Finish(o, rc) => FinishKeeps(s, o, rc);
    case Drop(o) => DropKeeps(s, o);
    case Retain(o) => Counts(s.books, o); RetainKeeps(s, o);
    case Release(o) => ReleaseKeeps(s, o);
    case Resize(o, n) => ResizeKeeps(s, o, n);
    case Load(o) =>
      if o.key in s.books.hash { DiscardKeeps(s, o); } else { LoadKeeps(s, o); }
    case SetSize(n) => assert Total(Apply(s, step)) == Total(s);
    case SetMode(m) => assert Total(Apply(s, step)) == Total(s);
  }

  // ---------------------------------------------------------------- runs

  /** Each step of `steps` is enabled when its turn comes. */
  ghost predicate Possible(s: Cache, steps: seq<Step>)
    requires Core(s)
    decreases |steps|
  {
    steps == [] ||
    (Enabled(s, steps[0]) && (StepKeeps(s, steps[0]); Possible(Apply(s, steps[0]), steps[1..])))
  }

  ghost function Exec(s: Cache, steps: seq<Step>): (r: Cache)
    requires Core(s) && Possible(s, steps)
    ensures Core(r)
    decreases |steps|
  {
    if steps == [] then s else StepKeeps(s, steps[0]); Exec(Apply(s, steps[0]), steps[1..])
  }

  /** One more step at the end of a run. */
  lemma {:induction false} ExecMore(s: Cache, steps: seq<Step>, step: Step)
    requires Core(s) && Possible(s, steps) && Enabled(Exec(s, steps), step)
    ensures Possible(s, steps + [step]) && Exec(s, steps + [step]) == Apply(Exec(s, steps), step)
    decreases |steps|
  {
    if steps == [] {
      assert [step][1..] == [] && steps + [step] == [step];
      StepKeeps(s, step);
    } else {
      StepKeeps(s, steps[0]);
      assert (steps + [step])[1..] == steps[1..] + [step];
      ExecMore(Apply(s, steps[0]), steps[1..], step);
    }
  }

  /** A run after a run. */
  lemma {:induction false} ExecConcat(s: Cache, a: seq<Step>, b: seq<Step>)
    requires Core(s) && Possible(s, a) && Possible(Exec(s, a), b)
    ensures Possible(s, a + b) && Exec(s, a + b) == Exec(Exec(s, a), b)
    decreases |a|
  {
    if a == [] {
      assert a + b == b;
    } else {
      StepKeeps(s, a[0]);
      assert (a + b)[1..] == a[1..] + b;
      ExecConcat(Apply(s, a[0]), a[1..], b);
    }
  }

  /** A new cache: half the size for each pair of lists, and half of that as the target. */
  lemma EmptyInv(c: nat, cos: nat, strict: bool)
    ensures var s := Empty(c, cos, strict);
            && Core(s) && Bounded(s) && s.lists.All() == {} && s.books.objs == map[] && s.needsBalance == 0
            && s.p == c / 4 && (c == 2 * s.c || c == 2 * s.c + 1) && s.cos == cos && s.strict == strict
  {
  }

  /** Every new size of the run has room for what is there. */
  ghost predicate Roomed(s: Cache, steps: seq<Step>)
    requires Core(s) && Possible(s, steps)
    decreases |steps|
  {
    steps == [] ||
    (Fitting(s, steps[0]) && (StepKeeps(s, steps[0]); Roomed(Apply(s, steps[0]), steps[1..])))
  }

  /** From any state within the bounds, as a new cache is and as every one is in which the
      target is within the capacity and balancing is pending: whenever no balancing is
      pending, the four lists together hold at most twice the capacity. */
  lemma {:induction false} RunBound(s: Cache, steps: seq<Step>)
    requires Core(s) && Bounded(s) && Possible(s, steps) && Roomed(s, steps)
    ensures var t := Exec(s, steps); t.p <= t.c && (t.needsBalance == 0 ==> Total(t) <= 2 * t.c)
    decreases |steps|
  {
    hide Enabled, Apply, Total;
    if steps != [] {
      StepKeeps(s, steps[0]);
      RunBound(Apply(s, steps[0]), steps[1..]);
    }
  }

  /** A run without its last step. */
  lemma {:induction false} ExecLast(s: Cache, steps: seq<Step>, step: Step)
    requires Core(s) && Possible(s, steps + [step])
    ensures Possible(s, steps) && Enabled(Exec(s, steps), step)
    ensures Exec(s, steps + [step]) == Apply(Exec(s, steps), step)
    decreases |steps|
  {
    hide Core, Enabled, Apply;
    var all := steps + [step];
    if steps == [] {
      assert all[1..] == [];
      StepKeeps(s, step);
    } else {
      StepKeeps(s, steps[0]);
      assert all[1..] == steps[1..] + [step];
      ExecLast(Apply(s, steps[0]), steps[1..], step);
    }
  }

  // ---------------------------------------------------------------- lookups

  /** The critical sections of a lookup that finds `o`, with those of other threads between. */
  function HitSections(o: ArcObject, a: seq<Step>, b: seq<Step>): seq<Step>
  {
    [Acquire(o.key)] + a + [Touch(o)] + b + [Rebalance]
  }

  /** The critical sections of a lookup that makes `o` and keeps or returns its value. */
  function MissSections(o: ArcObject, rc: Fetched, a: seq<Step>, b: seq<Step>): seq<Step>
  {
    [Miss(o)] + a + [Finish(o, rc)] + b + [Rebalance]
  }

  /** `o` is released only while there is a handle besides that of the lookup. */
  ghost predicate Spares(s: Cache, steps: seq<Step>, o: ArcObject)
    requires Core(s) && Possible(s, steps)
    decreases |steps|
  {
    steps == [] ||
    (SparesNow(s, steps[0], o) && (StepKeeps(s, steps[0]); Spares(Apply(s, steps[0]), steps[1..], o)))
  }

  ghost predicate SparesNow(s: Cache, step: Step, o: ArcObject)
  {
    step == Release(o) && o in s.books.objs ==> s.books.objs[o].handles > 1
  }

  lemma HeldNext(s: Cache, step: Step, o: ArcObject)
    requires Core(s) && Enabled(s, step) && Held(s.books, o) && SparesNow(s, step, o)
    ensures Held(Apply(s, step).books, o)
  {
    hide Total, Sum, Adapt, Lists.Proper, Lists.All, Lists.Where, Balance, Books.Sizes, Without;
    if step.Rebalance? { BalanceHeld(s, o); }
  }

  lemma {:induction false} HeldThrough(s: Cache, steps: seq<Step>, o: ArcObject)
    requires Core(s) && Possible(s, steps) && Spares(s, steps, o) && Held(s.books, o)
    ensures Held(Exec(s, steps).books, o)
    decreases |steps|
  {
    hide Core, Enabled, Apply, Held, SparesNow;
    if steps != [] {
      StepKeeps(s, steps[0]);
      HeldNext(s, steps[0], o);
      HeldThrough(Apply(s, steps[0]), steps[1..], o);
    }
  }

  /** What a lookup does first: it takes a handle of the object it found, or made. */
  lemma FirstHolds(s: Cache, o: ArcObject)
    requires Core(s)
    ensures s.books.Hashed(o) ==> Enabled(s, Acquire(o.key)) && Held(Apply(s, Acquire(o.key)).books, o)
    ensures o.key !in s.books.hash && o !in s.books.objs ==>
              Enabled(s, Miss(o)) && Held(Apply(s, Miss(o)).books, o)
  {
  }

  /** Whatever other threads do between its sections, a lookup that has found `o`, or has made
      it, returns a handle of it that is still good, and ends with the lists balanced and, if
      they were within the bounds and new sizes have room, within the bounds. */
  lemma LookupEndsBounded(s: Cache, sections: seq<Step>, o: ArcObject)
    requires Core(s) && Possible(s, sections) && Spares(s, sections, o)
    requires (s.books.Hashed(o) && exists a, b :: sections == HitSections(o, a, b))
          || (o.key !in s.books.hash && exists rc, a, b :: sections == MissSections(o, rc, a, b))
    ensures var t := Exec(s, sections);
            && Held(t.books, o) && t.needsBalance == 0
            && (Bounded(s) && Roomed(s, sections) ==> Total(t) <= 2 * t.c)
  {
    Shape(s, sections, o);
    FirstHolds(s, o);
    hide Core, Enabled, Apply, Held, SparesNow, HitSections, MissSections, Total;
    StepKeeps(s, sections[0]);
    HeldThrough(Apply(s, sections[0]), sections[1..], o);
    var init := sections[..|sections| - 1];
    assert sections == init + [Rebalance];
    ExecLast(s, init, Rebalance);
    BalanceKeeps(Exec(s, init));
    RebalanceStep(Exec(s, init));
    if Bounded(s) && Roomed(s, sections) { RunBound(s, sections); }
  }

  lemma Shape(s: Cache, sections: seq<Step>, o: ArcObject)
    requires (s.books.Hashed(o) && exists a, b :: sections == HitSections(o, a, b))
          || (o.key !in s.books.hash && exists rc, a, b :: sections == MissSections(o, rc, a, b))
    ensures sections != [] && sections[|sections| - 1] == Rebalance
    ensures sections[0] == if s.books.Hashed(o) then Acquire(o.key) else Miss(o)
    ensures !s.books.Hashed(o) ==> o.key !in s.books.hash
  {
  }

  // ---------------------------------------------------------------- capacity, references

  /** As long as the size is not set again, the bound is the size the cache was made with. */
  lemma {:induction false} RunConfiguredBound(c: nat, cos: nat, strict: bool, steps: seq<Step>)
    requires Core(Empty(c, cos, strict)) && Possible(Empty(c, cos, strict), steps)
    requires forall i :: 0 <= i < |steps| ==> !steps[i].SetSize?
    ensures var s := Exec(Empty(c, cos, strict), steps); s.needsBalance == 0 ==> Total(s) <= c
  {
    EmptyInv(c, cos, strict);
    SizeStays(Empty(c, cos, strict), steps);
    RunBound(Empty(c, cos, strict), steps);
  }

  /** A size that leaves the target above the capacity does not shrink the cache: balancing
      leaves everything on mfu. */
  lemma ShrinkStays(s: Cache, o: ArcObject, n: nat)
    requires Core(s) && Held(s.books, o) && s.lists.Where(o) == Some(Mfu) && s.p > 0
    requires var t := ArcModel.Resize(s.(c := 0), o, n); t.Bytes(Mfu) <= Share(t)
    ensures var steps := [SetSize(0), Resize(o, n), Rebalance];
            Possible(s, steps) && Exec(s, steps).needsBalance == 0 && Total(Exec(s, steps)) > 2 * Exec(s, steps).c
  {
    hide Core, Total, Share, Balance, Cache.Bytes, ArcModel.Resize, Enabled, Apply, Possible, Exec, Lists.Where;
    var s1 := s.(c := 0);
    var s2 := ArcModel.Resize(s1, o, n);
    ShrinkSteps(s, o, n);
    ResizedBytes(s1, o, n);
    OverTarget(s2);
    BalanceKeeps(s2);
    RebalanceStep(s2);
    BalanceSize(s2);
    ThreeSteps(s, SetSize(0), s1, Resize(o, n), s2, Rebalance);
  }

  lemma ThreeSteps(s: Cache, a: Step, s1: Cache, b: Step, s2: Cache, d: Step)
    requires Core(s) && Enabled(s, a) && s1 == Apply(s, a)
    requires Core(s1) && Enabled(s1, b) && s2 == Apply(s1, b) && Core(s2) && Enabled(s2, d)
    ensures Possible(s, [a, b, d]) && Exec(s, [a, b, d]) == Apply(s2, d)
  {
    hide Core, Enabled, Apply;
    ExecMore(s, [], a);
    ExecMore(s, [] + [a], b);
    ExecMore(s, [] + [a] + [b], d);
    assert [] + [a] + [b] + [d] == [a, b, d];
  }

  lemma ShrinkSteps(s: Cache, o: ArcObject, n: nat)
    requires Core(s) && Held(s.books, o)
    ensures var s1 := s.(c := 0);
            && Enabled(s, SetSize(0)) && Apply(s, SetSize(0)) == s1
            && Core(s1) && Enabled(s1, Resize(o, n)) && Apply(s1, Resize(o, n)) == ArcModel.Resize(s1, o, n)
            && Core(ArcModel.Resize(s1, o, n)) && ArcModel.Resize(s1, o, n).p == s.p
            && ArcModel.Resize(s1, o, n).c == 0 && ArcModel.Resize(s1, o, n).needsBalance > 0
  {
    StepKeeps(s, SetSize(0));
    StepKeeps(s.(c := 0), Resize(o, n));
  }

  lemma ResizedBytes(s: Cache, o: ArcObject, n: nat)
    requires Core(s) && o in s.books.objs && s.lists.Where(o) == Some(Mfu)
    ensures ArcModel.Resize(s, o, n).Bytes(Mfu) > 0
  {
    var size := ArcModel.Resize(s, o, n).books.Sizes();
    SumWithout(size, s.lists.mfu, o);
  }

  lemma BalanceSize(s: Cache)
    requires Core(s)
    ensures Balance(s).c == s.c
  {
    if s.needsBalance > 0 { BalanceResult(s); }
  }

  lemma {:induction false} SizeStays(s: Cache, steps: seq<Step>)
    requires Core(s) && Possible(s, steps)
    requires forall i :: 0 <= i < |steps| ==> !steps[i].SetSize?
    ensures Exec(s, steps).c == s.c && Roomed(s, steps)
    decreases |steps|
  {
    if steps != [] {
      StepKeeps(s, steps[0]);
      StepSize(s, steps[0]);
      SizeStays(Apply(s, steps[0]), steps[1..]);
    }
  }

  lemma StepSize(s: Cache, step: Step)
    requires Core(s) && Enabled(s, step) && !step.SetSize?
    ensures Apply(s, step).c == s.c
  {
    if step.Rebalance? && s.needsBalance > 0 {
      BalanceResult(s);
    }
  }

  /** In every reachable state an object is alive exactly as long as the hash or a handle
      refers to it, and a listed object is. */
  lemma RunRefs(c: nat, cos: nat, strict: bool, steps: seq<Step>, o: ArcObject)
    requires Core(Empty(c, cos, strict)) && Possible(Empty(c, cos, strict), steps)
    requires o in Exec(Empty(c, cos, strict), steps).books.objs
    ensures var s := Exec(Empty(c, cos, strict), steps); var i := s.books.objs[o];
            && i.refs == (if s.books.Hashed(o) then 1 else 0) + i.handles
            && i.evicts == (if i.refs == 0 then 1 else 0)
            && (s.lists.Where(o).Some? ==> i.refs > 0 && s.books.Hashed(o) && !i.locked)
  {
    var s := Exec(Empty(c, cos, strict), steps);
    assert Fine(s.books.objs[o], s.books.Hashed(o));
    WhereIs(s.lists, o);
  }

  /** Once the last reference is gone the object is never touched again, so the evict
      callback runs once for it in the whole run. */
  lemma {:induction false} EvictedOnce(s: Cache, steps: seq<Step>, o: ArcObject)
    requires Core(s) && Possible(s, steps) && o in s.books.objs && s.books.objs[o].refs == 0
    ensures o in Exec(s, steps).books.objs && Exec(s, steps).books.objs[o] == s.books.objs[o]
    ensures s.books.objs[o].evicts == 1
    decreases |steps|
  {
    assert Fine(s.books.objs[o], s.books.Hashed(o));
    if steps != [] {
      StepKeeps(s, steps[0]);
      DeadStays(s, steps[0], o);
      EvictedOnce(Apply(s, steps[0]), steps[1..], o);
    }
  }

  lemma MoveOther(s: Cache, x: ArcObject, to: Option<Which>, o: ArcObject)
    requires x in s.books.objs && (s.books.Hashed(x) ==> s.books.objs[x].refs > 0) && o in s.books.objs && o != x
    ensures o in Move(s, x, to).books.objs && Move(s, x, to).books.objs[o] == s.books.objs[o]
  {
    hide Adapt, Lists.Where, Lists.Put, Without, Books.Sizes;
  }

  lemma FinishOther(s: Cache, x: ArcObject, rc: Fetched, o: ArcObject)
    requires x in s.books.objs && (s.books.Hashed(x) ==> s.books.objs[x].refs > 0) && o in s.books.objs && o != x
    ensures var s' := ArcModel.Finish(s, x, rc); o in s'.books.objs && s'.books.objs[o] == s.books.objs[o]
  {
    hide Lists.Put, Books.Sizes;
  }

  lemma BalanceDead(s: Cache, o: ArcObject)
    requires Core(s) && o in s.books.objs && s.books.objs[o].refs == 0
    ensures o in Balance(s).books.objs && Balance(s).books.objs[o] == s.books.objs[o]
  {
    if s.needsBalance > 0 {
      hide Balance, Core, CutInTurn, Share;
      BalanceResult(s);
      assert ForgotAt(s.books, Balance(s).books, o, o in s.lists.All() - Balance(s).lists.All());
    }
  }

  lemma DeadStays(s: Cache, step: Step, o: ArcObject)
    requires Core(s) && Enabled(s, step) && o in s.books.objs && s.books.objs[o].refs == 0
    ensures o in Apply(s, step).books.objs && Apply(s, step).books.objs[o] == s.books.objs[o]
  {
    hide Placed, Move, ArcModel.Finish, Lists.Where, Balance, Books.Sizes;
    assert Fine(s.books.objs[o], s.books.Hashed(o));
    match step
    case Touch(x) => Counts(s.books, x); MoveOther(s, x, Some(Mfu), o);
    case Drop(x) => Counts(s.books, x); MoveOther(s, x, None, o);
    case Finish(x, rc) =>
      Counts(s.books, x);
      assert Fine(s.books.objs[x], s.books.Hashed(x));
      FinishOther(s, x, rc, o);
    case Rebalance => BalanceDead(s, o);
    case _ =>
  }
}
