/** One cached object while it is fetched, and the clients that listen to it. */
module FanOut {
  import opened Wrappers
  import opened Bytes

  /** What a client is told at the end. */
  datatype Notice = Complete(total: nat) | Error

  /** What the callback of a client has been given. */
  datatype Client = Client(got: Bytes, notices: seq<Notice>)

  /** `listeners` are the clients still registered, in order, among all the clients that ever
      asked for the object. `present` is that the data pointer is not null. */
  datatype Object<!L> = Object(
    data: Bytes,
    present: bool,
    fetching: bool,
    complete: bool,
    listeners: seq<L>,
    clients: map<L, Client>)

  /** What may happen to the object under its lock. `refused` are the listeners whose callback
      returns an error for the piece. */
  datatype Step<!L> =
    | Join(l: L)
    | Begin
    | Piece(data: Bytes, refused: set<L>)
    | Finish
    | Fail
    | Local(value: Option<Bytes>, refused: set<L>)

  /** `arc_ops_init`. */
  function Fresh<L>(): Object<L>
  {
    Object([], false, false, false, [], map[])
  }

  /** `shardcache_get_async_helper` with data: a call without bytes is an end call, with
      neither a size nor a timestamp, which is how an error is told. */
  function Given(c: Client, piece: Bytes): Client
  {
    if piece == [] then c.(notices := c.notices + [Notice.Error]) else c.(got := c.got + piece)
  }

  /** Every registered listener is given a piece. */
  function Told<L>(o: Object<L>, piece: Bytes): map<L, Client>
  {
    map l | l in o.clients :: if l in o.listeners then Given(o.clients[l], piece) else o.clients[l]
  }

  /** Every registered listener is told the end. */
  function Notified<L>(o: Object<L>, n: Notice): map<L, Client>
  {
    map l | l in o.clients ::
      if l in o.listeners then o.clients[l].(notices := o.clients[l].notices + [n]) else o.clients[l]
  }

  function Without<L(==)>(ls: seq<L>, gone: set<L>): seq<L>
  {
    if ls == [] then [] else (if ls[0] in gone then [] else [ls[0]]) + Without(ls[1..], gone)
  }

  /** Bytes are stored and handed on. */
  function Handed<L(==)>(o: Object<L>, piece: Bytes, refused: set<L>): Object<L>
  {
    o.(data := o.data + piece, present := true, clients := Told(o, piece), listeners := Without(o.listeners, refused))
  }

  /** A piece from a peer. An empty one is not handed on. */
  function Appended<L(==)>(o: Object<L>, piece: Bytes, refused: set<L>): Object<L>
  {
    if piece == [] then o.(present := true) else Handed(o, piece, refused)
  }

  function Finished<L>(o: Object<L>): Object<L>
  {
    o.(clients := Notified(o, Complete(|o.data|)), listeners := [], complete := true, fetching := false)
  }

  function Failed<L>(o: Object<L>): Object<L>
  {
    o.(clients := Notified(o, Notice.Error), listeners := [], fetching := false)
  }

  /** `shardcache_get` for an object that is not being evicted. */
  function Joined<L>(o: Object<L>, l: L): Object<L>
  {
    if o.complete then o.(clients := o.clients[l := Client(o.data, [Complete(|o.data|)])])
    else o.(clients := o.clients[l := Client(o.data, [])], listeners := o.listeners + [l])
  }

  function Apply<L(==)>(o: Object<L>, s: Step<L>): Object<L>
  {
    match s
    case Join(l) => Joined(o, l)
    case Begin => o.(fetching := true)
    case Piece(data, refused) => Appended(o, data, refused)
    case Finish => Finished(o)
    case Fail => Failed(o)
    case Local(None, _) => Finished(o)
    case Local(Some(v), refused) => Finished(Handed(o, v, refused))
  }

  /** A client asks once, an object is fetched once, and a fetch goes on until it ends. */
  ghost predicate Enabled<L>(o: Object<L>, s: Step<L>)
  {
    match s
    case Join(l) => l !in o.clients
    case Begin => !o.fetching && !o.present && !o.complete
    case Piece(_, _) => o.fetching
    case Finish => o.fetching
    case Fail => true
    case Local(_, _) => !o.fetching && !o.present && !o.complete
  }

  /** A value from storage is not empty, or finds no listener that stays for it. */
  ghost predicate Guarded<L>(o: Object<L>, s: Step<L>)
  {
    s.Local? && s.value == Some([]) ==> forall l :: l in o.listeners ==> l in s.refused
  }

  // ---------------------------------------------------------------- the invariant

  /** A registered listener has exactly the bytes of the object and no notice. */
  ghost predicate UpToDate<L>(o: Object<L>, l: L)
  {
    l in o.clients && o.clients[l] == Client(o.data, [])
  }

  /** Any client has a prefix of the bytes and at most one notice; with a notice of completion
      it has all of them. */
  ghost predicate Fair<L>(o: Object<L>, c: Client)
  {
    && c.got <= o.data
    && |c.notices| <= 1
    && (c.notices != [] && c.notices[0].Complete? ==> o.complete && c == Client(o.data, [Complete(|o.data|)]))
  }

  ghost predicate Inv<L(!new)>(o: Object<L>)
  {
    && (forall l :: l in o.listeners ==> UpToDate(o, l))
    && (forall l :: l in o.clients ==> Fair(o, o.clients[l]))
    && (o.complete ==> !o.fetching && o.listeners == [])
    && (!o.present ==> o.data == [])
  }

  lemma {:induction false} WithoutIn<L>(ls: seq<L>, gone: set<L>, l: L)
    ensures l in Without(ls, gone) <==> l in ls && l !in gone
  {
    if ls != [] { WithoutIn(ls[1..], gone, l); }
  }

  lemma AppendedKeeps<L(!new)>(o: Object<L>, piece: Bytes, refused: set<L>)
    requires Inv(o) && !o.complete
    ensures Inv(Appended(o, piece, refused))
  {
    var o' := Appended(o, piece, refused);
    forall l | l in o'.listeners ensures UpToDate(o', l) {
      WithoutIn(o.listeners, refused, l);
      assert UpToDate(o, l);
    }
    forall l | l in o'.clients ensures Fair(o', o'.clients[l]) {
      assert Fair(o, o.clients[l]);
      assert l in o.listeners ==> UpToDate(o, l);
    }
  }

  lemma NotifiedKeeps<L(!new)>(o: Object<L>)
    requires Inv(o)
    ensures Inv(Finished(o)) && Inv(Failed(o))
  {
    forall l | l in o.clients
      ensures Fair(Finished(o), Finished(o).clients[l]) && Fair(Failed(o), Failed(o).clients[l])
    {
      assert Fair(o, o.clients[l]);
      assert l in o.listeners ==> UpToDate(o, l);
    }
  }

  /** An empty value from storage: whoever stays registered is told an error and then the
      completion, so the invariant survives exactly if nobody does. */
  lemma EmptyValueExact<L(!new)>(o: Object<L>, refused: set<L>)
    requires Inv(o) && Enabled(o, Local(Some([]), refused))
    ensures Inv(Apply(o, Local(Some([]), refused))) <==> forall l :: l in o.listeners ==> l in refused
  {
    var s := Local(Some([]), refused);
    if Guarded(o, s) {
      AllRefuse(o, refused);
    } else {
      var l := SecondNotice(o, s);
      assert !Fair(Apply(o, s), Apply(o, s).clients[l]);
    }
  }

  lemma AllRefuse<L(!new)>(o: Object<L>, refused: set<L>)
    requires Inv(o) && !o.present && !o.complete && !o.fetching && forall l :: l in o.listeners ==> l in refused
    ensures Inv(Finished(Handed(o, [], refused)))
  {
    var o1 := Handed(o, [], refused);
    forall l ensures l !in o1.listeners { WithoutIn(o.listeners, refused, l); }
    forall l | l in o.clients ensures Fair(Finished(o1), o1.clients[l]) {
      assert Fair(o, o.clients[l]);
      assert l in o.listeners ==> UpToDate(o, l);
    }
  }

  /** A step keeps the invariant exactly if it is guarded. */
  lemma StepExact<L(!new)>(o: Object<L>, s: Step<L>)
    requires Inv(o) && Enabled(o, s)
    ensures Inv(Apply(o, s)) <==> Guarded(o, s)
  {
    if s.Local? && s.value == Some([]) {
      EmptyValueExact(o, s.refused);
    } else {
      StepKeeps(o, s);
    }
  }

  /** Every other step keeps the invariant. */
  lemma StepKeeps<L(!new)>(o: Object<L>, s: Step<L>)
    requires Inv(o) && Enabled(o, s) && !(s.Local? && s.value == Some([]))
    ensures Inv(Apply(o, s))
  {
    match s
    case Join(l) => JoinedKeeps(o, l);
    case Begin =>
      forall l | l in o.listeners ensures UpToDate(Apply(o, s), l) { assert UpToDate(o, l); }
      forall l | l in o.clients ensures Fair(Apply(o, s), o.clients[l]) { assert Fair(o, o.clients[l]); }
    case Piece(data, refused) => AppendedKeeps(o, data, refused);
    case Finish => NotifiedKeeps(o);
    case Fail => NotifiedKeeps(o);
    case Local(None, _) => NotifiedKeeps(o);
    case Local(Some(v), refused) =>
      AppendedKeeps(o, v, refused);
      NotifiedKeeps(Handed(o, v, refused));
  }

  lemma JoinedKeeps<L(!new)>(o: Object<L>, l: L)
    requires Inv(o) && l !in o.clients
    ensures Inv(Joined(o, l))
  {
    var o' := Joined(o, l);
    forall x | x in o'.listeners ensures UpToDate(o', x) {
      assert x != l ==> UpToDate(o, x);
    }
    forall x | x in o'.clients ensures Fair(o', o'.clients[x]) {
      assert x != l ==> Fair(o, o.clients[x]);
    }
  }

  // ---------------------------------------------------------------- runs

  function Exec<L(==)>(ss: seq<Step<L>>): Object<L>
  {
    if ss == [] then Fresh() else Apply(Exec(ss[..|ss| - 1]), ss[|ss| - 1])
  }

  ghost predicate Possible<L>(ss: seq<Step<L>>)
  {
    forall t :: 0 <= t < |ss| ==> Enabled(Exec(ss[..t]), ss[t])
  }

  lemma PossibleInit<L>(ss: seq<Step<L>>)
    requires Possible(ss) && ss != []
    ensures Possible(ss[..|ss| - 1]) && Enabled(Exec(ss[..|ss| - 1]), ss[|ss| - 1])
  {
    var init := ss[..|ss| - 1];
    forall t | 0 <= t < |init| ensures Enabled(Exec(init[..t]), init[t]) {
      assert init[..t] == ss[..t];
    }
  }

  /** Every step of the run is guarded. */
  ghost predicate Clean<L>(ss: seq<Step<L>>)
  {
    forall t :: 0 <= t < |ss| ==> Guarded(Exec(ss[..t]), ss[t])
  }

  lemma CleanPrefix<L>(ss: seq<Step<L>>, t: nat)
    requires Clean(ss) && t <= |ss|
    ensures Clean(ss[..t])
  {
    forall u | 0 <= u < t ensures Guarded(Exec(ss[..t][..u]), ss[..t][u]) {
      assert ss[..t][..u] == ss[..u];
    }
  }

  /** In every clean run: a registered listener has received exactly the current bytes, every
      client a prefix of them and at most one notice, and on completion the full value. */
  lemma {:induction false} RunInv<L(!new)>(ss: seq<Step<L>>)
    requires Possible(ss) && Clean(ss)
    ensures Inv(Exec(ss))
  {
    hide Apply, Enabled, Guarded;
    if ss != [] {
      PossibleInit(ss);
      CleanPrefix(ss, |ss| - 1);
      RunInv(ss[..|ss| - 1]);
      StepExact(Exec(ss[..|ss| - 1]), ss[|ss| - 1]);
    }
  }

  /** No step takes a notice back. */
  lemma StepNotices<L(!new)>(o: Object<L>, s: Step<L>, l: L)
    requires Enabled(o, s) && l in o.clients
    ensures l in Apply(o, s).clients && |Apply(o, s).clients[l].notices| >= |o.clients[l].notices|
  {
  }

  lemma {:induction false} RunNotices<L(!new)>(ss: seq<Step<L>>, t: nat, l: L)
    requires Possible(ss) && t <= |ss| && l in Exec(ss[..t]).clients
    ensures l in Exec(ss).clients && |Exec(ss).clients[l].notices| >= |Exec(ss[..t]).clients[l].notices|
    decreases |ss|
  {
    hide Apply, Enabled;
    if t == |ss| {
      assert ss[..t] == ss;
    } else {
      var init := ss[..|ss| - 1];
      PossibleInit(ss);
      assert init[..t] == ss[..t];
      RunNotices(init, t, l);
      StepNotices(Exec(init), ss[|ss| - 1], l);
    }
  }

  /** The invariant holds at the end of a run exactly if the run is clean. */
  lemma {:induction false} RunInvExact<L(!new)>(ss: seq<Step<L>>)
    requires Possible(ss)
    ensures Inv(Exec(ss)) <==> Clean(ss)
  {
    if Clean(ss) {
      RunInv(ss);
    } else {
      var l := TwoNotices(ss);
      assert !Fair(Exec(ss), Exec(ss).clients[l]);
    }
  }

  /** A run that is not clean ends with a client that has had two notices. */
  lemma {:induction false} TwoNotices<L(!new)>(ss: seq<Step<L>>) returns (l: L)
    requires Possible(ss) && !Clean(ss)
    ensures l in Exec(ss).clients && |Exec(ss).clients[l].notices| >= 2
  {
    hide Apply, Enabled, Guarded, Inv, Clean;
    CleanEmpty<L>();
    assert ss != [];
    var init, last := ss[..|ss| - 1], ss[|ss| - 1];
    PossibleInit(ss);
    if Clean(init) {
      RunInv(init);
      if Guarded(Exec(init), last) { CleanSnoc(ss); }
      l := SecondNotice(Exec(init), last);
    } else {
      l := TwoNotices(init);
      StepNotices(Exec(init), last, l);
    }
  }

  lemma CleanEmpty<L>()
    ensures Clean<L>([])
  {
  }

  lemma CleanSnoc<L>(ss: seq<Step<L>>)
    requires ss != [] && Clean(ss[..|ss| - 1]) && Guarded(Exec(ss[..|ss| - 1]), ss[|ss| - 1])
    ensures Clean(ss)
  {
    var init := ss[..|ss| - 1];
    forall t | 0 <= t < |ss| ensures Guarded(Exec(ss[..t]), ss[t]) {
      assert t < |init| ==> init[..t] == ss[..t] && init[t] == ss[t];
    }
  }

  lemma SecondNotice<L(!new)>(o: Object<L>, s: Step<L>) returns (l: L)
    requires Inv(o) && Enabled(o, s) && !Guarded(o, s)
    ensures l in Apply(o, s).clients && Apply(o, s).clients[l].notices == [Notice.Error, Complete(0)]
  {
    l :| l in o.listeners && l !in s.refused;
    assert UpToDate(o, l);
    WithoutIn(o.listeners, s.refused, l);
  }

  lemma ExecOne<L>(s: Step<L>)
    ensures Exec([s]) == Apply(Fresh(), s)
  {
    var none: seq<Step<L>> := [s][..0];
    assert none == [];
    assert Exec(none) == Fresh();
  }

  /** A client that joins before an empty value comes from storage is told twice. */
  lemma EmptyValueNotifiesTwice<L(!new)>(l: L)
    ensures var ss := [Join(l), Local(Some([]), {})];
            && Possible(ss) && l in Exec(ss).clients
            && Exec(ss).clients[l].notices == [Notice.Error, Complete(0)]
  {
    var s1, s2 := Join(l), Local(Some([]), {});
    var ss := [s1, s2];
    assert ss[..0] == [] && ss[..1] == [s1];
    ExecOne(s1);
    var o := Exec([s1]);
    assert o.listeners == [l] && l in o.clients && o.clients[l] == Client([], []);
    WithoutIn(o.listeners, {}, l);
    forall t | 0 <= t < |ss| ensures Enabled(Exec(ss[..t]), ss[t]) {
      assert t == 0 || t == 1;
    }
  }

  /** A client only ever gets more, and nothing once it is not registered; a complete object
      does not change. */
  ghost predicate Onward<L>(o: Object<L>, o': Object<L>, l: L)
  {
    && (l in o.clients ==>
          l in o'.clients && o.clients[l].got <= o'.clients[l].got && o.clients[l].notices <= o'.clients[l].notices)
    && (l in o.clients && l !in o.listeners ==> l !in o'.listeners && o'.clients[l] == o.clients[l])
    && (o.complete ==> o'.complete && o'.data == o.data)
  }

  lemma StepOnward<L(!new)>(o: Object<L>, s: Step<L>, l: L)
    requires Enabled(o, s) && (o.complete ==> !o.fetching)
    ensures Onward(o, Apply(o, s), l)
  {
    match s
    case Join(x) =>
    case Begin =>
    case Piece(data, refused) => AppendedOnward(o, data, refused, l);
    case Finish =>
    case Fail =>
    case Local(None, _) =>
    case Local(Some(v), refused) => HandedOnward(o, v, refused, l);
  }

  lemma HandedOnward<L(!new)>(o: Object<L>, piece: Bytes, refused: set<L>, l: L)
    requires !o.complete
    ensures Onward(o, Handed(o, piece, refused), l)
  {
    WithoutIn(o.listeners, refused, l);
  }

  lemma AppendedOnward<L(!new)>(o: Object<L>, piece: Bytes, refused: set<L>, l: L)
    requires !o.complete
    ensures Onward(o, Appended(o, piece, refused), l)
  {
    WithoutIn(o.listeners, refused, l);
  }

  lemma {:induction false} RunComplete<L(!new)>(ss: seq<Step<L>>)
    requires Possible(ss)
    ensures Exec(ss).complete ==> !Exec(ss).fetching
  {
    if ss != [] {
      PossibleInit(ss);
      RunComplete(ss[..|ss| - 1]);
    }
  }

  /** Over a whole run, clean or not: bytes come in order, an unregistered client gets nothing,
      and a complete value stays. */
  lemma {:induction false} RunOnward<L(!new)>(ss: seq<Step<L>>, t: nat, l: L)
    requires Possible(ss) && t <= |ss|
    ensures Onward(Exec(ss[..t]), Exec(ss), l)
    decreases |ss|
  {
    hide Inv, Apply, Enabled;
    if t == |ss| {
      assert ss[..t] == ss;
    } else {
      var init := ss[..|ss| - 1];
      PossibleInit(ss);
      RunOnward(init, t, l);
      assert init[..t] == ss[..t];
      RunComplete(init);
      StepOnward(Exec(init), ss[|ss| - 1], l);
    }
  }

  /** In a clean run a client that has had its notice is never given anything again. */
  lemma NothingAfterNotice<L(!new)>(ss: seq<Step<L>>, t: nat, l: L)
    requires Possible(ss) && Clean(ss) && t <= |ss|
    requires l in Exec(ss[..t]).clients && Exec(ss[..t]).clients[l].notices != []
    ensures l in Exec(ss).clients && Exec(ss).clients[l] == Exec(ss[..t]).clients[l]
  {
    var o := Exec(ss[..t]);
    PossiblePrefix(ss, t);
    CleanPrefix(ss, t);
    RunInv(ss[..t]);
    assert l in o.listeners ==> UpToDate(o, l);
    RunOnward(ss, t, l);
  }

  lemma PossiblePrefix<L>(ss: seq<Step<L>>, t: nat)
    requires Possible(ss) && t <= |ss|
    ensures Possible(ss[..t])
  {
    forall u | 0 <= u < t ensures Enabled(Exec(ss[..t][..u]), ss[..t][u]) {
      assert ss[..t][..u] == ss[..u];
    }
  }

  // ---------------------------------------------------------------- everybody is told

  /** What a step does to the object itself. */
  lemma StepItself<L(!new)>(o: Object<L>, s: Step<L>)
    ensures var o' := Apply(o, s);
            && o'.fetching == (s.Begin? || (o.fetching && !s.Finish? && !s.Fail? && !s.Local?))
            && o'.complete == (o.complete || s.Finish? || s.Local?)
            && o'.present == (o.present || s.Piece? || (s.Local? && s.value.Some?))
            && (s.Piece? ==> o'.data == o.data + s.data)
            && (s.Local? && s.value.Some? ==> o'.data == o.data + s.value.value)
            && (!s.Piece? && !(s.Local? && s.value.Some?) ==> o'.data == o.data)
  {
  }

  /** The callback of `l` returns an error for a piece of the run. */
  ghost predicate Refuses<L>(ss: seq<Step<L>>, l: L)
  {
    exists t :: 0 <= t < |ss| && RefusedAt(ss[t], l)
  }

  predicate RefusedAt<L(==)>(s: Step<L>, l: L)
  {
    (s.Piece? || s.Local?) && l in s.refused
  }

  /** A client listens, with all there is and no notice, or has had its notice: an error after a
      failure, or the completion. */
  ghost predicate Served<L>(o: Object<L>, l: L, failed: bool)
  {
    && l in o.clients
    && if l in o.listeners then o.clients[l] == Client(o.data, [])
       else
         && |o.clients[l].notices| == 1
         && (o.clients[l].notices[0].Complete? || failed)
  }

  lemma StepServes<L(!new)>(o: Object<L>, s: Step<L>, l: L, failed: bool)
    requires Inv(o) && Enabled(o, s) && Guarded(o, s) && !RefusedAt(s, l)
    requires l in o.clients ==> Served(o, l, failed)
    ensures var o' := Apply(o, s);
            && (l in o'.clients <==> l in o.clients || s == Join(l))
            && (l in o'.clients ==> Served(o', l, failed || s.Fail?))
  {
    var o' := Apply(o, s);
    if s.Piece? { WithoutIn(o.listeners, s.refused, l); }
    if s.Local? && s.value.Some? { WithoutIn(o.listeners, s.refused, l); }
    if l in o.clients {
      assert Fair(o, o.clients[l]);
      if l !in o.listeners { assert o'.clients[l] == o.clients[l]; }
    }
  }

  /** In every clean run the clients are exactly those that have asked, and whoever has refused
      nothing still listens with all the bytes there are, or has had exactly one notice: of the
      completion, unless the fetch has failed. */
  lemma {:induction false} EverybodyServed<L(!new)>(ss: seq<Step<L>>, l: L)
    requires Possible(ss) && Clean(ss) && !Refuses(ss, l)
    ensures l in Exec(ss).clients <==> Join(l) in ss
    ensures Join(l) in ss ==> Served(Exec(ss), l, Fail in ss)
  {
    hide Apply, Enabled, Guarded, Served, RefusedAt;
    if ss != [] {
      var n := |ss| - 1;
      var init, last := ss[..n], ss[n];
      assert ss == init + [last];
      PossibleInit(ss);
      CleanPrefix(ss, n);
      assert Guarded(Exec(init), last) && !RefusedAt(last, l);
      forall t | 0 <= t < n ensures !RefusedAt(init[t], l) { assert !RefusedAt(ss[t], l); }
      EverybodyServed(init, l);
      RunInv(init);
      StepServes(Exec(init), last, l, Fail in init);
    }
  }
}
