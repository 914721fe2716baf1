/** Moving keys to the nodes that own them under a new continuum. */
module Migration {
  import opened Wrappers
  import opened ConsistentHash

  type Key = string
  type Value = seq<char>

  datatype Node = Node(title: string)

  /** `is_mine` of `shardcache_test_migration_ownership`: -1 without a continuum. With a single
      shard every key is taken for its own. */
  function TestOwnership(shards: nat, continuum: Option<seq<Bucket>>, h: Hash, key: Key, me: string): (int, string)
  {
    if shards == 1 then (1, "")
    else if continuum.None? then (-1, "")
    else
      var owner := Owner(continuum.value, h(key));
      if owner.None? then (-1, "") else (if owner.value == me then 1 else 0, owner.value)
  }

  /** The values a peer has acknowledged: who, and what. */
  datatype Ack = Ack(peer: string, value: Value)

  /** What is stored here and what others have acknowledged, at one moment. */
  datatype Moment = Moment(storage: map<Key, Value>, acked: map<Key, Ack>)

  /** Every value that was here at the start is still here, or its owner has it. */
  ghost predicate Safe(start: map<Key, Value>, ring: seq<Bucket>, h: Hash, m: Moment)
  {
    forall k :: k in start ==>
      || (k in m.storage && m.storage[k] == start[k])
      || (k in m.acked && Some(m.acked[k].peer) == Owner(ring, h(k)) && m.acked[k].value == start[k])
  }

  /** No key appears or changes here. */
  ghost predicate Shrinks(start: map<Key, Value>, m: Moment)
  {
    forall k :: k in m.storage ==> k in start && m.storage[k] == start[k]
  }

  /** A call that the migrator makes, with what it comes back with: a look for the continuum, the fetch
      callback, the transfer to a peer, the remove callback. */
  datatype Call =
    | Looks(there: bool)
    | Fetches(key: Key, rc: int)
    | Sends(peer: Node, key: Key, value: Value, rc: int)
    | Removes(key: Key, done: bool)

  /** The first node with a label. */
  function Named(nodes: seq<Node>, title: string): Option<Node>
  {
    if nodes == [] then None else if nodes[0].title == title then Some(nodes[0]) else Named(nodes[1..], title)
  }

  lemma {:induction false} NamedFirst(nodes: seq<Node>, i: nat)
    requires i < |nodes| && forall j :: 0 <= j < i ==> nodes[j].title != nodes[i].title
    ensures Named(nodes, nodes[i].title) == Some(nodes[i])
  {
    if i > 0 {
      assert nodes[0].title != nodes[i].title;
      NamedFirst(nodes[1..], i - 1);
    }
  }

  lemma {:induction false} NamedNone(nodes: seq<Node>, title: string)
    requires forall j :: 0 <= j < |nodes| ==> nodes[j].title != title
    ensures Named(nodes, title) == None
  {
    if nodes != [] {
      assert nodes[0].title != title;
      NamedNone(nodes[1..], title);
    }
  }

  /** The value was acknowledged by the last of the calls for a key. */
  predicate Acknowledged(x: seq<Call>)
  {
    x != [] && x[|x| - 1].Sends? && x[|x| - 1].rc == 0
  }

  /** The errors of the calls for a key: the fetch or the transfer fails, or there is no node. */
  function Failed(x: seq<Call>): nat
  {
    if x == [] then 0
    else
      match x[|x| - 1]
      case Looks(_) => if |x| > 1 then 1 else 0
      case Fetches(_, rc) => if rc == -1 then 1 else 0
      case Sends(_, _, _, rc) => if rc == 0 then 0 else 1
      case Removes(_, _) => 0
  }

  /** The calls of all keys one after the other, and their errors. */
  function Flat(xs: seq<seq<Call>>): seq<Call>
  {
    if xs == [] then [] else Flat(xs[..|xs| - 1]) + xs[|xs| - 1]
  }

  function Errors(xs: seq<seq<Call>>): nat
  {
    if xs == [] then 0 else Errors(xs[..|xs| - 1]) + Failed(xs[|xs| - 1])
  }

  /** The keys whose value was acknowledged, in order. */
  function Marked(index: seq<Key>, xs: seq<seq<Call>>): seq<Key>
    requires |xs| == |index|
  {
    if xs == [] then []
    else
      var n := |xs| - 1;
      Marked(index[..n], xs[..n]) + if Acknowledged(xs[n]) then [index[n]] else []
  }

  lemma Longer(index: seq<Key>, i: nat, xs: seq<seq<Call>>, x: seq<Call>)
    requires i == |xs| < |index|
    ensures Flat(xs + [x]) == Flat(xs) + x && Errors(xs + [x]) == Errors(xs) + Failed(x)
    ensures Marked(index[..i + 1], xs + [x]) == Marked(index[..i], xs) + if Acknowledged(x) then [index[i]] else []
  {
    assert (xs + [x])[..i] == xs && index[..i + 1][..i] == index[..i];
  }

  class Migrator {
    const me: string
    const hash: Hash
    const ring: seq<Bucket>
    const shards: seq<Node>
    const migrationShards: seq<Node>
    const canFetch: bool
    const canRemove: bool

    var storage: map<Key, Value>
    // The volatile keys with the time each expires at.
    var volatile: map<Key, nat>
    var acked: map<Key, Ack>
    var errors: nat
    var migrated: nat

    // The calls made so far.
    var calls: seq<Call>

    // The moments of the pass so far.
    ghost var history: seq<Moment>

    constructor (me: string, hash: Hash, ring: seq<Bucket>, shards: seq<Node>, migrationShards: seq<Node>,
                 canFetch: bool, canRemove: bool, storage: map<Key, Value>, volatile: map<Key, nat>)
      ensures this.storage == storage && this.volatile == volatile && acked == map[] && history == [] && calls == []
      ensures this.ring == ring && this.hash == hash
    {
      this.me, this.hash, this.ring, this.shards, this.migrationShards := me, hash, ring, shards, migrationShards;
      this.canFetch, this.canRemove, this.storage, this.volatile := canFetch, canRemove, storage, volatile;
      acked, errors, migrated, calls, history := map[], 0, 0, [], [];
    }

    ghost function Now(): Moment
      reads `storage, `acked
    {
      Moment(storage, acked)
    }

    /** What holds at every moment of a pass that began with `start`. */
    ghost predicate Sound(start: map<Key, Value>)
      reads `storage, `acked, `history
    {
      && Safe(start, ring, hash, Now()) && Shrinks(start, Now())
      && forall m :: m in history ==> Safe(start, ring, hash, m)
    }

    /** Every acknowledgement is of a value that was here, by its owner. */
    ghost predicate Confirmed(start: map<Key, Value>)
      reads `acked
    {
      forall k :: k in acked ==>
        k in start && Some(acked[k].peer) == Owner(ring, hash(k)) && acked[k].value == start[k]
    }

    /** Whether the continuum is still there is not up to the migrator. */
    method Look() returns (there: bool)
      modifies `calls
      ensures calls == old(calls) + [Looks(there)]
    {
      there := *;
      calls := calls + [Looks(there)];
    }

    /** The calls of an ownership test, and what it finds. */
    ghost predicate Tested(key: Key, x: seq<Call>, isMine: int, name: string)
    {
      if |shards| == 1 then x == [] && (isMine, name) == TestOwnership(1, None, hash, key, me)
      else
        && |x| == 1 && x[0].Looks?
        && (isMine, name) == TestOwnership(|shards|, if x[0].there then Some(ring) else None, hash, key, me)
    }

    method Ownership(key: Key) returns (isMine: int, name: string, ghost x: seq<Call>)
      modifies `calls
      ensures calls == old(calls) + x && Tested(key, x, isMine, name)
      ensures isMine in {-1, 0, 1}
      ensures isMine == 0 ==> Some(name) == Owner(ring, hash(key)) && name != me && |shards| != 1
      ensures isMine == 1 ==> |shards| == 1 || Owner(ring, hash(key)) == Some(me)
    {
      x := [];
      var there := false;
      if |shards| != 1 {
        there := Look();
        x := [Looks(there)];
      }
      var r := TestOwnership(|shards|, if there then Some(ring) else None, hash, key, me);
      isMine, name := r.0, r.1;
    }

    /** The nodes that can be selected: those of a migration only while its continuum is there. */
    function Nodes(there: bool): seq<Node>
    {
      if there then shards + migrationShards else shards
    }

    /** `shardcache_node_select`: the first node with a label, the old shards first. `there` is that
        the continuum was found to be there. */
    method NodeSelect(title: string) returns (node: Option<Node>, there: bool)
      modifies `calls
      ensures calls == old(calls) + [Looks(there)] && node == Named(Nodes(there), title)
      ensures node.Some? ==> node.value.title == title && node.value in Nodes(there)
      ensures node.None? ==> forall n :: n in Nodes(there) ==> n.title != title
    {
      node := None;
      ghost var at := 0;
      for i := 0 to |shards|
        invariant node.None? && forall j :: 0 <= j < i ==> shards[j].title != title
      {
        if shards[i].title == title {
          node, at := Some(shards[i]), i;
          break;
        }
      }
      there := Look();
      if there && node.None? {
        for i := 0 to |migrationShards|
          invariant calls == old(calls) + [Looks(there)]
          invariant node.None? && forall j :: 0 <= j < i ==> migrationShards[j].title != title
        {
          if migrationShards[i].title == title {
            node, at := Some(migrationShards[i]), |shards| + i;
            break;
          }
        }
      }
      if node.Some? { NamedFirst(Nodes(there), at); } else { NamedNone(Nodes(there), title); }
    }

    /** The fetch callback of the storage, which may fail. */
    method Fetch(key: Key) returns (rc: int, value: Option<Value>)
      modifies `calls
      ensures calls == old(calls) + [Fetches(key, rc)]
      ensures rc != -1 && value.Some? ==> key in storage && value.value == storage[key]
      ensures rc != -1 && value.None? ==> key !in storage
    {
      var fails: bool := *;
      if fails {
        rc, value := -1, None;
      } else if key in storage {
        rc, value := 0, Some(storage[key]);
      } else {
        rc, value := 0, None;
      }
      calls := calls + [Fetches(key, rc)];
    }

    /** `send_to_peer`: 0 is the acknowledgement of the peer. */
    method Send(peer: Node, key: Key, value: Value) returns (rc: int)
      modifies `acked, `calls
      ensures calls == old(calls) + [Sends(peer, key, value, rc)]
      ensures acked == if rc == 0 then old(acked)[key := Ack(peer.title, value)] else old(acked)
    {
      rc := *;
      calls := calls + [Sends(peer, key, value, rc)];
      if rc == 0 {
        acked := acked[key := Ack(peer.title, value)];
      }
    }

    /** The calls for a key that belongs to the node `name`: the value is fetched and sent to the first
        node with that name. */
    ghost predicate Copied(start: map<Key, Value>, key: Key, name: string, x: seq<Call>)
    {
      if !canFetch then x == []
      else
        && x != [] && x[0].Fetches? && x[0].key == key
        && if x[0].rc == -1 || key !in start then |x| == 1
           else
             && |x| > 1 && x[1].Looks?
             && var node := Named(Nodes(x[1].there), name);
                if node.None? then |x| == 2
                else |x| == 3 && x[2].Sends? && x[2] == Sends(node.value, key, start[key], x[2].rc)
    }

    /** One key of the index: copied to its new owner, if that is another node. */
    method MigrateKey(key: Key, name: string, ghost start: map<Key, Value>) returns (ok: bool, ghost x: seq<Call>)
      requires Sound(start) && storage == start && Some(name) == Owner(ring, hash(key))
      modifies `acked, `errors, `migrated, `calls
      ensures calls == old(calls) + x && Copied(start, key, name, x)
      ensures ok == Acknowledged(x) && (x == [] || !x[0].Looks?) && errors == old(errors) + Failed(x)
      ensures Sound(start)
      ensures ok ==> key in acked && key in start && acked[key] == Ack(name, start[key])
      ensures acked == if ok then old(acked)[key := acked[key]] else old(acked)
      ensures !ok && errors == old(errors) ==> !canFetch || key !in start
      ensures errors >= old(errors) && migrated == old(migrated) + (if ok then 1 else 0)
    {
      ok, x := false, [];
      var value: Option<Value> := None;
      if canFetch {
        var rc;
        rc, value := Fetch(key);
        x := [Fetches(key, rc)];
        if rc == -1 {
          errors := errors + 1;
          return;
        }
      }
      if value.Some? {
        var peer, there := NodeSelect(name);
        x := x + [Looks(there)];
        if peer.Some? {
          var rc := Send(peer.value, key, value.value);
          x := x + [Sends(peer.value, key, value.value, rc)];
          if rc == 0 {
            migrated := migrated + 1;
            ok := true;
          } else {
            errors := errors + 1;
          }
        } else {
          errors := errors + 1;
        }
      }
    }

    ghost method Note(start: map<Key, Value>)
      requires Sound(start)
      modifies `history
      ensures Sound(start) && history == old(history) + [Now()]
    {
      history := history + [Now()];
    }

    /** Nothing that is indexed, readable and owned by another node was left unsent. */
    ghost predicate Covered(index: seq<Key>, start: map<Key, Value>)
      reads `acked
    {
      canFetch && |shards| != 1 ==>
        forall k :: k in index && k in start && Owner(ring, hash(k)) != Some(me) ==> k in acked
    }

    /** The calls for a key of the index: the ownership test and, for a key of another node, the copy. */
    ghost predicate Handled(start: map<Key, Value>, key: Key, x: seq<Call>)
    {
      if |shards| == 1 then x == []
      else
        && x != [] && x[0] == Looks(true) && Owner(ring, hash(key)).Some?
        && if Owner(ring, hash(key)) == Some(me) then |x| == 1
           else Copied(start, key, Owner(ring, hash(key)).value, x[1..])
    }

    /** The test that stops the pass finds no continuum, or an empty one. */
    ghost predicate Lost(key: Key, x: seq<Call>)
    {
      && |shards| != 1 && |x| == 1 && x[0].Looks?
      && (x[0].there ==> Owner(ring, hash(key)) == None)
    }

    /** One turn of the scan. */
    method ScanKey(key: Key, ghost start: map<Key, Value>) returns (stop: bool, ok: bool, ghost x: seq<Call>)
      requires Sound(start) && storage == start && Confirmed(start)
      modifies `acked, `errors, `migrated, `calls
      ensures Sound(start) && Confirmed(start) && calls == old(calls) + x
      ensures if stop then Lost(key, x) && !ok else Handled(start, key, x) && ok == Acknowledged(x)
      ensures errors == old(errors) + if stop then 1 else Failed(x)
      ensures acked.Keys == old(acked).Keys + if ok then {key} else {}
      ensures !stop && errors == old(errors) ==> ok || Covered([key], start)
    {
      stop, ok := false, false;
      var isMine, name;
      isMine, name, x := Ownership(key);
      if isMine == -1 {
        errors := errors + 1;
        stop := true;
      } else if isMine == 0 {
        ghost var y;
        ok, y := MigrateKey(key, name, start);
        After(x, y);
        x := x + y;
      }
    }

    lemma After(x: seq<Call>, y: seq<Call>)
      requires |x| == 1 && x[0].Looks? && (y == [] || !y[0].Looks?)
      ensures (x + y)[1..] == y && Acknowledged(x + y) == Acknowledged(y) && Failed(x + y) == Failed(y)
    {
      if y != [] { assert (x + y)[|y|] == y[|y| - 1]; }
    }

    /** Every key of `index` has been handled. */
    ghost predicate InTurn(start: map<Key, Value>, index: seq<Key>, xs: seq<seq<Call>>)
    {
      |xs| == |index| && forall i :: 0 <= i < |index| ==> Handled(start, index[i], xs[i])
    }

    lemma TurnMore(start: map<Key, Value>, index: seq<Key>, i: nat, xs: seq<seq<Call>>, x: seq<Call>)
      requires i < |index| && InTurn(start, index[..i], xs) && Handled(start, index[i], x)
      ensures InTurn(start, index[..i + 1], xs + [x])
    {
      hide Handled;
      forall j | 0 <= j < i + 1 ensures Handled(start, index[..i + 1][j], (xs + [x])[j]) {
        assert j < i ==> Handled(start, index[..i][j], xs[j]);
      }
    }

    /** The scan of the index: the keys are handled in turn, nothing is deleted, and exactly the
        acknowledged keys are to be. `xs` are the calls for each key, `y` those of a test that stops
        it. */
    method Scan(index: seq<Key>)
      returns (aborted: bool, toDelete: seq<Key>, ghost xs: seq<seq<Call>>, ghost y: seq<Call>)
      requires Sound(storage) && acked == map[]
      modifies `acked, `errors, `migrated, `calls, `history
      ensures |xs| <= |index| && InTurn(storage, index[..|xs|], xs) && (aborted <==> |xs| < |index|)
      ensures if aborted then Lost(index[|xs|], y) else y == []
      ensures calls == old(calls) + Flat(xs) + y && toDelete == Marked(index[..|xs|], xs)
      ensures errors == old(errors) + Errors(xs) + if aborted then 1 else 0
      ensures Sound(old(storage)) && old(history) <= history
      ensures !aborted ==> |history| == |old(history)| + |index|
      ensures !aborted && errors == old(errors) ==> Covered(index, storage)
      ensures forall k :: k in toDelete <==> k in acked
      ensures Confirmed(storage)
    {
      hide Sound, Handled, InTurn, Flat, Marked, Errors, Acknowledged, Failed, Lost;
      toDelete, aborted, xs, y := [], false, [], [];
      NoTurn(index);
      for i := 0 to |index|
        invariant |xs| == i && InTurn(storage, index[..i], xs)
        invariant calls == old(calls) + Flat(xs) && toDelete == Marked(index[..i], xs)
        invariant errors == old(errors) + Errors(xs)
        invariant Sound(storage) && old(history) <= history && |history| == |old(history)| + i
        invariant errors == old(errors) ==> Covered(index[..i], storage)
        invariant forall k :: k in toDelete <==> k in acked
        invariant Confirmed(storage)
      {
        assert index[..i + 1] == index[..i] + [index[i]];
        var stop, ok;
        ghost var x;
        stop, ok, x := ScanKey(index[i], storage);
        if stop {
          aborted, y := true, x;
          return;
        }
        if ok {
          toDelete := toDelete + [index[i]];
        }
        Longer(index, i, xs, x);
        TurnMore(storage, index, i, xs, x);
        xs := xs + [x];
        Note(storage);
      }
      assert index[..|index|] == index;
    }

    lemma NoTurn(index: seq<Key>)
      ensures InTurn(storage, index[..0], []) && Flat([]) == [] && Marked(index[..0], []) == [] && Errors([]) == 0
    {
    }

    /** The keys of `deleted` whose removal has succeeded. */
    ghost function Gone(deleted: seq<Key>, removed: seq<bool>): set<Key>
      requires |removed| == |deleted|
    {
      set i | 0 <= i < |deleted| && removed[i] :: deleted[i]
    }

    /** The moments after each removal. */
    ghost function Removals(start: map<Key, Value>, deleted: seq<Key>, removed: seq<bool>): (r: seq<Moment>)
      requires |removed| == |deleted|
      reads `acked
      ensures |r| == |deleted|
    {
      if deleted == [] then []
      else Removals(start, deleted[..|deleted| - 1], removed[..|deleted| - 1])
           + [Moment(start - Gone(deleted, removed), acked)]
    }

    lemma RemovesOne(start: map<Key, Value>, keys: seq<Key>, removed: seq<bool>, i: nat, done: bool)
      requires i == |removed| < |keys|
      ensures var after := Gone(keys[..i + 1], removed + [done]);
              && after == Gone(keys[..i], removed) + (if done then {keys[i]} else {})
              && Removals(start, keys[..i + 1], removed + [done]) ==
                 Removals(start, keys[..i], removed) + [Moment(start - after, acked)]
    {
      var k', r' := keys[..i + 1], removed + [done];
      assert k'[..i] == keys[..i] && r'[..i] == removed;
      forall k ensures k in Gone(k', r') <==> k in Gone(keys[..i], removed) || (done && k == keys[i]) {
        if k in Gone(keys[..i], removed) {
          var j :| 0 <= j < i && removed[j] && keys[..i][j] == k;
          assert r'[j] && k'[j] == k;
        }
        assert done ==> r'[i] && k'[i] == keys[i];
      }
    }

    /** The remove callback of the storage, whose result nobody looks at. */
    method RemoveKey(key: Key) returns (ghost done: bool)
      modifies `storage, `calls
      ensures calls == old(calls) + if canRemove then [Removes(key, done)] else []
      ensures storage == if done then old(storage) - {key} else old(storage)
      ensures done ==> canRemove
    {
      done := false;
      if canRemove {
        var fails: bool := *;
        if !fails {
          storage := storage - {key};
        }
        done := !fails;
        calls := calls + [Removes(key, !fails)];
      }
    }

    /** The calls of the deletion pass. */
    ghost function Removing(keys: seq<Key>, removed: seq<bool>): seq<Call>
      requires |removed| == |keys|
    {
      if keys == [] || !canRemove then []
      else
        var n := |keys| - 1;
        Removing(keys[..n], removed[..n]) + [Removes(keys[n], removed[n])]
    }

    /** One removal of the pass, after those of `removed`. */
    method DeleteOne(toDelete: seq<Key>, i: nat, ghost start: map<Key, Value>, ghost removed: seq<bool>)
      returns (ghost done: bool)
      requires Sound(start) && Confirmed(start) && i == |removed| < |toDelete| && toDelete[i] in acked
      requires storage == start - Gone(toDelete[..i], removed)
      modifies `storage, `calls, `history
      ensures Sound(start) && (done ==> canRemove)
      ensures calls == old(calls) + if canRemove then [Removes(toDelete[i], done)] else []
      ensures storage == start - Gone(toDelete[..i + 1], removed + [done])
      ensures history == old(history) + [Moment(storage, acked)]
    {
      done := RemoveKey(toDelete[i]);
      RemovesOne(start, toDelete, removed, i, done);
      hide Gone, Removals;
      assert storage == start - Gone(toDelete[..i + 1], removed + [done]);
      Note(start);
    }

    lemma RemovingMore(keys: seq<Key>, i: nat, removed: seq<bool>, done: bool)
      requires i == |removed| < |keys|
      ensures Removing(keys[..i + 1], removed + [done])
           == Removing(keys[..i], removed) + if canRemove then [Removes(keys[i], done)] else []
    {
      assert keys[..i + 1][..i] == keys[..i] && (removed + [done])[..i] == removed;
    }

    /** The deletion pass: the moment after each removal is noted. */
    method Delete(toDelete: seq<Key>, ghost start: map<Key, Value>) returns (ghost removed: seq<bool>)
      requires Sound(start) && storage == start
      requires Confirmed(start) && forall k :: k in toDelete ==> k in acked
      modifies `storage, `calls, `history
      ensures Sound(start) && |removed| == |toDelete| && (true in removed ==> canRemove)
      ensures calls == old(calls) + Removing(toDelete, removed)
      ensures history == old(history) + Removals(start, toDelete, removed)
      ensures storage == start - Gone(toDelete, removed)
    {
      hide Sound, Confirmed;
      removed := [];
      assert Gone(toDelete[..0], []) == {} && Removing(toDelete[..0], []) == [];
      hide Gone, Removing, Removals;
      for i := 0 to |toDelete|
        invariant |removed| == i && (true in removed ==> canRemove)
        invariant calls == old(calls) + Removing(toDelete[..i], removed)
        invariant Sound(start) && history == old(history) + Removals(start, toDelete[..i], removed)
        invariant storage == start - Gone(toDelete[..i], removed)
      {
        ghost var done := DeleteOne(toDelete, i, start, removed);
        RemovesOne(start, toDelete, removed, i, done);
        RemovingMore(toDelete, i, removed, done);
        removed := removed + [done];
        assert history == old(history) + Removals(start, toDelete[..i + 1], removed);
      }
      assert toDelete[..|toDelete|] == toDelete;
    }

    /** From `v` to `v'` only keys of other nodes may have been made to expire. */
    ghost predicate ExpiresOthers(v: map<Key, nat>, v': map<Key, nat>)
    {
      && v'.Keys == v.Keys
      && forall k :: k in v ==> v'[k] == v[k] || (v'[k] == 0 && |shards| != 1 && Owner(ring, hash(k)) != Some(me))
    }

    ghost predicate OthersExpired()
      reads this
    {
      |shards| != 1 ==> forall k :: k in volatile && Owner(ring, hash(k)) != Some(me) ==> volatile[k] == 0
    }

    /** `expire_migrated` over the volatile keys, in any order. It stops where the continuum is
        found to be gone. */
    method ExpireMigrated() returns (stopped: bool, ghost y: seq<Call>)
      modifies `volatile, `calls
      ensures calls == old(calls) + y && forall i :: 0 <= i < |y| ==> y[i].Looks?
      ensures stopped ==> y != [] && exists k :: k in volatile && Lost(k, y[|y| - 1..])
      ensures ExpiresOthers(old(volatile), volatile)
      ensures !stopped ==> OthersExpired()
    {
      var rest := volatile.Keys;
      y := [];
      while rest != {}
        invariant calls == old(calls) + y && forall i :: 0 <= i < |y| ==> y[i].Looks?
        invariant rest <= volatile.Keys && ExpiresOthers(old(volatile), volatile)
        invariant |shards| != 1 ==>
                    forall k :: k in volatile && k !in rest && Owner(ring, hash(k)) != Some(me) ==> volatile[k] == 0
      {
        hide Lost;
        var k :| k in rest;
        rest := rest - {k};
        ghost var x;
        stopped, x := ExpireOne(k);
        if stopped {
          assert k in volatile && (y + x)[|y + x| - 1..] == x;
          y := y + x;
          return;
        }
        y := y + x;
      }
      stopped := false;
    }

    /** `expire_migrated` of one volatile key. */
    method ExpireOne(k: Key) returns (stopped: bool, ghost x: seq<Call>)
      requires k in volatile
      modifies `volatile, `calls
      ensures calls == old(calls) + x && |x| <= 1 && forall i :: 0 <= i < |x| ==> x[i].Looks?
      ensures stopped ==> Lost(k, x) && |x| == 1 && volatile == old(volatile)
      ensures !stopped ==>
                if |shards| != 1 && Owner(ring, hash(k)) != Some(me) then volatile == old(volatile)[k := 0]
                else volatile == old(volatile)
    {
      var isMine, name;
      isMine, name, x := Ownership(k);
      stopped := isMine == -1;
      if isMine == 0 {
        volatile := volatile[k := 0];
      }
    }

    /** `migrate`: at every moment each value is here or with its new owner, the keys are handled in
        turn, the removal of exactly the acknowledged ones is asked for, an aborted scan deletes
        nothing, and without errors nothing that belongs elsewhere is left out. `removed` tells which
        removals the storage has carried out; `xs`, `y` and `z` are the calls for each key, of a test
        that stops the scan, and of the tests of the volatile keys. */
    method Migrate(index: seq<Key>)
      returns (aborted: bool, deleted: seq<Key>, ghost removed: seq<bool>, stopped: bool,
               ghost xs: seq<seq<Call>>, ghost y: seq<Call>, ghost z: seq<Call>)
      requires acked == map[] && history == []
      modifies `storage, `volatile, `acked, `errors, `migrated, `calls, `history
      ensures Safe(old(storage), ring, hash, Now())
      ensures forall m :: m in history ==> Safe(old(storage), ring, hash, m)
      ensures |xs| <= |index| && InTurn(old(storage), index[..|xs|], xs) && (aborted <==> |xs| < |index|)
      ensures if aborted then Lost(index[|xs|], y) else y == []
      ensures |removed| == |deleted| && (true in removed ==> canRemove)
      ensures deleted == if aborted then [] else Marked(index, xs)
      ensures calls == old(calls) + Flat(xs) + y + Removing(deleted, removed) + z
      ensures forall i :: 0 <= i < |z| ==> z[i].Looks?
      ensures errors == old(errors) + Errors(xs) + if aborted then 1 else 0
      ensures !aborted ==>
                && |history| == |index| + |deleted|
                && history[|index|..] == Removals(old(storage), deleted, removed)
      ensures !aborted ==> forall k :: k in deleted <==> k in acked
      ensures ExpiresOthers(old(volatile), volatile) && (aborted ==> volatile == old(volatile) && z == [])
      ensures !aborted && !stopped ==> OthersExpired()
      ensures !aborted && errors == old(errors) ==> Covered(index, old(storage))
      ensures storage == old(storage) - Gone(deleted, removed)
      ensures !aborted && false !in removed ==> storage == old(storage) - acked.Keys
      ensures Confirmed(old(storage))
    {
      hide InTurn, Flat, Marked, Errors, Lost, OthersExpired, Removals;
      stopped, removed, z := false, [], [];
      aborted, deleted, xs, y := Scan(index);
      assert |xs| == |index| ==> index[..|xs|] == index;
      if aborted {
        deleted := [];
        assert Gone([], []) == {} && Removing([], []) == [];
      } else {
        hide Removing;
        removed := Delete(deleted, storage);
        GoneAll(deleted, removed);
        hide Gone;
        assert false !in removed ==> (set k | k in deleted) == acked.Keys;
        stopped, z := ExpireMigrated();
      }
    }

    lemma GoneAll(deleted: seq<Key>, removed: seq<bool>)
      requires |removed| == |deleted|
      ensures false !in removed ==> Gone(deleted, removed) == set k | k in deleted
    {
      if false !in removed {
        forall k | k in deleted ensures k in Gone(deleted, removed) {
          var i :| 0 <= i < |deleted| && deleted[i] == k;
          assert removed[i];
        }
      }
    }
  }
}
