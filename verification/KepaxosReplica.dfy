/** What each handler of a kepaxos replica keeps, whatever message it gets. */
module KepaxosReplica {
  import opened KepaxosModel

  /** The greatest sequence number voted for. */
  function MaxVote(votes: seq<Vote>): nat
  {
    if votes == [] then 0 else Max(MaxVote(votes[..|votes| - 1]), votes[|votes| - 1].seqno)
  }

  /** `max_seq` is the maximum of the votes since the last reset. */
  ghost predicate Tallied(c: Command)
  {
    c.maxSeq == MaxVote(c.votes)
  }

  /** The ballot of a replica carries its index, and no ballot in its table is greater. No
      logged ballot is above the recorded maximum. */
  ghost predicate Fine(r: Replica)
  {
    && r.index < 256
    && Owner(r.ballot) == r.index
    && r.ballot >= 256
    && (forall k :: k in r.log ==> r.log[k].ballot <= r.maxBallot)
    && forall k :: k in r.commands ==> FineEntry(r, r.commands[k])
  }

  ghost predicate FineEntry(r: Replica, c: Command)
  {
    c.ballot <= r.ballot && Tallied(c)
  }

  /** From `r` to `r'` the ballot and every entry that stays do not decrease. */
  ghost predicate Forward(r: Replica, r': Replica)
  {
    && r'.index == r.index && r'.peers == r.peers
    && r'.ballot >= r.ballot
    && r'.maxBallot >= r.maxBallot
    && (forall k :: k in r.commands && k in r'.commands ==>
          r'.commands[k].seqno >= r.commands[k].seqno && r'.commands[k].ballot >= r.commands[k].ballot)
  }

  /** A typed entry, which a local command made, is not behind the log. */
  ghost predicate InStep(r: Replica, k: Key)
  {
    k in r.commands && r.commands[k].ctype != 0 ==> r.commands[k].seqno >= r.LastSeq(k)
  }

  /** An entry in step stays so, and the log of its key does not go back. */
  ghost predicate Steady(r: Replica, r': Replica, k: Key)
  {
    InStep(r, k) ==> InStep(r', k) && r'.LastSeq(k) >= r.LastSeq(k)
  }

  /** The commit callback refuses an entry without a type. */
  ghost predicate CallbackRule(r: Replica, m: Message, ok: bool)
  {
    m.key in r.commands && r.commands[m.key].ctype == 0 ==> !ok
  }

  /** A recovered sequence number is not ahead of a typed entry. */
  ghost predicate RecoveryRule(r: Replica, k: Key, seqno: nat)
  {
    k in r.commands && r.commands[k].ctype != 0 ==> r.commands[k].seqno >= seqno
  }

  /** After a message the ballot of the replica is greater than the one received. */
  lemma UpdatedBallot(r: Replica, ballot: nat)
    requires Fine(r)
    ensures Fine(UpdateBallot(r, ballot)) && Forward(r, UpdateBallot(r, ballot))
    ensures UpdateBallot(r, ballot).ballot > ballot
  {
    var r' := UpdateBallot(r, ballot);
    assert ballot == Counter(ballot) * 256 + Owner(ballot);
    assert ((Counter(ballot) + 1) * 256 + r.index) % 256 == r.index;
    forall k | k in r'.commands ensures FineEntry(r', r'.commands[k]) {
      assert FineEntry(r, r.commands[k]);
    }
  }

  // ---------------------------------------------------------------- updates

  /** An entry that is new, or not behind the one it replaces. */
  lemma WithKeeps(r: Replica, k: Key, c: Command)
    requires Fine(r) && FineEntry(r, c)
    requires k in r.commands ==> c.seqno >= r.commands[k].seqno && c.ballot >= r.commands[k].ballot
    ensures Fine(r.With(k, c)) && Forward(r, r.With(k, c))
  {
    var r' := r.With(k, c);
    forall x | x in r'.commands ensures FineEntry(r', r'.commands[x]) {
      assert x != k ==> FineEntry(r, r.commands[x]);
    }
  }

  lemma DroppedKeeps(r: Replica, k: Key)
    requires Fine(r)
    ensures Fine(r.Dropped(k)) && Forward(r, r.Dropped(k))
  {
    var r' := r.Dropped(k);
    forall x | x in r'.commands ensures FineEntry(r', r'.commands[x]) {
      assert FineEntry(r, r.commands[x]);
    }
  }

  lemma LoggedKeeps(r: Replica, k: Key, e: Entry)
    requires Fine(r)
    ensures Fine(r.Logged(k, e)) && Forward(r, r.Logged(k, e))
  {
    var r' := r.Logged(k, e);
    forall x | x in r'.commands ensures FineEntry(r', r'.commands[x]) {
      assert FineEntry(r, r.commands[x]);
    }
  }

  lemma ForwardTwice(r: Replica, r': Replica, r'': Replica)
    requires Forward(r, r') && Forward(r', r'')
    requires forall x :: x in r''.commands && x in r.commands ==> x in r'.commands
    ensures Forward(r, r'')
  {
  }

  // ---------------------------------------------------------------- handlers

  lemma RunCommandKeeps(r: Replica, ctype: nat, k: Key, data: Data)
    requires Fine(r)
    ensures Fine(RunCommand(r, ctype, k, data).0) && Forward(r, RunCommand(r, ctype, k, data).0)
  {
    if k in r.commands { assert FineEntry(r, r.commands[k]); }
    WithKeeps(r, k, RunCommand(r, ctype, k, data).0.commands[k]);
  }

  lemma PreAcceptKeeps(r: Replica, m: Message)
    requires Fine(r) && r.ballot >= m.ballot
    ensures Fine(HandlePreAccept(r, m).0) && Forward(r, HandlePreAccept(r, m).0)
  {
    var r' := HandlePreAccept(r, m).0;
    if m.key in r.commands { assert FineEntry(r, r.commands[m.key]); }
    if HandlePreAccept(r, m).1.Some? {
      WithKeeps(r, m.key, r'.commands[m.key]);
    }
  }

  lemma AcceptKeeps(r: Replica, m: Message)
    requires Fine(r) && r.ballot >= m.ballot
    ensures Fine(HandleAccept(r, m).0) && Forward(r, HandleAccept(r, m).0)
  {
    var r' := HandleAccept(r, m).0;
    if m.key in r.commands { assert FineEntry(r, r.commands[m.key]); }
    if HandleAccept(r, m).1.Some? {
      WithKeeps(r, m.key, r'.commands[m.key]);
    }
  }

  lemma VotedTally(c: Command, m: Message)
    requires Tallied(c)
    ensures Tallied(Voted(c, m)) && Tallied(AcceptVoted(c, m))
  {
    var votes := c.votes + [Vote(m.sender, m.ballot, m.seqno)];
    assert votes[..|votes| - 1] == c.votes;
  }

  /** The leader writes the log unchecked. */
  lemma CommitKeeps(r: Replica, k: Key, c: Command, ok: bool)
    requires Fine(r)
    ensures Fine(CommitLocal(r.Dropped(k), k, c, ok).0) && Forward(r, CommitLocal(r.Dropped(k), k, c, ok).0)
  {
    DroppedKeeps(r, k);
    if ok {
      var r1 := r.Dropped(k);
      LoggedKeeps(r1, k, Entry(c.seqno, c.ballot));
      ForwardTwice(r, r1, r1.Logged(k, Entry(c.seqno, c.ballot)));
    }
  }

  lemma PreAcceptResponseKeeps(r: Replica, m: Message, ok: bool)
    requires Fine(r) && r.ballot > m.ballot
    ensures Fine(HandlePreAcceptResponse(r, m, ok).0) && Forward(r, HandlePreAcceptResponse(r, m, ok).0)
  {
    if m.key in r.commands {
      var c := r.commands[m.key];
      assert FineEntry(r, c);
      VotedTally(c, m);
      var v := Voted(c, m);
      var r' := HandlePreAcceptResponse(r, m, ok).0;
      if m.ballot < c.ballot || c.status != PreAccepted {
        assert r' == r;
      } else if |v.votes| < r.peers / 2 {
        assert r' == r.With(m.key, v);
        WithKeeps(r, m.key, v);
      } else if ShortPath(v) {
        assert r' == CommitLocal(r.Dropped(m.key), m.key, v, ok).0;
        CommitKeeps(r, m.key, v, ok);
      } else {
        assert r' == r.With(m.key, Escalated(r, v, v.maxSeq + 1));
        WithKeeps(r, m.key, Escalated(r, v, v.maxSeq + 1));
      }
    }
  }

  lemma AcceptResponseKeeps(r: Replica, m: Message, ok: bool)
    requires Fine(r) && r.ballot > m.ballot
    ensures Fine(HandleAcceptResponse(r, m, ok).0) && Forward(r, HandleAcceptResponse(r, m, ok).0)
  {
    if m.key in r.commands {
      var c := r.commands[m.key];
      assert FineEntry(r, c);
      VotedTally(c, m);
      var v := AcceptVoted(c, m);
      var r' := HandleAcceptResponse(r, m, ok).0;
      if m.ballot < c.ballot || c.status != Accepted {
        assert r' == r;
      } else if c.seqno == m.seqno && m.committed {
        assert r' == r.With(m.key, Escalated(r, c, c.seqno + 1));
        WithKeeps(r, m.key, Escalated(r, c, c.seqno + 1));
      } else if CountOk(v.votes, m.seqno, m.ballot) >= r.peers / 2 {
        assert r' == CommitLocal(r.Dropped(m.key), m.key, v, ok).0;
        CommitKeeps(r, m.key, v, ok);
      } else if |v.votes| < r.peers / 2 {
        assert r' == r.With(m.key, v);
        WithKeeps(r, m.key, v);
      } else {
        var c' := Escalated(r, v, if v.seqno <= v.maxSeq then v.seqno + 1 else v.seqno);
        assert r' == r.With(m.key, c');
        WithKeeps(r, m.key, c');
      }
    }
  }

  lemma CommitMessageKeeps(r: Replica, m: Message)
    requires Fine(r)
    ensures Fine(HandleCommit(r, m)) && Forward(r, HandleCommit(r, m))
  {
    if m.key in r.commands { assert FineEntry(r, r.commands[m.key]); }
    var e := Entry(m.seqno, m.ballot);
    if HandleCommit(r, m) != r {
      if m.key in r.commands && r.commands[m.key].seqno <= m.seqno {
        DroppedKeeps(r, m.key);
        LoggedKeeps(r.Dropped(m.key), m.key, e);
        ForwardTwice(r, r.Dropped(m.key), r.Dropped(m.key).Logged(m.key, e));
        assert HandleCommit(r, m) == r.Dropped(m.key).Logged(m.key, e);
      } else {
        LoggedKeeps(r, m.key, e);
      }
    }
  }

  /** Every message keeps the replica fine and moves it forward. */
  lemma ReceiveKeeps(r: Replica, m: Message, ok: bool)
    requires Fine(r)
    ensures Fine(Receive(r, m, ok).0) && Forward(r, Receive(r, m, ok).0)
    ensures Receive(r, m, ok).0.ballot > m.ballot
  {
    UpdatedBallot(r, m.ballot);
    var r1 := UpdateBallot(r, m.ballot);
    match m.kind
    case PreAccept => PreAcceptKeeps(r1, m);
    case PreAcceptResponse => PreAcceptResponseKeeps(r1, m, ok);
    case Accept => AcceptKeeps(r1, m);
    case AcceptResponse => AcceptResponseKeeps(r1, m, ok);
    case Commit => CommitMessageKeeps(r1, m);
    ForwardTwice(r, r1, Receive(r, m, ok).0);
  }

  lemma RecoveredKeeps(r: Replica, k: Key, ballot: nat, seqno: nat)
    requires Fine(r)
    ensures Fine(Recovered(r, k, ballot, seqno)) && Forward(r, Recovered(r, k, ballot, seqno))
  {
    if seqno >= r.LastSeq(k) && ballot >= r.LastBallot(k) {
      LoggedKeeps(r, k, Entry(seqno, ballot));
    }
  }

  // ---------------------------------------------------------------- the log

  lemma RunCommandSteady(r: Replica, ctype: nat, x: Key, data: Data, k: Key)
    ensures Steady(r, RunCommand(r, ctype, x, data).0, k)
  {
  }

  lemma RequestsSteady(r: Replica, m: Message, k: Key)
    ensures Steady(r, HandlePreAccept(r, m).0, k) && Steady(r, HandleAccept(r, m).0, k)
    ensures Steady(r, HandleCommit(r, m), k)
  {
  }

  /** The leader writes the log unchecked; a command with a type is not behind it. */
  lemma ResponsesSteady(r: Replica, m: Message, ok: bool, k: Key)
    requires m.key == k ==> CallbackRule(r, m, ok)
    ensures Steady(r, HandlePreAcceptResponse(r, m, ok).0, k) && Steady(r, HandleAcceptResponse(r, m, ok).0, k)
  {
    hide CountOk;
  }

  /** Every message keeps every key steady, its own if the callback follows its rule. */
  lemma ReceiveSteady(r: Replica, m: Message, ok: bool, k: Key)
    requires m.key == k ==> CallbackRule(r, m, ok)
    ensures Steady(r, Receive(r, m, ok).0, k)
  {
    hide HandlePreAccept, HandlePreAcceptResponse, HandleAccept, HandleAcceptResponse, HandleCommit;
    var r1 := UpdateBallot(r, m.ballot);
    assert r1.commands == r.commands && r1.log == r.log;
    RequestsSteady(r1, m, k);
    ResponsesSteady(r1, m, ok, k);
  }

  lemma RecoveredSteady(r: Replica, x: Key, ballot: nat, seqno: nat, k: Key)
    requires x == k ==> RecoveryRule(r, x, seqno)
    ensures Steady(r, Recovered(r, x, ballot, seqno), k)
  {
  }
}
