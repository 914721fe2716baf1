/** Exactly what a kepaxos replica does with each message: when it ignores it, when it answers,
    commits or opens an accept round, under which number, and what becomes of the entry. */
module KepaxosExact {
  import opened Wrappers
  import opened KepaxosModel
  import opened KepaxosReplica
  import opened KepaxosRuns

  /** `n` is the greatest of three numbers. */
  predicate Greatest(n: nat, a: nat, b: nat, c: nat)
  {
    n >= a && n >= b && n >= c && (n == a || n == b || n == c)
  }

  /** The number in the table, 0 for none. */
  function Tabled(r: Replica, k: Key): nat
  {
    if k in r.commands then r.commands[k].seqno else 0
  }

  /** What is logged for a key, a pair of zeros for none. */
  function Last(r: Replica, k: Key): Entry
  {
    if k in r.log then r.log[k] else Entry(0, 0)
  }

  // ---------------------------------------------------------------- ballots

  /** Unless the received counter is 0, the ballot becomes the least one of this replica that is
      not below its own and has a greater counter. */
  lemma BallotLeast(r: Replica, ballot: nat)
    requires Fine(r)
    ensures var b := UpdateBallot(r, ballot).ballot;
            if Counter(ballot) == 0 then b == r.ballot
            else
              && Owner(b) == r.index && b >= r.ballot && Counter(b) > Counter(ballot)
              && forall x: nat :: Owner(x) == r.index && x >= r.ballot && Counter(x) > Counter(ballot) ==> x >= b
  {
    var n := Counter(ballot) + 1;
    assert (n * 256 + r.index) % 256 == r.index && (n * 256 + r.index) / 256 == n;
  }

  // ---------------------------------------------------------------- local commands

  /** A new command takes the least number above those logged and tabled, with no votes, and is
      proposed under it. */
  lemma RunExactly(r: Replica, ctype: nat, k: Key, data: Data)
    ensures var (r', m) := RunCommand(r, ctype, k, data);
            && k in r'.commands && r' == r.With(k, r'.commands[k])
            && var c := r'.commands[k];
               && c.seqno > 0 && Greatest(c.seqno - 1, Last(r, k).seqno, Tabled(r, k), 0)
               && c.ctype == ctype && c.data == data && c.status == PreAccepted && c.ballot == r.ballot
               && c.votes == [] && c.maxSeq == 0 && !c.maxSeqCommitted
               && m == Message(r.index, PreAccept, 0, r.ballot, k, [], c.seqno, false)
  {
  }

  /** The caller sees 0 exactly if the log has reached its number, and -1 otherwise. */
  lemma OutcomeExactly(r: Replica, k: Key, seqno: nat)
    requires seqno > 0
    ensures RunResult(r, k, seqno) == 0 <==> k in r.log && r.log[k].seqno >= seqno
    ensures RunResult(r, k, seqno) == -1 <==> k !in r.log || r.log[k].seqno < seqno
  {
  }

  // ---------------------------------------------------------------- requests

  /** A pre-accept is ignored exactly if it is the logged one or behind the ballot of the entry.
      Otherwise the answer has the greatest number in sight, committed if that is the logged one,
      and the entry gets the ballot and, if the proposal is not behind, what it interferes with. */
  lemma PreAcceptExactly(r: Replica, m: Message)
    ensures var (r', p) := HandlePreAccept(r, m);
            var ignored := Last(r, m.key) == Entry(m.seqno, m.ballot)
                        || (m.key in r.commands && r.commands[m.key].ballot > m.ballot);
            if ignored then r' == r && p == None
            else
              && p.Some? && m.key in r'.commands && r' == r.With(m.key, r'.commands[m.key])
              && PreAcceptAnswered(r, m, p.value) && PreAcceptEntry(r, m, r'.commands[m.key])
  {
  }

  ghost predicate PreAcceptAnswered(r: Replica, m: Message, p: Message)
  {
    && Greatest(p.seqno, m.seqno, Last(r, m.key).seqno, Tabled(r, m.key))
    && p == Message(r.index, PreAcceptResponse, 0, m.ballot, m.key, [], p.seqno, p.seqno == Last(r, m.key).seqno)
  }

  ghost predicate PreAcceptEntry(r: Replica, m: Message, c': Command)
  {
    var c := if m.key in r.commands then r.commands[m.key] else BLANK.(seqno := m.seqno);
    && c' == c.(ballot := m.ballot, status := c'.status, seqno := c'.seqno)
    && if Last(r, m.key).seqno > m.seqno || Tabled(r, m.key) > m.seqno
       then c'.status == c.status && c'.seqno == c.seqno
       else c'.status == PreAccepted && Greatest(c'.seqno, Last(r, m.key).seqno, Tabled(r, m.key), 0)
  }

  /** An accept is ignored exactly if it is behind the ballot of the entry. Otherwise the entry takes
      its number and ballot unless it is ahead, and the answer tells what the entry then has. */
  lemma AcceptExactly(r: Replica, m: Message)
    ensures var (r', p) := HandleAccept(r, m);
            if m.key in r.commands && r.commands[m.key].ballot > m.ballot then r' == r && p == None
            else
              && m.key in r'.commands && r' == r.With(m.key, r'.commands[m.key])
              && var c := if m.key in r.commands then r.commands[m.key] else BLANK;
                 var c' := r'.commands[m.key];
                 && c' == c.(status := c'.status, seqno := c'.seqno, ballot := c'.ballot)
                 && (if Tabled(r, m.key) > m.seqno then c' == c
                     else c'.status == Accepted && c'.seqno == m.seqno && c'.ballot == m.ballot)
                 && p == Some(Message(r.index, AcceptResponse, 0, c'.ballot, m.key, [], c'.seqno,
                                      c'.seqno == Last(r, m.key).seqno))
  {
  }

  /** A received commit is ignored exactly if the entry has its number under a greater ballot, or the
      log is ahead. Otherwise it is logged, and the entry leaves unless it is ahead. */
  lemma CommitExactly(r: Replica, m: Message)
    ensures var r' := HandleCommit(r, m);
            var ahead := m.key in r.commands && r.commands[m.key].seqno > m.seqno;
            var ignored := (m.key in r.commands && r.commands[m.key].seqno == m.seqno
                            && r.commands[m.key].ballot > m.ballot)
                        || Last(r, m.key).seqno > m.seqno;
            if ignored then r' == r
            else
              && r' == r.(log := r'.log, commands := r'.commands, maxBallot := r'.maxBallot)
              && r'.log == r.log[m.key := Entry(m.seqno, m.ballot)]
              && r'.commands == (if ahead then r.commands else r.commands - {m.key})
              && Greatest(r'.maxBallot, r.maxBallot, m.ballot, 0)
  {
    if m.key !in r.commands { assert r.commands - {m.key} == r.commands; }
  }

  // ---------------------------------------------------------------- responses

  /** The response is about an entry in the phase it belongs to, and not behind its ballot. */
  predicate Heard(r: Replica, m: Message)
  {
    && m.key in r.commands && m.ballot >= r.commands[m.key].ballot
    && match m.kind
       case PreAcceptResponse => r.commands[m.key].status == PreAccepted
       case AcceptResponse => r.commands[m.key].status == Accepted
       case _ => false
  }

  /** The greatest number voted for, with this vote. */
  function Top(c: Command, m: Message): nat
  {
    Max(MaxVote(c.votes), m.seqno)
  }

  /** The greatest number is known to be committed: by this vote, or by an earlier one if this vote is
      for the same number. A vote for a smaller one makes the replica forget it. */
  predicate TopCommitted(c: Command, m: Message)
  {
    (m.committed && m.seqno == Top(c, m)) || (c.maxSeqCommitted && m.seqno == MaxVote(c.votes))
  }

  predicate Outvoted(c: Command, m: Message)
  {
    Top(c, m) > c.seqno || (Top(c, m) == c.seqno && TopCommitted(c, m))
  }

  /** The entry after one more vote. */
  ghost predicate OneMore(c: Command, m: Message, c': Command)
  {
    && c'.votes == c.votes + [VoteOf(m)] && c'.maxSeq == Top(c, m)
    && c' == c.(votes := c'.votes, maxSeq := c'.maxSeq, maxSeqCommitted := c'.maxSeqCommitted, maxVoter := c'.maxVoter)
    && c'.maxSeqCommitted == (if m.kind == PreAcceptResponse then TopCommitted(c, m) else c.maxSeqCommitted)
    && c'.maxVoter == (if m.seqno >= MaxVote(c.votes) then Some(m.sender) else c.maxVoter)
  }

  /** Enough votes, with this one, that agree with it on number and ballot. */
  predicate Agreed(r: Replica, c: Command, m: Message)
  {
    |Agreeing(c.votes + [VoteOf(m)], m.seqno, m.ballot)| >= r.peers / 2
  }

  function Agreeing(votes: seq<Vote>, seqno: nat, ballot: nat): set<int>
  {
    set i | 0 <= i < |votes| && votes[i].seqno == seqno && votes[i].ballot == ballot
  }

  lemma {:induction false} CountsAgreeing(votes: seq<Vote>, seqno: nat, ballot: nat)
    ensures CountOk(votes, seqno, ballot) == |Agreeing(votes, seqno, ballot)|
  {
    if votes == [] {
      assert Agreeing(votes, seqno, ballot) == {};
    } else {
      var n := |votes| - 1;
      CountsAgreeing(votes[..n], seqno, ballot);
      var less := Agreeing(votes[..n], seqno, ballot);
      if votes[n].seqno == seqno && votes[n].ballot == ballot {
        assert Agreeing(votes, seqno, ballot) == less + {n};
      } else {
        assert Agreeing(votes, seqno, ballot) == less;
      }
    }
  }

  /** With this vote there are as many as half the peers. */
  predicate Enough(r: Replica, c: Command)
  {
    |c.votes| + 1 >= r.peers / 2
  }

  /** Somebody has already committed the number of an accept round. */
  predicate Taken(c: Command, m: Message)
  {
    c.seqno == m.seqno && m.committed
  }

  /** The response decides the command. */
  predicate Decides(r: Replica, m: Message)
  {
    Heard(r, m) &&
    var c := r.commands[m.key];
    if m.kind == PreAcceptResponse then Enough(r, c) && !Outvoted(c, m)
    else !Taken(c, m) && Agreed(r, c, m)
  }

  /** The response makes the leader open an accept round: the pre-accept is outvoted, the number of an
      accept round is taken, or half the peers have voted in it without agreeing. */
  predicate OpensRound(r: Replica, m: Message)
  {
    Heard(r, m) &&
    var c := r.commands[m.key];
    if m.kind == PreAcceptResponse then Enough(r, c) && Outvoted(c, m)
    else Taken(c, m) || (Enough(r, c) && !Agreed(r, c, m))
  }

  /** The number of that round. */
  function Round(c: Command, m: Message): nat
  {
    if m.kind == PreAcceptResponse then Top(c, m) + 1
    else if Taken(c, m) || Top(c, m) >= c.seqno then c.seqno + 1
    else c.seqno
  }

  /** What a response does, `r` having the ballot it has after the message. */
  ghost predicate Responded(r: Replica, m: Message, ok: bool, r': Replica, p: Option<Message>)
  {
    if !Heard(r, m) then r' == r && p == None
    else
      var k, c := m.key, r.commands[m.key];
      if Decides(r, m) then
        && k !in r'.commands && r'.commands == r.commands - {k}
        && r' == r.(commands := r'.commands, log := r'.log, maxBallot := r'.maxBallot)
        && (if !ok then r'.log == r.log && r'.maxBallot == r.maxBallot
            else
              && r'.log == r.log[k := Entry(c.seqno, c.ballot)]
              && Greatest(r'.maxBallot, r.maxBallot, c.ballot, 0))
        && p == if ok then Some(Message(r.index, Commit, c.ctype, c.ballot, k, c.data, c.seqno, true)) else None
      else
        && k in r'.commands && r' == r.With(k, r'.commands[k])
        && var c' := r'.commands[k];
           if OpensRound(r, m) then
             && c'.status == Accepted && c'.seqno == Round(c, m) && c'.ballot == r.ballot && c'.votes == []
             && c'.maxSeq == 0 && c'.maxVoter == None && c'.ctype == c.ctype && c'.data == c.data
             && p == Some(Message(r.index, Accept, 0, r.ballot, k, [], Round(c, m), false))
           else OneMore(c, m, c') && p == None
  }

  /** A vote in the terms of all votes. */
  lemma VoteExactly(c: Command, m: Message)
    requires Tallied(c)
    ensures m.kind == PreAcceptResponse ==> OneMore(c, m, Voted(c, m)) && (ShortPath(Voted(c, m)) <==> !Outvoted(c, m))
    ensures m.kind == AcceptResponse ==> OneMore(c, m, AcceptVoted(c, m))
  {
  }

  lemma PreAcceptResponseExactly(r: Replica, m: Message, ok: bool)
    requires Fine(r) && m.kind == PreAcceptResponse
    ensures Responded(r, m, ok, HandlePreAcceptResponse(r, m, ok).0, HandlePreAcceptResponse(r, m, ok).1)
  {
    hide ShortPath, Outvoted, Top;
    if m.key in r.commands {
      var c := r.commands[m.key];
      assert FineEntry(r, c);
      VoteExactly(c, m);
      assert OneMore(c, m, Voted(c, m));
    }
  }

  lemma AcceptResponseExactly(r: Replica, m: Message, ok: bool)
    requires Fine(r) && m.kind == AcceptResponse
    ensures Responded(r, m, ok, HandleAcceptResponse(r, m, ok).0, HandleAcceptResponse(r, m, ok).1)
  {
    hide CountOk, Agreeing, Top;
    if m.key in r.commands {
      var c := r.commands[m.key];
      assert FineEntry(r, c);
      VoteExactly(c, m);
      CountsAgreeing(c.votes + [VoteOf(m)], m.seqno, m.ballot);
      assert OneMore(c, m, AcceptVoted(c, m));
    }
  }

  /** What a delivered response does. */
  lemma ResponseExactly(r: Replica, m: Message, ok: bool)
    requires Fine(r) && Response(m)
    ensures Responded(UpdateBallot(r, m.ballot), m, ok, Receive(r, m, ok).0, Receive(r, m, ok).1)
  {
    hide Responded, HandlePreAcceptResponse, HandleAcceptResponse;
    UpdatedBallot(r, m.ballot);
    var r1 := UpdateBallot(r, m.ballot);
    if m.kind == PreAcceptResponse { PreAcceptResponseExactly(r1, m, ok); } else { AcceptResponseExactly(r1, m, ok); }
  }

  /** Of all steps exactly the delivery of such a response proposes an accept round, under the number
      `Round` and the ballot of the replica. */
  lemma ProposesExactly(r: Replica, s: Step)
    requires Fine(r)
    ensures var p := Act(r, s).1;
            && (p.Some? && p.value.kind == Accept <==> s.Deliver? && OpensRound(r, s.m))
            && (s.Deliver? && OpensRound(r, s.m) ==>
                  p.value == Message(r.index, Accept, 0, Act(r, s).0.ballot, s.m.key, [],
                                     Round(r.commands[s.m.key], s.m), false))
  {
    if s.Deliver? {
      var r1 := UpdateBallot(r, s.m.ballot);
      assert r1.commands == r.commands && r1.peers == r.peers && r1.index == r.index;
      hide Outvoted, Agreed, Top;
      match s.m.kind
      case PreAccept => PreAcceptAnswer(r1, s.m);
      case PreAcceptResponse => ResponseExactly(r, s.m, s.ok);
      case Accept => AcceptAnswer(r1, s.m);
      case AcceptResponse => ResponseExactly(r, s.m, s.ok);
      case Commit =>
    }
  }

  // ---------------------------------------------------------------- recovery

  /** A recovered pair is logged exactly if neither part is behind; nothing else changes. */
  lemma RecoveredExactly(r: Replica, k: Key, ballot: nat, seqno: nat)
    ensures var r' := Recovered(r, k, ballot, seqno);
            if Last(r, k).seqno > seqno || Last(r, k).ballot > ballot then r' == r
            else
              && r' == r.(log := r.log[k := Entry(seqno, ballot)], maxBallot := r'.maxBallot)
              && Greatest(r'.maxBallot, r.maxBallot, ballot, 0)
  {
  }

  /** In every run an entry that expires makes the replica ask exactly if it has a phase and was
      last proposed under the ballot of another, and it asks that one about it. */
  lemma ExpiryAsks(n: nat, ws: seq<World>, ss: seq<Step>, t: nat, i: nat, k: Key)
    requires n <= 256 && IsRun(n, ws, ss) && t <= |ss| && i < |ws[t].replicas|
    ensures var r := ws[t].replicas[i];
            && (ExpireRecovery(r, k).Some? <==>
                  k in r.commands && r.commands[k].status != NoStatus && Owner(r.commands[k].ballot) != i)
            && forall q :: ExpireRecovery(r, k) == Some(q) ==>
                 && q.peer == Owner(r.commands[k].ballot) < n && q.key == k
                 && q.seqno == r.commands[k].seqno && q.ballot == r.commands[k].ballot
  {
    RunIndex(n, ws, ss, t, i);
    RecoveryAsksPeer(n, ws, ss, t, i, k);
  }

  /** In every run a pre-accept makes the replica ask exactly if it is answered and takes over an
      accepted entry that is not ahead of it, from another; it asks the sender. */
  lemma PreAcceptAsks(n: nat, ws: seq<World>, ss: seq<Step>, t: nat, i: nat, m: Message)
    requires n <= 256 && IsRun(n, ws, ss) && t <= |ss| && i < |ws[t].replicas|
    requires m in ws[t].sent && m.kind == PreAccept
    ensures var r := ws[t].replicas[i];
            && (PreAcceptRecovery(r, m).Some? <==>
                  && HandlePreAccept(r, m).1.Some? && m.key in r.commands && r.commands[m.key].status == Accepted
                  && m.seqno >= r.commands[m.key].seqno && m.seqno >= Last(r, m.key).seqno && m.sender != i)
            && forall q :: PreAcceptRecovery(r, m) == Some(q) ==>
                 q == Recovery(m.sender, m.key, r.commands[m.key].seqno, m.ballot)
  {
    hide HandlePreAccept, Fine, AllBrought, Owned;
    RunInv(n, ws, ss, t);
    assert ReplicaInv(n, ws[t], i) && Sound(ws[t], m);
  }
}
