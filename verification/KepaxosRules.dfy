/** The two rules that keep the log of a kepaxos replica from going back: what happens exactly
    without them, and what a stricter recovery rule gives. */
module KepaxosRules {
  import opened KepaxosModel
  import opened KepaxosReplica
  import opened KepaxosRuns

  // ---------------------------------------------------------------- exactly when a log goes back

  /** The response completes the quorum of a pending command and the callback takes it. */
  predicate CompletesQuorum(r: Replica, m: Message, ok: bool)
  {
    ok && m.key in r.commands && m.ballot >= r.commands[m.key].ballot &&
    var c := r.commands[m.key];
    match m.kind
    case PreAcceptResponse => c.status == PreAccepted && |c.votes| + 1 >= r.peers / 2 && ShortPath(Voted(c, m))
    case AcceptResponse =>
      && c.status == Accepted && !(c.seqno == m.seqno && m.committed)
      && CountOk(c.votes + [VoteOf(m)], m.seqno, m.ballot) >= r.peers / 2
    case _ => false
  }

  /** A delivery commits exactly if it completes a quorum. */
  lemma CommitsExactly(r: Replica, s: Step)
    requires s.Deliver?
    ensures Commits(r, s) <==> CompletesQuorum(r, s.m, s.ok)
  {
    var r1 := UpdateBallot(r, s.m.ballot);
    assert r1.commands == r.commands && r1.peers == r.peers;
    match s.m.kind
    case PreAccept => PreAcceptAnswer(r1, s.m);
    case PreAcceptResponse => hide CountOk;
    case Accept => AcceptAnswer(r1, s.m);
    case AcceptResponse => hide CountOk;
    case Commit =>
  }

  /** Of all steps, with or without the rules, exactly a delivery that completes the quorum of
      a command behind the log lowers the log, and that of its key only. */
  lemma LogDropsExactly(r: Replica, s: Step, k: Key)
    ensures Act(r, s).0.LastSeq(k) < r.LastSeq(k)
       <==> s.Deliver? && k == s.m.key && CompletesQuorum(r, s.m, s.ok) && r.commands[k].seqno < r.LastSeq(k)
  {
    hide HandlePreAccept, HandlePreAcceptResponse, HandleAccept, HandleAcceptResponse, HandleCommit, CompletesQuorum;
    if s.Deliver? {
      CommitsExactly(r, s);
      if Commits(r, s) {
        CommitLogs(r, s);
      } else {
        QuietLogs(UpdateBallot(r, s.m.ballot), s.m, s.ok);
      }
      ReceiveElsewhere(r, s.m, s.ok);
    }
  }

  /** Whoever does not commit here does not lower the log. */
  lemma QuietLogs(r: Replica, m: Message, ok: bool)
    ensures HandlePreAccept(r, m).0.log == HandleAccept(r, m).0.log == r.log
    ensures HandleCommit(r, m).LastSeq(m.key) >= r.LastSeq(m.key)
    ensures (HandlePreAcceptResponse(r, m, ok).1.Some? && HandlePreAcceptResponse(r, m, ok).1.value.kind == Commit)
         || HandlePreAcceptResponse(r, m, ok).0.log == r.log
    ensures (HandleAcceptResponse(r, m, ok).1.Some? && HandleAcceptResponse(r, m, ok).1.value.kind == Commit)
         || HandleAcceptResponse(r, m, ok).0.log == r.log
  {
  }

  /** A recovery keeps the entry in step with the log exactly if it is stale or follows its
      rule. */
  lemma RecoveryExact(r: Replica, k: Key, ballot: nat, seqno: nat)
    requires InStep(r, k)
    ensures InStep(Recovered(r, k, ballot, seqno), k) <==> ballot < r.LastBallot(k) || RecoveryRule(r, k, seqno)
  {
    if RecoveryRule(r, k, seqno) { RecoveredSteady(r, k, ballot, seqno, k); }
  }

  // ---------------------------------------------------------------- a stricter recovery

  /** A typed entry is ahead of the log. */
  ghost predicate Ahead(r: Replica)
  {
    forall k :: k in r.commands && r.commands[k].ctype != 0 ==> r.commands[k].seqno > r.LastSeq(k)
  }

  /** A recovered number stays below a pending local command, as it does if recovery waits for
      the command to leave. */
  ghost predicate StaysBelow(r: Replica, s: Step)
  {
    s.Recover? && s.key in r.commands && r.commands[s.key].ctype != 0 ==> r.commands[s.key].seqno > s.seqno
  }

  lemma RequestsAhead(r: Replica, m: Message)
    requires Ahead(r)
    ensures Ahead(HandlePreAccept(r, m).0) && Ahead(HandleAccept(r, m).0) && Ahead(HandleCommit(r, m))
  {
  }

  lemma ResponsesAhead(r: Replica, m: Message, ok: bool)
    requires Ahead(r)
    ensures Ahead(HandlePreAcceptResponse(r, m, ok).0) && Ahead(HandleAcceptResponse(r, m, ok).0)
  {
    hide CountOk;
  }

  lemma ActAhead(r: Replica, s: Step)
    requires Ahead(r) && StaysBelow(r, s)
    ensures Ahead(Act(r, s).0)
  {
    if s.Deliver? {
      hide HandlePreAccept, HandlePreAcceptResponse, HandleAccept, HandleAcceptResponse, HandleCommit;
      var r1 := UpdateBallot(r, s.m.ballot);
      assert Ahead(r1);
      RequestsAhead(r1, s.m);
      ResponsesAhead(r1, s.m, s.ok);
    }
  }

  /** Before step `t` the recoveries of replica `i` stay below. */
  ghost predicate Below(ws: seq<World>, ss: seq<Step>, t: nat, i: nat)
    requires t <= |ss| < |ws|
  {
    forall u :: 0 <= u < t && ss[u].i == i < |ws[u].replicas| ==> StaysBelow(ws[u].replicas[i], ss[u])
  }

  /** As long as the recoveries of a replica stay below, its pending local commands are ahead
      of its log, whatever the commit callback does. */
  lemma {:induction false} RunAhead(n: nat, ws: seq<World>, ss: seq<Step>, t: nat, i: nat)
    requires IsRun(n, ws, ss) && t <= |ss| && i < n && Below(ws, ss, t, i)
    ensures |ws[t].replicas| == n && Ahead(ws[t].replicas[i])
  {
    hide Act, Ahead, StaysBelow;
    if t == 0 {
      FreshAhead(i, n);
    } else {
      RunAhead(n, ws, ss, t - 1, i);
      assert StepAt(ws, ss, t - 1);
      var w, s := ws[t - 1], ss[t - 1];
      if s.i == i { ActAhead(w.replicas[i], s); }
    }
  }

  lemma FreshAhead(i: nat, n: nat)
    requires i < n
    ensures Start(n).replicas[i] == Fresh(i, n) && Ahead(Fresh(i, n))
  {
  }

  /** So every commit it makes strictly raises its log, if the callback refuses an entry
      without a type in that very step. */
  lemma CommitRaisesLog(n: nat, ws: seq<World>, ss: seq<Step>, t: nat)
    requires IsRun(n, ws, ss) && t < |ss| && ss[t].i < |ws[t].replicas| && Below(ws, ss, t, ss[t].i)
    requires Follows(ws[t].replicas[ss[t].i], ss[t]) && Commits(ws[t].replicas[ss[t].i], ss[t])
    ensures ss[t].Deliver? && ss[t].i < |ws[t + 1].replicas|
    ensures ws[t].replicas[ss[t].i].LastSeq(ss[t].m.key) < ws[t + 1].replicas[ss[t].i].LastSeq(ss[t].m.key)
  {
    hide Act, Below;
    RunSize(n, ws, ss, t);
    RunAhead(n, ws, ss, t, ss[t].i);
    assert StepAt(ws, ss, t);
    CommitLogs(ws[t].replicas[ss[t].i], ss[t]);
  }
}
