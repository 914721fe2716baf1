/** Runs of a group of kepaxos replicas. A message that was sent may be delivered to any
    replica, late, repeatedly or never. */
module KepaxosRuns {
  import opened Wrappers
  import opened KepaxosModel
  import opened KepaxosReplica

  datatype World = World(replicas: seq<Replica>, sent: set<Message>)

  datatype Step =
    | Run(i: nat, ctype: nat, key: Key, data: Data)
    | Deliver(i: nat, m: Message, ok: bool)
    | Lapse(i: nat, key: Key)
    | Recover(i: nat, key: Key, ballot: nat, seqno: nat)

  function Start(n: nat): World
  {
    World(seq(n, (i: nat) => Fresh(i, n)), {})
  }

  /** Only sent messages are delivered. */
  ghost predicate Deliverable(w: World, s: Step)
  {
    s.i < |w.replicas| && (s.Deliver? ==> s.m in w.sent)
  }

  /** The commit callback and the recovery follow their rules. */
  ghost predicate Follows(r: Replica, s: Step)
  {
    && (s.Deliver? ==> CallbackRule(r, s.m, s.ok))
    && (s.Recover? ==> RecoveryRule(r, s.key, s.seqno))
  }

  /** The key a step is about. */
  function KeyOf(s: Step): Key
  {
    if s.Deliver? then s.m.key else s.key
  }

  /** What the replica of a step becomes, and the message it sends. */
  function Act(r: Replica, s: Step): (Replica, Option<Message>)
  {
    match s
    case Run(_, ctype, k, data) => var (r', m) := RunCommand(r, ctype, k, data); (r', Some(m))
    case Deliver(_, m, ok) => Receive(r, m, ok)
    case Lapse(_, k) => (Expire(r, k), None)
    case Recover(_, k, ballot, seqno) => (Recovered(r, k, ballot, seqno), None)
  }

  function Next(w: World, s: Step): World
    requires s.i < |w.replicas|
  {
    var (r, m) := Act(w.replicas[s.i], s);
    World(w.replicas[s.i := r], if m.Some? then w.sent + {m.value} else w.sent)
  }

  ghost predicate IsRun(n: nat, ws: seq<World>, ss: seq<Step>)
  {
    && |ws| == |ss| + 1
    && ws[0] == Start(n)
    && forall t :: 0 <= t < |ss| ==> StepAt(ws, ss, t)
  }

  ghost predicate StepAt(ws: seq<World>, ss: seq<Step>, t: int)
    requires 0 <= t < |ss| && |ws| == |ss| + 1
  {
    Deliverable(ws[t], ss[t]) && ws[t + 1] == Next(ws[t], ss[t])
  }

  /** Before step `u` the steps of replica `i` about `k` follow the rules. Nothing else is
      asked to. */
  ghost predicate Ruled(ws: seq<World>, ss: seq<Step>, u: nat, i: nat, k: Key)
    requires u <= |ss| < |ws|
  {
    forall t :: 0 <= t < u && ss[t].i == i < |ws[t].replicas| && KeyOf(ss[t]) == k ==>
      Follows(ws[t].replicas[i], ss[t])
  }

  predicate Proposal(m: Message)
  {
    m.kind == PreAccept || m.kind == Accept
  }

  predicate Response(m: Message)
  {
    m.kind == PreAcceptResponse || m.kind == AcceptResponse
  }

  /** A proposal carries a ballot its sender has had. */
  ghost predicate Sound(w: World, m: Message)
  {
    m.sender < |w.replicas| &&
    (Proposal(m) ==> Owner(m.ballot) == m.sender && m.ballot <= w.replicas[m.sender].ballot)
  }

  /** The vote a response carries. */
  function VoteOf(m: Message): Vote
  {
    Vote(m.sender, m.ballot, m.seqno)
  }

  /** A vote was brought by a response that was sent. */
  ghost predicate Brought(sent: set<Message>, k: Key, v: Vote)
  {
    exists m :: m in sent && Response(m) && m.key == k && VoteOf(m) == v
  }

  ghost predicate AllBrought(r: Replica, sent: set<Message>)
  {
    forall k, v :: k in r.commands && v in r.commands[k].votes ==> Brought(sent, k, v)
  }

  ghost predicate Inv(n: nat, w: World)
  {
    && |w.replicas| == n
    && (forall i :: 0 <= i < n ==> ReplicaInv(n, w, i))
    && (forall m :: m in w.sent ==> Sound(w, m))
  }

  ghost predicate ReplicaInv(n: nat, w: World, i: int)
    requires 0 <= i < |w.replicas|
  {
    var r := w.replicas[i];
    Fine(r) && r.index == i && r.peers == n && AllBrought(r, w.sent) && Owned(r, n)
  }

  /** The ballots in a table are those of replicas of the group. */
  ghost predicate Owned(r: Replica, n: nat)
  {
    forall k :: k in r.commands ==> Owner(r.commands[k].ballot) < n
  }

  // ---------------------------------------------------------------- one step

  lemma ActKeeps(r: Replica, s: Step)
    requires Fine(r)
    ensures Fine(Act(r, s).0) && Forward(r, Act(r, s).0)
  {
    match s
    case Run(_, ctype, k, data) => RunCommandKeeps(r, ctype, k, data);
    case Deliver(_, m, ok) => ReceiveKeeps(r, m, ok);
    case Lapse(_, k) => DroppedKeeps(r, k);
    case Recover(_, k, ballot, seqno) => RecoveredKeeps(r, k, ballot, seqno);
  }

  lemma ActSteady(r: Replica, s: Step, k: Key)
    requires KeyOf(s) == k ==> Follows(r, s)
    ensures Steady(r, Act(r, s).0, k)
  {
    match s
    case Run(_, ctype, x, data) => RunCommandSteady(r, ctype, x, data, k);
    case Deliver(_, m, ok) => ReceiveSteady(r, m, ok, k);
    case Lapse(_, x) =>
    case Recover(_, x, ballot, seqno) => RecoveredSteady(r, x, ballot, seqno, k);
  }

  /** What a replica sends carries its index and, in a proposal, its ballot. */
  lemma ActSends(r: Replica, s: Step)
    ensures var m := Act(r, s).1;
            m.Some? ==> m.value.sender == r.index && (Proposal(m.value) ==> m.value.ballot == Act(r, s).0.ballot)
  {
    if s.Deliver? {
      var r1 := UpdateBallot(r, s.m.ballot);
      match s.m.kind
      case PreAccept => assert HandlePreAccept(r1, s.m).1.Some? ==> !Proposal(HandlePreAccept(r1, s.m).1.value);
      case PreAcceptResponse => ResponseSends(r1, s.m, s.ok);
      case Accept => assert HandleAccept(r1, s.m).1.Some? ==> !Proposal(HandleAccept(r1, s.m).1.value);
      case AcceptResponse => ResponseSends(r1, s.m, s.ok);
      case Commit =>
    }
  }

  lemma ResponseSends(r: Replica, m: Message, ok: bool)
    ensures Announces(r, HandlePreAcceptResponse(r, m, ok)) && Announces(r, HandleAcceptResponse(r, m, ok))
  {
  }

  /** An outcome that leaves the ballot and proposes nothing under another. */
  ghost predicate Announces(r: Replica, x: (Replica, Option<Message>))
  {
    x.0.ballot == r.ballot &&
    (x.1.Some? ==> x.1.value.sender == r.index && (Proposal(x.1.value) ==> x.1.value.ballot == r.ballot))
  }

  /** `v` was a vote in the entry of `k`, or is what `m` brings. */
  ghost predicate OldOrBrought(r: Replica, k: Key, v: Vote, m: Message)
  {
    (k in r.commands && v in r.commands[k].votes)
    || (Response(m) && m.key == k && v == VoteOf(m))
  }

  lemma ResponseVotes(r: Replica, m: Message, ok: bool, k: Key, v: Vote)
    requires Response(m)
    ensures var r' := HandlePreAcceptResponse(r, m, ok).0;
            k in r'.commands && v in r'.commands[k].votes ==> OldOrBrought(r, k, v, m)
    ensures var r' := HandleAcceptResponse(r, m, ok).0;
            k in r'.commands && v in r'.commands[k].votes ==> OldOrBrought(r, k, v, m)
  {
  }

  lemma RequestVotes(r: Replica, m: Message, k: Key, v: Vote)
    ensures var r' := HandlePreAccept(r, m).0;
            k in r'.commands && v in r'.commands[k].votes ==> k in r.commands && v in r.commands[k].votes
    ensures var r' := HandleAccept(r, m).0;
            k in r'.commands && v in r'.commands[k].votes ==> k in r.commands && v in r.commands[k].votes
    ensures var r' := HandleCommit(r, m);
            k in r'.commands && v in r'.commands[k].votes ==> k in r.commands && v in r.commands[k].votes
  {
  }

  /** An entry keeps its votes, loses them, or gets the vote of the delivered response. */
  lemma ActVotes(r: Replica, s: Step, k: Key, v: Vote)
    requires k in Act(r, s).0.commands && v in Act(r, s).0.commands[k].votes
    ensures (k in r.commands && v in r.commands[k].votes) || (s.Deliver? && OldOrBrought(r, k, v, s.m))
  {
    hide HandlePreAccept, HandlePreAcceptResponse, HandleAccept, HandleAcceptResponse, HandleCommit;
    if s.Deliver? {
      var r1 := UpdateBallot(r, s.m.ballot);
      assert r1.commands == r.commands;
      RequestVotes(r1, s.m, k, v);
      if Response(s.m) { ResponseVotes(r1, s.m, s.ok, k, v); }
    }
  }

  lemma MoreSent(r: Replica, sent: set<Message>, more: set<Message>)
    requires AllBrought(r, sent) && sent <= more
    ensures AllBrought(r, more)
  {
    forall k, v | k in r.commands && v in r.commands[k].votes ensures Brought(more, k, v) {
      assert Brought(sent, k, v);
    }
  }

  lemma ActBrought(r: Replica, s: Step, sent: set<Message>)
    requires AllBrought(r, sent) && (s.Deliver? ==> s.m in sent)
    ensures AllBrought(Act(r, s).0, sent)
  {
    hide Act;
    var r' := Act(r, s).0;
    forall k, v | k in r'.commands && v in r'.commands[k].votes ensures Brought(sent, k, v) {
      ActVotes(r, s, k, v);
      assert k in r.commands && v in r.commands[k].votes ==> Brought(sent, k, v);
    }
  }

  lemma RequestsOwned(r: Replica, m: Message, n: nat)
    requires Owned(r, n)
    ensures Owner(m.ballot) < n ==> Owned(HandlePreAccept(r, m).0, n) && Owned(HandleAccept(r, m).0, n)
    ensures Owned(HandleCommit(r, m), n)
  {
  }

  lemma ResponsesOwned(r: Replica, m: Message, ok: bool, n: nat)
    requires Owned(r, n) && Owner(r.ballot) < n
    ensures Owned(HandlePreAcceptResponse(r, m, ok).0, n) && Owned(HandleAcceptResponse(r, m, ok).0, n)
  {
    hide CountOk;
  }

  lemma ActOwned(r: Replica, s: Step, n: nat)
    requires Fine(r) && Owned(r, n) && r.index < n
    requires s.Deliver? && Proposal(s.m) ==> Owner(s.m.ballot) < n
    ensures Owned(Act(r, s).0, n)
  {
    FineOwner(r);
    if s.Deliver? {
      hide HandlePreAccept, HandlePreAcceptResponse, HandleAccept, HandleAcceptResponse, HandleCommit;
      UpdatedBallot(r, s.m.ballot);
      var r1 := UpdateBallot(r, s.m.ballot);
      FineOwner(r1);
      RequestsOwned(r1, s.m, n);
      ResponsesOwned(r1, s.m, s.ok, n);
    }
  }

  lemma StartInv(n: nat)
    requires n <= 256
    ensures Inv(n, Start(n))
  {
    var w := Start(n);
    forall i | 0 <= i < n ensures ReplicaInv(n, w, i) {
      assert w.replicas[i] == Fresh(i, n);
    }
  }

  lemma NextKeeps(n: nat, w: World, s: Step)
    requires Inv(n, w) && Deliverable(w, s)
    ensures Inv(n, Next(w, s))
    ensures forall i :: 0 <= i < n ==> Forward(w.replicas[i], Next(w, s).replicas[i])
  {
    hide Act, AllBrought, Brought, Fine, Forward, Owned;
    var w', r := Next(w, s), w.replicas[s.i];
    assert ReplicaInv(n, w, s.i);
    assert s.Deliver? ==> Sound(w, s.m);
    ActOwned(r, s, n);
    ActKeeps(r, s);
    ActSends(r, s);
    ActBrought(r, s, w.sent);
    forall i | 0 <= i < n ensures ReplicaInv(n, w', i) && Forward(w.replicas[i], w'.replicas[i]) {
      assert ReplicaInv(n, w, i);
      ForwardSame(w.replicas[i]);
      ForwardIndex(r, w'.replicas[s.i]);
      MoreSent(if i == s.i then Act(r, s).0 else w.replicas[i], w.sent, w'.sent);
    }
    forall m | m in w'.sent ensures Sound(w', m) {
      ForwardIndex(r, w'.replicas[s.i]);
      FineOwner(w'.replicas[s.i]);
      assert m in w.sent ==> Sound(w, m);
    }
  }

  lemma ForwardSame(r: Replica)
    ensures Forward(r, r)
  {
  }

  lemma ForwardIndex(r: Replica, r': Replica)
    requires Forward(r, r')
    ensures r'.index == r.index && r'.peers == r.peers && r'.ballot >= r.ballot
  {
  }

  lemma FineOwner(r: Replica)
    requires Fine(r)
    ensures Owner(r.ballot) == r.index
  {
  }

  // ---------------------------------------------------------------- whole runs

  /** The invariant holds at every moment of every run. */
  lemma {:induction false} RunInv(n: nat, ws: seq<World>, ss: seq<Step>, t: nat)
    requires n <= 256 && IsRun(n, ws, ss) && t <= |ss|
    ensures Inv(n, ws[t])
  {
    if t == 0 {
      StartInv(n);
    } else {
      RunInv(n, ws, ss, t - 1);
      assert StepAt(ws, ss, t - 1);
      NextKeeps(n, ws[t - 1], ss[t - 1]);
    }
  }

  /** The ballot of a replica never decreases. */
  lemma {:induction false} BallotNeverDecreases(n: nat, ws: seq<World>, ss: seq<Step>, t: nat, u: nat, i: nat)
    requires n <= 256 && IsRun(n, ws, ss) && t <= u <= |ss| && i < n
    ensures |ws[t].replicas| == |ws[u].replicas| == n
    ensures ws[t].replicas[i].ballot <= ws[u].replicas[i].ballot
    decreases u
  {
    RunInv(n, ws, ss, t);
    if t < u {
      RunInv(n, ws, ss, u - 1);
      BallotNeverDecreases(n, ws, ss, t, u - 1, i);
      assert StepAt(ws, ss, u - 1);
      NextKeeps(n, ws[u - 1], ss[u - 1]);
    }
  }

  lemma {:induction false} RunSize(n: nat, ws: seq<World>, ss: seq<Step>, t: nat)
    requires IsRun(n, ws, ss) && t <= |ss|
    ensures |ws[t].replicas| == n
  {
    if t > 0 {
      RunSize(n, ws, ss, t - 1);
      assert StepAt(ws, ss, t - 1);
    }
  }

  /** As long as a replica follows the rules for a key, its entry is in step with its log. */
  lemma {:induction false} RunInStep(n: nat, ws: seq<World>, ss: seq<Step>, t: nat, i: nat, k: Key)
    requires IsRun(n, ws, ss) && t <= |ss| && i < n && Ruled(ws, ss, t, i, k)
    ensures |ws[t].replicas| == n && InStep(ws[t].replicas[i], k)
  {
    hide Act, Follows, InStep;
    RunSize(n, ws, ss, t);
    if t == 0 {
      FreshInStep(i, n, k);
    } else {
      RunInStep(n, ws, ss, t - 1, i, k);
      assert StepAt(ws, ss, t - 1);
      if ss[t - 1].i == i { ActSteady(ws[t - 1].replicas[i], ss[t - 1], k); }
    }
  }

  lemma FreshInStep(i: nat, n: nat, k: Key)
    requires i < n
    ensures InStep(Start(n).replicas[i], k)
  {
  }

  /** As long as a replica follows the rules for a key, its logged sequence number never
      decreases, although a leader commits without looking at the log. */
  lemma {:induction false} LogNeverDecreases(n: nat, ws: seq<World>, ss: seq<Step>, t: nat, u: nat, i: nat, k: Key)
    requires IsRun(n, ws, ss) && t <= u <= |ss| && i < n && Ruled(ws, ss, u, i, k)
    ensures |ws[t].replicas| == |ws[u].replicas| == n
    ensures ws[t].replicas[i].LastSeq(k) <= ws[u].replicas[i].LastSeq(k)
    decreases u
  {
    hide Act, Follows, InStep;
    RunSize(n, ws, ss, t);
    if t < u {
      LogNeverDecreases(n, ws, ss, t, u - 1, i, k);
      RunInStep(n, ws, ss, u - 1, i, k);
      assert StepAt(ws, ss, u - 1);
      if ss[u - 1].i == i { ActSteady(ws[u - 1].replicas[i], ss[u - 1], k); }
    }
  }

  /** From the moment a replica is given a message, its ballot exceeds the one received. */
  lemma BallotExceedsReceived(n: nat, ws: seq<World>, ss: seq<Step>, t: nat, u: nat)
    requires n <= 256 && IsRun(n, ws, ss) && t < u <= |ss| && ss[t].Deliver?
    ensures ss[t].i < |ws[u].replicas| && ws[u].replicas[ss[t].i].ballot > ss[t].m.ballot
  {
    hide Fine, Inv, Receive;
    assert StepAt(ws, ss, t);
    RunIndex(n, ws, ss, t, ss[t].i);
    RunFine(n, ws, ss, t, ss[t].i);
    ReceiveKeeps(ws[t].replicas[ss[t].i], ss[t].m, ss[t].ok);
    BallotNeverDecreases(n, ws, ss, t + 1, u, ss[t].i);
  }

  ghost predicate InTable(w: World, i: nat, k: Key)
  {
    i < |w.replicas| && k in w.replicas[i].commands
  }

  /** While a key stays in the table, even if a new local command takes its entry, its ballot
      and its sequence number never decrease. */
  lemma {:induction false} EntryNeverDecreases(n: nat, ws: seq<World>, ss: seq<Step>, t: nat, u: nat, i: nat, k: Key)
    requires n <= 256 && IsRun(n, ws, ss) && t <= u <= |ss| && i < n
    requires forall x :: t <= x <= u ==> InTable(ws[x], i, k)
    ensures InTable(ws[t], i, k) && InTable(ws[u], i, k)
    ensures ws[t].replicas[i].commands[k].seqno <= ws[u].replicas[i].commands[k].seqno
    ensures ws[t].replicas[i].commands[k].ballot <= ws[u].replicas[i].commands[k].ballot
    decreases u
  {
    assert InTable(ws[t], i, k) && InTable(ws[u], i, k);
    if t < u {
      assert InTable(ws[u - 1], i, k);
      EntryNeverDecreases(n, ws, ss, t, u - 1, i, k);
      RunInv(n, ws, ss, u - 1);
      assert StepAt(ws, ss, u - 1);
      NextKeeps(n, ws[u - 1], ss[u - 1]);
    }
  }

  /** Different replicas never propose under the same ballot. */
  lemma BallotsDiffer(n: nat, ws: seq<World>, ss: seq<Step>, t: nat, m: Message, m': Message)
    requires n <= 256 && IsRun(n, ws, ss) && t <= |ss|
    requires m in ws[t].sent && m' in ws[t].sent && Proposal(m) && Proposal(m') && m.sender != m'.sender
    ensures m.ballot != m'.ballot
  {
    RunInv(n, ws, ss, t);
    assert Sound(ws[t], m) && Sound(ws[t], m');
  }

  // ---------------------------------------------------------------- votes

  /** Step `u` is where the peer of `v` answered with it. */
  ghost predicate CastAt(ws: seq<World>, ss: seq<Step>, u: int, k: Key, v: Vote)
    requires |ws| == |ss| + 1
  {
    && 0 <= u < |ss| && ss[u].Deliver? && ss[u].i == v.peer < |ws[u].replicas|
    && ss[u].m.key == k
    && var p := Act(ws[u].replicas[v.peer], ss[u]).1;
       p.Some? && Response(p.value) && p.value.seqno == v.seqno && p.value.ballot == v.ballot
  }

  /** Every response in flight was the answer of its sender at a step of the run. */
  lemma {:induction false} ResponseCast(n: nat, ws: seq<World>, ss: seq<Step>, t: nat, m: Message) returns (u: nat)
    requires n <= 256 && IsRun(n, ws, ss) && t <= |ss| && m in ws[t].sent && Response(m)
    ensures u < t && CastAt(ws, ss, u, m.key, VoteOf(m))
    ensures Act(ws[u].replicas[m.sender], ss[u]).1 == Some(m)
  {
    hide Inv, ReplicaInv, Fine, Receive;
    assert t > 0;
    assert StepAt(ws, ss, t - 1);
    if m in ws[t - 1].sent {
      u := ResponseCast(n, ws, ss, t - 1, m);
    } else {
      u := t - 1;
      RunIndex(n, ws, ss, t - 1, ss[t - 1].i);
      ActSends(ws[u].replicas[ss[u].i], ss[u]);
      ActAnswers(ws[u].replicas[ss[u].i], ss[u]);
    }
  }

  lemma RunIndex(n: nat, ws: seq<World>, ss: seq<Step>, t: nat, i: nat)
    requires n <= 256 && IsRun(n, ws, ss) && t <= |ss| && i < |ws[t].replicas|
    ensures |ws[t].replicas| == n && ws[t].replicas[i].index == i && ws[t].replicas[i].peers == n
  {
    RunInv(n, ws, ss, t);
    assert ReplicaInv(n, ws[t], i);
  }

  /** Only the delivery of a message is answered, with a response about its key. A pre-accept
      is answered with a number not below its own or the logged one. */
  lemma ActAnswers(r: Replica, s: Step)
    ensures var p := Act(r, s).1;
            p.Some? && Response(p.value) ==>
              && s.Deliver? && p.value.key == s.m.key
              && p.value.seqno >= s.m.seqno
              && (p.value.kind == PreAcceptResponse ==> p.value.seqno >= r.LastSeq(s.m.key))
  {
    if s.Deliver? {
      var r1 := UpdateBallot(r, s.m.ballot);
      assert r1.log == r.log;
      match s.m.kind
      case PreAccept => PreAcceptAnswer(r1, s.m);
      case PreAcceptResponse => CommitsOrProposes(r1, s.m, s.ok);
      case Accept => AcceptAnswer(r1, s.m);
      case AcceptResponse => CommitsOrProposes(r1, s.m, s.ok);
      case Commit =>
    }
  }

  lemma PreAcceptAnswer(r: Replica, m: Message)
    ensures var p := HandlePreAccept(r, m).1;
            p.Some? ==> p.value.kind == PreAcceptResponse && p.value.key == m.key
                        && p.value.seqno >= m.seqno && p.value.seqno >= r.LastSeq(m.key)
  {
  }

  lemma AcceptAnswer(r: Replica, m: Message)
    ensures var p := HandleAccept(r, m).1;
            p.Some? ==> p.value.kind == AcceptResponse && p.value.key == m.key && p.value.seqno >= m.seqno
  {
  }

  lemma CommitsOrProposes(r: Replica, m: Message, ok: bool)
    ensures var p := HandlePreAcceptResponse(r, m, ok).1; p.Some? ==> !Response(p.value)
    ensures var p := HandleAcceptResponse(r, m, ok).1; p.Some? ==> !Response(p.value)
  {
  }

  /** The owner of a ballot that the recover callback is given is another replica of the group:
      its index is never out of range. */
  lemma RecoveryAsksPeer(n: nat, ws: seq<World>, ss: seq<Step>, t: nat, i: nat, k: Key)
    requires n <= 256 && IsRun(n, ws, ss) && t <= |ss| && i < |ws[t].replicas|
    ensures var q := ExpireRecovery(ws[t].replicas[i], k); q.Some? ==> q.value.peer < n && q.value.peer != i
    ensures forall m :: m in ws[t].sent && m.kind == PreAccept ==>
              var q := PreAcceptRecovery(ws[t].replicas[i], m);
              q.Some? ==> q.value.peer == m.sender < n && m.sender != i
  {
    hide HandlePreAccept, Fine;
    RunInv(n, ws, ss, t);
    assert ReplicaInv(n, ws[t], i);
    forall m | m in ws[t].sent ensures Sound(ws[t], m) { }
  }

  // ---------------------------------------------------------------- commits

  /** The step sends a commit because of a pre-accept response: the short path. */
  ghost predicate ShortCommit(r: Replica, s: Step)
  {
    s.Deliver? && s.m.kind == PreAcceptResponse && Commits(r, s)
  }

  ghost predicate Commits(r: Replica, s: Step)
  {
    Act(r, s).1.Some? && Act(r, s).1.value.kind == Commit
  }

  /** A commit logs the number of the entry, which leaves the table. */
  lemma CommitLogs(r: Replica, s: Step)
    requires Commits(r, s)
    ensures s.Deliver? && Response(s.m) && s.ok && s.m.key in r.commands
    ensures var c, r', p := r.commands[s.m.key], Act(r, s).0, Act(r, s).1.value;
            && p.key == s.m.key && p.seqno == c.seqno && p.ballot == c.ballot
            && p.ctype == c.ctype && p.data == c.data
            && s.m.key !in r'.commands && s.m.key in r'.log && r'.log[s.m.key] == Entry(p.seqno, p.ballot)
  {
    if s.Deliver? {
      var r1 := UpdateBallot(r, s.m.ballot);
      match s.m.kind
      case PreAccept => PreAcceptAnswer(r1, s.m);
      case PreAcceptResponse =>
      case Accept => AcceptAnswer(r1, s.m);
      case AcceptResponse =>
      case Commit =>
    }
  }

  lemma {:induction false} MaxVoteBounds(votes: seq<Vote>, v: Vote)
    requires v in votes
    ensures v.seqno <= MaxVote(votes)
  {
    var last := |votes| - 1;
    if v in votes[..last] {
      MaxVoteBounds(votes[..last], v);
    } else {
      assert v == votes[last];
    }
  }

  /** A short-path commit has enough votes, and its number is not below any of them. */
  lemma ShortCommitVotes(r: Replica, s: Step)
    requires Fine(r) && ShortCommit(r, s)
    ensures s.m.key in r.commands
    ensures var v := Voted(r.commands[s.m.key], s.m);
            && |v.votes| >= r.peers / 2 && v.maxSeq == MaxVote(v.votes)
            && v.maxSeq <= Act(r, s).1.value.seqno
  {
    CommitLogs(r, s);
    UpdatedBallot(r, s.m.ballot);
    assert FineEntry(r, r.commands[s.m.key]);
    VotedTally(r.commands[s.m.key], s.m);
  }

  /** `v` was cast before step `t`, and wherever it answered a pre-accept neither the request
      nor the log of the voter at that step is ahead of `seqno`. */
  ghost predicate Dominated(ws: seq<World>, ss: seq<Step>, t: int, k: Key, v: Vote, seqno: nat)
    requires |ws| == |ss| + 1
  {
    && v.seqno <= seqno
    && (exists u :: 0 <= u < t && CastAt(ws, ss, u, k, v))
    && (forall u :: 0 <= u < t && CastAt(ws, ss, u, k, v) && ss[u].m.kind == PreAccept ==>
          ss[u].m.seqno <= seqno && ws[u].replicas[v.peer].LastSeq(k) <= seqno)
  }

  /** At every short-path commit of every run: at least half the peers' votes since the last
      reset, `max_seq` their maximum, and a number that dominates the log, as it was when they
      voted, of every replica whose pre-accept vote counted. */
  lemma ShortPathDominates(n: nat, ws: seq<World>, ss: seq<Step>, t: nat)
    requires n <= 256 && IsRun(n, ws, ss) && t < |ss| && ss[t].i < |ws[t].replicas|
    requires ShortCommit(ws[t].replicas[ss[t].i], ss[t])
    ensures ss[t].m.key in ws[t].replicas[ss[t].i].commands && ss[t].i < |ws[t + 1].replicas|
    ensures var k, c := ss[t].m.key, ws[t].replicas[ss[t].i].commands[ss[t].m.key];
            var v := Voted(c, ss[t].m);
            && |v.votes| >= n / 2
            && v.maxSeq == MaxVote(v.votes) <= c.seqno
            && ws[t + 1].replicas[ss[t].i].LastSeq(k) == c.seqno
            && forall x :: x in v.votes ==> Dominated(ws, ss, t, k, x, c.seqno)
  {
    hide Act, Fine, Inv, Dominated;
    var r, m := ws[t].replicas[ss[t].i], ss[t].m;
    RunIndex(n, ws, ss, t, ss[t].i);
    RunFine(n, ws, ss, t, ss[t].i);
    CommitLogs(r, ss[t]);
    ShortCommitVotes(r, ss[t]);
    assert StepAt(ws, ss, t);
    var c := r.commands[m.key];
    var v := Voted(c, m);
    forall x | x in v.votes ensures Dominated(ws, ss, t, m.key, x, c.seqno) {
      MaxVoteBounds(v.votes, x);
      VoteDominated(n, ws, ss, t, ss[t].i, m, x, c.seqno);
    }
  }

  lemma RunFine(n: nat, ws: seq<World>, ss: seq<Step>, t: nat, i: nat)
    requires n <= 256 && IsRun(n, ws, ss) && t <= |ss| && i < |ws[t].replicas|
    ensures Fine(ws[t].replicas[i]) && AllBrought(ws[t].replicas[i], ws[t].sent)
  {
    RunInv(n, ws, ss, t);
    assert ReplicaInv(n, ws[t], i);
  }

  lemma VoteDominated(n: nat, ws: seq<World>, ss: seq<Step>, t: nat, i: nat, m: Message, x: Vote, seqno: nat)
    requires n <= 256 && IsRun(n, ws, ss) && t <= |ss| && i < |ws[t].replicas|
    requires m in ws[t].sent && Response(m) && OldOrBrought(ws[t].replicas[i], m.key, x, m) && x.seqno <= seqno
    ensures Dominated(ws, ss, t, m.key, x, seqno)
  {
    hide Act, Fine, Inv;
    RunFine(n, ws, ss, t, i);
    var q := m;
    if x != VoteOf(m) {
      assert Brought(ws[t].sent, m.key, x);
      q :| q in ws[t].sent && Response(q) && q.key == m.key && VoteOf(q) == x;
    }
    var _ := ResponseCast(n, ws, ss, t, q);
    forall u | 0 <= u < t && CastAt(ws, ss, u, m.key, x) && ss[u].m.kind == PreAccept
      ensures ss[u].m.seqno <= seqno && ws[u].replicas[x.peer].LastSeq(m.key) <= seqno
    {
      ActAnswers(ws[u].replicas[x.peer], ss[u]);
      AnswerKind(ws[u].replicas[x.peer], ss[u]);
    }
  }

  /** A pre-accept is answered by a pre-accept response and an accept by an accept response. */
  lemma AnswerKind(r: Replica, s: Step)
    requires s.Deliver? && Act(r, s).1.Some? && Response(Act(r, s).1.value)
    ensures s.m.kind == PreAccept ==> Act(r, s).1.value.kind == PreAcceptResponse
    ensures s.m.kind == Accept ==> Act(r, s).1.value.kind == AcceptResponse
  {
    var r1 := UpdateBallot(r, s.m.ballot);
    if s.m.kind == PreAccept { PreAcceptAnswer(r1, s.m); }
    if s.m.kind == Accept { AcceptAnswer(r1, s.m); }
  }

  // ---------------------------------------------------------------- escalation

  /** Moving to the accept phase, or trying it again, drops the votes and raises the ballot
      above the old one and the received one; the number does not decrease, and leaving the
      pre-accept phase it exceeds the old one and every vote. */
  lemma EscalationRaises(r: Replica, m: Message, ok: bool)
    requires Fine(r) && Response(m)
    requires var p := Receive(r, m, ok).1; p.Some? && p.value.kind == Accept
    ensures m.key in r.commands && m.key in Receive(r, m, ok).0.commands
    ensures var c, c', p := r.commands[m.key], Receive(r, m, ok).0.commands[m.key], Receive(r, m, ok).1.value;
            && c'.status == Accepted && c'.votes == []
            && p.key == m.key && p.ballot == c'.ballot && p.seqno == c'.seqno
            && c'.ballot > c.ballot && c'.ballot > m.ballot
            && c'.seqno >= c.seqno
            && (m.kind == PreAcceptResponse ==> c'.seqno > c.seqno && c'.seqno > m.seqno)
            && (m.kind == PreAcceptResponse ==> forall v :: v in c.votes ==> c'.seqno > v.seqno)
  {
    UpdatedBallot(r, m.ballot);
    assert UpdateBallot(r, m.ballot).commands == r.commands;
    if m.key in r.commands {
      var c := r.commands[m.key];
      assert FineEntry(r, c);
      forall v | v in c.votes ensures v.seqno <= c.maxSeq { MaxVoteBounds(c.votes, v); }
    }
  }

  // ---------------------------------------------------------------- local commands

  /** The entry of `k` leaves the table through a commit, local or received. */
  ghost predicate LeavesByCommit(r: Replica, s: Step, k: Key)
  {
    && k in r.commands && k !in Act(r, s).0.commands
    && (Commits(r, s) || (s.Deliver? && s.m.kind == Commit))
  }

  lemma LeavingLogs(r: Replica, s: Step, k: Key)
    requires LeavesByCommit(r, s, k)
    ensures Act(r, s).0.LastSeq(k) >= r.commands[k].seqno
  {
    if Commits(r, s) {
      CommitLogs(r, s);
      ReceiveElsewhere(r, s.m, s.ok);
    } else {
      assert UpdateBallot(r, s.m.ballot).commands == r.commands;
    }
  }

  /** Nothing changes but the entry and the log of `k`. */
  ghost predicate Elsewhere(r: Replica, r': Replica, k: Key)
  {
    forall x :: x != k ==> (x in r'.commands <==> x in r.commands) && r'.LastSeq(x) == r.LastSeq(x)
  }

  lemma RequestsElsewhere(r: Replica, m: Message)
    ensures Elsewhere(r, HandlePreAccept(r, m).0, m.key) && Elsewhere(r, HandleAccept(r, m).0, m.key)
    ensures Elsewhere(r, HandleCommit(r, m), m.key)
  {
  }

  lemma ResponsesElsewhere(r: Replica, m: Message, ok: bool)
    ensures Elsewhere(r, HandlePreAcceptResponse(r, m, ok).0, m.key)
    ensures Elsewhere(r, HandleAcceptResponse(r, m, ok).0, m.key)
  {
  }

  /** A message changes nothing but the entry and the log of its key. */
  lemma ReceiveElsewhere(r: Replica, m: Message, ok: bool)
    ensures Elsewhere(r, Receive(r, m, ok).0, m.key)
  {
    hide HandlePreAccept, HandlePreAcceptResponse, HandleAccept, HandleAcceptResponse, HandleCommit;
    var r1 := UpdateBallot(r, m.ballot);
    assert r1.commands == r.commands && r1.log == r.log;
    RequestsElsewhere(r1, m);
    ResponsesElsewhere(r1, m, ok);
    assert Elsewhere(r1, Receive(r, m, ok).0, m.key);
  }

  /** A local command whose entry leaves the table through a successful commit, its own or
      that of another replica, succeeds whenever its caller looks afterwards, if its replica
      follows the rules for its key. */
  lemma CommittedSucceeds(n: nat, ws: seq<World>, ss: seq<Step>, t: nat, u: nat, end: nat, i: nat, k: Key)
    requires n <= 256 && IsRun(n, ws, ss) && t < u < end <= |ss| && i < n && Ruled(ws, ss, end, i, k)
    requires ss[t].Run? && ss[t].i == i && ss[t].key == k
    requires forall x :: t < x <= u ==> InTable(ws[x], i, k)
    requires InTable(ws[u], i, k) && ss[u].i == i && LeavesByCommit(ws[u].replicas[i], ss[u], k)
    ensures InTable(ws[t + 1], i, k) && i < |ws[end].replicas|
    ensures RunResult(ws[end].replicas[i], k, ws[t + 1].replicas[i].commands[k].seqno) == 0
  {
    hide Act, Fine, Inv;
    EntryNeverDecreases(n, ws, ss, t + 1, u, i, k);
    assert StepAt(ws, ss, u);
    LeavingLogs(ws[u].replicas[i], ss[u], k);
    LogNeverDecreases(n, ws, ss, u + 1, end, i, k);
  }
}
