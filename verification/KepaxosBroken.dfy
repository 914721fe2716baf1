/** Runs of three kepaxos replicas. In two of them one step breaks a rule and a log goes back;
    in the third no step does and two commands are committed under one number. Every message
    goes to whom it was sent. */
module KepaxosBroken {
  import opened Wrappers
  import opened KepaxosModel
  import opened KepaxosReplica
  import opened KepaxosRuns
  import opened KepaxosRules

  /** A step that follows the rules. */
  ghost predicate Enabled(w: World, s: Step)
  {
    Deliverable(w, s) && Follows(w.replicas[s.i], s)
  }

  /** Steps that follow the rules lead from `w` to `w'`. */
  ghost predicate Leads(w: World, ss: seq<Step>, w': World)
    decreases |ss|
  {
    if ss == [] then w == w' else Enabled(w, ss[0]) && Leads(Next(w, ss[0]), ss[1..], w')
  }

  lemma {:induction false} LeadsOn(w: World, ss: seq<Step>, w1: World, ss': seq<Step>, w2: World)
    requires Leads(w, ss, w1) && Leads(w1, ss', w2)
    ensures Leads(w, ss + ss', w2)
    decreases |ss|
  {
    hide Next;
    if ss == [] {
      assert ss + ss' == ss';
    } else {
      assert (ss + ss')[1..] == ss[1..] + ss';
      LeadsOn(Next(w, ss[0]), ss[1..], w1, ss', w2);
    }
  }

  /** One more step, whose outcome is known. */
  lemma StepOn(w: World, ss: seq<Step>, w1: World, s: Step, r: Replica, m: Option<Message>, w2: World)
    requires Leads(w, ss, w1) && Enabled(w1, s) && Act(w1.replicas[s.i], s) == (r, m)
    requires w2 == World(w1.replicas[s.i := r], if m.Some? then w1.sent + {m.value} else w1.sent)
    ensures Leads(w, ss + [s], w2)
  {
    hide Act;
    assert [s][1..] == [] && Next(w1, s) == w2;
    assert Leads(Next(w1, s), [], w2);
    LeadsOn(w, ss, w1, [s], w2);
  }

  /** A pending command that nobody has voted for. */
  function Unvoted(ctype: nat, status: Status, seqno: nat, ballot: nat): Command
  {
    BLANK.(ctype := ctype, status := status, seqno := seqno, ballot := ballot)
  }

  /** One of three replicas, with an entry and a log for `k` only. */
  function One(index: nat, ballot: nat, k: Key, c: Option<Command>, seqno: nat): Replica
  {
    Replica(index, 3, ballot, if c.None? then map[] else map[k := c.value],
            if seqno == 0 then map[] else map[k := Entry(seqno, 0)], 0)
  }

  lemma OneChanges(index: nat, ballot: nat, k: Key, c: Option<Command>, seqno: nat, c': Command, seqno': nat)
    ensures One(index, ballot, k, c, seqno).With(k, c') == One(index, ballot, k, Some(c'), seqno)
    ensures One(index, ballot, k, c, seqno).Dropped(k) == One(index, ballot, k, None, seqno)
    ensures seqno' > 0 ==>
              One(index, ballot, k, c, seqno).Logged(k, Entry(seqno', 0)) == One(index, ballot, k, c, seqno')
  {
    var r := One(index, ballot, k, c, seqno);
    assert r.commands[k := c'] == map[k := c'];
    assert r.commands - {k} == map[];
    assert r.log[k := Entry(seqno', 0)] == map[k := Entry(seqno', 0)];
  }

  // ---------------------------------------------------------------- what the replicas do

  function Proposal1(k: Key): Message { Message(1, PreAccept, 0, 257, k, [], 1, false) }
  function Taken1(k: Key): Message { Message(2, PreAcceptResponse, 0, 257, k, [], 1, true) }
  function Accept1(k: Key): Message { Message(1, Accept, 0, 513, k, [], 2, false) }
  function Echo1(k: Key): Message { Message(0, AcceptResponse, 0, 513, k, [], 2, false) }
  function Proposal0(k: Key): Message { Message(0, PreAccept, 0, 768, k, [], 6, false) }
  function Taken0(k: Key): Message { Message(2, PreAcceptResponse, 0, 768, k, [], 9, true) }
  function Accept0(k: Key): Message { Message(0, Accept, 0, 1024, k, [], 10, false) }
  function Echo0(k: Key): Message { Message(2, AcceptResponse, 0, 1024, k, [], 10, false) }
  function First(k: Key): Message { Message(0, PreAccept, 0, 256, k, [], 1, false) }
  function Free(k: Key): Message { Message(1, PreAcceptResponse, 0, 256, k, [], 1, false) }

  /** Replica 1 proposes, and replica 2 answers that the number is taken. */
  lemma ActsPropose(k: Key)
    ensures Act(One(2, 258, k, None, 0), Recover(2, k, 0, 1)) ==
            (One(2, 258, k, None, 1), None)
    ensures Act(One(1, 257, k, None, 0), Run(1, 1, k, [])) ==
            (One(1, 257, k, Some(Unvoted(1, PreAccepted, 1, 257)), 0), Some(Proposal1(k)))
    ensures Act(One(2, 258, k, None, 1), Deliver(2, Proposal1(k), false)) ==
            (One(2, 514, k, Some(Unvoted(0, PreAccepted, 1, 257)), 1), Some(Taken1(k)))
  {
    OneChanges(2, 258, k, None, 0, BLANK, 1);
    OneChanges(1, 257, k, None, 0, Unvoted(1, PreAccepted, 1, 257), 0);
    OneChanges(2, 514, k, None, 1, Unvoted(0, PreAccepted, 1, 257), 1);
  }

  /** Replica 1 opens an accept round, and replica 0 records it. */
  lemma ActsOpen(k: Key)
    ensures Act(One(1, 257, k, Some(Unvoted(1, PreAccepted, 1, 257)), 0), Deliver(1, Taken1(k), false)) ==
            (One(1, 513, k, Some(Unvoted(1, Accepted, 2, 513).(maxSeqCommitted := true)), 0), Some(Accept1(k)))
    ensures Act(One(0, 256, k, None, 0), Deliver(0, Accept1(k), false)) ==
            (One(0, 768, k, Some(Unvoted(0, Accepted, 2, 513)), 0), Some(Echo1(k)))
  {
    OneChanges(1, 513, k, Some(Unvoted(1, PreAccepted, 1, 257)), 0,
               Unvoted(1, Accepted, 2, 513).(maxSeqCommitted := true), 0);
    OneChanges(0, 768, k, None, 0, Unvoted(0, Accepted, 2, 513), 0);
  }

  /** Replica 0 recovers number 5 and proposes above it. */
  lemma ActsOvertake(k: Key)
    ensures Act(One(0, 768, k, Some(Unvoted(0, Accepted, 2, 513)), 0), Recover(0, k, 0, 5)) ==
            (One(0, 768, k, Some(Unvoted(0, Accepted, 2, 513)), 5), None)
    ensures Act(One(0, 768, k, Some(Unvoted(0, Accepted, 2, 513)), 5), Run(0, 1, k, [])) ==
            (One(0, 768, k, Some(Unvoted(1, PreAccepted, 6, 768)), 5), Some(Proposal0(k)))
    ensures Act(One(2, 514, k, Some(Unvoted(0, PreAccepted, 1, 257)), 1), Recover(2, k, 0, 9)) ==
            (One(2, 514, k, Some(Unvoted(0, PreAccepted, 1, 257)), 9), None)
  {
    OneChanges(0, 768, k, Some(Unvoted(0, Accepted, 2, 513)), 0, Unvoted(0, Accepted, 2, 513), 5);
    OneChanges(0, 768, k, Some(Unvoted(0, Accepted, 2, 513)), 5, Unvoted(1, PreAccepted, 6, 768), 5);
    OneChanges(2, 514, k, Some(Unvoted(0, PreAccepted, 1, 257)), 1, Unvoted(0, PreAccepted, 1, 257), 9);
  }

  /** Replica 2 answers that the number is taken, and replica 0 opens an accept round. */
  lemma ActsAnswer(k: Key)
    ensures Act(One(2, 514, k, Some(Unvoted(0, PreAccepted, 1, 257)), 9), Deliver(2, Proposal0(k), false)) ==
            (One(2, 1026, k, Some(Unvoted(0, PreAccepted, 1, 768)), 9), Some(Taken0(k)))
    ensures Act(One(0, 768, k, Some(Unvoted(1, PreAccepted, 6, 768)), 5), Deliver(0, Taken0(k), false)) ==
            (One(0, 1024, k, Some(Unvoted(1, Accepted, 10, 1024).(maxSeqCommitted := true)), 5), Some(Accept0(k)))
  {
    OneChanges(2, 1026, k, Some(Unvoted(0, PreAccepted, 1, 257)), 9, Unvoted(0, PreAccepted, 1, 768), 9);
    OneChanges(0, 1024, k, Some(Unvoted(1, PreAccepted, 6, 768)), 5,
               Unvoted(1, Accepted, 10, 1024).(maxSeqCommitted := true), 5);
  }

  /** Replica 2 accepts; replica 0 drops its command and gets the other accept again. */
  lemma ActsLate(k: Key)
    ensures Act(One(2, 1026, k, Some(Unvoted(0, PreAccepted, 1, 768)), 9), Deliver(2, Accept0(k), false)) ==
            (One(2, 1282, k, Some(Unvoted(0, Accepted, 10, 1024)), 9), Some(Echo0(k)))
    ensures Act(One(0, 1024, k, Some(Unvoted(1, Accepted, 10, 1024).(maxSeqCommitted := true)), 5), Lapse(0, k)) ==
            (One(0, 1024, k, None, 5), None)
    ensures Act(One(0, 1024, k, None, 5), Deliver(0, Accept1(k), false)) ==
            (One(0, 1024, k, Some(Unvoted(0, Accepted, 2, 513)), 5), Some(Echo1(k)))
  {
    OneChanges(2, 1282, k, Some(Unvoted(0, PreAccepted, 1, 768)), 9, Unvoted(0, Accepted, 10, 1024), 9);
    OneChanges(0, 1024, k, Some(Unvoted(1, Accepted, 10, 1024).(maxSeqCommitted := true)), 5, BLANK, 5);
    OneChanges(0, 1024, k, None, 5, Unvoted(0, Accepted, 2, 513), 5);
  }

  /** Three fresh replicas. */
  function Beginning(k: Key): World
  {
    World([One(0, 256, k, None, 0),
           One(1, 257, k, None, 0),
           One(2, 258, k, None, 0)],
          {})
  }

  lemma StartThree(k: Key)
    ensures Start(3) == Beginning(k)
  {
  }

  /** Replica 1 has opened an accept round. */
  function Proposed(k: Key): World
  {
    World([One(0, 256, k, None, 0),
           One(1, 513, k, Some(Unvoted(1, Accepted, 2, 513).(maxSeqCommitted := true)), 0),
           One(2, 514, k, Some(Unvoted(0, PreAccepted, 1, 257)), 1)],
          {Proposal1(k), Taken1(k), Accept1(k)})
  }

  lemma RunPropose(k: Key)
    ensures Leads(Beginning(k), [Recover(2, k, 0, 1), Run(1, 1, k, []),
                                 Deliver(2, Proposal1(k), false), Deliver(1, Taken1(k), false)], Proposed(k))
  {
    hide Act, Next, Proposal1, Taken1, Accept1;
    var s0 := Recover(2, k, 0, 1);
    var s1 := Run(1, 1, k, []);
    var s2 := Deliver(2, Proposal1(k), false);
    var s3 := Deliver(1, Taken1(k), false);
    var a0 := One(0, 256, k, None, 0);
    var b0 := One(1, 257, k, None, 0);
    var b1 := One(1, 257, k, Some(Unvoted(1, PreAccepted, 1, 257)), 0);
    var b2 := One(1, 513, k, Some(Unvoted(1, Accepted, 2, 513).(maxSeqCommitted := true)), 0);
    var c0 := One(2, 258, k, None, 0);
    var c1 := One(2, 258, k, None, 1);
    var c2 := One(2, 514, k, Some(Unvoted(0, PreAccepted, 1, 257)), 1);
    var sent: set<Message> := {};
    var w0 := World([a0, b0, c0], sent);
    var w1 := World([a0, b0, c1], sent);
    var w2 := World([a0, b1, c1], sent + {Proposal1(k)});
    var w3 := World([a0, b1, c2], w2.sent + {Taken1(k)});
    var w4 := World([a0, b2, c2], w3.sent + {Accept1(k)});
    ActsPropose(k);
    ActsOpen(k);
    assert Leads(w0, [], w0);
    hide Leads;
    StepOn(w0, [], w0, s0, c1, None, w1);
    StepOn(w0, [s0], w1, s1, b1, Some(Proposal1(k)), w2);
    assert [s0] + [s1] == [s0, s1];
    StepOn(w0, [s0, s1], w2, s2, c2, Some(Taken1(k)), w3);
    assert [s0, s1] + [s2] == [s0, s1, s2];
    StepOn(w0, [s0, s1, s2], w3, s3, b2, Some(Accept1(k)), w4);
    assert [s0, s1, s2] + [s3] == [s0, s1, s2, s3];
    assert w4 == Proposed(k);
  }

  /** Replica 0 has recorded it, and has proposed above it. */
  function Overtaken(k: Key): World
  {
    World([One(0, 768, k, Some(Unvoted(1, PreAccepted, 6, 768)), 5),
           One(1, 513, k, Some(Unvoted(1, Accepted, 2, 513).(maxSeqCommitted := true)), 0),
           One(2, 514, k, Some(Unvoted(0, PreAccepted, 1, 257)), 9)],
          {Proposal1(k), Taken1(k), Accept1(k), Echo1(k), Proposal0(k)})
  }

  lemma RunOvertake(k: Key)
    ensures Leads(Proposed(k), [Deliver(0, Accept1(k), false), Recover(0, k, 0, 5),
                                Run(0, 1, k, []), Recover(2, k, 0, 9)], Overtaken(k))
  {
    hide Act, Next, Proposal1, Taken1, Accept1, Echo1, Proposal0;
    var s0 := Deliver(0, Accept1(k), false);
    var s1 := Recover(0, k, 0, 5);
    var s2 := Run(0, 1, k, []);
    var s3 := Recover(2, k, 0, 9);
    var a0 := One(0, 256, k, None, 0);
    var a1 := One(0, 768, k, Some(Unvoted(0, Accepted, 2, 513)), 0);
    var a2 := One(0, 768, k, Some(Unvoted(0, Accepted, 2, 513)), 5);
    var a3 := One(0, 768, k, Some(Unvoted(1, PreAccepted, 6, 768)), 5);
    var b2 := One(1, 513, k, Some(Unvoted(1, Accepted, 2, 513).(maxSeqCommitted := true)), 0);
    var c2 := One(2, 514, k, Some(Unvoted(0, PreAccepted, 1, 257)), 1);
    var c3 := One(2, 514, k, Some(Unvoted(0, PreAccepted, 1, 257)), 9);
    var sent: set<Message> := {Proposal1(k), Taken1(k), Accept1(k)};
    var w0 := World([a0, b2, c2], sent);
    var w1 := World([a1, b2, c2], sent + {Echo1(k)});
    var w2 := World([a2, b2, c2], sent + {Echo1(k)});
    var w3 := World([a3, b2, c2], sent + {Echo1(k), Proposal0(k)});
    var w4 := World([a3, b2, c3], sent + {Echo1(k), Proposal0(k)});
    ActsOpen(k);
    ActsOvertake(k);
    assert Leads(w0, [], w0);
    hide Leads;
    StepOn(w0, [], w0, s0, a1, Some(Echo1(k)), w1);
    StepOn(w0, [s0], w1, s1, a2, None, w2);
    assert [s0] + [s1] == [s0, s1];
    StepOn(w0, [s0, s1], w2, s2, a3, Some(Proposal0(k)), w3);
    assert [s0, s1] + [s2] == [s0, s1, s2];
    StepOn(w0, [s0, s1, s2], w3, s3, c3, None, w4);
    assert [s0, s1, s2] + [s3] == [s0, s1, s2, s3];
    assert w4 == Overtaken(k);
  }

  /** Replica 0 has opened a round, and replica 2 has accepted. */
  function Answered(k: Key): World
  {
    World([One(0, 1024, k, Some(Unvoted(1, Accepted, 10, 1024).(maxSeqCommitted := true)), 5),
           One(1, 513, k, Some(Unvoted(1, Accepted, 2, 513).(maxSeqCommitted := true)), 0),
           One(2, 1282, k, Some(Unvoted(0, Accepted, 10, 1024)), 9)],
          {Proposal1(k), Taken1(k), Accept1(k), Echo1(k), Proposal0(k), Taken0(k), Accept0(k), Echo0(k)})
  }

  lemma RunRound(k: Key)
    ensures Leads(Overtaken(k), [Deliver(2, Proposal0(k), false), Deliver(0, Taken0(k), false),
                                 Deliver(2, Accept0(k), false)], Answered(k))
  {
    hide Act, Next, Proposal1, Taken1, Accept1, Echo1, Proposal0, Taken0, Accept0, Echo0;
    var s0 := Deliver(2, Proposal0(k), false);
    var s1 := Deliver(0, Taken0(k), false);
    var s2 := Deliver(2, Accept0(k), false);
    var a3 := One(0, 768, k, Some(Unvoted(1, PreAccepted, 6, 768)), 5);
    var a4 := One(0, 1024, k, Some(Unvoted(1, Accepted, 10, 1024).(maxSeqCommitted := true)), 5);
    var b2 := One(1, 513, k, Some(Unvoted(1, Accepted, 2, 513).(maxSeqCommitted := true)), 0);
    var c3 := One(2, 514, k, Some(Unvoted(0, PreAccepted, 1, 257)), 9);
    var c4 := One(2, 1026, k, Some(Unvoted(0, PreAccepted, 1, 768)), 9);
    var c5 := One(2, 1282, k, Some(Unvoted(0, Accepted, 10, 1024)), 9);
    var sent: set<Message> := {Proposal1(k), Taken1(k), Accept1(k), Echo1(k), Proposal0(k)};
    var w0 := World([a3, b2, c3], sent);
    var w1 := World([a3, b2, c4], sent + {Taken0(k)});
    var w2 := World([a4, b2, c4], sent + {Taken0(k), Accept0(k)});
    var w3 := World([a4, b2, c5], sent + {Taken0(k), Accept0(k), Echo0(k)});
    ActsAnswer(k);
    ActsLate(k);
    assert Leads(w0, [], w0);
    hide Leads;
    StepOn(w0, [], w0, s0, c4, Some(Taken0(k)), w1);
    StepOn(w0, [s0], w1, s1, a4, Some(Accept0(k)), w2);
    assert [s0] + [s1] == [s0, s1];
    StepOn(w0, [s0, s1], w2, s2, c5, Some(Echo0(k)), w3);
    assert [s0, s1] + [s2] == [s0, s1, s2];
    assert w3 == Answered(k);
  }

  /** Replica 0 has dropped its command and recorded the other one in its place. */
  function Waiting(k: Key): World
  {
    World([One(0, 1024, k, Some(Unvoted(0, Accepted, 2, 513)), 5),
           One(1, 513, k, Some(Unvoted(1, Accepted, 2, 513).(maxSeqCommitted := true)), 0),
           One(2, 1282, k, Some(Unvoted(0, Accepted, 10, 1024)), 9)],
          {Proposal1(k), Taken1(k), Accept1(k), Echo1(k), Proposal0(k), Taken0(k), Accept0(k), Echo0(k)})
  }

  lemma RunLate(k: Key)
    ensures Leads(Answered(k), [Lapse(0, k), Deliver(0, Accept1(k), false)], Waiting(k))
  {
    hide Act, Next, Proposal1, Taken1, Accept1, Echo1, Proposal0, Taken0, Accept0, Echo0;
    var s0 := Lapse(0, k);
    var s1 := Deliver(0, Accept1(k), false);
    var a4 := One(0, 1024, k, Some(Unvoted(1, Accepted, 10, 1024).(maxSeqCommitted := true)), 5);
    var a5 := One(0, 1024, k, None, 5);
    var a6 := One(0, 1024, k, Some(Unvoted(0, Accepted, 2, 513)), 5);
    var b2 := One(1, 513, k, Some(Unvoted(1, Accepted, 2, 513).(maxSeqCommitted := true)), 0);
    var c5 := One(2, 1282, k, Some(Unvoted(0, Accepted, 10, 1024)), 9);
    var sent := {Proposal1(k), Taken1(k), Accept1(k), Echo1(k), Proposal0(k), Taken0(k), Accept0(k), Echo0(k)};
    var w0 := World([a4, b2, c5], sent);
    var w1 := World([a5, b2, c5], sent);
    var w2 := World([a6, b2, c5], sent);
    ActsLate(k);
    assert Leads(w0, [], w0);
    hide Leads;
    StepOn(w0, [], w0, s0, a5, None, w1);
    StepOn(w0, [s0], w1, s1, a6, Some(Echo1(k)), w2);
    assert [s0] + [s1] == [s0, s1];
    assert w2 == Waiting(k);
  }

  /** A commit callback that takes an entry without a type lets it lower the log: a run in which
      every message goes to whom it was sent, and only the last delivery breaks the rule. */
  lemma UntypedCommitLowersLog(k: Key) returns (ss: seq<Step>, w: World)
    ensures var bad := Deliver(0, Echo0(k), true);
            && Leads(Start(3), ss, w) && Deliverable(w, bad) && !CallbackRule(w.replicas[0], bad.m, bad.ok)
            && w.replicas[0].LastSeq(k) == 5 && Next(w, bad).replicas[0].LastSeq(k) == 2
  {
    StartThree(k);
    w := Waiting(k);
    ss := RunWhole(k);
    CommitsUntyped(k);
  }

  lemma RunWhole(k: Key) returns (ss: seq<Step>)
    ensures Leads(Beginning(k), ss, Waiting(k))
  {
    hide Leads, Beginning, Proposed, Overtaken, Answered, Waiting;
    RunPropose(k);
    RunOvertake(k);
    RunRound(k);
    RunLate(k);
    var s1 :| Leads(Beginning(k), s1, Proposed(k));
    var s2 :| Leads(Proposed(k), s2, Overtaken(k));
    var s3 :| Leads(Overtaken(k), s3, Answered(k));
    var s4 :| Leads(Answered(k), s4, Waiting(k));
    LeadsOn(Beginning(k), s1, Proposed(k), s2, Overtaken(k));
    LeadsOn(Beginning(k), s1 + s2, Overtaken(k), s3, Answered(k));
    LeadsOn(Beginning(k), s1 + s2 + s3, Answered(k), s4, Waiting(k));
    ss := s1 + s2 + s3 + s4;
  }

  lemma CommitsUntyped(k: Key)
    ensures Act(Waiting(k).replicas[0], Deliver(0, Echo0(k), true)).0.LastSeq(k) == 2
  {
    var r, m := Waiting(k).replicas[0], Echo0(k);
    var c := r.commands[k];
    assert (c.votes + [VoteOf(m)])[..0] == [];
    assert CountOk(c.votes + [VoteOf(m)], m.seqno, m.ballot) == 1;
    CommitsExactly(r, Deliver(0, m, true));
    CommitLogs(r, Deliver(0, m, true));
  }

  /** Replica 0 proposes and replica 1 answers. */
  lemma ActsAsk(k: Key)
    ensures Act(One(0, 256, k, None, 0), Run(0, 1, k, [])) ==
            (One(0, 256, k, Some(Unvoted(1, PreAccepted, 1, 256)), 0), Some(First(k)))
    ensures Act(One(1, 257, k, None, 0), Deliver(1, First(k), false)) ==
            (One(1, 513, k, Some(Unvoted(0, PreAccepted, 0, 256)), 0), Some(Free(k)))
  {
    OneChanges(0, 256, k, None, 0, Unvoted(1, PreAccepted, 1, 256), 0);
    OneChanges(1, 513, k, None, 0, Unvoted(0, PreAccepted, 0, 256), 0);
  }

  /** Replica 0 has proposed and replica 1 has answered. */
  function Asked(k: Key): World
  {
    World([One(0, 256, k, Some(Unvoted(1, PreAccepted, 1, 256)), 0),
           One(1, 513, k, Some(Unvoted(0, PreAccepted, 0, 256)), 0),
           One(2, 258, k, None, 0)],
          {First(k), Free(k)})
  }

  lemma RunAsk(k: Key)
    ensures Leads(Beginning(k), [Run(0, 1, k, []), Deliver(1, First(k), false)], Asked(k))
  {
    hide Act, Next, First, Free;
    var s0 := Run(0, 1, k, []);
    var s1 := Deliver(1, First(k), false);
    var a0 := One(0, 256, k, None, 0);
    var b0 := One(1, 257, k, None, 0);
    var c0 := One(2, 258, k, None, 0);
    var d1 := One(0, 256, k, Some(Unvoted(1, PreAccepted, 1, 256)), 0);
    var e1 := One(1, 513, k, Some(Unvoted(0, PreAccepted, 0, 256)), 0);
    var sent: set<Message> := {};
    var w0 := World([a0, b0, c0], sent);
    var w1 := World([d1, b0, c0], sent + {First(k)});
    var w2 := World([d1, e1, c0], sent + {First(k), Free(k)});
    ActsAsk(k);
    assert Leads(w0, [], w0);
    hide Leads;
    StepOn(w0, [], w0, s0, d1, Some(First(k)), w1);
    StepOn(w0, [s0], w1, s1, e1, Some(Free(k)), w2);
    assert [s0] + [s1] == [s0, s1];
    assert w2 == Asked(k);
  }

  /** A recovery ahead of a pending local command lets its commit lower the log: the recovery
      breaks the rule, and the answer that follows does not. */
  lemma EarlyRecoveryLowersLog(k: Key) returns (ss: seq<Step>, w: World)
    ensures var bad, last := Recover(0, k, 0, 5), Deliver(0, Free(k), true);
            && Leads(Start(3), ss, w) && Deliverable(w, bad) && !RecoveryRule(w.replicas[0], k, 5)
            && var w1 := Next(w, bad);
               Enabled(w1, last) && w1.replicas[0].LastSeq(k) == 5 && Next(w1, last).replicas[0].LastSeq(k) == 1
  {
    StartThree(k);
    RunAsk(k);
    ss := [Run(0, 1, k, []), Deliver(1, First(k), false)];
    w := Asked(k);
    var r := Next(w, Recover(0, k, 0, 5)).replicas[0];
    CommitsExactly(r, Deliver(0, Free(k), true));
    CommitLogs(r, Deliver(0, Free(k), true));
  }

  // ---------------------------------------------------------------- no agreement

  /** The command of replica `i`, its pre-accept, the answer of replica 2, and the commit. */
  function Own(i: nat, data: Data): Command { Unvoted(1, PreAccepted, 1, 256 + i).(data := data) }
  function Ask(i: nat, k: Key): Message { Message(i, PreAccept, 0, 256 + i, k, [], 1, false) }
  function Agree(i: nat, k: Key): Message { Message(2, PreAcceptResponse, 0, 256 + i, k, [], 1, false) }
  function Decide(i: nat, k: Key, data: Data): Message { Message(i, Commit, 1, 256 + i, k, data, 1, true) }

  /** Replica `i` after its commit. */
  function Decided(i: nat, k: Key): Replica
  {
    Replica(i, 3, 512 + i, map[], map[k := Entry(1, 256 + i)], 256 + i)
  }

  /** A leader proposes number 1, and one answer lets it commit. */
  lemma ActsLead(i: nat, k: Key, data: Data)
    requires i < 2
    ensures Act(One(i, 256 + i, k, None, 0), Run(i, 1, k, data)) ==
            (One(i, 256 + i, k, Some(Own(i, data)), 0), Some(Ask(i, k)))
    ensures Act(One(i, 256 + i, k, Some(Own(i, data)), 0), Deliver(i, Agree(i, k), true)) ==
            (Decided(i, k), Some(Decide(i, k, data)))
  {
    OneChanges(i, 256 + i, k, None, 0, Own(i, data), 0);
    var r := One(i, 256 + i, k, Some(Own(i, data)), 0);
    var r1 := UpdateBallot(r, 256 + i);
    assert Counter(256 + i) == 1 && r1 == One(i, 512 + i, k, Some(Own(i, data)), 0);
    OneChanges(i, 512 + i, k, Some(Own(i, data)), 0, BLANK, 0);
    assert r1.Dropped(k).Logged(k, Entry(1, 256 + i)) == Decided(i, k);
  }

  /** Replica 2 answers both with number 1, because it has kept number 0. */
  lemma ActsAgree(k: Key)
    ensures Act(One(2, 258, k, None, 0), Deliver(2, Ask(0, k), false)) ==
            (One(2, 514, k, Some(Unvoted(0, PreAccepted, 0, 256)), 0), Some(Agree(0, k)))
    ensures Act(One(2, 514, k, Some(Unvoted(0, PreAccepted, 0, 256)), 0), Deliver(2, Ask(1, k), false)) ==
            (One(2, 514, k, Some(Unvoted(0, PreAccepted, 0, 257)), 0), Some(Agree(1, k)))
  {
    OneChanges(2, 514, k, None, 0, Unvoted(0, PreAccepted, 0, 256), 0);
    OneChanges(2, 514, k, Some(Unvoted(0, PreAccepted, 0, 256)), 0, Unvoted(0, PreAccepted, 0, 257), 0);
  }

  /** Both leaders have their answer. */
  function Promised(k: Key, x: Data, y: Data): World
  {
    World([One(0, 256, k, Some(Own(0, x)), 0),
           One(1, 257, k, Some(Own(1, y)), 0),
           One(2, 514, k, Some(Unvoted(0, PreAccepted, 0, 257)), 0)],
          {Ask(0, k), Ask(1, k), Agree(0, k), Agree(1, k)})
  }

  lemma RunPromise(k: Key, x: Data, y: Data)
    ensures Leads(Beginning(k), [Run(0, 1, k, x), Run(1, 1, k, y),
                                 Deliver(2, Ask(0, k), false), Deliver(2, Ask(1, k), false)], Promised(k, x, y))
  {
    hide Act, Next, Ask, Agree, Own;
    var s0 := Run(0, 1, k, x);
    var s1 := Run(1, 1, k, y);
    var s2 := Deliver(2, Ask(0, k), false);
    var s3 := Deliver(2, Ask(1, k), false);
    var a0 := One(0, 256, k, None, 0);
    var a1 := One(0, 256, k, Some(Own(0, x)), 0);
    var b0 := One(1, 257, k, None, 0);
    var b1 := One(1, 257, k, Some(Own(1, y)), 0);
    var c0 := One(2, 258, k, None, 0);
    var c1 := One(2, 514, k, Some(Unvoted(0, PreAccepted, 0, 256)), 0);
    var c2 := One(2, 514, k, Some(Unvoted(0, PreAccepted, 0, 257)), 0);
    var sent: set<Message> := {};
    var w0 := World([a0, b0, c0], sent);
    var w1 := World([a1, b0, c0], sent + {Ask(0, k)});
    var w2 := World([a1, b1, c0], w1.sent + {Ask(1, k)});
    var w3 := World([a1, b1, c1], w2.sent + {Agree(0, k)});
    var w4 := World([a1, b1, c2], w3.sent + {Agree(1, k)});
    ActsLead(0, k, x);
    ActsLead(1, k, y);
    ActsAgree(k);
    assert Leads(w0, [], w0);
    hide Leads;
    StepOn(w0, [], w0, s0, a1, Some(Ask(0, k)), w1);
    StepOn(w0, [s0], w1, s1, b1, Some(Ask(1, k)), w2);
    assert [s0] + [s1] == [s0, s1];
    StepOn(w0, [s0, s1], w2, s2, c1, Some(Agree(0, k)), w3);
    assert [s0, s1] + [s2] == [s0, s1, s2];
    StepOn(w0, [s0, s1, s2], w3, s3, c2, Some(Agree(1, k)), w4);
    assert [s0, s1, s2] + [s3] == [s0, s1, s2, s3];
    assert w4 == Promised(k, x, y);
  }

  /** Both leaders have committed. */
  function Split(k: Key, x: Data, y: Data): World
  {
    World([Decided(0, k), Decided(1, k), One(2, 514, k, Some(Unvoted(0, PreAccepted, 0, 257)), 0)],
          {Ask(0, k), Ask(1, k), Agree(0, k), Agree(1, k), Decide(0, k, x), Decide(1, k, y)})
  }

  lemma RunSplit(k: Key, x: Data, y: Data)
    ensures Leads(Promised(k, x, y), [Deliver(0, Agree(0, k), true), Deliver(1, Agree(1, k), true)], Split(k, x, y))
  {
    var s0 := Deliver(0, Agree(0, k), true);
    var s1 := Deliver(1, Agree(1, k), true);
    var a1 := One(0, 256, k, Some(Own(0, x)), 0);
    var b1 := One(1, 257, k, Some(Own(1, y)), 0);
    assert Follows(a1, s0) && Follows(b1, s1);
    hide Act, Next, Ask, Agree, Own, Decide, Decided, Follows;
    var c2 := One(2, 514, k, Some(Unvoted(0, PreAccepted, 0, 257)), 0);
    var sent: set<Message> := {Ask(0, k), Ask(1, k), Agree(0, k), Agree(1, k)};
    var w0 := World([a1, b1, c2], sent);
    var w1 := World([Decided(0, k), b1, c2], sent + {Decide(0, k, x)});
    var w2 := World([Decided(0, k), Decided(1, k), c2], w1.sent + {Decide(1, k, y)});
    ActsLead(0, k, x);
    ActsLead(1, k, y);
    assert Leads(w0, [], w0);
    hide Leads;
    StepOn(w0, [], w0, s0, Decided(0, k), Some(Decide(0, k, x)), w1);
    StepOn(w0, [s0], w1, s1, Decided(1, k), Some(Decide(1, k, y)), w2);
    assert [s0] + [s1] == [s0, s1];
    assert w2 == Split(k, x, y);
  }

  /** Replicas need not agree on a key and a number: a run in which every step follows the
      rules and two leaders commit any two commands `x` and `y` under number 1 of `k`. */
  lemma OneNumberTwoCommands(k: Key, x: Data, y: Data) returns (ss: seq<Step>, w: World)
    ensures Leads(Start(3), ss, w)
    ensures Decide(0, k, x) in w.sent && Decide(1, k, y) in w.sent
    ensures |w.replicas| == 3 && w.replicas[0].LastSeq(k) == 1 == w.replicas[1].LastSeq(k)
  {
    StartThree(k);
    w := Split(k, x, y);
    RunPromise(k, x, y);
    RunSplit(k, x, y);
    var s1 := [Run(0, 1, k, x), Run(1, 1, k, y), Deliver(2, Ask(0, k), false), Deliver(2, Ask(1, k), false)];
    var s2 := [Deliver(0, Agree(0, k), true), Deliver(1, Agree(1, k), true)];
    LeadsOn(Beginning(k), s1, Promised(k, x, y), s2, w);
    ss := s1 + s2;
  }
}
