/** The kepaxos context as the program keeps it: command objects in a table, updated in place
    by the handlers. Each handler computes what the function of the same name says. */
module KepaxosNode {
  import opened Wrappers
  import opened KepaxosModel
  import M = KepaxosModel
  import opened KepaxosReplica

  class Cmd {
    const ctype: nat
    const data: Data
    var status: Status
    var seqno: nat
    var ballot: nat
    var votes: seq<Vote>
    var maxSeq: nat
    var maxSeqCommitted: bool
    var maxVoter: Option<nat>

    constructor (ctype: nat, data: Data)
      ensures Value() == BLANK.(ctype := ctype, data := data)
    {
      this.ctype, this.data := ctype, data;
      status, seqno, ballot := NoStatus, 0, 0;
      votes, maxSeq, maxSeqCommitted, maxVoter := [], 0, false, None;
    }

    /** A command of this replica. */
    constructor Local(ctype: nat, data: Data, seqno: nat, ballot: nat)
      ensures Value() == BLANK.(ctype := ctype, data := data, status := PreAccepted, seqno := seqno, ballot := ballot)
    {
      this.ctype, this.data, this.seqno, this.ballot := ctype, data, seqno, ballot;
      status := PreAccepted;
      votes, maxSeq, maxSeqCommitted, maxVoter := [], 0, false, None;
    }

    function Value(): Command
      reads this
    {
      Command(ctype, data, status, seqno, ballot, votes, maxSeq, maxSeqCommitted, maxVoter)
    }

    /** Takes the ballot of a pre-accept and, unless the key is ahead of it, its phase. */
    method PreAccept(m: Message, interfering: nat)
      modifies this
      ensures Value() == PreAcceptedAt(old(Value()), m, interfering)
    {
      ballot := m.ballot;
      if m.seqno >= interfering {
        status, seqno := PreAccepted, interfering;
      }
    }

    /** Adds a vote and takes its number into the maximum. */
    method AddVote(m: Message)
      modifies this
      ensures Value() == AcceptVoted(old(Value()), m)
    {
      votes := votes + [Vote(m.sender, m.ballot, m.seqno)];
      if m.seqno > maxSeq {
        maxSeq := m.seqno;
      }
      if maxSeq == m.seqno {
        maxVoter := Some(m.sender);
      }
    }

    /** Adds the vote of a pre-accept response, with its committed flag. */
    method AddPreAcceptVote(m: Message)
      modifies this
      ensures Value() == Voted(old(Value()), m)
    {
      if m.seqno != maxSeq {
        maxSeqCommitted := m.committed && m.seqno > maxSeq;
      } else if m.committed {
        maxSeqCommitted := true;
      }
      AddVote(m);
    }

    /** Forgets the votes and starts an accept round. */
    method Restart(seqno: nat, ballot: nat)
      modifies this
      ensures Value() == old(Value()).(status := Accepted, seqno := seqno, ballot := ballot,
                                       votes := [], maxSeq := 0, maxVoter := None)
    {
      votes, maxSeq, maxVoter := [], 0, None;
      this.seqno, this.ballot, status := seqno, ballot, Accepted;
    }

    /** Counts the votes that agree with a response. */
    method CountVotes(seqno: nat, ballot: nat) returns (count: nat)
      ensures count == CountOk(votes, seqno, ballot)
    {
      count := 0;
      for i := 0 to |votes|
        invariant count == CountOk(votes[..i], seqno, ballot)
      {
        assert votes[..i + 1][..i] == votes[..i];
        if votes[i].seqno == seqno && votes[i].ballot == ballot {
          count := count + 1;
        }
      }
      assert votes[..|votes|] == votes;
    }
  }

  lemma WithTwice(r: Replica, k: Key, c: Command)
    ensures r.With(k, c).Dropped(k) == r.Dropped(k)
    ensures forall c' :: r.With(k, c).With(k, c') == r.With(k, c')
  {
    forall c' ensures r.With(k, c).With(k, c') == r.With(k, c') {
      assert r.commands[k := c][k := c'] == r.commands[k := c'];
    }
  }

  lemma BallotAside(r: Replica, m: Message)
    ensures PreAcceptRecovery(M.UpdateBallot(r, m.ballot), m) == PreAcceptRecovery(r, m)
  {
  }

  class Node {
    const index: nat
    const peers: nat
    var ballot: nat
    var commands: map<Key, Cmd>
    var log: map<Key, Entry>
    var maxBallot: nat

    // What the recover callback has been asked.
    var recoveries: seq<Recovery>

    /** No command object is in the table twice. */
    ghost predicate Valid()
      reads `commands
    {
      forall k, k' :: k in commands && k' in commands && k != k' ==> commands[k] != commands[k']
    }

    ghost function Table(): map<Key, Command>
      reads `commands, commands.Values
    {
      map k | k in commands :: commands[k].Value()
    }

    ghost function State(): Replica
      reads `ballot, `commands, `log, `maxBallot, commands.Values
    {
      Replica(index, peers, ballot, Table(), log, maxBallot)
    }

    constructor (index: nat, peers: nat)
      ensures Valid() && State() == Fresh(index, peers) && commands == map[] && recoveries == []
    {
      this.index, this.peers := index, peers;
      ballot := 256 + index;
      commands, log, maxBallot, recoveries := map[], map[], 0, [];
      new;
      assert Table() == map[];
    }

    method LastSeq(k: Key) returns (seqno: nat, ballot: nat)
      ensures seqno == State().LastSeq(k) && ballot == State().LastBallot(k)
    {
      if k in log {
        seqno, ballot := log[k].seqno, log[k].ballot;
      } else {
        seqno, ballot := 0, 0;
      }
    }

    method SetLastSeq(k: Key, ballot: nat, seqno: nat)
      requires Valid()
      modifies `log, `maxBallot
      ensures Valid() && State() == old(State()).Logged(k, Entry(seqno, ballot))
    {
      log := log[k := Entry(seqno, ballot)];
      if ballot > maxBallot {
        maxBallot := ballot;
      }
    }

    method UpdateBallot(received: nat)
      requires Valid()
      modifies `ballot
      ensures Valid() && State() == M.UpdateBallot(old(State()), received)
    {
      var value := received / 256;
      if value != 0 {
        var updated := (value + 1) * 256 + index;
        if ballot < updated {
          ballot := updated;
        }
      }
    }

    /** Puts a new object in the table, in the place of the one there, if any. */
    method Store(k: Key, c: Cmd)
      requires Valid() && c !in commands.Values
      modifies `commands
      ensures Valid() && commands == old(commands)[k := c]
      ensures State() == old(State()).With(k, c.Value())
    {
      commands := commands[k := c];
      assert Table() == old(Table())[k := c.Value()];
    }

    method Delete(k: Key)
      requires Valid()
      modifies `commands
      ensures Valid() && commands == old(commands) - {k}
      ensures State() == old(State()).Dropped(k)
    {
      commands := commands - {k};
      assert Table() == old(Table()) - {k};
    }

    ghost function Asked(r: Option<Recovery>): seq<Recovery>
    {
      if r.Some? then [r.value] else []
    }

    /** `kepaxos_expire_command`: an entry whose time is over leaves the table, and the owner of
        its ballot, if that is another, is asked about the key. */
    method ExpireCommand(k: Key, expired: bool) returns (rc: int)
      requires Valid() && k in commands
      modifies `commands, `recoveries
      ensures Valid() && State() == if expired then M.Expire(old(State()), k) else old(State())
      ensures recoveries == old(recoveries) + if expired then Asked(ExpireRecovery(old(State()), k)) else []
      ensures rc == if expired then -1 else 1
    {
      Listed(k);
      if expired {
        var c := commands[k];
        if c.status != NoStatus && c.ballot % 256 != index {
          recoveries := recoveries + [Recovery(c.ballot % 256, k, c.seqno, c.ballot)];
        }
        Delete(k);
        rc := -1;
      } else {
        rc := 1;
      }
    }

    /** The table holds the values of the objects. */
    lemma Listed(k: Key)
      ensures k in State().commands <==> k in commands
      ensures k in commands ==> State().commands[k] == commands[k].Value() && commands[k] in commands.Values
    {
    }

    /** Changing one object changes one entry of the table. */
    twostate lemma OneChanged(k: Key)
      requires old(Valid()) && k in commands
      requires unchanged(`ballot) && unchanged(`commands) && unchanged(`log) && unchanged(`maxBallot)
      requires forall c :: c in commands.Values && c != commands[k] ==> unchanged(c)
      ensures State() == old(State()).With(k, commands[k].Value())
    {
      forall x | x in commands && x != k ensures commands[x].Value() == old(commands[x].Value()) {
        assert commands[x] in commands.Values;
      }
      assert Table() == old(Table())[k := commands[k].Value()];
    }

    /** What a pre-accept does to an entry it is not too old for. */
    method TakeOver(m: Message, interfering: nat)
      requires Valid() && m.key in commands
      modifies commands[m.key], `recoveries
      ensures var c := old(commands[m.key].Value());
              && State() == old(State()).With(m.key, PreAcceptedAt(c, m, interfering))
              && recoveries == old(recoveries) +
                   if m.seqno >= interfering && c.status == Accepted && Owner(m.ballot) != index
                   then [Recovery(Owner(m.ballot), m.key, c.seqno, m.ballot)] else []
    {
      var c := commands[m.key];
      if m.seqno >= interfering && c.status == Accepted && m.ballot % 256 != index {
        recoveries := recoveries + [Recovery(m.ballot % 256, m.key, c.seqno, m.ballot)];
      }
      c.PreAccept(m, interfering);
      OneChanged(m.key);
    }

    /** The vote of a pre-accept response. */
    method AddPreAcceptVote(k: Key, m: Message)
      requires Valid() && k in commands
      modifies commands[k]
      ensures State() == old(State()).With(k, Voted(old(commands[k].Value()), m))
      ensures commands[k].Value() == Voted(old(commands[k].Value()), m)
    {
      commands[k].AddPreAcceptVote(m);
      OneChanged(k);
    }

    /** The vote of an accept response. */
    method AddVote(k: Key, m: Message)
      requires Valid() && k in commands
      modifies commands[k]
      ensures State() == old(State()).With(k, AcceptVoted(old(commands[k].Value()), m))
      ensures commands[k].Value() == AcceptVoted(old(commands[k].Value()), m)
    {
      commands[k].AddVote(m);
      OneChanged(k);
    }

    /** A new accept round, and the message that opens it. */
    method Restart(k: Key, seqno: nat) returns (p: Option<Message>)
      requires Valid() && k in commands
      modifies commands[k]
      ensures State() == old(State()).With(k, Escalated(old(State()), old(commands[k].Value()), seqno))
      ensures p == Some(AcceptMessage(State(), k, seqno))
    {
      commands[k].Restart(seqno, ballot);
      OneChanged(k);
      p := Some(Message(index, Accept, 0, ballot, k, [], seqno, false));
    }

    /** Takes a command out of the table and commits it. */
    method DeleteAndCommit(k: Key, ok: bool) returns (p: Option<Message>)
      requires Valid() && k in commands
      modifies `commands, `log, `maxBallot
      ensures Valid() && commands.Values <= old(commands.Values)
      ensures (State(), p) == CommitLocal(old(State()).Dropped(k), k, old(commands[k].Value()), ok)
    {
      var c := commands[k];
      Delete(k);
      p := CommitCommand(k, c, ok);
    }

    /** `kepaxos_run_command` up to the pre-accept it sends. */
    method RunCommand(ctype: nat, k: Key, data: Data) returns (m: Message)
      requires Valid()
      modifies `commands
      ensures Valid() && fresh(commands.Values - old(commands.Values))
      ensures (State(), m) == M.RunCommand(old(State()), ctype, k, data)
      ensures Fine(old(State())) ==> Fine(State()) && Forward(old(State()), State())
      ensures forall x :: Steady(old(State()), State(), x)
    {
      hide Table, Valid, Fine, Forward, Steady;
      if Fine(State()) { RunCommandKeeps(State(), ctype, k, data); }
      forall x ensures Steady(State(), M.RunCommand(State(), ctype, k, data).0, x) {
        RunCommandSteady(State(), ctype, k, data, x);
      }
      var last, _ := LastSeq(k);
      Listed(k);
      var seqno := last + 1;
      if k in commands && commands[k].seqno + 1 > seqno {
        seqno := commands[k].seqno + 1;
      }
      var c := new Cmd.Local(ctype, data, seqno, ballot);
      Store(k, c);
      m := Message(index, PreAccept, 0, ballot, k, [], seqno, false);
    }

    /** What `kepaxos_run_command` returns in the end for the command it made. */
    method Outcome(k: Key, seqno: nat) returns (rc: int)
      ensures rc == RunResult(State(), k, seqno)
    {
      var current, _ := LastSeq(k);
      rc := if current >= seqno then 0 else -1;
    }

    method HandlePreAccept(m: Message) returns (p: Option<Message>)
      requires Valid()
      modifies this, commands.Values
      ensures Valid() && fresh(commands.Values - old(commands.Values))
      ensures (State(), p) == M.HandlePreAccept(old(State()), m)
      ensures recoveries == old(recoveries) + Asked(PreAcceptRecovery(old(State()), m))
    {
      hide Table, Valid;
      var last, lastBallot := LastSeq(m.key);
      Listed(m.key);
      if last == m.seqno && lastBallot == m.ballot {
        return None;
      }
      var interfering := last;
      if m.key in commands {
        var c := commands[m.key];
        if m.ballot < c.ballot {
          return None;
        }
        if c.seqno > interfering {
          interfering := c.seqno;
        }
        TakeOver(m, interfering);
      } else {
        var c := new Cmd(0, []);
        c.seqno := m.seqno;
        c.PreAccept(m, interfering);
        Store(m.key, c);
      }
      var maxSeq := if m.seqno > interfering then m.seqno else interfering;
      p := Some(Message(index, PreAcceptResponse, 0, m.ballot, m.key, [], maxSeq, maxSeq == last));
    }

    /** `kepaxos_commit` of a command that has left the table. */
    method CommitCommand(k: Key, c: Cmd, ok: bool) returns (p: Option<Message>)
      requires Valid()
      modifies `log, `maxBallot
      ensures Valid()
      ensures (State(), p) == CommitLocal(old(State()), k, c.Value(), ok)
    {
      if !ok {
        return None;
      }
      SetLastSeq(k, c.ballot, c.seqno);
      p := Some(Message(index, Commit, c.ctype, c.ballot, k, c.data, c.seqno, true));
    }

    method HandlePreAcceptResponse(m: Message, ok: bool) returns (p: Option<Message>)
      requires Valid()
      modifies this, commands.Values
      ensures Valid() && commands.Values <= old(commands.Values)
      ensures (State(), p) == M.HandlePreAcceptResponse(old(State()), m, ok)
      ensures recoveries == old(recoveries)
    {
      hide Table, Valid;
      Listed(m.key);
      if m.key !in commands {
        return None;
      }
      var c := commands[m.key];
      if m.ballot < c.ballot || c.status != PreAccepted {
        return None;
      }
      AddPreAcceptVote(m.key, m);
      WithTwice(old(State()), m.key, c.Value());
      if |c.votes| < peers / 2 {
        return None;
      }
      if c.seqno > c.maxSeq || (c.seqno == c.maxSeq && !c.maxSeqCommitted) {
        p := DeleteAndCommit(m.key, ok);
      } else {
        p := Restart(m.key, c.maxSeq + 1);
      }
    }

    method HandleAccept(m: Message) returns (p: Option<Message>)
      requires Valid()
      modifies this, commands.Values
      ensures Valid() && fresh(commands.Values - old(commands.Values))
      ensures (State(), p) == M.HandleAccept(old(State()), m)
      ensures recoveries == old(recoveries)
    {
      hide Table, Valid;
      var last, _ := LastSeq(m.key);
      Listed(m.key);
      var acceptedBallot, acceptedSeq := m.ballot, m.seqno;
      if m.key in commands {
        var c := commands[m.key];
        if m.ballot < c.ballot {
          return None;
        }
        if m.seqno >= c.seqno {
          c.seqno, c.ballot, c.status := m.seqno, m.ballot, Accepted;
        } else {
          acceptedBallot, acceptedSeq := c.ballot, c.seqno;
        }
        OneChanged(m.key);
      } else {
        var c := new Cmd(0, []);
        c.seqno, c.ballot, c.status := m.seqno, m.ballot, Accepted;
        Store(m.key, c);
      }
      p := Some(Message(index, AcceptResponse, 0, acceptedBallot, m.key, [], acceptedSeq, acceptedSeq == last));
    }

    method HandleAcceptResponse(m: Message, ok: bool) returns (p: Option<Message>)
      requires Valid()
      modifies this, commands.Values
      ensures Valid() && commands.Values <= old(commands.Values)
      ensures (State(), p) == M.HandleAcceptResponse(old(State()), m, ok)
      ensures recoveries == old(recoveries)
    {
      hide Table, Valid, CountOk;
      Listed(m.key);
      if m.key !in commands {
        return None;
      }
      var c := commands[m.key];
      if m.ballot < c.ballot || c.status != Accepted {
        return None;
      }
      if c.seqno == m.seqno && m.committed {
        p := Restart(m.key, c.seqno + 1);
        return;
      }
      AddVote(m.key, m);
      WithTwice(old(State()), m.key, c.Value());
      var count := c.CountVotes(m.seqno, m.ballot);
      if count < peers / 2 {
        if |c.votes| < peers / 2 {
          return None;
        }
        p := Restart(m.key, if c.seqno <= c.maxSeq then c.seqno + 1 else c.seqno);
      } else {
        p := DeleteAndCommit(m.key, ok);
      }
    }

    method HandleCommit(m: Message)
      requires Valid()
      modifies this
      ensures Valid() && commands.Values <= old(commands.Values)
      ensures State() == M.HandleCommit(old(State()), m)
      ensures recoveries == old(recoveries)
    {
      if m.key in commands && commands[m.key].seqno == m.seqno && commands[m.key].ballot > m.ballot {
        return;
      }
      var last, _ := LastSeq(m.key);
      if m.seqno < last {
        return;
      }
      SetLastSeq(m.key, m.ballot, m.seqno);
      if m.key in commands && commands[m.key].seqno <= m.seqno {
        Delete(m.key);
      }
    }

    /** `kepaxos_received_command` and `kepaxos_received_response`. */
    method Receive(m: Message, ok: bool) returns (p: Option<Message>)
      requires Valid()
      modifies this, commands.Values
      ensures Valid() && fresh(commands.Values - old(commands.Values))
      ensures (State(), p) == M.Receive(old(State()), m, ok)
      ensures recoveries == old(recoveries) +
                if m.kind == PreAccept then Asked(PreAcceptRecovery(old(State()), m)) else []
      ensures Fine(old(State())) ==> Fine(State()) && Forward(old(State()), State()) && ballot > m.ballot
      ensures forall k :: (k == m.key ==> CallbackRule(old(State()), m, ok)) ==> Steady(old(State()), State(), k)
    {
      hide M.HandlePreAccept, M.HandlePreAcceptResponse, M.HandleAccept, M.HandleAcceptResponse, M.HandleCommit;
      hide Fine, Forward, Steady, CallbackRule;
      if Fine(State()) { ReceiveKeeps(State(), m, ok); }
      forall k | k == m.key ==> CallbackRule(State(), m, ok) ensures Steady(State(), M.Receive(State(), m, ok).0, k) {
        ReceiveSteady(State(), m, ok, k);
      }
      BallotAside(State(), m);
      UpdateBallot(m.ballot);
      match m.kind
      case PreAccept => p := HandlePreAccept(m);
      case PreAcceptResponse => p := HandlePreAcceptResponse(m, ok);
      case Accept => p := HandleAccept(m);
      case AcceptResponse => p := HandleAcceptResponse(m, ok);
      case Commit =>
        HandleCommit(m);
        p := None;
    }

    method Recovered(k: Key, ballot: nat, seqno: nat) returns (rc: int)
      requires Valid()
      modifies `log, `maxBallot
      ensures Valid() && State() == M.Recovered(old(State()), k, ballot, seqno)
      ensures rc == 0 <==> seqno >= old(State()).LastSeq(k) && ballot >= old(State()).LastBallot(k)
      ensures Fine(old(State())) ==> Fine(State()) && Forward(old(State()), State())
      ensures forall x :: (x == k ==> RecoveryRule(old(State()), k, seqno)) ==> Steady(old(State()), State(), x)
    {
      hide Fine, Forward, Steady, RecoveryRule;
      if Fine(State()) { RecoveredKeeps(State(), k, ballot, seqno); }
      forall x | x == k ==> RecoveryRule(State(), k, seqno)
        ensures Steady(State(), M.Recovered(State(), k, ballot, seqno), x)
      {
        RecoveredSteady(State(), k, ballot, seqno, x);
      }
      var last, lastBallot := LastSeq(k);
      rc := -1;
      if seqno >= last && ballot >= lastBallot {
        SetLastSeq(k, ballot, seqno);
        rc := 0;
      }
    }
  }
}
