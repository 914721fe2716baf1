/** Key-based Egalitarian Paxos on values: a replica, the messages it exchanges, and its
    handlers as functions. */
module KepaxosModel {
  import opened Wrappers

  type Key = seq<char>
  type Data = seq<char>

  datatype Status = NoStatus | PreAccepted | Accepted

  datatype Vote = Vote(peer: nat, ballot: nat, seqno: nat)

  /** A pending command. `ctype` is 0 in an entry that only records the command of another
      replica. */
  datatype Command = Command(
    ctype: nat,
    data: Data,
    status: Status,
    seqno: nat,
    ballot: nat,
    votes: seq<Vote>,
    maxSeq: nat,
    maxSeqCommitted: bool,
    maxVoter: Option<nat>)

  datatype Entry = Entry(seqno: nat, ballot: nat)

  datatype Kind = PreAccept | PreAcceptResponse | Accept | AcceptResponse | Commit

  datatype Message = Message(
    sender: nat,
    kind: Kind,
    ctype: nat,
    ballot: nat,
    key: Key,
    data: Data,
    seqno: nat,
    committed: bool)

  datatype Replica = Replica(
    index: nat,
    peers: nat,
    ballot: nat,
    commands: map<Key, Command>,
    log: map<Key, Entry>,
    maxBallot: nat)
  {
    /** `kepaxos_last_seq_for_key`. */
    function LastSeq(k: Key): nat {
      if k in log then log[k].seqno else 0
    }

    function LastBallot(k: Key): nat {
      if k in log then log[k].ballot else 0
    }

    /** `kepaxos_set_last_seq_for_key`. */
    function Logged(k: Key, e: Entry): Replica {
      this.(log := log[k := e], maxBallot := if e.ballot > maxBallot then e.ballot else maxBallot)
    }

    function With(k: Key, c: Command): Replica {
      this.(commands := commands[k := c])
    }

    function Dropped(k: Key): Replica {
      this.(commands := commands - {k})
    }

    /** The entry of `k`, or what allocating one gives. */
    function Pending(k: Key, blank: Command): Command {
      if k in commands then commands[k] else blank
    }
  }

  function Max(a: nat, b: nat): nat { if a > b then a else b }

  /** An allocated and zeroed command. */
  const BLANK: Command := Command(0, [], NoStatus, 0, 0, [], 0, false, None)

  /** The counter of a ballot, above the index in its low byte. */
  function Counter(ballot: nat): nat { ballot / 256 }

  function Owner(ballot: nat): nat { ballot % 256 }

  /** `update_ballot`. */
  function UpdateBallot(r: Replica, ballot: nat): Replica
  {
    if Counter(ballot) == 0 then r
    else r.(ballot := Max(r.ballot, (Counter(ballot) + 1) * 256 + r.index))
  }

  /** `kepaxos_context_create` over an empty log. */
  function Fresh(index: nat, peers: nat): Replica
  {
    Replica(index, peers, 256 + index, map[], map[], 0)
  }

  // ---------------------------------------------------------------- local commands

  /** `kepaxos_command_create` and the message `kepaxos_run_command` sends. */
  function RunCommand(r: Replica, ctype: nat, k: Key, data: Data): (Replica, Message)
  {
    var s := r.LastSeq(k) + 1;
    var seqno := if k in r.commands then Max(s, r.commands[k].seqno + 1) else s;
    var c := BLANK.(ctype := ctype, data := data, status := PreAccepted, seqno := seqno, ballot := r.ballot);
    (r.With(k, c), Message(r.index, PreAccept, 0, r.ballot, k, [], seqno, false))
  }

  /** What `kepaxos_run_command` returns for a command it created with `seqno`. */
  function RunResult(r: Replica, k: Key, seqno: nat): int
  {
    if r.LastSeq(k) >= seqno then 0 else -1
  }

  // ---------------------------------------------------------------- handlers

  /** An entry after a pre-accept: its ballot and, unless the key is ahead of it, its phase. */
  function PreAcceptedAt(c: Command, m: Message, interfering: nat): Command
  {
    var c' := c.(ballot := m.ballot);
    if m.seqno >= interfering then c'.(status := PreAccepted, seqno := interfering) else c'
  }

  /** `kepaxos_handle_preaccept`. */
  function HandlePreAccept(r: Replica, m: Message): (Replica, Option<Message>)
  {
    var last := r.LastSeq(m.key);
    if last == m.seqno && r.LastBallot(m.key) == m.ballot then (r, None)
    else if m.key in r.commands && m.ballot < r.commands[m.key].ballot then (r, None)
    else
      var c := r.Pending(m.key, BLANK.(seqno := m.seqno));
      var interfering := Max(last, if m.key in r.commands then c.seqno else 0);
      var maxSeq := Max(m.seqno, interfering);
      (r.With(m.key, PreAcceptedAt(c, m, interfering)),
       Some(Message(r.index, PreAcceptResponse, 0, m.ballot, m.key, [], maxSeq, maxSeq == last)))
  }

  /** A request to the recover callback: the owner of a ballot, asked about a key. */
  datatype Recovery = Recovery(peer: nat, key: Key, seqno: nat, ballot: nat)

  /** The recovery a pre-accept asks for when it takes over an accepted entry of another. */
  function PreAcceptRecovery(r: Replica, m: Message): Option<Recovery>
  {
    if HandlePreAccept(r, m).1.None? || m.key !in r.commands then None
    else
      var c := r.commands[m.key];
      if m.seqno >= Max(r.LastSeq(m.key), c.seqno) && c.status == Accepted && Owner(m.ballot) != r.index
      then Some(Recovery(Owner(m.ballot), m.key, c.seqno, m.ballot)) else None
  }

  /** The vote a pre-accept response adds. */
  function Voted(c: Command, m: Message): Command
  {
    var maxSeq := Max(c.maxSeq, m.seqno);
    c.(votes := c.votes + [Vote(m.sender, m.ballot, m.seqno)],
       maxSeq := maxSeq,
       maxSeqCommitted := if m.seqno != c.maxSeq then m.committed && maxSeq == m.seqno
                          else m.committed || c.maxSeqCommitted,
       maxVoter := if maxSeq == m.seqno then Some(m.sender) else c.maxVoter)
  }

  predicate ShortPath(c: Command)
  {
    c.seqno > c.maxSeq || (c.seqno == c.maxSeq && !c.maxSeqCommitted)
  }

  /** A new accept round, with no votes, under the ballot of the replica. */
  function Escalated(r: Replica, c: Command, seqno: nat): Command
  {
    c.(status := Accepted, seqno := seqno, ballot := r.ballot, votes := [], maxSeq := 0, maxVoter := None)
  }

  function AcceptMessage(r: Replica, k: Key, seqno: nat): Message
  {
    Message(r.index, Accept, 0, r.ballot, k, [], seqno, false)
  }

  /** `kepaxos_commit` of a command that has left the table; `ok` is that the commit callback
      returned 0. */
  function CommitLocal(r: Replica, k: Key, c: Command, ok: bool): (Replica, Option<Message>)
  {
    if ok then (r.Logged(k, Entry(c.seqno, c.ballot)),
                Some(Message(r.index, Commit, c.ctype, c.ballot, k, c.data, c.seqno, true)))
    else (r, None)
  }

  /** `kepaxos_handle_preaccept_response`. */
  function HandlePreAcceptResponse(r: Replica, m: Message, ok: bool): (Replica, Option<Message>)
  {
    if m.key !in r.commands then (r, None)
    else
      var c := r.commands[m.key];
      if m.ballot < c.ballot || c.status != PreAccepted then (r, None)
      else
        var v := Voted(c, m);
        if |v.votes| < r.peers / 2 then (r.With(m.key, v), None)
        else if ShortPath(v) then CommitLocal(r.Dropped(m.key), m.key, v, ok)
        else (r.With(m.key, Escalated(r, v, v.maxSeq + 1)), Some(AcceptMessage(r, m.key, v.maxSeq + 1)))
  }

  /** `kepaxos_handle_accept`. */
  function HandleAccept(r: Replica, m: Message): (Replica, Option<Message>)
  {
    if m.key in r.commands && m.ballot < r.commands[m.key].ballot then (r, None)
    else
      var c := r.Pending(m.key, BLANK);
      var c' := if m.seqno >= c.seqno then c.(seqno := m.seqno, ballot := m.ballot, status := Accepted) else c;
      (r.With(m.key, c'),
       Some(Message(r.index, AcceptResponse, 0, c'.ballot, m.key, [], c'.seqno, c'.seqno == r.LastSeq(m.key))))
  }

  /** The votes that agree with (`seqno`, `ballot`). */
  function CountOk(votes: seq<Vote>, seqno: nat, ballot: nat): nat
  {
    if votes == [] then 0
    else CountOk(votes[..|votes| - 1], seqno, ballot) +
         var v := votes[|votes| - 1]; if v.seqno == seqno && v.ballot == ballot then 1 else 0
  }

  /** The vote an accept response adds. */
  function AcceptVoted(c: Command, m: Message): Command
  {
    var maxSeq := Max(c.maxSeq, m.seqno);
    c.(votes := c.votes + [Vote(m.sender, m.ballot, m.seqno)],
       maxSeq := maxSeq,
       maxVoter := if maxSeq == m.seqno then Some(m.sender) else c.maxVoter)
  }

  /** `kepaxos_handle_accept_response`. */
  function HandleAcceptResponse(r: Replica, m: Message, ok: bool): (Replica, Option<Message>)
  {
    if m.key !in r.commands then (r, None)
    else
      var c := r.commands[m.key];
      if m.ballot < c.ballot || c.status != Accepted then (r, None)
      else if c.seqno == m.seqno && m.committed then
        (r.With(m.key, Escalated(r, c, c.seqno + 1)), Some(AcceptMessage(r, m.key, c.seqno + 1)))
      else
        var v := AcceptVoted(c, m);
        if CountOk(v.votes, m.seqno, m.ballot) >= r.peers / 2 then CommitLocal(r.Dropped(m.key), m.key, v, ok)
        else if |v.votes| < r.peers / 2 then (r.With(m.key, v), None)
        else
          var seqno := if v.seqno <= v.maxSeq then v.seqno + 1 else v.seqno;
          (r.With(m.key, Escalated(r, v, seqno)), Some(AcceptMessage(r, m.key, seqno)))
  }

  /** `kepaxos_handle_commit`. */
  function HandleCommit(r: Replica, m: Message): Replica
  {
    if m.key in r.commands && r.commands[m.key].seqno == m.seqno && r.commands[m.key].ballot > m.ballot then r
    else if m.seqno < r.LastSeq(m.key) then r
    else
      var r' := r.Logged(m.key, Entry(m.seqno, m.ballot));
      if m.key in r.commands && r.commands[m.key].seqno <= m.seqno then r'.Dropped(m.key) else r'
  }

  /** `kepaxos_received_command` and `kepaxos_received_response`. */
  function Receive(r: Replica, m: Message, ok: bool): (Replica, Option<Message>)
  {
    var r := UpdateBallot(r, m.ballot);
    match m.kind
    case PreAccept => HandlePreAccept(r, m)
    case PreAcceptResponse => HandlePreAcceptResponse(r, m, ok)
    case Accept => HandleAccept(r, m)
    case AcceptResponse => HandleAcceptResponse(r, m, ok)
    case Commit => (HandleCommit(r, m), None)
  }

  // ---------------------------------------------------------------- expiry and recovery

  /** `kepaxos_expire_command` of an expired entry. */
  function Expire(r: Replica, k: Key): Replica
  {
    r.Dropped(k)
  }

  /** The recovery an expired entry of another asks for. */
  function ExpireRecovery(r: Replica, k: Key): Option<Recovery>
  {
    if k in r.commands && r.commands[k].status != NoStatus && Owner(r.commands[k].ballot) != r.index
    then Some(Recovery(Owner(r.commands[k].ballot), k, r.commands[k].seqno, r.commands[k].ballot)) else None
  }

  /** `kepaxos_recovered`. */
  function Recovered(r: Replica, k: Key, ballot: nat, seqno: nat): Replica
  {
    if seqno >= r.LastSeq(k) && ballot >= r.LastBallot(k) then r.Logged(k, Entry(seqno, ballot)) else r
  }
}
