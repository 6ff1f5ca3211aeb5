/** The aggregation barrier (`client_aggregator_t::process_command`, src/modules/client_aggregator.cpp):
    worker threads deposit one command each, the last one runs the aggregate for all, and the others wait
    for the buffer to empty and then read a shared result slot. */
module Barrier {
  import Sets

  /** One call of `process_command` for an aggregated command, told apart by its ticket. */
  datatype Command = Command(ticket: nat, client: int)

  datatype Kind = Checkpoint | Restart

  /** `cmds[kind]` and `res[kind]`. */
  datatype Slot = Slot(cmds: seq<Command>, res: int)

  /** The critical section of a deposit; `outcome` is what the aggregate function answers if it is called. */
  function Deposited(clients: set<int>, slot: Slot, c: Command, outcome: int): (r: Slot) {
    if |slot.cmds| + 1 == |clients| then Slot([], outcome) else Slot(slot.cmds + [c], slot.res)
  }

  // ---- all interleavings, for one kind of command ----

  /** Where a call is: past the admission test, waiting for the buffer to empty, or about to read the slot unlocked. */
  datatype Phase = Entered | Waiting | Reading

  datatype Call = Call(client: int, phase: Phase)

  /** A call of the aggregate function: its batch, the clients registered at the time, its answer. */
  datatype Batch = Batch(cmds: seq<Command>, clients: set<int>, outcome: int)

  datatype Return = Return(ticket: nat, value: int)

  datatype State = State(clients: set<int>, slot: Slot, calls: map<nat, Call>, next: nat, history: seq<Batch>, answers: seq<Return>)

  datatype Step =
    | Register(client: int)
    | Enter(client: int)
    | DepositBy(ticket: nat, outcome: int)
    | Wake(ticket: nat)
    | ReadBy(ticket: nat)

  const INITIAL: State := State({}, Slot([], 0), map[], 0, [], [])

  predicate Enabled(maxParallelism: nat, s: State, step: Step) {
    match step
    case Register(_) => true
    case Enter(_) => |s.clients| <= maxParallelism
    case DepositBy(t, _) => t in s.calls && s.calls[t].phase == Entered
    case Wake(t) => t in s.calls && s.calls[t].phase == Waiting && s.slot.cmds == []
    case ReadBy(t) => t in s.calls && s.calls[t].phase == Reading
  }

  function Leave(s: State, t: nat): (s': State) {
    s.(calls := s.calls - {t}, answers := s.answers + [Return(t, s.slot.res)])
  }

  function Apply(s: State, step: Step): (s': State)
    requires step.DepositBy? ==> step.ticket in s.calls
  {
    match step
    case Register(c) => s.(clients := s.clients + {c})
    case Enter(c) => s.(calls := s.calls[s.next := Call(c, Entered)], next := s.next + 1)
    case DepositBy(t, outcome) =>
      var c := s.calls[t].client;
      var slot := Deposited(s.clients, s.slot, Command(t, c), outcome);
      if |s.slot.cmds| + 1 == |s.clients| then
        s.(slot := slot, calls := s.calls[t := Call(c, Reading)],
           history := s.history + [Batch(s.slot.cmds + [Command(t, c)], s.clients, outcome)])
      else s.(slot := slot, calls := s.calls[t := Call(c, Waiting)])
    case Wake(t) => Leave(s, t)
    case ReadBy(t) => Leave(s, t)
  }

  /** The step `DepositBy` of any state with this slot and these batches leads to that slot and those batches. */
  ghost predicate Deposits(clients: set<int>, slot: Slot, batches: seq<Batch>, c: Command, slot': Slot, batches': seq<Batch>) {
    forall s: State :: s.clients == clients && s.slot == slot && s.history == batches && c.ticket in s.calls && s.calls[c.ticket].client == c.client ==>
      var s' := Apply(s, DepositBy(c.ticket, slot'.res)); s'.slot == slot' && s'.history == batches'
  }

  lemma DepositMatches(clients: set<int>, slot: Slot, batches: seq<Batch>, c: Command, outcome: int)
    ensures |slot.cmds| + 1 == |clients| ==>
      Deposits(clients, slot, batches, c, Slot([], outcome), batches + [Batch(slot.cmds + [c], clients, outcome)])
    ensures |slot.cmds| + 1 != |clients| ==> Deposits(clients, slot, batches, c, Slot(slot.cmds + [c], slot.res), batches)
  {
  }

  // ---- the code, under its lock ----

  class ClientAggregator {
    const maxParallelism: nat
    var clientSet: set<int>
    var cmds: map<Kind, seq<Command>>
    var res: map<Kind, int>
    /** Every call of the aggregate function so far, by kind. */
    ghost var batches: map<Kind, seq<Batch>>

    constructor (maxParallelism: nat)
      ensures this.maxParallelism == maxParallelism && clientSet == {}
      ensures forall k :: View(k) == Slot([], 0) && Batches(k) == []
    {
      this.maxParallelism := maxParallelism;
      clientSet, cmds, res, batches := {}, map[], map[], map[];
    }

    /** `std::map::operator[]` default-constructs a missing entry. */
    function View(kind: Kind): (s: Slot)
      reads this`cmds, this`res
    {
      Slot(if kind in cmds then cmds[kind] else [], if kind in res then res[kind] else 0)
    }

    ghost function Batches(kind: Kind): (r: seq<Batch>)
      reads this`batches
    {
      if kind in batches then batches[kind] else []
    }

    method Init(client: int)
      modifies this`clientSet
      ensures clientSet == old(clientSet) + {client}
    {
      clientSet := clientSet + {client};
    }

    /** The unlocked test that opens the aggregated path. */
    method Admit() returns (r: bool)
      ensures r <==> |clientSet| <= maxParallelism
    {
      return maxParallelism >= |clientSet|;
    }

    /** The aggregate function is foreign code: any answer. What it is called with is recorded. */
    method Aggregate(kind: Kind, batch: seq<Command>) returns (outcome: int)
      modifies this`batches
      ensures Batches(kind) == old(Batches(kind)) + [Batch(batch, clientSet, outcome)]
      ensures forall k :: k != kind ==> Batches(k) == old(Batches(k))
    {
      outcome := *;
      batches := batches[kind := Batches(kind) + [Batch(batch, clientSet, outcome)]];
    }

    /** Up to the unlock or the first wait; only the last arrival goes on to read the slot at once. It has called the
        aggregate function, once, with all buffered commands and its own. */
    method Deposit(kind: Kind, c: Command) returns (last: bool)
      modifies this`cmds, this`res, this`batches
      ensures last <==> |old(View(kind)).cmds| + 1 == |clientSet|
      ensures last ==> View(kind).cmds == []
      ensures last ==> Batches(kind) == old(Batches(kind)) + [Batch(old(View(kind)).cmds + [c], clientSet, View(kind).res)]
      ensures !last ==> View(kind) == Slot(old(View(kind)).cmds + [c], old(View(kind)).res) && Batches(kind) == old(Batches(kind))
      ensures forall k :: k != kind ==> View(k) == old(View(k))
      ensures forall k :: k != kind ==> Batches(k) == old(Batches(k))
      ensures Deposits(clientSet, old(View(kind)), old(Batches(kind)), c, View(kind), Batches(kind))
    {
      hide Deposits;
      var batch := (if kind in cmds then cmds[kind] else []) + [c];
      cmds := cmds[kind := batch];
      if |batch| == |clientSet| {
        var r := Aggregate(kind, batch);
        res := res[kind := r];
        cmds := cmds[kind := []];
        DepositMatches(clientSet, old(View(kind)), old(Batches(kind)), c, r);
        return true;
      }
      DepositMatches(clientSet, old(View(kind)), old(Batches(kind)), c, 0);
      return false;
    }

    /** One pass of a waiter's loop: with the lock held, it leaves with the slot once the buffer is empty. */
    method TryLeave(kind: Kind) returns (left: bool, r: int)
      ensures left <==> View(kind).cmds == []
      ensures left ==> r == View(kind).res
    {
      return !(kind in cmds && |cmds[kind]| > 0), if kind in res then res[kind] else 0;
    }
  }

  // ---- runs ----

  /** The discipline the barrier relies on: a call comes from a registered client without another call outstanding. */
  ghost predicate Disciplined(s: State, step: Step) {
    step.Enter? ==> step.client in s.clients && forall t :: t in s.calls ==> s.calls[t].client != step.client
  }

  /** A run of the barrier; `orderly` says whether the clients keep the discipline. */
  ghost predicate Run(maxParallelism: nat, orderly: bool, states: seq<State>, steps: seq<Step>) {
    && |states| == |steps| + 1
    && forall i :: 0 <= i < |steps| ==>
      && Enabled(maxParallelism, states[i], steps[i])
      && (orderly ==> Disciplined(states[i], steps[i]))
      && states[i + 1] == Apply(states[i], steps[i])
  }

  // ---- the counting argument ----

  ghost predicate Holds(cmds: seq<Command>, t: nat) {
    exists i :: 0 <= i < |cmds| && cmds[i].ticket == t
  }

  ghost function ClientsOf(cmds: seq<Command>): (r: set<int>) {
    set i | 0 <= i < |cmds| :: cmds[i].client
  }

  ghost predicate DistinctClients(cmds: seq<Command>) {
    forall i, j :: 0 <= i < j < |cmds| ==> cmds[i].client != cmds[j].client
  }

  /** Exactly one command of every client registered when the aggregate ran. */
  ghost predicate OnePerClient(b: Batch) {
    DistinctClients(b.cmds) && ClientsOf(b.cmds) == b.clients
  }

  lemma {:induction false} CountClients(cmds: seq<Command>)
    requires DistinctClients(cmds)
    ensures |ClientsOf(cmds)| == |cmds|
  {
    if cmds != [] {
      var front, c := cmds[..|cmds| - 1], cmds[|cmds| - 1];
      CountClients(front);
      assert ClientsOf(cmds) == ClientsOf(front) + {c.client};
    }
  }

  lemma FullBatch(cmds: seq<Command>, clients: set<int>)
    requires DistinctClients(cmds) && ClientsOf(cmds) <= clients && |cmds| == |clients|
    ensures ClientsOf(cmds) == clients
  {
    CountClients(cmds);
    Sets.SubsetSize(ClientsOf(cmds), clients);
  }

  /** A call that has been batched but has not returned yet. */
  ghost predicate Straggler(s: State, t: nat) {
    t in s.calls && s.calls[t].phase != Entered && !Holds(s.slot.cmds, t)
  }

  ghost predicate CallsInv(s: State) {
    && (forall t :: t in s.calls ==> t < s.next && s.calls[t].client in s.clients)
    && (forall t, u :: t in s.calls && u in s.calls && s.calls[t].client == s.calls[u].client ==> t == u)
  }

  ghost predicate BufferInv(s: State) {
    && DistinctClients(s.slot.cmds)
    && (forall i :: 0 <= i < |s.slot.cmds| ==>
         s.slot.cmds[i].ticket in s.calls && s.calls[s.slot.cmds[i].ticket] == Call(s.slot.cmds[i].client, Waiting))
  }

  ghost predicate HistoryInv(s: State) {
    && (forall b :: 0 <= b < |s.history| ==> OnePerClient(s.history[b]))
    && (s.history != [] ==> s.slot.res == s.history[|s.history| - 1].outcome)
    && (forall t :: Straggler(s, t) ==> s.history != [] && Holds(s.history[|s.history| - 1].cmds, t))
  }

  ghost predicate Batched(s: State, t: nat) {
    exists b :: 0 <= b < |s.history| && Holds(s.history[b].cmds, t)
  }

  /** No command is in two batches. */
  ghost predicate OneBatch(s: State) {
    forall b, b', t :: 0 <= b < b' < |s.history| && Holds(s.history[b].cmds, t) ==> !Holds(s.history[b'].cmds, t)
  }

  /** A command is in at most one batch, and never deposited again. */
  ghost predicate TicketsInv(s: State) {
    && (forall t: nat :: Batched(s, t) ==> t < s.next && (t in s.calls ==> Straggler(s, t)))
    && OneBatch(s)
  }

  /** The answer of a call is the outcome of the batch that holds its command. */
  ghost predicate Answered(s: State, r: Return) {
    exists b :: 0 <= b < |s.history| && Holds(s.history[b].cmds, r.ticket) && s.history[b].outcome == r.value
  }

  ghost predicate Returned(s: State, t: nat) {
    exists i :: 0 <= i < |s.answers| && s.answers[i].ticket == t
  }

  ghost predicate ReturnsInv(s: State) {
    && (forall i :: 0 <= i < |s.answers| ==> Answered(s, s.answers[i]))
    && (forall i, j :: 0 <= i < j < |s.answers| ==> s.answers[i].ticket != s.answers[j].ticket)
    && (forall t :: 0 <= t < s.next ==> (t in s.calls <==> !Returned(s, t)))
    && (forall i :: 0 <= i < |s.answers| ==> s.answers[i].ticket < s.next)
  }

  ghost predicate Inv(s: State) {
    CallsInv(s) && BufferInv(s) && HistoryInv(s) && TicketsInv(s) && ReturnsInv(s)
  }

  /** While a straggler remains, the next round cannot fill. */
  lemma RoundCannotFill(s: State, t: nat, u: nat)
    requires CallsInv(s) && BufferInv(s) && Straggler(s, t) && u in s.calls && s.calls[u].phase == Entered
    ensures |s.slot.cmds| + 1 < |s.clients|
  {
    var cmds := s.slot.cmds + [Command(u, s.calls[u].client)];
    assert DistinctClients(cmds);
    assert s.calls[t].client !in ClientsOf(cmds);
    CountClients(cmds);
    var rest := s.clients - {s.calls[t].client};
    assert ClientsOf(cmds) <= rest;
    Sets.SubsetSize(ClientsOf(cmds), rest);
  }

  lemma RegisterKeepsInv(s: State, c: int)
    requires Inv(s)
    ensures Inv(Apply(s, Register(c)))
  {
    var s' := Apply(s, Register(c));
    assert forall t :: Straggler(s', t) <==> Straggler(s, t);
    assert forall t :: Batched(s', t) <==> Batched(s, t);
    assert forall r :: Answered(s', r) <==> Answered(s, r);
    assert forall t :: Returned(s', t) <==> Returned(s, t);
  }

  lemma EnterKeepsInv(s: State, c: int)
    requires Inv(s) && Disciplined(s, Enter(c))
    ensures Inv(Apply(s, Enter(c)))
  {
    var s' := Apply(s, Enter(c));
    assert forall t :: Straggler(s', t) <==> Straggler(s, t);
    assert forall t :: Batched(s', t) <==> Batched(s, t);
    assert forall r :: Answered(s', r) <==> Answered(s, r);
    assert forall t :: Returned(s', t) <==> Returned(s, t);
  }

  lemma WaitKeepsInv(s: State, t: nat, outcome: int)
    requires Inv(s) && t in s.calls && s.calls[t].phase == Entered && |s.slot.cmds| + 1 != |s.clients|
    ensures Inv(Apply(s, DepositBy(t, outcome)))
  {
    var s' := Apply(s, DepositBy(t, outcome));
    var c := Command(t, s.calls[t].client);
    assert s'.slot.cmds == s.slot.cmds + [c];
    assert forall u :: Holds(s'.slot.cmds, u) <==> Holds(s.slot.cmds, u) || u == t by {
      assert s'.slot.cmds[|s.slot.cmds|].ticket == t;
      assert forall i :: 0 <= i < |s.slot.cmds| ==> s'.slot.cmds[i] == s.slot.cmds[i];
    }
    assert forall u :: Straggler(s', u) <==> Straggler(s, u);
    assert forall u :: Batched(s', u) <==> Batched(s, u);
    assert forall r :: Answered(s', r) <==> Answered(s, r);
    assert forall u :: Returned(s', u) <==> Returned(s, u);
  }

  /** The round fills: its batch is complete, and everyone still inside belongs to it. */
  lemma FillFacts(s: State, s': State, t: nat, outcome: int)
    requires Inv(s) && t in s.calls && s.calls[t].phase == Entered && |s.slot.cmds| + 1 == |s.clients|
    requires s' == Apply(s, DepositBy(t, outcome))
    ensures OnePerClient(s'.history[|s.history|])
    ensures forall u :: Holds(s'.history[|s.history|].cmds, u) <==> Holds(s.slot.cmds, u) || u == t
    ensures forall u :: !Straggler(s, u)
    ensures forall u :: Straggler(s', u) ==> Holds(s'.history[|s.history|].cmds, u)
  {
    var batch := s.slot.cmds + [Command(t, s.calls[t].client)];
    assert s'.history[|s.history|].cmds == batch;
    FullBatch(batch, s.clients);
    forall u ensures !Straggler(s, u) {
      if Straggler(s, u) { RoundCannotFill(s, u, t); }
    }
    assert batch[|s.slot.cmds|].ticket == t;
    assert forall i :: 0 <= i < |s.slot.cmds| ==> batch[i] == s.slot.cmds[i];
  }

  lemma FillKeepsDisjoint(s: State, t: nat, outcome: int)
    requires Inv(s) && t in s.calls && s.calls[t].phase == Entered && |s.slot.cmds| + 1 == |s.clients|
    ensures var h := Apply(s, DepositBy(t, outcome)).history;
      forall b, b', u :: 0 <= b < b' < |h| && Holds(h[b].cmds, u) ==> !Holds(h[b'].cmds, u)
  {
    var s' := Apply(s, DepositBy(t, outcome));
    FillFacts(s, s', t, outcome);
    assert forall u :: Holds(s.slot.cmds, u) ==> u in s.calls;
    hide OnePerClient, DistinctClients, ReturnsInv, HistoryInv, BufferInv, CallsInv, Holds, Straggler;
    assert forall b :: 0 <= b < |s.history| ==> s'.history[b] == s.history[b];
    forall b, b', u | 0 <= b < b' < |s'.history| && Holds(s'.history[b].cmds, u) ensures !Holds(s'.history[b'].cmds, u) {
      assert Batched(s, u);
    }
  }

  lemma FillKeepsTickets(s: State, t: nat, outcome: int)
    requires Inv(s) && t in s.calls && s.calls[t].phase == Entered && |s.slot.cmds| + 1 == |s.clients|
    ensures TicketsInv(Apply(s, DepositBy(t, outcome)))
  {
    hide OnePerClient, DistinctClients, ReturnsInv, HistoryInv;
    var s' := Apply(s, DepositBy(t, outcome));
    FillFacts(s, s', t, outcome);
    FillKeepsDisjoint(s, t, outcome);
    assert forall b :: 0 <= b < |s.history| ==> s'.history[b] == s.history[b];
    forall u: nat | Batched(s', u) ensures u < s'.next && (u in s'.calls ==> Straggler(s', u)) {
      assert Batched(s, u) || Holds(s'.history[|s.history|].cmds, u);
    }
  }

  lemma FillKeepsReturns(s: State, t: nat, outcome: int)
    requires Inv(s) && t in s.calls && s.calls[t].phase == Entered && |s.slot.cmds| + 1 == |s.clients|
    ensures ReturnsInv(Apply(s, DepositBy(t, outcome)))
  {
    hide HistoryInv, TicketsInv, CallsInv, BufferInv;
    var s' := Apply(s, DepositBy(t, outcome));
    assert forall b :: 0 <= b < |s.history| ==> s'.history[b] == s.history[b];
    assert forall r :: Answered(s, r) ==> Answered(s', r);
    assert forall u :: Returned(s', u) <==> Returned(s, u);
  }

  lemma FillKeepsInv(s: State, t: nat, outcome: int)
    requires Inv(s) && t in s.calls && s.calls[t].phase == Entered && |s.slot.cmds| + 1 == |s.clients|
    ensures Inv(Apply(s, DepositBy(t, outcome)))
  {
    hide ReturnsInv, TicketsInv, OnePerClient, Holds;
    var s' := Apply(s, DepositBy(t, outcome));
    FillFacts(s, s', t, outcome);
    FillKeepsTickets(s, t, outcome);
    FillKeepsReturns(s, t, outcome);
    assert forall b :: 0 <= b < |s.history| ==> s'.history[b] == s.history[b];
  }

  lemma LeaveKeepsReturns(s: State, t: nat)
    requires Inv(s) && Straggler(s, t)
    ensures ReturnsInv(Leave(s, t))
  {
    hide TicketsInv, BufferInv;
    var s' := Leave(s, t);
    assert forall r :: Answered(s', r) <==> Answered(s, r);
    assert Answered(s, Return(t, s.slot.res));
    assert s'.answers[|s.answers|].ticket == t;
    assert forall i :: 0 <= i < |s.answers| ==> s'.answers[i] == s.answers[i];
    assert forall u :: Returned(s', u) <==> Returned(s, u) || u == t;
  }

  lemma LeaveKeepsInv(s: State, t: nat)
    requires Inv(s) && Straggler(s, t)
    ensures Inv(Leave(s, t))
  {
    LeaveKeepsReturns(s, t);
    hide ReturnsInv;
    var s' := Leave(s, t);
    assert forall u :: Straggler(s', u) <==> Straggler(s, u) && u != t;
    assert forall u :: Batched(s', u) <==> Batched(s, u);
  }

  lemma StepKeepsInv(maxParallelism: nat, s: State, step: Step)
    requires Inv(s) && Enabled(maxParallelism, s, step) && Disciplined(s, step)
    ensures Inv(Apply(s, step))
  {
    match step
    case Register(c) => RegisterKeepsInv(s, c);
    case Enter(c) => EnterKeepsInv(s, c);
    case DepositBy(t, outcome) =>
      if |s.slot.cmds| + 1 == |s.clients| { FillKeepsInv(s, t, outcome); } else { WaitKeepsInv(s, t, outcome); }
    case Wake(t) => LeaveKeepsInv(s, t);
    case ReadBy(t) => LeaveKeepsInv(s, t);
  }

  lemma {:induction false} RunKeepsInv(maxParallelism: nat, states: seq<State>, steps: seq<Step>, i: nat)
    requires Run(maxParallelism, true, states, steps) && Inv(states[0]) && i < |states|
    ensures Inv(states[i])
  {
    if i > 0 {
      RunKeepsInv(maxParallelism, states, steps, i - 1);
      StepKeepsInv(maxParallelism, states[i - 1], steps[i - 1]);
    }
  }

  /** In every orderly run, each call of the aggregate sees exactly one command per registered client, no two
      batches share a command, and every answer is the outcome of the one batch that holds the caller's command,
      for late wakers and for the unlocked read alike. Every call is outstanding or answered exactly once. */
  lemma BarrierSafety(maxParallelism: nat, states: seq<State>, steps: seq<Step>, i: nat)
    requires Run(maxParallelism, true, states, steps) && states[0] == INITIAL && i < |states|
    ensures var s := states[i];
      && (forall b :: 0 <= b < |s.history| ==> OnePerClient(s.history[b]))
      && OneBatch(s)
      && (forall k :: 0 <= k < |s.answers| ==> Answered(s, s.answers[k]))
      && (forall j, k :: 0 <= j < k < |s.answers| ==> s.answers[j].ticket != s.answers[k].ticket)
      && (forall t :: 0 <= t < s.next ==> (t in s.calls <==> !Returned(s, t)))
  {
    RunKeepsInv(maxParallelism, states, steps, i);
  }

  // ---- without the discipline ----

  /** The deposit fills the round. */
  predicate Fills(s: State, step: Step) {
    step.DepositBy? && step.ticket in s.calls && |s.slot.cmds| + 1 == |s.clients|
  }

  /** The deposit comes from a client whose command of this round is in the buffer already. */
  ghost predicate Repeats(s: State, step: Step) {
    step.DepositBy? && step.ticket in s.calls && s.calls[step.ticket].client in ClientsOf(s.slot.cmds)
  }

  /** The deposit comes from a client that is not one of `clients`. */
  ghost predicate Foreign(s: State, step: Step, clients: set<int>) {
    step.DepositBy? && step.ticket in s.calls && s.calls[step.ticket].client !in clients
  }

  lemma ClientsOfAppend(cmds: seq<Command>, c: Command)
    ensures ClientsOf(cmds + [c]) == ClientsOf(cmds) + {c.client}
    ensures DistinctClients(cmds + [c]) <==> DistinctClients(cmds) && c.client !in ClientsOf(cmds)
  {
    var all := cmds + [c];
    forall x ensures x in ClientsOf(all) <==> x in ClientsOf(cmds) + {c.client} {
      if x in ClientsOf(cmds) {
        var i :| 0 <= i < |cmds| && cmds[i].client == x;
        assert all[i].client == x;
      }
      assert all[|cmds|].client == c.client;
    }
    assert forall i :: 0 <= i < |cmds| ==> cmds[i] == all[i];
    if DistinctClients(all) {
      assert forall i :: 0 <= i < |cmds| ==> cmds[i].client != all[|cmds|].client;
    }
  }

  lemma DepositAdds(maxParallelism: nat, s: State, step: Step, clients: set<int>)
    requires Enabled(maxParallelism, s, step) && !Fills(s, step)
    ensures var r := Apply(s, step);
      && (DistinctClients(r.slot.cmds) <==> DistinctClients(s.slot.cmds) && !Repeats(s, step))
      && (ClientsOf(r.slot.cmds) <= clients <==> ClientsOf(s.slot.cmds) <= clients && !Foreign(s, step, clients))
  {
    hide ClientsOf, DistinctClients;
    if step.DepositBy? {
      ClientsOfAppend(s.slot.cmds, Command(step.ticket, s.calls[step.ticket].client));
    }
  }

  /** While a round that began at `l` is not full, its buffer tells who deposited since. */
  lemma {:induction false} RoundBuffer(maxParallelism: nat, states: seq<State>, steps: seq<Step>, l: nat, i: nat, clients: set<int>)
    requires Run(maxParallelism, false, states, steps) && l <= i < |states| && states[l].slot.cmds == []
    requires forall m :: l <= m < i ==> !Fills(states[m], steps[m])
    ensures DistinctClients(states[i].slot.cmds) <==> forall m :: l <= m < i ==> !Repeats(states[m], steps[m])
    ensures ClientsOf(states[i].slot.cmds) <= clients <==> forall m :: l <= m < i ==> !Foreign(states[m], steps[m], clients)
  {
    if i > l {
      hide Fills, Repeats, Foreign, DistinctClients, ClientsOf, Apply, Enabled;
      RoundBuffer(maxParallelism, states, steps, l, i - 1, clients);
      assert Enabled(maxParallelism, states[i - 1], steps[i - 1]) && states[i - 1 + 1] == Apply(states[i - 1], steps[i - 1]);
      DepositAdds(maxParallelism, states[i - 1], steps[i - 1], clients);
    }
  }

  lemma FillRightIff(s: State, step: Step)
    requires Fills(s, step)
    ensures var h := Apply(s, step).history;
      h != [] && (OnePerClient(h[|h| - 1]) <==>
        DistinctClients(s.slot.cmds) && !Repeats(s, step) && ClientsOf(s.slot.cmds) <= s.clients && !Foreign(s, step, s.clients))
  {
    hide ClientsOf, DistinctClients;
    var c := Command(step.ticket, s.calls[step.ticket].client);
    ClientsOfAppend(s.slot.cmds, c);
    if DistinctClients(s.slot.cmds + [c]) && ClientsOf(s.slot.cmds + [c]) <= s.clients {
      FullBatch(s.slot.cmds + [c], s.clients);
    }
  }

  /** Clients that call as they like: the batch of a round that began at `l` and is filled at `j` has exactly one command of
      every registered client iff nobody deposited a second command in that round and nobody unregistered deposited one. */
  lemma BatchRightIff(maxParallelism: nat, states: seq<State>, steps: seq<Step>, l: nat, j: nat)
    requires Run(maxParallelism, false, states, steps) && l <= j < |steps|
    requires states[l].slot.cmds == [] && Fills(states[j], steps[j]) && forall m :: l <= m < j ==> !Fills(states[m], steps[m])
    ensures var h := states[j + 1].history;
      h != [] && (OnePerClient(h[|h| - 1]) <==>
        forall m :: l <= m <= j ==> !Repeats(states[m], steps[m]) && !Foreign(states[m], steps[m], states[j].clients))
  {
    RoundBuffer(maxParallelism, states, steps, l, j, states[j].clients);
    FillRightIff(states[j], steps[j]);
    hide Fills, Repeats, Foreign, DistinctClients, ClientsOf, OnePerClient, Apply, Enabled;
    assert states[j + 1] == Apply(states[j], steps[j]);
  }

  /** What every run keeps: a call that has deposited is in the buffer or in a batch, in one batch at most. */
  ghost predicate LooseInv(s: State) {
    && (forall t :: t in s.calls ==> t < s.next)
    && (forall t :: t in s.calls && s.calls[t].phase != Entered ==> Holds(s.slot.cmds, t) || Batched(s, t))
    && (forall t: nat :: Holds(s.slot.cmds, t) || Batched(s, t) ==> t < s.next && (t in s.calls ==> s.calls[t].phase != Entered))
    && (forall t: nat :: Holds(s.slot.cmds, t) ==> !Batched(s, t))
    && OneBatch(s)
    && (forall t :: t in s.calls && s.calls[t].phase == Reading ==> Batched(s, t))
    && (s.history != [] ==> s.slot.res == s.history[|s.history| - 1].outcome)
  }

  lemma HoldsAppend(cmds: seq<Command>, c: Command)
    ensures forall t :: Holds(cmds + [c], t) <==> Holds(cmds, t) || t == c.ticket
  {
    var all := cmds + [c];
    forall t ensures Holds(all, t) <==> Holds(cmds, t) || t == c.ticket {
      if Holds(cmds, t) {
        var i :| 0 <= i < |cmds| && cmds[i].ticket == t;
        assert all[i].ticket == t;
      }
      assert all[|cmds|].ticket == c.ticket;
    }
  }

  lemma BatchedAppend(s: State, s': State, b: Batch)
    requires s'.history == s.history + [b]
    ensures forall t :: Batched(s', t) <==> Batched(s, t) || Holds(b.cmds, t)
  {
    hide Holds;
    forall t ensures Batched(s', t) <==> Batched(s, t) || Holds(b.cmds, t) {
      assert s'.history[|s.history|] == b;
      assert forall i :: 0 <= i < |s.history| ==> s'.history[i] == s.history[i];
    }
  }

  lemma SameBatches(s: State, s': State)
    requires s'.history == s.history
    ensures forall t :: Batched(s', t) <==> Batched(s, t)
  {
  }

  lemma NothingHeld()
    ensures forall t :: !Holds([], t)
  {
  }

  lemma DepositKeepsLoose(s: State, t: nat, outcome: int)
    requires LooseInv(s) && t in s.calls && s.calls[t].phase == Entered && |s.slot.cmds| + 1 != |s.clients|
    ensures LooseInv(Apply(s, DepositBy(t, outcome)))
  {
    hide Holds, Batched;
    HoldsAppend(s.slot.cmds, Command(t, s.calls[t].client));
    SameBatches(s, Apply(s, DepositBy(t, outcome)));
  }

  lemma FillKeepsOneBatch(s: State, s': State, b: Batch)
    requires s'.history == s.history + [b] && OneBatch(s) && forall t: nat :: Holds(b.cmds, t) ==> !Batched(s, t)
    ensures OneBatch(s')
  {
    hide Holds;
    forall i, j, t | 0 <= i < j < |s'.history| && Holds(s'.history[i].cmds, t) ensures !Holds(s'.history[j].cmds, t) {
      assert Batched(s, t);
    }
  }

  lemma FillKeepsLoose(s: State, t: nat, outcome: int)
    requires LooseInv(s) && t in s.calls && s.calls[t].phase == Entered && |s.slot.cmds| + 1 == |s.clients|
    ensures LooseInv(Apply(s, DepositBy(t, outcome)))
  {
    hide Holds, Batched, OneBatch;
    var c, s' := Command(t, s.calls[t].client), Apply(s, DepositBy(t, outcome));
    var b := Batch(s.slot.cmds + [c], s.clients, outcome);
    NothingHeld();
    HoldsAppend(s.slot.cmds, c);
    BatchedAppend(s, s', b);
    FillKeepsOneBatch(s, s', b);
  }

  lemma LeaveKeepsLoose(s: State, t: nat)
    requires LooseInv(s)
    ensures LooseInv(Leave(s, t))
  {
    hide Holds, Batched;
    SameBatches(s, Leave(s, t));
  }

  lemma EnterKeepsLoose(s: State, c: int)
    requires LooseInv(s)
    ensures LooseInv(Apply(s, Enter(c))) && LooseInv(Apply(s, Register(c)))
  {
    hide Holds, Batched;
    SameBatches(s, Apply(s, Enter(c)));
    SameBatches(s, Apply(s, Register(c)));
  }

  lemma {:induction false} RunKeepsLoose(maxParallelism: nat, states: seq<State>, steps: seq<Step>, i: nat)
    requires Run(maxParallelism, false, states, steps) && states[0] == INITIAL && i < |states|
    ensures LooseInv(states[i])
  {
    if i > 0 {
      hide LooseInv;
      RunKeepsLoose(maxParallelism, states, steps, i - 1);
      var s := states[i - 1];
      match steps[i - 1]
      case Register(c) => EnterKeepsLoose(s, c);
      case Enter(c) => EnterKeepsLoose(s, c);
      case DepositBy(t, outcome) =>
        if |s.slot.cmds| + 1 == |s.clients| { FillKeepsLoose(s, t, outcome); } else { DepositKeepsLoose(s, t, outcome); }
      case Wake(t) => LeaveKeepsLoose(s, t);
      case ReadBy(t) => LeaveKeepsLoose(s, t);
    }
  }

  predicate Returns(step: Step, t: nat) {
    step == Wake(t) || step == ReadBy(t)
  }

  /** Clients that call as they like: the command of a call that returns is in exactly one batch, and its answer is the
      outcome of that batch iff it is the outcome of the latest one. */
  lemma AnswerRightIff(maxParallelism: nat, states: seq<State>, steps: seq<Step>, n: nat, t: nat) returns (b: nat)
    requires Run(maxParallelism, false, states, steps) && states[0] == INITIAL && n < |steps| && Returns(steps[n], t)
    ensures var s, s' := states[n], states[n + 1];
      && b < |s.history| && (forall i :: 0 <= i < |s.history| ==> (Holds(s.history[i].cmds, t) <==> i == b))
      && s'.answers != [] && s'.answers[|s'.answers| - 1].ticket == t
      && (Answered(s', s'.answers[|s'.answers| - 1]) <==> s.history[b].outcome == s.history[|s.history| - 1].outcome)
  {
    RunKeepsLoose(maxParallelism, states, steps, n);
    var s := states[n];
    hide Holds;
    NothingHeld();
    assert Batched(s, t);
    b :| 0 <= b < |s.history| && Holds(s.history[b].cmds, t);
    forall i | 0 <= i < |s.history| && Holds(s.history[i].cmds, t) ensures i == b {}
  }

  // ---- what does not hold ----

  /** A waiter left behind while the next round has started. */
  ghost predicate Stranded(s: State, t: nat) {
    Inv(s) && Straggler(s, t) && s.calls[t].phase == Waiting && s.slot.cmds != []
  }

  /** A stranded waiter never returns: in every continuation the next round cannot fill without it. */
  lemma {:induction false} StrandedForever(maxParallelism: nat, states: seq<State>, steps: seq<Step>, t: nat, i: nat)
    requires Run(maxParallelism, true, states, steps) && Stranded(states[0], t) && i < |states|
    ensures Stranded(states[i], t)
  {
    hide HistoryInv, TicketsInv, ReturnsInv;
    if i > 0 {
      StrandedForever(maxParallelism, states, steps, t, i - 1);
      var s, step := states[i - 1], steps[i - 1];
      StepKeepsInv(maxParallelism, s, step);
      if step.DepositBy? {
        RoundCannotFill(s, t, step.ticket);
        assert forall u :: Holds(states[i].slot.cmds, u) ==> Holds(s.slot.cmds, u) || u == step.ticket;
      }
      if step.ReadBy? { assert step.ticket != t; }
    }
  }

  lemma Extend(maxParallelism: nat, orderly: bool, states: seq<State>, steps: seq<Step>, step: Step)
    returns (states': seq<State>, steps': seq<Step>)
    requires Run(maxParallelism, orderly, states, steps)
    requires Enabled(maxParallelism, states[|steps|], step) && (orderly ==> Disciplined(states[|steps|], step))
    ensures Run(maxParallelism, orderly, states', steps')
    ensures states'[0] == states[0] && states'[|steps'|] == Apply(states[|steps|], step)
  {
    states', steps' := states + [Apply(states[|steps|], step)], steps + [step];
  }

  lemma EmptyRun(maxParallelism: nat, orderly: bool, s: State)
    ensures Run(maxParallelism, orderly, [s], [])
  {
  }

  /** Some continuation lets call `t` return. */
  ghost predicate CanReturn(maxParallelism: nat, s: State, t: nat) {
    exists states: seq<State>, steps: seq<Step> ::
      Run(maxParallelism, true, states, steps) && states[0] == s && t !in states[|steps|].calls
  }

  /** A waiter whose round is over can return exactly while no command of the next round has been deposited. */
  lemma ReturnsIff(maxParallelism: nat, s: State, t: nat)
    requires Inv(s) && Straggler(s, t) && s.calls[t].phase == Waiting
    ensures CanReturn(maxParallelism, s, t) <==> s.slot.cmds == []
  {
    if s.slot.cmds == [] {
      EmptyRun(maxParallelism, true, s);
      var states, steps := Extend(maxParallelism, true, [s], [], Wake(t));
    } else if CanReturn(maxParallelism, s, t) {
      var states: seq<State>, steps: seq<Step> :| Run(maxParallelism, true, states, steps) && states[0] == s && t !in states[|steps|].calls;
      StrandedForever(maxParallelism, states, steps, t, |steps|);
    }
  }

  lemma TwoClients(orderly: bool) returns (states: seq<State>, steps: seq<Step>)
    ensures Run(2, orderly, states, steps) && states[0] == INITIAL
    ensures states[|steps|] == State({1, 2}, Slot([Command(0, 1)], 0), map[0 := Call(1, Waiting)], 1, [], [])
  {
    hide Run;
    states, steps := [INITIAL], [];
    assert Run(2, orderly, states, steps) by { EmptyRun(2, orderly, INITIAL); }
    states, steps := Extend(2, orderly, states, steps, Register(1));
    states, steps := Extend(2, orderly, states, steps, Register(2));
    assert states[|steps|].clients == {1, 2};
    states, steps := Extend(2, orderly, states, steps, Enter(1));
    states, steps := Extend(2, orderly, states, steps, DepositBy(0, 0));
  }

  lemma RunLength(maxParallelism: nat, orderly: bool, states: seq<State>, steps: seq<Step>)
    requires Run(maxParallelism, orderly, states, steps)
    ensures |states| == |steps| + 1
  {
  }

  lemma InitialInv()
    ensures Inv(INITIAL)
  {
  }

  /** Two clients; the first waits, the second completes the round and comes back before the first wakes up. */
  lemma StragglerIsReachable() returns (states: seq<State>, steps: seq<Step>)
    ensures Run(2, true, states, steps) && states[0] == INITIAL
    ensures Stranded(states[|steps|], 0)
  {
    hide Inv, Run;
    states, steps := TwoClients(true);
    states, steps := Extend(2, true, states, steps, Enter(2));
    states, steps := Extend(2, true, states, steps, DepositBy(1, 0));
    states, steps := Extend(2, true, states, steps, ReadBy(1));
    assert states[|steps|].calls == map[0 := Call(1, Waiting)];
    states, steps := Extend(2, true, states, steps, Enter(2));
    states, steps := Extend(2, true, states, steps, DepositBy(2, 0));
    assert |states| == |steps| + 1 by { RunLength(2, true, states, steps); }
    InitialInv();
    RunKeepsInv(2, states, steps, |steps|);
  }

  /** Without the discipline the barrier breaks: one client with two calls outstanding fills a round of two alone. */
  lemma DoubleCallBreaksBatch() returns (states: seq<State>, steps: seq<Step>)
    ensures Run(2, false, states, steps) && states[0] == INITIAL
    ensures var h := states[|steps|].history; |h| == 1 && !OnePerClient(h[0])
  {
    hide Run;
    states, steps := TwoClients(false);
    states, steps := Extend(2, false, states, steps, Enter(1));
    states, steps := Extend(2, false, states, steps, DepositBy(1, 0));
    assert states[|steps|].history[0].cmds == [Command(0, 1), Command(1, 1)];
  }

  /** One command of either client. */
  ghost predicate Pair(b: Batch, t: nat, u: nat, outcome: int) {
    b.cmds == [Command(t, 1)] + [Command(u, 2)] && b.clients == {1, 2} && b.outcome == outcome
  }

  lemma PairIsRight(b: Batch, t: nat, u: nat, outcome: int)
    requires Pair(b, t, u, outcome)
    ensures OnePerClient(b) && (forall x :: Holds(b.cmds, x) <==> x == t || x == u)
  {
    assert b.cmds[0] == Command(t, 1) && b.cmds[1] == Command(u, 2);
  }

  /** Two rounds, each with one command of either client, before the first caller wakes up. */
  lemma TwoRounds() returns (states: seq<State>, steps: seq<Step>)
    ensures Run(2, false, states, steps) && |states| == |steps| + 1 && states[0] == INITIAL
    ensures var s := states[|steps|];
      && s.slot == Slot([], 5) && 0 in s.calls && s.calls[0].phase == Waiting && s.answers == []
      && |s.history| == 2 && Pair(s.history[0], 0, 1, 0) && Pair(s.history[1], 2, 3, 5)
  {
    hide Run;
    states, steps := TwoClients(false);
    states, steps := Extend(2, false, states, steps, Enter(2));
    states, steps := Extend(2, false, states, steps, DepositBy(1, 0));
    states, steps := Extend(2, false, states, steps, Enter(1));
    states, steps := Extend(2, false, states, steps, DepositBy(2, 0));
    assert states[|steps|].slot.cmds == [Command(2, 1)];
    states, steps := Extend(2, false, states, steps, Enter(2));
    states, steps := Extend(2, false, states, steps, DepositBy(3, 5));
  }

  /** Right batches are not enough for right answers: a caller that wakes up late reads the outcome of the next batch. */
  lemma LateWakerMisreads() returns (states: seq<State>, steps: seq<Step>)
    ensures Run(2, false, states, steps) && states[0] == INITIAL
    ensures var s := states[|steps|];
      && (forall b :: 0 <= b < |s.history| ==> OnePerClient(s.history[b]))
      && s.answers == [Return(0, 5)] && !Answered(s, s.answers[0])
  {
    hide Run;
    states, steps := TwoRounds();
    states, steps := Extend(2, false, states, steps, Wake(0));
    hide Pair, Holds, OnePerClient;
    var h := states[|steps|].history;
    PairIsRight(h[0], 0, 1, 0);
    PairIsRight(h[1], 2, 3, 5);
  }
}
