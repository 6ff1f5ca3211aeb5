/** The RPC variant of the command queue (src/common/thallium_queue.hpp): a client polls, and every poll that
    asks for it resets the status, even while work is outstanding. */
module ThalliumQueue {
  import opened Bytes
  import opened CommandQueue
  import opened Status

  /** All queues; `dropped` is what polls with work outstanding have thrown away since the client's last resetting wait. */
  datatype State = State(queues: map<int, Queue>, dropped: map<int, int>, next: Ticket, trace: seq<Event>)

  datatype Op = Send(c: int) | Poll(c: int, reset: bool) | Take(c: int) | Finish(c: int, t: Ticket, status: int)

  function At(m: map<int, Queue>, c: int): (q: Queue) {
    if c in m then m[c] else EMPTY
  }

  function Dropped(s: State, c: int): (n: int) {
    if c in s.dropped then s.dropped[c] else VELOC_SUCCESS
  }

  predicate Enabled(s: State, op: Op) {
    match op
    case Send(_) => true
    case Poll(_, _) => true
    case Take(c) => At(s.queues, c).pending != []
    case Finish(c, t, _) => t in At(s.queues, c).progress
  }

  /** A poll that finds nothing outstanding ends the client's wait with the status it read. */
  predicate Ends(s: State, op: Op) {
    op.Poll? && At(s.queues, op.c).pending == [] && At(s.queues, op.c).progress == []
  }

  function Apply(s: State, op: Op): (s': State)
    requires Enabled(s, op)
  {
    var q := At(s.queues, op.c);
    match op
    case Send(c) => s.(queues := s.queues[c := q.(pending := q.pending + [s.next])], next := s.next + 1,
                       trace := s.trace + [Enqueue(c, s.next)])
    case Poll(c, reset) =>
      var s1 := s.(queues := s.queues[c := q.(status := if reset then VELOC_SUCCESS else q.status)]);
      if Ends(s, op) then
        s1.(trace := s.trace + [Wait(c, reset, q.status)], dropped := if reset then s.dropped[c := VELOC_SUCCESS] else s.dropped)
      else if reset then s1.(dropped := s.dropped[c := Merge(Dropped(s, c), q.status)])
      else s1
    case Take(c) =>
      s.(queues := s.queues[c := q.(pending := q.pending[1..], progress := q.progress + [q.pending[0]])],
         trace := s.trace + [Dequeue(c, q.pending[0])])
    case Finish(c, t, status) =>
      s.(queues := s.queues[c := q.(progress := Erase(q.progress, t), status := Merge(q.status, status))],
         trace := s.trace + [Complete(c, t, status)])
  }

  ghost predicate Run(states: seq<State>, ops: seq<Op>) {
    && |states| == |ops| + 1 && states[0] == State(map[], map[], 0, [])
    && forall i :: 0 <= i < |ops| ==> Enabled(states[i], ops[i]) && states[i + 1] == Apply(states[i], ops[i])
  }

  /** What the client should learn is what was dropped merged with what is left. */
  ghost predicate Accounts(s: State) {
    forall c :: MergeAll(SinceReset(s.trace, c)) == Merge(Dropped(s, c), At(s.queues, c).status)
  }

  lemma SinceSnoc(trace: seq<Event>, e: Event, c: int)
    ensures SinceReset(trace + [e], c)
         == if e.client != c then SinceReset(trace, c)
            else if e.Complete? then SinceReset(trace, c) + [e.status]
            else if e.Wait? && e.reset then []
            else SinceReset(trace, c)
  {
    assert (trace + [e])[..|trace|] == trace;
  }

  lemma MergeSnoc(since: seq<int>, status: int, d: int, left: int)
    requires MergeAll(since) == Merge(d, left)
    ensures MergeAll(since + [status]) == Merge(d, Merge(left, status))
  {
    assert (since + [status])[..|since|] == since;
    MergeLaws(d, left, status);
  }

  lemma StepAccountsFor(s: State, op: Op, c: int)
    requires MergeAll(SinceReset(s.trace, c)) == Merge(Dropped(s, c), At(s.queues, c).status) && Enabled(s, op)
    ensures var s' := Apply(s, op); MergeAll(SinceReset(s'.trace, c)) == Merge(Dropped(s', c), At(s'.queues, c).status)
  {
    hide SinceReset;
    var s' := Apply(s, op);
    if op.Poll? && !Ends(s, op) {
      assert s'.trace == s.trace;
    } else {
      var e := s'.trace[|s.trace|];
      assert s'.trace == s.trace + [e];
      SinceSnoc(s.trace, e, c);
      if op.Finish? && op.c == c {
        hide Merge, MergeAll;
        MergeSnoc(SinceReset(s.trace, c), op.status, Dropped(s, c), At(s.queues, c).status);
      }
    }
  }

  lemma StepAccounts(s: State, op: Op)
    requires Accounts(s) && Enabled(s, op)
    ensures Accounts(Apply(s, op))
  {
    forall c ensures var s' := Apply(s, op); MergeAll(SinceReset(s'.trace, c)) == Merge(Dropped(s', c), At(s'.queues, c).status) {
      StepAccountsFor(s, op, c);
    }
    hide Apply, Merge, MergeAll, SinceReset;
  }

  lemma {:induction false} RunAccounts(states: seq<State>, ops: seq<Op>, i: nat)
    requires Run(states, ops) && i < |states|
    ensures Accounts(states[i])
  {
    if i > 0 {
      RunAccounts(states, ops, i - 1);
      StepAccounts(states[i - 1], ops[i - 1]);
    }
  }

  /** The statuses of the client's commands finished since its last poll that asked for a reset. */
  function Finished(ops: seq<Op>, c: int): (r: seq<int>) {
    if ops == [] then [] else
    var rest, op := Finished(ops[..|ops| - 1], c), ops[|ops| - 1];
    match op
    case Finish(d, _, status) => if d == c then rest + [status] else rest
    case Poll(d, reset) => if d == c && reset then [] else rest
    case _ => rest
  }

  lemma StatusStep(s: State, op: Op, c: int, since: seq<int>)
    requires Enabled(s, op) && At(s.queues, c).status == MergeAll(since)
    ensures At(Apply(s, op).queues, c).status == MergeAll(
      match op
      case Finish(d, _, status) => if d == c then since + [status] else since
      case Poll(d, reset) => if d == c && reset then [] else since
      case _ => since)
  {
    if op.Finish? {
      assert (since + [op.status])[..|since|] == since;
    }
  }

  /** Told by the calls alone: every call does to the queue of its own client what its arguments say, and the status is the
      merge of what was finished since the last poll that asked for a reset, with work outstanding or not. The poll that
      finds nothing outstanding replies it. */
  lemma {:induction false} StatusOfCalls(states: seq<State>, ops: seq<Op>, c: int, i: nat)
    requires Run(states, ops) && i < |states|
    ensures At(states[i].queues, c).status == MergeAll(Finished(ops[..i], c))
    ensures i < |ops| ==> var q := At(states[i].queues, ops[i].c);
      states[i + 1].trace == states[i].trace +
        match ops[i]
        case Send(c) => [Enqueue(c, states[i].next)]
        case Poll(c, reset) => if q.pending == [] && q.progress == [] then [Wait(c, reset, q.status)] else []
        case Take(c) => [Dequeue(c, q.pending[0])]
        case Finish(c, t, status) => [Complete(c, t, status)]
  {
    if i > 0 {
      StatusOfCalls(states, ops, c, i - 1);
      assert ops[..i][..i - 1] == ops[..i - 1];
      hide Apply, MergeAll;
      StatusStep(states[i - 1], ops[i - 1], c, Finished(ops[..i - 1], c));
    }
  }

  /** A wait returns the merge of all completions since the last reset exactly when the statuses that earlier polls
      threw away leave the final one unchanged. */
  lemma WaitIsRightIff(states: seq<State>, ops: seq<Op>, i: nat)
    requires Run(states, ops) && i < |ops| && Ends(states[i], ops[i])
    ensures var s, c := states[i], ops[i].c; var reply := At(s.queues, c).status;
      reply == MergeAll(SinceReset(s.trace, c)) <==> Merge(Dropped(s, c), reply) == reply
  {
    RunAccounts(states, ops, i);
  }

  lemma StepDrops(s: State, op: Op, c: int)
    requires Enabled(s, op) && Dropped(s, c) == VELOC_SUCCESS
    requires op.Poll? && op.c == c && op.reset && !Ends(s, op) ==> At(s.queues, c).status == VELOC_SUCCESS
    ensures Dropped(Apply(s, op), c) == VELOC_SUCCESS
  {
  }

  /** In particular every wait is right if no resetting poll comes between a nonzero completion and the end of the work. */
  lemma {:induction false} NothingDropped(states: seq<State>, ops: seq<Op>, c: int, i: nat)
    requires Run(states, ops) && i < |states|
    requires forall j :: 0 <= j < i && ops[j].Poll? && ops[j].c == c && ops[j].reset && !Ends(states[j], ops[j]) ==>
      At(states[j].queues, c).status == VELOC_SUCCESS
    ensures Dropped(states[i], c) == VELOC_SUCCESS
    ensures MergeAll(SinceReset(states[i].trace, c)) == At(states[i].queues, c).status
  {
    if i > 0 {
      NothingDropped(states, ops, c, i - 1);
      StepDrops(states[i - 1], ops[i - 1], c);
    }
    RunAccounts(states, ops, i);
    MergeLaws(At(states[i].queues, c).status, 0, 0);
  }

  lemma Extend(states: seq<State>, ops: seq<Op>, op: Op) returns (states': seq<State>, ops': seq<Op>)
    requires Run(states, ops) && Enabled(states[|ops|], op)
    ensures Run(states', ops') && states'[|ops'|] == Apply(states[|ops|], op)
  {
    states', ops' := states + [Apply(states[|ops|], op)], ops + [op];
  }

  lemma EmptyRun()
    ensures Run([State(map[], map[], 0, [])], [])
  {
  }

  /** The abstract queue allows no other reply than the merge of the completions since the last reset. */
  lemma WrongReplyNotAllowed(trace: seq<Event>, c: int, reset: bool, reply: int)
    requires reply != MergeAll(SinceReset(trace, c))
    ensures Exec(trace + [Wait(c, reset, reply)], c) == None
  {
    hide SinceReset, MergeAll;
    ExecSnoc(trace, Wait(c, reset, reply), c);
    if Exec(trace, c).Some? {
      QueueLaws(trace, c);
    }
  }

  lemma OneOfTwoFailed() returns (states: seq<State>, ops: seq<Op>)
    ensures Run(states, ops)
    ensures var s := states[|ops|]; 1 in s.queues && s.queues[1] == Queue([], [1], -1) && s.dropped == map[]
  {
    hide Run;
    states, ops := [State(map[], map[], 0, [])], [];
    EmptyRun();
    states, ops := Extend(states, ops, Send(1));
    states, ops := Extend(states, ops, Send(1));
    assert states[|ops|].queues[1] == Queue([0, 1], [], 0);
    states, ops := Extend(states, ops, Take(1));
    states, ops := Extend(states, ops, Take(1));
    assert states[|ops|].queues[1] == Queue([], [0, 1], 0);
    states, ops := Extend(states, ops, Finish(1, 0, -1));
  }

  lemma RunLength(states: seq<State>, ops: seq<Op>)
    requires Run(states, ops)
    ensures |states| == |ops| + 1
  {
  }

  /** The polling queue is not the abstract queue: when a poll comes between a failure and the last completion, the
      client's wait ends with success, which the abstract queue does not allow. */
  lemma PollingLosesFailure() returns (states: seq<State>, ops: seq<Op>, before: seq<Event>)
    ensures Run(states, ops) && states[|ops|].trace == before + [Wait(1, true, VELOC_SUCCESS)]
    ensures MergeAll(SinceReset(before, 1)) == -1
    ensures Exec(states[|ops|].trace, 1) == None
  {
    hide Run;
    states, ops := OneOfTwoFailed();
    states, ops := Extend(states, ops, Poll(1, true));
    states, ops := Extend(states, ops, Finish(1, 1, 0));
    before := states[|ops|].trace;
    assert states[|ops|].queues[1] == Queue([], [], 0);
    assert |states| == |ops| + 1 by { RunLength(states, ops); }
    RunAccounts(states, ops, |ops|);
    WrongReplyNotAllowed(before, 1, true, 0);
    states, ops := Extend(states, ops, Poll(1, true));
  }
}
