/** The shared-memory variant of the command queue (src/common/ipc_queue.hpp): clients wait on their own
    queue, and the backend looks for work before it takes the lock of the queue it found. */
module IpcQueue {
  import opened Bytes
  import opened CommandQueue
  import opened Status

  /** `client_queue_t` in the shared segment; the methods are the critical sections under its mutex. */
  class ClientQueue {
    var pending: seq<Ticket>
    var progress: seq<Ticket>
    var status: int

    constructor ()
      ensures View() == EMPTY
    {
      pending, progress, status := [], [], VELOC_SUCCESS;
    }

    function View(): (q: Queue)
      reads this
    {
      Queue(pending, progress, status)
    }

    /** One pass of `wait_completion`: it waits, or returns the status and optionally resets it. */
    method WaitCompletion(c: int, reset: bool) returns (r: Option<int>)
      modifies this`status
      ensures r.Some? <==> pending == [] && progress == []
      ensures r.Some? ==> StepOf(old(View()), Wait(c, reset, r.value)) == Some(View())
      ensures r.None? ==> status == old(status)
    {
      if |pending| != 0 || |progress| != 0 {
        return None;
      }
      r := Some(status);
      if reset {
        status := VELOC_SUCCESS;
      }
    }

    method CheckCompletion() returns (r: bool)
      ensures r <==> pending == [] && progress == []
    {
      return |pending| == 0 && |progress| == 0;
    }

    method Enqueue(c: int, t: Ticket)
      modifies this`pending
      ensures StepOf(old(View()), CommandQueue.Enqueue(c, t)) == Some(View())
    {
      pending := pending + [t];
    }

    /** The second half of `dequeue_any`, on the queue that was found. */
    method Dequeue(c: int) returns (t: Ticket)
      requires pending != []
      modifies this`pending, this`progress
      ensures StepOf(old(View()), CommandQueue.Dequeue(c, t)) == Some(View())
    {
      t := pending[0];
      pending, progress := pending[1..], progress + [t];
    }

    method SetCompletion(c: int, t: Ticket, s: int)
      requires t in progress
      modifies this`progress, this`status
      ensures StepOf(old(View()), Complete(c, t, s)) == Some(View())
    {
      progress := Erase(progress, t);
      if status < 0 || s < 0 {
        status := if status < s then status else s;
      } else {
        status := if status < s then s else status;
      }
    }
  }

  /** All queues, and what the backend has found but not locked yet; `broken` once it has read the head of an empty list. */
  datatype State = State(queues: map<int, Queue>, next: Ticket, found: Option<int>, trace: seq<Event>, broken: bool)

  datatype Op = Send(c: int) | Await(c: int, reset: bool) | Find(c: int) | Take | Finish(c: int, t: Ticket, status: int)

  function At(m: map<int, Queue>, c: int): (q: Queue) {
    if c in m then m[c] else EMPTY
  }

  predicate Enabled(s: State, op: Op) {
    match op
    case Send(_) => true
    case Await(c, _) => At(s.queues, c).pending == [] && At(s.queues, c).progress == []
    case Find(c) => s.found == None && At(s.queues, c).pending != []
    case Take => s.found.Some?
    case Finish(c, t, _) => t in At(s.queues, c).progress
  }

  function Put(s: State, c: int, q: Queue, e: Event): (s': State) {
    s.(queues := s.queues[c := q], trace := s.trace + [e])
  }

  /** The implementation's own updates; `Take` reads the head without testing for it again. */
  function Apply(s: State, op: Op): (s': State)
    requires Enabled(s, op)
  {
    match op
    case Send(c) =>
      var q := At(s.queues, c);
      Put(s, c, q.(pending := q.pending + [s.next]), CommandQueue.Enqueue(c, s.next)).(next := s.next + 1)
    case Await(c, reset) =>
      var q := At(s.queues, c);
      Put(s, c, q.(status := if reset then VELOC_SUCCESS else q.status), Wait(c, reset, q.status))
    case Find(c) => s.(found := Some(c))
    case Take =>
      var c := s.found.value;
      var q := At(s.queues, c);
      if q.pending == [] then s.(broken := true)
      else Put(s, c, q.(pending := q.pending[1..], progress := q.progress + [q.pending[0]]),
               CommandQueue.Dequeue(c, q.pending[0])).(found := None)
    case Finish(c, t, status) =>
      var q := At(s.queues, c);
      Put(s, c, q.(progress := Erase(q.progress, t), status := Merge(q.status, status)), Complete(c, t, status))
  }

  ghost predicate Run(states: seq<State>, ops: seq<Op>) {
    && |states| == |ops| + 1 && states[0] == State(map[], 0, None, [], false)
    && forall i :: 0 <= i < |ops| ==> Enabled(states[i], ops[i]) && states[i + 1] == Apply(states[i], ops[i])
  }

  /** The abstract queue agrees, and what the backend has found is still there when it takes the lock. */
  ghost predicate Refines(s: State) {
    && (forall c :: Exec(s.trace, c) == Some(At(s.queues, c)))
    && TicketsOnce(s.trace, s.next)
    && (s.found.Some? ==> At(s.queues, s.found.value).pending != [])
    && !s.broken
  }

  lemma StepRefines(s: State, op: Op)
    requires Refines(s) && Enabled(s, op)
    ensures Refines(Apply(s, op))
  {
    var s' := Apply(s, op);
    if !op.Find? {
      var e := s'.trace[|s.trace|];
      assert s'.trace == s.trace + [e];
      forall c ensures Exec(s'.trace, c) == Some(At(s'.queues, c)) {
        ExecSnoc(s.trace, e, c);
      }
      TicketsStep(s.trace, e, s.next);
    }
  }

  /** Every run of the shared-memory queue is a run of the abstract queue, and the unlocked search never leads the
      backend to an empty list. */
  lemma {:induction false} IpcRefines(states: seq<State>, ops: seq<Op>, i: nat)
    requires Run(states, ops) && i < |states|
    ensures Refines(states[i])
  {
    if i > 0 {
      IpcRefines(states, ops, i - 1);
      StepRefines(states[i - 1], ops[i - 1]);
    }
  }

  /** The statuses of the client's commands finished since its last wait that asked for a reset. */
  function Finished(ops: seq<Op>, c: int): (r: seq<int>) {
    if ops == [] then [] else
    var rest, op := Finished(ops[..|ops| - 1], c), ops[|ops| - 1];
    match op
    case Finish(d, _, status) => if d == c then rest + [status] else rest
    case Await(d, reset) => if d == c && reset then [] else rest
    case _ => rest
  }

  lemma StatusStep(s: State, op: Op, c: int, since: seq<int>)
    requires Enabled(s, op) && At(s.queues, c).status == MergeAll(since)
    ensures At(Apply(s, op).queues, c).status == MergeAll(
      match op
      case Finish(d, _, status) => if d == c then since + [status] else since
      case Await(d, reset) => if d == c && reset then [] else since
      case _ => since)
  {
    if op.Finish? {
      assert (since + [op.status])[..|since|] == since;
    }
  }

  /** Told by the calls alone: every call does to the queue of its own client what its arguments say, and the status is the
      merge of what was finished since the last wait that asked for a reset. That is what a wait replies. */
  lemma {:induction false} StatusOfCalls(states: seq<State>, ops: seq<Op>, c: int, i: nat)
    requires Run(states, ops) && i < |states|
    ensures At(states[i].queues, c).status == MergeAll(Finished(ops[..i], c))
    ensures i < |ops| ==> var s := states[i];
      states[i + 1].trace == s.trace +
        match ops[i]
        case Send(c) => [CommandQueue.Enqueue(c, s.next)]
        case Await(c, reset) => [Wait(c, reset, At(s.queues, c).status)]
        case Find(_) => []
        case Take =>
          var q := At(s.queues, s.found.value);
          if q.pending == [] then [] else [CommandQueue.Dequeue(s.found.value, q.pending[0])]
        case Finish(c, t, status) => [Complete(c, t, status)]
  {
    if i > 0 {
      StatusOfCalls(states, ops, c, i - 1);
      assert ops[..i][..i - 1] == ops[..i - 1];
      hide Apply, MergeAll;
      StatusStep(states[i - 1], ops[i - 1], c, Finished(ops[..i - 1], c));
    }
  }

  /** The laws of the abstract queue, for the shared-memory queue's own lists and status. */
  lemma IpcSafety(states: seq<State>, ops: seq<Op>, i: nat, c: int)
    requires Run(states, ops) && i < |states|
    ensures var s := states[i]; var q := At(s.queues, c);
      && Laws(q, Accepted(s.trace, c), Dequeued(s.trace, c), Completed(s.trace, c), SinceReset(s.trace, c))
      && ExactlyOnce(q, Accepted(s.trace, c), Completed(s.trace, c))
      && !s.broken
  {
    IpcRefines(states, ops, i);
    QueueLaws(states[i].trace, c);
    LawsExactlyOnce(states[i].trace, states[i].next, c);
  }
}
