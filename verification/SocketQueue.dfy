/** The socket variant of the command queue (src/common/socket_queue.hpp): a waiting client is answered by
    whichever critical section finds nothing left to do for it. */
module SocketQueue {
  import opened Bytes
  import opened CommandQueue
  import opened Status
  import Sets

  /** `client_queue_t`, with commands told apart by ticket. */
  datatype ClientQueue = ClientQueue(pending: seq<Ticket>, progress: seq<Ticket>, status: int, waiting: bool, resetStatus: bool)

  const FRESH: ClientQueue := ClientQueue([], [], VELOC_SUCCESS, false, true)

  function At(m: map<int, ClientQueue>, c: int): (q: ClientQueue) {
    if c in m then m[c] else FRESH
  }

  predicate Answers(q: ClientQueue) {
    q.waiting && q.pending == [] && q.progress == []
  }

  /** `send_wait_reply`. */
  function Answered(q: ClientQueue): (r: ClientQueue) {
    if Answers(q) then q.(status := if q.resetStatus then VELOC_SUCCESS else q.status, waiting := false) else q
  }

  function Asked(q: ClientQueue, reset: bool): (r: ClientQueue) {
    q.(waiting := true, resetStatus := reset)
  }

  function Finished(q: ClientQueue, t: Ticket, status: int): (r: ClientQueue) {
    q.(progress := Erase(q.progress, t), status := Merge(q.status, status))
  }

  class Backend {
    var clientMap: map<int, ClientQueue>

    constructor ()
      ensures clientMap == map[]
    {
      clientMap := map[];
    }

    /** `send_wait_reply`, with the lock held; the reply is what is written to the client's socket. */
    method SendWaitReply(sock: int) returns (reply: Option<int>)
      requires sock in clientMap
      modifies this
      ensures clientMap == old(clientMap)[sock := Answered(old(clientMap)[sock])]
      ensures reply == if Answers(old(clientMap)[sock]) then Some(old(clientMap)[sock].status) else None
    {
      var q := clientMap[sock];
      reply := None;
      if q.waiting && |q.pending| == 0 && |q.progress| == 0 {
        reply := Some(q.status);
        if q.resetStatus {
          clientMap := clientMap[sock := clientMap[sock].(status := VELOC_SUCCESS)];
        }
        clientMap := clientMap[sock := clientMap[sock].(waiting := false)];
      }
    }

    /** `enqueue` of a command, creating the client's entry on first use. */
    method Enqueue(sock: int, t: Ticket)
      modifies this
      ensures var q := At(old(clientMap), sock); clientMap == old(clientMap)[sock := q.(pending := q.pending + [t])]
    {
      var q := At(clientMap, sock);
      clientMap := clientMap[sock := q.(pending := q.pending + [t])];
    }

    /** `enqueue` of a STATUS request. */
    method EnqueueStatus(sock: int, reset: bool) returns (reply: Option<int>)
      modifies this
      ensures var q := Asked(At(old(clientMap), sock), reset);
        && clientMap == old(clientMap)[sock := Answered(q)]
        && reply == if Answers(q) then Some(q.status) else None
    {
      clientMap := clientMap[sock := Asked(At(clientMap, sock), reset)];
      reply := SendWaitReply(sock);
    }

    /** `set_completion`, called by a worker when its command is done. */
    method SetCompletion(sock: int, t: Ticket, status: int) returns (reply: Option<int>)
      requires sock in clientMap && t in clientMap[sock].progress
      modifies this
      ensures var q := Finished(old(clientMap)[sock], t, status);
        && clientMap == old(clientMap)[sock := Answered(q)]
        && reply == if Answers(q) then Some(q.status) else None
    {
      var q := clientMap[sock];
      q := q.(progress := Erase(q.progress, t));
      if q.status < 0 || status < 0 {
        q := q.(status := if q.status < status then q.status else status);
      } else {
        q := q.(status := if q.status < status then status else q.status);
      }
      clientMap := clientMap[sock := q];
      reply := SendWaitReply(sock);
    }

    /** `find_non_empty_pending`: some client with pending commands, in no particular order. */
    method FindNonEmptyPending() returns (r: Option<int>)
      ensures r.Some? ==> r.value in clientMap && clientMap[r.value].pending != []
      ensures r.None? ==> forall c :: c in clientMap ==> clientMap[c].pending == []
    {
      var left := clientMap.Keys;
      while left != {}
        invariant left <= clientMap.Keys
        invariant forall c :: c in clientMap && c !in left ==> clientMap[c].pending == []
        decreases |left|
      {
        ghost var _ := Sets.Element(left);
        var c :| c in left;
        if |clientMap[c].pending| > 0 {
          return Some(c);
        }
        left := left - {c};
      }
      return None;
    }

    /** One pass of `dequeue_any`: it waits, or moves the head of some pending list to that client's progress list. */
    method DequeueAny() returns (r: Option<(int, Ticket)>)
      modifies this
      ensures r.None? ==> clientMap == old(clientMap) && forall c :: c in clientMap ==> clientMap[c].pending == []
      ensures r.Some? ==> var (c, t) := r.value;
        && c in old(clientMap) && old(clientMap)[c].pending != [] && t == old(clientMap)[c].pending[0]
        && var q := old(clientMap)[c]; clientMap == old(clientMap)[c := q.(pending := q.pending[1..], progress := q.progress + [t])]
    {
      var found := FindNonEmptyPending();
      if found == None {
        return None;
      }
      var c := found.value;
      var q := clientMap[c];
      var t := q.pending[0];
      clientMap := clientMap[c := q.(pending := q.pending[1..], progress := q.progress + [t])];
      return Some((c, t));
    }
  }

  // ---- every run, as a sequence of critical sections ----

  datatype State = State(queues: map<int, ClientQueue>, next: Ticket, trace: seq<Event>)

  datatype Op = Send(c: int) | Ask(c: int, reset: bool) | Take(c: int) | Finish(c: int, t: Ticket, status: int)

  predicate Enabled(s: State, op: Op) {
    match op
    case Send(_) => true
    case Ask(_, _) => true
    case Take(c) => At(s.queues, c).pending != []
    case Finish(c, t, _) => t in At(s.queues, c).progress
  }

  /** The queue after the critical section, before a waiting client is answered. */
  function Changed(s: State, op: Op): (q: ClientQueue)
    requires Enabled(s, op)
  {
    var q := At(s.queues, op.c);
    match op
    case Send(_) => q.(pending := q.pending + [s.next])
    case Ask(_, reset) => Asked(q, reset)
    case Take(_) => q.(pending := q.pending[1..], progress := q.progress + [q.pending[0]])
    case Finish(_, t, status) => Finished(q, t, status)
  }

  function Happened(s: State, op: Op): (es: seq<Event>)
    requires Enabled(s, op)
  {
    match op
    case Send(c) => [Enqueue(c, s.next)]
    case Ask(_, _) => []
    case Take(c) => [Dequeue(c, At(s.queues, c).pending[0])]
    case Finish(c, t, status) => [Complete(c, t, status)]
  }

  /** Only STATUS requests and completions end with `send_wait_reply`. */
  predicate MayAnswer(op: Op) {
    op.Ask? || op.Finish?
  }

  function Apply(s: State, op: Op): (s': State)
    requires Enabled(s, op)
  {
    var q := Changed(s, op);
    State(s.queues[op.c := if MayAnswer(op) then Answered(q) else q],
          if op.Send? then s.next + 1 else s.next,
          s.trace + Happened(s, op) + if MayAnswer(op) && Answers(q) then [Wait(op.c, q.resetStatus, q.status)] else [])
  }

  ghost predicate Run(states: seq<State>, ops: seq<Op>) {
    && |states| == |ops| + 1 && states[0] == State(map[], 0, [])
    && forall i :: 0 <= i < |ops| ==> Enabled(states[i], ops[i]) && states[i + 1] == Apply(states[i], ops[i])
  }

  function Abs(q: ClientQueue): (r: Queue) {
    Queue(q.pending, q.progress, q.status)
  }

  /** The abstract queue allows what has happened and agrees on where every command is. */
  ghost predicate Refines(s: State) {
    forall c :: Exec(s.trace, c) == Some(Abs(At(s.queues, c)))
  }

  lemma StepRefines(s: State, op: Op)
    requires Refines(s) && Enabled(s, op)
    ensures Refines(Apply(s, op))
  {
    var s', q, es := Apply(s, op), Changed(s, op), Happened(s, op);
    forall c ensures Exec(s.trace + es, c) == if c == op.c then Some(Abs(q)) else Some(Abs(At(s.queues, c))) {
      if es == [] {
        assert s.trace + es == s.trace;
      } else {
        ExecSnoc(s.trace, es[0], c);
        assert es == [es[0]];
      }
    }
    forall c ensures Exec(s'.trace, c) == Some(Abs(At(s'.queues, c))) {
      if MayAnswer(op) && Answers(q) {
        ExecSnoc(s.trace + es, Wait(op.c, q.resetStatus, q.status), c);
      } else {
        assert s'.trace == s.trace + es;
      }
    }
  }

  /** Every run of the socket queue is a run of the abstract queue. */
  lemma {:induction false} SocketRefines(states: seq<State>, ops: seq<Op>, i: nat)
    requires Run(states, ops) && i < |states|
    ensures Refines(states[i])
  {
    if i > 0 {
      SocketRefines(states, ops, i - 1);
      StepRefines(states[i - 1], ops[i - 1]);
    }
  }

  /** A client that is waiting has work outstanding: none is left unanswered. */
  ghost predicate NoIdleWaiter(s: State) {
    forall c :: c in s.queues ==> !Answers(s.queues[c])
  }

  lemma {:induction false} NobodyForgotten(states: seq<State>, ops: seq<Op>, i: nat)
    requires Run(states, ops) && i < |states|
    ensures NoIdleWaiter(states[i])
  {
    if i > 0 {
      NobodyForgotten(states, ops, i - 1);
    }
  }

  function Asks(ops: seq<Op>, c: int): (n: nat) {
    if ops == [] then 0 else Asks(ops[..|ops| - 1], c) + var op := ops[|ops| - 1]; if op.Ask? && op.c == c then 1 else 0
  }

  function Replies(trace: seq<Event>, c: int): (n: nat) {
    if trace == [] then 0 else Replies(trace[..|trace| - 1], c) + var e := trace[|trace| - 1]; if e.Wait? && e.client == c then 1 else 0
  }

  lemma {:induction false} RepliesConcat(a: seq<Event>, b: seq<Event>, c: int)
    ensures Replies(a + b, c) == Replies(a, c) + Replies(b, c)
  {
    if b == [] {
      assert a + b == a;
    } else {
      RepliesConcat(a, b[..|b| - 1], c);
      assert (a + b)[..|a + b| - 1] == a + b[..|b| - 1];
    }
  }

  lemma RepliesStep(s: State, op: Op, c: int)
    requires Enabled(s, op)
    ensures Replies(Apply(s, op).trace, c)
         == Replies(s.trace, c) + if MayAnswer(op) && Answers(Changed(s, op)) && op.c == c then 1 else 0
  {
    var q, es := Changed(s, op), Happened(s, op);
    var tail := if MayAnswer(op) && Answers(q) then [Wait(op.c, q.resetStatus, q.status)] else [];
    RepliesConcat(s.trace + es, tail, c);
    RepliesConcat(s.trace, es, c);
    assert Replies(es, c) == 0;
    assert Replies(tail, c) == if tail != [] && op.c == c then 1 else 0;
  }

  /** A client that blocks on its request sends no other before it is answered. */
  ghost predicate Blocks(states: seq<State>, ops: seq<Op>, c: int)
    requires |states| == |ops| + 1
  {
    forall i :: 0 <= i < |ops| && ops[i].Ask? && ops[i].c == c ==> !At(states[i].queues, c).waiting
  }

  /** Each request of a client that blocks on it gets exactly one reply. */
  lemma {:induction false} OneReplyPerRequest(states: seq<State>, ops: seq<Op>, c: int, i: nat)
    requires Run(states, ops) && Blocks(states, ops, c) && i < |states|
    ensures Asks(ops[..i], c) == Replies(states[i].trace, c) + if At(states[i].queues, c).waiting then 1 else 0
  {
    if i > 0 {
      hide Replies, Happened;
      OneReplyPerRequest(states, ops, c, i - 1);
      RepliesStep(states[i - 1], ops[i - 1], c);
      assert ops[..i][..i - 1] == ops[..i - 1];
    }
  }

  /** What the last STATUS request of client `c` asked for: whether the status is to be reset. */
  function LastAsk(ops: seq<Op>, c: int): (r: Option<bool>) {
    if ops == [] then None else
    var op := ops[|ops| - 1];
    if op.Ask? && op.c == c then Some(op.reset) else LastAsk(ops[..|ops| - 1], c)
  }

  lemma {:induction false} WaitsAsAsked(states: seq<State>, ops: seq<Op>, c: int, i: nat)
    requires Run(states, ops) && i < |states|
    ensures At(states[i].queues, c).waiting ==> LastAsk(ops[..i], c) == Some(At(states[i].queues, c).resetStatus)
  {
    if i > 0 {
      hide Happened;
      WaitsAsAsked(states, ops, c, i - 1);
      assert ops[..i][..i - 1] == ops[..i - 1];
    }
  }

  lemma ReplyReset(states: seq<State>, ops: seq<Op>, i: nat)
    requires Run(states, ops) && i < |ops|
    ensures var c, q := ops[i].c, Changed(states[i], ops[i]); q.waiting ==> LastAsk(ops[..i + 1], c) == Some(q.resetStatus)
  {
    WaitsAsAsked(states, ops, ops[i].c, i);
    assert ops[..i + 1][..i] == ops[..i];
  }

  lemma ReplyIsMerge(trace: seq<Event>, c: int, reset: bool, reply: int)
    requires Exec(trace + [Wait(c, reset, reply)], c).Some?
    ensures reply == MergeAll(SinceReset(trace, c))
  {
    ExecSnoc(trace, Wait(c, reset, reply), c);
    QueueLaws(trace, c);
  }

  /** A client is waiting for the answer to a request when the critical section `op` ends. */
  predicate Asking(s: State, op: Op) {
    op.Ask? || (op.Finish? && At(s.queues, op.c).waiting)
  }

  /** The trace with what the critical section `op` itself does: it sends, takes or completes one command. */
  ghost function Told(s: State, op: Op): (r: seq<Event>)
    requires Enabled(s, op)
  {
    match op
    case Send(c) => s.trace + [Enqueue(c, s.next)]
    case Ask(_, _) => s.trace
    case Take(c) => s.trace + [Dequeue(c, At(s.queues, c).pending[0])]
    case Finish(c, t, status) => s.trace + [Complete(c, t, status)]
  }

  lemma StepTold(s: State, op: Op)
    requires Enabled(s, op)
    ensures var s', q := Apply(s, op), Changed(s, op);
      && At(s'.queues, op.c) == (if Asking(s, op) then Answered(q) else q) && (forall d :: d != op.c ==> At(s'.queues, d) == At(s.queues, d))
      && s'.trace == Told(s, op) + (if Asking(s, op) && Answers(q) then [Wait(op.c, q.resetStatus, q.status)] else [])
      && (Asking(s, op) ==> q.waiting)
  {
    assert s.trace + [] == s.trace;
  }

  /** A critical section answers a client that is asking exactly when nothing is left to do for it. The reply is the merge of
      all completions since the last reset; afterwards the status is VELOC_SUCCESS if the last request asked for a reset,
      and what was replied otherwise. */
  lemma AnswersAsAsked(states: seq<State>, ops: seq<Op>, i: nat)
    requires Run(states, ops) && i < |ops|
    ensures var s, op, s', c := states[i], ops[i], states[i + 1], ops[i].c;
      var q := At(s'.queues, c);
      && (forall d :: d != c ==> At(s'.queues, d) == At(s.queues, d))
      && if Asking(s, op) && q.pending == [] && q.progress == [] then
           && !q.waiting && LastAsk(ops[..i + 1], c).Some?
           && var reset, reply := LastAsk(ops[..i + 1], c).value, MergeAll(SinceReset(Told(s, op), c));
           s'.trace == Told(s, op) + [Wait(c, reset, reply)] && q.status == if reset then VELOC_SUCCESS else reply
         else s'.trace == Told(s, op) && (Asking(s, op) ==> q.waiting)
  {
    ReplyReset(states, ops, i);
    SocketRefines(states, ops, i + 1);
    hide MergeAll, SinceReset, Exec, LastAsk, Told, Changed, Asking, Happened;
    var s, op, s', c := states[i], ops[i], states[i + 1], ops[i].c;
    var q := Changed(s, op);
    StepTold(s, op);
    if Asking(s, op) && Answers(q) {
      assert Exec(s'.trace, c).Some?;
      ReplyIsMerge(Told(s, op), c, q.resetStatus, q.status);
    }
  }

  lemma {:induction false} NoDuplicates(states: seq<State>, ops: seq<Op>, i: nat)
    requires Run(states, ops) && i < |states|
    ensures TicketsOnce(states[i].trace, states[i].next)
  {
    if i > 0 {
      NoDuplicates(states, ops, i - 1);
      hide TicketsOnce;
      var s, op, s' := states[i - 1], ops[i - 1], states[i];
      var q, es := Changed(s, op), Happened(s, op);
      if es != [] {
        TicketsStep(s.trace, es[0], s.next);
        assert es == [es[0]];
      } else {
        assert s.trace + es == s.trace;
      }
      if MayAnswer(op) && Answers(q) {
        TicketsStep(s.trace + es, Wait(op.c, q.resetStatus, q.status), s'.next);
      } else {
        assert s'.trace == s.trace + es;
      }
    }
  }

  /** In every run of the socket queue, for every client: commands are taken in arrival order, every accepted
      command is in exactly one of pending, progress and completed, and the status is the merge of the completions
      since the last reset. */
  lemma SocketSafety(states: seq<State>, ops: seq<Op>, i: nat, c: int)
    requires Run(states, ops) && i < |states|
    ensures var s := states[i]; var q := Abs(At(s.queues, c));
      && Laws(q, Accepted(s.trace, c), Dequeued(s.trace, c), Completed(s.trace, c), SinceReset(s.trace, c))
      && ExactlyOnce(q, Accepted(s.trace, c), Completed(s.trace, c))
  {
    SocketRefines(states, ops, i);
    NoDuplicates(states, ops, i);
    QueueLaws(states[i].trace, c);
    LawsExactlyOnce(states[i].trace, states[i].next, c);
  }
}
