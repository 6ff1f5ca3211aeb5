/** The status merge and the abstract command queue that the client/backend channels implement. */
module CommandQueue {
  import opened Bytes
  import opened Status

  // ---- merging completion statuses ----

  /** `set_completion`: the minimum if either status is negative, the maximum otherwise. */
  function Merge(a: int, b: int): (r: int) {
    if a < 0 || b < 0 then (if a < b then a else b) else (if a < b then b else a)
  }

  function MergeAll(s: seq<int>): (r: int) {
    if s == [] then VELOC_SUCCESS else Merge(MergeAll(s[..|s| - 1]), s[|s| - 1])
  }

  /** The merge is a commutative monoid with identity VELOC_SUCCESS. */
  lemma MergeLaws(a: int, b: int, c: int)
    ensures Merge(a, b) == Merge(b, a)
    ensures Merge(Merge(a, b), c) == Merge(a, Merge(b, c))
    ensures Merge(VELOC_SUCCESS, a) == a
  {
  }

  /** What a merge means: the worst status if any is negative, otherwise the greatest one. */
  ghost predicate Merged(s: seq<int>, r: int) {
    if exists i :: 0 <= i < |s| && s[i] < 0
    then r in s && forall i :: 0 <= i < |s| ==> r <= s[i]
    else (if s == [] then r == VELOC_SUCCESS else r in s) && forall i :: 0 <= i < |s| ==> s[i] <= r
  }

  lemma {:induction false} MergeMeaning(s: seq<int>)
    ensures Merged(s, MergeAll(s))
  {
    if s != [] {
      var front, x := s[..|s| - 1], s[|s| - 1];
      MergeMeaning(front);
      assert s == front + [x];
    }
  }

  /** The merge depends only on which statuses occur: order and repetition do not matter. */
  lemma MergeOrderFree(s: seq<int>, t: seq<int>)
    requires forall x :: x in s <==> x in t
    ensures MergeAll(s) == MergeAll(t)
  {
    MergeMeaning(s);
    MergeMeaning(t);
    hide MergeAll;
    assert forall i :: 0 <= i < |s| ==> s[i] in t;
    assert forall i :: 0 <= i < |t| ==> t[i] in s;
  }

  /** A zero merge means that every merged status was zero. */
  lemma MergeZero(s: seq<int>)
    ensures MergeAll(s) == VELOC_SUCCESS <==> forall i :: 0 <= i < |s| ==> s[i] == VELOC_SUCCESS
  {
    MergeMeaning(s);
  }

  // ---- the abstract queue ----

  /** Accepted commands are told apart by their ticket. */
  type Ticket = nat

  datatype Event =
    | Enqueue(client: int, ticket: Ticket)
    | Dequeue(client: int, ticket: Ticket)
    | Complete(client: int, ticket: Ticket, status: int)
    | Wait(client: int, reset: bool, reply: int)

  datatype Queue = Queue(pending: seq<Ticket>, progress: seq<Ticket>, status: int)

  const EMPTY: Queue := Queue([], [], VELOC_SUCCESS)

  /** `std::list::erase` of the element with this ticket. */
  function Erase(s: seq<Ticket>, t: Ticket): (r: seq<Ticket>)
    ensures t in s ==> multiset(r) + multiset{t} == multiset(s)
    ensures t !in s ==> r == s
  {
    if s == [] then []
    else if s[0] == t then
      assert s == [t] + s[1..];
      s[1..]
    else
      assert s == [s[0]] + s[1..];
      [s[0]] + Erase(s[1..], t)
  }

  /** One event at one client's queue; a wait is enabled only when nothing is outstanding, and returns and
      optionally resets the merged status in one step. */
  function StepOf(q: Queue, e: Event): (r: Option<Queue>) {
    match e
    case Enqueue(_, t) => Some(q.(pending := q.pending + [t]))
    case Dequeue(_, t) =>
      if q.pending == [] || q.pending[0] != t then None
      else Some(q.(pending := q.pending[1..], progress := q.progress + [t]))
    case Complete(_, t, status) =>
      if t !in q.progress then None
      else Some(q.(progress := Erase(q.progress, t), status := Merge(q.status, status)))
    case Wait(_, reset, reply) =>
      if q.pending != [] || q.progress != [] || reply != q.status then None
      else Some(q.(status := if reset then VELOC_SUCCESS else q.status))
  }

  /** Client `c`'s queue after a trace; None if the abstract queue does not allow the trace. */
  function Exec(trace: seq<Event>, c: int): (r: Option<Queue>) {
    if trace == [] then Some(EMPTY) else
    var q, e := Exec(trace[..|trace| - 1], c), trace[|trace| - 1];
    if q == None || e.client != c then q else StepOf(q.value, e)
  }

  lemma ExecSnoc(trace: seq<Event>, e: Event, c: int)
    ensures Exec(trace + [e], c) == var q := Exec(trace, c); if q == None || e.client != c then q else StepOf(q.value, e)
  {
    assert (trace + [e])[..|trace|] == trace;
  }

  // ---- what a trace says, read off the events alone ----

  /** The commands of client `c`, in arrival order. */
  function Accepted(trace: seq<Event>, c: int): (r: seq<Ticket>) {
    if trace == [] then [] else
    var rest, e := Accepted(trace[..|trace| - 1], c), trace[|trace| - 1];
    if e.Enqueue? && e.client == c then rest + [e.ticket] else rest
  }

  /** The commands of client `c`, in the order in which workers took them. */
  function Dequeued(trace: seq<Event>, c: int): (r: seq<Ticket>) {
    if trace == [] then [] else
    var rest, e := Dequeued(trace[..|trace| - 1], c), trace[|trace| - 1];
    if e.Dequeue? && e.client == c then rest + [e.ticket] else rest
  }

  function Completed(trace: seq<Event>, c: int): (r: seq<Ticket>) {
    if trace == [] then [] else
    var rest, e := Completed(trace[..|trace| - 1], c), trace[|trace| - 1];
    if e.Complete? && e.client == c then rest + [e.ticket] else rest
  }

  /** The statuses completed for client `c` since its last resetting wait. */
  function SinceReset(trace: seq<Event>, c: int): (r: seq<int>) {
    if trace == [] then [] else
    var rest, e := SinceReset(trace[..|trace| - 1], c), trace[|trace| - 1];
    if e.client != c then rest
    else if e.Complete? then rest + [e.status]
    else if e.Wait? && e.reset then []
    else rest
  }

  /** Commands are taken in arrival order, every accepted command is in exactly one of pending, progress and
      completed, and the status is the merge of all completions since the last reset. */
  ghost predicate Laws(q: Queue, accepted: seq<Ticket>, dequeued: seq<Ticket>, completed: seq<Ticket>, since: seq<int>) {
    && accepted == dequeued + q.pending
    && multiset(accepted) == multiset(q.pending) + multiset(q.progress) + multiset(completed)
    && q.status == MergeAll(since)
  }

  lemma DequeueLaws(q: Queue, a: seq<Ticket>, d: seq<Ticket>, done: seq<Ticket>, since: seq<int>)
    requires Laws(q, a, d, done, since) && q.pending != []
    ensures Laws(q.(pending := q.pending[1..], progress := q.progress + [q.pending[0]]), a, d + [q.pending[0]], done, since)
  {
    assert q.pending == [q.pending[0]] + q.pending[1..];
  }

  lemma CompleteLaws(q: Queue, a: seq<Ticket>, d: seq<Ticket>, done: seq<Ticket>, since: seq<int>, t: Ticket, status: int)
    requires Laws(q, a, d, done, since) && t in q.progress
    ensures Laws(q.(progress := Erase(q.progress, t), status := Merge(q.status, status)), a, d, done + [t], since + [status])
  {
    assert (since + [status])[..|since|] == since;
  }

  lemma StepLaws(q: Queue, a: seq<Ticket>, d: seq<Ticket>, done: seq<Ticket>, since: seq<int>, e: Event)
    requires Laws(q, a, d, done, since) && StepOf(q, e).Some?
    ensures Laws(StepOf(q, e).value,
                 if e.Enqueue? then a + [e.ticket] else a,
                 if e.Dequeue? then d + [e.ticket] else d,
                 if e.Complete? then done + [e.ticket] else done,
                 if e.Complete? then since + [e.status] else if e.Wait? && e.reset then [] else since)
  {
    match e
    case Enqueue(_, _) =>
    case Dequeue(_, _) => DequeueLaws(q, a, d, done, since);
    case Complete(_, t, status) => CompleteLaws(q, a, d, done, since, t, status);
    case Wait(_, _, _) =>
  }

  /** The laws hold in every run of the abstract queue. */
  lemma {:induction false} QueueLaws(trace: seq<Event>, c: int)
    requires Exec(trace, c).Some?
    ensures Laws(Exec(trace, c).value, Accepted(trace, c), Dequeued(trace, c), Completed(trace, c), SinceReset(trace, c))
  {
    if trace != [] {
      hide Laws, StepOf;
      var front, e := trace[..|trace| - 1], trace[|trace| - 1];
      QueueLaws(front, c);
      if e.client == c {
        StepLaws(Exec(front, c).value, Accepted(front, c), Dequeued(front, c), Completed(front, c), SinceReset(front, c), e);
      }
    }
  }

  /** Every wait replies with the merge of all completions since the last reset, when nothing is outstanding. */
  lemma WaitReplies(trace: seq<Event>, c: int, reset: bool, reply: int)
    requires Exec(trace + [Wait(c, reset, reply)], c).Some?
    ensures Merged(SinceReset(trace, c), reply)
    ensures reply == VELOC_SUCCESS ==> forall i :: 0 <= i < |SinceReset(trace, c)| ==> SinceReset(trace, c)[i] == VELOC_SUCCESS
    ensures multiset(Accepted(trace, c)) == multiset(Completed(trace, c))
  {
    ExecSnoc(trace, Wait(c, reset, reply), c);
    QueueLaws(trace, c);
    MergeMeaning(SinceReset(trace, c));
    MergeZero(SinceReset(trace, c));
  }

  /** Tickets are handed out in order and once, so no client has a command twice. */
  ghost predicate TicketsOnce(trace: seq<Event>, next: Ticket) {
    && (forall c, i :: 0 <= i < |Accepted(trace, c)| ==> Accepted(trace, c)[i] < next)
    && (forall c, i, j :: 0 <= i < j < |Accepted(trace, c)| ==> Accepted(trace, c)[i] < Accepted(trace, c)[j])
  }

  lemma TicketsStep(trace: seq<Event>, e: Event, next: Ticket)
    requires TicketsOnce(trace, next) && (e.Enqueue? ==> e.ticket == next)
    ensures TicketsOnce(trace + [e], if e.Enqueue? then next + 1 else next)
  {
    forall c ensures Accepted(trace + [e], c) == Accepted(trace, c) + if e.Enqueue? && e.client == c then [next] else [] {
      assert (trace + [e])[..|trace|] == trace;
    }
  }

  /** Every accepted command is in exactly one place. */
  ghost predicate ExactlyOnce(q: Queue, accepted: seq<Ticket>, completed: seq<Ticket>) {
    forall t :: t in accepted ==> multiset(q.pending)[t] + multiset(q.progress)[t] + multiset(completed)[t] == 1
  }

  lemma {:induction false} OnceInAscending(s: seq<Ticket>, t: Ticket)
    requires t in s && forall i, j :: 0 <= i < j < |s| ==> s[i] < s[j]
    ensures multiset(s)[t] == 1
  {
    var front, last := s[..|s| - 1], s[|s| - 1];
    assert s == front + [last];
    if t == last {
      assert t !in front;
    } else {
      OnceInAscending(front, t);
    }
  }

  lemma LawsExactlyOnce(trace: seq<Event>, next: Ticket, c: int)
    requires Exec(trace, c).Some? && TicketsOnce(trace, next)
    ensures ExactlyOnce(Exec(trace, c).value, Accepted(trace, c), Completed(trace, c))
  {
    hide Exec, Accepted, Dequeued, Completed, SinceReset;
    QueueLaws(trace, c);
    forall t | t in Accepted(trace, c) ensures multiset(Accepted(trace, c))[t] == 1 {
      OnceInAscending(Accepted(trace, c), t);
    }
  }
}
