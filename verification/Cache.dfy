/** The write-behind file cache (src/lib/posix_cache.cpp): writes go to a local file and a bounded queue, and
    one background thread copies the queued ranges to the remote file. */
module Cache {
  import opened Bytes

  /** A remote file together with its local twin in the scratch directory. */
  type Pair = nat

  /** `async_command_t`. A WRITE also records the pair its descriptors named when it was built. */
  datatype Op = Write(fl: int, fr: int, off: nat, size: nat, pair: Pair) | Close(fl: int, fr: int)

  function OpSize(op: Op): (n: nat) {
    if op.Write? then op.size else 0
  }

  /** The shared fields of `async_context_t`; the queue limit does not change. */
  datatype Context = Context(opSize: int, queue: seq<Op>, finished: bool, failStatus: bool)

  predicate Blocked(c: Context, limit: nat, op: Op) {
    !c.finished && c.opSize + OpSize(op) > limit
  }

  /** `send_command` once it stops waiting: after shutdown the command is dropped. */
  function Sent(c: Context, op: Op): (r: Context) {
    if c.finished then c else c.(queue := c.queue + [op], opSize := c.opSize + OpSize(op))
  }

  function Popped(c: Context): (r: Context)
    requires c.queue != []
  {
    c.(queue := c.queue[1..])
  }

  /** The background thread's accounting after a WRITE. The transfer's result is true on success. */
  function Accounted(c: Context, op: Op, result: bool): (r: Context) {
    c.(failStatus := c.failStatus || result, opSize := c.opSize - OpSize(op))
  }

  class AsyncContext {
    const limit: nat
    var opSize: int
    var queue: seq<Op>
    var finished: bool
    var failStatus: bool

    constructor (limit: nat)
      ensures this.limit == limit && View() == Context(0, [], false, false)
    {
      this.limit := limit;
      opSize, queue, finished, failStatus := 0, [], false, false;
    }

    function View(): (c: Context)
      reads this
    {
      Context(opSize, queue, finished, failStatus)
    }

    /** One pass of `send_command`: it waits, or its critical section runs. */
    method SendCommand(op: Op) returns (done: bool)
      modifies this
      ensures done <==> old(finished) || old(opSize) + (if op.Write? then op.size else 0) <= limit
      ensures View() == if !done || old(finished) then old(View())
        else Context(old(opSize) + (if op.Write? then op.size else 0), old(queue) + [op], false, old(failStatus))
      ensures (done <==> !Blocked(old(View()), limit, op)) && (done ==> View() == Sent(old(View()), op))
    {
      if !finished && opSize + OpSize(op) > limit {
        return false;
      }
      if finished {
        return true;
      }
      queue := queue + [op];
      opSize := opSize + OpSize(op);
      return true;
    }

    /** One pass of the background thread's first critical section: it waits, takes a command, or ends. */
    method Take() returns (op: Option<Op>, ended: bool)
      modifies this
      ensures op.Some? <==> old(queue) != []
      ensures ended <==> finished && old(queue) == []
      ensures op.Some? ==> op.value == old(queue)[0] && View() == Context(old(opSize), old(queue)[1..], finished, old(failStatus))
      ensures op.Some? ==> View() == Popped(old(View())) && finished == old(finished)
      ensures op.None? ==> View() == old(View())
    {
      if |queue| == 0 {
        return None, finished;
      }
      op, ended := Some(queue[0]), false;
      queue := queue[1..];
    }

    method Account(op: Op, result: bool)
      modifies this
      ensures View() == Context(old(opSize) - (if op.Write? then op.size else 0), old(queue), old(finished), old(failStatus) || result)
      ensures View() == Accounted(old(View()), op, result)
    {
      failStatus := failStatus || result;
      opSize := opSize - OpSize(op);
    }

    /** One pass of `flush`: it waits, or answers and clears the status. */
    method Flush() returns (answer: Option<bool>)
      modifies this`failStatus
      ensures answer.Some? <==> queue == []
      ensures answer.Some? ==> answer.value == !old(failStatus) && !failStatus
      ensures answer.None? ==> failStatus == old(failStatus)
    {
      if |queue| > 0 {
        return None;
      }
      answer := Some(!failStatus);
      failStatus := false;
    }

    method Shutdown()
      modifies this`finished
      ensures finished
    {
      finished := true;
    }
  }

  // ---- the whole cache: cached files, descriptors, files and the background thread ----

  datatype FileRef = Local(pair: Pair) | Remote(pair: Pair)

  /** A `posix_cached_file_t` and the call it is in. `HalfOpen`: the remote file could not be opened.
      `Writing`: the local bytes are written, the command is not sent. `Closing`: CLOSE is sent (or dropped),
      the descriptor fields are not reset yet. */
  datatype Obj =
    | Closed
    | HalfOpen(fl: int)
    | Opened(fl: int, fr: int, pair: Pair)
    | Writing(fl: int, fr: int, pair: Pair, off: nat, size: nat)
    | Closing

  datatype Job = Idle | Job(op: Op, done: nat)

  datatype Range = Range(pair: Pair, off: nat, size: nat)

  datatype State = State(
    ctx: Context,
    job: Job,
    fds: map<int, FileRef>,
    objs: map<nat, Obj>,
    local: map<Pair, seq<byte>>,
    remote: map<Pair, seq<byte>>,
    written: map<Pair, set<nat>>,
    lost: seq<Range>)

  function BytesOf<T>(m: map<Pair, seq<T>>, p: Pair): (r: seq<T>) {
    if p in m then m[p] else []
  }

  function WrittenAt(s: State, p: Pair): (r: set<nat>) {
    if p in s.written then s.written[p] else {}
  }

  function Content(s: State, f: FileRef): (r: seq<byte>) {
    match f case Local(p) => BytesOf(s.local, p) case Remote(p) => BytesOf(s.remote, p)
  }

  function Stored(s: State, f: FileRef, data: seq<byte>): (r: State)
    ensures r == s.(local := r.local, remote := r.remote)
  {
    match f
    case Local(p) => s.(local := s.local[p := data])
    case Remote(p) => s.(remote := s.remote[p := data])
  }

  function ObjAt(s: State, o: nat): (r: Obj) {
    if o in s.objs then s.objs[o] else Closed
  }

  function Offsets(off: nat, size: nat): (r: set<nat>)
    ensures forall i: nat :: i in r <==> off <= i < off + size
  {
    if size == 0 then {} else Offsets(off, size - 1) + {off + size - 1}
  }

  datatype Step =
    | Open(o: nat, pair: Pair, fl: int, fr: int, truncate: bool)
    | OpenHalf(o: nat, pair: Pair, fl: int)
    | WriteLocal(o: nat, off: nat, data: seq<byte>)
    | WriteLocalFails(o: nat, off: nat, part: seq<byte>)
    | SendWrite(o: nat)
    | SendClose(o: nat)
    | Drop(o: nat)
    | Pop
    | Chunk(n: nat)
    | Finish(result: bool)
    | CloseLocal
    | CloseRemote
    | Flush
    | Shutdown

  function WriteOf(o: Obj): (op: Op)
    requires o.Writing?
  {
    Write(o.fl, o.fr, o.off, o.size, o.pair)
  }

  function CloseOf(o: Obj): (op: Op)
    requires o.Opened?
  {
    Close(o.fl, o.fr)
  }

  predicate Enabled(limit: nat, s: State, step: Step) {
    match step
    case Open(o, _, fl, fr, _) => ObjAt(s, o) == Closed && fl != fr && fl !in s.fds && fr !in s.fds
    case OpenHalf(o, _, fl) => ObjAt(s, o) == Closed && fl !in s.fds
    case WriteLocal(o, _, _) => ObjAt(s, o).Opened?
    case WriteLocalFails(o, _, _) => ObjAt(s, o).Opened?
    case SendWrite(o) => ObjAt(s, o).Writing? && !Blocked(s.ctx, limit, WriteOf(ObjAt(s, o)))
    case SendClose(o) => ObjAt(s, o).Opened? && !Blocked(s.ctx, limit, CloseOf(ObjAt(s, o)))
    case Drop(o) => ObjAt(s, o) == Closing
    case Pop => s.job == Idle && s.ctx.queue != []
    case Chunk(n) =>
      && s.job.Job? && s.job.op.Write? && 1 <= n && s.job.done + n <= s.job.op.size
      && s.job.op.fl in s.fds && s.job.op.fr in s.fds
      && s.job.op.off + s.job.done + n <= |Content(s, s.fds[s.job.op.fl])|
    case Finish(result) => s.job.Job? && s.job.op.Write? && s.job.done <= s.job.op.size && (result <==> s.job.done == s.job.op.size)
    case CloseLocal => s.job.Job? && s.job.op.Close? && s.job.done == 0
    case CloseRemote => s.job.Job? && s.job.op.Close? && s.job.done == 1
    case Flush => s.ctx.queue == []
    case Shutdown => true
  }

  function Apply(limit: nat, s: State, step: Step): (s': State)
    requires Enabled(limit, s, step)
  {
    match step
    case Open(o, p, fl, fr, truncate) =>
      var t := s.(objs := s.objs[o := Opened(fl, fr, p)], fds := s.fds[fl := Local(p)][fr := Remote(p)]);
      if truncate then t.(remote := t.remote[p := []], written := t.written[p := {}]) else t
    case OpenHalf(o, p, fl) => s.(objs := s.objs[o := HalfOpen(fl)], fds := s.fds[fl := Local(p)])
    case WriteLocal(o, off, data) =>
      var obj := ObjAt(s, o);
      s.(local := s.local[obj.pair := Overwrite(BytesOf(s.local, obj.pair), off, data)],
         written := s.written[obj.pair := WrittenAt(s, obj.pair) + Offsets(off, |data|)],
         objs := s.objs[o := Writing(obj.fl, obj.fr, obj.pair, off, |data|)])
    case WriteLocalFails(o, off, part) =>
      var p := ObjAt(s, o).pair;
      s.(local := s.local[p := Overwrite(BytesOf(s.local, p), off, part)],
         written := s.written[p := WrittenAt(s, p) + Offsets(off, |part|)],
         lost := s.lost + [Range(p, off, |part|)])
    case SendWrite(o) =>
      var obj := ObjAt(s, o);
      s.(ctx := Sent(s.ctx, WriteOf(obj)),
         lost := if s.ctx.finished then s.lost + [Range(obj.pair, obj.off, obj.size)] else s.lost,
         objs := s.objs[o := Opened(obj.fl, obj.fr, obj.pair)])
    case SendClose(o) => s.(ctx := Sent(s.ctx, CloseOf(ObjAt(s, o))), objs := s.objs[o := Closing])
    case Drop(o) => s.(objs := s.objs[o := Closed])
    case Pop => s.(ctx := Popped(s.ctx), job := Job(s.ctx.queue[0], 0))
    case Chunk(n) =>
      var op, at := s.job.op, s.job.op.off + s.job.done;
      var data := Content(s, s.fds[op.fl])[at..at + n];
      Stored(s, s.fds[op.fr], Overwrite(Content(s, s.fds[op.fr]), at, data)).(job := Job(op, s.job.done + n))
    case Finish(result) =>
      var op := s.job.op;
      s.(ctx := Accounted(s.ctx, op, result), job := Idle,
         lost := if result then s.lost else s.lost + [Range(op.pair, op.off + s.job.done, op.size - s.job.done)])
    case CloseLocal => s.(fds := s.fds - {s.job.op.fl}, job := Job(s.job.op, 1))
    case CloseRemote => s.(fds := s.fds - {s.job.op.fr}, job := Idle)
    case Flush => s.(ctx := s.ctx.(failStatus := false))
    case Shutdown => s.(ctx := s.ctx.(finished := true))
  }

  /** A fresh cache over files with any content; nothing is written, queued or open. */
  predicate Initial(s: State) {
    && s.ctx == Context(0, [], false, false) && s.job == Idle && s.fds == map[] && s.objs == map[]
    && s.written == map[] && s.lost == []
  }

  ghost predicate Run(limit: nat, states: seq<State>, steps: seq<Step>) {
    && |states| == |steps| + 1 && Initial(states[0])
    && forall i :: 0 <= i < |steps| ==> Enabled(limit, states[i], steps[i]) && states[i + 1] == Apply(limit, states[i], steps[i])
  }
}
