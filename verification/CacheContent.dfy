/** What the files of the write-behind cache hold, told by the steps of a run alone: the byte written last, locally at
    once and remotely when its WRITE is done, and elsewhere what was there before. */
module CacheContent {
  import opened Bytes
  import opened Cache
  import opened CacheSafety

  // ---- what the steps say ----

  function Front(steps: seq<Step>): (r: seq<Step>)
    requires steps != []
    ensures |r| < |steps|
  {
    steps[..|steps| - 1]
  }

  function Last(steps: seq<Step>): (st: Step)
    requires steps != []
  {
    steps[|steps| - 1]
  }

  /** The pair of files that cached file `o` was opened on last. */
  function OpenedOn(steps: seq<Step>, o: nat): (r: Option<Pair>) {
    if steps == [] then None
    else if Last(steps).Open? && Last(steps).o == o then Some(Last(steps).pair)
    else OpenedOn(Front(steps), o)
  }

  /** The byte that the last step puts at offset `b` of pair `p`, whole or cut short. */
  function Puts(steps: seq<Step>, p: Pair, b: nat): (r: Option<byte>)
    requires steps != []
  {
    match Last(steps)
    case WriteLocal(o, off, data) =>
      if OpenedOn(Front(steps), o) == Some(p) && off <= b < off + |data| then Some(data[b - off]) else None
    case WriteLocalFails(o, off, part) =>
      if OpenedOn(Front(steps), o) == Some(p) && off <= b < off + |part| then Some(part[b - off]) else None
    case _ => None
  }

  predicate Truncates(st: Step, p: Pair) {
    st.Open? && st.truncate && st.pair == p
  }

  /** The byte written last at offset `b` of pair `p` since the remote file was truncated last. */
  function LastByte(steps: seq<Step>, p: Pair, b: nat): (r: Option<byte>) {
    if steps == [] || Truncates(Last(steps), p) then None
    else if Puts(steps, p, b).Some? then Puts(steps, p, b)
    else LastByte(Front(steps), p, b)
  }

  /** Some write of the run covers offset `b` of pair `p`. */
  predicate Touched(steps: seq<Step>, p: Pair, b: nat) {
    steps != [] && (Puts(steps, p, b).Some? || Touched(Front(steps), p, b))
  }

  /** The content of the remote file before any write: that at the start, or nothing once it was truncated. */
  function Original(remote: map<Pair, seq<byte>>, steps: seq<Step>, p: Pair): (r: seq<byte>) {
    if steps == [] then BytesOf(remote, p)
    else if Truncates(Last(steps), p) then []
    else Original(remote, Front(steps), p)
  }

  // ---- cached files ----

  /** The cached file is open, on a pair of files. */
  predicate IsOpen(o: Obj) {
    o.Opened? || o.Writing?
  }

  ghost predicate FilesKnown(s: State, steps: seq<Step>) {
    forall o :: o in s.objs && IsOpen(s.objs[o]) ==> OpenedOn(steps, o) == Some(s.objs[o].pair)
  }

  lemma ObjsStep(limit: nat, s: State, st: Step, o: nat)
    requires Enabled(limit, s, st) && IsOpen(ObjAt(Apply(limit, s, st), o))
    ensures if st.Open? && st.o == o then ObjAt(Apply(limit, s, st), o).pair == st.pair
            else IsOpen(ObjAt(s, o)) && ObjAt(Apply(limit, s, st), o).pair == ObjAt(s, o).pair
  {
    hide Overwrite, Offsets, Content, Stored, Sent, Popped, Accounted;
  }

  lemma StepKnows(limit: nat, s: State, steps: seq<Step>)
    requires steps != [] && FilesKnown(s, Front(steps)) && Enabled(limit, s, Last(steps))
    ensures FilesKnown(Apply(limit, s, Last(steps)), steps)
  {
    hide Enabled, Apply;
    var s' := Apply(limit, s, Last(steps));
    forall o | o in s'.objs && IsOpen(s'.objs[o]) ensures OpenedOn(steps, o) == Some(s'.objs[o].pair) {
      ObjsStep(limit, s, Last(steps), o);
    }
  }

  // ---- local files ----

  /** The local file holds the byte written last. */
  ghost predicate ByteHeld(s: State, steps: seq<Step>, p: Pair, b: nat) {
    var x := LastByte(steps, p, b);
    && (b in WrittenAt(s, p) <==> x.Some?)
    && (x.Some? ==> b < |BytesOf(s.local, p)| && BytesOf(s.local, p)[b] == x.value)
  }

  lemma WriteHolds(s: State, s': State, steps: seq<Step>, q: Pair, off: nat, data: seq<byte>, p: Pair, b: nat)
    requires steps != [] && ByteHeld(s, Front(steps), p, b) && !Truncates(Last(steps), p)
    requires s'.local == s.local[q := Overwrite(BytesOf(s.local, q), off, data)]
    requires s'.written == s.written[q := WrittenAt(s, q) + Offsets(off, |data|)]
    requires Puts(steps, p, b) == if p == q && off <= b < off + |data| then Some(data[b - off]) else None
    ensures ByteHeld(s', steps, p, b)
  {
    hide Puts, Offsets;
  }

  lemma SameHolds(s: State, s': State, steps: seq<Step>, p: Pair, b: nat)
    requires steps != [] && ByteHeld(s, Front(steps), p, b) && !Truncates(Last(steps), p) && Puts(steps, p, b) == None
    requires BytesOf(s'.local, p) == BytesOf(s.local, p) && WrittenAt(s', p) == WrittenAt(s, p)
    ensures ByteHeld(s', steps, p, b)
  {
    hide Puts;
  }

  predicate Writes(st: Step) {
    st.WriteLocal? || st.WriteLocalFails?
  }

  function DataOf(st: Step): (r: seq<byte>)
    requires Writes(st)
  {
    if st.WriteLocal? then st.data else st.part
  }

  lemma WriteStep(limit: nat, s: State, st: Step)
    requires Enabled(limit, s, st) && Writes(st)
    ensures IsOpen(ObjAt(s, st.o))
    ensures var s', q := Apply(limit, s, st), ObjAt(s, st.o).pair;
      && s'.local == s.local[q := Overwrite(BytesOf(s.local, q), st.off, DataOf(st))]
      && s'.written == s.written[q := WrittenAt(s, q) + Offsets(st.off, |DataOf(st)|)]
      && s'.remote == s.remote
  {
    hide Overwrite, Offsets;
  }

  lemma WritePuts(s: State, steps: seq<Step>, p: Pair, b: nat)
    requires steps != [] && FilesKnown(s, Front(steps)) && Writes(Last(steps)) && IsOpen(ObjAt(s, Last(steps).o))
    ensures var st := Last(steps); var q, data := ObjAt(s, st.o).pair, DataOf(st);
      Puts(steps, p, b) == if p == q && st.off <= b < st.off + |data| then Some(data[b - st.off]) else None
  {
  }

  lemma OtherStep(limit: nat, s: State, st: Step, p: Pair)
    requires Enabled(limit, s, st) && Descriptors(s) && !Writes(st)
    ensures var s' := Apply(limit, s, st);
      s'.local == s.local && WrittenAt(s', p) == (if Truncates(st, p) then {} else WrittenAt(s, p))
  {
    if st.Chunk? {
      ChunkStep(limit, s, st.n);
    }
    hide Overwrite, Offsets, Content, Stored, Descriptors, Sent, Popped, Accounted;
  }

  lemma StepHolds(limit: nat, s: State, steps: seq<Step>, p: Pair, b: nat)
    requires steps != [] && ByteHeld(s, Front(steps), p, b) && FilesKnown(s, Front(steps)) && Descriptors(s)
    requires Enabled(limit, s, Last(steps))
    ensures ByteHeld(Apply(limit, s, Last(steps)), steps, p, b)
  {
    var st := Last(steps);
    var s' := Apply(limit, s, st);
    hide Enabled, Apply, Overwrite, Offsets, Descriptors, FilesKnown;
    if Writes(st) {
      WriteStep(limit, s, st);
      WritePuts(s, steps, p, b);
      WriteHolds(s, s', steps, ObjAt(s, st.o).pair, st.off, DataOf(st), p, b);
    } else {
      OtherStep(limit, s, st, p);
      if !Truncates(st, p) {
        SameHolds(s, s', steps, p, b);
      }
    }
  }

  lemma Prefix(steps: seq<Step>, i: nat)
    requires 0 < i <= |steps|
    ensures steps[..i] != [] && Front(steps[..i]) == steps[..i - 1] && Last(steps[..i]) == steps[i - 1]
  {
  }

  lemma RunStep(limit: nat, states: seq<State>, steps: seq<Step>, i: nat)
    requires Run(limit, states, steps) && 0 < i < |states|
    ensures Enabled(limit, states[i - 1], steps[i - 1]) && states[i] == Apply(limit, states[i - 1], steps[i - 1])
    ensures Descriptors(states[i - 1])
  {
    hide Enabled, Apply, Descriptors, Accounts, Coverage;
    RunKeepsInv(limit, states, steps, i - 1);
    assert Enabled(limit, states[i - 1], steps[i - 1]) && states[(i - 1) + 1] == Apply(limit, states[i - 1], steps[i - 1]);
  }

  lemma {:induction false} RunKnows(limit: nat, states: seq<State>, steps: seq<Step>, i: nat)
    requires Run(limit, states, steps) && i < |states|
    ensures FilesKnown(states[i], steps[..i])
  {
    if i > 0 {
      hide Run, Enabled, Apply, FilesKnown;
      RunKnows(limit, states, steps, i - 1);
      RunStep(limit, states, steps, i);
      Prefix(steps, i);
      StepKnows(limit, states[i - 1], steps[..i]);
    }
  }

  lemma {:induction false} RunHolds(limit: nat, states: seq<State>, steps: seq<Step>, i: nat, p: Pair, b: nat)
    requires Run(limit, states, steps) && i < |states|
    ensures ByteHeld(states[i], steps[..i], p, b)
  {
    if i > 0 {
      hide Run, Enabled, Apply, FilesKnown, ByteHeld, Descriptors;
      RunHolds(limit, states, steps, i - 1, p, b);
      RunKnows(limit, states, steps, i - 1);
      RunStep(limit, states, steps, i);
      Prefix(steps, i);
      StepHolds(limit, states[i - 1], steps[..i], p, b);
    }
  }

  predicate Holds(files: map<Pair, seq<byte>>, p: Pair, b: nat, x: byte) {
    b < |BytesOf(files, p)| && BytesOf(files, p)[b] == x
  }

  /** In every state of every run, failures and shutdown included, the local file holds the byte written last, and so does
      the remote file, unless the byte is in an unfinished `pwrite`, a queued WRITE, the part of the WRITE in flight that is
      not copied yet, or a range that was lost. */
  lemma WrittenBytes(limit: nat, states: seq<State>, steps: seq<Step>, i: nat, p: Pair, b: nat)
    requires Run(limit, states, steps) && i < |states| && LastByte(steps[..i], p, b).Some?
    ensures var s, x := states[i], LastByte(steps[..i], p, b).value;
      Holds(s.local, p, b, x) && (Holds(s.remote, p, b, x) || Covered(s, p, b))
  {
    hide Run, LastByte, Covered;
    RunHolds(limit, states, steps, i, p, b);
    DifferencesCovered(limit, states, steps, i, p, b);
  }

  /** When `flush` returns and no writer is active, the byte written last is at its remote place, unless the WRITE in flight
      has still to copy it; if there is none, every byte is. */
  lemma FlushLeavesOnlyInFlight(limit: nat, states: seq<State>, steps: seq<Step>, i: nat, p: Pair, b: nat)
    requires Run(limit, states, steps) && Smooth(steps) && i < |steps| && steps[i] == Flush
    requires forall o :: o in states[i].objs ==> !states[i].objs[o].Writing?
    requires LastByte(steps[..i + 1], p, b).Some?
    ensures var s, x := states[i + 1], LastByte(steps[..i + 1], p, b).value;
      && (Holds(s.remote, p, b, x) || ByJob(s, p, b))
      && (s.job == Idle ==> Holds(s.remote, p, b, x))
  {
    assert i + 1 < |states|;
    hide Run, LastByte, ByJob, Smooth;
    RunHolds(limit, states, steps, i + 1, p, b);
    FlushSame(limit, states, steps, i, p, b);
  }

  // ---- what no write covers ----

  /** The range of a WRITE was written. */
  ghost predicate RangeTouched(steps: seq<Step>, p: Pair, off: nat, size: nat) {
    forall b: nat :: off <= b < off + size ==> Touched(steps, p, b)
  }

  ghost predicate OpTouched(steps: seq<Step>, op: Op) {
    op.Write? ==> RangeTouched(steps, op.pair, op.off, op.size)
  }

  ghost predicate RangesTouched(s: State, steps: seq<Step>) {
    && (forall o :: o in s.objs && s.objs[o].Writing? ==> OpTouched(steps, WriteOf(s.objs[o])))
    && (forall op :: op in s.ctx.queue ==> OpTouched(steps, op))
    && (s.job.Job? ==> OpTouched(steps, s.job.op))
  }

  lemma StaysTouched(steps: seq<Step>, op: Op)
    requires steps != [] && OpTouched(Front(steps), op)
    ensures OpTouched(steps, op)
  {
    hide Puts;
    if op.Write? {
      forall b: nat | op.off <= b < op.off + op.size ensures Touched(steps, op.pair, b) {
        assert Touched(Front(steps), op.pair, b);
      }
    }
  }

  lemma WriteTouches(s: State, steps: seq<Step>)
    requires steps != [] && FilesKnown(s, Front(steps)) && Writes(Last(steps)) && IsOpen(ObjAt(s, Last(steps).o))
    ensures var st := Last(steps); RangeTouched(steps, ObjAt(s, st.o).pair, st.off, |DataOf(st)|)
  {
    hide FilesKnown;
    forall b: nat | Last(steps).off <= b < Last(steps).off + |DataOf(Last(steps))| ensures Touched(steps, ObjAt(s, Last(steps).o).pair, b) {
      WritePuts(s, steps, ObjAt(s, Last(steps).o).pair, b);
    }
  }

  lemma CloseTouched(steps: seq<Step>, op: Op)
    requires op.Close?
    ensures OpTouched(steps, op)
  {
  }

  lemma RangeIsOp(steps: seq<Step>, op: Op)
    requires op.Write? && RangeTouched(steps, op.pair, op.off, op.size)
    ensures OpTouched(steps, op)
  {
  }

  /** Where the commands of a state come from. */
  lemma OpsStep(limit: nat, s: State, st: Step)
    requires Enabled(limit, s, st)
    ensures var s' := Apply(limit, s, st);
      && (s'.job.Job? ==> (s.job.Job? && s'.job.op == s.job.op) || s'.job.op in s.ctx.queue)
      && (forall op :: op in s'.ctx.queue && op.Write? ==> op in s.ctx.queue || (st.SendWrite? && ObjAt(s, st.o).Writing? && op == WriteOf(ObjAt(s, st.o))))
  {
    hide Overwrite, Offsets, Content, Stored, Blocked;
  }

  lemma WritersStep(limit: nat, s: State, st: Step, o: nat)
    requires Enabled(limit, s, st) && ObjAt(Apply(limit, s, st), o).Writing?
    ensures if st.WriteLocal? && st.o == o then
        IsOpen(ObjAt(s, o)) && var op := WriteOf(ObjAt(Apply(limit, s, st), o)); op.pair == ObjAt(s, o).pair && op.off == st.off && op.size == |st.data|
      else ObjAt(Apply(limit, s, st), o) == ObjAt(s, o)
  {
    hide Overwrite, Offsets, Content, Stored, Sent, Popped, Accounted, Blocked;
  }

  lemma StepTouches(limit: nat, s: State, steps: seq<Step>)
    requires steps != [] && FilesKnown(s, Front(steps)) && RangesTouched(s, Front(steps)) && Enabled(limit, s, Last(steps))
    ensures RangesTouched(Apply(limit, s, Last(steps)), steps)
  {
    hide OpTouched, FilesKnown, Apply, Enabled;
    var st := Last(steps);
    var s' := Apply(limit, s, st);
    OpsStep(limit, s, st);
    forall op | op in s'.ctx.queue ensures OpTouched(steps, op) {
      if op.Write? { StaysTouched(steps, op); } else { CloseTouched(steps, op); }
    }
    if s'.job.Job? {
      StaysTouched(steps, s'.job.op);
    }
    forall o | o in s'.objs && s'.objs[o].Writing? ensures OpTouched(steps, WriteOf(s'.objs[o])) {
      WritersStep(limit, s, st, o);
      if st.WriteLocal? && st.o == o {
        WriteTouches(s, steps);
        RangeIsOp(steps, WriteOf(s'.objs[o]));
      } else {
        StaysTouched(steps, WriteOf(s.objs[o]));
      }
    }
  }

  lemma {:induction false} RunTouches(limit: nat, states: seq<State>, steps: seq<Step>, i: nat)
    requires Run(limit, states, steps) && i < |states|
    ensures RangesTouched(states[i], steps[..i])
  {
    if i > 0 {
      hide Run, Enabled, Apply, FilesKnown, RangesTouched;
      RunTouches(limit, states, steps, i - 1);
      RunKnows(limit, states, steps, i - 1);
      RunStep(limit, states, steps, i);
      Prefix(steps, i);
      StepTouches(limit, states[i - 1], steps[..i]);
    }
  }

  /** A byte that no write covers: it is what was there before, or the zero of a gap behind it. */
  ghost predicate Unchanged(remote: map<Pair, seq<byte>>, s: State, steps: seq<Step>, p: Pair, b: nat) {
    var was, now := Original(remote, steps, p), BytesOf(s.remote, p);
    !Touched(steps, p, b) ==> if b < |was| then b < |now| && now[b] == was[b] else b < |now| ==> now[b] == 0
  }

  lemma RemoteStep(limit: nat, s: State, st: Step)
    requires Enabled(limit, s, st) && Descriptors(s)
    ensures var s' := Apply(limit, s, st);
      if st.Chunk? then Chunked(s, s', st.n)
      else if st.Open? && st.truncate then s'.remote == s.remote[st.pair := []]
      else s'.remote == s.remote
  {
    if st.Chunk? {
      ChunkStep(limit, s, st.n);
    }
    hide Overwrite, Offsets, Content, Stored, Descriptors, Sent, Popped, Accounted, Chunked;
  }

  lemma StepUnchanged(limit: nat, remote: map<Pair, seq<byte>>, s: State, steps: seq<Step>, p: Pair, b: nat)
    requires steps != [] && Enabled(limit, s, Last(steps)) && Descriptors(s) && RangesTouched(s, Front(steps))
    requires Unchanged(remote, s, Front(steps), p, b)
    ensures Unchanged(remote, Apply(limit, s, Last(steps)), steps, p, b)
  {
    hide Enabled, Apply, Descriptors, Puts;
    RemoteStep(limit, s, Last(steps));
  }

  /** In every state of every run, the remote file holds at every offset that no write covers what it held at the start, or
      nothing but zeros if it was truncated or did not reach that far. */
  lemma {:induction false} UnwrittenBytes(limit: nat, states: seq<State>, steps: seq<Step>, i: nat, p: Pair, b: nat)
    requires Run(limit, states, steps) && i < |states|
    ensures Unchanged(states[0].remote, states[i], steps[..i], p, b)
  {
    if i > 0 {
      UnwrittenBytes(limit, states, steps, i - 1, p, b);
      hide Run, Enabled, Apply, RangesTouched, Unchanged, Descriptors;
      RunTouches(limit, states, steps, i - 1);
      RunStep(limit, states, steps, i);
      Prefix(steps, i);
      StepUnchanged(limit, states[0].remote, states[i - 1], steps[..i], p, b);
    }
  }

  // ---- losses and shutdown ----

  /** Step `j` loses offset `b` of pair `p`: a local write is cut short, a transfer fails before it has copied the byte, or a
      WRITE is dropped because the cache has been shut down. */
  ghost predicate Loses(states: seq<State>, steps: seq<Step>, j: nat, p: Pair, b: nat)
    requires j < |steps| && |states| == |steps| + 1
  {
    match steps[j]
    case WriteLocalFails(o, _, _) => Puts(steps[..j + 1], p, b).Some?
    case SendWrite(o) =>
      && Shutdown in steps[..j]
      && var obj := ObjAt(states[j], o); obj.Writing? && obj.pair == p && Within(obj.off, obj.size, b)
    case Finish(result) => !result && ByJob(states[j], p, b)
    case _ => false
  }

  lemma ShutsDownStep(limit: nat, s: State, st: Step)
    requires Enabled(limit, s, st)
    ensures Apply(limit, s, st).ctx.finished <==> s.ctx.finished || st == Shutdown
  {
    hide Overwrite, Offsets, Content, Stored;
  }

  lemma {:induction false} ShutsDown(limit: nat, states: seq<State>, steps: seq<Step>, i: nat)
    requires Run(limit, states, steps) && i < |states|
    ensures states[i].ctx.finished <==> Shutdown in steps[..i]
  {
    if i > 0 {
      hide Enabled, Apply;
      ShutsDown(limit, states, steps, i - 1);
      assert Enabled(limit, states[i - 1], steps[i - 1]) && states[(i - 1) + 1] == Apply(limit, states[i - 1], steps[i - 1]);
      ShutsDownStep(limit, states[i - 1], steps[i - 1]);
      assert steps[..i] == steps[..i - 1] + [steps[i - 1]];
    }
  }

  lemma LossStep(limit: nat, s: State, steps: seq<Step>, p: Pair, b: nat)
    requires steps != [] && FilesKnown(s, Front(steps)) && Enabled(limit, s, Last(steps))
    requires ByLoss(Apply(limit, s, Last(steps)), p, b) && !ByLoss(s, p, b)
    ensures match Last(steps)
      case WriteLocalFails(_, _, _) => Puts(steps, p, b).Some?
      case SendWrite(o) =>
        s.ctx.finished && var obj := ObjAt(s, o); obj.Writing? && obj.pair == p && Within(obj.off, obj.size, b)
      case Finish(result) => !result && ByJob(s, p, b)
      case _ => false
  {
    var st := Last(steps);
    var s' := Apply(limit, s, st);
    hide Overwrite, Offsets, Content, Stored, Sent, Popped, Accounted;
    var k :| 0 <= k < |s'.lost| && s'.lost[k].pair == p && Within(s'.lost[k].off, s'.lost[k].size, b);
    assert forall j :: 0 <= j < |s.lost| ==> s'.lost[j] == s.lost[j];
    if st.WriteLocalFails? {
      WritePuts(s, steps, p, b);
    }
  }

  /** Every range that counts as lost has its cause. */
  lemma {:induction false} LossHasCause(limit: nat, states: seq<State>, steps: seq<Step>, i: nat, p: Pair, b: nat) returns (j: nat)
    requires Run(limit, states, steps) && i < |states| == |steps| + 1 && ByLoss(states[i], p, b)
    ensures j < i && Loses(states, steps, j, p, b)
  {
    assert i > 0;
    hide Enabled, Apply, ByLoss, FilesKnown, ByJob, Puts;
    if ByLoss(states[i - 1], p, b) {
      j := LossHasCause(limit, states, steps, i - 1, p, b);
    } else {
      RunKnows(limit, states, steps, i - 1);
      ShutsDown(limit, states, steps, i - 1);
      assert Enabled(limit, states[i - 1], steps[i - 1]) && states[(i - 1) + 1] == Apply(limit, states[i - 1], steps[i - 1]);
      Prefix(steps, i);
      LossStep(limit, states[i - 1], steps[..i], p, b);
      j := i - 1;
    }
  }

  lemma DrainStep(limit: nat, s: State, st: Step)
    requires Enabled(limit, s, st) && s.ctx.finished
    ensures var s' := Apply(limit, s, st); Jobs(s') == Jobs(s) || (Jobs(s) != [] && Jobs(s') == Jobs(s)[1..])
  {
    hide Overwrite, Offsets, Content, Stored;
  }

  /** `a` is what is left of `b` when some commands at its head are done. */
  predicate RestOf(a: seq<Op>, b: seq<Op>) {
    |a| <= |b| && a == b[|b| - |a|..]
  }

  lemma {:induction false} Drains(limit: nat, states: seq<State>, steps: seq<Step>, i: nat, n: nat)
    requires Run(limit, states, steps) && i <= n < |states| && states[i].ctx.finished
    ensures states[n].ctx.finished && RestOf(Jobs(states[n]), Jobs(states[i]))
  {
    hide Enabled, Apply, Jobs;
    if n > i {
      Drains(limit, states, steps, i, n - 1);
      assert Enabled(limit, states[n - 1], steps[n - 1]) && states[(n - 1) + 1] == Apply(limit, states[n - 1], steps[n - 1]);
      ShutsDownStep(limit, states[n - 1], steps[n - 1]);
      DrainStep(limit, states[n - 1], steps[n - 1]);
    }
  }

  /** After the shutdown no command is queued any more: what the thread has still to do is the rest of what it had. */
  lemma ShutdownDrains(limit: nat, states: seq<State>, steps: seq<Step>, i: nat, n: nat)
    requires Run(limit, states, steps) && i <= n < |states| && Shutdown in steps[..i]
    ensures RestOf(Jobs(states[n]), Jobs(states[i]))
  {
    hide Run, RestOf, Jobs;
    ShutsDown(limit, states, steps, i);
    Drains(limit, states, steps, i, n);
  }

  // ---- descriptors ----

  ghost predicate OwnedBy(s: State, d: int) {
    exists o :: o in s.objs && d in Owned(s.objs[o])
  }

  ghost predicate ClosedBy(s: State, d: int) {
    exists i :: 0 <= i < |Jobs(s)| && d in ToClose(s, i)
  }

  lemma OwnersStep(limit: nat, s: State, st: Step, o: nat)
    requires Enabled(limit, s, st) && o in s.objs
    ensures var s' := Apply(limit, s, st);
      && o in s'.objs
      && (Owned(s.objs[o]) <= Owned(s'.objs[o]) || (st.SendClose? && st.o == o && s.objs[o].Opened? && Owned(s.objs[o]) == {s.objs[o].fl, s.objs[o].fr}))
  {
    hide Overwrite, Offsets, Content, Stored, Sent, Popped, Accounted, Blocked;
  }

  lemma SentCloses(limit: nat, s: State, o: nat, d: int)
    requires Enabled(limit, s, SendClose(o)) && !s.ctx.finished && d in {ObjAt(s, o).fl, ObjAt(s, o).fr}
    ensures ClosedBy(Apply(limit, s, SendClose(o)), d)
  {
    var s' := Apply(limit, s, SendClose(o));
    var n := |Jobs(s)|;
    assert Jobs(s') == Jobs(s) + [CloseOf(ObjAt(s, o))];
    assert d in ToClose(s', n);
  }

  /** How a step changes what the thread has still to do. */
  lemma JobsStep(limit: nat, s: State, st: Step)
    requires Enabled(limit, s, st)
    ensures var s' := Apply(limit, s, st);
      if st.Finish? || st.CloseRemote? then Jobs(s') == Jobs(s)[1..] && s'.job == Idle
      else Jobs(s) <= Jobs(s') && (st.CloseLocal? || (s.job == Idle && st == Pop && s'.job.done == 0) || st.Chunk? || s'.job == s.job)
  {
    hide Overwrite, Offsets, Content, Stored;
  }

  lemma ThreadStep(limit: nat, s: State, st: Step)
    requires Enabled(limit, s, st)
    ensures var s' := Apply(limit, s, st);
      && (st.CloseLocal? ==> s'.job == s.job.(done := 1) && s.job.op.fl !in s'.fds)
      && (st.CloseRemote? ==> s.job.op.fr !in s'.fds)
      && (st.Chunk? ==> s'.job.Job? && s'.job.op == s.job.op)
  {
    hide Overwrite, Offsets, Content, Stored;
  }

  lemma ClosersStep(limit: nat, s: State, st: Step, i: nat, d: int)
    requires Enabled(limit, s, st) && i < |Jobs(s)| && d in ToClose(s, i) && d in Apply(limit, s, st).fds
    ensures ClosedBy(Apply(limit, s, st), d)
  {
    var s' := Apply(limit, s, st);
    JobsStep(limit, s, st);
    ThreadStep(limit, s, st);
    hide Apply, Blocked;
    if st.Finish? || st.CloseRemote? {
      assert i > 0;
      assert d in ToClose(s', i - 1);
    } else {
      assert d in ToClose(s', i);
    }
  }

  lemma NewDescriptors(limit: nat, s: State, st: Step, d: int)
    requires Enabled(limit, s, st) && d in Apply(limit, s, st).fds && d !in s.fds
    ensures OwnedBy(Apply(limit, s, st), d)
  {
    hide Overwrite, Offsets, Content, Stored;
    var s' := Apply(limit, s, st);
    assert st.Open? || st.OpenHalf?;
    assert d in Owned(s'.objs[st.o]);
  }

  /** Without a shutdown, every descriptor that is open is owned by a cached file or will be closed by a command on its way to
      the thread: none is leaked. */
  lemma {:induction false} NothingLeaks(limit: nat, states: seq<State>, steps: seq<Step>, n: nat, d: int)
    requires Run(limit, states, steps) && n < |states| && Shutdown !in steps[..n] && d in states[n].fds
    ensures OwnedBy(states[n], d) || ClosedBy(states[n], d)
  {
    hide Enabled, Apply, Jobs, ToClose, Owned;
    if n > 0 {
      var s, st := states[n - 1], steps[n - 1];
      assert Enabled(limit, s, st) && states[(n - 1) + 1] == Apply(limit, s, st);
      assert steps[..n] == steps[..n - 1] + [st];
      ShutsDown(limit, states, steps, n - 1);
      if d !in s.fds {
        NewDescriptors(limit, s, st, d);
      } else {
        NothingLeaks(limit, states, steps, n - 1, d);
        if OwnedBy(s, d) {
          var o :| o in s.objs && d in Owned(s.objs[o]);
          OwnersStep(limit, s, st, o);
          if d !in Owned(states[n].objs[o]) {
            SentCloses(limit, s, o, d);
          }
        } else {
          var i :| 0 <= i < |Jobs(s)| && d in ToClose(s, i);
          ClosersStep(limit, s, st, i, d);
        }
      }
    }
  }
}
