/** What every run of the write-behind cache keeps: the byte accounting, the descriptors the background thread
    uses, and which bytes may differ between the local and the remote file. */
module CacheSafety {
  import opened Bytes
  import opened Cache

  // ---- accounting ----

  function Sum(ops: seq<Op>): (n: nat) {
    if ops == [] then 0 else (if ops[0].Write? then ops[0].size else 0) + Sum(ops[1..])
  }

  lemma {:induction false} SumSnoc(ops: seq<Op>, op: Op)
    ensures Sum(ops + [op]) == Sum(ops) + OpSize(op)
  {
    if ops != [] {
      SumSnoc(ops[1..], op);
      assert (ops + [op])[1..] == ops[1..] + [op];
    }
  }

  function InFlight(s: State): (n: nat) {
    if s.job.Job? && s.job.op.Write? then s.job.op.size else 0
  }

  /** The counter is exactly what is queued or in flight, within the limit. */
  ghost predicate Accounts(limit: nat, s: State) {
    && s.ctx.opSize == Sum(s.ctx.queue) + InFlight(s)
    && s.ctx.opSize <= limit
  }

  lemma StepKeepsAccounts(limit: nat, s: State, step: Step)
    requires Accounts(limit, s) && Enabled(limit, s, step)
    ensures Accounts(limit, Apply(limit, s, step))
  {
    hide Overwrite, Offsets, Content, Stored;
    match step
    case SendWrite(o) => SumSnoc(s.ctx.queue, WriteOf(ObjAt(s, o)));
    case SendClose(o) => SumSnoc(s.ctx.queue, CloseOf(ObjAt(s, o)));
    case _ =>
  }

  // ---- descriptors ----

  /** Everything the background thread still has to do, in order. */
  function Jobs(s: State): (r: seq<Op>) {
    (if s.job.Job? then [s.job.op] else []) + s.ctx.queue
  }

  /** The descriptors a cached file owns. */
  function Owned(o: Obj): (r: set<int>) {
    match o
    case HalfOpen(fl) => {fl}
    case Opened(fl, fr, _) => {fl, fr}
    case Writing(fl, fr, _, _, _) => {fl, fr}
    case _ => {}
  }

  /** The descriptors that the `i`-th job still has to close. */
  function ToClose(s: State, i: nat): (r: set<int>)
    requires i < |Jobs(s)|
  {
    var op := Jobs(s)[i];
    if op.Write? then {}
    else if i == 0 && s.job.Job? && s.job.done == 1 then {op.fr}
    else {op.fl, op.fr}
  }

  predicate Names(s: State, fl: int, fr: int, p: Pair) {
    fl in s.fds && fr in s.fds && s.fds[fl] == Local(p) && s.fds[fr] == Remote(p)
  }

  ghost predicate ObjsOwn(s: State) {
    && (forall o :: o in s.objs && (s.objs[o].Opened? || s.objs[o].Writing?) ==> Names(s, s.objs[o].fl, s.objs[o].fr, s.objs[o].pair))
    && (forall o :: o in s.objs ==> Owned(s.objs[o]) <= s.fds.Keys)
    && (forall o, o' :: o in s.objs && o' in s.objs && o != o' ==> Owned(s.objs[o]) !! Owned(s.objs[o']))
  }

  ghost predicate ClosesOwn(s: State) {
    && (s.job.Job? && s.job.op.Close? ==> s.job.done <= 1)
    && (forall i :: 0 <= i < |Jobs(s)| ==> ToClose(s, i) <= s.fds.Keys)
    && (forall i, o :: 0 <= i < |Jobs(s)| && o in s.objs ==> ToClose(s, i) !! Owned(s.objs[o]))
    && (forall i, j :: 0 <= i < j < |Jobs(s)| ==> ToClose(s, i) !! ToClose(s, j))
    && (forall i :: 0 <= i < |Jobs(s)| && Jobs(s)[i].Close? ==> Jobs(s)[i].fl != Jobs(s)[i].fr)
  }

  /** Every WRITE's descriptors still name the files they named when it was sent, and no earlier CLOSE takes them away. */
  ghost predicate WritesNamed(s: State) {
    forall i :: 0 <= i < |Jobs(s)| && Jobs(s)[i].Write? ==>
      && Names(s, Jobs(s)[i].fl, Jobs(s)[i].fr, Jobs(s)[i].pair)
      && forall j :: 0 <= j < i ==> {Jobs(s)[i].fl, Jobs(s)[i].fr} !! ToClose(s, j)
  }

  ghost predicate Descriptors(s: State) {
    ObjsOwn(s) && ClosesOwn(s) && WritesNamed(s)
  }

  /** Two states with the same descriptors, the same jobs and the same owners. */
  ghost predicate SameView(s: State, s': State) {
    && s'.fds == s.fds && Jobs(s') == Jobs(s)
    && (|| s'.job == s.job
        || (s.job.Idle? && s'.job.Job? && s'.job.done == 0)
        || (s.job.Job? && s'.job.Job? && s.job.op == s'.job.op && s.job.op.Write?))
    && (forall o :: o in s'.objs ==> Owned(s'.objs[o]) == Owned(ObjAt(s, o)))
    && (forall o :: o in s'.objs && (s'.objs[o].Opened? || s'.objs[o].Writing?) ==>
         var t := ObjAt(s, o); (t.Opened? || t.Writing?) && t.fl == s'.objs[o].fl && t.fr == s'.objs[o].fr && t.pair == s'.objs[o].pair)
  }

  lemma SameViewKeeps(s: State, s': State)
    requires Descriptors(s) && SameView(s, s')
    ensures Descriptors(s')
  {
    assert forall i :: 0 <= i < |Jobs(s)| ==> ToClose(s', i) == ToClose(s, i);
    hide Jobs, ToClose;
    assert forall o :: o in s'.objs && o !in s.objs ==> Owned(s'.objs[o]) == {};
  }

  /** A cached file takes fresh descriptors. */
  ghost predicate OpensTo(s: State, o: nat, obj: Obj, fds: map<int, FileRef>) {
    && ObjAt(s, o) == Closed
    && fds.Keys == s.fds.Keys + Owned(obj) && Owned(obj) !! s.fds.Keys && (forall d :: d in s.fds ==> fds[d] == s.fds[d])
    && (obj.HalfOpen? || (obj.Opened? && fds[obj.fl] == Local(obj.pair) && fds[obj.fr] == Remote(obj.pair)))
  }

  lemma OpenObjs(s: State, o: nat, obj: Obj, fds: map<int, FileRef>)
    requires ObjsOwn(s) && OpensTo(s, o, obj, fds)
    ensures ObjsOwn(s.(objs := s.objs[o := obj], fds := fds))
  {
  }

  lemma OpenCloses(s: State, o: nat, obj: Obj, fds: map<int, FileRef>)
    requires ClosesOwn(s) && WritesNamed(s) && OpensTo(s, o, obj, fds)
    ensures ClosesOwn(s.(objs := s.objs[o := obj], fds := fds)) && WritesNamed(s.(objs := s.objs[o := obj], fds := fds))
  {
    var s' := s.(objs := s.objs[o := obj], fds := fds);
    assert Jobs(s') == Jobs(s);
    assert forall i :: 0 <= i < |Jobs(s)| ==> ToClose(s', i) == ToClose(s, i);
    hide Jobs, ToClose, Owned;
  }

  lemma OpenKeeps(s: State, o: nat, obj: Obj, fds: map<int, FileRef>)
    requires Descriptors(s) && OpensTo(s, o, obj, fds)
    ensures Descriptors(s.(objs := s.objs[o := obj], fds := fds))
  {
    hide ObjsOwn, ClosesOwn, WritesNamed, OpensTo;
    OpenObjs(s, o, obj, fds);
    OpenCloses(s, o, obj, fds);
  }

  /** Cached file `o` hands `op` to the background thread. */
  ghost predicate Sends(s: State, s': State, op: Op, o: nat) {
    && !s.ctx.finished && o in s'.objs && s' == s.(ctx := Sent(s.ctx, op), objs := s.objs[o := s'.objs[o]])
    && match op
       case Close(fl, fr) => s'.objs[o] == Closing && ObjAt(s, o).Opened? && op == CloseOf(ObjAt(s, o)) && fl != fr
       case Write(fl, fr, _, _, pair) => ObjAt(s, o).Writing? && op == WriteOf(ObjAt(s, o)) && s'.objs[o] == Opened(fl, fr, pair)
  }

  lemma SendJobs(s: State, s': State, op: Op, o: nat)
    requires Sends(s, s', op, o)
    ensures Jobs(s') == Jobs(s) + [op] && s'.job == s.job
    ensures forall i :: 0 <= i < |Jobs(s)| ==> ToClose(s', i) == ToClose(s, i)
    ensures ToClose(s', |Jobs(s)|) <= Owned(ObjAt(s, o)) && Owned(s'.objs[o]) <= Owned(ObjAt(s, o))
    ensures ToClose(s', |Jobs(s)|) !! Owned(s'.objs[o])
  {
  }

  lemma SendObjs(s: State, s': State, op: Op, o: nat)
    requires ObjsOwn(s) && Sends(s, s', op, o)
    ensures ObjsOwn(s')
  {
    SendJobs(s, s', op, o);
    hide Jobs, ToClose;
  }

  lemma SendCloses(s: State, s': State, op: Op, o: nat)
    requires ObjsOwn(s) && ClosesOwn(s) && Sends(s, s', op, o)
    ensures ClosesOwn(s')
  {
    SendJobs(s, s', op, o);
    assert o in s.objs && ObjAt(s, o) == s.objs[o] && (op.Close? ==> op.fl != op.fr);
    hide Jobs, ToClose, Owned;
  }

  lemma SendWrites(s: State, s': State, op: Op, o: nat)
    requires Descriptors(s) && Sends(s, s', op, o)
    ensures WritesNamed(s')
  {
    SendJobs(s, s', op, o);
    assert op.Write? ==> Names(s, op.fl, op.fr, op.pair) && {op.fl, op.fr} == Owned(s.objs[o]);
    hide Jobs, ToClose, Owned;
  }

  lemma SendKeeps(s: State, s': State, op: Op, o: nat)
    requires Descriptors(s) && Sends(s, s', op, o)
    ensures Descriptors(s')
  {
    hide ObjsOwn, ClosesOwn, WritesNamed, Sends;
    SendObjs(s, s', op, o);
    SendCloses(s, s', op, o);
    SendWrites(s, s', op, o);
  }

  /** The first job is over: it is a WRITE, or a CLOSE whose last descriptor has just been closed. */
  ghost predicate Retired(s: State, s': State) {
    && s.job.Job? && s'.job == Idle && s'.ctx.queue == s.ctx.queue && s'.objs == s.objs
    && s'.fds == s.fds - ToClose(s, 0)
  }

  lemma RetireJobs(s: State, s': State)
    requires Retired(s, s')
    ensures |Jobs(s)| == |Jobs(s')| + 1
    ensures forall i :: 0 <= i < |Jobs(s')| ==> ToClose(s', i) == ToClose(s, i + 1) && Jobs(s')[i] == Jobs(s)[i + 1]
  {
  }

  lemma RetireObjs(s: State, s': State)
    requires ObjsOwn(s) && ClosesOwn(s) && Retired(s, s')
    ensures ObjsOwn(s')
  {
    RetireJobs(s, s');
    hide Jobs, ToClose;
    assert forall o :: o in s.objs ==> ToClose(s, 0) !! Owned(s.objs[o]);
  }

  lemma RetireCloses(s: State, s': State)
    requires ClosesOwn(s) && Retired(s, s')
    ensures ClosesOwn(s')
  {
    RetireJobs(s, s');
    hide Jobs, ToClose, Owned;
    forall i, j | 0 <= i < j < |Jobs(s')| ensures ToClose(s', i) !! ToClose(s', j) {
      assert ToClose(s, i + 1) !! ToClose(s, j + 1);
    }
    forall i | 0 <= i < |Jobs(s')| ensures ToClose(s', i) <= s'.fds.Keys {
      assert ToClose(s, 0) !! ToClose(s, i + 1);
    }
  }

  lemma RetireWrites(s: State, s': State)
    requires WritesNamed(s) && Retired(s, s')
    ensures WritesNamed(s')
  {
    RetireJobs(s, s');
    hide Jobs, ToClose;
    forall i | 0 <= i < |Jobs(s')| && Jobs(s')[i].Write?
      ensures Names(s', Jobs(s')[i].fl, Jobs(s')[i].fr, Jobs(s')[i].pair)
      ensures forall j :: 0 <= j < i ==> {Jobs(s')[i].fl, Jobs(s')[i].fr} !! ToClose(s', j)
    {
      var op := Jobs(s)[i + 1];
      assert {op.fl, op.fr} !! ToClose(s, 0);
      forall j | 0 <= j < i ensures {op.fl, op.fr} !! ToClose(s', j) {
        assert {op.fl, op.fr} !! ToClose(s, j + 1);
      }
    }
  }

  lemma RetireKeeps(s: State, s': State)
    requires Descriptors(s) && Retired(s, s')
    ensures Descriptors(s')
  {
    hide ObjsOwn, ClosesOwn, WritesNamed, Retired;
    RetireObjs(s, s');
    RetireCloses(s, s');
    RetireWrites(s, s');
  }

  lemma CloseLocalKeeps(s: State, s': State)
    requires Descriptors(s) && s.job.Job? && s.job.op.Close? && s.job.done == 0
    requires s' == s.(fds := s.fds - {s.job.op.fl}, job := Job(s.job.op, 1))
    ensures Descriptors(s')
  {
    assert Jobs(s') == Jobs(s);
    assert ToClose(s, 0) == {s.job.op.fl, s.job.op.fr} && ToClose(s', 0) == {s.job.op.fr};
    assert forall i :: 0 < i < |Jobs(s)| ==> ToClose(s', i) == ToClose(s, i);
    hide Jobs, ToClose;
  }

  /** Steps that leave the descriptors, the jobs and the owners alone. */
  predicate Quiet(step: Step) {
    step.WriteLocal? || step.WriteLocalFails? || step.Drop? || step.Pop? || step.Chunk? || step.Flush? || step.Shutdown?
  }

  lemma QuietSteps(limit: nat, s: State, step: Step)
    requires Enabled(limit, s, step) && Quiet(step)
    ensures SameView(s, Apply(limit, s, step))
  {
    hide Overwrite, Offsets, Content, Stored;
    if step.Pop? {
      assert Jobs(Apply(limit, s, step)) == Jobs(s);
    }
  }

  lemma OpenStep(limit: nat, s: State, step: Step)
    requires Enabled(limit, s, step) && (step.Open? || step.OpenHalf?)
    ensures var s' := Apply(limit, s, step);
      && s' == s.(objs := s'.objs, fds := s'.fds, remote := s'.remote, written := s'.written)
      && step.o in s'.objs && s'.objs == s.objs[step.o := s'.objs[step.o]]
      && OpensTo(s, step.o, s'.objs[step.o], s'.fds)
  {
    hide Overwrite, Offsets, Content, Stored;
  }

  lemma OpenStepKeeps(limit: nat, s: State, step: Step)
    requires Descriptors(s) && Enabled(limit, s, step) && (step.Open? || step.OpenHalf?)
    ensures Descriptors(Apply(limit, s, step))
  {
    OpenStep(limit, s, step);
    hide Apply, OpensTo, Descriptors;
    var s' := Apply(limit, s, step);
    OpenKeeps(s, step.o, s'.objs[step.o], s'.fds);
    SameViewKeeps(s.(objs := s'.objs, fds := s'.fds), s');
  }

  lemma DroppedKeeps(s: State, s': State, o: nat)
    requires Descriptors(s) && s'.ctx == s.ctx && s'.job == s.job && s'.fds == s.fds
    requires o in s'.objs && s'.objs == s.objs[o := s'.objs[o]]
    requires s'.objs[o] == Closing || (ObjAt(s, o).Writing? && var t := ObjAt(s, o); s'.objs[o] == Opened(t.fl, t.fr, t.pair))
    ensures Descriptors(s')
  {
    assert Jobs(s') == Jobs(s);
    assert forall i :: 0 <= i < |Jobs(s)| ==> ToClose(s', i) == ToClose(s, i);
    assert Owned(s'.objs[o]) <= Owned(ObjAt(s, o));
    hide Jobs, ToClose;
  }

  lemma SendStepKeeps(limit: nat, s: State, step: Step)
    requires Descriptors(s) && Enabled(limit, s, step) && (step.SendWrite? || step.SendClose?)
    ensures Descriptors(Apply(limit, s, step))
  {
    var s' := Apply(limit, s, step);
    var obj := ObjAt(s, step.o);
    var op := if step.SendWrite? then WriteOf(obj) else CloseOf(obj);
    if s.ctx.finished {
      DroppedKeeps(s, s', step.o);
    } else {
      assert Names(s, obj.fl, obj.fr, obj.pair);
      SendKeeps(s, s', op, step.o);
    }
  }

  lemma StepKeepsDescriptors(limit: nat, s: State, step: Step)
    requires Descriptors(s) && Enabled(limit, s, step)
    ensures Descriptors(Apply(limit, s, step))
  {
    hide Descriptors, SameView, Overwrite, Offsets, Content, Stored;
    var s' := Apply(limit, s, step);
    if Quiet(step) {
      QuietSteps(limit, s, step);
      SameViewKeeps(s, s');
    } else if step.Open? || step.OpenHalf? {
      OpenStepKeeps(limit, s, step);
    } else if step.SendWrite? || step.SendClose? {
      SendStepKeeps(limit, s, step);
    } else if step.CloseLocal? {
      CloseLocalKeeps(s, s');
    } else {
      RetireKeeps(s, s');
    }
  }

  // ---- which bytes may differ ----

  predicate Within(off: nat, size: nat, i: nat) {
    off <= i < off + size
  }

  /** An unfinished `pwrite` covers the byte. */
  ghost predicate ByWriter(s: State, p: Pair, i: nat) {
    exists o :: o in s.objs && s.objs[o].Writing? && s.objs[o].pair == p && Within(s.objs[o].off, s.objs[o].size, i)
  }

  /** A queued WRITE covers the byte. */
  ghost predicate ByQueue(s: State, p: Pair, i: nat) {
    exists k :: 0 <= k < |s.ctx.queue| && s.ctx.queue[k].Write? && s.ctx.queue[k].pair == p
      && Within(s.ctx.queue[k].off, s.ctx.queue[k].size, i)
  }

  /** The part that the WRITE in flight has not copied yet covers the byte. */
  ghost predicate ByJob(s: State, p: Pair, i: nat) {
    s.job.Job? && s.job.op.Write? && s.job.op.pair == p && s.job.op.off + s.job.done <= i < s.job.op.off + s.job.op.size
  }

  /** The byte was in a local write or a transfer that failed, or in a command dropped after shutdown. */
  ghost predicate ByLoss(s: State, p: Pair, i: nat) {
    exists k :: 0 <= k < |s.lost| && s.lost[k].pair == p && Within(s.lost[k].off, s.lost[k].size, i)
  }

  ghost predicate Covered(s: State, p: Pair, i: nat) {
    ByWriter(s, p, i) || ByQueue(s, p, i) || ByJob(s, p, i) || ByLoss(s, p, i)
  }

  predicate Same(s: State, p: Pair, i: nat) {
    i < |BytesOf(s.local, p)| && i < |BytesOf(s.remote, p)| && BytesOf(s.local, p)[i] == BytesOf(s.remote, p)[i]
  }

  /** Every written byte that differs remotely is covered. */
  ghost predicate Coverage(s: State) {
    forall p: Pair, i: nat :: i in WrittenAt(s, p) ==> i < |BytesOf(s.local, p)| && (Same(s, p, i) || Covered(s, p, i))
  }

  /** A step that leaves the files alone and keeps every cover, possibly by another means. */
  lemma CoverKept(s: State, s': State)
    requires Coverage(s) && s'.local == s.local && s'.remote == s.remote && s'.written == s.written
    requires forall p: Pair, i: nat :: Covered(s, p, i) ==> Covered(s', p, i)
    ensures Coverage(s')
  {
    forall p: Pair, i: nat | i in WrittenAt(s', p) ensures i < |BytesOf(s'.local, p)| && (Same(s', p, i) || Covered(s', p, i)) {
      assert i in WrittenAt(s, p);
      assert Same(s', p, i) <==> Same(s, p, i);
    }
  }

  lemma ObjStepCovers(s: State, s': State, o: nat, p: Pair, i: nat)
    requires o in s'.objs && s'.objs == s.objs[o := s'.objs[o]] && !ObjAt(s, o).Writing?
    requires s'.ctx.queue == s.ctx.queue || exists op :: s'.ctx.queue == s.ctx.queue + [op]
    requires s'.job == s.job && s'.lost == s.lost && Covered(s, p, i)
    ensures Covered(s', p, i)
  {
    if ByQueue(s, p, i) {
      var k :| 0 <= k < |s.ctx.queue| && s.ctx.queue[k].Write? && s.ctx.queue[k].pair == p
        && Within(s.ctx.queue[k].off, s.ctx.queue[k].size, i);
      assert s'.ctx.queue[k] == s.ctx.queue[k];
    }
    if ByWriter(s, p, i) {
      var k :| k in s.objs && s.objs[k].Writing? && s.objs[k].pair == p && Within(s.objs[k].off, s.objs[k].size, i);
      assert s'.objs[k] == s.objs[k];
    }
  }

  lemma SendWriteCovers(limit: nat, s: State, o: nat, p: Pair, i: nat)
    requires Enabled(limit, s, SendWrite(o)) && Covered(s, p, i)
    ensures Covered(Apply(limit, s, SendWrite(o)), p, i)
  {
    var s' := Apply(limit, s, SendWrite(o));
    if ByLoss(s, p, i) {
      var k :| 0 <= k < |s.lost| && s.lost[k].pair == p && Within(s.lost[k].off, s.lost[k].size, i);
      assert s'.lost[k] == s.lost[k];
    } else if ByQueue(s, p, i) {
      var k :| 0 <= k < |s.ctx.queue| && s.ctx.queue[k].Write? && s.ctx.queue[k].pair == p
        && Within(s.ctx.queue[k].off, s.ctx.queue[k].size, i);
      assert s'.ctx.queue[k] == s.ctx.queue[k];
    } else if ByWriter(s, p, i) {
      var k :| k in s.objs && s.objs[k].Writing? && s.objs[k].pair == p && Within(s.objs[k].off, s.objs[k].size, i);
      if k != o {
        assert s'.objs[k] == s.objs[k];
      } else if s.ctx.finished {
        assert s'.lost[|s.lost|] == Range(p, s.objs[k].off, s.objs[k].size);
      } else {
        assert s'.ctx.queue[|s.ctx.queue|] == WriteOf(s.objs[k]);
      }
    }
  }

  lemma PopCovers(s: State, s': State, p: Pair, i: nat)
    requires s.job == Idle && s.ctx.queue != [] && s' == s.(ctx := Popped(s.ctx), job := Job(s.ctx.queue[0], 0))
    requires Covered(s, p, i)
    ensures Covered(s', p, i)
  {
    if ByQueue(s, p, i) {
      var k :| 0 <= k < |s.ctx.queue| && s.ctx.queue[k].Write? && s.ctx.queue[k].pair == p
        && Within(s.ctx.queue[k].off, s.ctx.queue[k].size, i);
      if k > 0 { assert s'.ctx.queue[k - 1] == s.ctx.queue[k]; }
    }
    assert ByWriter(s', p, i) <==> ByWriter(s, p, i);
    assert ByLoss(s', p, i) <==> ByLoss(s, p, i);
  }

  lemma FinishCovers(limit: nat, s: State, result: bool, p: Pair, i: nat)
    requires Enabled(limit, s, Finish(result)) && Covered(s, p, i)
    ensures Covered(Apply(limit, s, Finish(result)), p, i)
  {
    var s' := Apply(limit, s, Finish(result));
    assert ByWriter(s', p, i) <==> ByWriter(s, p, i);
    assert ByQueue(s', p, i) <==> ByQueue(s, p, i);
    if ByLoss(s, p, i) {
      var k :| 0 <= k < |s.lost| && s.lost[k].pair == p && Within(s.lost[k].off, s.lost[k].size, i);
      assert s'.lost[k] == s.lost[k];
    } else if ByJob(s, p, i) {
      assert s'.lost[|s.lost|] == Range(p, s.job.op.off + s.job.done, s.job.op.size - s.job.done);
    }
  }

  /** The WRITE in flight copies its next `n` bytes, from the local file to the remote file it was sent for. */
  ghost predicate Chunked(s: State, s': State, n: nat) {
    && s.job.Job? && s.job.op.Write? && s.job.done + n <= s.job.op.size
    && s' == s.(remote := s'.remote, job := s.job.(done := s.job.done + n))
    && var q, at := s.job.op.pair, s.job.op.off + s.job.done;
    && at + n <= |BytesOf(s.local, q)|
    && s'.remote == s.remote[q := Overwrite(BytesOf(s.remote, q), at, BytesOf(s.local, q)[at..at + n])]
  }

  lemma ChunkStep(limit: nat, s: State, n: nat)
    requires WritesNamed(s) && Enabled(limit, s, Chunk(n))
    ensures Chunked(s, Apply(limit, s, Chunk(n)), n)
  {
    hide Overwrite;
    assert Jobs(s)[0] == s.job.op;
  }

  lemma ChunkSame(s: State, s': State, n: nat, p: Pair, i: nat)
    requires Chunked(s, s', n) && i < |BytesOf(s.local, p)|
    ensures i < |BytesOf(s'.local, p)|
    ensures Within(s.job.op.off + s.job.done, n, i) && p == s.job.op.pair ==> Same(s', p, i)
    ensures Same(s, p, i) ==> Same(s', p, i)
  {
  }

  lemma ChunkKeepsCover(s: State, s': State, n: nat, p: Pair, i: nat)
    requires Chunked(s, s', n) && Covered(s, p, i)
    ensures (Within(s.job.op.off + s.job.done, n, i) && p == s.job.op.pair) || Covered(s', p, i)
  {
    hide Overwrite;
    assert ByWriter(s', p, i) <==> ByWriter(s, p, i);
    assert ByQueue(s', p, i) <==> ByQueue(s, p, i);
    assert ByLoss(s', p, i) <==> ByLoss(s, p, i);
  }

  ghost predicate ByteCovered(s: State, p: Pair, i: nat) {
    i < |BytesOf(s.local, p)| && (Same(s, p, i) || Covered(s, p, i))
  }

  lemma ChunkCoversByte(s: State, s': State, n: nat, p: Pair, i: nat)
    requires Chunked(s, s', n) && ByteCovered(s, p, i)
    ensures ByteCovered(s', p, i)
  {
    ChunkSame(s, s', n, p, i);
    hide Chunked, Covered, Same;
    if Covered(s, p, i) {
      ChunkKeepsCover(s, s', n, p, i);
    }
  }

  /** A chunk copies the current local bytes: those agree now, the others are as covered as before. */
  lemma ChunkCovers(limit: nat, s: State, n: nat)
    requires Coverage(s) && WritesNamed(s) && Enabled(limit, s, Chunk(n))
    ensures Coverage(Apply(limit, s, Chunk(n)))
  {
    hide Apply, Enabled, WritesNamed, Covered, Same, BytesOf;
    var s' := Apply(limit, s, Chunk(n));
    ChunkStep(limit, s, n);
    assert s'.written == s.written;
    hide Chunked;
    forall p: Pair, i: nat | i in WrittenAt(s', p) ensures ByteCovered(s', p, i) {
      assert i in WrittenAt(s, p);
      assert ByteCovered(s, p, i);
      ChunkCoversByte(s, s', n, p, i);
    }
  }

  /** A local write, whole or cut short, makes its own bytes differ and covers them. */
  lemma LocalCovers(s: State, s': State, q: Pair, off: nat, data: seq<byte>)
    requires Coverage(s) && s'.remote == s.remote
    requires s'.local == s.local[q := Overwrite(BytesOf(s.local, q), off, data)]
    requires s'.written == s.written[q := WrittenAt(s, q) + Offsets(off, |data|)]
    requires forall p: Pair, i: nat :: Covered(s, p, i) ==> Covered(s', p, i)
    requires forall i: nat :: Within(off, |data|, i) ==> Covered(s', q, i)
    ensures Coverage(s')
  {
    hide Covered, Offsets;
    forall p: Pair, i: nat | i in WrittenAt(s', p) ensures i < |BytesOf(s'.local, p)| && (Same(s', p, i) || Covered(s', p, i)) {
      if p == q && off <= i < off + |data| {
        assert Within(off, |data|, i);
      } else {
        assert i in WrittenAt(s, p);
        assert Same(s, p, i) ==> Same(s', p, i);
      }
    }
  }

  lemma WriteKeepsCover(limit: nat, s: State, step: Step, p: Pair, i: nat)
    requires Enabled(limit, s, step) && (step.WriteLocal? || step.WriteLocalFails?) && Covered(s, p, i)
    ensures Covered(Apply(limit, s, step), p, i)
  {
    hide Overwrite, Offsets;
    var s' := Apply(limit, s, step);
    if step.WriteLocal? {
      ObjStepCovers(s, s', step.o, p, i);
    } else {
      assert ByWriter(s', p, i) <==> ByWriter(s, p, i);
      assert ByQueue(s', p, i) <==> ByQueue(s, p, i);
      if ByLoss(s, p, i) {
        var k :| 0 <= k < |s.lost| && s.lost[k].pair == p && Within(s.lost[k].off, s.lost[k].size, i);
        assert s'.lost[k] == s.lost[k];
      }
    }
  }

  lemma WriteStepCovers(limit: nat, s: State, step: Step)
    requires Coverage(s) && Enabled(limit, s, step) && (step.WriteLocal? || step.WriteLocalFails?)
    ensures Coverage(Apply(limit, s, step))
  {
    hide Coverage, Overwrite, Offsets;
    var s' := Apply(limit, s, step);
    var q, data := ObjAt(s, step.o).pair, if step.WriteLocal? then step.data else step.part;
    forall p: Pair, i: nat | Covered(s, p, i) ensures Covered(s', p, i) {
      WriteKeepsCover(limit, s, step, p, i);
    }
    forall i: nat | Within(step.off, |data|, i) ensures Covered(s', q, i) {
      if step.WriteLocal? {
        assert s'.objs[step.o].Writing? && s'.objs[step.o].pair == q;
        assert ByWriter(s', q, i);
      } else {
        assert s'.lost[|s.lost|] == Range(q, step.off, |data|);
        assert ByLoss(s', q, i);
      }
    }
    hide Covered;
    LocalCovers(s, s', q, step.off, data);
  }

  lemma OpenCovers(limit: nat, s: State, step: Step)
    requires Coverage(s) && Enabled(limit, s, step) && step.Open?
    ensures Coverage(Apply(limit, s, step))
  {
    var s' := Apply(limit, s, step);
    forall p: Pair, i: nat | i in WrittenAt(s', p) ensures i < |BytesOf(s'.local, p)| && (Same(s', p, i) || Covered(s', p, i)) {
      assert i in WrittenAt(s, p);
      assert Same(s, p, i) ==> Same(s', p, i);
      if Covered(s, p, i) { ObjStepCovers(s, s', step.o, p, i); }
    }
  }

  /** Steps that change neither the files nor what is written. */
  lemma OtherStepCovers(limit: nat, s: State, step: Step, p: Pair, i: nat)
    requires Enabled(limit, s, step) && Covered(s, p, i)
    requires !step.Open? && !step.WriteLocal? && !step.WriteLocalFails? && !step.Chunk?
    ensures Covered(Apply(limit, s, step), p, i)
  {
    var s' := Apply(limit, s, step);
    if step.SendWrite? {
      SendWriteCovers(limit, s, step.o, p, i);
    } else if step.Pop? {
      PopCovers(s, s', p, i);
    } else if step.Finish? {
      FinishCovers(limit, s, step.result, p, i);
    } else if step.OpenHalf? || step.Drop? {
      ObjStepCovers(s, s', step.o, p, i);
    } else if step.SendClose? {
      assert s'.ctx.queue == s.ctx.queue || s'.ctx.queue == s.ctx.queue + [CloseOf(ObjAt(s, step.o))];
      ObjStepCovers(s, s', step.o, p, i);
    } else {
      assert ByWriter(s', p, i) <==> ByWriter(s, p, i);
      assert ByQueue(s', p, i) <==> ByQueue(s, p, i);
      assert ByLoss(s', p, i) <==> ByLoss(s, p, i);
    }
  }

  lemma StepKeepsCoverage(limit: nat, s: State, step: Step)
    requires Coverage(s) && Descriptors(s) && Enabled(limit, s, step)
    ensures Coverage(Apply(limit, s, step))
  {
    hide Coverage, Covered, WritesNamed, ObjsOwn, ClosesOwn, Overwrite, Offsets, Content, Stored;
    var s' := Apply(limit, s, step);
    if step.Open? {
      OpenCovers(limit, s, step);
    } else if step.WriteLocal? || step.WriteLocalFails? {
      WriteStepCovers(limit, s, step);
    } else if step.Chunk? {
      ChunkCovers(limit, s, step.n);
    } else {
      forall p: Pair, i: nat | Covered(s, p, i) ensures Covered(s', p, i) {
        OtherStepCovers(limit, s, step, p, i);
      }
      CoverKept(s, s');
    }
  }

  // ---- whole runs ----

  ghost predicate Inv(limit: nat, s: State) {
    Accounts(limit, s) && Descriptors(s) && Coverage(s)
  }

  lemma InitialInv(limit: nat, s: State)
    requires Initial(s)
    ensures Inv(limit, s)
  {
    assert Jobs(s) == [];
  }

  lemma {:induction false} RunKeepsInv(limit: nat, states: seq<State>, steps: seq<Step>, i: nat)
    requires Run(limit, states, steps) && i < |states|
    ensures Inv(limit, states[i])
  {
    hide Apply, Enabled, Accounts, Descriptors, Coverage;
    if i == 0 {
      InitialInv(limit, states[0]);
    } else {
      RunKeepsInv(limit, states, steps, i - 1);
      var s, step := states[i - 1], steps[i - 1];
      assert Enabled(limit, s, step) && states[(i - 1) + 1] == Apply(limit, s, step);
      StepKeepsAccounts(limit, s, step);
      StepKeepsDescriptors(limit, s, step);
      StepKeepsCoverage(limit, s, step);
    }
  }

  /** The byte counter is exactly what is queued and in flight: it never underflows and never exceeds the limit. */
  lemma CounterExact(limit: nat, states: seq<State>, steps: seq<Step>, i: nat)
    requires Run(limit, states, steps) && i < |states|
    ensures states[i].ctx.opSize == Sum(states[i].ctx.queue) + InFlight(states[i])
    ensures 0 <= states[i].ctx.opSize <= limit
  {
    RunKeepsInv(limit, states, steps, i);
  }

  /** Whenever the background thread copies a chunk, its descriptors name the two files they named when the
      command was sent, even if the cached file has been closed and descriptor numbers reused since. */
  lemma CopiesTheRightFiles(limit: nat, states: seq<State>, steps: seq<Step>, i: nat)
    requires Run(limit, states, steps) && i < |steps| && steps[i].Chunk?
    ensures var op := states[i].job.op; Names(states[i], op.fl, op.fr, op.pair)
  {
    RunKeepsInv(limit, states, steps, i);
    assert Enabled(limit, states[i], steps[i]);
    assert Jobs(states[i])[0] == states[i].job.op;
  }

  /** In every reachable state a written byte that differs remotely is in an unfinished `pwrite`, a queued WRITE,
      the part of the WRITE in flight that is not copied yet, or a range that was lost. */
  lemma DifferencesCovered(limit: nat, states: seq<State>, steps: seq<Step>, i: nat, p: Pair, b: nat)
    requires Run(limit, states, steps) && i < |states| && b in WrittenAt(states[i], p)
    ensures Same(states[i], p, b) || Covered(states[i], p, b)
  {
    RunKeepsInv(limit, states, steps, i);
  }

  /** Nothing fails and nobody shuts the cache down. */
  ghost predicate Smooth(steps: seq<Step>) {
    forall i :: 0 <= i < |steps| ==> !steps[i].WriteLocalFails? && steps[i] != Finish(false) && !steps[i].Shutdown?
  }

  lemma SmoothStep(limit: nat, s: State, step: Step)
    requires Enabled(limit, s, step) && s.lost == [] && !s.ctx.finished
    requires !step.WriteLocalFails? && step != Finish(false) && !step.Shutdown?
    ensures Apply(limit, s, step).lost == [] && !Apply(limit, s, step).ctx.finished
  {
    hide Overwrite, Offsets, Content, Stored;
  }

  lemma {:induction false} NothingLost(limit: nat, states: seq<State>, steps: seq<Step>, i: nat)
    requires Run(limit, states, steps) && Smooth(steps) && i < |states|
    ensures states[i].lost == [] && !states[i].ctx.finished
  {
    hide Apply, Enabled;
    if i > 0 {
      NothingLost(limit, states, steps, i - 1);
      var s, step := states[i - 1], steps[i - 1];
      assert Enabled(limit, s, step) && states[(i - 1) + 1] == Apply(limit, s, step);
      SmoothStep(limit, s, step);
    }
  }

  /** When `flush` returns and no writer is active, only what the WRITE in flight has still to copy can differ;
      if there is none, every written byte is at its remote place. */
  lemma FlushSame(limit: nat, states: seq<State>, steps: seq<Step>, i: nat, p: Pair, b: nat)
    requires Run(limit, states, steps) && Smooth(steps) && i < |steps| && steps[i] == Flush
    requires forall o :: o in states[i].objs ==> !states[i].objs[o].Writing?
    requires b in WrittenAt(states[i + 1], p)
    ensures Same(states[i + 1], p, b) || ByJob(states[i + 1], p, b)
    ensures states[i + 1].job == Idle ==> Same(states[i + 1], p, b)
  {
    NothingLost(limit, states, steps, i + 1);
    DifferencesCovered(limit, states, steps, i + 1, p, b);
    assert Enabled(limit, states[i], steps[i]) && states[i + 1] == Apply(limit, states[i], steps[i]);
  }

  ghost predicate SuccessSinceFlush(steps: seq<Step>, i: nat)
    requires i <= |steps|
  {
    exists j :: 0 <= j < i && steps[j] == Finish(true) && forall k :: j < k < i ==> steps[k] != Flush
  }

  lemma NoneSinceFlush(steps: seq<Step>)
    ensures !SuccessSinceFlush(steps, 0)
  {
  }

  lemma SinceFlushStep(steps: seq<Step>, i: nat)
    requires 0 < i <= |steps|
    ensures SuccessSinceFlush(steps, i) <==> steps[i - 1] == Finish(true) || (SuccessSinceFlush(steps, i - 1) && steps[i - 1] != Flush)
  {
    if SuccessSinceFlush(steps, i - 1) && steps[i - 1] != Flush {
      var j :| 0 <= j < i - 1 && steps[j] == Finish(true) && forall k :: j < k < i - 1 ==> steps[k] != Flush;
      assert forall k :: j < k < i ==> steps[k] != Flush;
    }
  }

  lemma StatusStep(limit: nat, s: State, step: Step)
    requires Enabled(limit, s, step)
    ensures Apply(limit, s, step).ctx.failStatus <==> step == Finish(true) || (s.ctx.failStatus && step != Flush)
  {
    hide Overwrite, Offsets, Content, Stored;
  }

  /** The status that `flush` negates and returns: `flush` answers true exactly when no WRITE has succeeded since
      the previous flush, because the status accumulates the transfer's result, which is true on success. */
  lemma {:induction false} FlushAnswer(limit: nat, states: seq<State>, steps: seq<Step>, i: nat)
    requires Run(limit, states, steps) && i < |states|
    ensures states[i].ctx.failStatus <==> SuccessSinceFlush(steps, i)
  {
    hide Apply, Enabled, SuccessSinceFlush;
    if i == 0 {
      NoneSinceFlush(steps);
    } else {
      FlushAnswer(limit, states, steps, i - 1);
      assert Enabled(limit, states[i - 1], steps[i - 1]) && states[(i - 1) + 1] == Apply(limit, states[i - 1], steps[i - 1]);
      StatusStep(limit, states[i - 1], steps[i - 1]);
      SinceFlushStep(steps, i);
    }
  }

  ghost predicate FailureSinceFlush(steps: seq<Step>, i: nat)
    requires i <= |steps|
  {
    exists j :: 0 <= j < i && steps[j] == Finish(false) && forall k :: j < k < i ==> steps[k] != Flush
  }

  /** The answer of `flush` says whether a WRITE has failed since the previous flush exactly when some have succeeded and
      some have failed, or none has finished at all. */
  lemma FlushRightIff(limit: nat, states: seq<State>, steps: seq<Step>, i: nat)
    requires Run(limit, states, steps) && i < |steps| && steps[i] == Flush
    ensures var answer := !states[i].ctx.failStatus;
      (answer <==> !FailureSinceFlush(steps, i)) <==> (SuccessSinceFlush(steps, i) <==> FailureSinceFlush(steps, i))
  {
    FlushAnswer(limit, states, steps, i);
  }

  // ---- runs in which flush misleads ----

  lemma Extend(limit: nat, states: seq<State>, steps: seq<Step>, step: Step) returns (states': seq<State>, steps': seq<Step>)
    requires Run(limit, states, steps) && Enabled(limit, states[|steps|], step)
    ensures Run(limit, states', steps') && steps' == steps + [step]
    ensures |states'| == |steps'| + 1 && states'[..|states|] == states
    ensures states'[|steps'|] == Apply(limit, states[|steps|], step)
  {
    states', steps' := states + [Apply(limit, states[|steps|], step)], steps + [step];
  }

  lemma EmptyRun(limit: nat, s: State)
    requires Initial(s)
    ensures Run(limit, [s], [])
  {
  }

  // a write on its way to a new file
  const NOTHING: State := State(Context(0, [], false, false), Idle, map[], map[], map[], map[], map[], [])
  const OPEN: State := NOTHING.(fds := map[3 := Local(0), 4 := Remote(0)], objs := map[0 := Opened(3, 4, 0)])

  function Wrote(data: seq<byte>): (s: State) {
    OPEN.(objs := map[0 := Writing(3, 4, 0, 0, |data|)], local := map[0 := Overwrite([], 0, data)],
          written := map[0 := {} + Offsets(0, |data|)])
  }

  function Taken(data: seq<byte>): (s: State) {
    Wrote(data).(ctx := Context(|data|, [], false, false), objs := map[0 := Opened(3, 4, 0)],
                 job := Job(Write(3, 4, 0, |data|, 0), 0))
  }

  lemma OpenFile(limit: nat)
    ensures Enabled(limit, NOTHING, Open(0, 0, 3, 4, false)) && Apply(limit, NOTHING, Open(0, 0, 3, 4, false)) == OPEN
  {
    hide Overwrite, Offsets;
  }

  lemma WriteFile(limit: nat, data: seq<byte>)
    ensures Enabled(limit, OPEN, WriteLocal(0, 0, data)) && Apply(limit, OPEN, WriteLocal(0, 0, data)) == Wrote(data)
  {
    hide Overwrite, Offsets;
  }

  lemma SendAndTake(data: seq<byte>)
    ensures var s, k := Wrote(data), |data|;
      && Enabled(k, s, SendWrite(0)) && Enabled(k, Apply(k, s, SendWrite(0)), Pop)
      && Apply(k, Apply(k, s, SendWrite(0)), Pop) == Taken(data)
  {
    hide Overwrite, Offsets;
  }

  /** Some bytes are written to a new file and handed to the background thread, which takes the command. */
  lemma WriteInFlight(data: seq<byte>) returns (states: seq<State>, steps: seq<Step>)
    ensures Run(|data|, states, steps) && |states| == |steps| + 1 && Flush !in steps && states[|steps|] == Taken(data)
  {
    hide Run, Apply, Enabled, Wrote, Taken;
    EmptyRun(|data|, NOTHING);
    states, steps := [NOTHING], [];
    OpenFile(|data|);
    states, steps := Extend(|data|, states, steps, Open(0, 0, 3, 4, false));
    WriteFile(|data|, data);
    states, steps := Extend(|data|, states, steps, WriteLocal(0, 0, data));
    SendAndTake(data);
    states, steps := Extend(|data|, states, steps, SendWrite(0));
    states, steps := Extend(|data|, states, steps, Pop);
  }

  /** `flush` returns while the WRITE is in flight: the bytes are not at their remote place. */
  lemma FlushBeforeCopy(data: seq<byte>) returns (states: seq<State>, steps: seq<Step>)
    requires data != []
    ensures Run(|data|, states, steps) && |states| == |steps| + 1 && steps != [] && steps[|steps| - 1] == Flush
    ensures var s := states[|steps|]; 0 in WrittenAt(s, 0) && !Same(s, 0, 0) && s.lost == []
  {
    hide Run, Overwrite, Offsets;
    states, steps := WriteInFlight(data);
    states, steps := Extend(|data|, states, steps, Flush);
  }

  /** The only WRITE fails, and `flush` answers true. */
  lemma FlushHidesFailure(data: seq<byte>) returns (states: seq<State>, steps: seq<Step>)
    requires data != []
    ensures Run(|data|, states, steps) && |states| == |steps| + 1 && steps != [] && steps[|steps| - 1] == Flush
    ensures FailureSinceFlush(steps, |steps| - 1) && !states[|steps| - 1].ctx.failStatus
  {
    hide Run, Overwrite, Offsets;
    states, steps := WriteInFlight(data);
    var n := |steps|;
    states, steps := Extend(|data|, states, steps, Finish(false));
    var s := states[n + 1];
    states, steps := Extend(|data|, states, steps, Flush);
    assert steps[n] == Finish(false) && states[n + 1] == s;
  }
}
