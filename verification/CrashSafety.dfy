/** Every run of the backend is, for each checkpoint name and id, a run of the retention protocol; so crash safety and
    exact retention hold of the files on persistent storage, in every interleaving of the module calls of all clients. */
module CrashSafety {
  import opened Bytes
  import opened Naming
  import opened Sets
  import opened Pipeline
  import opened PipelineSafety
  import opened RestartTest
  import opened EndToEnd
  import opened Status
  import opened StoredFiles
  import R = Retention

  // ---- whole runs ----

  /** A run of the backend on undamaged storage that starts with the history of the name and id not loaded. */
  ghost predicate StoredRun(cfg: Config, ys: seq<System>, steps: seq<Step>, c: Command) {
    && Run(cfg, ys, steps) && Limited(cfg, c) && Tidy(ys[0].s.persistent) && Known(ys[0].s.history, c) == {}
    && forall i :: 0 <= i < |steps| ==> Undamaged(ys[i], steps[i])
  }

  /** The state of the protocol for the name and id after `n` steps of the backend. */
  ghost function Abs(cfg: Config, ys: seq<System>, steps: seq<Step>, c: Command, n: nat): (a: R.State)
    requires StoredRun(cfg, ys, steps, c) && n < |ys|
  {
    if n == 0 then
      var found := Shelf(ys[0].s.persistent, c);
      R.State(found, {}, {}, {}, found, {}, {}, {})
    else
      var a, moves := Abs(cfg, ys, steps, c, n - 1), Moves(cfg, ys[n - 1], steps[n - 1], c);
      if R.Allowed(cfg.maxVersions, a, moves) then R.After(cfg.maxVersions, a, moves) else a
  }

  lemma {:induction false} RunTidy(cfg: Config, ys: seq<System>, steps: seq<Step>, c: Command, n: nat)
    requires StoredRun(cfg, ys, steps, c) && n < |ys|
    ensures Tidy(ys[n].s.persistent)
  {
    hide Enabled, Apply, Tidy, Undamaged;
    if n > 0 {
      RunTidy(cfg, ys, steps, c, n - 1);
      RunNames(cfg, ys, steps, n - 1);
      StepKeepsTidy(cfg, ys[n - 1], steps[n - 1]);
    }
  }

  lemma {:induction false} Simulated(cfg: Config, ys: seq<System>, steps: seq<Step>, c: Command, n: nat)
    requires StoredRun(cfg, ys, steps, c) && n < |ys|
    ensures Sim(ys[n].s, Abs(cfg, ys, steps, c, n), c)
    ensures n < |steps| ==> Matches(cfg, ys[n], steps[n], c, Abs(cfg, ys, steps, c, n))
  {
    hide Enabled, Apply, Tidy, Undamaged, Shelf, Moves, Touched, ValidName, R.Allowed, R.After;
    if n > 0 {
      Simulated(cfg, ys, steps, c, n - 1);
    }
    if n < |steps| {
      RunTidy(cfg, ys, steps, c, n);
      RunNames(cfg, ys, steps, n);
      StepMatches(cfg, ys[n], steps[n], c, Abs(cfg, ys, steps, c, n));
    }
  }

  /** In every interleaving of module calls, with failures and restarts of the backend anywhere, what happens to a name and
      id is a run of the retention protocol. */
  lemma {:induction false} BackendRefines(cfg: Config, ys: seq<System>, steps: seq<Step>, c: Command, n: nat)
    returns (states: seq<R.State>, moves: seq<R.Step>)
    requires StoredRun(cfg, ys, steps, c) && n < |ys|
    ensures R.Run(cfg.maxVersions, states, moves) && states[|moves|] == Abs(cfg, ys, steps, c, n)
    ensures Sim(ys[n].s, Abs(cfg, ys, steps, c, n), c)
  {
    hide Enabled, Apply, Tidy, Undamaged, Shelf, Moves, Touched, ValidName, R.Allowed, R.After, R.Run, Sim;
    Simulated(cfg, ys, steps, c, n);
    if n == 0 {
      R.EmptyRun(cfg.maxVersions, Abs(cfg, ys, steps, c, 0));
      states, moves := [Abs(cfg, ys, steps, c, 0)], [];
    } else {
      Simulated(cfg, ys, steps, c, n - 1);
      states, moves := BackendRefines(cfg, ys, steps, c, n - 1);
      states, moves := R.ExtendAll(cfg.maxVersions, states, moves, Moves(cfg, ys[n - 1], steps[n - 1], c));
    }
  }

  lemma {:induction false} AlwaysDurable(cfg: Config, ys: seq<System>, steps: seq<Step>, c: Command, n: nat)
    requires StoredRun(cfg, ys, steps, c) && n < |ys|
    ensures R.Durable(cfg.maxVersions, Abs(cfg, ys, steps, c, n))
  {
    hide StoredRun, Shelf, Sim, R.Run, R.Durable;
    var states, moves := BackendRefines(cfg, ys, steps, c, n);
    assert |states| == |moves| + 1 by { R.RunLength(cfg.maxVersions, states, moves); }
    R.AlwaysDurable(cfg.maxVersions, states, moves, |moves|);
  }

  // ---- complete files ----

  /** The file of version `v` is complete: it was there at the start, or its last flush finished, and it is still there. */
  ghost predicate Complete(cfg: Config, ys: seq<System>, steps: seq<Step>, c: Command, v: nat, n: nat)
    requires n < |ys| == |steps| + 1
    decreases n
  {
    && Has(ys[n].s.persistent, c, v)
    && (n > 0 ==> if Touches(cfg, ys[n - 1], steps[n - 1], c, v) then steps[n - 1].env.io else Complete(cfg, ys, steps, c, v, n - 1))
  }

  lemma TouchedIs(cfg: Config, y: System, st: Step, c: Command, v: nat)
    requires Enabled(cfg, y, st)
    ensures Touches(cfg, y, st, c, v) <==> Touched(cfg, y, st, c) == Some(v)
    ensures Touches(cfg, y, st, c, v) ==> st.Advance?
  {
    hide Throttled, Modules, Has;
  }

  /** A step that does not flush the file leaves its content alone, unless it removes it. */
  lemma UntouchedContent(cfg: Config, y: System, st: Step, c: Command, data: seq<byte>)
    requires Named(y) && Enabled(cfg, y, st) && Undamaged(y, st) && ValidName(c.name) && !Touches(cfg, y, st, c, c.version)
    requires Persisted(y, c, data) && StemOf(c) in Apply(cfg, y, st).s.persistent
    ensures Persisted(Apply(cfg, y, st), c, data)
  {
    hide TransferCall, VersioningCall, ValidName, Stem, Modules, Throttled, Retires;
    if Calls(cfg, y, st, Transfer, Checkpoint, c) {
      UntouchedFiles(cfg, y.s, y.works[st.t].c, st.env);
    } else if MyCall(cfg, y, st, Versioning, Checkpoint, c) {
      TrimPersistent(cfg, y.s, y.works[st.t].c, st.env, c);
      VersioningFiles(cfg, y.s, y.works[st.t].c, st.env);
    } else {
      assert Spares(cfg, y, st, c) by { SparesOthers(cfg, y, st, c); }
      SparedPersists(cfg, y, st, c, data);
    }
  }

  lemma AbsStep(cfg: Config, ys: seq<System>, steps: seq<Step>, c: Command, n: nat)
    requires StoredRun(cfg, ys, steps, c) && n < |steps|
    ensures Enabled(cfg, ys[n], steps[n]) && ValidName(c.name)
    ensures var a, a' := Abs(cfg, ys, steps, c, n), Abs(cfg, ys, steps, c, n + 1);
      && R.Allowed(cfg.maxVersions, a, Moves(cfg, ys[n], steps[n], c))
      && a' == R.After(cfg.maxVersions, a, Moves(cfg, ys[n], steps[n], c))
      && a'.ever == a.ever + a'.stored
      && a'.stored == Completed(a.stored, Shelf(ys[n + 1].s.persistent, c), Touched(cfg, ys[n], steps[n], c),
                                steps[n].Advance? && steps[n].env.io)
  {
    hide Enabled, Apply, Tidy, Undamaged, Moves, Touched, ValidName, R.Allowed, R.After, Shelf, Sim;
    Simulated(cfg, ys, steps, c, n);
    assert ys[n + 1] == Apply(cfg, ys[n], steps[n]);
  }

  lemma StartIsComplete(cfg: Config, ys: seq<System>, steps: seq<Step>, c: Command, v: nat)
    requires StoredRun(cfg, ys, steps, c) && |ys| == |steps| + 1
    ensures v in Abs(cfg, ys, steps, c, 0).stored <==> Complete(cfg, ys, steps, c, v, 0)
    ensures Abs(cfg, ys, steps, c, 0).stored == Abs(cfg, ys, steps, c, 0).ever
  {
    hide ValidName, Has, Tidy;
  }

  lemma SimHas(cfg: Config, ys: seq<System>, steps: seq<Step>, c: Command, v: nat, n: nat)
    requires StoredRun(cfg, ys, steps, c) && n < |ys|
    ensures ValidName(c.name)
    ensures v in Shelf(ys[n].s.persistent, c) <==> Has(ys[n].s.persistent, c, v)
    ensures v in Abs(cfg, ys, steps, c, n).stored ==> Has(ys[n].s.persistent, c, v)
  {
    hide Abs, ValidName, Has, Tidy;
    Simulated(cfg, ys, steps, c, n);
  }

  lemma {:induction false} StoredIsComplete(cfg: Config, ys: seq<System>, steps: seq<Step>, c: Command, v: nat, n: nat)
    requires StoredRun(cfg, ys, steps, c) && n < |ys| == |steps| + 1
    ensures v in Abs(cfg, ys, steps, c, n).stored <==> Complete(cfg, ys, steps, c, v, n)
  {
    hide StoredRun, Abs, Touched, Touches, ValidName, Enabled, Moves, Has, Shelf, R.Allowed, R.After;
    if n == 0 {
      StartIsComplete(cfg, ys, steps, c, v);
    } else {
      SimHas(cfg, ys, steps, c, v, n);
      AbsStep(cfg, ys, steps, c, n - 1);
      StoredIsComplete(cfg, ys, steps, c, v, n - 1);
      TouchedIs(cfg, ys[n - 1], steps[n - 1], c, v);
    }
  }

  /** Version `v` was complete at some point up to `n`. */
  ghost predicate EverComplete(cfg: Config, ys: seq<System>, steps: seq<Step>, c: Command, v: nat, n: nat)
    requires n < |ys| == |steps| + 1
  {
    exists i :: 0 <= i <= n && Complete(cfg, ys, steps, c, v, i)
  }

  lemma {:induction false} EverIsComplete(cfg: Config, ys: seq<System>, steps: seq<Step>, c: Command, v: nat, n: nat)
    requires StoredRun(cfg, ys, steps, c) && n < |ys| == |steps| + 1
    ensures v in Abs(cfg, ys, steps, c, n).ever <==> EverComplete(cfg, ys, steps, c, v, n)
  {
    hide StoredRun, Abs, Touched, ValidName, Enabled, Moves, Complete, Shelf, R.Allowed, R.After;
    StoredIsComplete(cfg, ys, steps, c, v, n);
    if n == 0 {
      StartIsComplete(cfg, ys, steps, c, v);
    } else {
      AbsStep(cfg, ys, steps, c, n - 1);
      EverIsComplete(cfg, ys, steps, c, v, n - 1);
      assert EverComplete(cfg, ys, steps, c, v, n) <==> EverComplete(cfg, ys, steps, c, v, n - 1) || Complete(cfg, ys, steps, c, v, n);
    }
  }

  lemma {:induction false} EverIsNat(cfg: Config, ys: seq<System>, steps: seq<Step>, c: Command, n: nat)
    requires StoredRun(cfg, ys, steps, c) && n < |ys|
    ensures forall v :: v in Abs(cfg, ys, steps, c, n).ever ==> v >= 0
  {
    Simulated(cfg, ys, steps, c, n);
    hide Enabled, Apply, Tidy, Undamaged, Moves, Touched, ValidName, R.Allowed, R.After;
    if n > 0 {
      EverIsNat(cfg, ys, steps, c, n - 1);
      AbsStep(cfg, ys, steps, c, n - 1);
    }
  }

  lemma StoredInEver(cfg: Config, ys: seq<System>, steps: seq<Step>, c: Command, n: nat)
    requires StoredRun(cfg, ys, steps, c) && n < |ys|
    ensures Abs(cfg, ys, steps, c, n).stored <= Abs(cfg, ys, steps, c, n).ever
  {
    hide Abs, Tidy, Shelf;
    Simulated(cfg, ys, steps, c, n);
  }

  lemma CompleteExact(cfg: Config, ys: seq<System>, steps: seq<Step>, c: Command, n: nat)
    requires StoredRun(cfg, ys, steps, c) && n < |ys| == |steps| + 1
    ensures forall v: int :: v in Abs(cfg, ys, steps, c, n).stored <==> v >= 0 && Complete(cfg, ys, steps, c, v, n)
    ensures forall v: int :: v in Abs(cfg, ys, steps, c, n).ever <==> v >= 0 && EverComplete(cfg, ys, steps, c, v, n)
  {
    hide StoredRun, Abs, Complete, EverComplete;
    EverIsNat(cfg, ys, steps, c, n);
    StoredInEver(cfg, ys, steps, c, n);
    forall v: nat ensures v in Abs(cfg, ys, steps, c, n).stored <==> Complete(cfg, ys, steps, c, v, n) {
      StoredIsComplete(cfg, ys, steps, c, v, n);
    }
    forall v: nat ensures v in Abs(cfg, ys, steps, c, n).ever <==> EverComplete(cfg, ys, steps, c, v, n) {
      EverIsComplete(cfg, ys, steps, c, v, n);
    }
  }

  /** The versions that are complete after `n` steps. */
  ghost function CompleteFiles(cfg: Config, ys: seq<System>, steps: seq<Step>, c: Command, n: nat): (r: set<int>)
    requires StoredRun(cfg, ys, steps, c) && n < |ys| == |steps| + 1
    ensures forall v: int :: v in r <==> v >= 0 && Complete(cfg, ys, steps, c, v, n)
  {
    CompleteExact(cfg, ys, steps, c, n);
    Abs(cfg, ys, steps, c, n).stored
  }

  /** The versions that were complete at some point up to then. */
  ghost function EverFiles(cfg: Config, ys: seq<System>, steps: seq<Step>, c: Command, n: nat): (r: set<int>)
    requires StoredRun(cfg, ys, steps, c) && n < |ys| == |steps| + 1
    ensures forall v: int :: v in r <==> v >= 0 && EverComplete(cfg, ys, steps, c, v, n)
  {
    CompleteExact(cfg, ys, steps, c, n);
    Abs(cfg, ys, steps, c, n).ever
  }

  lemma RunStep(cfg: Config, ys: seq<System>, steps: seq<Step>, c: Command, n: nat)
    requires StoredRun(cfg, ys, steps, c) && n < |steps|
    ensures Enabled(cfg, ys[n], steps[n]) && ys[n + 1] == Apply(cfg, ys[n], steps[n]) && Undamaged(ys[n], steps[n])
    ensures Named(ys[n]) && ValidName(c.name)
  {
    hide Apply, Enabled, Tidy, Undamaged;
    RunNames(cfg, ys, steps, n);
  }

  lemma SameTimer(cfg: Config, s: State, c: Command, w: Command, env: Env)
    requires c.id == w.id
    ensures Throttled(cfg, s, c, env) == Throttled(cfg, s, w, env)
  {
  }

  lemma TouchFlushes(cfg: Config, y: System, st: Step, c: Command)
    requires Touches(cfg, y, st, c, c.version) && st.env.io
    ensures Flushes(cfg, y, st, c)
  {
    hide Modules, Throttled, Stem;
    SameTimer(cfg, y.s, c, y.works[st.t].c, st.env);
  }

  /** A complete file holds what its last flush left, or what it held at the start. */
  lemma {:induction false} CompleteContent(cfg: Config, ys: seq<System>, steps: seq<Step>, c: Command, n: nat)
    returns (i: nat, data: seq<byte>)
    requires StoredRun(cfg, ys, steps, c) && n < |ys| == |steps| + 1 && Complete(cfg, ys, steps, c, c.version, n)
    ensures i <= n && Persisted(ys[n], c, data)
    ensures i == 0 ==> Persisted(ys[0], c, data)
    ensures i > 0 ==> Flushes(cfg, ys[i - 1], steps[i - 1], c) && data == Flushed(ys[i - 1], c)
  {
    hide StoredRun, Apply, Enabled, Undamaged, Named, ValidName, Touches, Flushed, Stem;
    if n == 0 {
      i, data := 0, ys[0].s.persistent[StemOf(c)];
    } else {
      var y, st := ys[n - 1], steps[n - 1];
      RunStep(cfg, ys, steps, c, n - 1);
      if Touches(cfg, y, st, c, c.version) {
        TouchFlushes(cfg, y, st, c);
        FlushPersists(cfg, y, st, c);
        i, data := n, Flushed(y, c);
      } else {
        i, data := CompleteContent(cfg, ys, steps, c, n - 1);
        UntouchedContent(cfg, y, st, c, data);
      }
    }
  }

  // ---- when exactly the newest files are kept ----

  /** A CHECKPOINT retires version `v` from storage. */
  predicate Drops(cfg: Config, y: System, st: Step, c: Command, v: nat) {
    MyCall(cfg, y, st, Versioning, Checkpoint, c) && Retires(cfg, y.s, y.works[st.t].c, st.env, c.(version := v))
  }

  /** A file goes exactly when a CHECKPOINT retires its version. */
  lemma FileStays(cfg: Config, y: System, st: Step, c: Command, v: nat)
    requires Named(y) && Enabled(cfg, y, st) && Undamaged(y, st) && ValidName(c.name) && Has(y.s.persistent, c, v)
    ensures Has(Apply(cfg, y, st).s.persistent, c, v) <==> !Drops(cfg, y, st, c, v)
  {
    hide TransferCall, VersioningCall, ValidName, Stem, Modules, Throttled, Retires;
    var d := c.(version := v);
    if MyCall(cfg, y, st, Versioning, Checkpoint, c) {
      TrimPersistent(cfg, y.s, y.works[st.t].c, st.env, d);
      VersioningFiles(cfg, y.s, y.works[st.t].c, st.env);
    } else if Touches(cfg, y, st, c, v) {
      TouchedFile(cfg, y.s, y.works[st.t].c, st.env);
    } else if Calls(cfg, y, st, Transfer, Checkpoint, d) {
      UntouchedFiles(cfg, y.s, y.works[st.t].c, st.env);
    } else {
      assert Spares(cfg, y, st, d) by { SparesOthers(cfg, y, st, d); }
      SparedPersists(cfg, y, st, d, y.s.persistent[StemOf(d)]);
    }
  }

  /** The step takes version `v`: a flush over its file fails half-way, or a CHECKPOINT retires it. */
  predicate Takes(cfg: Config, y: System, st: Step, c: Command, v: nat) {
    (Touches(cfg, y, st, c, v) && !st.env.io) || Drops(cfg, y, st, c, v)
  }

  ghost predicate TakesNewest(cfg: Config, ys: seq<System>, steps: seq<Step>, c: Command, i: nat)
    requires StoredRun(cfg, ys, steps, c) && i < |steps| && |ys| == |steps| + 1
  {
    exists v: nat :: v in Newest(EverFiles(cfg, ys, steps, c, i), cfg.maxVersions) && Takes(cfg, ys[i], steps[i], c, v)
  }

  ghost predicate NewestComplete(cfg: Config, ys: seq<System>, steps: seq<Step>, c: Command, n: nat)
    requires StoredRun(cfg, ys, steps, c) && n < |ys| == |steps| + 1
  {
    Newest(EverFiles(cfg, ys, steps, c, n), cfg.maxVersions) <= CompleteFiles(cfg, ys, steps, c, n)
  }

  lemma FlushDropsNothing(cfg: Config, y: System, st: Step, c: Command, v: nat)
    requires Touches(cfg, y, st, c, v)
    ensures forall u: nat :: !Drops(cfg, y, st, c, u)
  {
    hide Modules, Has, Throttled, Retires;
  }

  lemma StaysComplete(cfg: Config, ys: seq<System>, steps: seq<Step>, c: Command, v: nat, n: nat)
    requires StoredRun(cfg, ys, steps, c) && n < |steps| && |ys| == |steps| + 1 && Complete(cfg, ys, steps, c, v, n)
    ensures Complete(cfg, ys, steps, c, v, n + 1) <==> !Takes(cfg, ys[n], steps[n], c, v)
  {
    hide StoredRun, Apply, Enabled, Undamaged, Named, ValidName, Drops, Touches, Has;
    RunStep(cfg, ys, steps, c, n);
    TouchedIs(cfg, ys[n], steps[n], c, v);
    FileStays(cfg, ys[n], steps[n], c, v);
    if Touches(cfg, ys[n], steps[n], c, v) {
      FlushDropsNothing(cfg, ys[n], steps[n], c, v);
    }
  }

  lemma FinishedTakes(cfg: Config, y: System, st: Step, c: Command, v: nat)
    requires Enabled(cfg, y, st) && Touched(cfg, y, st, c).Some? && st.env.io
    ensures !Takes(cfg, y, st, c, v)
  {
    FlushDropsNothing(cfg, y, st, c, Touched(cfg, y, st, c).value);
    hide Drops;
  }

  /** A step completes a version or takes some, not both. */
  lemma AddsOrTakes(cfg: Config, ys: seq<System>, steps: seq<Step>, c: Command, n: nat)
    requires StoredRun(cfg, ys, steps, c) && n < |steps| && |ys| == |steps| + 1
    ensures var a, b := CompleteFiles(cfg, ys, steps, c, n), CompleteFiles(cfg, ys, steps, c, n + 1); a <= b || b <= a
  {
    hide StoredRun, Abs, Complete, Takes, Touched, Moves, Shelf, Enabled, ValidName, R.Allowed, R.After;
    var a, b := CompleteFiles(cfg, ys, steps, c, n), CompleteFiles(cfg, ys, steps, c, n + 1);
    AbsStep(cfg, ys, steps, c, n);
    if !(b <= a) {
      forall v: int | v in a ensures v in b {
        StaysComplete(cfg, ys, steps, c, v, n);
        FinishedTakes(cfg, ys[n], steps[n], c, v);
      }
      assert a <= b;
    }
  }

  lemma EverGrows(cfg: Config, ys: seq<System>, steps: seq<Step>, c: Command, n: nat)
    requires StoredRun(cfg, ys, steps, c) && n < |steps| && |ys| == |steps| + 1
    ensures CompleteFiles(cfg, ys, steps, c, n) <= EverFiles(cfg, ys, steps, c, n)
    ensures EverFiles(cfg, ys, steps, c, n + 1) == EverFiles(cfg, ys, steps, c, n) + CompleteFiles(cfg, ys, steps, c, n + 1)
  {
    hide StoredRun, Abs, Complete, EverComplete, Touched, Moves, Shelf, Enabled, ValidName, R.Allowed, R.After;
    AbsStep(cfg, ys, steps, c, n);
    StoredInEver(cfg, ys, steps, c, n);
  }

  lemma NewestAtStart(cfg: Config, ys: seq<System>, steps: seq<Step>, c: Command)
    requires StoredRun(cfg, ys, steps, c) && |ys| == |steps| + 1
    ensures NewestComplete(cfg, ys, steps, c, 0)
  {
    hide StoredRun, Abs, Complete, EverComplete;
    StartIsComplete(cfg, ys, steps, c, 0);
    NewestKeeps(EverFiles(cfg, ys, steps, c, 0), cfg.maxVersions);
  }

  lemma TakesIff(cfg: Config, ys: seq<System>, steps: seq<Step>, c: Command, n: nat)
    requires StoredRun(cfg, ys, steps, c) && n < |steps| && |ys| == |steps| + 1 && NewestComplete(cfg, ys, steps, c, n)
    ensures NewestComplete(cfg, ys, steps, c, n + 1) <==> !TakesNewest(cfg, ys, steps, c, n)
  {
    hide StoredRun, EverComplete, Complete, CompleteFiles, EverFiles, Takes, Newest;
    var k := cfg.maxVersions;
    var a, e, b := CompleteFiles(cfg, ys, steps, c, n), EverFiles(cfg, ys, steps, c, n), CompleteFiles(cfg, ys, steps, c, n + 1);
    EverGrows(cfg, ys, steps, c, n);
    AddsOrTakes(cfg, ys, steps, c, n);
    KeptStep(a, e, b, k);
    assert NewestComplete(cfg, ys, steps, c, n + 1) <==> Newest(e, k) <= b;
    if v: nat :| v in Newest(e, k) && Takes(cfg, ys[n], steps[n], c, v) {
      StaysComplete(cfg, ys, steps, c, v, n);
    } else {
      forall v: int | v in Newest(e, k) ensures v in b {
        StaysComplete(cfg, ys, steps, c, v, n);
      }
    }
  }

  /** In every run, with every failure, restart, flush put off and incomplete file there may be: the newest versions ever
      complete are complete on storage all along exactly when no step has taken one of them. */
  lemma {:induction false} NewestKeptIff(cfg: Config, ys: seq<System>, steps: seq<Step>, c: Command, n: nat)
    requires StoredRun(cfg, ys, steps, c) && n < |ys| == |steps| + 1
    ensures (forall i :: 0 <= i <= n ==> NewestComplete(cfg, ys, steps, c, i))
       <==> (forall i :: 0 <= i < n ==> !TakesNewest(cfg, ys, steps, c, i))
  {
    hide StoredRun, NewestComplete, TakesNewest;
    if n == 0 {
      NewestAtStart(cfg, ys, steps, c);
    } else {
      NewestKeptIff(cfg, ys, steps, c, n - 1);
      if NewestComplete(cfg, ys, steps, c, n - 1) {
        TakesIff(cfg, ys, steps, c, n - 1);
        assert n - 1 + 1 == n;
      }
    }
  }

  // ---- crash safety of the files ----

  /** What a TEST finds, and what a RESTART records, was complete at some time. */
  ghost predicate FindsComplete(cfg: Config, ys: seq<System>, steps: seq<Step>, c: Command, i: nat)
    requires i < |steps| && |ys| == |steps| + 1
  {
    && (MyCall(cfg, ys[i], steps[i], Versioning, Test, c) ==>
         forall v: nat :: Has(ys[i].s.persistent, c, v) ==> EverComplete(cfg, ys, steps, c, v, i))
    && (MyCall(cfg, ys[i], steps[i], Versioning, Restart, c) && Has(ys[i].s.persistent, c, ys[i].works[steps[i].t].c.version) ==>
         EverComplete(cfg, ys, steps, c, ys[i].works[steps[i].t].c.version, i))
  }

  /** No flush writes over a complete file. */
  ghost predicate WritesFresh(cfg: Config, ys: seq<System>, steps: seq<Step>, c: Command, i: nat)
    requires i < |steps| && |ys| == |steps| + 1
  {
    forall v: nat :: Touches(cfg, ys[i], steps[i], c, v) ==> !Complete(cfg, ys, steps, c, v, i)
  }

  lemma {:induction false} RemovalsAdd(k: nat, a: R.State, c: Command, stuck: set<string>)
    ensures var moves := Removals(k, a.history, c, stuck);
      R.Allowed(k, a, moves) && R.After(k, a, moves).seen == a.seen && R.After(k, a, moves).torn <= a.torn
      && R.After(k, a, moves).recent == a.recent && R.After(k, a, moves).whole == a.whole
    decreases |a.history|
  {
    hide Stuck;
    if |a.history| > k {
      var step := R.Remove(!Stuck(c, stuck, Least(a.history)));
      var b := R.Apply(k, a, step);
      RemovalsAdd(k, b, c, stuck);
      R.Cons(k, a, step, Removals(k, b.history, c, stuck));
    }
  }

  /** What versioning adds to the versions seen. */
  function Sighted(s: State, a: R.State, w: Command): (r: set<int>) {
    match w.kind
    case Test => a.stored + a.partial
    case Restart => if StemOf(w) in s.persistent then {w.version} else {}
    case Checkpoint => {w.version}
    case Init => {}
  }

  /** What the protocol has seen, since the start and since the last lookup, after versioning has dealt with a command. */
  ghost predicate Seen(a: R.State, a': R.State, kind: Kind, sighted: set<int>) {
    && a'.seen == a.seen + sighted && a'.torn <= a.torn
    && a'.recent == (if kind.Test? then {} else a.recent) + sighted
    && a'.whole == if kind.Test? then a.stored else a.whole
  }

  lemma CheckpointSeen(k: nat, a: R.State, w: Command, env: Env)
    ensures var moves := [R.Record(w.version)] + Removals(k, a.history + {w.version}, w, env.stuckPersistent);
      R.Allowed(k, a, moves) && Seen(a, R.After(k, a, moves), Checkpoint, {w.version})
  {
    hide Removals, R.Allowed, R.After;
    var b := R.Apply(k, a, R.Record(w.version));
    RemovalsAdd(k, b, w, env.stuckPersistent);
    R.Cons(k, a, R.Record(w.version), Removals(k, b.history, w, env.stuckPersistent));
  }

  lemma LoadSeen(k: nat, a: R.State)
    ensures R.Allowed(k, a, [R.Load]) && Seen(a, R.After(k, a, [R.Load]), Test, a.stored + a.partial)
  {
    hide R.Allowed, R.After;
    R.One(k, a, R.Load);
  }

  lemma RestartSeen(k: nat, a: R.State, v: int)
    requires R.Allowed(k, a, [R.Restart(v)])
    ensures Seen(a, R.After(k, a, [R.Restart(v)]), Restart, {v})
  {
    hide R.Allowed, R.After;
    R.First(k, a, [R.Restart(v)]);
    R.One(k, a, R.Restart(v));
  }

  lemma NothingSeen(k: nat, a: R.State, kind: Kind)
    requires !kind.Test?
    ensures R.Allowed(k, a, []) && Seen(a, R.After(k, a, []), kind, {})
  {
  }

  lemma VersioningSeen(cfg: Config, s: State, a: R.State, w: Command, env: Env)
    requires a.history == Known(s.history, w) && R.Allowed(cfg.maxVersions, a, VersioningMoves(cfg, s, w, env))
    ensures Seen(a, R.After(cfg.maxVersions, a, VersioningMoves(cfg, s, w, env)), w.kind, Sighted(s, a, w))
  {
    hide Seen, Stem, Removals, R.Allowed, R.After;
    var k := cfg.maxVersions;
    match w.kind
    case Test => LoadSeen(k, a);
    case Restart =>
      if StemOf(w) in s.persistent { RestartSeen(k, a, w.version); } else { NothingSeen(k, a, Restart); }
    case Checkpoint => CheckpointSeen(k, a, w, env);
    case Init => NothingSeen(k, a, Init);
  }

  /** The step counts the versions of the name and id. */
  predicate Counts(cfg: Config, y: System, st: Step, c: Command) {
    Enabled(cfg, y, st) && st.Advance? && Modules(cfg)[y.works[st.t].k] == Versioning && Mine(y.works[st.t].c, c)
  }

  lemma CountsTouchNothing(cfg: Config, y: System, st: Step, c: Command)
    requires Counts(cfg, y, st, c)
    ensures Touched(cfg, y, st, c) == None
  {
    hide Modules, Throttled, Has;
  }

  lemma TouchedIsMine(cfg: Config, y: System, st: Step, c: Command)
    requires Enabled(cfg, y, st) && Touched(cfg, y, st, c).Some?
    ensures st.Advance? && Mine(y.works[st.t].c, c)
  {
    hide Modules, Throttled, Has;
  }

  /** The version that a step makes complete. */
  function Finished(touched: Option<nat>, io: bool): (r: set<int>) {
    if touched.Some? && io then {touched.value} else {}
  }

  /** What the protocol has seen after a step of the backend. */
  ghost predicate Follows(a: R.State, a': R.State, crash: bool, looks: bool, sighted: set<int>, touched: Option<nat>, io: bool) {
    && a'.seen == a.seen + sighted
    && (touched == None || touched.value !in a.stored ==> a'.torn <= a.torn)
    && a'.recent == (if crash || looks then {} else a.recent) + sighted
    && a'.whole == if crash then {} else if looks then a.stored else a.whole + Finished(touched, io)
  }

  lemma FlushFollows(k: nat, a: R.State, v: nat, io: bool)
    ensures R.Allowed(k, a, FlushMoves(v, io)) && Follows(a, R.After(k, a, FlushMoves(v, io)), false, false, {}, Some(v), io)
  {
    hide R.Allowed, R.After;
    R.One(k, a, R.Begin(v));
    if io {
      var b := R.Apply(k, a, R.Begin(v));
      R.One(k, b, R.End(v));
      R.Cons(k, a, R.Begin(v), [R.End(v)]);
      assert [R.Begin(v)] + [R.End(v)] == FlushMoves(v, true);
    }
  }

  lemma CrashFollows(k: nat, a: R.State, io: bool)
    ensures R.Allowed(k, a, [R.Crash]) && Follows(a, R.After(k, a, [R.Crash]), true, false, {}, None, io)
  {
    hide R.Allowed, R.After;
    R.One(k, a, R.Crash);
  }

  lemma NothingFollows(k: nat, a: R.State, io: bool)
    ensures R.Allowed(k, a, []) && Follows(a, R.After(k, a, []), false, false, {}, None, io)
  {
  }

  lemma CountsFollows(cfg: Config, y: System, st: Step, c: Command, a: R.State)
    requires Counts(cfg, y, st, c) && a.history == Known(y.s.history, c) && R.Allowed(cfg.maxVersions, a, Moves(cfg, y, st, c))
    ensures Follows(a, R.After(cfg.maxVersions, a, Moves(cfg, y, st, c)), false, MyCall(cfg, y, st, Versioning, Test, c),
                    Sighted(y.s, a, y.works[st.t].c), None, st.env.io)
  {
    hide Modules, Touches, Sighted, R.Allowed, R.After, VersioningMoves;
    VersioningSeen(cfg, y.s, a, y.works[st.t].c, st.env);
  }

  lemma MovesFollow(cfg: Config, y: System, st: Step, c: Command, a: R.State)
    requires Enabled(cfg, y, st) && a.history == Known(y.s.history, c) && R.Allowed(cfg.maxVersions, a, Moves(cfg, y, st, c))
    ensures Follows(a, R.After(cfg.maxVersions, a, Moves(cfg, y, st, c)), st.Reboot?, MyCall(cfg, y, st, Versioning, Test, c),
                    if Counts(cfg, y, st, c) then Sighted(y.s, a, y.works[st.t].c) else {},
                    Touched(cfg, y, st, c), st.Advance? && st.env.io)
  {
    hide Follows, Modules, Touches, Sighted, R.Allowed, R.After, VersioningMoves, FlushMoves;
    var k, io := cfg.maxVersions, st.Advance? && st.env.io;
    if Counts(cfg, y, st, c) {
      CountsTouchNothing(cfg, y, st, c);
      CountsFollows(cfg, y, st, c, a);
    } else if st.Reboot? {
      CrashFollows(k, a, io);
    } else if Touched(cfg, y, st, c).Some? {
      TouchedIsMine(cfg, y, st, c);
      FlushFollows(k, a, y.works[st.t].c.version, io);
    } else {
      NothingFollows(k, a, io);
    }
  }

  lemma FlushedCall(cfg: Config, s: State, w: Command, env: Env)
    requires cfg.storage && cfg.interval == 0 && w.kind.Checkpoint? && TransferCall(cfg, s, w, env).1 != VELOC_FAILURE
    ensures !Throttled(cfg, s, w, env) && StemOf(w) in s.scratch && env.io
  {
    hide Stem, Copied;
  }

  /** With interval 0 a CHECKPOINT that is recorded was flushed. */
  lemma RecordedIsComplete(cfg: Config, ys: seq<System>, steps: seq<Step>, c: Command, n: nat)
    requires StoredRun(cfg, ys, steps, c) && cfg.interval == 0 && n < |steps| && |ys| == |steps| + 1
    requires MyCall(cfg, ys[n], steps[n], Versioning, Checkpoint, c)
    ensures EverComplete(cfg, ys, steps, c, ys[n].works[steps[n].t].c.version, n)
  {
    var t := steps[n].t;
    var w := ys[n].works[t].c;
    var j := PassedCalled(cfg, ys, steps, n, t, |Modules(cfg)| - 3);
    assert Modules(cfg)[|Modules(cfg)| - 3] == Transfer;
    FlushedCall(cfg, ys[j].s, w, steps[j].env);
    assert Touches(cfg, ys[j], steps[j], c, w.version);
    assert Flushes(cfg, ys[j], steps[j], w);
    assert ys[j + 1] == Apply(cfg, ys[j], steps[j]);
    hide Apply, TransferCall, Stem, Touches, Flushes;
    FlushPersists(cfg, ys[j], steps[j], w);
    assert Complete(cfg, ys, steps, c, w.version, j + 1);
  }

  lemma SimHistory(cfg: Config, ys: seq<System>, steps: seq<Step>, c: Command, n: nat)
    requires StoredRun(cfg, ys, steps, c) && n < |ys|
    ensures Abs(cfg, ys, steps, c, n).history == Known(ys[n].s.history, c)
  {
    hide Abs, Tidy, Shelf;
    Simulated(cfg, ys, steps, c, n);
  }

  /** A CHECKPOINT or a RESTART enters version `v` into the history. */
  predicate Notes(cfg: Config, y: System, st: Step, c: Command, v: nat) {
    || (MyCall(cfg, y, st, Versioning, Checkpoint, c) && y.works[st.t].c.version == v)
    || (MyCall(cfg, y, st, Versioning, Restart, c) && y.works[st.t].c.version == v && Has(y.s.persistent, c, v))
  }

  lemma SightedIs(cfg: Config, ys: seq<System>, steps: seq<Step>, c: Command, n: nat, v: int)
    requires StoredRun(cfg, ys, steps, c) && n < |steps| && |ys| == |steps| + 1 && Counts(cfg, ys[n], steps[n], c)
    ensures steps[n].Advance? && steps[n].t in ys[n].works
    ensures v in Sighted(ys[n].s, Abs(cfg, ys, steps, c, n), ys[n].works[steps[n].t].c) <==>
      v >= 0 && if MyCall(cfg, ys[n], steps[n], Versioning, Test, c) then Has(ys[n].s.persistent, c, v)
                else Notes(cfg, ys[n], steps[n], c, v)
  {
    hide Abs, Tidy, ValidName, Stem, Modules;
    Simulated(cfg, ys, steps, c, n);
  }

  lemma NotedIsComplete(cfg: Config, ys: seq<System>, steps: seq<Step>, c: Command, n: nat, v: nat)
    requires StoredRun(cfg, ys, steps, c) && cfg.interval == 0 && n < |steps| && |ys| == |steps| + 1
    requires FindsComplete(cfg, ys, steps, c, n)
    requires if MyCall(cfg, ys[n], steps[n], Versioning, Test, c) then Has(ys[n].s.persistent, c, v) else Notes(cfg, ys[n], steps[n], c, v)
    ensures EverComplete(cfg, ys, steps, c, v, n)
  {
    hide StoredRun, EverComplete, Stem, Modules;
    if MyCall(cfg, ys[n], steps[n], Versioning, Checkpoint, c) {
      RecordedIsComplete(cfg, ys, steps, c, n);
    }
  }

  lemma SightedIsComplete(cfg: Config, ys: seq<System>, steps: seq<Step>, c: Command, n: nat)
    requires StoredRun(cfg, ys, steps, c) && cfg.interval == 0 && n < |steps| && |ys| == |steps| + 1
    requires FindsComplete(cfg, ys, steps, c, n) && Counts(cfg, ys[n], steps[n], c)
    ensures steps[n].Advance? && steps[n].t in ys[n].works
    ensures Sighted(ys[n].s, Abs(cfg, ys, steps, c, n), ys[n].works[steps[n].t].c) <= Abs(cfg, ys, steps, c, n).ever
  {
    hide StoredRun, Abs, MyCall, Counts, Notes, FindsComplete, ValidName, EverComplete, Has;
    SightedIs(cfg, ys, steps, c, n, 0);
    forall v: int | v in Sighted(ys[n].s, Abs(cfg, ys, steps, c, n), ys[n].works[steps[n].t].c) ensures v in Abs(cfg, ys, steps, c, n).ever {
      SightedIs(cfg, ys, steps, c, n, v);
      NotedIsComplete(cfg, ys, steps, c, n, v);
      EverIsComplete(cfg, ys, steps, c, v, n);
    }
  }

  lemma SeenStep(cfg: Config, ys: seq<System>, steps: seq<Step>, c: Command, n: nat)
    requires StoredRun(cfg, ys, steps, c) && cfg.interval == 0 && n < |steps| && |ys| == |steps| + 1
    requires FindsComplete(cfg, ys, steps, c, n) && Abs(cfg, ys, steps, c, n).seen <= Abs(cfg, ys, steps, c, n).ever
    ensures Abs(cfg, ys, steps, c, n + 1).seen <= Abs(cfg, ys, steps, c, n + 1).ever
  {
    hide StoredRun, Abs, FindsComplete, Moves, Touched, Sighted, Counts, ValidName, Shelf, R.Allowed, R.After, Enabled, Sim;
    var a := Abs(cfg, ys, steps, c, n);
    AbsStep(cfg, ys, steps, c, n);
    SimHistory(cfg, ys, steps, c, n);
    MovesFollow(cfg, ys[n], steps[n], c, a);
    if Counts(cfg, ys[n], steps[n], c) {
      SightedIsComplete(cfg, ys, steps, c, n);
    }
  }

  lemma {:induction false} SeenIsComplete(cfg: Config, ys: seq<System>, steps: seq<Step>, c: Command, n: nat)
    requires StoredRun(cfg, ys, steps, c) && cfg.interval == 0 && n < |ys| == |steps| + 1
    requires forall i :: 0 <= i < n ==> FindsComplete(cfg, ys, steps, c, i)
    ensures Abs(cfg, ys, steps, c, n).seen <= Abs(cfg, ys, steps, c, n).ever
  {
    if n > 0 {
      SeenIsComplete(cfg, ys, steps, c, n - 1);
      SeenStep(cfg, ys, steps, c, n - 1);
    }
  }

  lemma {:induction false} NothingTorn(cfg: Config, ys: seq<System>, steps: seq<Step>, c: Command, n: nat)
    requires StoredRun(cfg, ys, steps, c) && n < |ys| == |steps| + 1
    requires forall i :: 0 <= i < n ==> WritesFresh(cfg, ys, steps, c, i)
    ensures Abs(cfg, ys, steps, c, n).torn == {}
  {
    if n > 0 {
      hide StoredRun, Abs, Moves, Touched, Touches, Complete, ValidName, Shelf, R.Allowed, R.After, Enabled;
      NothingTorn(cfg, ys, steps, c, n - 1);
      var y, st := ys[n - 1], steps[n - 1];
      AbsStep(cfg, ys, steps, c, n - 1);
      SimHistory(cfg, ys, steps, c, n - 1);
      MovesFollow(cfg, y, st, c, Abs(cfg, ys, steps, c, n - 1));
      if Touched(cfg, y, st, c).Some? {
        var v := Touched(cfg, y, st, c).value;
        TouchedIs(cfg, y, st, c, v);
        assert WritesFresh(cfg, ys, steps, c, n - 1);
        StoredIsComplete(cfg, ys, steps, c, v, n - 1);
      }
    }
  }

  /** At every point of every run, between any two module calls of any commands, after failures and restarts of the backend:
      the newest versions ever complete on storage are complete on storage. The conditions are that every checkpoint is
      flushed, that no incomplete file is found by a lookup, and that no complete file is written over. */
  lemma NewestSurvive(cfg: Config, ys: seq<System>, steps: seq<Step>, c: Command, n: nat)
    requires StoredRun(cfg, ys, steps, c) && cfg.interval == 0 && n < |ys| == |steps| + 1
    requires forall i :: 0 <= i < n ==> FindsComplete(cfg, ys, steps, c, i) && WritesFresh(cfg, ys, steps, c, i)
    ensures NewestComplete(cfg, ys, steps, c, n)
  {
    hide StoredRun, Abs, FindsComplete, WritesFresh, EverComplete, Complete, Newest, R.Durable;
    SeenIsComplete(cfg, ys, steps, c, n);
    NothingTorn(cfg, ys, steps, c, n);
    AlwaysDurable(cfg, ys, steps, c, n);
    R.DurableEnough(cfg.maxVersions, Abs(cfg, ys, steps, c, n));
  }

  // ---- since the last lookup ----

  /** Since the last TEST, in the same backend process, version `v` was found by it or entered into the history. */
  ghost predicate Noted(cfg: Config, ys: seq<System>, steps: seq<Step>, c: Command, v: nat, n: nat)
    requires n < |ys| == |steps| + 1
    decreases n
  {
    && n > 0 && !steps[n - 1].Reboot?
    && var y, st := ys[n - 1], steps[n - 1];
    if MyCall(cfg, y, st, Versioning, Test, c) then Has(y.s.persistent, c, v)
    else Notes(cfg, y, st, c, v) || Noted(cfg, ys, steps, c, v, n - 1)
  }

  /** Since the last TEST, in the same backend process, version `v` was found complete by it or flushed. */
  ghost predicate CompleteSince(cfg: Config, ys: seq<System>, steps: seq<Step>, c: Command, v: nat, n: nat)
    requires n < |ys| == |steps| + 1
    decreases n
  {
    && n > 0 && !steps[n - 1].Reboot?
    && var y, st := ys[n - 1], steps[n - 1];
    if MyCall(cfg, y, st, Versioning, Test, c) then Complete(cfg, ys, steps, c, v, n - 1)
    else (Touches(cfg, y, st, c, v) && st.env.io) || CompleteSince(cfg, ys, steps, c, v, n - 1)
  }

  lemma NotesCounts(cfg: Config, y: System, st: Step, c: Command, v: nat)
    requires MyCall(cfg, y, st, Versioning, Test, c) || Notes(cfg, y, st, c, v)
    ensures Counts(cfg, y, st, c)
  {
    hide Modules, Has;
  }

  lemma NotedStep(cfg: Config, ys: seq<System>, steps: seq<Step>, c: Command, v: int, n: nat)
    requires StoredRun(cfg, ys, steps, c) && n < |steps| && |ys| == |steps| + 1
    ensures v in Abs(cfg, ys, steps, c, n + 1).recent <==>
      var y, st := ys[n], steps[n];
      !st.Reboot? && if MyCall(cfg, y, st, Versioning, Test, c) then v >= 0 && Has(y.s.persistent, c, v)
                     else (v >= 0 && Notes(cfg, y, st, c, v)) || v in Abs(cfg, ys, steps, c, n).recent
  {
    hide StoredRun, Abs, Moves, Touched, Sighted, Counts, MyCall, Notes, Has, ValidName, Shelf, R.Allowed, R.After, Enabled, Sim;
    AbsStep(cfg, ys, steps, c, n);
    SimHistory(cfg, ys, steps, c, n);
    MovesFollow(cfg, ys[n], steps[n], c, Abs(cfg, ys, steps, c, n));
    if Counts(cfg, ys[n], steps[n], c) {
      SightedIs(cfg, ys, steps, c, n, v);
    } else if v >= 0 && (MyCall(cfg, ys[n], steps[n], Versioning, Test, c) || Notes(cfg, ys[n], steps[n], c, v)) {
      NotesCounts(cfg, ys[n], steps[n], c, v);
    }
  }

  lemma {:induction false} RecentIsNoted(cfg: Config, ys: seq<System>, steps: seq<Step>, c: Command, v: int, n: nat)
    requires StoredRun(cfg, ys, steps, c) && n < |ys| == |steps| + 1
    ensures v in Abs(cfg, ys, steps, c, n).recent <==> v >= 0 && Noted(cfg, ys, steps, c, v, n)
  {
    if n > 0 {
      hide StoredRun, Abs, MyCall, Notes, Has;
      RecentIsNoted(cfg, ys, steps, c, v, n - 1);
      NotedStep(cfg, ys, steps, c, v, n - 1);
    }
  }

  lemma WholeStep(cfg: Config, ys: seq<System>, steps: seq<Step>, c: Command, v: int, n: nat)
    requires StoredRun(cfg, ys, steps, c) && n < |steps| && |ys| == |steps| + 1
    ensures v in Abs(cfg, ys, steps, c, n + 1).whole <==>
      var y, st := ys[n], steps[n];
      !st.Reboot? && if MyCall(cfg, y, st, Versioning, Test, c) then v in Abs(cfg, ys, steps, c, n).stored
                     else (v >= 0 && Touches(cfg, y, st, c, v) && st.env.io) || v in Abs(cfg, ys, steps, c, n).whole
  {
    hide StoredRun, Abs, Moves, Touched, Touches, Sighted, Counts, MyCall, ValidName, Shelf, R.Allowed, R.After, Enabled, Sim;
    AbsStep(cfg, ys, steps, c, n);
    SimHistory(cfg, ys, steps, c, n);
    MovesFollow(cfg, ys[n], steps[n], c, Abs(cfg, ys, steps, c, n));
    if v >= 0 {
      TouchedIs(cfg, ys[n], steps[n], c, v);
    }
  }

  lemma NothingSince(cfg: Config, ys: seq<System>, steps: seq<Step>, c: Command)
    requires StoredRun(cfg, ys, steps, c) && |ys| == |steps| + 1
    ensures Abs(cfg, ys, steps, c, 0).whole == {}
  {
  }

  lemma StoredExact(cfg: Config, ys: seq<System>, steps: seq<Step>, c: Command, v: int, n: nat)
    requires StoredRun(cfg, ys, steps, c) && n < |ys| == |steps| + 1
    ensures v in Abs(cfg, ys, steps, c, n).stored <==> v >= 0 && Complete(cfg, ys, steps, c, v, n)
  {
    hide StoredRun, Abs, Complete, EverComplete;
    CompleteExact(cfg, ys, steps, c, n);
  }

  lemma {:induction false} WholeIsComplete(cfg: Config, ys: seq<System>, steps: seq<Step>, c: Command, v: int, n: nat)
    requires StoredRun(cfg, ys, steps, c) && n < |ys| == |steps| + 1
    ensures v in Abs(cfg, ys, steps, c, n).whole <==> v >= 0 && CompleteSince(cfg, ys, steps, c, v, n)
  {
    hide StoredRun, Abs, MyCall, Touches, Complete;
    if n == 0 {
      NothingSince(cfg, ys, steps, c);
    } else {
      WholeIsComplete(cfg, ys, steps, c, v, n - 1);
      WholeStep(cfg, ys, steps, c, v, n - 1);
      StoredExact(cfg, ys, steps, c, v, n - 1);
    }
  }

  ghost function NotedFiles(cfg: Config, ys: seq<System>, steps: seq<Step>, c: Command, n: nat): (r: set<int>)
    requires StoredRun(cfg, ys, steps, c) && n < |ys| == |steps| + 1
    ensures forall v: int :: v in r <==> v >= 0 && Noted(cfg, ys, steps, c, v, n)
  {
    assert forall v: int :: v in Abs(cfg, ys, steps, c, n).recent <==> v >= 0 && Noted(cfg, ys, steps, c, v, n) by {
      forall v: int ensures v in Abs(cfg, ys, steps, c, n).recent <==> v >= 0 && Noted(cfg, ys, steps, c, v, n) {
        RecentIsNoted(cfg, ys, steps, c, v, n);
      }
    }
    Abs(cfg, ys, steps, c, n).recent
  }

  ghost function FilesSince(cfg: Config, ys: seq<System>, steps: seq<Step>, c: Command, n: nat): (r: set<int>)
    requires StoredRun(cfg, ys, steps, c) && n < |ys| == |steps| + 1
    ensures forall v: int :: v in r <==> v >= 0 && CompleteSince(cfg, ys, steps, c, v, n)
  {
    assert forall v: int :: v in Abs(cfg, ys, steps, c, n).whole <==> v >= 0 && CompleteSince(cfg, ys, steps, c, v, n) by {
      forall v: int ensures v in Abs(cfg, ys, steps, c, n).whole <==> v >= 0 && CompleteSince(cfg, ys, steps, c, v, n) {
        WholeIsComplete(cfg, ys, steps, c, v, n);
      }
    }
    Abs(cfg, ys, steps, c, n).whole
  }

  // ---- exact retention of the files ----

  ghost predicate NotRetired(cfg: Config, ys: seq<System>, steps: seq<Step>, c: Command, v: nat, i: nat)
    requires i < |ys| == |steps| + 1
  {
    Noted(cfg, ys, steps, c, v, i) ==> v in Known(ys[i].s.history, c)
  }

  /** No version is flushed or recorded that was retired since the lookup, old files can be removed, and the backend is not
      restarted. */
  ghost predicate Regular(cfg: Config, ys: seq<System>, steps: seq<Step>, c: Command, i: nat)
    requires i < |steps| && |ys| == |steps| + 1
  {
    && !steps[i].Reboot? && WritesFresh(cfg, ys, steps, c, i)
    && (forall v: nat :: Touches(cfg, ys[i], steps[i], c, v) ==> NotRetired(cfg, ys, steps, c, v, i))
    && (MyCall(cfg, ys[i], steps[i], Versioning, Checkpoint, c) ==>
         NotRetired(cfg, ys, steps, c, ys[i].works[steps[i].t].c.version, i) && steps[i].env.stuckPersistent == {})
  }

  lemma {:induction false} RemovalsOrderly(k: nat, a: R.State, c: Command)
    ensures var moves := Removals(k, a.history, c, {}); R.Allowed(k, a, moves) && R.AllOrderly(k, a, moves)
    decreases |a.history|
  {
    if |a.history| > k {
      var b := R.Apply(k, a, R.Remove(true));
      RemovalsOrderly(k, b, c);
      R.OrderlyCons(k, a, R.Remove(true), Removals(k, b.history, c, {}));
    }
  }

  lemma FlushOrderly(k: nat, a: R.State, v: int, io: bool)
    requires v !in a.stored && (v in a.recent ==> v in a.history)
    ensures R.Allowed(k, a, FlushMoves(v, io)) && R.AllOrderly(k, a, FlushMoves(v, io))
  {
    R.OrderlyOne(k, a, R.Begin(v));
    if io {
      var b := R.Apply(k, a, R.Begin(v));
      R.OrderlyOne(k, b, R.End(v));
      R.OrderlyCons(k, a, R.Begin(v), [R.End(v)]);
      assert [R.Begin(v)] + [R.End(v)] == FlushMoves(v, true);
    }
  }

  lemma VersioningOrderly(cfg: Config, s: State, a: R.State, w: Command, env: Env)
    requires a.history == Known(s.history, w) && R.Allowed(cfg.maxVersions, a, VersioningMoves(cfg, s, w, env))
    requires w.kind.Checkpoint? ==> (w.version in a.recent ==> w.version in a.history) && env.stuckPersistent == {}
    ensures R.AllOrderly(cfg.maxVersions, a, VersioningMoves(cfg, s, w, env))
  {
    hide Stem, Removals, R.Allowed, R.AllOrderly;
    var k := cfg.maxVersions;
    match w.kind
    case Test => R.OrderlyOne(k, a, R.Load);
    case Restart =>
      if StemOf(w) in s.persistent {
        assert R.Enabled(k, a, R.Restart(w.version)) by { R.First(k, a, VersioningMoves(cfg, s, w, env)); }
        R.OrderlyOne(k, a, R.Restart(w.version));
      } else {
        R.OrderlyNone(k, a);
      }
    case Checkpoint =>
      var b := R.Apply(k, a, R.Record(w.version));
      RemovalsOrderly(k, b, w);
      R.OrderlyCons(k, a, R.Record(w.version), Removals(k, b.history, w, {}));
    case Init => R.OrderlyNone(k, a);
  }

  lemma MovesOrderly(cfg: Config, y: System, st: Step, c: Command, a: R.State)
    requires Enabled(cfg, y, st) && a.history == Known(y.s.history, c) && R.Allowed(cfg.maxVersions, a, Moves(cfg, y, st, c))
    requires !st.Reboot?
    requires Touched(cfg, y, st, c).Some? ==>
      var v := Touched(cfg, y, st, c).value; v !in a.stored && (v in a.recent ==> v in a.history)
    requires MyCall(cfg, y, st, Versioning, Checkpoint, c) ==>
      var v := y.works[st.t].c.version; (v in a.recent ==> v in a.history) && st.env.stuckPersistent == {}
    ensures R.AllOrderly(cfg.maxVersions, a, Moves(cfg, y, st, c))
  {
    hide Modules, Touches, R.Allowed, R.AllOrderly, VersioningMoves;
    if Counts(cfg, y, st, c) {
      VersioningOrderly(cfg, y.s, a, y.works[st.t].c, st.env);
    } else if Touched(cfg, y, st, c).Some? && Mine(y.works[st.t].c, c) {
      FlushOrderly(cfg.maxVersions, a, y.works[st.t].c.version, st.env.io);
    } else {
      R.OrderlyNone(cfg.maxVersions, a);
    }
  }

  lemma MyCallAdvances(cfg: Config, y: System, st: Step, c: Command)
    requires MyCall(cfg, y, st, Versioning, Checkpoint, c)
    ensures st.Advance? && st.t in y.works
  {
  }

  lemma RegularOrderly(cfg: Config, ys: seq<System>, steps: seq<Step>, c: Command, i: nat)
    requires StoredRun(cfg, ys, steps, c) && i < |steps| && |ys| == |steps| + 1 && Regular(cfg, ys, steps, c, i)
    ensures Enabled(cfg, ys[i], steps[i])
    ensures var a, moves := Abs(cfg, ys, steps, c, i), Moves(cfg, ys[i], steps[i], c);
      R.Allowed(cfg.maxVersions, a, moves) && R.AllOrderly(cfg.maxVersions, a, moves)
  {
    hide StoredRun, Abs, Moves, Touched, Touches, MyCall, Noted, ValidName, Shelf, R.Allowed, R.AllOrderly, R.After, Complete, Enabled;
    var a := Abs(cfg, ys, steps, c, i);
    AbsStep(cfg, ys, steps, c, i);
    SimHistory(cfg, ys, steps, c, i);
    if Touched(cfg, ys[i], steps[i], c).Some? {
      var v := Touched(cfg, ys[i], steps[i], c).value;
      TouchedIs(cfg, ys[i], steps[i], c, v);
      StoredIsComplete(cfg, ys, steps, c, v, i);
      RecentIsNoted(cfg, ys, steps, c, v, i);
    }
    if MyCall(cfg, ys[i], steps[i], Versioning, Checkpoint, c) {
      MyCallAdvances(cfg, ys[i], steps[i], c);
      RecentIsNoted(cfg, ys, steps, c, ys[i].works[steps[i].t].c.version, i);
    }
    MovesOrderly(cfg, ys[i], steps[i], c, a);
  }

  lemma {:induction false} TrackedSince(cfg: Config, ys: seq<System>, steps: seq<Step>, c: Command, j: nat, n: nat)
    requires StoredRun(cfg, ys, steps, c) && j < n < |ys| == |steps| + 1 && MyCall(cfg, ys[j], steps[j], Versioning, Test, c)
    requires forall l :: j < l < n ==> Regular(cfg, ys, steps, c, l)
    ensures R.Tracked(cfg.maxVersions, Abs(cfg, ys, steps, c, n))
  {
    hide StoredRun, Abs, Moves, Touched, MyCall, ValidName, Shelf, Regular, R.Allowed, R.AllOrderly, R.After, R.Tracked, Enabled;
    var a, k := Abs(cfg, ys, steps, c, n - 1), cfg.maxVersions;
    AbsStep(cfg, ys, steps, c, n - 1);
    if n == j + 1 {
      TestStep(cfg, ys[j], steps[j], c);
      R.LoadTracks(k, a);
      R.One(k, a, R.Load);
    } else {
      TrackedSince(cfg, ys, steps, c, j, n - 1);
      RegularOrderly(cfg, ys, steps, c, n - 1);
      R.StepsKeepTracked(k, a, Moves(cfg, ys[n - 1], steps[n - 1], c));
    }
  }

  lemma TrimmedHistory(cfg: Config, ys: seq<System>, steps: seq<Step>, c: Command, n: nat)
    requires StoredRun(cfg, ys, steps, c) && n < |steps| && |ys| == |steps| + 1
    requires MyCall(cfg, ys[n], steps[n], Versioning, Checkpoint, c)
    ensures |Abs(cfg, ys, steps, c, n + 1).history| <= cfg.maxVersions
  {
    SimHistory(cfg, ys, steps, c, n + 1);
    assert ys[n + 1] == Apply(cfg, ys[n], steps[n]);
    hide Abs, VersioningCall, Newest, Modules;
    var w := ys[n].works[steps[n].t].c;
    TrimHistory(cfg, ys[n].s, w, steps[n].env);
    NewestKeeps(Known(ys[n].s.history, w) + {w.version}, cfg.maxVersions);
  }

  /** In every interleaving, when a CHECKPOINT of the name and id has trimmed: the newest versions ever complete are
      complete, and at most as many other files as there are complete ones that no CHECKPOINT has recorded yet. Beside the
      conditions of `NewestSurvive`: the name was looked up since the backend started, and no version is used again that was
      retired since. */
  lemma NewestFilesStored(cfg: Config, ys: seq<System>, steps: seq<Step>, c: Command, j: nat, n: nat)
    requires StoredRun(cfg, ys, steps, c) && cfg.interval == 0 && j < n < |steps| && |ys| == |steps| + 1
    requires forall i :: 0 <= i <= n ==> FindsComplete(cfg, ys, steps, c, i) && WritesFresh(cfg, ys, steps, c, i)
    requires MyCall(cfg, ys[j], steps[j], Versioning, Test, c) && MyCall(cfg, ys[n], steps[n], Versioning, Checkpoint, c)
    requires forall l :: j < l <= n ==> Regular(cfg, ys, steps, c, l)
    ensures var files, newest := CompleteFiles(cfg, ys, steps, c, n + 1), Newest(EverFiles(cfg, ys, steps, c, n + 1), cfg.maxVersions);
      && newest <= files && |files - newest| <= |files - NotedFiles(cfg, ys, steps, c, n + 1)|
      && (files <= NotedFiles(cfg, ys, steps, c, n + 1) ==> files == newest)
  {
    hide StoredRun, Abs, FindsComplete, WritesFresh, Regular, MyCall, EverComplete, Complete, Noted, Newest, R.Durable, R.Tracked;
    var a := Abs(cfg, ys, steps, c, n + 1);
    SeenIsComplete(cfg, ys, steps, c, n + 1);
    NothingTorn(cfg, ys, steps, c, n + 1);
    AlwaysDurable(cfg, ys, steps, c, n + 1);
    TrackedSince(cfg, ys, steps, c, j, n + 1);
    TrimmedHistory(cfg, ys, steps, c, n);
    R.TrimmedNewest(cfg.maxVersions, a);
    if a.stored <= a.recent {
      assert a.stored - a.recent == {};
      assert a.stored - Newest(a.ever, cfg.maxVersions) == {};
    }
  }

  /** With flushes put off and incomplete files found as they may be: enough complete files remain exactly when there were
      enough since the lookup, and each of the newest versions since then is complete or no complete one was pushed out. */
  lemma EnoughFilesIff(cfg: Config, ys: seq<System>, steps: seq<Step>, c: Command, j: nat, n: nat)
    requires StoredRun(cfg, ys, steps, c) && j < n < |steps| && |ys| == |steps| + 1
    requires MyCall(cfg, ys[j], steps[j], Versioning, Test, c) && MyCall(cfg, ys[n], steps[n], Versioning, Checkpoint, c)
    requires forall l :: j < l <= n ==> Regular(cfg, ys, steps, c, l)
    requires CompleteFiles(cfg, ys, steps, c, n + 1) <= NotedFiles(cfg, ys, steps, c, n + 1)
    ensures var k, quota := cfg.maxVersions, R.Quota(EverFiles(cfg, ys, steps, c, n + 1), cfg.maxVersions);
      var newest, since := Newest(NotedFiles(cfg, ys, steps, c, n + 1), k), FilesSince(cfg, ys, steps, c, n + 1);
      |CompleteFiles(cfg, ys, steps, c, n + 1)| >= quota <==> |since| >= quota && (newest <= since || since <= newest)
  {
    hide StoredRun, Abs, Regular, MyCall, Complete, Noted, CompleteSince, Newest, R.Durable, R.Tracked, R.Quota;
    AlwaysDurable(cfg, ys, steps, c, n + 1);
    TrackedSince(cfg, ys, steps, c, j, n + 1);
    TrimmedHistory(cfg, ys, steps, c, n);
    R.TrimmedEnough(cfg.maxVersions, Abs(cfg, ys, steps, c, n + 1));
  }
}
