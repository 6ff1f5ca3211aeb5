/** Keeping the newest versions in aggregated mode: the ranks share one file per version (src/storage/posix_agg_module.cpp),
    but each trims by its own history (src/modules/versioning_module.cpp) and then removes the file of all of them. */
module SharedRetention {
  import opened Sets
  import R = Retention

  /** A shared file: the ranks whose part is complete, and those that are writing theirs. */
  datatype File = File(done: set<nat>, busy: set<nat>)

  /** The shared files by version, what each rank has in its history, and the versions each has found at the start or
      flushed since; `ever` are the versions that were complete, in every rank's part, at some time. */
  datatype State = State(files: map<int, File>, histories: map<nat, set<int>>, own: map<nat, set<int>>, ever: set<int>)

  datatype Step =
    | Load(r: nat)
    | Begin(r: nat, v: int)
    | End(r: nat, v: int)
    | Record(r: nat, v: int)
    | Remove(r: nat, ok: bool)
    | Restart(r: nat, v: int)
    | Crash(r: nat)

  function Of(m: map<nat, set<int>>, r: nat): (s: set<int>) {
    if r in m then m[r] else {}
  }

  /** The versions that every rank can restore. */
  function Stored(ranks: set<nat>, files: map<int, File>): (s: set<int>) {
    set v | v in files && ranks <= files[v].done
  }

  predicate Enabled(ranks: set<nat>, k: nat, s: State, step: Step) {
    && step.r in ranks
    && match step
       case End(r, v) => v in s.files && r in s.files[v].busy
       case Remove(r, _) => |Of(s.histories, r)| > k
       case Restart(_, v) => v in s.files
       case _ => true
  }

  /** The files after a step; a part that is written again is not complete any more. */
  function Files(ranks: set<nat>, k: nat, s: State, step: Step): (r: map<int, File>)
    requires Enabled(ranks, k, s, step)
  {
    match step
    case Begin(r, v) =>
      var f := if v in s.files then s.files[v] else File({}, {});
      s.files[v := File(f.done - {r}, f.busy + {r})]
    case End(r, v) => s.files[v := File(s.files[v].done + {r}, s.files[v].busy - {r})]
    case Remove(r, ok) => if ok then s.files - {Least(Of(s.histories, r))} else s.files
    case Crash(r) => map v | v in s.files :: File(s.files[v].done, s.files[v].busy - {r})
    case _ => s.files
  }

  function History(ranks: set<nat>, k: nat, s: State, step: Step): (h: set<int>)
    requires Enabled(ranks, k, s, step)
  {
    var h := Of(s.histories, step.r);
    match step
    case Load(_) => s.files.Keys
    case Record(_, v) => h + {v}
    case Remove(_, _) => h - {Least(h)}
    case Restart(_, v) => h + {v}
    case Crash(_) => {}
    case _ => h
  }

  function Apply(ranks: set<nat>, k: nat, s: State, step: Step): (s': State)
    requires Enabled(ranks, k, s, step)
  {
    var files := Files(ranks, k, s, step);
    State(files,
          s.histories[step.r := History(ranks, k, s, step)],
          if step.End? then s.own[step.r := Of(s.own, step.r) + {step.v}] else s.own,
          s.ever + Stored(ranks, files))
  }

  /** Some complete versions are there, and no rank has looked. */
  ghost predicate Initial(ranks: set<nat>, s: State) {
    && s.histories == map[] && s.ever == s.files.Keys
    && (forall v :: v in s.files ==> s.files[v] == File(ranks, {}))
    && (forall r :: r in ranks ==> Of(s.own, r) == s.ever)
  }

  ghost predicate Run(ranks: set<nat>, k: nat, states: seq<State>, steps: seq<Step>) {
    && |states| == |steps| + 1 && Initial(ranks, states[0])
    && forall i :: 0 <= i < |steps| ==> Enabled(ranks, k, states[i], steps[i]) && states[i + 1] == Apply(ranks, k, states[i], steps[i])
  }

  // ---- when exactly the newest versions are kept ----

  ghost predicate NewestStored(ranks: set<nat>, k: nat, s: State) {
    Newest(s.ever, k) <= Stored(ranks, s.files)
  }

  /** The step takes one of the newest versions from every rank. */
  predicate Takes(k: nat, s: State, step: Step) {
    match step
    case Begin(_, v) => v in Newest(s.ever, k)
    case Remove(r, ok) => ok && |Of(s.histories, r)| > k && Least(Of(s.histories, r)) in Newest(s.ever, k)
    case _ => false
  }

  lemma StoredAfter(ranks: set<nat>, k: nat, s: State, step: Step)
    requires Enabled(ranks, k, s, step)
    ensures var a, b := Stored(ranks, s.files), Stored(ranks, Files(ranks, k, s, step));
      && (step.Begin? ==> b == a - {step.v})
      && (step.Remove? ==> b == if step.ok then a - {Least(Of(s.histories, step.r))} else a)
      && (step.End? ==> a <= b <= a + {step.v})
      && (!step.Begin? && !step.Remove? && !step.End? ==> b == a)
  {
    hide Least;
    if step.Begin? {
      assert step.r !in Files(ranks, k, s, step)[step.v].done;
    }
  }

  lemma TakesIff(ranks: set<nat>, k: nat, s: State, step: Step)
    requires Enabled(ranks, k, s, step) && Stored(ranks, s.files) <= s.ever && NewestStored(ranks, k, s)
    ensures NewestStored(ranks, k, Apply(ranks, k, s, step)) <==> !Takes(k, s, step)
  {
    hide Newest, Least, Stored, Files;
    StoredAfter(ranks, k, s, step);
    KeptStep(Stored(ranks, s.files), s.ever, Stored(ranks, Files(ranks, k, s, step)), k);
  }

  /** A complete version is one that every rank has found or flushed. */
  ghost predicate Inv(ranks: set<nat>, s: State) {
    && Stored(ranks, s.files) <= s.ever
    && (forall r, v :: r in ranks && v in s.files && r in s.files[v].done ==> v in Of(s.own, r))
    && (forall r :: r in ranks ==> s.ever <= Of(s.own, r))
  }

  lemma InitialInv(ranks: set<nat>, k: nat, s: State)
    requires Initial(ranks, s)
    ensures Inv(ranks, s) && NewestStored(ranks, k, s)
  {
    NewestKeeps(s.ever, k);
    forall v ensures v in Stored(ranks, s.files) <==> v in s.files {}
  }

  lemma DoneIsOwn(ranks: set<nat>, k: nat, s: State, step: Step)
    requires Inv(ranks, s) && Enabled(ranks, k, s, step)
    ensures var s' := Apply(ranks, k, s, step);
      forall r, v :: r in ranks && v in s'.files && r in s'.files[v].done ==> v in Of(s'.own, r)
  {
    hide Stored, Least;
  }

  lemma StepKeepsInv(ranks: set<nat>, k: nat, s: State, step: Step)
    requires Inv(ranks, s) && Enabled(ranks, k, s, step)
    ensures Inv(ranks, Apply(ranks, k, s, step))
  {
    DoneIsOwn(ranks, k, s, step);
    hide Files, History;
    var s' := Apply(ranks, k, s, step);
    forall r | r in ranks ensures s'.ever <= Of(s'.own, r) {
      assert Of(s.own, r) <= Of(s'.own, r);
    }
  }

  lemma {:induction false} RunKeepsInv(ranks: set<nat>, k: nat, states: seq<State>, steps: seq<Step>, i: nat)
    requires Run(ranks, k, states, steps) && i < |states|
    ensures Inv(ranks, states[i])
  {
    hide Inv;
    if i == 0 {
      InitialInv(ranks, k, states[0]);
    } else {
      RunKeepsInv(ranks, k, states, steps, i - 1);
      StepKeepsInv(ranks, k, states[i - 1], steps[i - 1]);
    }
  }

  lemma StoredInEver(ranks: set<nat>, s: State)
    requires Inv(ranks, s)
    ensures Stored(ranks, s.files) <= s.ever
  {
  }

  /** In every run of all ranks: the newest versions ever complete can be restored by every rank all along exactly when no
      step has taken one of them. */
  lemma {:induction false} NewestKeptIff(ranks: set<nat>, k: nat, states: seq<State>, steps: seq<Step>, i: nat)
    requires Run(ranks, k, states, steps) && i < |states|
    ensures (forall j :: 0 <= j <= i ==> NewestStored(ranks, k, states[j])) <==> (forall j :: 0 <= j < i ==> !Takes(k, states[j], steps[j]))
  {
    hide NewestStored, Takes, Inv, Apply, Enabled;
    if i == 0 {
      InitialInv(ranks, k, states[0]);
    } else {
      NewestKeptIff(ranks, k, states, steps, i - 1);
      RunKeepsInv(ranks, k, states, steps, i - 1);
      StoredInEver(ranks, states[i - 1]);
      assert Enabled(ranks, k, states[i - 1], steps[i - 1]) && states[i - 1 + 1] == Apply(ranks, k, states[i - 1], steps[i - 1]);
      if NewestStored(ranks, k, states[i - 1]) {
        TakesIff(ranks, k, states[i - 1], steps[i - 1]);
      }
    }
  }
  // ---- when a rank may trim ----

  /** A rank that trims has in its history what it found or flushed, above the least version there. */
  ghost predicate UpToDate(s: State, step: Step) {
    step.Remove? && Of(s.histories, step.r) != {} ==>
      forall v :: v in Of(s.own, step.r) && v > Least(Of(s.histories, step.r)) ==> v in Of(s.histories, step.r)
  }

  /** A rank that removes a version that was complete has more than `k` such versions in its history. */
  predicate InTime(k: nat, s: State, step: Step) {
    step.Remove? && step.ok && Of(s.histories, step.r) != {} && Least(Of(s.histories, step.r)) in s.ever ==>
      |Of(s.histories, step.r) * s.ever| > k
  }

  /** The least version of a history that has every complete version above it is among the newest exactly when it was
      complete and at most `k` of the history were. */
  lemma LeastAmongNewest(ever: set<int>, h: set<int>, k: nat)
    requires h != {} && forall v :: v in ever && v > Least(h) ==> v in h
    ensures Least(h) in Newest(ever, k) <==> Least(h) in ever && |h * ever| <= k
  {
    NewestKeeps(ever, k);
    var m, r, x := Least(h), Newest(ever, k), h * ever;
    if m in ever && |x| > k {
      LeastOf(x, m);
      LeastIsOld(ever, x, k);
    } else if m in ever && m !in r {
      assert r + {m} <= x;
      SubsetSize(r + {m}, x);
    } else if m in r {
      assert m in ever;
    }
  }

  lemma OnlyTrimsCount(k: nat, s: State, step: Step)
    requires !step.Remove? && (step.Begin? ==> step.v !in Newest(s.ever, k))
    ensures !Takes(k, s, step) && InTime(k, s, step)
  {
    hide Newest;
  }

  lemma TrimTakesIff(ranks: set<nat>, k: nat, s: State, step: Step)
    requires Inv(ranks, s) && Enabled(ranks, k, s, step) && UpToDate(s, step) && step.Remove?
    ensures Takes(k, s, step) <==> !InTime(k, s, step)
  {
    hide Newest;
    LeastAmongNewest(s.ever, Of(s.histories, step.r), k);
  }

  /** Every rank looks up what is stored before it trims, records what it flushes, and flushes none of the newest complete
      versions again. Then they are kept exactly when no rank trims too early: whenever a rank removes a version that was
      complete, more than `k` versions of its history have been flushed by every rank. */
  lemma {:induction false} TrimsInTimeIff(ranks: set<nat>, k: nat, states: seq<State>, steps: seq<Step>, i: nat)
    requires Run(ranks, k, states, steps) && i < |states|
    requires forall j :: 0 <= j < i ==> UpToDate(states[j], steps[j])
    requires forall j :: 0 <= j < i && steps[j].Begin? ==> steps[j].v !in Newest(states[j].ever, k)
    ensures (forall j :: 0 <= j <= i ==> NewestStored(ranks, k, states[j])) <==> (forall j :: 0 <= j < i ==> InTime(k, states[j], steps[j]))
  {
    NewestKeptIff(ranks, k, states, steps, i);
    hide NewestStored, Newest, Inv, UpToDate, InTime;
    forall j | 0 <= j < i ensures Takes(k, states[j], steps[j]) <==> !InTime(k, states[j], steps[j]) {
      RunKeepsInv(ranks, k, states, steps, j);
      if steps[j].Remove? {
        TrimTakesIff(ranks, k, states[j], steps[j]);
      } else {
        OnlyTrimsCount(k, states[j], steps[j]);
      }
    }
  }

  /** A rank one version over the limit may trim exactly when every rank has flushed every version of its history, the new
      one included. */
  lemma OneOverIff(k: nat, s: State, r: nat)
    requires |Of(s.histories, r)| == k + 1 && Least(Of(s.histories, r)) in s.ever
    ensures InTime(k, s, Remove(r, true)) <==> Of(s.histories, r) <= s.ever
  {
    var h := Of(s.histories, r);
    if h <= s.ever {
      assert h * s.ever == h;
    } else {
      var x :| x in h && x !in s.ever;
      SubsetSize(h * s.ever, h - {x});
    }
  }

  // ---- a single rank ----

  /** A rank that is writing its part has not completed it. */
  ghost predicate BusyNotDone(s: State) {
    forall v :: v in s.files ==> s.files[v].done !! s.files[v].busy
  }

  lemma StepKeepsBusy(ranks: set<nat>, k: nat, s: State, step: Step)
    requires BusyNotDone(s) && Enabled(ranks, k, s, step)
    ensures BusyNotDone(Apply(ranks, k, s, step))
  {
    hide Stored, History, Least;
  }

  lemma {:induction false} RunKeepsBusy(ranks: set<nat>, k: nat, states: seq<State>, steps: seq<Step>, i: nat)
    requires Run(ranks, k, states, steps) && i < |states|
    ensures BusyNotDone(states[i])
  {
    if i > 0 {
      hide Apply, Enabled;
      RunKeepsBusy(ranks, k, states, steps, i - 1);
      StepKeepsBusy(ranks, k, states[i - 1], steps[i - 1]);
    }
  }

  /** The files and the history of rank `r` as the retention protocol sees them when there is no other rank. */
  ghost predicate Sees(r: nat, s: State, a: R.State) {
    && a.stored == Stored({r}, s.files) && a.stored + a.partial == s.files.Keys && a.stored !! a.partial
    && a.history == Of(s.histories, r) && a.ever == s.ever
  }

  function MoveOf(step: Step): (m: R.Step) {
    match step
    case Load(_) => R.Load
    case Begin(_, v) => R.Begin(v)
    case End(_, v) => R.End(v)
    case Record(_, v) => R.Record(v)
    case Remove(_, ok) => R.Remove(ok)
    case Restart(_, v) => R.Restart(v)
    case Crash(_) => R.Crash
  }

  lemma KeysAfter(ranks: set<nat>, k: nat, s: State, step: Step)
    requires Enabled(ranks, k, s, step)
    ensures Files(ranks, k, s, step).Keys ==
      if step.Begin? then s.files.Keys + {step.v}
      else if step.Remove? && step.ok then s.files.Keys - {Least(Of(s.histories, step.r))}
      else s.files.Keys
  {
    hide Least;
    assert step.Crash? ==> forall v :: v in Files(ranks, k, s, step) <==> v in s.files;
  }

  lemma OneRankEnd(r: nat, k: nat, s: State, v: int)
    requires Enabled({r}, k, s, End(r, v)) && BusyNotDone(s)
    ensures v in s.files && v !in Stored({r}, s.files) && v in Stored({r}, Files({r}, k, s, End(r, v)))
  {
  }

  lemma MoveHistory(k: nat, a: R.State, m: R.Step)
    requires R.Enabled(k, a, m)
    ensures R.Apply(k, a, m).history ==
      match m
      case Load => a.stored + a.partial
      case Record(v) => a.history + {v}
      case Remove(_) => a.history - {Least(a.history)}
      case Restart(v) => a.history + {v}
      case Crash => {}
      case _ => a.history
  {
    hide Least;
  }

  lemma OneRankHistory(r: nat, k: nat, s: State, step: Step, a: R.State)
    requires Enabled({r}, k, s, step) && R.Enabled(k, a, MoveOf(step))
    requires a.history == Of(s.histories, r) && a.stored + a.partial == s.files.Keys
    ensures R.Apply(k, a, MoveOf(step)).history == History({r}, k, s, step)
  {
    hide Least, R.Apply, R.Enabled;
    MoveHistory(k, a, MoveOf(step));
  }

  lemma MoveFiles(k: nat, a: R.State, m: R.Step)
    requires R.Enabled(k, a, m)
    ensures var b := R.Apply(k, a, m);
      match m
      case Begin(v) => b.stored == a.stored - {v} && b.partial == a.partial + {v}
      case End(v) => b.stored == a.stored + {v} && b.partial == a.partial - {v}
      case Remove(ok) =>
        if ok then b.stored == a.stored - {Least(a.history)} && b.partial == a.partial - {Least(a.history)}
        else b.stored == a.stored && b.partial == a.partial
      case _ => b.stored == a.stored && b.partial == a.partial
  {
    hide Least;
  }

  lemma OneRankEnabled(r: nat, k: nat, s: State, step: Step, a: R.State)
    requires Enabled({r}, k, s, step) && BusyNotDone(s) && Sees(r, s, a)
    ensures R.Enabled(k, a, MoveOf(step))
  {
    hide Stored;
    if step.End? {
      OneRankEnd(r, k, s, step.v);
    }
  }

  lemma OneRankFiles(r: nat, k: nat, s: State, step: Step, a: R.State)
    requires Enabled({r}, k, s, step) && BusyNotDone(s) && Sees(r, s, a) && R.Enabled(k, a, MoveOf(step))
    ensures var b, files := R.Apply(k, a, MoveOf(step)), Files({r}, k, s, step);
      b.stored == Stored({r}, files) && b.stored + b.partial == files.Keys && b.stored !! b.partial
  {
    hide Least, Stored, Files, BusyNotDone, R.Apply, R.Enabled;
    StoredAfter({r}, k, s, step);
    KeysAfter({r}, k, s, step);
    MoveFiles(k, a, MoveOf(step));
    if step.End? {
      OneRankEnd(r, k, s, step.v);
    }
  }

  lemma MovesEver(k: nat, a: R.State, m: R.Step)
    requires R.Enabled(k, a, m) && a.stored <= a.ever
    ensures var b := R.Apply(k, a, m); b.ever == a.ever + b.stored
  {
    hide Least;
  }

  lemma OneRankStep(r: nat, k: nat, s: State, step: Step, a: R.State)
    requires Enabled({r}, k, s, step) && BusyNotDone(s) && Sees(r, s, a) && a.stored <= a.ever
    ensures R.Enabled(k, a, MoveOf(step)) && Sees(r, Apply({r}, k, s, step), R.Apply(k, a, MoveOf(step)))
    ensures var b := R.Apply(k, a, MoveOf(step)); b.stored <= b.ever
  {
    hide Least, Stored, Files, History, BusyNotDone, MoveOf, R.Apply, R.Enabled;
    OneRankEnabled(r, k, s, step, a);
    OneRankFiles(r, k, s, step, a);
    OneRankHistory(r, k, s, step, a);
    MovesEver(k, a, MoveOf(step));
  }

  lemma OneRankStarts(r: nat, k: nat, s: State)
    requires Initial({r}, s)
    ensures var a := R.State(s.ever, {}, {}, {}, s.ever, {}, {}, {}); R.Run(k, [a], []) && Sees(r, s, a)
  {
    forall v ensures v in Stored({r}, s.files) <==> v in s.files {}
  }

  /** With a single rank every run is, step by step, a run of the retention protocol with the same files and history. */
  lemma {:induction false} OneRankRefines(r: nat, k: nat, states: seq<State>, steps: seq<Step>, i: nat)
    returns (run: seq<R.State>, moves: seq<R.Step>)
    requires Run({r}, k, states, steps) && i < |states|
    ensures R.Run(k, run, moves) && |run| == |moves| + 1 == i + 1 && Sees(r, states[i], run[i]) && run[i].stored <= run[i].ever
    ensures forall j :: 0 <= j < i ==> moves[j] == MoveOf(steps[j])
  {
    hide R.Apply, R.Enabled, R.Initial, R.Run, Sees, Apply, Enabled, Initial, BusyNotDone;
    if i == 0 {
      OneRankStarts(r, k, states[0]);
      run, moves := [R.State(states[0].ever, {}, {}, {}, states[0].ever, {}, {}, {})], [];
    } else {
      run, moves := OneRankRefines(r, k, states, steps, i - 1);
      RunKeepsBusy({r}, k, states, steps, i - 1);
      assert Enabled({r}, k, states[i - 1], steps[i - 1]) && states[(i - 1) + 1] == Apply({r}, k, states[i - 1], steps[i - 1]);
      OneRankStep(r, k, states[i - 1], steps[i - 1], run[i - 1]);
      run, moves := R.Extend(k, run, moves, MoveOf(steps[i - 1]));
    }
  }

  // ---- a run in which a rank trims too early ----

  lemma Extend(ranks: set<nat>, k: nat, states: seq<State>, steps: seq<Step>, step: Step)
    returns (states': seq<State>, steps': seq<Step>)
    requires Run(ranks, k, states, steps) && Enabled(ranks, k, states[|steps|], step)
    ensures Run(ranks, k, states', steps') && |states'| == |steps'| + 1
    ensures states'[0] == states[0] && states'[|steps'|] == Apply(ranks, k, states[|steps|], step)
  {
    hide Apply, Enabled, Initial;
    states', steps' := states + [Apply(ranks, k, states[|steps|], step)], steps + [step];
  }

  const START: State := State(map[1 := File({0, 1}, {})], map[], map[0 := {1}, 1 := {1}], {1})

  lemma Started() returns (states: seq<State>, steps: seq<Step>)
    ensures Run({0, 1}, 1, states, steps) && states == [START] && steps == []
  {
    states, steps := [START], [];
  }

  lemma FirstRankFlushes() returns (states: seq<State>, steps: seq<Step>)
    ensures Run({0, 1}, 1, states, steps) && |states| == |steps| + 1 && states[0] == START
    ensures var s := states[|steps|];
      && Of(s.histories, 0) == {1} && s.files.Keys == {1, 2} && s.files[2].done == {0} && s.ever == {1}
  {
    hide Run;
    states, steps := Started();
    states, steps := Extend({0, 1}, 1, states, steps, Load(0));
    states, steps := Extend({0, 1}, 1, states, steps, Begin(0, 2));
    states, steps := Extend({0, 1}, 1, states, steps, End(0, 2));
  }

  /** Two ranks, one stored version and a limit of one: the first rank flushes the next version, records it and trims before
      the second has flushed its part. No version is left that both can restore. */
  lemma EarlyTrimLosesAll() returns (states: seq<State>, steps: seq<Step>)
    ensures Run({0, 1}, 1, states, steps) && states[0] == START
    ensures var s := states[|steps|]; s.ever == {1} && Stored({0, 1}, s.files) == {}
  {
    hide Run;
    states, steps := FirstRankFlushes();
    assert 1 !in states[|steps|].files[2].done;
    states, steps := Extend({0, 1}, 1, states, steps, Record(0, 2));
    assert Of(states[|steps|].histories, 0) == {1, 2};
    LeastOf({1, 2}, 1);
    states, steps := Extend({0, 1}, 1, states, steps, Remove(0, true));
  }
}
