/** Keeping the newest versions on persistent storage, for one checkpoint name and id: flushes, lookups, recording and
    trimming (transfer_module.cpp, versioning_module.cpp) as separate steps, in any order, with crashes between any two. */
module Retention {
  import opened Sets

  /** What is on storage: versions that are complete (`stored`) and those a flush has begun and not finished (`partial`);
      `torn` are the partial ones that were complete before. `history` is the module's `persistent_history` entry.
      Over the whole run: every version that was complete at some time (`ever`), or in the history (`seen`).
      Since the last lookup: every version that was in the history (`recent`), or found or made complete (`whole`). */
  datatype State = State(
    stored: set<int>, partial: set<int>, torn: set<int>, history: set<int>,
    ever: set<int>, seen: set<int>, recent: set<int>, whole: set<int>)

  datatype Step =
    | Load
    | Begin(v: int)
    | End(v: int)
    | Record(v: int)
    | Remove(ok: bool)
    | Restart(v: int)
    | Crash

  predicate Enabled(k: nat, s: State, step: Step) {
    match step
    case End(v) => v in s.partial
    case Remove(_) => |s.history| > k
    case Restart(v) => v in s.stored + s.partial
    case _ => true
  }

  function Apply(k: nat, s: State, step: Step): (s': State)
    requires Enabled(k, s, step)
  {
    match step
    // TEST lists the storage directory, complete files or not
    case Load =>
      var found := s.stored + s.partial;
      s.(history := found, seen := s.seen + found, recent := found, whole := s.stored)
    case Begin(v) =>
      s.(stored := s.stored - {v}, partial := s.partial + {v}, torn := if v in s.stored then s.torn + {v} else s.torn)
    case End(v) =>
      s.(stored := s.stored + {v}, partial := s.partial - {v}, torn := s.torn - {v}, ever := s.ever + {v}, whole := s.whole + {v})
    // a CHECKPOINT is recorded whether its flush was performed or put off
    case Record(v) => s.(history := s.history + {v}, seen := s.seen + {v}, recent := s.recent + {v})
    case Remove(ok) =>
      var m := Least(s.history);
      if ok then s.(history := s.history - {m}, stored := s.stored - {m}, partial := s.partial - {m}, torn := s.torn - {m})
      else s.(history := s.history - {m})
    // RESTART looks whether the file is there, not whether it is complete
    case Restart(v) => s.(history := s.history + {v}, seen := s.seen + {v}, recent := s.recent + {v})
    case Crash => s.(history := {}, recent := {}, whole := {})
  }

  /** Storage holds some complete versions, and the history is not loaded. */
  predicate Initial(s: State) {
    s == State(s.stored, {}, {}, {}, s.stored, {}, {}, {})
  }

  ghost predicate Run(k: nat, states: seq<State>, steps: seq<Step>) {
    && |states| == |steps| + 1 && Initial(states[0])
    && forall i :: 0 <= i < |steps| ==> Enabled(k, states[i], steps[i]) && states[i + 1] == Apply(k, states[i], steps[i])
  }

  // ---- crash safety ----

  /** Of the newest versions ever complete or known, those that were complete are still there: complete, or being
      written over. */
  ghost predicate Durable(k: nat, s: State) {
    && s.stored <= s.ever && s.whole <= s.ever && s.history <= s.recent <= s.seen
    && forall x :: x in Newest(s.ever + s.seen, k) && x in s.ever ==> x in s.stored || x in s.torn
  }

  lemma InitialDurable(k: nat, s: State)
    requires Initial(s)
    ensures Durable(k, s)
  {
    NewestKeeps(s.ever + s.seen, k);
  }

  lemma GrowthKeepsDurable(k: nat, s: State, s': State, x: set<int>)
    requires Durable(k, s) && s'.ever + s'.seen == s.ever + s.seen + x
    requires s'.stored <= s'.ever && s'.whole <= s'.ever && s'.history <= s'.recent <= s'.seen
    requires forall y :: y in s.stored || y in s.torn ==> y in s'.stored || y in s'.torn
    requires forall y :: y in s'.ever && y !in s.ever ==> y in s'.stored
    ensures Durable(k, s')
  {
    NewestAdds(s.ever + s.seen, x - s.ever - s.seen, k);
    assert s.ever + s.seen + x == s.ever + s.seen + (x - s.ever - s.seen);
    hide Newest;
  }

  lemma RemoveKeepsDurable(k: nat, s: State, ok: bool)
    requires Durable(k, s) && Enabled(k, s, Remove(ok))
    ensures Durable(k, Apply(k, s, Remove(ok)))
  {
    LeastIsOld(s.ever + s.seen, s.history, k);
    hide Newest, Least;
  }

  lemma StepKeepsDurable(k: nat, s: State, step: Step)
    requires Durable(k, s) && Enabled(k, s, step)
    ensures Durable(k, Apply(k, s, step))
  {
    if step.Remove? {
      RemoveKeepsDurable(k, s, step.ok);
    } else if !step.Begin? && !step.Crash? {
      var s', x := Apply(k, s, step), if step.Load? then s.partial else {step.v};
      assert s'.ever + s'.seen == s.ever + s.seen + x;
      GrowthKeepsDurable(k, s, s', x);
    }
  }

  /** In every run, whatever is skipped, fails, crashes, is looked up or written over. */
  lemma {:induction false} AlwaysDurable(k: nat, states: seq<State>, steps: seq<Step>, i: nat)
    requires Run(k, states, steps) && i < |states|
    ensures Durable(k, states[i])
  {
    if i == 0 {
      InitialDurable(k, states[0]);
    } else {
      AlwaysDurable(k, states, steps, i - 1);
      StepKeepsDurable(k, states[i - 1], steps[i - 1]);
    }
  }

  function Quota(ever: set<int>, k: nat): (n: nat) {
    if |ever| <= k then |ever| else k
  }

  lemma DurableEnough(k: nat, s: State)
    requires Durable(k, s) && s.seen <= s.ever && s.torn == {}
    ensures Newest(s.ever, k) <= s.stored && |s.stored| >= Quota(s.ever, k)
  {
    assert s.ever + s.seen == s.ever;
    NewestKeeps(s.ever, k);
    SubsetSize(Newest(s.ever, k), s.stored);
  }

  /** No point of any run has fewer complete versions than the limit, or than were ever complete, and the newest are
      among them, if no version entered the history that was never complete and no complete file is being written over. */
  lemma NeverFewer(k: nat, states: seq<State>, steps: seq<Step>, i: nat)
    requires Run(k, states, steps) && i < |states| && states[i].seen <= states[i].ever && states[i].torn == {}
    ensures Newest(states[i].ever, k) <= states[i].stored && |states[i].stored| >= Quota(states[i].ever, k)
  {
    AlwaysDurable(k, states, steps, i);
    DurableEnough(k, states[i]);
  }

  // ---- when exactly the newest versions are kept ----

  ghost predicate NewestStored(k: nat, s: State) {
    Newest(s.ever, k) <= s.stored
  }

  /** The step takes one of the newest versions ever complete: a flush writes over it, or trimming removes it. */
  predicate Takes(k: nat, s: State, step: Step) {
    match step
    case Begin(v) => v in Newest(s.ever, k)
    case Remove(ok) => ok && |s.history| > k && Least(s.history) in Newest(s.ever, k)
    case _ => false
  }

  lemma TakesIff(k: nat, s: State, step: Step)
    requires Enabled(k, s, step) && s.stored <= s.ever && NewestStored(k, s)
    ensures NewestStored(k, Apply(k, s, step)) <==> !Takes(k, s, step)
  {
    hide Newest, Least;
    var s' := Apply(k, s, step);
    assert s'.ever == s.ever + s'.stored;
    KeptStep(s.stored, s.ever, s'.stored, k);
  }

  lemma InitialStored(k: nat, s: State)
    requires Initial(s)
    ensures NewestStored(k, s)
  {
    NewestKeeps(s.ever, k);
  }

  lemma StoredInEver(k: nat, states: seq<State>, steps: seq<Step>, i: nat)
    requires Run(k, states, steps) && i < |states|
    ensures states[i].stored <= states[i].ever
  {
    AlwaysDurable(k, states, steps, i);
  }

  /** In every run, with everything that can be skipped, fail, crash or be written over: the newest versions ever complete
      are stored all along exactly when no step has taken one of them. */
  lemma {:induction false} NewestKeptIff(k: nat, states: seq<State>, steps: seq<Step>, i: nat)
    requires Run(k, states, steps) && i < |states|
    ensures (forall j :: 0 <= j <= i ==> NewestStored(k, states[j])) <==> (forall j :: 0 <= j < i ==> !Takes(k, states[j], steps[j]))
  {
    hide NewestStored, Takes, Durable, Apply, Enabled;
    if i == 0 {
      InitialStored(k, states[0]);
    } else {
      NewestKeptIff(k, states, steps, i - 1);
      StoredInEver(k, states, steps, i - 1);
      assert Enabled(k, states[i - 1], steps[i - 1]) && states[i - 1 + 1] == Apply(k, states[i - 1], steps[i - 1]);
      if NewestStored(k, states[i - 1]) {
        TakesIff(k, states[i - 1], steps[i - 1]);
      }
    }
  }

  // ---- exact retention since a lookup ----

  /** Removals succeed, nothing crashes, and no version is flushed or recorded that is complete on storage or was
      retired since the lookup. */
  predicate Orderly(s: State, step: Step) {
    match step
    case Begin(v) => v !in s.stored && (v in s.recent ==> v in s.history)
    case Record(v) => v in s.recent ==> v in s.history
    case Remove(ok) => ok
    case Crash => false
    case _ => true
  }

  /** The history holds the newest of all versions it has held since the lookup, and exactly those complete versions
      are gone that were retired from it. */
  ghost predicate Tracked(k: nat, s: State) {
    && Newest(s.recent, k) <= s.history <= s.recent
    && (forall x :: x in s.stored <==> x in s.whole && (x in s.recent ==> x in s.history))
    && (forall x :: x in s.partial && x in s.recent ==> x in s.history)
  }

  lemma LoadTracks(k: nat, s: State)
    ensures Tracked(k, Apply(k, s, Load))
  {
    NewestKeeps(s.stored + s.partial, k);
  }

  lemma RemoveTracks(k: nat, s: State)
    requires Tracked(k, s) && |s.history| > k
    ensures Tracked(k, Apply(k, s, Remove(true)))
  {
    hide Newest, Least;
    LeastIsOld(s.recent, s.history, k);
  }

  lemma RecordTracks(k: nat, s: State, v: int)
    requires Tracked(k, s)
    requires v in s.recent ==> v in s.history || v in s.stored + s.partial
    ensures Tracked(k, Apply(k, s, Record(v)))
  {
    hide Newest;
    NewestAdds(s.recent, {v}, k);
  }

  lemma StepKeepsTracked(k: nat, s: State, step: Step)
    requires Tracked(k, s) && Enabled(k, s, step) && Orderly(s, step)
    ensures Tracked(k, Apply(k, s, step))
  {
    hide Newest, Least;
    match step
    case Load => LoadTracks(k, s);
    case Remove(_) => RemoveTracks(k, s);
    case Record(v) => RecordTracks(k, s, v);
    case Restart(v) => RecordTracks(k, s, v);
    case _ =>
  }

  lemma {:induction false} TrackedSince(k: nat, states: seq<State>, steps: seq<Step>, j: nat, i: nat)
    requires Run(k, states, steps) && j < i < |states| && steps[j] == Load
    requires forall l :: j < l < i ==> Orderly(states[l], steps[l])
    ensures Tracked(k, states[i])
  {
    if i == j + 1 {
      LoadTracks(k, states[j]);
    } else {
      TrackedSince(k, states, steps, j, i - 1);
      StepKeepsTracked(k, states[i - 1], steps[i - 1]);
    }
  }

  lemma TrimmedState(k: nat, s: State)
    requires Tracked(k, s) && |s.history| <= k
    ensures s.history == Newest(s.recent, k)
    ensures s.stored * s.recent == s.whole * Newest(s.recent, k)
  {
    Squeezed(s.recent, s.history, k);
    forall x ensures x in s.stored * s.recent <==> x in s.whole * s.history {}
  }

  /** After trimming, storage holds the complete ones among the newest versions since the lookup. */
  lemma RetainsFlushedNewest(k: nat, states: seq<State>, steps: seq<Step>, j: nat, i: nat)
    requires Run(k, states, steps) && j < i < |states| && steps[j] == Load && |states[i].history| <= k
    requires forall l :: j < l < i ==> Orderly(states[l], steps[l])
    ensures var s := states[i]; s.history == Newest(s.recent, k) && s.stored * s.recent == s.whole * Newest(s.recent, k)
  {
    TrackedSince(k, states, steps, j, i);
    TrimmedState(k, states[i]);
  }

  /** Of a set of versions, as many as there should be are complete among the newest exactly when every one of the
      newest is complete, or no complete one has been pushed out of them. */
  lemma EnoughOf(recent: set<int>, whole: set<int>, k: nat)
    requires whole <= recent
    ensures |whole * Newest(recent, k)| >= Quota(whole, k) <==> Newest(recent, k) <= whole || whole <= Newest(recent, k)
  {
    NewestKeeps(recent, k);
    var r := Newest(recent, k);
    SubsetSize(whole, recent);
    SubsetSize(whole * r, whole);
    SubsetSize(whole * r, r);
    if r <= whole {
      assert whole * r == r;
    }
    if whole <= r {
      assert whole * r == whole;
    }
  }

  lemma TrimmedEnough(k: nat, s: State)
    requires Tracked(k, s) && Durable(k, s) && |s.history| <= k && s.stored <= s.recent
    ensures |s.stored| >= Quota(s.ever, k)
       <==> |s.whole| >= Quota(s.ever, k) && (Newest(s.recent, k) <= s.whole || s.whole <= Newest(s.recent, k))
  {
    TrimmedState(k, s);
    hide Newest;
    assert s.stored == s.stored * s.recent;
    forall x | x in s.whole ensures x in s.recent {}
    EnoughOf(s.recent, s.whole, k);
    SubsetSize(s.whole, s.ever);
    SubsetSize(s.stored, s.whole);
  }

  /** After a CHECKPOINT has trimmed, enough complete versions remain exactly when there were enough since the lookup, and
      each of the newest since then is complete or no complete one has been pushed out of them by others: by an
      incomplete file that a TEST or a RESTART found, or by a flush that was put off. */
  lemma EnoughRemainIff(k: nat, states: seq<State>, steps: seq<Step>, j: nat, i: nat)
    requires Run(k, states, steps) && j < i < |states| && steps[j] == Load && |states[i].history| <= k
    requires forall l :: j < l < i ==> Orderly(states[l], steps[l])
    requires states[i].stored <= states[i].recent
    ensures var s := states[i];
      |s.stored| >= Quota(s.ever, k) <==>
        |s.whole| >= Quota(s.ever, k) && (Newest(s.recent, k) <= s.whole || s.whole <= Newest(s.recent, k))
  {
    AlwaysDurable(k, states, steps, i);
    TrackedSince(k, states, steps, j, i);
    TrimmedEnough(k, states[i]);
  }

  lemma TrimmedNewest(k: nat, s: State)
    requires Tracked(k, s) && Durable(k, s) && |s.history| <= k && s.seen <= s.ever && s.torn == {}
    ensures Newest(s.ever, k) <= s.stored && |s.stored - Newest(s.ever, k)| <= |s.stored - s.recent|
  {
    DurableEnough(k, s);
    TrimmedState(k, s);
    NewestKeeps(s.ever, k);
    hide Newest;
    assert s.stored * s.recent <= s.history;
    SubsetSize(s.stored * s.recent, s.history);
    ExtraSize(s.stored, s.recent, Newest(s.ever, k));
  }

  /** If, in addition, no version entered the history that was never complete, the newest versions ever complete are
      stored, and at most as many others as there are complete versions that have not been recorded yet. */
  lemma RetainsNewest(k: nat, states: seq<State>, steps: seq<Step>, j: nat, i: nat)
    requires Run(k, states, steps) && j < i < |states| && steps[j] == Load && |states[i].history| <= k
    requires forall l :: j < l < i ==> Orderly(states[l], steps[l])
    requires states[i].seen <= states[i].ever && states[i].torn == {}
    ensures var s := states[i]; Newest(s.ever, k) <= s.stored && |s.stored - Newest(s.ever, k)| <= |s.stored - s.recent|
    ensures states[i].stored <= states[i].recent ==> states[i].stored == Newest(states[i].ever, k)
  {
    AlwaysDurable(k, states, steps, i);
    TrackedSince(k, states, steps, j, i);
    TrimmedNewest(k, states[i]);
    hide Newest;
    var s := states[i];
    if s.stored <= s.recent {
      assert s.stored - s.recent == {};
      assert s.stored - Newest(s.ever, k) == {};
    }
  }

  // ---- runs in which versions are lost ----

  lemma Extend(k: nat, states: seq<State>, steps: seq<Step>, step: Step) returns (states': seq<State>, steps': seq<Step>)
    requires Run(k, states, steps) && Enabled(k, states[|steps|], step)
    ensures Run(k, states', steps') && |states'| == |steps'| + 1 && steps' == steps + [step]
    ensures states'[0] == states[0] && states'[|steps'|] == Apply(k, states[|steps|], step)
  {
    states', steps' := states + [Apply(k, states[|steps|], step)], steps + [step];
  }

  lemma EmptyRun(k: nat, s: State)
    requires Initial(s)
    ensures Run(k, [s], [])
  {
  }

  lemma RunLength(k: nat, states: seq<State>, steps: seq<Step>)
    requires Run(k, states, steps)
    ensures |states| == |steps| + 1
  {
  }

  /** One stored version, a limit of one, and one CHECKPOINT whose flush is put off: nothing complete is left. */
  lemma SkippingLosesAll() returns (states: seq<State>, steps: seq<Step>)
    ensures Run(1, states, steps) && states[0].stored == {1}
    ensures states[|steps|].stored == {} && states[|steps|].ever == {1} && |states[|steps|].history| <= 1
  {
    hide Run;
    var s0 := State({1}, {}, {}, {}, {1}, {}, {}, {});
    EmptyRun(1, s0);
    states, steps := [s0], [];
    states, steps := Extend(1, states, steps, Load);
    states, steps := Extend(1, states, steps, Record(2));
    assert states[|steps|].history == {1, 2};
    LeastOf({1, 2}, 1);
    states, steps := Extend(1, states, steps, Remove(true));
    assert states[|steps|].history == {2};
  }

  /** Two stored versions and a crash in the flush of a third. */
  lemma CrashInFlush() returns (states: seq<State>, steps: seq<Step>)
    ensures Run(2, states, steps) && states[0].stored == {1, 2}
    ensures states[|steps|] == State({1, 2}, {3}, {}, {}, {1, 2}, {}, {}, {})
  {
    hide Run;
    var s0 := State({1, 2}, {}, {}, {}, {1, 2}, {}, {}, {});
    EmptyRun(2, s0);
    states, steps := [s0], [];
    states, steps := Extend(2, states, steps, Begin(3));
    states, steps := Extend(2, states, steps, Crash);
  }

  lemma LookupAfterCrash() returns (states: seq<State>, steps: seq<Step>)
    ensures Run(2, states, steps) && |states| == |steps| + 1 && states[0].stored == {1, 2}
    ensures var s := states[|steps|]; s.history == {1, 2, 3} && s.stored == {1, 2} && s.ever == {1, 2}
  {
    hide Run;
    states, steps := CrashInFlush();
    states, steps := Extend(2, states, steps, Load);
  }

  lemma Checkpoint4(states: seq<State>, steps: seq<Step>) returns (states': seq<State>, steps': seq<Step>)
    requires Run(2, states, steps)
    ensures Run(2, states', steps') && |states'| == |steps'| + 1 && states'[0] == states[0]
    ensures var s, s' := states[|steps|], states'[|steps'|];
      s'.history == s.history + {4} && s'.stored == s.stored + {4} && s'.ever == s.ever + {4}
  {
    hide Run;
    states', steps' := Extend(2, states, steps, Begin(4));
    states', steps' := Extend(2, states', steps', End(4));
    states', steps' := Extend(2, states', steps', Record(4));
  }

  /** Trimming removes the least version of the history. */
  lemma RemoveLeast(states: seq<State>, steps: seq<Step>, m: int) returns (states': seq<State>, steps': seq<Step>)
    requires Run(2, states, steps) && |states[|steps|].history| > 2
    requires m in states[|steps|].history && forall x :: x in states[|steps|].history ==> m <= x
    ensures Run(2, states', steps') && |states'| == |steps'| + 1 && states'[0] == states[0]
    ensures var s, s' := states[|steps|], states'[|steps'|];
      s'.history == s.history - {m} && s'.stored == s.stored - {m} && s'.ever == s.ever
  {
    LeastOf(states[|steps|].history, m);
    hide Run;
    states', steps' := Extend(2, states, steps, Remove(true));
  }

  /** After the crash a TEST takes the incomplete file for a stored version: the next CHECKPOINT leaves only one. */
  lemma PartialFileCosts() returns (states: seq<State>, steps: seq<Step>)
    ensures Run(2, states, steps) && states[0].stored == {1, 2}
    ensures states[|steps|].stored == {4} && states[|steps|].ever == {1, 2, 4} && |states[|steps|].history| <= 2
  {
    hide Run, Apply, Enabled;
    states, steps := LookupAfterCrash();
    states, steps := Checkpoint4(states, steps);
    assert states[|steps|].history == {1, 2, 3, 4} && states[|steps|].stored == {1, 2, 4};
    states, steps := RemoveLeast(states, steps, 1);
    assert states[|steps|].history == {2, 3, 4} && states[|steps|].stored == {2, 4};
    states, steps := RemoveLeast(states, steps, 2);
    assert states[|steps|].history == {3, 4} && states[|steps|].stored == {4};
  }

  /** After the crash a RESTART of the incomplete version records it: the next CHECKPOINT removes a complete version that
      is among the newest two. */
  lemma PartialRestartCosts() returns (states: seq<State>, steps: seq<Step>)
    ensures Run(2, states, steps) && states[0].stored == {1, 2}
    ensures states[|steps|].stored == {1, 4} && states[|steps|].ever == {1, 2, 4} && |states[|steps|].history| <= 2
  {
    hide Run;
    states, steps := CrashInFlush();
    states, steps := Extend(2, states, steps, Restart(3));
    states, steps := Extend(2, states, steps, Restart(2));
    assert states[|steps|].history == {2, 3};
    states, steps := Checkpoint4(states, steps);
    assert states[|steps|].history == {2, 3, 4} && states[|steps|].stored == {1, 2, 4};
    states, steps := RemoveLeast(states, steps, 2);
    assert states[|steps|].history == {3, 4} && states[|steps|].stored == {1, 4};
  }

  /** A flush of a version that is already complete writes over the file: a crash in it leaves nothing complete. */
  lemma RewritingLosesAll() returns (states: seq<State>, steps: seq<Step>)
    ensures Run(1, states, steps) && states[0].stored == {1}
    ensures states[|steps|].stored == {} && states[|steps|].ever == {1}
  {
    hide Run;
    var s0 := State({1}, {}, {}, {}, {1}, {}, {}, {});
    EmptyRun(1, s0);
    states, steps := [s0], [];
    states, steps := Extend(1, states, steps, Begin(1));
    states, steps := Extend(1, states, steps, Crash);
  }

  // ---- several steps at once ----

  predicate Allowed(k: nat, s: State, steps: seq<Step>)
    decreases |steps|
  {
    steps == [] || (Enabled(k, s, steps[0]) && Allowed(k, Apply(k, s, steps[0]), steps[1..]))
  }

  function After(k: nat, s: State, steps: seq<Step>): (s': State)
    requires Allowed(k, s, steps)
    decreases |steps|
  {
    if steps == [] then s else After(k, Apply(k, s, steps[0]), steps[1..])
  }

  lemma Cons(k: nat, s: State, step: Step, steps: seq<Step>)
    requires Enabled(k, s, step) && Allowed(k, Apply(k, s, step), steps)
    ensures Allowed(k, s, [step] + steps) && After(k, s, [step] + steps) == After(k, Apply(k, s, step), steps)
  {
    assert ([step] + steps)[1..] == steps;
  }

  lemma One(k: nat, s: State, step: Step)
    requires Enabled(k, s, step)
    ensures Allowed(k, s, [step]) && After(k, s, [step]) == Apply(k, s, step)
  {
    Cons(k, s, step, []);
    assert [step] + [] == [step];
  }

  lemma None(k: nat, s: State)
    ensures Allowed(k, s, []) && After(k, s, []) == s
  {
  }

  lemma First(k: nat, s: State, steps: seq<Step>)
    requires steps != [] && Allowed(k, s, steps)
    ensures Enabled(k, s, steps[0])
  {
  }

  predicate AllOrderly(k: nat, s: State, steps: seq<Step>)
    requires Allowed(k, s, steps)
    decreases |steps|
  {
    steps == [] || (Orderly(s, steps[0]) && AllOrderly(k, Apply(k, s, steps[0]), steps[1..]))
  }

  lemma OrderlyCons(k: nat, s: State, step: Step, steps: seq<Step>)
    requires Enabled(k, s, step) && Allowed(k, Apply(k, s, step), steps)
    requires Orderly(s, step) && AllOrderly(k, Apply(k, s, step), steps)
    ensures Allowed(k, s, [step] + steps) && AllOrderly(k, s, [step] + steps)
  {
    assert ([step] + steps)[1..] == steps;
  }

  lemma OrderlyOne(k: nat, s: State, step: Step)
    requires Enabled(k, s, step) && Orderly(s, step)
    ensures Allowed(k, s, [step]) && AllOrderly(k, s, [step])
  {
    OrderlyCons(k, s, step, []);
    assert [step] + [] == [step];
  }

  lemma OrderlyNone(k: nat, s: State)
    ensures Allowed(k, s, []) && AllOrderly(k, s, [])
  {
  }

  lemma {:induction false} StepsKeepTracked(k: nat, s: State, steps: seq<Step>)
    requires Tracked(k, s) && Allowed(k, s, steps) && AllOrderly(k, s, steps)
    ensures Tracked(k, After(k, s, steps))
    decreases |steps|
  {
    if steps != [] {
      StepKeepsTracked(k, s, steps[0]);
      StepsKeepTracked(k, Apply(k, s, steps[0]), steps[1..]);
    }
  }

  lemma {:induction false} ExtendAll(k: nat, states: seq<State>, steps: seq<Step>, more: seq<Step>)
    returns (states': seq<State>, steps': seq<Step>)
    requires Run(k, states, steps) && Allowed(k, states[|steps|], more)
    ensures Run(k, states', steps')
    ensures states'[0] == states[0] && states'[|steps'|] == After(k, states[|steps|], more)
    decreases |more|
  {
    hide Run;
    if more == [] {
      states', steps' := states, steps;
    } else {
      states', steps' := Extend(k, states, steps, more[0]);
      states', steps' := ExtendAll(k, states', steps', more[1..]);
    }
  }
}
