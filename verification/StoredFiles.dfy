/** What a step of the backend does to the files of one checkpoint name and id on persistent storage: it amounts to a few
    steps of the retention protocol. */
module StoredFiles {
  import opened Bytes
  import opened Naming
  import opened Sets
  import opened Pipeline
  import opened PipelineSafety
  import opened RestartTest
  import opened EndToEnd
  import opened Status
  import R = Retention

  predicate Mine(w: Command, c: Command) {
    w.name == c.name && w.id == c.id
  }

  predicate Has(dir: Dir, c: Command, v: nat) {
    Stem(c.name, c.id, v) in dir
  }

  /** Step `st` calls module `m` for a command of kind `kind` on the name and id of `c`. */
  predicate MyCall(cfg: Config, y: System, st: Step, m: Module, kind: Kind, c: Command) {
    && Enabled(cfg, y, st) && st.Advance? && Modules(cfg)[y.works[st.t].k] == m
    && y.works[st.t].c.kind == kind && Mine(y.works[st.t].c, c)
  }

  // ---- the steps of the protocol that a step of the backend amounts to ----

  /** A flush writes to the file of version `v`. */
  predicate Touches(cfg: Config, y: System, st: Step, c: Command, v: nat) {
    && MyCall(cfg, y, st, Transfer, Checkpoint, c) && y.works[st.t].c.version == v
    && cfg.storage && cfg.interval >= 0 && !Throttled(cfg, y.s, y.works[st.t].c, st.env)
    && Has(y.s.scratch, c, v) && (st.env.io || st.env.left.Some?)
  }

  predicate Stuck(c: Command, stuck: set<string>, v: int) {
    v >= 0 && Stem(c.name, c.id, v) in stuck
  }

  function Removals(k: nat, h: set<int>, c: Command, stuck: set<string>): (r: seq<R.Step>)
    decreases |h|
  {
    if |h| <= k then [] else [R.Remove(!Stuck(c, stuck, Least(h)))] + Removals(k, h - {Least(h)}, c, stuck)
  }

  function VersioningMoves(cfg: Config, s: State, w: Command, env: Env): (r: seq<R.Step>) {
    match w.kind
    case Test => [R.Load]
    case Restart => if StemOf(w) in s.persistent then [R.Restart(w.version)] else []
    case Checkpoint =>
      [R.Record(w.version)] + Removals(cfg.maxVersions, Known(s.history, w) + {w.version}, w, env.stuckPersistent)
    case Init => []
  }

  function FlushMoves(v: int, io: bool): (r: seq<R.Step>) {
    if io then [R.Begin(v), R.End(v)] else [R.Begin(v)]
  }

  /** The version that the step flushes. */
  function Touched(cfg: Config, y: System, st: Step, c: Command): (r: Option<nat>)
    requires Enabled(cfg, y, st)
  {
    if st.Advance? && Touches(cfg, y, st, c, y.works[st.t].c.version) then Some(y.works[st.t].c.version) else None
  }

  function Moves(cfg: Config, y: System, st: Step, c: Command): (r: seq<R.Step>)
    requires Enabled(cfg, y, st)
  {
    if st.Reboot? then [R.Crash]
    else if !st.Advance? || !Mine(y.works[st.t].c, c) then []
    else if Modules(cfg)[y.works[st.t].k] == Versioning then VersioningMoves(cfg, y.s, y.works[st.t].c, st.env)
    else if Touched(cfg, y, st, c) == None then []
    else FlushMoves(y.works[st.t].c.version, st.env.io)
  }

  // ---- what the protocol knows of the files ----

  ghost predicate IsOf(f: string, c: Command) {
    exists v: nat :: f == Stem(c.name, c.id, v)
  }

  ghost function VersionIn(f: string, c: Command): (v: nat)
    requires IsOf(f, c)
    ensures f == Stem(c.name, c.id, v)
  {
    var v: nat :| f == Stem(c.name, c.id, v);
    v
  }

  /** The versions of a name and id that have a file. */
  ghost function Shelf(dir: Dir, c: Command): (r: set<int>)
    requires ValidName(c.name)
    ensures forall v: int :: v in r <==> v >= 0 && Has(dir, c, v)
  {
    var r: set<int> := set f | f in dir && IsOf(f, c) :: VersionIn(f, c);
    assert forall v: int :: v in r <==> v >= 0 && Has(dir, c, v) by {
      forall v: nat | Has(dir, c, v) ensures v in r {
        var f := Stem(c.name, c.id, v);
        StemInjective(c.name, c.id, VersionIn(f, c), c.name, c.id, v);
      }
    }
    r
  }

  lemma ShelfLess(dir: Dir, dir': Dir, c: Command, gone: set<int>)
    requires ValidName(c.name) && forall v: nat :: Has(dir', c, v) <==> Has(dir, c, v) && v !in gone
    ensures Shelf(dir', c) == Shelf(dir, c) - gone
  {
  }

  ghost predicate Sim(s: State, a: R.State, c: Command)
    requires ValidName(c.name)
  {
    && a.history == Known(s.history, c)
    && a.stored + a.partial == Shelf(s.persistent, c) && a.stored !! a.partial && a.stored <= a.ever
  }

  /** The complete versions after a step: a flush makes its own version complete or not, and a file that is gone is not
      complete any more. */
  function Completed(stored: set<int>, shelf: set<int>, touched: Option<nat>, io: bool): (r: set<int>) {
    match touched
    case None => stored * shelf
    case Some(v) => if io then stored * shelf + {v} else stored * shelf - {v}
  }

  /** The protocol allows the moves of a step, and they lead where the step leads. */
  ghost predicate Leads(r: State, a: R.State, c: Command, k: nat, moves: seq<R.Step>, touched: Option<nat>, io: bool)
    requires ValidName(c.name)
  {
    && R.Allowed(k, a, moves)
    && var a' := R.After(k, a, moves);
    && Sim(r, a', c) && a'.ever == a.ever + a'.stored && a'.stored == Completed(a.stored, Shelf(r.persistent, c), touched, io)
  }

  ghost predicate Matches(cfg: Config, y: System, st: Step, c: Command, a: R.State)
    requires Enabled(cfg, y, st) && ValidName(c.name)
  {
    Leads(Apply(cfg, y, st).s, a, c, cfg.maxVersions, Moves(cfg, y, st, c), Touched(cfg, y, st, c), st.Advance? && st.env.io)
  }

  /** The history and the files of a name and id are as before. */
  ghost predicate SameShelf(s: State, r: State, c: Command)
    requires ValidName(c.name)
  {
    Known(r.history, c) == Known(s.history, c) && Shelf(r.persistent, c) == Shelf(s.persistent, c)
  }

  lemma NothingLeads(s: State, r: State, a: R.State, c: Command, k: nat, io: bool)
    requires ValidName(c.name) && Sim(s, a, c) && SameShelf(s, r, c)
    ensures Leads(r, a, c, k, [], None, io)
  {
    hide Shelf, ValidName;
  }

  lemma CrashLeads(s: State, r: State, a: R.State, c: Command, k: nat, io: bool)
    requires ValidName(c.name) && Sim(s, a, c) && Known(r.history, c) == {} && r.persistent == s.persistent
    ensures Leads(r, a, c, k, [R.Crash], None, io)
  {
    hide Shelf, ValidName, R.Allowed, R.After;
    R.One(k, a, R.Crash);
  }

  lemma FlushLeads(s: State, r: State, a: R.State, c: Command, k: nat, v: nat, io: bool)
    requires ValidName(c.name) && Sim(s, a, c) && Known(r.history, c) == Known(s.history, c)
    requires Shelf(r.persistent, c) == Shelf(s.persistent, c) + {v}
    ensures Leads(r, a, c, k, FlushMoves(v, io), Some(v), io)
  {
    hide Shelf, ValidName, R.Allowed, R.After;
    var b := R.Apply(k, a, R.Begin(v));
    R.One(k, a, R.Begin(v));
    if io {
      R.One(k, b, R.End(v));
      R.Cons(k, a, R.Begin(v), [R.End(v)]);
      assert [R.Begin(v)] + [R.End(v)] == FlushMoves(v, true);
    }
  }

  lemma LoadLeads(s: State, r: State, a: R.State, c: Command, k: nat, io: bool)
    requires ValidName(c.name) && Sim(s, a, c) && r.persistent == s.persistent && Known(r.history, c) == Shelf(s.persistent, c)
    ensures Leads(r, a, c, k, [R.Load], None, io)
  {
    hide Shelf, ValidName, R.Allowed, R.After;
    R.One(k, a, R.Load);
  }

  lemma RestartLeads(s: State, r: State, a: R.State, c: Command, k: nat, v: nat, io: bool)
    requires ValidName(c.name) && Sim(s, a, c) && r.persistent == s.persistent && v in Shelf(s.persistent, c)
    requires Known(r.history, c) == Known(s.history, c) + {v}
    ensures Leads(r, a, c, k, [R.Restart(v)], None, io)
  {
    hide Shelf, ValidName, R.Allowed, R.After;
    R.One(k, a, R.Restart(v));
  }

  /** The versions that trimming a history removes from storage. */
  function Gone(k: nat, h: set<int>, c: Command, stuck: set<string>): (r: set<int>) {
    set v | v in h && v !in Newest(h, k) && !Stuck(c, stuck, v)
  }

  lemma GoneNone(k: nat, h: set<int>, c: Command, stuck: set<string>)
    requires |h| <= k
    ensures Gone(k, h, c, stuck) == {}
  {
  }

  lemma GoneStep(k: nat, h: set<int>, c: Command, stuck: set<string>)
    requires |h| > k
    ensures var m := Least(h);
      Gone(k, h, c, stuck) == Gone(k, h - {m}, c, stuck) + if Stuck(c, stuck, m) then {} else {m}
  {
    hide Stuck;
    NewestKeeps(h - {Least(h)}, k);
  }

  lemma {:induction false} RemovalsRun(k: nat, a: R.State, c: Command, stuck: set<string>)
    ensures var moves, gone := Removals(k, a.history, c, stuck), Gone(k, a.history, c, stuck);
      && R.Allowed(k, a, moves)
      && var r := R.After(k, a, moves);
      && r.history == Newest(a.history, k) && r.ever == a.ever && r.stored == a.stored - gone && r.partial == a.partial - gone
    decreases |a.history|
  {
    hide Stuck, R.Allowed, R.After, Gone;
    if |a.history| <= k {
      R.None(k, a);
      GoneNone(k, a.history, c, stuck);
    } else {
      var step := R.Remove(!Stuck(c, stuck, Least(a.history)));
      var b := R.Apply(k, a, step);
      RemovalsRun(k, b, c, stuck);
      GoneStep(k, a.history, c, stuck);
      R.Cons(k, a, step, Removals(k, b.history, c, stuck));
    }
  }

  lemma TrimLeads(s: State, r: State, a: R.State, c: Command, k: nat, v: nat, stuck: set<string>, io: bool)
    requires ValidName(c.name) && Sim(s, a, c) && Known(r.history, c) == Newest(Known(s.history, c) + {v}, k)
    requires Shelf(r.persistent, c) == Shelf(s.persistent, c) - Gone(k, Known(s.history, c) + {v}, c, stuck)
    ensures Leads(r, a, c, k, [R.Record(v)] + Removals(k, Known(s.history, c) + {v}, c, stuck), None, io)
  {
    hide Shelf, ValidName, Gone, R.Allowed, R.After, Newest;
    var b := R.Apply(k, a, R.Record(v));
    RemovalsRun(k, b, c, stuck);
    R.Cons(k, a, R.Record(v), Removals(k, b.history, c, stuck));
    NewestKeeps(b.history, k);
  }

  // ---- module calls that leave a name and id alone ----

  lemma TransferKeepsShelf(cfg: Config, s: State, w: Command, env: Env, c: Command)
    requires ValidName(w.name) && ValidName(c.name) && !(w.kind.Checkpoint? && Mine(w, c))
    ensures SameShelf(s, TransferCall(cfg, s, w, env).0, c)
  {
    hide TransferCall, Stem, ValidName, Shelf;
    TransferFrame(cfg, s, w, env);
    forall v: nat ensures Has(TransferCall(cfg, s, w, env).0.persistent, c, v) <==> Has(s.persistent, c, v) {
      TransferPersistent(cfg, s, w, env, c.(version := v));
    }
    ShelfLess(s.persistent, TransferCall(cfg, s, w, env).0.persistent, c, {});
  }

  lemma TrimKeepsShelf(cfg: Config, s: State, w: Command, env: Env, c: Command)
    requires ValidName(w.name) && ValidName(c.name) && !Mine(w, c)
    ensures SameShelf(s, PersistentTrimmed(cfg, s, w, env), c)
  {
    forall v: nat ensures Has(PersistentTrimmed(cfg, s, w, env).persistent, c, v) <==> Has(s.persistent, c, v) {
      TrimPersistent(cfg, s, w, env, c.(version := v));
    }
    ShelfLess(s.persistent, PersistentTrimmed(cfg, s, w, env).persistent, c, {});
    hide Stem, ValidName, Trimmed, WithoutCheckpoints, WithoutChecksums, Shelf;
  }

  lemma VersioningKeepsShelf(cfg: Config, s: State, w: Command, env: Env, c: Command)
    requires ValidName(w.name) && ValidName(c.name) && !Mine(w, c)
    ensures SameShelf(s, VersioningCall(cfg, s, w, env).0, c)
  {
    hide PersistentTrimmed, Stem, ValidName, Versions, Best, OldScratch, Shelf;
    if w.kind.Checkpoint? {
      TrimKeepsShelf(cfg, s, w, env, c);
    }
  }

  /** A module call for another name or id, and one that neither flushes nor counts versions, changes nothing. */
  lemma OthersKeepShelf(cfg: Config, m: Module, s: State, w: Command, env: Env, c: Command)
    requires ValidName(w.name) && ValidName(c.name)
    requires Mine(w, c) ==> m != Versioning && !(m == Transfer && w.kind.Checkpoint?)
    ensures SameShelf(s, Call(cfg, m, s, w, env).0, c)
  {
    hide WatchdogCall, EcCall, TransferCall, ChksumCall, VersioningCall, ValidName, Shelf;
    match m
    case Watchdog => WatchdogFrame(cfg, s, w, env);
    case Ec => EcFrame(cfg, s, w, env);
    case Transfer => TransferKeepsShelf(cfg, s, w, env, c);
    case Chksum => ChksumFrame(cfg, s, w, env);
    case Versioning => VersioningKeepsShelf(cfg, s, w, env, c);
  }

  // ---- a flush ----

  lemma UntouchedFlush(cfg: Config, s: State, w: Command, env: Env, c: Command)
    requires w.kind.Checkpoint? && ValidName(c.name)
    requires !(cfg.storage && cfg.interval >= 0 && !Throttled(cfg, s, w, env) && StemOf(w) in s.scratch && (env.io || env.left.Some?))
    ensures SameShelf(s, TransferCall(cfg, s, w, env).0, c)
  {
    hide Stem, Throttled, Overwrite, Shelf, ValidName;
  }

  lemma UntouchedFiles(cfg: Config, s: State, w: Command, env: Env)
    requires w.kind.Checkpoint?
    requires !(cfg.storage && cfg.interval >= 0 && !Throttled(cfg, s, w, env) && StemOf(w) in s.scratch && (env.io || env.left.Some?))
    ensures TransferCall(cfg, s, w, env).0.persistent == s.persistent
  {
    hide Stem, Throttled, Overwrite;
  }

  lemma VersioningFiles(cfg: Config, s: State, w: Command, env: Env)
    requires w.kind.Checkpoint?
    ensures VersioningCall(cfg, s, w, env).0.persistent == PersistentTrimmed(cfg, s, w, env).persistent
  {
    hide PersistentTrimmed, Outdated, WithoutScratch;
  }

  /** Storage is not damaged from outside. */
  predicate Undamaged(y: System, st: Step) {
    st.Disturb? ==> st.persistent == y.s.persistent
  }

  lemma SparesOthers(cfg: Config, y: System, st: Step, c: Command)
    requires Undamaged(y, st) && !Calls(cfg, y, st, Transfer, Checkpoint, c) && !MyCall(cfg, y, st, Versioning, Checkpoint, c)
    ensures Spares(cfg, y, st, c)
  {
    hide Modules, Stem, Trimmed;
  }

  lemma TouchedFile(cfg: Config, s: State, w: Command, env: Env)
    requires w.kind.Checkpoint? && cfg.storage && cfg.interval >= 0 && !Throttled(cfg, s, w, env)
    requires StemOf(w) in s.scratch && (env.io || env.left.Some?)
    ensures var r := TransferCall(cfg, s, w, env).0; r.history == s.history && r.persistent.Keys == s.persistent.Keys + {StemOf(w)}
  {
    hide Stem, Throttled, Overwrite;
  }

  lemma TouchedShelf(cfg: Config, s: State, w: Command, env: Env, c: Command)
    requires w.kind.Checkpoint? && cfg.storage && cfg.interval >= 0 && !Throttled(cfg, s, w, env) && Mine(w, c)
    requires StemOf(w) in s.scratch && (env.io || env.left.Some?) && ValidName(c.name)
    ensures Shelf(TransferCall(cfg, s, w, env).0.persistent, c) == Shelf(s.persistent, c) + {w.version}
  {
    TouchedFile(cfg, s, w, env);
    hide TransferCall, Stem, ValidName, Throttled, Shelf;
    forall v: nat ensures Has(TransferCall(cfg, s, w, env).0.persistent, c, v) <==> Has(s.persistent, c, v) || v == w.version {
      if StemOf(w) == Stem(c.name, c.id, v) {
        StemInjective(w.name, w.id, w.version, c.name, c.id, v);
      }
    }
  }

  lemma FlushMatches(cfg: Config, y: System, st: Step, c: Command, a: R.State)
    requires Named(y) && MyCall(cfg, y, st, Transfer, Checkpoint, c) && ValidName(c.name) && Sim(y.s, a, c)
    ensures Matches(cfg, y, st, c, a)
  {
    hide TransferCall, Stem, ValidName, Throttled, Modules, Sim, Leads, SameShelf, Shelf;
    var w := y.works[st.t].c;
    var r := Apply(cfg, y, st).s;
    assert r == TransferCall(cfg, y.s, w, st.env).0;
    if Touches(cfg, y, st, c, w.version) {
      TouchedFile(cfg, y.s, w, st.env);
      TouchedShelf(cfg, y.s, w, st.env, c);
      FlushLeads(y.s, r, a, c, cfg.maxVersions, w.version, st.env.io);
    } else {
      UntouchedFlush(cfg, y.s, w, st.env, c);
      NothingLeads(y.s, r, a, c, cfg.maxVersions, st.env.io);
    }
  }

  // ---- versioning ----

  lemma TrimmedShelf(cfg: Config, s: State, w: Command, env: Env, c: Command)
    requires ValidName(c.name) && Mine(w, c) && w.kind.Checkpoint? && cfg.storage && cfg.maxVersions > 0
    ensures Shelf(VersioningCall(cfg, s, w, env).0.persistent, c)
         == Shelf(s.persistent, c) - Gone(cfg.maxVersions, Known(s.history, c) + {w.version}, c, env.stuckPersistent)
  {
    hide VersioningCall, PersistentTrimmed, Trimmed, Newest, Stem, ValidName, Shelf;
    TrimHistory(cfg, s, w, env);
    var gone := Gone(cfg.maxVersions, Known(s.history, c) + {w.version}, c, env.stuckPersistent);
    forall v: nat ensures Has(VersioningCall(cfg, s, w, env).0.persistent, c, v) <==> Has(s.persistent, c, v) && v !in gone {
      TrimPersistent(cfg, s, w, env, c.(version := v));
    }
    ShelfLess(s.persistent, VersioningCall(cfg, s, w, env).0.persistent, c, gone);
  }

  lemma SameRemovals(k: nat, h: set<int>, w: Command, c: Command, stuck: set<string>)
    requires Mine(w, c)
    ensures Removals(k, h, w, stuck) == Removals(k, h, c, stuck)
    decreases |h|
  {
    if |h| > k {
      SameRemovals(k, h - {Least(h)}, w, c, stuck);
    }
  }

  lemma CheckpointMatches(cfg: Config, y: System, st: Step, c: Command, a: R.State)
    requires Named(y) && MyCall(cfg, y, st, Versioning, Checkpoint, c) && ValidName(c.name)
    requires cfg.storage && cfg.maxVersions > 0 && Sim(y.s, a, c)
    ensures Matches(cfg, y, st, c, a)
  {
    var w, k := y.works[st.t].c, cfg.maxVersions;
    var r := Apply(cfg, y, st).s;
    assert Touched(cfg, y, st, c) == None;
    SameRemovals(k, Known(y.s.history, c) + {w.version}, w, c, st.env.stuckPersistent);
    hide VersioningCall, Touched, Modules, Newest, Stem, ValidName, Sim, Leads, Shelf, Gone, Removals;
    assert r == VersioningCall(cfg, y.s, w, st.env).0;
    TrimHistory(cfg, y.s, w, st.env);
    TrimmedShelf(cfg, y.s, w, st.env, c);
    TrimLeads(y.s, r, a, c, k, w.version, st.env.stuckPersistent, st.env.io);
  }

  lemma StemIsFile(name: string, id: nat, v: nat)
    requires ValidName(name) && Owned(Stem(name, id, v))
    ensures v <= INT_MAX
  {
    var f := Stem(name, id, v);
    DigitsAreIds(id);
    NameHasNoDash(name);
    DigitsHaveNoDash(Digits(id));
    hide Digits, ValidName, AllDigits;
    if n: string, i: nat, w: nat :| IsFile(f, n, i, w) {
      StemInjective(name, id, v, n, i, w);
    } else if n: string, w: nat :| IsShared(f, n, w) {
      NameHasNoDash(n);
      FirstField(name, Digits(id) + ("-" + (Digits(v) + ".dat")), n, "agg" + ("-" + (Digits(w) + ".dat")));
      FirstField(Digits(id), Digits(v) + ".dat", "agg", Digits(w) + ".dat");
    } else {
      var n: string, w: nat, rest: string :| IsEc(f, n, w, rest);
      NameHasNoDash(n);
      FirstField(name, Digits(id) + ("-" + (Digits(v) + ".dat")), n, "ec" + ("-" + (Digits(w) + rest)));
      FirstField(Digits(id), Digits(v) + ".dat", "ec", Digits(w) + rest);
    }
  }

  lemma ListsFiles(dir: Dir, c: Command, v: int)
    requires ValidName(c.name) && '.' !in c.name && c.id <= INT_MAX && Tidy(dir)
    ensures v in Versions(dir, c.name, {c.id}) <==> v in Shelf(dir, c)
  {
    ListingExact(dir, c.name, c.id, {c.id}, v);
    if v >= 0 && Has(dir, c, v) {
      StemIsFile(c.name, c.id, v);
    }
  }

  lemma TestCall(cfg: Config, s: State, c: Command, env: Env)
    requires cfg.storage && c.kind.Test?
    ensures var r := VersioningCall(cfg, s, c, env).0;
      Known(r.history, c) == Versions(s.persistent, c.name, {c.id}) && r.persistent == s.persistent
  {
    hide Versions, Best;
  }

  lemma TestStep(cfg: Config, y: System, st: Step, c: Command)
    requires MyCall(cfg, y, st, Versioning, Test, c)
    ensures Touched(cfg, y, st, c) == None && Moves(cfg, y, st, c) == [R.Load]
    ensures Apply(cfg, y, st).s == VersioningCall(cfg, y.s, y.works[st.t].c, st.env).0
  {
    hide Modules, VersioningCall, Throttled, Has;
  }

  lemma TestMatches(cfg: Config, y: System, st: Step, c: Command, a: R.State)
    requires MyCall(cfg, y, st, Versioning, Test, c) && ValidName(c.name) && '.' !in c.name && c.id <= INT_MAX && Tidy(y.s.persistent)
    requires cfg.storage && Sim(y.s, a, c)
    ensures Matches(cfg, y, st, c, a)
  {
    var w := y.works[st.t].c;
    var r := Apply(cfg, y, st).s;
    TestStep(cfg, y, st, c);
    hide VersioningCall, Touched, Moves, Apply, Modules, Versions, ValidName, Tidy, Sim, Leads, Shelf, Has;
    TestCall(cfg, y.s, w, st.env);
    forall v ensures v in Known(r.history, c) <==> v in Shelf(y.s.persistent, c) {
      ListsFiles(y.s.persistent, c, v);
    }
    LoadLeads(y.s, r, a, c, cfg.maxVersions, st.env.io);
  }

  lemma RestartCall(cfg: Config, s: State, c: Command, env: Env)
    requires cfg.storage && c.kind.Restart?
    ensures var r := VersioningCall(cfg, s, c, env).0;
      r.persistent == s.persistent && Known(r.history, c) == Known(s.history, c) + if StemOf(c) in s.persistent then {c.version} else {}
  {
    hide Stem;
  }

  lemma RestartMatches(cfg: Config, y: System, st: Step, c: Command, a: R.State)
    requires MyCall(cfg, y, st, Versioning, Restart, c) && ValidName(c.name) && cfg.storage && Sim(y.s, a, c)
    ensures Matches(cfg, y, st, c, a)
  {
    var w := y.works[st.t].c;
    var r := Apply(cfg, y, st).s;
    assert Touched(cfg, y, st, c) == None;
    hide VersioningCall, Touched, Modules, Stem, Sim, Leads, ValidName, Shelf;
    RestartCall(cfg, y.s, w, st.env);
    if Has(y.s.persistent, c, w.version) {
      RestartLeads(y.s, r, a, c, cfg.maxVersions, w.version, st.env.io);
    } else {
      NothingLeads(y.s, r, a, c, cfg.maxVersions, st.env.io);
    }
  }

  // ---- every step ----

  lemma QuietMatches(cfg: Config, y: System, st: Step, c: Command, a: R.State)
    requires Named(y) && Enabled(cfg, y, st) && st.Advance? && ValidName(c.name) && Sim(y.s, a, c)
    requires Mine(y.works[st.t].c, c) ==>
      var m := Modules(cfg)[y.works[st.t].k]; m != Versioning && !(m == Transfer && y.works[st.t].c.kind.Checkpoint?)
    ensures Matches(cfg, y, st, c, a)
  {
    hide Call, ValidName, Modules, Sim, Leads, SameShelf, Shelf, Throttled;
    var w := y.works[st.t];
    assert Touched(cfg, y, st, c) == None && Moves(cfg, y, st, c) == [];
    OthersKeepShelf(cfg, Modules(cfg)[w.k], y.s, w.c, st.env, c);
    NothingLeads(y.s, Apply(cfg, y, st).s, a, c, cfg.maxVersions, st.env.io);
  }

  lemma InitMatches(cfg: Config, y: System, st: Step, c: Command, a: R.State)
    requires MyCall(cfg, y, st, Versioning, Init, c) && ValidName(c.name) && Sim(y.s, a, c)
    ensures Matches(cfg, y, st, c, a)
  {
    hide ValidName, Modules, Leads, Shelf, Throttled;
    assert Touched(cfg, y, st, c) == None && Moves(cfg, y, st, c) == [];
    NothingLeads(y.s, Apply(cfg, y, st).s, a, c, cfg.maxVersions, st.env.io);
  }

  /** A name without dots on persistent storage with a limit on the versions. */
  predicate Limited(cfg: Config, c: Command) {
    cfg.storage && cfg.maxVersions > 0 && ValidName(c.name) && '.' !in c.name && c.id <= INT_MAX
  }

  lemma StepMatches(cfg: Config, y: System, st: Step, c: Command, a: R.State)
    requires Limited(cfg, c) && Named(y) && Enabled(cfg, y, st) && Undamaged(y, st) && Tidy(y.s.persistent) && Sim(y.s, a, c)
    ensures Matches(cfg, y, st, c, a)
  {
    if !st.Advance? {
      hide ValidName, Leads, Shelf, Tidy;
      if st.Reboot? {
        CrashLeads(y.s, Apply(cfg, y, st).s, a, c, cfg.maxVersions, false);
      } else {
        NothingLeads(y.s, Apply(cfg, y, st).s, a, c, cfg.maxVersions, false);
      }
    } else {
      hide ValidName, Matches, Sim, Tidy, Modules, Apply;
      var w, m := y.works[st.t].c, Modules(cfg)[y.works[st.t].k];
      if !Mine(w, c) || (m != Versioning && !(m == Transfer && w.kind.Checkpoint?)) {
        QuietMatches(cfg, y, st, c, a);
      } else if m == Transfer {
        FlushMatches(cfg, y, st, c, a);
      } else {
        match w.kind
        case Init => InitMatches(cfg, y, st, c, a);
        case Test => TestMatches(cfg, y, st, c, a);
        case Restart => RestartMatches(cfg, y, st, c, a);
        case Checkpoint => CheckpointMatches(cfg, y, st, c, a);
      }
    }
  }

  // ---- only files of the runtime on storage ----

  lemma VersioningNames(cfg: Config, s: State, w: Command, env: Env)
    ensures VersioningCall(cfg, s, w, env).0.persistent.Keys <= s.persistent.Keys
  {
    hide Stem, Versions, Best, Trimmed, OldCheckpoint, OldScratch, WithoutChecksums;
  }

  lemma CallNames(cfg: Config, m: Module, s: State, w: Command, env: Env)
    ensures Call(cfg, m, s, w, env).0.persistent.Keys <= s.persistent.Keys + {StemOf(w)}
  {
    hide Stem, Overwrite, VersioningCall, ChksumCall;
    if m == Versioning {
      VersioningNames(cfg, s, w, env);
    } else if m == Chksum {
      ChksumFrame(cfg, s, w, env);
    }
  }

  lemma StemOwned(c: Command)
    requires Valid(c)
    ensures Owned(StemOf(c))
  {
    assert IsFile(StemOf(c), c.name, c.id, c.version);
  }

  lemma StepKeepsTidy(cfg: Config, y: System, st: Step)
    requires Named(y) && Enabled(cfg, y, st) && Undamaged(y, st) && Tidy(y.s.persistent)
    ensures Tidy(Apply(cfg, y, st).s.persistent)
  {
    hide Call, Modules, Stem, ValidName, Owned;
    if st.Advance? {
      var w := y.works[st.t].c;
      CallNames(cfg, Modules(cfg)[y.works[st.t].k], y.s, w, st.env);
      assert Owned(StemOf(w)) by { StemOwned(w); }
    }
  }
}
