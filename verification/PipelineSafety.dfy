/** The backend executing many commands at once: their module calls interleave in any order, the scratch and persistent
    directories may be damaged at any moment, and the backend may be restarted at any moment. A crash inside a module
    call is that call failing half-way, followed by a restart. */
module PipelineSafety {
  import opened Bytes
  import opened Naming
  import opened Pipeline
  import opened Status

  datatype System = System(s: State, works: map<nat, Work>)

  datatype Step =
    | Start(t: nat, c: Command)
    | Advance(t: nat, env: Env)
    | Disturb(scratch: Dir, persistent: Dir)
    | Reboot

  predicate Enabled(cfg: Config, y: System, st: Step) {
    match st
    case Start(t, c) => t !in y.works && Valid(c)
    case Advance(t, _) => t in y.works && !y.works[t].done && y.works[t].k < |Modules(cfg)|
    case Disturb(_, _) => true
    case Reboot => true
  }

  function Apply(cfg: Config, y: System, st: Step): (r: System)
    requires Enabled(cfg, y, st)
  {
    match st
    case Start(t, c) => y.(works := y.works[t := Fresh(c)])
    case Advance(t, env) => var (s', w) := Round(cfg, y.s, y.works[t], env); System(s', y.works[t := w])
    case Disturb(scratch, persistent) => y.(s := y.s.(scratch := scratch, persistent := persistent))
    // a new backend process: only the files are left
    case Reboot => System(y.s.(clients := {}, timers := map[], history := map[], scratchHistory := map[]), map[])
  }

  ghost predicate Run(cfg: Config, ys: seq<System>, steps: seq<Step>) {
    && |ys| == |steps| + 1 && ys[0].works == map[] && ys[0].s.metadata == map[] && ys[0].s.clients == {}
    && forall i :: 0 <= i < |steps| ==> Enabled(cfg, ys[i], steps[i]) && ys[i + 1] == Apply(cfg, ys[i], steps[i])
  }

  /** The digest function yields digests of the expected size. */
  ghost predicate Digests(cfg: Config) {
    forall b :: |cfg.hash(b)| == HASH_SIZE
  }

  predicate SameFile(c: Command, d: Command) {
    c.name == d.name && c.id == d.id && c.version == d.version
  }

  /** Step `st` calls module `m` for a command of kind `kind` on the file of `c`. */
  predicate Calls(cfg: Config, y: System, st: Step, m: Module, kind: Kind, c: Command) {
    && Enabled(cfg, y, st) && st.Advance? && Modules(cfg)[y.works[st.t].k] == m
    && y.works[st.t].c.kind == kind && SameFile(y.works[st.t].c, c)
  }

  // ---- what every run keeps ----

  ghost predicate Named(y: System) {
    forall t :: t in y.works ==> Valid(y.works[t].c)
  }

  lemma {:induction false} RunNames(cfg: Config, ys: seq<System>, steps: seq<Step>, i: nat)
    requires Run(cfg, ys, steps) && i < |ys|
    ensures Named(ys[i])
  {
    hide Call, Modules;
    if i > 0 {
      RunNames(cfg, ys, steps, i - 1);
    }
  }

  /** Command `t` called its module `k` in step `j` and was not stopped there. */
  ghost predicate Called(cfg: Config, ys: seq<System>, steps: seq<Step>, t: nat, k: nat, c: Command, j: nat)
    requires Run(cfg, ys, steps)
  {
    && j < |steps| && steps[j].Advance? && steps[j].t == t && ys[j].works[t].k == k && ys[j].works[t].c == c
    && Call(cfg, Modules(cfg)[k], ys[j].s, c, steps[j].env).1 != VELOC_FAILURE
  }

  predicate Passed(w: Work, k: nat) {
    w.k > k && (w.done ==> w.ret != VELOC_FAILURE)
  }

  /** A command that got past a module called it, and got an answer other than failure. */
  lemma {:induction false} PassedCalled(cfg: Config, ys: seq<System>, steps: seq<Step>, n: nat, t: nat, k: nat) returns (j: nat)
    requires Run(cfg, ys, steps) && n < |ys| && t in ys[n].works && Passed(ys[n].works[t], k)
    ensures j < n && Called(cfg, ys, steps, t, k, ys[n].works[t].c, j)
  {
    hide Call, Modules;
    assert n > 0;
    var y, st := ys[n - 1], steps[n - 1];
    assert ys[n] == Apply(cfg, y, st);
    if st.Advance? && st.t == t && y.works[t].k == k {
      j := n - 1;
    } else {
      j := PassedCalled(cfg, ys, steps, n - 1, t, k);
    }
  }

  /** A command that completes without a failure passed every module. */
  lemma {:induction false} DonePassed(cfg: Config, ys: seq<System>, steps: seq<Step>, n: nat, t: nat)
    requires Run(cfg, ys, steps) && n < |ys| && t in ys[n].works && ys[n].works[t].done && ys[n].works[t].ret != VELOC_FAILURE
    ensures ys[n].works[t].k == |Modules(cfg)|
  {
    hide Call, Modules;
    assert n > 0;
    var y, st := ys[n - 1], steps[n - 1];
    assert ys[n] == Apply(cfg, y, st);
    if !(st.Advance? && st.t == t) {
      DonePassed(cfg, ys, steps, n - 1, t);
    }
  }

  // ---- checksums ----

  /** The step writes the digest of the scratch file of `c` to its checksum file. */
  predicate Records(cfg: Config, y: System, st: Step, c: Command) {
    && Calls(cfg, y, st, Chksum, Checkpoint, c) && cfg.chksum && st.env.io
    && Digest(cfg, y.s.scratch, StemOf(c)).Some?
  }

  lemma RecordsDigest(cfg: Config, y: System, st: Step, c: Command)
    requires Records(cfg, y, st, c)
    ensures MetaOf(c) in Apply(cfg, y, st).s.metadata
    ensures Some(Apply(cfg, y, st).s.metadata[MetaOf(c)]) == Digest(cfg, y.s.scratch, StemOf(c))
  {
    hide Modules, Digest;
  }

  lemma DigestSize(cfg: Config, dir: Dir, f: string)
    requires Digests(cfg)
    ensures Digest(cfg, dir, f).Some? ==> |Digest(cfg, dir, f).value| == HASH_SIZE
  {
  }

  lemma VersioningMetadata(cfg: Config, s: State, c: Command, env: Env, f: string)
    ensures var r := VersioningCall(cfg, s, c, env).0.metadata; f in r ==> f in s.metadata && r[f] == s.metadata[f]
  {
    hide Trimmed, Outdated, OldCheckpoint, OldChecksum, OldScratch, Match;
  }

  /** A step that records nothing for `c` leaves no new full-size checksum file behind. */
  lemma OthersKeepChecksum(cfg: Config, y: System, st: Step, c: Command)
    requires Digests(cfg) && Named(y) && ValidName(c.name) && Enabled(cfg, y, st) && !Records(cfg, y, st, c)
    requires var r := Apply(cfg, y, st).s.metadata; MetaOf(c) in r && |r[MetaOf(c)]| >= HASH_SIZE
    ensures MetaOf(c) in y.s.metadata && Apply(cfg, y, st).s.metadata[MetaOf(c)] == y.s.metadata[MetaOf(c)]
  {
    hide Modules, Digest, TransferCall, WatchdogCall, EcCall, VersioningCall, ChecksumName, ValidName, Digests;
    if st.Advance? {
      var w := y.works[st.t];
      match Modules(cfg)[w.k] {
        case Watchdog => WatchdogFrame(cfg, y.s, w.c, st.env);
        case Ec => EcFrame(cfg, y.s, w.c, st.env);
        case Transfer => TransferFrame(cfg, y.s, w.c, st.env);
        case Versioning => VersioningMetadata(cfg, y.s, w.c, st.env, MetaOf(c));
        case Chksum =>
          if MetaOf(w.c) == MetaOf(c) {
            ChecksumInjective(w.c.name, w.c.id, w.c.version, c.name, c.id, c.version);
            DigestSize(cfg, y.s.scratch, StemOf(c));
          }
      }
    }
  }

  /** Step `i` is the last one before state `n` to record a digest for `c`. */
  ghost predicate LastRecord(cfg: Config, ys: seq<System>, steps: seq<Step>, c: Command, i: nat, n: nat)
    requires Run(cfg, ys, steps) && n < |ys|
  {
    && i < n && Records(cfg, ys[i], steps[i], c)
    && forall l :: i < l < n ==> !Records(cfg, ys[l], steps[l], c)
  }

  /** Every full-size checksum file holds the digest that was recorded last. */
  lemma {:induction false} ChecksumOrigin(cfg: Config, ys: seq<System>, steps: seq<Step>, c: Command, n: nat) returns (i: nat)
    requires Run(cfg, ys, steps) && Digests(cfg) && ValidName(c.name) && n < |ys|
    requires MetaOf(c) in ys[n].s.metadata && |ys[n].s.metadata[MetaOf(c)]| >= HASH_SIZE
    ensures LastRecord(cfg, ys, steps, c, i, n)
    ensures Some(ys[n].s.metadata[MetaOf(c)]) == Digest(cfg, ys[i].s.scratch, StemOf(c))
  {
    hide Apply, Records, Digest, MetaOf, Digests, Enabled;
    assert n > 0;
    assert ys[n] == Apply(cfg, ys[n - 1], steps[n - 1]);
    if Records(cfg, ys[n - 1], steps[n - 1], c) {
      i := n - 1;
      RecordsDigest(cfg, ys[i], steps[i], c);
    } else {
      RunNames(cfg, ys, steps, n - 1);
      OthersKeepChecksum(cfg, ys[n - 1], steps[n - 1], c);
      i := ChecksumOrigin(cfg, ys, steps, c, n - 1);
    }
  }

  /** With checksums on, a RESTART that does not fail has seen a scratch file with the digest that a CHECKPOINT of
      the same name, id and version recorded last, whatever happened to the files in between. */
  lemma ChecksumSafety(cfg: Config, ys: seq<System>, steps: seq<Step>, n: nat, t: nat) returns (i: nat, j: nat)
    requires Run(cfg, ys, steps) && Digests(cfg) && cfg.chksum && n < |ys|
    requires t in ys[n].works && ys[n].works[t].c.kind.Restart? && ys[n].works[t].done && ys[n].works[t].ret != VELOC_FAILURE
    ensures var c := ys[n].works[t].c;
      && j < n && Calls(cfg, ys[j], steps[j], Chksum, Restart, c) && LastRecord(cfg, ys, steps, c, i, j)
      && StemOf(c) in ys[j].s.scratch && StemOf(c) in ys[i].s.scratch
      && cfg.hash(ys[j].s.scratch[StemOf(c)]) == cfg.hash(ys[i].s.scratch[StemOf(c)])
  {
    var c, k := ys[n].works[t].c, |Modules(cfg)| - 2;
    DonePassed(cfg, ys, steps, n, t);
    j := PassedCalled(cfg, ys, steps, n, t, k);
    assert Modules(cfg)[k] == Chksum;
    RunNames(cfg, ys, steps, n);
    assert Confirms(cfg, ys[j].s, c);
    hide Apply, Records, ValidName, Digests, Run, LastRecord;
    i := ChecksumOrigin(cfg, ys, steps, c, j);
    DigestSize(cfg, ys[i].s.scratch, StemOf(c));
    assert ys[j].s.metadata[MetaOf(c)][..HASH_SIZE] == ys[j].s.metadata[MetaOf(c)];
  }

  // ---- persistence ----

  /** The step copies the scratch file of `c` to persistent storage. */
  predicate Flushes(cfg: Config, y: System, st: Step, c: Command) {
    && Calls(cfg, y, st, Transfer, Checkpoint, c) && cfg.storage && cfg.interval >= 0
    && !Throttled(cfg, y.s, c, st.env) && st.env.io && StemOf(c) in y.s.scratch
  }

  /** The file on persistent storage afterwards: it is written over, not truncated. */
  function Flushed(y: System, c: Command): (r: seq<byte>)
    requires StemOf(c) in y.s.scratch
  {
    Overwrite(Content(y.s.persistent, StemOf(c)), 0, y.s.scratch[StemOf(c)])
  }

  ghost predicate Persisted(y: System, c: Command, data: seq<byte>) {
    StemOf(c) in y.s.persistent && y.s.persistent[StemOf(c)] == data
  }

  /** Command `w` retires the file of `c`. */
  predicate Retires(cfg: Config, s: State, w: Command, env: Env, c: Command) {
    w.name == c.name && w.id == c.id && c.version in Trimmed(cfg, s, w) && StemOf(c) !in env.stuckPersistent
  }

  /** A step that neither damages nor rewrites nor retires the persistent file of `c`. */
  predicate Spares(cfg: Config, y: System, st: Step, c: Command) {
    && (st.Disturb? && StemOf(c) in y.s.persistent ==>
          StemOf(c) in st.persistent && st.persistent[StemOf(c)] == y.s.persistent[StemOf(c)])
    && !Calls(cfg, y, st, Transfer, Checkpoint, c)
    && (Enabled(cfg, y, st) && st.Advance? && Modules(cfg)[y.works[st.t].k] == Versioning && y.works[st.t].c.kind.Checkpoint?
        ==> !Retires(cfg, y.s, y.works[st.t].c, st.env, c))
  }

  lemma FlushPersists(cfg: Config, y: System, st: Step, c: Command)
    requires Flushes(cfg, y, st, c)
    ensures Persisted(Apply(cfg, y, st), c, Flushed(y, c))
  {
    hide Modules, Stem;
  }

  lemma TransferPersistent(cfg: Config, s: State, w: Command, env: Env, c: Command)
    requires ValidName(w.name) && ValidName(c.name) && !(w.kind.Checkpoint? && SameFile(w, c))
    ensures var r := TransferCall(cfg, s, w, env).0.persistent;
      (StemOf(c) in r <==> StemOf(c) in s.persistent) && (StemOf(c) in r ==> r[StemOf(c)] == s.persistent[StemOf(c)])
  {
    hide FetchCall, Stem, ValidName, Overwrite, Throttled;
    FetchFrame(cfg, s, w, env);
    if w.kind.Checkpoint? && StemOf(w) == StemOf(c) {
      StemInjective(w.name, w.id, w.version, c.name, c.id, c.version);
    }
  }

  /** Trimming removes exactly the retired versions of the command's own name and id. */
  lemma TrimPersistent(cfg: Config, s: State, w: Command, env: Env, c: Command)
    requires ValidName(w.name) && ValidName(c.name)
    ensures var r := PersistentTrimmed(cfg, s, w, env).persistent;
      && (StemOf(c) in r <==> StemOf(c) in s.persistent && !Retires(cfg, s, w, env, c))
      && (StemOf(c) in r ==> r[StemOf(c)] == s.persistent[StemOf(c)])
  {
    var gone := Trimmed(cfg, s, w);
    if v: nat :| v in gone && StemOf(c) == Stem(w.name, w.id, v) {
      StemInjective(w.name, w.id, v, c.name, c.id, c.version);
    }
    if Retires(cfg, s, w, env, c) {
      assert OldCheckpoint(StemOf(c), w, gone);
    }
    hide Stem, ValidName, OldChecksum;
  }

  lemma VersioningPersistent(cfg: Config, s: State, w: Command, env: Env, c: Command)
    requires ValidName(w.name) && ValidName(c.name) && StemOf(c) in s.persistent
    requires w.kind.Checkpoint? ==> !Retires(cfg, s, w, env, c)
    ensures var r := VersioningCall(cfg, s, w, env).0.persistent; StemOf(c) in r && r[StemOf(c)] == s.persistent[StemOf(c)]
  {
    hide PersistentTrimmed, Trimmed, Match, Stem, ValidName;
    if w.kind.Checkpoint? {
      TrimPersistent(cfg, s, w, env, c);
    }
  }

  lemma SparedPersists(cfg: Config, y: System, st: Step, c: Command, data: seq<byte>)
    requires Named(y) && ValidName(c.name) && Enabled(cfg, y, st) && Spares(cfg, y, st, c) && Persisted(y, c, data)
    ensures Persisted(Apply(cfg, y, st), c, data)
  {
    hide Modules, TransferCall, WatchdogCall, EcCall, VersioningCall, ChksumCall, Stem, ValidName, Trimmed;
    if st.Advance? {
      var w := y.works[st.t];
      match Modules(cfg)[w.k] {
        case Watchdog => WatchdogFrame(cfg, y.s, w.c, st.env);
        case Ec => EcFrame(cfg, y.s, w.c, st.env);
        case Chksum => ChksumFrame(cfg, y.s, w.c, st.env);
        case Transfer => TransferPersistent(cfg, y.s, w.c, st.env, c);
        case Versioning => VersioningPersistent(cfg, y.s, w.c, st.env, c);
      }
    }
  }

  /** A flushed checkpoint stays on persistent storage until a step damages, rewrites or retires it. */
  lemma {:induction false} StaysPersisted(cfg: Config, ys: seq<System>, steps: seq<Step>, c: Command, i: nat, n: nat)
    requires Run(cfg, ys, steps) && i < n < |ys| && ValidName(c.name) && Flushes(cfg, ys[i], steps[i], c)
    requires forall l :: i < l < n ==> Spares(cfg, ys[l], steps[l], c)
    ensures Persisted(ys[n], c, Flushed(ys[i], c))
  {
    hide Apply, Flushed, Persisted, Spares, ValidName, Enabled;
    assert ys[n] == Apply(cfg, ys[n - 1], steps[n - 1]);
    if n == i + 1 {
      FlushPersists(cfg, ys[i], steps[i], c);
    } else {
      StaysPersisted(cfg, ys, steps, c, i, n - 1);
      RunNames(cfg, ys, steps, n - 1);
      SparedPersists(cfg, ys[n - 1], steps[n - 1], c, Flushed(ys[i], c));
    }
  }

  /** A CHECKPOINT that completes without a failure was flushed or, if an interval is configured, put off. */
  lemma CompletedFlushed(cfg: Config, ys: seq<System>, steps: seq<Step>, n: nat, t: nat) returns (j: nat)
    requires Run(cfg, ys, steps) && cfg.storage && cfg.interval >= 0 && n < |ys|
    requires t in ys[n].works && ys[n].works[t].c.kind.Checkpoint? && ys[n].works[t].done && ys[n].works[t].ret != VELOC_FAILURE
    ensures var c := ys[n].works[t].c;
      && j < n && Calls(cfg, ys[j], steps[j], Transfer, Checkpoint, c)
      && (Flushes(cfg, ys[j], steps[j], c) || Throttled(cfg, ys[j].s, c, steps[j].env))
  {
    var k := |Modules(cfg)| - 3;
    DonePassed(cfg, ys, steps, n, t);
    j := PassedCalled(cfg, ys, steps, n, t, k);
    assert Modules(cfg)[k] == Transfer;
    hide Stem;
  }

  lemma FetchedFile(cfg: Config, y: System, st: Step, c: Command, data: seq<byte>)
    requires Calls(cfg, y, st, Transfer, Restart, c) && st.env.io && StemOf(c) !in y.s.scratch && Persisted(y, c, data)
    requires cfg.storage && cfg.interval >= 0
    ensures var r := Apply(cfg, y, st).s.scratch; StemOf(c) in r && r[StemOf(c)] == data
  {
    hide Modules, Stem;
    OverwriteEmpty(data);
  }

  lemma OverwriteExactIff(before: seq<byte>, data: seq<byte>)
    ensures Overwrite(before, 0, data) == data <==> |before| <= |data|
  {
  }

  /** A RESTART that has to fetch the checkpoint gets what the last flush left on persistent storage. It is the
      checkpointed file exactly when no longer file of the same version was there before. */
  lemma RestartRestores(cfg: Config, ys: seq<System>, steps: seq<Step>, c: Command, i: nat, n: nat)
    requires Run(cfg, ys, steps) && i < n < |steps| && ValidName(c.name) && Flushes(cfg, ys[i], steps[i], c)
    requires forall l :: i < l < n ==> Spares(cfg, ys[l], steps[l], c)
    requires Calls(cfg, ys[n], steps[n], Transfer, Restart, c) && steps[n].env.io && StemOf(c) !in ys[n].s.scratch
    ensures StemOf(c) in ys[n + 1].s.scratch
    ensures ys[n + 1].s.scratch[StemOf(c)] == ys[i].s.scratch[StemOf(c)]
       <==> |Content(ys[i].s.persistent, StemOf(c))| <= |ys[i].s.scratch[StemOf(c)]|
  {
    StaysPersisted(cfg, ys, steps, c, i, n);
    assert ys[n + 1] == Apply(cfg, ys[n], steps[n]);
    var data, before := ys[i].s.scratch[StemOf(c)], Content(ys[i].s.persistent, StemOf(c));
    FetchedFile(cfg, ys[n], steps[n], c, Overwrite(before, 0, data));
    OverwriteExactIff(before, data);
  }

  // ---- registration and throttling ----

  /** The step registers client `id` with the watchdog. */
  predicate Registers(cfg: Config, y: System, st: Step, id: nat) {
    && Enabled(cfg, y, st) && st.Advance? && Modules(cfg)[y.works[st.t].k] == Watchdog
    && y.works[st.t].c.kind.Init? && y.works[st.t].c.id == id
  }

  lemma AllFrames(cfg: Config, s: State, c: Command, env: Env)
    ensures WatchdogCall(cfg, s, c, env).0.timers == s.timers
    ensures var r := EcCall(cfg, s, c, env).0; r.clients == s.clients && r.timers == s.timers
    ensures TransferCall(cfg, s, c, env).0.clients == s.clients
    ensures var r := ChksumCall(cfg, s, c, env).0; r.clients == s.clients && r.timers == s.timers
    ensures var r := VersioningCall(cfg, s, c, env).0; r.clients == s.clients && r.timers == s.timers
  {
    hide WatchdogCall, EcCall, TransferCall, ChksumCall, VersioningCall;
    WatchdogFrame(cfg, s, c, env);
    EcFrame(cfg, s, c, env);
    TransferFrame(cfg, s, c, env);
    ChksumFrame(cfg, s, c, env);
    VersioningFrame(cfg, s, c, env);
  }

  lemma OthersKeepClients(cfg: Config, y: System, st: Step, id: nat)
    requires Enabled(cfg, y, st) && !Registers(cfg, y, st, id) && id in Apply(cfg, y, st).s.clients
    ensures id in y.s.clients
  {
    hide Modules, EcCall, TransferCall, ChksumCall, VersioningCall;
    if st.Advance? {
      AllFrames(cfg, y.s, y.works[st.t].c, st.env);
    }
  }

  lemma {:induction false} ClientOrigin(cfg: Config, ys: seq<System>, steps: seq<Step>, id: nat, n: nat) returns (i: nat)
    requires Run(cfg, ys, steps) && n < |ys| && id in ys[n].s.clients
    ensures i < n && Registers(cfg, ys[i], steps[i], id)
  {
    hide Apply, Registers, Enabled;
    assert n > 0;
    assert Enabled(cfg, ys[n - 1], steps[n - 1]) && ys[n] == Apply(cfg, ys[n - 1], steps[n - 1]);
    if Registers(cfg, ys[n - 1], steps[n - 1], id) {
      i := n - 1;
    } else {
      OthersKeepClients(cfg, ys[n - 1], steps[n - 1], id);
      i := ClientOrigin(cfg, ys, steps, id, n - 1);
    }
  }

  /** Client `id` registered at step `i`, and the backend was not restarted since. */
  ghost predicate RegisteredSince(cfg: Config, ys: seq<System>, steps: seq<Step>, id: nat, i: nat, n: nat)
    requires i < n < |ys| == |steps| + 1
  {
    Registers(cfg, ys[i], steps[i], id) && forall m :: i < m < n ==> !steps[m].Reboot?
  }

  lemma StepClients(cfg: Config, y: System, st: Step, id: nat)
    requires Enabled(cfg, y, st) && cfg.watchdog
    ensures id in Apply(cfg, y, st).s.clients <==> Registers(cfg, y, st, id) || (id in y.s.clients && !st.Reboot?)
  {
    hide Modules, EcCall, TransferCall, ChksumCall, VersioningCall;
    if st.Advance? {
      AllFrames(cfg, y.s, y.works[st.t].c, st.env);
    }
  }

  /** The watchdog knows exactly the clients that sent an INIT to this backend process. */
  lemma {:induction false} KnownIff(cfg: Config, ys: seq<System>, steps: seq<Step>, id: nat, n: nat)
    requires Run(cfg, ys, steps) && cfg.watchdog && n < |ys| == |steps| + 1
    ensures id in ys[n].s.clients <==> exists i :: 0 <= i < n && RegisteredSince(cfg, ys, steps, id, i, n)
  {
    if n > 0 {
      hide Apply, Registers, Enabled, Modules;
      KnownIff(cfg, ys, steps, id, n - 1);
      var y, st := ys[n - 1], steps[n - 1];
      assert Enabled(cfg, y, st) && ys[n] == Apply(cfg, y, st);
      StepClients(cfg, y, st, id);
      if Registers(cfg, y, st, id) {
        assert RegisteredSince(cfg, ys, steps, id, n - 1, n);
      } else if id in y.s.clients && !st.Reboot? {
        var i :| 0 <= i < n - 1 && RegisteredSince(cfg, ys, steps, id, i, n - 1);
        assert RegisteredSince(cfg, ys, steps, id, i, n);
      } else if i :| 0 <= i < n && RegisteredSince(cfg, ys, steps, id, i, n) {
        assert i < n - 1 && RegisteredSince(cfg, ys, steps, id, i, n - 1);
      }
    }
  }

  lemma {:induction false} RunningIsNoFailure(cfg: Config, ys: seq<System>, steps: seq<Step>, n: nat, t: nat)
    requires Run(cfg, ys, steps) && n < |ys| && t in ys[n].works && !ys[n].works[t].done
    ensures ys[n].works[t].ret != VELOC_FAILURE
  {
    hide Call, Modules;
    assert n > 0;
    var y, st := ys[n - 1], steps[n - 1];
    assert ys[n] == Apply(cfg, y, st);
    if t in y.works && !st.Reboot? {
      RunningIsNoFailure(cfg, ys, steps, n - 1, t);
    }
  }

  /** So it fails exactly the CHECKPOINTs of the others. */
  lemma UnknownFailsIff(cfg: Config, ys: seq<System>, steps: seq<Step>, c: Command, n: nat)
    requires Run(cfg, ys, steps) && cfg.watchdog && n < |steps| && Calls(cfg, ys[n], steps[n], Watchdog, Checkpoint, c)
    ensures steps[n].t in ys[n + 1].works && |ys| == |steps| + 1
    ensures var w := ys[n + 1].works[steps[n].t];
      w.done && w.ret == VELOC_FAILURE <==> !exists i :: 0 <= i < n && RegisteredSince(cfg, ys, steps, c.id, i, n)
  {
    assert ys[n + 1] == Apply(cfg, ys[n], steps[n]);
    KnownIff(cfg, ys, steps, c.id, n);
    RunningIsNoFailure(cfg, ys, steps, n, steps[n].t);
    hide Registers;
  }

  /** With the watchdog on, a CHECKPOINT that does not fail comes from a client that registered before. */
  lemma RegisteredFirst(cfg: Config, ys: seq<System>, steps: seq<Step>, n: nat, t: nat) returns (i: nat)
    requires Run(cfg, ys, steps) && cfg.watchdog && n < |ys|
    requires t in ys[n].works && ys[n].works[t].c.kind.Checkpoint? && ys[n].works[t].done && ys[n].works[t].ret != VELOC_FAILURE
    ensures i < n && Registers(cfg, ys[i], steps[i], ys[n].works[t].c.id)
  {
    var c := ys[n].works[t].c;
    DonePassed(cfg, ys, steps, n, t);
    var j := PassedCalled(cfg, ys, steps, n, t, 0);
    assert Modules(cfg)[0] == Watchdog;
    assert c.id in ys[j].s.clients;
    hide Run, Registers, Called;
    i := ClientOrigin(cfg, ys, steps, c.id, j);
  }

  /** The step tries to flush a checkpoint of client `id` and is not put off. */
  predicate TriesFlush(cfg: Config, y: System, st: Step, id: nat) {
    && Enabled(cfg, y, st) && st.Advance? && Modules(cfg)[y.works[st.t].k] == Transfer
    && y.works[st.t].c.kind.Checkpoint? && y.works[st.t].c.id == id && !Throttled(cfg, y.s, y.works[st.t].c, st.env)
  }

  predicate TimerFrom(s: State, id: nat, time: int) {
    id in s.timers && s.timers[id] >= time
  }

  /** The step sets the timer of client `id`: an INIT, or a flush that is not put off. */
  predicate SetsTimer(cfg: Config, y: System, st: Step, id: nat) {
    || TriesFlush(cfg, y, st, id)
    || (Enabled(cfg, y, st) && st.Advance? && Modules(cfg)[y.works[st.t].k] == Transfer
        && y.works[st.t].c.kind.Init? && y.works[st.t].c.id == id)
  }

  lemma TransferTimer(cfg: Config, s: State, c: Command, env: Env, id: nat)
    requires cfg.storage && cfg.interval > 0
    ensures var r := TransferCall(cfg, s, c, env).0.timers;
      if c.id == id && (c.kind.Init? || (c.kind.Checkpoint? && !Throttled(cfg, s, c, env)))
      then id in r && r[id] == env.now + cfg.interval
      else (id in r <==> id in s.timers) && (id in r ==> r[id] == s.timers[id])
  {
    hide FetchCall, Stem, Copied, Throttled;
    FetchFrame(cfg, s, c, env);
  }

  lemma StepTimer(cfg: Config, y: System, st: Step, id: nat)
    requires Enabled(cfg, y, st) && cfg.storage && cfg.interval > 0
    ensures SetsTimer(cfg, y, st, id) ==> st.Advance?
    ensures var r := Apply(cfg, y, st).s.timers;
      if SetsTimer(cfg, y, st, id) then id in r && r[id] == st.env.now + cfg.interval
      else (id in r <==> id in y.s.timers && !st.Reboot?) && (id in r ==> r[id] == y.s.timers[id])
  {
    hide Modules, WatchdogCall, EcCall, TransferCall, ChksumCall, VersioningCall, Throttled;
    if st.Advance? {
      AllFrames(cfg, y.s, y.works[st.t].c, st.env);
      TransferTimer(cfg, y.s, y.works[st.t].c, st.env, id);
    }
  }

  lemma {:induction false} TimerHolds(cfg: Config, ys: seq<System>, steps: seq<Step>, id: nat, i: nat, n: nat)
    requires Run(cfg, ys, steps) && i < n < |ys| && cfg.storage && cfg.interval > 0 && SetsTimer(cfg, ys[i], steps[i], id)
    requires steps[i].Advance?
    requires forall l :: i < l < n ==> !steps[l].Reboot? && (steps[l].Advance? ==> steps[i].env.now <= steps[l].env.now)
    ensures TimerFrom(ys[n].s, id, steps[i].env.now + cfg.interval)
  {
    hide Apply, SetsTimer, Enabled;
    assert Enabled(cfg, ys[n - 1], steps[n - 1]) && ys[n] == Apply(cfg, ys[n - 1], steps[n - 1]);
    StepTimer(cfg, ys[n - 1], steps[n - 1], id);
    if n > i + 1 {
      TimerHolds(cfg, ys, steps, id, i, n - 1);
    }
  }

  /** A timer that is there was set since the last restart of the backend. */
  lemma {:induction false} TimerOrigin(cfg: Config, ys: seq<System>, steps: seq<Step>, id: nat, i: nat, n: nat) returns (l: nat)
    requires Run(cfg, ys, steps) && cfg.storage && cfg.interval > 0 && i < n < |ys| && SetsTimer(cfg, ys[i], steps[i], id) && id in ys[n].s.timers
    ensures i <= l < n && SetsTimer(cfg, ys[l], steps[l], id) && forall m :: l < m < n ==> !steps[m].Reboot?
  {
    hide Apply, SetsTimer, Enabled;
    assert Enabled(cfg, ys[n - 1], steps[n - 1]) && ys[n] == Apply(cfg, ys[n - 1], steps[n - 1]);
    if SetsTimer(cfg, ys[n - 1], steps[n - 1], id) {
      l := n - 1;
    } else {
      StepTimer(cfg, ys[n - 1], steps[n - 1], id);
      l := TimerOrigin(cfg, ys, steps, id, i, n - 1);
    }
  }

  /** The step is a transfer call for a CHECKPOINT of client `id`. */
  predicate AsksFlush(cfg: Config, y: System, st: Step, id: nat) {
    && Enabled(cfg, y, st) && st.Advance? && Modules(cfg)[y.works[st.t].k] == Transfer
    && y.works[st.t].c.kind.Checkpoint? && y.works[st.t].c.id == id
  }

  /** The clock does not run backwards between steps `i` and `j`. */
  ghost predicate Clocked(steps: seq<Step>, i: nat, j: nat)
    requires j <= |steps|
  {
    forall m, n :: i <= m < n < j && steps[m].Advance? && steps[n].Advance? ==> steps[m].env.now <= steps[n].env.now
  }

  /** The timer of client `id` was set at step `l`, and the backend was not restarted since. */
  ghost predicate SetSince(cfg: Config, ys: seq<System>, steps: seq<Step>, id: nat, l: nat, j: nat)
    requires l < j < |steps| && |ys| == |steps| + 1
  {
    SetsTimer(cfg, ys[l], steps[l], id) && forall m :: l < m < j ==> !steps[m].Reboot?
  }

  lemma FlushSets(cfg: Config, y: System, st: Step, id: nat)
    requires TriesFlush(cfg, y, st, id)
    ensures SetsTimer(cfg, y, st, id)
  {
  }

  lemma TimerReaches(cfg: Config, ys: seq<System>, steps: seq<Step>, id: nat, i: nat, l: nat, j: nat)
    requires Run(cfg, ys, steps) && i <= l < j < |steps| && cfg.storage && cfg.interval > 0
    requires TriesFlush(cfg, ys[i], steps[i], id) && SetSince(cfg, ys, steps, id, l, j) && Clocked(steps, i, j)
    ensures TimerFrom(ys[j].s, id, steps[i].env.now + cfg.interval)
  {
    assert steps[l].Advance? by { StepTimer(cfg, ys[l], steps[l], id); }
    TimerHolds(cfg, ys, steps, id, l, j);
  }

  /** The timer of client `id` was set last at step `l`, and the backend was not restarted since. */
  ghost predicate SetLast(cfg: Config, ys: seq<System>, steps: seq<Step>, id: nat, l: nat, j: nat)
    requires l < j < |ys| == |steps| + 1
  {
    && Enabled(cfg, ys[l], steps[l]) && SetsTimer(cfg, ys[l], steps[l], id)
    && forall m :: l < m < j ==> !steps[m].Reboot? && !SetsTimer(cfg, ys[m], steps[m], id)
  }

  /** A timer that is there was set last by some step of this backend process, to one interval later. */
  lemma {:induction false} TimerSetLast(cfg: Config, ys: seq<System>, steps: seq<Step>, id: nat, j: nat) returns (l: nat)
    requires Run(cfg, ys, steps) && cfg.storage && cfg.interval > 0 && j < |ys| == |steps| + 1 && ys[0].s.timers == map[]
    requires id in ys[j].s.timers
    ensures l < j && SetLast(cfg, ys, steps, id, l, j) && steps[l].Advance? && ys[j].s.timers[id] == steps[l].env.now + cfg.interval
  {
    hide Apply, SetsTimer, Enabled;
    assert j > 0;
    var y, st := ys[j - 1], steps[j - 1];
    assert Enabled(cfg, y, st) && ys[j] == Apply(cfg, y, st);
    StepTimer(cfg, y, st, id);
    if SetsTimer(cfg, y, st, id) {
      l := j - 1;
    } else {
      l := TimerSetLast(cfg, ys, steps, id, j - 1);
    }
  }

  lemma {:induction false} SetLastTimer(cfg: Config, ys: seq<System>, steps: seq<Step>, id: nat, l: nat, j: nat)
    requires Run(cfg, ys, steps) && cfg.storage && cfg.interval > 0 && l < j < |ys| == |steps| + 1 && SetLast(cfg, ys, steps, id, l, j)
    ensures steps[l].Advance? && id in ys[j].s.timers && ys[j].s.timers[id] == steps[l].env.now + cfg.interval
  {
    hide Apply, SetsTimer, Enabled;
    var y, st := ys[j - 1], steps[j - 1];
    assert Enabled(cfg, y, st) && ys[j] == Apply(cfg, y, st);
    StepTimer(cfg, y, st, id);
    if l < j - 1 {
      assert SetLast(cfg, ys, steps, id, l, j - 1);
      SetLastTimer(cfg, ys, steps, id, l, j - 1);
    }
  }

  /** In every run, whatever the clock does: a CHECKPOINT is put off exactly when less than an interval has passed since the
      step that set the client's timer last in this backend process, an INIT or a flush. */
  lemma PutOffExactly(cfg: Config, ys: seq<System>, steps: seq<Step>, id: nat, j: nat)
    requires Run(cfg, ys, steps) && cfg.storage && cfg.interval > 0 && j < |steps| && ys[0].s.timers == map[]
    requires AsksFlush(cfg, ys[j], steps[j], id) && steps[j].env.now >= 0
    ensures |ys| == |steps| + 1
    ensures Throttled(cfg, ys[j].s, ys[j].works[steps[j].t].c, steps[j].env) <==>
      exists l :: 0 <= l < j && SetLast(cfg, ys, steps, id, l, j) && steps[l].Advance? && steps[j].env.now < steps[l].env.now + cfg.interval
  {
    assert |ys| == |steps| + 1 && steps[j].t in ys[j].works;
    hide Run, SetLast, Modules, Enabled;
    if id in ys[j].s.timers {
      var l := TimerSetLast(cfg, ys, steps, id, j);
    }
    forall l | 0 <= l < j && SetLast(cfg, ys, steps, id, l, j)
      ensures steps[l].Advance? && id in ys[j].s.timers && ys[j].s.timers[id] == steps[l].env.now + cfg.interval
    {
      SetLastTimer(cfg, ys, steps, id, l, j);
    }
  }

  /** A flush of a client was tried at step `i`. Within the interval, a CHECKPOINT of that client is put off exactly when a
      flush or an INIT set the timer after the last restart of the backend. */
  lemma PutOffIff(cfg: Config, ys: seq<System>, steps: seq<Step>, id: nat, i: nat, j: nat)
    requires Run(cfg, ys, steps) && i < j < |steps| && cfg.storage && cfg.interval > 0 && Clocked(steps, i, j)
    requires TriesFlush(cfg, ys[i], steps[i], id) && AsksFlush(cfg, ys[j], steps[j], id)
    requires 0 <= steps[j].env.now < steps[i].env.now + cfg.interval
    ensures Throttled(cfg, ys[j].s, ys[j].works[steps[j].t].c, steps[j].env) <==>
      exists l :: i <= l < j && SetSince(cfg, ys, steps, id, l, j)
  {
    assert |ys| == |steps| + 1 && steps[j].t in ys[j].works;
    hide Run, Clocked, SetsTimer, Modules, Enabled, TriesFlush;
    if l :| i <= l < j && SetSince(cfg, ys, steps, id, l, j) {
      TimerReaches(cfg, ys, steps, id, i, l, j);
    }
    if Throttled(cfg, ys[j].s, ys[j].works[steps[j].t].c, steps[j].env) {
      assert SetsTimer(cfg, ys[i], steps[i], id) by { FlushSets(cfg, ys[i], steps[i], id); }
      var l := TimerOrigin(cfg, ys, steps, id, i, j);
      assert SetSince(cfg, ys, steps, id, l, j);
    }
  }

  /** So, with a clock that does not run backwards, two flushes of one client are at least the interval apart, provided that
      the timer was set after the last restart of the backend: by the first of them, by an INIT or by another flush. */
  lemma FlushesSpaced(cfg: Config, ys: seq<System>, steps: seq<Step>, id: nat, i: nat, l: nat, j: nat)
    requires Run(cfg, ys, steps) && i <= l < j < |steps| && cfg.storage && cfg.interval > 0 && Clocked(steps, i, j)
    requires TriesFlush(cfg, ys[i], steps[i], id) && SetSince(cfg, ys, steps, id, l, j) && TriesFlush(cfg, ys[j], steps[j], id)
    ensures steps[i].env.now + cfg.interval <= steps[j].env.now
  {
    TimerReaches(cfg, ys, steps, id, i, l, j);
  }

  // ---- runs that break what does not hold ----

  lemma Extend(cfg: Config, ys: seq<System>, steps: seq<Step>, st: Step) returns (ys': seq<System>, steps': seq<Step>)
    requires Run(cfg, ys, steps) && Enabled(cfg, ys[|steps|], st)
    ensures Run(cfg, ys', steps') && steps' == steps + [st]
    ensures |ys'| == |steps'| + 1 && ys <= ys' && ys'[|steps'|] == Apply(cfg, ys[|steps|], st)
  {
    hide Apply, Enabled;
    ys', steps' := ys + [Apply(cfg, ys[|steps|], st)], steps + [st];
  }

  lemma EmptyRun(cfg: Config, y: System)
    requires y.works == map[] && y.s.metadata == map[] && y.s.clients == {}
    ensures Run(cfg, [y], [])
  {
  }

  const STORAGE: Config := Config(false, false, true, 0, false, false, 0, 0, b => b)
  const IDLE: Env := Env(0, 0, map[], true, None, {}, {}, {})

  /** A command is taken up and passes the watchdog, which is off. */
  lemma StartCommand(cfg: Config, ys: seq<System>, steps: seq<Step>, c: Command) returns (ys': seq<System>, steps': seq<Step>)
    requires Run(cfg, ys, steps) && 0 !in ys[|steps|].works && Valid(c) && !cfg.watchdog && !cfg.ec
    ensures Run(cfg, ys', steps') && |ys'| == |steps'| + 1 && ys <= ys' && steps' == steps + [Start(0, c), Advance(0, IDLE)]
    ensures ys'[|steps'|] == System(ys[|steps|].s, ys[|steps|].works[0 := Work(c, 1, VELOC_IGNORED, false)])
    ensures ys'[|ys|] == System(ys[|steps|].s, ys[|steps|].works[0 := Fresh(c)])
  {
    assert |ys| == |steps| + 1;
    hide Run, Valid;
    assert Modules(cfg) == [Watchdog, Transfer, Chksum, Versioning];
    ys', steps' := Extend(cfg, ys, steps, Start(0, c));
    ys', steps' := Extend(cfg, ys', steps', Advance(0, IDLE));
  }

  /** A client that does not INIT after a restart of the backend flushes again at once. */
  lemma RebootBreaksSpacing() returns (cfg: Config, ys: seq<System>, steps: seq<Step>)
    ensures Run(cfg, ys, steps) && |steps| == 7 && cfg.storage && cfg.interval == 10
    ensures TriesFlush(cfg, ys[2], steps[2], 0) && steps[3] == Reboot && TriesFlush(cfg, ys[6], steps[6], 0)
    ensures steps[2].env.now == 0 && steps[6].env.now == 1
  {
    cfg := STORAGE.(interval := 10);
    var c := Command(Checkpoint, "a", 0, 1);
    var y := System(State(map[], map[], map[], {}, map[], map[], map[]), map[]);
    EmptyRun(cfg, y);
    hide Run, Stem;
    assert Modules(cfg) == [Watchdog, Transfer, Chksum, Versioning];
    ys, steps := StartCommand(cfg, [y], [], c);
    ys, steps := Extend(cfg, ys, steps, Advance(0, IDLE));
    assert TriesFlush(cfg, ys[2], steps[2], 0);
    ys, steps := Extend(cfg, ys, steps, Reboot);
    ys, steps := StartCommand(cfg, ys, steps, c);
    ys, steps := Extend(cfg, ys, steps, Advance(0, IDLE.(now := 1)));
  }

  const FILE: Command := Command(Checkpoint, "a", 0, 1)

  /** A flush of one byte over a file of two, and a restart of the backend that has lost its scratch directory. */
  lemma FlushOverLonger() returns (ys: seq<System>, steps: seq<Step>)
    ensures Run(STORAGE, ys, steps) && |ys| == 6 && |steps| == 5 && Flushes(STORAGE, ys[2], steps[2], FILE)
    ensures steps[3] == Reboot && steps[4] == Disturb(map[], ys[4].s.persistent) && ys[2].s.scratch[StemOf(FILE)] == [3]
    ensures ys[5] == System(State(map[], map[StemOf(FILE) := [3, 2]], map[], {}, map[], map[], map[]), map[])
  {
    var f := StemOf(FILE);
    var y := System(State(map[f := [3]], map[f := [1, 2]], map[], {}, map[], map[], map[]), map[]);
    EmptyRun(STORAGE, y);
    assert Overwrite([1, 2], 0, [3]) == [3, 2];
    hide Run, Stem, Overwrite;
    assert Modules(STORAGE) == [Watchdog, Transfer, Chksum, Versioning];
    ys, steps := StartCommand(STORAGE, [y], [], FILE);
    ys, steps := Extend(STORAGE, ys, steps, Advance(0, IDLE));
    assert ys[3].s == y.s.(persistent := map[f := [3, 2]]);
    ys, steps := Extend(STORAGE, ys, steps, Reboot);
    ys, steps := Extend(STORAGE, ys, steps, Disturb(map[], map[f := [3, 2]]));
  }

  /** A flush over a longer file of the same version, a restart of the backend, the loss of the scratch directory and a
      RESTART: the file that comes back ends with bytes of the older one. */
  lemma LongerFileShowsThrough() returns (ys: seq<System>, steps: seq<Step>)
    ensures Run(STORAGE, ys, steps) && |steps| == 8 && Flushes(STORAGE, ys[2], steps[2], FILE)
    ensures steps[3] == Reboot && steps[4] == Disturb(map[], ys[4].s.persistent)
    ensures Calls(STORAGE, ys[7], steps[7], Transfer, Restart, FILE) && StemOf(FILE) !in ys[7].s.scratch
    ensures ys[2].s.scratch[StemOf(FILE)] == [3]
    ensures StemOf(FILE) in ys[8].s.scratch && ys[8].s.scratch[StemOf(FILE)] == [3, 2]
  {
    ys, steps := FlushOverLonger();
    OverwriteEmpty([3, 2]);
    hide Run, Stem, Overwrite, Flushes;
    assert Modules(STORAGE) == [Watchdog, Transfer, Chksum, Versioning];
    ys, steps := StartCommand(STORAGE, ys, steps, FILE.(kind := Restart));
    ys, steps := Extend(STORAGE, ys, steps, Advance(0, IDLE));
  }
}
