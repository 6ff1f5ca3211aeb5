/** What a command finds and leaves in the directories, and what the client is answered after the whole module loop. */
module Answers {
  import opened Bytes
  import opened Naming
  import opened Sets
  import opened Pipeline
  import opened PipelineSafety
  import opened EndToEnd
  import opened Status

  /** Persistent storage is there and not switched off. */
  predicate Persists(cfg: Config) {
    cfg.storage && cfg.interval >= 0
  }

  /** The scratch directory as the transfer module finds it: erasure coding may have rebuilt files. */
  function Rebuilt(cfg: Config, s: State, env: Module -> Env): (r: Dir) {
    if cfg.ec then env(Ec).ecScratch else s.scratch
  }

  predicate EcSays(cfg: Config, env: Module -> Env, answer: int) {
    cfg.ec && env(Ec).ecAnswer == answer
  }

  // ---- RESTART ----

  /** The scratch directory after a RESTART has looked for the file and, if it must and can, fetched it; a copy that fails
      may leave the first bytes. */
  function AfterFetch(cfg: Config, s: State, c: Command, env: Module -> Env): (r: Dir) {
    var f, scratch := StemOf(c), Rebuilt(cfg, s, env);
    if EcSays(cfg, env, VELOC_FAILURE) || !Persists(cfg) || f in scratch || f !in s.persistent then scratch
    else if env(Transfer).io then scratch[f := s.persistent[f]]
    else if env(Transfer).left.Some? then scratch[f := s.persistent[f][..Min(env(Transfer).left.value, |s.persistent[f]|)]]
    else scratch
  }

  /** The file is in the scratch directory, or it is fetched. */
  predicate Available(cfg: Config, s: State, c: Command, env: Module -> Env) {
    StemOf(c) in Rebuilt(cfg, s, env) || (StemOf(c) in s.persistent && env(Transfer).io)
  }

  /** The recorded digest is that of the file. */
  predicate Confirmed(cfg: Config, dir: Dir, metadata: Dir, c: Command) {
    && StemOf(c) in dir && dir[StemOf(c)] != []
    && MetaOf(c) in metadata && |metadata[MetaOf(c)]| >= HASH_SIZE && cfg.hash(dir[StemOf(c)]) == metadata[MetaOf(c)][..HASH_SIZE]
  }

  lemma FetchAnswer(cfg: Config, s: State, c: Command, env: Env)
    requires c.kind.Restart? && Persists(cfg)
    ensures var (r, ret) := TransferCall(cfg, s, c, env); var f := StemOf(c);
      && ret == (if f in s.scratch || (f in s.persistent && env.io) then VELOC_SUCCESS else VELOC_IGNORED)
      && r.metadata == s.metadata
      && r.scratch == if f in s.scratch || f !in s.persistent then s.scratch
                      else if env.io then s.scratch[f := s.persistent[f]]
                      else if env.left.Some? then s.scratch[f := s.persistent[f][..Min(env.left.value, |s.persistent[f]|)]]
                      else s.scratch
  {
    hide Stem;
    var f := StemOf(c);
    if f !in s.scratch && f in s.persistent {
      OverwriteEmpty(s.persistent[f]);
      if env.left.Some? {
        OverwriteEmpty(s.persistent[f][..Min(env.left.value, |s.persistent[f]|)]);
      }
    }
    hide Overwrite;
  }

  lemma ConfirmAnswer(cfg: Config, s: State, c: Command, env: Env)
    requires c.kind.Restart?
    ensures ChksumCall(cfg, s, c, env)
         == (s, if !cfg.chksum then VELOC_IGNORED else if Confirmed(cfg, s.scratch, s.metadata, c) then VELOC_SUCCESS else VELOC_FAILURE)
  {
    hide Stem, ChecksumName;
  }

  lemma EcAnswer(cfg: Config, s: State, c: Command, env: Module -> Env)
    requires c.kind.Restart? || c.kind.Checkpoint?
    ensures var (r, ret) := MaybeEc(cfg, s, c, env(Ec));
      && r == s.(scratch := Rebuilt(cfg, s, env))
      && ret == if EcSays(cfg, env, VELOC_SUCCESS) then VELOC_SUCCESS
                else if EcSays(cfg, env, VELOC_FAILURE) then VELOC_FAILURE else VELOC_IGNORED
  {
  }

  lemma FetchSteps(cfg: Config, s: State, c: Command, env: Module -> Env)
    requires c.kind.Restart? && !EcSays(cfg, env, VELOC_FAILURE)
    ensures var s1 := s.(scratch := Rebuilt(cfg, s, env));
      var (r, ret) := TransferCall(cfg, s1, c, env(Transfer));
      && r.scratch == AfterFetch(cfg, s, c, env) && r.metadata == s.metadata
      && ret == if Persists(cfg) && Available(cfg, s, c, env) then VELOC_SUCCESS else VELOC_IGNORED
  {
    var s1 := s.(scratch := Rebuilt(cfg, s, env));
    if Persists(cfg) {
      FetchAnswer(cfg, s1, c, env(Transfer));
      hide Stem, TransferCall;
    }
  }

  lemma FailedFetch(cfg: Config, s: State, c: Command, env: Module -> Env)
    requires EcSays(cfg, env, VELOC_FAILURE)
    ensures AfterFetch(cfg, s, c, env) == Rebuilt(cfg, s, env)
  {
  }

  lemma RestartFiles(cfg: Config, s: State, c: Command, env: Env)
    requires c.kind.Restart?
    ensures var r := TransferCall(cfg, s, c, env).0; r.persistent == s.persistent
    ensures var r := VersioningCall(cfg, s, c, env).0; r.persistent == s.persistent && r.metadata == s.metadata
  {
    hide Stem, Copied;
  }

  /** A RESTART, on every state and with every answer of the file system and of erasure coding. It leaves the scratch directory
      as `AfterFetch` says. It fails exactly when erasure coding fails or, with checksums on, the file there is not confirmed.
      Otherwise it succeeds exactly when erasure coding does, or the file is available on a storage that is not switched
      off, or it was confirmed; and it is ignored if none of them has anything to say. */
  lemma RestartAnswer(cfg: Config, s: State, c: Command, env: Module -> Env)
    requires c.kind.Restart?
    ensures var (r, ret) := Finish(cfg, s, Fresh(c), env);
      && r.scratch == AfterFetch(cfg, s, c, env) && r.persistent == s.persistent && r.metadata == s.metadata
      && ret == if EcSays(cfg, env, VELOC_FAILURE) || (cfg.chksum && !Confirmed(cfg, r.scratch, s.metadata, c)) then VELOC_FAILURE
                else if EcSays(cfg, env, VELOC_SUCCESS) || (Persists(cfg) && Available(cfg, s, c, env)) || cfg.chksum then VELOC_SUCCESS
                else VELOC_IGNORED
  {
    Chain(cfg, s, c, env);
    hide Finish, WatchdogCall, EcCall, TransferCall, ChksumCall, VersioningCall, Stem, AfterFetch, Available, Confirmed, Rebuilt;
    RestartFrame(cfg, s, c, env(Watchdog));
    EcAnswer(cfg, s, c, env);
    var s1 := s.(scratch := Rebuilt(cfg, s, env));
    if !EcSays(cfg, env, VELOC_FAILURE) {
      FetchSteps(cfg, s, c, env);
      var s2 := TransferCall(cfg, s1, c, env(Transfer)).0;
      ConfirmAnswer(cfg, s2, c, env(Chksum));
      RestartFrame(cfg, s2, c, env(Versioning));
      RestartFiles(cfg, s1, c, env(Transfer));
      RestartFiles(cfg, s2, c, env(Versioning));
    } else {
      FailedFetch(cfg, s, c, env);
    }
  }

  /** In particular, without erasure coding and on a storage that is not switched off: a RESTART succeeds exactly when the
      file is available, or confirmed if checksums are on. It is then in the scratch directory, as it was there or as it is on
      persistent storage. Otherwise the answer is negative. */
  lemma RestartSucceedsIff(cfg: Config, s: State, c: Command, env: Module -> Env)
    requires c.kind.Restart? && !cfg.ec && Persists(cfg)
    ensures var (r, ret) := Finish(cfg, s, Fresh(c), env); var f := StemOf(c);
      && (ret == VELOC_SUCCESS <==> if cfg.chksum then Confirmed(cfg, r.scratch, s.metadata, c) else f in s.scratch || (f in s.persistent && env(Transfer).io))
      && (ret == VELOC_SUCCESS ==> f in r.scratch)
      && (ret == VELOC_SUCCESS && f in s.scratch ==> r.scratch == s.scratch)
      && (ret == VELOC_SUCCESS && f !in s.scratch && env(Transfer).io ==> f in s.persistent && r.scratch == s.scratch[f := s.persistent[f]])
      && (ret != VELOC_SUCCESS ==> ret < 0)
  {
    RestartAnswer(cfg, s, c, env);
    hide Finish, Stem, ChecksumName;
  }

  // ---- CHECKPOINT and INIT ----

  /** The flush is not wanted, put off, or performed. */
  predicate FlushPasses(cfg: Config, s: State, c: Command, scratch: Dir, env: Env) {
    || !Persists(cfg)
    || (cfg.interval > 0 && c.id in s.timers && env.now < s.timers[c.id])
    || (cfg.interval > 0 && c.id !in s.timers && env.now < 0)
    || (StemOf(c) in scratch && env.io)
  }

  lemma FlushAnswer(cfg: Config, s: State, c: Command, env: Env)
    requires c.kind.Checkpoint?
    ensures var (r, ret) := TransferCall(cfg, s, c, env);
      && (ret == VELOC_FAILURE <==> !FlushPasses(cfg, s, c, s.scratch, env)) && ret <= VELOC_SUCCESS
      && r.scratch == s.scratch
  {
    hide Stem, Copied;
  }

  lemma RecordAnswer(cfg: Config, s: State, c: Command, env: Env)
    requires c.kind.Checkpoint?
    ensures var ret := ChksumCall(cfg, s, c, env).1; var f := StemOf(c);
      (ret == VELOC_FAILURE <==> cfg.chksum && !(f in s.scratch && s.scratch[f] != [] && env.io)) && ret <= VELOC_SUCCESS
    ensures var r := ChksumCall(cfg, s, c, env).0; r.scratch == s.scratch
  {
    hide Stem, ChecksumName;
  }

  lemma WatchAnswer(cfg: Config, s: State, c: Command, env: Env)
    requires c.kind.Checkpoint?
    ensures var (r, ret) := WatchdogCall(cfg, s, c, env);
      r == s && (ret == VELOC_FAILURE <==> cfg.watchdog && c.id !in s.clients) && ret <= VELOC_SUCCESS
  {
  }

  /** A CHECKPOINT, on every state, is answered VELOC_SUCCESS or VELOC_FAILURE. It fails exactly when the watchdog does not know
      the client, erasure coding fails, the file cannot be flushed though it should be, or its digest cannot be recorded. */
  lemma CheckpointAnswer(cfg: Config, s: State, c: Command, env: Module -> Env)
    requires c.kind.Checkpoint?
    ensures var ret := Finish(cfg, s, Fresh(c), env).1; var f, scratch := StemOf(c), Rebuilt(cfg, s, env);
      ret == if || (cfg.watchdog && c.id !in s.clients)
                || EcSays(cfg, env, VELOC_FAILURE)
                || !FlushPasses(cfg, s, c, scratch, env(Transfer))
                || (cfg.chksum && !(f in scratch && scratch[f] != [] && env(Chksum).io))
             then VELOC_FAILURE else VELOC_SUCCESS
  {
    Chain(cfg, s, c, env);
    hide Finish, WatchdogCall, EcCall, TransferCall, ChksumCall, Stem, Rebuilt, PersistentTrimmed, ScratchTrimmed;
    WatchAnswer(cfg, s, c, env(Watchdog));
    EcAnswer(cfg, s, c, env);
    var s1 := s.(scratch := Rebuilt(cfg, s, env));
    FlushAnswer(cfg, s1, c, env(Transfer));
    RecordAnswer(cfg, TransferCall(cfg, s1, c, env(Transfer)).0, c, env(Chksum));
  }

  /** An INIT never fails, and registers the client and sets its timer where they are wanted. */
  lemma InitAnswer(cfg: Config, s: State, c: Command, env: Module -> Env)
    requires c.kind.Init?
    ensures var (r, ret) := Finish(cfg, s, Fresh(c), env);
      && ret == (if cfg.watchdog || EcSays(cfg, env, VELOC_SUCCESS) || Persists(cfg) then VELOC_SUCCESS else VELOC_IGNORED)
      && r == s.(clients := if cfg.watchdog then s.clients + {c.id} else s.clients,
                 timers := if Persists(cfg) then s.timers[c.id := env(Transfer).now + cfg.interval] else s.timers)
  {
    Chain(cfg, s, c, env);
    hide Finish;
  }

  // ---- no limit ----

  lemma FlushOnlyAdds(cfg: Config, s: State, c: Command, env: Env)
    requires c.kind.Checkpoint?
    ensures var r := TransferCall(cfg, s, c, env).0;
      && r.metadata == s.metadata && r.scratch == s.scratch
      && forall f :: f in s.persistent ==> f in r.persistent && (f == StemOf(c) || r.persistent[f] == s.persistent[f])
  {
    hide Stem, Overwrite, Throttled;
  }

  lemma RecordOnlyAdds(cfg: Config, s: State, c: Command, env: Env)
    requires c.kind.Checkpoint?
    ensures var r := ChksumCall(cfg, s, c, env).0;
      && r.persistent == s.persistent && r.scratch == s.scratch
      && forall f :: f in s.metadata ==> f in r.metadata && (f == MetaOf(c) || r.metadata[f] == s.metadata[f])
  {
    hide Stem, ChecksumName;
  }

  /** Without a limit on the versions a CHECKPOINT removes nothing: no file of persistent storage and no checksum file, whatever
      its name, and the files of other commands stay as they are. */
  lemma NoLimitKeepsAll(cfg: Config, s: State, c: Command, env: Module -> Env)
    requires c.kind.Checkpoint? && cfg.maxVersions == 0
    ensures var r := Finish(cfg, s, Fresh(c), env).0;
      && (forall f :: f in s.persistent ==> f in r.persistent && (f == StemOf(c) || r.persistent[f] == s.persistent[f]))
      && (forall f :: f in s.metadata ==> f in r.metadata && (f == MetaOf(c) || r.metadata[f] == s.metadata[f]))
      && (cfg.scratchVersions == 0 && !cfg.ec ==> r.scratch == s.scratch)
  {
    Chain(cfg, s, c, env);
    hide Finish, WatchdogCall, EcCall, TransferCall, ChksumCall, Stem, ChecksumName;
    var s0 := WatchdogCall(cfg, s, c, env(Watchdog)).0;
    var s1 := MaybeEc(cfg, s0, c, env(Ec)).0;
    var s2 := TransferCall(cfg, s1, c, env(Transfer)).0;
    WatchAnswer(cfg, s, c, env(Watchdog));
    EcFrame(cfg, s0, c, env(Ec));
    FlushOnlyAdds(cfg, s1, c, env(Transfer));
    RecordOnlyAdds(cfg, s2, c, env(Chksum));
  }

  // ---- versions that are kept ----

  /** A step that neither rewrites nor retires the checksum file of `c`. */
  predicate SparesChecksum(cfg: Config, y: System, st: Step, c: Command) {
    && !Calls(cfg, y, st, Chksum, Checkpoint, c)
    && (Enabled(cfg, y, st) && st.Advance? && Modules(cfg)[y.works[st.t].k] == Versioning && y.works[st.t].c.kind.Checkpoint?
        ==> !Erases(cfg, y.s, y.works[st.t].c, st.env, c))
  }

  lemma ChksumSpares(cfg: Config, s: State, w: Command, env: Env, c: Command)
    requires ValidName(w.name) && ValidName(c.name) && !(w.kind.Checkpoint? && SameFile(w, c)) && MetaOf(c) in s.metadata
    ensures var r := ChksumCall(cfg, s, w, env).0.metadata; MetaOf(c) in r && r[MetaOf(c)] == s.metadata[MetaOf(c)]
  {
    hide Stem, ChecksumName, ValidName;
    if MetaOf(w) == MetaOf(c) {
      ChecksumInjective(w.name, w.id, w.version, c.name, c.id, c.version);
    }
  }

  lemma SparedChecksum(cfg: Config, y: System, st: Step, c: Command)
    requires Named(y) && ValidName(c.name) && Enabled(cfg, y, st) && SparesChecksum(cfg, y, st, c) && MetaOf(c) in y.s.metadata
    ensures var r := Apply(cfg, y, st).s.metadata; MetaOf(c) in r && r[MetaOf(c)] == y.s.metadata[MetaOf(c)]
  {
    hide Modules, TransferCall, WatchdogCall, EcCall, VersioningCall, ChksumCall, ChecksumName, ValidName, Erases;
    if st.Advance? {
      var w := y.works[st.t];
      match Modules(cfg)[w.k] {
        case Watchdog => WatchdogFrame(cfg, y.s, w.c, st.env);
        case Ec => EcFrame(cfg, y.s, w.c, st.env);
        case Transfer => TransferFrame(cfg, y.s, w.c, st.env);
        case Chksum => ChksumSpares(cfg, y.s, w.c, st.env, c);
        case Versioning =>
          VersioningMeta(cfg, y.s, w.c, st.env);
          TrimChecksums(cfg, y.s, w.c, st.env, c);
      }
    }
  }

  /** A saved version stays saved, file and digest, while steps rewrite, retire or damage neither: other versions of the name,
      other names and restarts of the backend leave it alone. */
  lemma {:induction false} StaysSaved(cfg: Config, ys: seq<System>, steps: seq<Step>, c: Command, data: seq<byte>, i: nat, n: nat)
    requires Run(cfg, ys, steps) && i <= n < |ys| && ValidName(c.name) && Saved(cfg, ys[i].s, c, data)
    requires forall l :: i <= l < n ==> Spares(cfg, ys[l], steps[l], c) && SparesChecksum(cfg, ys[l], steps[l], c)
    ensures Saved(cfg, ys[n].s, c, data)
  {
    if n > i {
      StaysSaved(cfg, ys, steps, c, data, i, n - 1);
      RunNames(cfg, ys, steps, n - 1);
      assert Enabled(cfg, ys[n - 1], steps[n - 1]) && ys[n] == Apply(cfg, ys[n - 1], steps[n - 1]);
      hide Run, Apply, Enabled, Spares, SparesChecksum, ValidName, Stem, ChecksumName;
      SparedPersists(cfg, ys[n - 1], steps[n - 1], c, data);
      if cfg.chksum {
        SparedChecksum(cfg, ys[n - 1], steps[n - 1], c);
      }
    }
  }

  /** So an older version that is kept can be restarted, checksums on or off, in a new backend on another node. */
  lemma KeptRestarts(cfg: Config, ys: seq<System>, steps: seq<Step>, c: Command, data: seq<byte>, i: nat, n: nat, t: State, env: Module -> Env)
    requires Run(cfg, ys, steps) && i <= n < |ys| && ValidName(c.name) && c.kind.Restart? && Persists(cfg) && Digests(cfg)
    requires Saved(cfg, ys[i].s, c, data)
    requires forall l :: i <= l < n ==> Spares(cfg, ys[l], steps[l], c) && SparesChecksum(cfg, ys[l], steps[l], c)
    requires t.persistent == ys[n].s.persistent && t.metadata == ys[n].s.metadata && Fetchable(cfg, t, c, data, env)
    ensures var (r, ret) := Finish(cfg, t, Fresh(c), env);
      ret == VELOC_SUCCESS && StemOf(c) in r.scratch && r.scratch[StemOf(c)] == data
  {
    hide Run, Spares, SparesChecksum, ValidName, Finish, Fetchable, Digests;
    StaysSaved(cfg, ys, steps, c, data, i, n);
    RestartFetches(cfg, t, c, data, env);
  }

  lemma OldScratchFile(name: string, other: string, id: nat, v: nat, gone: set<int>)
    requires ValidName(name) && '.' !in name && ValidName(other) && id <= INT_MAX && v <= INT_MAX
    ensures OldScratch(Stem(other, id, v), name, gone) <==> other == name && v in gone
  {
    hide Match, Stem, ValidName;
    MatchesOwnFiles(name, other, id, v);
    if name == other {
      MatchInverts(name, id, v);
    }
  }

  /** On scratch, trimming removes exactly the retired versions of the command's own name, whatever their id, and leaves the
      newest in the history; 0 keeps all. */
  lemma TrimScratch(cfg: Config, s: State, c: Command, env: Env, name: string, id: nat, v: nat)
    requires ValidName(c.name) && '.' !in c.name && ValidName(name) && id <= INT_MAX && v <= INT_MAX
    ensures var f, h, k := Stem(name, id, v), Known(s.scratchHistory, c) + {c.version}, cfg.scratchVersions;
      var r := ScratchTrimmed(cfg, s, c, env);
      && (f in r.scratch <==> f in s.scratch && !(k > 0 && name == c.name && v in h && v !in Newest(h, k) && f !in env.stuckScratch))
      && (f in r.scratch ==> r.scratch[f] == s.scratch[f])
      && (k > 0 ==> Known(r.scratchHistory, c) == Newest(h, k))
  {
    hide OldScratch, Stem, ValidName, Newest;
    var h, k := Known(s.scratchHistory, c) + {c.version}, cfg.scratchVersions;
    NewestKeeps(h, k);
    OldScratchFile(c.name, name, id, v, Outdated(h, k));
    assert h - (h - Newest(h, k)) == Newest(h, k);
  }

  /** The versions that scratch holds for a command: files of its name and id, and of the erasure coding. */
  function OnScratch(s: State, c: Command): (r: set<int>) {
    Versions(s.scratch, c.name, {ID_EC, c.id})
  }

  ghost predicate ScratchInSync(s: State, c: Command) {
    Known(s.scratchHistory, c) == OnScratch(s, c)
  }

  lemma VersionsWithout(dir: Dir, name: string, ids: set<int>, gone: set<int>)
    ensures Versions(WithoutScratch(dir, name, gone, {}), name, ids) == Versions(dir, name, ids) - gone
  {
    hide Match;
    var rest := WithoutScratch(dir, name, gone, {});
    forall v | v in Versions(dir, name, ids) - gone ensures v in Versions(rest, name, ids) {
      var f :| f in dir && Match(name, f).Matched? && Match(name, f).id in ids && Match(name, f).version == v;
      assert f in rest;
    }
  }

  /** A TEST puts the scratch history in step with the files, whatever it was before. */
  lemma TestSyncs(cfg: Config, s: State, c: Command, env: Env)
    requires c.kind.Test?
    ensures var r := VersioningCall(cfg, s, c, env).0; r.scratch == s.scratch && ScratchInSync(r, c)
  {
    hide Versions, Best;
  }

  /** A RESTART keeps it in step if the file it looks for is the only one that came since. */
  lemma RestartSyncs(cfg: Config, s: State, c: Command, env: Env)
    requires c.kind.Restart? && OnScratch(s, c) == Known(s.scratchHistory, c) + if StemOf(c) in s.scratch then {c.version} else {}
    ensures var r := VersioningCall(cfg, s, c, env).0; r.scratch == s.scratch && ScratchInSync(r, c)
  {
    hide Versions, Stem;
  }

  lemma ScratchAfter(cfg: Config, s: State, c: Command, env: Env)
    requires c.kind.Checkpoint? && cfg.scratchVersions > 0
    ensures var r, h := VersioningCall(cfg, s, c, env).0, Known(s.scratchHistory, c) + {c.version};
      && r.scratch == WithoutScratch(s.scratch, c.name, Outdated(h, cfg.scratchVersions), env.stuckScratch)
      && Known(r.scratchHistory, c) == h - Outdated(h, cfg.scratchVersions)
  {
    hide WithoutCheckpoints, WithoutChecksums, WithoutScratch, Trimmed, Outdated;
  }

  /** A CHECKPOINT leaves exactly the newest versions on scratch, its own counted in, if its file is the only one that came
      since and nothing resists removal. */
  lemma CheckpointSyncs(cfg: Config, s: State, c: Command, env: Env)
    requires c.kind.Checkpoint? && OnScratch(s, c) == Known(s.scratchHistory, c) + {c.version}
    requires cfg.scratchVersions > 0 && env.stuckScratch == {}
    ensures var r := VersioningCall(cfg, s, c, env).0;
      ScratchInSync(r, c) && OnScratch(r, c) == Newest(OnScratch(s, c), cfg.scratchVersions)
  {
    hide VersioningCall, Versions, Newest, WithoutScratch;
    var h, k := Known(s.scratchHistory, c) + {c.version}, cfg.scratchVersions;
    ScratchAfter(cfg, s, c, env);
    NewestKeeps(h, k);
    VersionsWithout(s.scratch, c.name, {ID_EC, c.id}, Outdated(h, k));
    assert h - (h - Newest(h, k)) == Newest(h, k);
  }
}
