/** From the memory of a client through CHECKPOINT, the loss of the node's scratch directory, and RESTART, back into memory. */
module EndToEnd {
  import opened Bytes
  import opened Naming
  import opened Sets
  import opened Pipeline
  import opened PipelineSafety
  import opened Status
  import Layout
  import Memory

  /** The erasure coding module is only there when it is installed. */
  function MaybeEc(cfg: Config, s: State, c: Command, env: Env): (r: (State, int)) {
    if cfg.ec then EcCall(cfg, s, c, env) else (s, VELOC_IGNORED)
  }

  lemma FinishRound(cfg: Config, s: State, w: Work, env: Module -> Env)
    requires !w.done && w.k < |Modules(cfg)|
    ensures var (s', r) := Call(cfg, Modules(cfg)[w.k], s, w.c, env(Modules(cfg)[w.k]));
      Finish(cfg, s, w, env) ==
        if r == VELOC_FAILURE then (s', VELOC_FAILURE)
        else if w.k + 1 == |Modules(cfg)| then (s', Max(w.ret, r))
        else Finish(cfg, s', Work(w.c, w.k + 1, Max(w.ret, r), false), env)
  {
    hide Call, Modules;
  }

  lemma LastThree(cfg: Config, s: State, w: Work, env: Module -> Env)
    requires !w.done && w.k == |Modules(cfg)| - 3
    ensures var (s2, r2) := TransferCall(cfg, s, w.c, env(Transfer));
      var (s3, r3) := ChksumCall(cfg, s2, w.c, env(Chksum));
      var (s4, r4) := VersioningCall(cfg, s3, w.c, env(Versioning));
      Finish(cfg, s, w, env) ==
        if r2 == VELOC_FAILURE then (s2, VELOC_FAILURE)
        else if r3 == VELOC_FAILURE then (s3, VELOC_FAILURE)
        else if r4 == VELOC_FAILURE then (s4, VELOC_FAILURE)
        else (s4, Max(Max(Max(w.ret, r2), r3), r4))
  {
    hide TransferCall, ChksumCall, VersioningCall, Finish;
    var (s2, r2) := TransferCall(cfg, s, w.c, env(Transfer));
    var (s3, r3) := ChksumCall(cfg, s2, w.c, env(Chksum));
    var a2 := Max(w.ret, r2);
    FinishRound(cfg, s, w, env);
    FinishRound(cfg, s2, Work(w.c, w.k + 1, a2, false), env);
    FinishRound(cfg, s3, Work(w.c, w.k + 2, Max(a2, r3), false), env);
  }

  /** What the module loop computes: the first failure ends it, with what has been done so far; otherwise every module
      has run and the greatest answer counts. */
  lemma Chain(cfg: Config, s: State, c: Command, env: Module -> Env)
    ensures var (s0, r0) := WatchdogCall(cfg, s, c, env(Watchdog));
      var (s1, r1) := MaybeEc(cfg, s0, c, env(Ec));
      var (s2, r2) := TransferCall(cfg, s1, c, env(Transfer));
      var (s3, r3) := ChksumCall(cfg, s2, c, env(Chksum));
      var (s4, r4) := VersioningCall(cfg, s3, c, env(Versioning));
      Finish(cfg, s, Fresh(c), env) ==
        if r0 == VELOC_FAILURE then (s0, VELOC_FAILURE)
        else if r1 == VELOC_FAILURE then (s1, VELOC_FAILURE)
        else if r2 == VELOC_FAILURE then (s2, VELOC_FAILURE)
        else if r3 == VELOC_FAILURE then (s3, VELOC_FAILURE)
        else if r4 == VELOC_FAILURE then (s4, VELOC_FAILURE)
        else (s4, Max(Max(Max(Max(Max(VELOC_IGNORED, r0), r1), r2), r3), r4))
  {
    hide WatchdogCall, EcCall, TransferCall, ChksumCall, VersioningCall, Finish;
    var (s0, r0) := WatchdogCall(cfg, s, c, env(Watchdog));
    var (s1, r1) := MaybeEc(cfg, s0, c, env(Ec));
    var a0 := Max(VELOC_IGNORED, r0);
    FinishRound(cfg, s, Fresh(c), env);
    if cfg.ec {
      assert Modules(cfg) == [Watchdog, Ec, Transfer, Chksum, Versioning];
      FinishRound(cfg, s0, Work(c, 1, a0, false), env);
      LastThree(cfg, s1, Work(c, 2, Max(a0, r1), false), env);
    } else {
      assert Modules(cfg) == [Watchdog, Transfer, Chksum, Versioning];
      LastThree(cfg, s1, Work(c, 1, a0, false), env);
    }
  }

  /** The state after a CHECKPOINT: the file is on persistent storage, its digest in the metadata directory. */
  ghost predicate Saved(cfg: Config, s: State, c: Command, data: seq<byte>) {
    && StemOf(c) in s.persistent && s.persistent[StemOf(c)] == data
    && (cfg.chksum ==> data != [] && MetaOf(c) in s.metadata && s.metadata[MetaOf(c)] == cfg.hash(data))
  }

  lemma FlushSaves(cfg: Config, s: State, c: Command, env: Env)
    requires cfg.storage && cfg.interval >= 0 && !Throttled(cfg, s, c, env) && c.kind.Checkpoint? && StemOf(c) in s.scratch
    requires |Content(s.persistent, StemOf(c))| <= |s.scratch[StemOf(c)]| && TransferCall(cfg, s, c, env).1 != VELOC_FAILURE
    ensures var r := TransferCall(cfg, s, c, env).0;
      && r.history == s.history && r.scratch == s.scratch
      && StemOf(c) in r.persistent && r.persistent[StemOf(c)] == s.scratch[StemOf(c)]
  {
    hide Stem;
    OverwriteExactIff(Content(s.persistent, StemOf(c)), s.scratch[StemOf(c)]);
  }

  lemma ChksumSaves(cfg: Config, s: State, c: Command, env: Env)
    requires c.kind.Checkpoint? && StemOf(c) in s.scratch && StemOf(c) in s.persistent
    requires s.persistent[StemOf(c)] == s.scratch[StemOf(c)] && ChksumCall(cfg, s, c, env).1 != VELOC_FAILURE
    ensures var r := ChksumCall(cfg, s, c, env).0; r.history == s.history && Saved(cfg, r, c, s.scratch[StemOf(c)])
  {
    hide Stem, ChecksumName;
  }

  lemma SameThrottled(cfg: Config, s: State, s': State, c: Command, env: Env)
    requires s.timers == s'.timers
    ensures Throttled(cfg, s, c, env) == Throttled(cfg, s', c, env)
  {
  }

  lemma SameTrimmed(cfg: Config, s: State, s': State, c: Command)
    requires s.history == s'.history
    ensures Trimmed(cfg, s, c) == Trimmed(cfg, s', c)
  {
  }

  /** Command `w` retires the checksum file of `c`. */
  predicate Erases(cfg: Config, s: State, w: Command, env: Env, c: Command) {
    cfg.meta && w.name == c.name && w.id == c.id && c.version in Trimmed(cfg, s, w) && MetaOf(c) !in env.stuckMeta
  }

  /** Trimming removes exactly the checksum files of the retired versions of the command's own name and id. */
  lemma TrimChecksums(cfg: Config, s: State, w: Command, env: Env, c: Command)
    requires ValidName(w.name) && ValidName(c.name)
    ensures var r := PersistentTrimmed(cfg, s, w, env).metadata;
      && (MetaOf(c) in r <==> MetaOf(c) in s.metadata && !Erases(cfg, s, w, env, c))
      && (MetaOf(c) in r ==> r[MetaOf(c)] == s.metadata[MetaOf(c)])
  {
    var gone := Trimmed(cfg, s, w);
    if v: nat :| v in gone && MetaOf(c) == ChecksumName(w.name, w.id, v) {
      ChecksumInjective(w.name, w.id, v, c.name, c.id, c.version);
    }
    if Erases(cfg, s, w, env, c) {
      assert OldChecksum(MetaOf(c), w, gone);
    }
    hide ChecksumName, ValidName, OldCheckpoint;
  }

  lemma VersioningMeta(cfg: Config, s: State, w: Command, env: Env)
    ensures VersioningCall(cfg, s, w, env).0.metadata == if w.kind.Checkpoint? then PersistentTrimmed(cfg, s, w, env).metadata else s.metadata
  {
    hide PersistentTrimmed, Stem, Versions, Best;
  }

  /** A CHECKPOINT meets the file in scratch after erasure coding has run, is not put off, does not write over a longer
      file of the same version, is not retired at once, and does not fail. */
  ghost predicate Checkpointed(cfg: Config, s: State, c: Command, env: Module -> Env) {
    && cfg.storage && cfg.interval >= 0 && c.kind.Checkpoint? && ValidName(c.name) && StemOf(c) in s.scratch
    && StemOf(c) in MaybeEc(cfg, s, c, env(Ec)).0.scratch
    && MaybeEc(cfg, s, c, env(Ec)).0.scratch[StemOf(c)] == s.scratch[StemOf(c)]
    && !Throttled(cfg, s, c, env(Transfer)) && c.version !in Trimmed(cfg, s, c)
    && |Content(s.persistent, StemOf(c))| <= |s.scratch[StemOf(c)]|
    && Finish(cfg, s, Fresh(c), env).1 != VELOC_FAILURE
  }

  lemma CheckpointSaves(cfg: Config, s: State, c: Command, env: Module -> Env)
    requires Checkpointed(cfg, s, c, env)
    ensures Saved(cfg, Finish(cfg, s, Fresh(c), env).0, c, s.scratch[StemOf(c)])
  {
    Chain(cfg, s, c, env);
    assert WatchdogCall(cfg, s, c, env(Watchdog)).0 == s;
    hide Finish, WatchdogCall, EcCall, TransferCall, ChksumCall, VersioningCall, Stem, ValidName, Trimmed, Throttled;
    var (s1, r1) := MaybeEc(cfg, s, c, env(Ec));
    var (s2, r2) := TransferCall(cfg, s1, c, env(Transfer));
    var (s3, r3) := ChksumCall(cfg, s2, c, env(Chksum));
    EcFrame(cfg, s, c, env(Ec));
    assert !Throttled(cfg, s1, c, env(Transfer)) by { SameThrottled(cfg, s, s1, c, env(Transfer)); }
    FlushSaves(cfg, s1, c, env(Transfer));
    ChksumSaves(cfg, s2, c, env(Chksum));
    assert Trimmed(cfg, s3, c) == Trimmed(cfg, s, c) by { SameTrimmed(cfg, s, s3, c); }
    VersioningPersistent(cfg, s3, c, env(Versioning), c);
    VersioningMeta(cfg, s3, c, env(Versioning));
    TrimChecksums(cfg, s3, c, env(Versioning), c);
  }

  lemma FetchesFile(cfg: Config, s: State, c: Command, data: seq<byte>, env: Env)
    requires cfg.storage && cfg.interval >= 0 && c.kind.Restart? && StemOf(c) in s.persistent && s.persistent[StemOf(c)] == data
    requires if StemOf(c) in s.scratch then s.scratch[StemOf(c)] == data else env.io
    ensures TransferCall(cfg, s, c, env) == (s.(scratch := s.scratch[StemOf(c) := data]), VELOC_SUCCESS)
  {
    hide Stem, Overwrite;
    OverwriteEmpty(data);
    if StemOf(c) in s.scratch {
      assert s.scratch[StemOf(c) := data] == s.scratch;
    } else {
      assert Content(s.scratch, StemOf(c)) == [];
    }
  }

  lemma ConfirmCall(cfg: Config, s: State, c: Command, data: seq<byte>, env: Env)
    requires Digests(cfg) && c.kind.Restart? && Saved(cfg, s, c, data) && StemOf(c) in s.scratch && s.scratch[StemOf(c)] == data
    ensures ChksumCall(cfg, s, c, env) == (s, if cfg.chksum then VELOC_SUCCESS else VELOC_IGNORED)
  {
    hide Stem, ChecksumName;
    assert cfg.chksum ==> cfg.hash(data)[..HASH_SIZE] == cfg.hash(data);
  }

  lemma RestartFrame(cfg: Config, s: State, c: Command, env: Env)
    requires c.kind.Restart?
    ensures WatchdogCall(cfg, s, c, env) == (s, VELOC_IGNORED)
    ensures var (r, ret) := VersioningCall(cfg, s, c, env); r.scratch == s.scratch && ret == VELOC_IGNORED
  {
    hide Stem;
  }

  /** A RESTART finds the saved file in scratch or can fetch it, after erasure coding has tried to rebuild it. */
  ghost predicate Fetchable(cfg: Config, s: State, c: Command, data: seq<byte>, env: Module -> Env) {
    var (s1, r1) := MaybeEc(cfg, s, c, env(Ec));
    && r1 != VELOC_FAILURE && (if StemOf(c) in s1.scratch then s1.scratch[StemOf(c)] == data else env(Transfer).io)
  }

  lemma EcAnswers(cfg: Config, s: State, c: Command, env: Env)
    ensures MaybeEc(cfg, s, c, env).1 in [VELOC_SUCCESS, VELOC_FAILURE, VELOC_IGNORED]
  {
  }

  lemma RestartFetches(cfg: Config, s: State, c: Command, data: seq<byte>, env: Module -> Env)
    requires cfg.storage && cfg.interval >= 0 && Digests(cfg) && c.kind.Restart? && Saved(cfg, s, c, data)
    requires Fetchable(cfg, s, c, data, env)
    ensures var (r, ret) := Finish(cfg, s, Fresh(c), env);
      ret == VELOC_SUCCESS && StemOf(c) in r.scratch && r.scratch[StemOf(c)] == data
  {
    Chain(cfg, s, c, env);
    EcAnswers(cfg, s, c, env(Ec));
    hide Finish, WatchdogCall, EcCall, TransferCall, ChksumCall, VersioningCall, Stem, Digests;
    var s1 := MaybeEc(cfg, s, c, env(Ec)).0;
    var s2 := s1.(scratch := s1.scratch[StemOf(c) := data]);
    RestartFrame(cfg, s, c, env(Watchdog));
    EcFrame(cfg, s, c, env(Ec));
    assert Saved(cfg, s1, c, data) && Saved(cfg, s2, c, data);
    FetchesFile(cfg, s1, c, data, env(Transfer));
    ConfirmCall(cfg, s2, c, data, env(Chksum));
    RestartFrame(cfg, s2, c, env(Versioning));
  }

  /** After the CHECKPOINT only what is on persistent storage and in the metadata directory is left: `t` may be the state
      of a new backend on another node. */
  ghost predicate Recoverable(cfg: Config, s: State, c: Command, env: Module -> Env, t: State, again: Module -> Env) {
    && Digests(cfg) && Checkpointed(cfg, s, c, env)
    && t.persistent == Finish(cfg, s, Fresh(c), env).0.persistent && t.metadata == Finish(cfg, s, Fresh(c), env).0.metadata
    && Fetchable(cfg, t, c.(kind := Restart), s.scratch[StemOf(c)], again)
  }

  /** A CHECKPOINT that completes, the loss of the node, and a RESTART: the file is back. */
  lemma FileRoundTrip(cfg: Config, s: State, c: Command, env: Module -> Env, t: State, again: Module -> Env)
    requires Recoverable(cfg, s, c, env, t, again)
    ensures var (r, ret) := Finish(cfg, t, Fresh(c.(kind := Restart)), again);
      ret == VELOC_SUCCESS && StemOf(c) in r.scratch && r.scratch[StemOf(c)] == s.scratch[StemOf(c)]
  {
    CheckpointSaves(cfg, s, c, env);
    hide Finish, Stem, ValidName, Trimmed, Digests, Fetchable;
    var restart := c.(kind := Restart);
    assert Saved(cfg, t, restart, s.scratch[StemOf(c)]);
    RestartFetches(cfg, t, restart, s.scratch[StemOf(c)], again);
  }

  /** The whole way round: what a client checkpointed from its memory is what it recovers after losing the node. */
  lemma MemoryRoundTrip<V(!new)>(cfg: Config, s: State, c: Command, env: Module -> Env, t: State, again: Module -> Env,
      codec: Memory.Codec<V>, m: Memory.Mem<V>, mem: Memory.Mem<V>, mode: Memory.Mode, ids: set<int>)
    requires Recoverable(cfg, s, c, env, t, again)
    requires Memory.Faithful(codec) && Memory.Checkpointable(codec, m) && Memory.Receives(m, mem)
    requires s.scratch[StemOf(c)] == Memory.FileOf(codec, m)
    ensures var (r, ret) := Finish(cfg, t, Fresh(c.(kind := Restart)), again);
      && ret == VELOC_SUCCESS && StemOf(c) in r.scratch
      && var file := r.scratch[StemOf(c)];
      && Layout.HeaderOf(file).Some?
      && var (h, info) := Layout.HeaderOf(file).value;
      && Memory.Framed(codec, file, h, info, mem)
      && var out := Memory.Recover(codec, file, h, info, mode, ids, mem); out.ok && Memory.Brought(m, mode, ids, mem, out.mem)
  {
    FileRoundTrip(cfg, s, c, env, t, again);
    Memory.CheckpointRecovers(codec, m, mem, mode, ids);
  }

  // ---- retention, in terms of files ----

  /** The history of a name and id lists exactly the versions that have a file on persistent storage. */
  ghost predicate InSync(s: State, c: Command) {
    && (forall v :: v in Known(s.history, c) ==> v >= 0)
    && forall v: nat :: Stem(c.name, c.id, v) in s.persistent <==> v in Known(s.history, c)
  }

  lemma FlushAdds(cfg: Config, s: State, c: Command, env: Env)
    requires cfg.storage && cfg.interval == 0 && c.kind.Checkpoint? && TransferCall(cfg, s, c, env).1 != VELOC_FAILURE
    ensures var r := TransferCall(cfg, s, c, env).0; r.history == s.history && r.persistent.Keys == s.persistent.Keys + {StemOf(c)}
  {
    hide Stem, Overwrite;
  }

  lemma TrimHistory(cfg: Config, s: State, c: Command, env: Env)
    requires cfg.storage && cfg.maxVersions > 0 && c.kind.Checkpoint?
    ensures var r, t := VersioningCall(cfg, s, c, env).0, PersistentTrimmed(cfg, s, c, env);
      r.persistent == t.persistent && r.history == t.history
    ensures var h := Known(s.history, c) + {c.version};
      && Known(PersistentTrimmed(cfg, s, c, env).history, c) == Newest(h, cfg.maxVersions) <= h
      && Trimmed(cfg, s, c) == h - Newest(h, cfg.maxVersions)
  {
    NewestKeeps(Known(s.history, c) + {c.version}, cfg.maxVersions);
    hide WithoutCheckpoints, WithoutChecksums, WithoutScratch, Newest;
  }

  lemma RetainsOne(cfg: Config, s: State, s3: State, c: Command, env: Env, v: nat)
    requires cfg.storage && cfg.maxVersions > 0 && c.kind.Checkpoint? && ValidName(c.name) && InSync(s, c) && env.stuckPersistent == {}
    requires s3.history == s.history && s3.persistent.Keys == s.persistent.Keys + {StemOf(c)}
    ensures Stem(c.name, c.id, v) in PersistentTrimmed(cfg, s3, c, env).persistent
       <==> v in Newest(Known(s.history, c) + {c.version}, cfg.maxVersions)
  {
    TrimHistory(cfg, s3, c, env);
    hide VersioningCall, PersistentTrimmed, Trimmed, Newest, Stem, ValidName;
    TrimPersistent(cfg, s3, c, env, c.(version := v));
    if Stem(c.name, c.id, v) == StemOf(c) {
      StemInjective(c.name, c.id, v, c.name, c.id, c.version);
    }
  }

  lemma VersioningRetains(cfg: Config, s: State, s3: State, c: Command, env: Env)
    requires cfg.storage && cfg.maxVersions > 0 && c.kind.Checkpoint? && ValidName(c.name) && InSync(s, c) && env.stuckPersistent == {}
    requires s3.history == s.history && s3.persistent.Keys == s.persistent.Keys + {StemOf(c)}
    ensures var r := VersioningCall(cfg, s3, c, env).0;
      InSync(r, c) && Known(r.history, c) == Newest(Known(s.history, c) + {c.version}, cfg.maxVersions)
  {
    TrimHistory(cfg, s3, c, env);
    hide VersioningCall, PersistentTrimmed, Trimmed, Newest, Stem, ValidName;
    var r := VersioningCall(cfg, s3, c, env).0;
    forall v: nat ensures Stem(c.name, c.id, v) in r.persistent <==> v in Known(r.history, c) {
      RetainsOne(cfg, s, s3, c, env, v);
    }
  }

  /** A CHECKPOINT that completes leaves on storage exactly the newest versions, the new one counted in, and keeps the
      history in step with the files. */
  lemma CheckpointRetains(cfg: Config, s: State, c: Command, env: Module -> Env)
    requires cfg.storage && cfg.interval == 0 && cfg.maxVersions > 0 && c.kind.Checkpoint? && ValidName(c.name)
    requires Finish(cfg, s, Fresh(c), env).1 != VELOC_FAILURE && InSync(s, c) && env(Versioning).stuckPersistent == {}
    ensures var r := Finish(cfg, s, Fresh(c), env).0;
      InSync(r, c) && Known(r.history, c) == Newest(Known(s.history, c) + {c.version}, cfg.maxVersions)
  {
    Chain(cfg, s, c, env);
    hide Finish, WatchdogCall, EcCall, TransferCall, ChksumCall, VersioningCall, Newest, ValidName, InSync;
    var (s0, r0) := WatchdogCall(cfg, s, c, env(Watchdog));
    var (s1, r1) := MaybeEc(cfg, s0, c, env(Ec));
    var (s2, r2) := TransferCall(cfg, s1, c, env(Transfer));
    var (s3, r3) := ChksumCall(cfg, s2, c, env(Chksum));
    WatchdogFrame(cfg, s, c, env(Watchdog));
    EcFrame(cfg, s0, c, env(Ec));
    FlushAdds(cfg, s1, c, env(Transfer));
    ChksumFrame(cfg, s2, c, env(Chksum));
    VersioningRetains(cfg, s, s3, c, env(Versioning));
  }
}
