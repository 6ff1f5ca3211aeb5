/** The modules at work: `process_command` of each module (src/modules) and the loop in `notify_command`, changing the
    directories, the timers and the version histories in place. */
module Manager {
  import opened Bytes
  import opened Naming
  import opened Sets
  import opened Pipeline
  import opened Status

  lemma NoVersions(dir: Dir, name: string, ids: set<int>)
    requires dir.Keys == {}
    ensures Versions(dir, name, ids) == {}
  {
  }

  lemma OneMore(dir: Dir, rest: set<string>, f: string, name: string, ids: set<int>)
    requires rest <= dir.Keys && f in rest
    ensures var m, r := Match(name, f), Versions(dir - rest, name, ids);
      Versions(dir - (rest - {f}), name, ids) == if m.Matched? && m.id in ids then r + {m.version} else r
  {
    hide Match;
    var before, after := dir - rest, dir - (rest - {f});
    assert forall g :: g in after <==> g in before || g == f;
    assert forall v :: v in Versions(after, name, ids) ==>
      v in Versions(before, name, ids) || (Match(name, f).Matched? && Match(name, f).id in ids && Match(name, f).version == v);
    assert forall g :: g in before && Match(name, g).Matched? && Match(name, g).id in ids ==>
      Match(name, g).version in Versions(after, name, ids);
  }

  /** `parse_dir` with a callback that collects versions. */
  method ListVersions(dir: Dir, name: string, ids: set<int>) returns (r: set<int>)
    ensures r == Versions(dir, name, ids)
  {
    r := {};
    var rest := dir.Keys;
    hide Versions, Match;
    NoVersions(dir - rest, name, ids);
    while rest != {}
      invariant rest <= dir.Keys && r == Versions(dir - rest, name, ids)
    {
      ghost var _ := Element(rest);
      var f :| f in rest;
      var m := Match(name, f);
      if m.Matched? && m.id in ids {
        r := r + {m.version};
      }
      OneMore(dir, rest, f, name, ids);
      rest := rest - {f};
    }
    assert dir - {} == dir;
  }

  /** `parse_dir` with a callback that removes the files of one version. */
  method RemoveVersion(dir: Dir, name: string, version: int, stuck: set<string>) returns (r: Dir)
    ensures r == WithoutScratch(dir, name, {version}, stuck)
  {
    hide Match;
    r := dir;
    var rest := dir.Keys;
    while rest != {}
      invariant rest <= dir.Keys
      invariant r == map f | f in dir && (f in rest || f in stuck || !OldScratch(f, name, {version})) :: dir[f]
    {
      ghost var _ := Element(rest);
      var f :| f in rest;
      rest := rest - {f};
      if Match(name, f).Matched? && Match(name, f).version == version && f !in stuck {
        r := r - {f};
      }
    }
  }

  /** A history trimmed from its least member down to the limit has lost exactly the outdated versions. */
  lemma TrimmedHistory(all: set<int>, h: set<int>, limit: nat)
    requires limit > 0 && h <= all && |h| <= limit && Newest(h, limit) == Newest(all, limit)
    ensures all - h == Outdated(all, limit) && all - Outdated(all, limit) == h
  {
    NewestKeeps(all, limit);
  }

  lemma HistoryStep(all: set<int>, h: set<int>, limit: nat)
    requires limit > 0 && h <= all && |h| > limit && Newest(h, limit) == Newest(all, limit)
    ensures var v := Least(h); var r := h - {v};
      all - r == all - h + {v} && r <= all && Newest(r, limit) == Newest(all, limit) && |r| < |h|
  {
  }

  lemma WithoutNone(persistent: Dir, metadata: Dir, scratch: Dir, c: Command, env: Env)
    ensures forall h: set<int> :: h - h == {}
    ensures WithoutCheckpoints(persistent, c, {}, env.stuckPersistent) == persistent
    ensures WithoutChecksums(metadata, c, {}, env.stuckMeta) == metadata
    ensures WithoutScratch(scratch, c.name, {}, env.stuckScratch) == scratch
  {
  }

  /** One more version goes: its checkpoint and its checksum file. */
  lemma WithoutMore(persistent: Dir, metadata: Dir, c: Command, gone: set<int>, v: int, env: Env)
    ensures var f, r := if v >= 0 then Stem(c.name, c.id, v) else "", WithoutCheckpoints(persistent, c, gone, env.stuckPersistent);
      WithoutCheckpoints(persistent, c, gone + {v}, env.stuckPersistent) == if v >= 0 && f !in env.stuckPersistent then r - {f} else r
    ensures var f, r := if v >= 0 then ChecksumName(c.name, c.id, v) else "", WithoutChecksums(metadata, c, gone, env.stuckMeta);
      WithoutChecksums(metadata, c, gone + {v}, env.stuckMeta) == if v >= 0 && f !in env.stuckMeta then r - {f} else r
  {
    hide Stem, ChecksumName;
    assert forall f :: OldCheckpoint(f, c, gone + {v}) <==> OldCheckpoint(f, c, gone) || (v >= 0 && f == Stem(c.name, c.id, v));
    assert forall f :: OldChecksum(f, c, gone + {v}) <==> OldChecksum(f, c, gone) || (v >= 0 && f == ChecksumName(c.name, c.id, v));
  }

  lemma ScratchMore(dir: Dir, name: string, gone: set<int>, v: int, stuck: set<string>)
    ensures WithoutScratch(WithoutScratch(dir, name, gone, stuck), name, {v}, stuck) == WithoutScratch(dir, name, gone + {v}, stuck)
  {
    hide Match;
  }

  class ModuleManager {
    const cfg: Config
    var modules: seq<Module>
    var scratch: Dir
    var persistent: Dir
    var metadata: Dir
    var clients: set<nat>
    var lastTimestamp: map<nat, int>
    var persistentHistory: map<(string, nat), set<int>>
    var scratchHistory: map<(string, nat), set<int>>

    /** `add_default`, on directories that may hold files already. */
    constructor (cfg: Config, scratch: Dir, persistent: Dir, metadata: Dir)
      ensures this.cfg == cfg && modules == Modules(cfg)
      ensures View() == State(scratch, persistent, metadata, {}, map[], map[], map[])
    {
      this.cfg, this.scratch, this.persistent, this.metadata := cfg, scratch, persistent, metadata;
      clients, lastTimestamp, persistentHistory, scratchHistory := {}, map[], map[], map[];
      modules := [Watchdog];
      if cfg.ec {
        modules := modules + [Ec];
      }
      modules := modules + [Transfer, Chksum, Versioning];
    }

    function View(): (s: State)
      reads this
    {
      State(scratch, persistent, metadata, clients, lastTimestamp, persistentHistory, scratchHistory)
    }

    method WatchdogProcess(c: Command, env: Env) returns (ret: int)
      modifies this`clients
      ensures (View(), ret) == WatchdogCall(cfg, old(View()), c, env)
    {
      if !cfg.watchdog {
        return VELOC_IGNORED;
      }
      match c.kind {
        case Init =>
          clients := clients + {c.id};
          return VELOC_SUCCESS;
        case Checkpoint =>
          if c.id !in clients {
            return VELOC_FAILURE;
          }
          return VELOC_SUCCESS;
        case _ => return VELOC_IGNORED;
      }
    }

    method TransferProcess(c: Command, env: Env) returns (ret: int)
      modifies this`lastTimestamp, this`persistent, this`scratch
      ensures (View(), ret) == TransferCall(cfg, old(View()), c, env)
    {
      hide Stem, Overwrite;
      if !cfg.storage || cfg.interval < 0 {
        return VELOC_IGNORED;
      }
      var f := StemOf(c);
      match c.kind {
        case Init =>
          lastTimestamp := lastTimestamp[c.id := env.now + cfg.interval];
          return VELOC_SUCCESS;
        case Checkpoint =>
          if cfg.interval > 0 {
            if env.now < (if c.id in lastTimestamp then lastTimestamp[c.id] else 0) {
              return VELOC_SUCCESS;
            }
            lastTimestamp := lastTimestamp[c.id := env.now + cfg.interval];
          }
          if f !in scratch {
            return VELOC_FAILURE;
          }
          persistent := Copied(persistent, f, scratch[f], env);
          return if env.io then VELOC_SUCCESS else VELOC_FAILURE;
        case Restart =>
          if f in scratch {
            return VELOC_SUCCESS;
          }
          if f !in persistent {
            return VELOC_IGNORED;
          }
          scratch := Copied(scratch, f, persistent[f], env);
          return if env.io then VELOC_SUCCESS else VELOC_IGNORED;
        case Test => return VELOC_IGNORED;
      }
    }

    method ChksumProcess(c: Command, env: Env) returns (ret: int)
      modifies this`metadata
      ensures (View(), ret) == ChksumCall(cfg, old(View()), c, env)
    {
      hide Stem, ChecksumName;
      if !cfg.chksum {
        return VELOC_IGNORED;
      }
      var meta := MetaOf(c);
      match c.kind {
        case Checkpoint =>
          var digest := Digest(cfg, scratch, StemOf(c));
          if digest == None {
            return VELOC_FAILURE;
          }
          metadata := Recorded(metadata, meta, digest.value, env);
          return if env.io then VELOC_SUCCESS else VELOC_FAILURE;
        case Restart =>
          if meta !in metadata || |metadata[meta]| < HASH_SIZE {
            return VELOC_FAILURE;
          }
          var recorded := metadata[meta][..HASH_SIZE];
          var digest := Digest(cfg, scratch, StemOf(c));
          if digest == None {
            return VELOC_FAILURE;
          }
          return if digest.value == recorded then VELOC_SUCCESS else VELOC_FAILURE;
        case _ => return VELOC_IGNORED;
      }
    }

    /** `posix_module_t::remove` and the unlinking of the checksum file, for one more version. */
    method RemoveOld(c: Command, v: int, env: Env, ghost p: Dir, ghost m: Dir, ghost gone: set<int>)
      requires persistent == WithoutCheckpoints(p, c, gone, env.stuckPersistent)
      requires metadata == if cfg.meta then WithoutChecksums(m, c, gone, env.stuckMeta) else m
      modifies this`persistent, this`metadata
      ensures persistent == WithoutCheckpoints(p, c, gone + {v}, env.stuckPersistent)
      ensures metadata == if cfg.meta then WithoutChecksums(m, c, gone + {v}, env.stuckMeta) else m
    {
      hide WithoutCheckpoints, WithoutChecksums, Stem, ChecksumName;
      WithoutMore(p, m, c, gone, v, env);
      // a version in the history is never negative
      if v >= 0 && Stem(c.name, c.id, v) !in env.stuckPersistent {
        persistent := persistent - {Stem(c.name, c.id, v)};
      }
      if cfg.meta && v >= 0 && ChecksumName(c.name, c.id, v) !in env.stuckMeta {
        metadata := metadata - {ChecksumName(c.name, c.id, v)};
      }
    }

    /** The loop over the persistent history, which removes files from the oldest version up. */
    method TrimPersistent(c: Command, env: Env)
      modifies this`persistentHistory, this`persistent, this`metadata
      ensures View() == PersistentTrimmed(cfg, old(View()), c, env)
    {
      hide WithoutCheckpoints, WithoutChecksums, Stem, ChecksumName, Outdated, Newest, Least;
      if !cfg.storage || cfg.maxVersions == 0 {
        return;
      }
      var key := (c.name, c.id);
      var h := (if key in persistentHistory then persistentHistory[key] else {}) + {c.version};
      ghost var all := h;
      WithoutNone(persistent, metadata, scratch, c, env);
      while |h| > cfg.maxVersions
        modifies this`persistent, this`metadata
        invariant h <= all && Newest(h, cfg.maxVersions) == Newest(all, cfg.maxVersions)
        invariant persistent == WithoutCheckpoints(old(persistent), c, all - h, env.stuckPersistent)
        invariant metadata == if cfg.meta then WithoutChecksums(old(metadata), c, all - h, env.stuckMeta) else old(metadata)
        decreases |h|
      {
        var v := Least(h);
        RemoveOld(c, v, env, old(persistent), old(metadata), all - h);
        HistoryStep(all, h, cfg.maxVersions);
        h := h - {v};
      }
      TrimmedHistory(all, h, cfg.maxVersions);
      persistentHistory := persistentHistory[key := h];
    }

    /** The loop over the scratch history: every pass goes through the directory and removes one version. */
    method TrimScratch(c: Command, env: Env)
      modifies this`scratchHistory, this`scratch
      ensures View() == ScratchTrimmed(cfg, old(View()), c, env)
    {
      hide WithoutScratch, Outdated, Newest, Least;
      if cfg.scratchVersions == 0 {
        return;
      }
      var key := (c.name, c.id);
      var h := (if key in scratchHistory then scratchHistory[key] else {}) + {c.version};
      ghost var all := h;
      WithoutNone(persistent, metadata, scratch, c, env);
      while |h| > cfg.scratchVersions
        modifies this`scratch
        invariant h <= all && Newest(h, cfg.scratchVersions) == Newest(all, cfg.scratchVersions)
        invariant scratch == WithoutScratch(old(scratch), c.name, all - h, env.stuckScratch)
        decreases |h|
      {
        var v := Least(h);
        ScratchMore(old(scratch), c.name, all - h, v, env.stuckScratch);
        scratch := RemoveVersion(scratch, c.name, v, env.stuckScratch);
        HistoryStep(all, h, cfg.scratchVersions);
        h := h - {v};
      }
      TrimmedHistory(all, h, cfg.scratchVersions);
      scratchHistory := scratchHistory[key := h];
    }

    method VersioningProcess(c: Command, env: Env) returns (ret: int)
      modifies this`persistentHistory, this`scratchHistory, this`persistent, this`metadata, this`scratch
      ensures (View(), ret) == VersioningCall(cfg, old(View()), c, env)
    {
      hide PersistentTrimmed, ScratchTrimmed, Versions, Stem;
      var key := (c.name, c.id);
      match c.kind {
        case Test =>
          var ph := {};
          if cfg.storage {
            ph := ListVersions(persistent, c.name, {c.id});
          }
          var sh := ListVersions(scratch, c.name, {ID_EC, c.id});
          persistentHistory := persistentHistory[key := ph];
          scratchHistory := scratchHistory[key := sh];
          return Best(ph + sh, c.version);
        case Checkpoint =>
          TrimPersistent(c, env);
          TrimScratch(c, env);
          return VELOC_SUCCESS;
        case Restart =>
          if cfg.storage && StemOf(c) in persistent {
            persistentHistory := persistentHistory[key := Known(persistentHistory, c) + {c.version}];
          }
          if StemOf(c) in scratch {
            scratchHistory := scratchHistory[key := Known(scratchHistory, c) + {c.version}];
          }
          return VELOC_IGNORED;
        case Init => return VELOC_IGNORED;
      }
    }

    method Process(m: Module, c: Command, env: Env) returns (ret: int)
      modifies this`clients, this`lastTimestamp, this`scratch, this`persistent, this`metadata, this`persistentHistory, this`scratchHistory
      ensures (View(), ret) == Call(cfg, m, old(View()), c, env)
    {
      hide WatchdogCall, TransferCall, ChksumCall, VersioningCall;
      match m {
        case Watchdog => ret := WatchdogProcess(c, env);
        case Ec =>
          // the erasure coding library is foreign code
          var (s, r) := EcCall(cfg, View(), c, env);
          scratch, ret := s.scratch, r;
        case Transfer => ret := TransferProcess(c, env);
        case Chksum => ret := ChksumProcess(c, env);
        case Versioning => ret := VersioningProcess(c, env);
      }
    }

    /** `notify_command`. */
    method NotifyCommand(c: Command, env: Module -> Env) returns (ret: int)
      requires modules == Modules(cfg)
      modifies this`clients, this`lastTimestamp, this`scratch, this`persistent, this`metadata, this`persistentHistory, this`scratchHistory
      ensures (View(), ret) == Finish(cfg, old(View()), Fresh(c), env)
    {
      hide Call;
      ret := VELOC_IGNORED;
      var k := 0;
      while k < |modules|
        modifies this`clients, this`lastTimestamp, this`scratch, this`persistent, this`metadata, this`persistentHistory, this`scratchHistory
        invariant 0 <= k <= |modules|
        invariant Finish(cfg, old(View()), Fresh(c), env) == Finish(cfg, View(), Work(c, k, ret, k == |modules|), env)
      {
        var r := Process(modules[k], c, env(modules[k]));
        if r == VELOC_FAILURE {
          return VELOC_FAILURE;
        }
        ret := Max(ret, r);
        k := k + 1;
      }
    }
  }
}
