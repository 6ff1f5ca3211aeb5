/** The backend's module pipeline (src/modules): a fail-fast fold over watchdog, erasure coding, transfer, checksum and
    versioning, working on the scratch, persistent and metadata directories. Memory-based checkpoints, POSIX storage. */
module Pipeline {
  import opened Bytes
  import opened Naming
  import opened Sets
  import opened Status

  const HASH_SIZE: nat := 32

  datatype Kind = Init | Checkpoint | Restart | Test

  datatype Command = Command(kind: Kind, name: string, id: nat, version: nat)

  /** What the client checks before it sends a command, and what an `int` can hold. */
  predicate Valid(c: Command) {
    ValidName(c.name) && c.id <= INT_MAX && c.version <= INT_MAX
  }

  function StemOf(c: Command): (s: string) {
    Stem(c.name, c.id, c.version)
  }

  function MetaOf(c: Command): (s: string) {
    ChecksumName(c.name, c.id, c.version)
  }

  type Dir = map<string, seq<byte>>

  /** The configuration; a negative interval switches the transfer off, `hash` is the digest function. */
  datatype Config = Config(
    watchdog: bool, ec: bool, storage: bool, interval: int, chksum: bool, meta: bool,
    maxVersions: nat, scratchVersions: nat, hash: seq<byte> -> seq<byte>)

  /** The directories and what the modules remember. */
  datatype State = State(
    scratch: Dir, persistent: Dir, metadata: Dir,
    clients: set<nat>, timers: map<nat, int>,
    history: map<(string, nat), set<int>>, scratchHistory: map<(string, nat), set<int>>)

  /** What lies outside: the clock, what the file system and the erasure coding library answer, and what they leave behind.
      A failed copy leaves the destination alone (None) or with the first bytes copied; the stuck files of each
      directory cannot be removed. */
  datatype Env = Env(
    now: int, ecAnswer: int, ecScratch: Dir, io: bool, left: Option<nat>,
    stuckPersistent: set<string>, stuckMeta: set<string>, stuckScratch: set<string>)

  function Content(dir: Dir, f: string): (r: seq<byte>) {
    if f in dir then dir[f] else []
  }

  /** `posix_transfer_file` from the start of one file to the start of another, which is not truncated. */
  function Copied(dir: Dir, f: string, data: seq<byte>, env: Env): (r: Dir) {
    if env.io then dir[f := Overwrite(Content(dir, f), 0, data)]
    else if env.left.Some? then dir[f := Overwrite(Content(dir, f), 0, data[..Min(env.left.value, |data|)])]
    else dir
  }

  // ---- the modules ----

  function WatchdogCall(cfg: Config, s: State, c: Command, env: Env): (r: (State, int)) {
    if !cfg.watchdog then (s, VELOC_IGNORED)
    else match c.kind
      case Init => (s.(clients := s.clients + {c.id}), VELOC_SUCCESS)
      case Checkpoint => (s, if c.id in s.clients then VELOC_SUCCESS else VELOC_FAILURE)
      case _ => (s, VELOC_IGNORED)
  }

  /** Erasure coding behind the aggregation barrier: any of the three answers and any effect on the scratch
      directory for aggregated commands, never more than ignored for a TEST. */
  function EcCall(cfg: Config, s: State, c: Command, env: Env): (r: (State, int)) {
    match c.kind
    case Test => (s, VELOC_IGNORED)
    case Init => (s, if env.ecAnswer == VELOC_SUCCESS then VELOC_SUCCESS else VELOC_IGNORED)
    case _ => (s.(scratch := env.ecScratch),
               if env.ecAnswer == VELOC_SUCCESS || env.ecAnswer == VELOC_FAILURE then env.ecAnswer else VELOC_IGNORED)
  }

  /** The client persisted a checkpoint less than one interval ago. */
  predicate Throttled(cfg: Config, s: State, c: Command, env: Env) {
    cfg.interval > 0 && env.now < (if c.id in s.timers then s.timers[c.id] else 0)
  }

  function FlushCall(cfg: Config, s: State, c: Command, env: Env): (r: (State, int)) {
    if Throttled(cfg, s, c, env) then (s, VELOC_SUCCESS) else
    var t := if cfg.interval > 0 then s.(timers := s.timers[c.id := env.now + cfg.interval]) else s;
    if StemOf(c) !in s.scratch then (t, VELOC_FAILURE)
    else (t.(persistent := Copied(s.persistent, StemOf(c), s.scratch[StemOf(c)], env)),
          if env.io then VELOC_SUCCESS else VELOC_FAILURE)
  }

  function FetchCall(cfg: Config, s: State, c: Command, env: Env): (r: (State, int)) {
    if StemOf(c) in s.scratch then (s, VELOC_SUCCESS)
    else if StemOf(c) !in s.persistent then (s, VELOC_IGNORED)
    else (s.(scratch := Copied(s.scratch, StemOf(c), s.persistent[StemOf(c)], env)),
          if env.io then VELOC_SUCCESS else VELOC_IGNORED)
  }

  function TransferCall(cfg: Config, s: State, c: Command, env: Env): (r: (State, int)) {
    if !cfg.storage || cfg.interval < 0 then (s, VELOC_IGNORED)
    else match c.kind
      case Init => (s.(timers := s.timers[c.id := env.now + cfg.interval]), VELOC_SUCCESS)
      case Checkpoint => FlushCall(cfg, s, c, env)
      case Restart => FetchCall(cfg, s, c, env)
      case Test => (s, VELOC_IGNORED)
  }

  /** `chksum_file`: an absent or empty file cannot be mapped. */
  function Digest(cfg: Config, dir: Dir, f: string): (r: Option<seq<byte>>) {
    if f in dir && dir[f] != [] then Some(cfg.hash(dir[f])) else None
  }

  /** `write_file`, which truncates first: a failed write leaves a short file, or the old one if it cannot be opened. */
  function Recorded(dir: Dir, f: string, digest: seq<byte>, env: Env): (r: Dir) {
    if env.io then dir[f := digest]
    else if env.left.Some? then dir[f := digest[..Min(env.left.value, Max(0, |digest| - 1))]]
    else dir
  }

  predicate Confirms(cfg: Config, s: State, c: Command) {
    && MetaOf(c) in s.metadata && |s.metadata[MetaOf(c)]| >= HASH_SIZE
    && Digest(cfg, s.scratch, StemOf(c)).Some?
    && Digest(cfg, s.scratch, StemOf(c)).value == s.metadata[MetaOf(c)][..HASH_SIZE]
  }

  function ChksumCall(cfg: Config, s: State, c: Command, env: Env): (r: (State, int)) {
    if !cfg.chksum then (s, VELOC_IGNORED)
    else match c.kind
      case Checkpoint =>
        var d := Digest(cfg, s.scratch, StemOf(c));
        if d == None then (s, VELOC_FAILURE)
        else (s.(metadata := Recorded(s.metadata, MetaOf(c), d.value, env)), if env.io then VELOC_SUCCESS else VELOC_FAILURE)
      case Restart => (s, if Confirms(cfg, s, c) then VELOC_SUCCESS else VELOC_FAILURE)
      case _ => (s, VELOC_IGNORED)
  }

  /** `parse_dir`: the versions of the files that match the pattern of `name` and have one of the ids. */
  function Versions(dir: Dir, name: string, ids: set<int>): (r: set<int>) {
    set f | f in dir && Match(name, f).Matched? && Match(name, f).id in ids :: Match(name, f).version
  }

  function Known(h: map<(string, nat), set<int>>, c: Command): (r: set<int>) {
    if (c.name, c.id) in h then h[(c.name, c.id)] else {}
  }

  /** `*versions.begin()` or `lower_bound` in a set ordered from the greatest down. */
  function Best(versions: set<int>, version: int): (r: int) {
    var eligible := if version == 0 then versions else set v | v in versions && v <= version;
    if eligible == {} then VELOC_IGNORED else Greatest(eligible)
  }

  predicate OldCheckpoint(f: string, c: Command, gone: set<int>) {
    exists v: nat :: v in gone && f == Stem(c.name, c.id, v)
  }

  predicate OldChecksum(f: string, c: Command, gone: set<int>) {
    exists v: nat :: v in gone && f == ChecksumName(c.name, c.id, v)
  }

  /** On scratch, the files of the given versions whatever their id. */
  predicate OldScratch(f: string, name: string, gone: set<int>) {
    Match(name, f).Matched? && Match(name, f).version in gone
  }

  /** A persistent directory after the removal of the given versions, except stuck files. */
  function WithoutCheckpoints(dir: Dir, c: Command, gone: set<int>, stuck: set<string>): (r: Dir) {
    map f | f in dir && (f in stuck || !OldCheckpoint(f, c, gone)) :: dir[f]
  }

  function WithoutChecksums(dir: Dir, c: Command, gone: set<int>, stuck: set<string>): (r: Dir) {
    map f | f in dir && (f in stuck || !OldChecksum(f, c, gone)) :: dir[f]
  }

  function WithoutScratch(dir: Dir, name: string, gone: set<int>, stuck: set<string>): (r: Dir) {
    map f | f in dir && (f in stuck || !OldScratch(f, name, gone)) :: dir[f]
  }

  /** The versions that leave a history when only the newest `limit` are kept; 0 keeps all. */
  function Outdated(h: set<int>, limit: nat): (r: set<int>) {
    if limit == 0 then {} else h - Newest(h, limit)
  }

  /** The versions that a CHECKPOINT retires from persistent storage. */
  function Trimmed(cfg: Config, s: State, c: Command): (r: set<int>) {
    if cfg.storage then Outdated(Known(s.history, c) + {c.version}, cfg.maxVersions) else {}
  }

  /** The part of a CHECKPOINT that looks after persistent storage. */
  function PersistentTrimmed(cfg: Config, s: State, c: Command, env: Env): (r: State) {
    if !cfg.storage || cfg.maxVersions == 0 then s else
    var h, gone := Known(s.history, c) + {c.version}, Trimmed(cfg, s, c);
    s.(history := s.history[(c.name, c.id) := h - gone],
       persistent := WithoutCheckpoints(s.persistent, c, gone, env.stuckPersistent),
       metadata := if cfg.meta then WithoutChecksums(s.metadata, c, gone, env.stuckMeta) else s.metadata)
  }

  /** The part that looks after the scratch directory. */
  function ScratchTrimmed(cfg: Config, s: State, c: Command, env: Env): (r: State) {
    if cfg.scratchVersions == 0 then s else
    var h := Known(s.scratchHistory, c) + {c.version};
    var gone := Outdated(h, cfg.scratchVersions);
    s.(scratchHistory := s.scratchHistory[(c.name, c.id) := h - gone],
       scratch := WithoutScratch(s.scratch, c.name, gone, env.stuckScratch))
  }

  function VersioningCall(cfg: Config, s: State, c: Command, env: Env): (r: (State, int)) {
    var key := (c.name, c.id);
    match c.kind
    case Test =>
      var ph := if cfg.storage then Versions(s.persistent, c.name, {c.id}) else {};
      var sh := Versions(s.scratch, c.name, {ID_EC, c.id});
      (s.(history := s.history[key := ph], scratchHistory := s.scratchHistory[key := sh]), Best(ph + sh, c.version))
    case Checkpoint => (ScratchTrimmed(cfg, PersistentTrimmed(cfg, s, c, env), c, env), VELOC_SUCCESS)
    case Restart =>
      (s.(history := if cfg.storage && StemOf(c) in s.persistent
                     then s.history[key := Known(s.history, c) + {c.version}] else s.history,
          scratchHistory := if StemOf(c) in s.scratch
                            then s.scratchHistory[key := Known(s.scratchHistory, c) + {c.version}] else s.scratchHistory),
       VELOC_IGNORED)
    case Init => (s, VELOC_IGNORED)
  }

  // ---- what each module leaves alone ----

  lemma WatchdogFrame(cfg: Config, s: State, c: Command, env: Env)
    ensures var r := WatchdogCall(cfg, s, c, env).0;
      && r.scratch == s.scratch && r.persistent == s.persistent && r.metadata == s.metadata
      && r.timers == s.timers && r.history == s.history
  {
  }

  lemma EcFrame(cfg: Config, s: State, c: Command, env: Env)
    ensures var r := EcCall(cfg, s, c, env).0;
      && r.persistent == s.persistent && r.metadata == s.metadata
      && r.clients == s.clients && r.timers == s.timers && r.history == s.history
  {
  }

  lemma FlushFrame(cfg: Config, s: State, c: Command, env: Env)
    ensures var r := FlushCall(cfg, s, c, env).0;
      r.scratch == s.scratch && r.metadata == s.metadata && r.clients == s.clients && r.history == s.history
  {
    hide Copied, Stem, Throttled;
  }

  lemma FetchFrame(cfg: Config, s: State, c: Command, env: Env)
    ensures var r := FetchCall(cfg, s, c, env).0;
      && r.persistent == s.persistent && r.metadata == s.metadata
      && r.clients == s.clients && r.timers == s.timers && r.history == s.history
  {
    hide Copied, Stem;
  }

  lemma TransferFrame(cfg: Config, s: State, c: Command, env: Env)
    ensures var r := TransferCall(cfg, s, c, env).0; r.metadata == s.metadata && r.clients == s.clients && r.history == s.history
  {
    hide FlushCall, FetchCall;
    FlushFrame(cfg, s, c, env);
    FetchFrame(cfg, s, c, env);
  }

  lemma ChksumFrame(cfg: Config, s: State, c: Command, env: Env)
    ensures var r := ChksumCall(cfg, s, c, env).0;
      && r.scratch == s.scratch && r.persistent == s.persistent
      && r.clients == s.clients && r.timers == s.timers && r.history == s.history
  {
    hide Stem, ChecksumName, Digest, Recorded, Confirms;
  }

  lemma TrimFrame(cfg: Config, s: State, c: Command, env: Env)
    ensures var r := PersistentTrimmed(cfg, s, c, env); r.clients == s.clients && r.timers == s.timers
    ensures var r := ScratchTrimmed(cfg, s, c, env); r.clients == s.clients && r.timers == s.timers
  {
    hide Trimmed, Outdated, WithoutCheckpoints, WithoutChecksums, WithoutScratch;
  }

  lemma VersioningFrame(cfg: Config, s: State, c: Command, env: Env)
    ensures var r := VersioningCall(cfg, s, c, env).0; r.clients == s.clients && r.timers == s.timers
  {
    hide Stem, Versions, Best, PersistentTrimmed, ScratchTrimmed;
    TrimFrame(cfg, s, c, env);
    TrimFrame(cfg, PersistentTrimmed(cfg, s, c, env), c, env);
  }

  // ---- the fold ----

  datatype Module = Watchdog | Ec | Transfer | Chksum | Versioning

  /** The order in which `add_default` installs the modules. */
  function Modules(cfg: Config): (r: seq<Module>) {
    [Watchdog] + (if cfg.ec then [Ec] else []) + [Transfer, Chksum, Versioning]
  }

  function Call(cfg: Config, m: Module, s: State, c: Command, env: Env): (r: (State, int)) {
    match m
    case Watchdog => WatchdogCall(cfg, s, c, env)
    case Ec => EcCall(cfg, s, c, env)
    case Transfer => TransferCall(cfg, s, c, env)
    case Chksum => ChksumCall(cfg, s, c, env)
    case Versioning => VersioningCall(cfg, s, c, env)
  }

  /** A command on its way through the modules. */
  datatype Work = Work(c: Command, k: nat, ret: int, done: bool)

  /** One round of the loop in `notify_command`: stop at a failure, otherwise keep the greatest answer. */
  function Round(cfg: Config, s: State, w: Work, env: Env): (r: (State, Work))
    requires w.k < |Modules(cfg)|
  {
    var (s', ret) := Call(cfg, Modules(cfg)[w.k], s, w.c, env);
    (s', if ret == VELOC_FAILURE then w.(k := w.k + 1, ret := VELOC_FAILURE, done := true)
         else w.(k := w.k + 1, ret := Max(w.ret, ret), done := w.k + 1 == |Modules(cfg)|))
  }

  function Fresh(c: Command): (w: Work) {
    Work(c, 0, VELOC_IGNORED, false)
  }

  predicate Running(cfg: Config, w: Work) {
    !w.done ==> w.k < |Modules(cfg)|
  }

  /** The rest of the loop, when no other command interferes. */
  function Finish(cfg: Config, s: State, w: Work, env: Module -> Env): (r: (State, int))
    requires Running(cfg, w)
    decreases |Modules(cfg)| - w.k, !w.done
  {
    if w.done then (s, w.ret)
    else var (s', w') := Round(cfg, s, w, env(Modules(cfg)[w.k])); Finish(cfg, s', w', env)
  }
}
