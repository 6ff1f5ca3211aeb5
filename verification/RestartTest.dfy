/** `restart_test` in src/lib/client.cpp: what a TEST command answers after the module loop and the status merge. */
module RestartTest {
  import opened Bytes
  import opened Naming
  import opened Sets
  import opened Pipeline
  import opened Status
  import CommandQueue

  /** Every module but the last ignores a TEST and changes nothing. */
  lemma {:induction false} OthersIgnore(cfg: Config, s: State, w: Work, env: Module -> Env)
    requires w.c.kind.Test? && !w.done && w.ret == VELOC_IGNORED && w.k < |Modules(cfg)|
    ensures Finish(cfg, s, w, env)
         == Finish(cfg, s, Work(w.c, |Modules(cfg)| - 1, VELOC_IGNORED, false), env)
    decreases |Modules(cfg)| - w.k
  {
    hide VersioningCall;
    if w.k + 1 < |Modules(cfg)| {
      var w' := w.(k := w.k + 1);
      assert Modules(cfg)[w.k] != Versioning;
      assert Round(cfg, s, w, env(Modules(cfg)[w.k])) == (s, w');
      OthersIgnore(cfg, s, w', env);
    }
  }

  /** The versions of a checkpoint found on either level; scratch files of the erasure coding count for every rank. */
  function Stored(cfg: Config, s: State, c: Command): (r: set<int>) {
    (if cfg.storage then Versions(s.persistent, c.name, {c.id}) else {}) + Versions(s.scratch, c.name, {ID_EC, c.id})
  }

  lemma MatchedVersion(name: string, f: string)
    requires Match(name, f).Matched?
    ensures Match(name, f).version >= 0
  {
  }

  lemma StoredVersions(cfg: Config, s: State, c: Command)
    ensures forall v :: v in Stored(cfg, s, c) ==> v >= 0
  {
    forall f | Match(c.name, f).Matched? ensures Match(c.name, f).version >= 0 {
      MatchedVersion(c.name, f);
    }
  }

  lemma BestAnswer(cfg: Config, s: State, c: Command, env: Env)
    requires c.kind.Test?
    ensures var r := VersioningCall(cfg, s, c, env).1;
      r == Best(Stored(cfg, s, c), c.version) && (r == VELOC_IGNORED || r >= 0)
  {
    StoredVersions(cfg, s, c);
  }

  /** The answer to a TEST is that of the versioning module, and the directories stay as they are. */
  lemma TestAnswer(cfg: Config, s: State, c: Command, env: Module -> Env)
    requires c.kind.Test?
    ensures Finish(cfg, s, Fresh(c), env) == VersioningCall(cfg, s, c, env(Versioning))
  {
    OthersIgnore(cfg, s, Fresh(c), env);
    hide VersioningCall;
    var n := |Modules(cfg)|;
    assert Modules(cfg)[n - 1] == Versioning;
    var w := Work(c, n - 1, VELOC_IGNORED, false);
    var (s', r) := VersioningCall(cfg, s, c, env(Versioning));
    BestAnswer(cfg, s, c, env(Versioning));
    assert Round(cfg, s, w, env(Versioning)) == (s', Work(c, n, r, true));
  }

  predicate Eligible(cfg: Config, s: State, c: Command, v: int) {
    v in Stored(cfg, s, c) && (c.version == 0 || v <= c.version)
  }

  /** What the client gets from its wait: the merge of the initial status and the one answer. */
  function Answer(cfg: Config, s: State, c: Command, env: Module -> Env): (r: int) {
    CommandQueue.Merge(VELOC_SUCCESS, Finish(cfg, s, Fresh(c), env).1)
  }

  /** The newest version not above the requested one (any version, if 0 is requested) in the union of both levels,
      and a negative status exactly when there is none. */
  lemma RestartTestAnswer(cfg: Config, s: State, c: Command, env: Module -> Env)
    requires c.kind.Test?
    ensures var r := Answer(cfg, s, c, env);
      if exists v :: Eligible(cfg, s, c, v)
      then Eligible(cfg, s, c, r) && forall v :: Eligible(cfg, s, c, v) ==> v <= r
      else r == VELOC_IGNORED
  {
    TestAnswer(cfg, s, c, env);
    BestAnswer(cfg, s, c, env(Versioning));
    hide VersioningCall, Stored, Finish, Modules, Call;
    var all := Stored(cfg, s, c);
    var eligible := if c.version == 0 then all else set v | v in all && v <= c.version;
    assert forall v :: v in eligible <==> Eligible(cfg, s, c, v);
    if eligible != {} {
      var v := Element(eligible);
    }
  }

  /** A file of the checkpoint on either level is found: the answer is at least its version. */
  lemma TestFinds(cfg: Config, s: State, c: Command, env: Module -> Env, version: nat)
    requires c.kind.Test? && ValidName(c.name) && c.id <= INT_MAX && version <= INT_MAX
    requires c.version == 0 || version <= c.version
    requires var f := Stem(c.name, c.id, version); f in s.scratch || (cfg.storage && f in s.persistent)
    ensures Answer(cfg, s, c, env) >= version
  {
    MatchInverts(c.name, c.id, version);
    hide Match, Stem, Finish, Answer;
    assert Eligible(cfg, s, c, version);
    RestartTestAnswer(cfg, s, c, env);
  }

  predicate IsFile(f: string, name: string, id: nat, version: nat) {
    f == Stem(name, id, version) && ValidName(name) && id <= INT_MAX && version <= INT_MAX
  }

  predicate IsShared(f: string, name: string, version: nat) {
    f == AggName(name, version) && ValidName(name) && version <= INT_MAX
  }

  predicate IsEc(f: string, name: string, version: nat, rest: string) {
    f == EcName(name, version, rest) && ValidName(name) && version <= INT_MAX && Suffix(rest)
  }

  ghost predicate Owned(f: string) {
    || (exists name: string, id: nat, version: nat :: IsFile(f, name, id, version))
    || (exists name: string, version: nat :: IsShared(f, name, version))
    || (exists name: string, version: nat, rest: string :: IsEc(f, name, version, rest))
  }

  /** A directory with nothing but checkpoint files, shared files and files of the erasure coding, of valid names. */
  ghost predicate Tidy(dir: Dir) {
    forall f :: f in dir ==> Owned(f)
  }

  /** Erasure coding has left a file of the version. */
  ghost predicate Coded(dir: Dir, name: string, v: int) {
    0 <= v <= INT_MAX && exists rest: string :: Suffix(rest) && EcName(name, v, rest) in dir
  }

  lemma OtherShared(name: string, other: string, version: nat)
    requires ValidName(name) && ValidName(other) && '.' !in name && name != other
    ensures Match(name, AggName(other, version)) == NoMatch
  {
    OtherName(name, other, "agg" + ("-" + (Digits(version) + ".dat")));
  }

  lemma OtherEc(name: string, other: string, version: nat, rest: string)
    requires ValidName(name) && ValidName(other) && '.' !in name && name != other
    ensures Match(name, EcName(other, version, rest)) == NoMatch
  {
    OtherName(name, other, "ec" + ("-" + (Digits(version) + rest)));
  }

  lemma ListedFile(dir: Dir, name: string, id: nat, ids: set<int>, f: string)
    requires ValidName(name) && '.' !in name && id <= INT_MAX && (ids == {id} || ids == {ID_EC, id})
    requires f in dir && Owned(f)
    ensures var m := Match(name, f);
      m.Matched? && m.id in ids ==>
        0 <= m.version <= INT_MAX && (Stem(name, id, m.version) == f || (ID_EC in ids && Coded(dir, name, m.version)))
  {
    hide Match, Stem, AggName, EcName, ValidName, Suffix;
    if n: string, i: nat, w: nat :| IsFile(f, n, i, w) {
      MatchesOwnFiles(name, n, i, w);
      MatchInverts(name, i, w);
    } else if n: string, w: nat :| IsShared(f, n, w) {
      if n == name { MatchAgg(name, w); } else { OtherShared(name, n, w); }
    } else {
      var n: string, w: nat, rest: string :| IsEc(f, n, w, rest);
      if n == name { MatchEc(name, w, rest); } else { OtherEc(name, n, w, rest); }
    }
  }

  /** In such a directory the listing of a name without dots is exactly the versions stored under the name and id and,
      where they count, those that erasure coding has left files of. */
  lemma ListingExact(dir: Dir, name: string, id: nat, ids: set<int>, v: int)
    requires ValidName(name) && '.' !in name && id <= INT_MAX && (ids == {id} || ids == {ID_EC, id}) && Tidy(dir)
    ensures v in Versions(dir, name, ids) <==>
      0 <= v <= INT_MAX && (Stem(name, id, v) in dir || (ID_EC in ids && Coded(dir, name, v)))
  {
    hide Match, Stem, EcName, ValidName, Owned, Suffix;
    if v in Versions(dir, name, ids) {
      var f :| f in dir && Match(name, f).Matched? && Match(name, f).id in ids && Match(name, f).version == v;
      ListedFile(dir, name, id, ids, f);
    }
    if 0 <= v <= INT_MAX && Stem(name, id, v) in dir {
      MatchInverts(name, id, v);
    }
    if ID_EC in ids && Coded(dir, name, v) {
      var rest: string :| Suffix(rest) && EcName(name, v, rest) in dir;
      MatchEc(name, v, rest);
    }
  }
}
