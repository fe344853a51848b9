/**
  build_release: the manifest of a release from two revisions, and the theorem that build,
  preflight and apply compose to the target revision on every deployable path.
*/
module ReleaseBuild {
  import opened Prelude
  import opened ReleaseFiles
  import opened ReleaseApply
  import opened ReleaseUnits

  const GCP_SOURCE_PREFIXES := [
    "agent/", "config/operations/", "telegram/", "scripts/agent/", "scripts/api/", "scripts/data/", "scripts/db/",
    "scripts/f1/", "scripts/jin10/", "scripts/market/", "scripts/ops/", "scripts/oracle/", "scripts/runtime/",
    "scripts/trade/", "scripts/weather/"]

  const GCP_SOURCE_FILES: set<Path> := {
    ".python-version", "pyproject.toml", "scripts/config.py", "scripts/data_sources.py", "scripts/api_server.py",
    "scripts/requirements.lock.txt"}

  const EXTERNAL_RELEASE_PREFIXES := [
    ".github/", "deploy/", "document/", "docs/", "scripts/NBA/", "scripts/clickhouse/", "scripts/db/archive/",
    "scripts/dev/", "scripts/devtools/", "scripts/qa/", "scripts/deploy/", "tests/", "webpage/"]

  const EXTERNAL_RELEASE_FILES: set<Path> := {
    ".env.example", ".gitignore", ".nvmrc", "AGENTS.md", "Makefile", "README.md", "scripts/generate_docs_i18n.py",
    "scripts/db/migrate_sqlite_to_mysql.py", "scripts/requirements-dev.in", "scripts/requirements-dev.lock.txt",
    "scripts/requirements.txt", "scripts/start_dashboard.sh"}

  const RETIRED_SOURCE_FILES: set<Path> := {
    "scripts/demo.sh", "scripts/market/market_decoder.py", "scripts/trade/trade_decoder.py",
    "scripts/trade/clickhouse_orderfilled_writer.py"}

  /** A committed tree: regular files with mode 0644 or 0755. */
  type Revision = Tree

  /** Everything build_release reads from the repository. */
  datatype Repository = Repository(base: Revision, between: seq<Revision>, target: Revision,
                                   baseUnits: UnitFiles, targetUnits: UnitFiles, overrides: map<Path, Digest>)

  // ----- classification of paths -----

  predicate StartsWithAny(p: Path, prefixes: seq<string>) {
    exists prefix | prefix in prefixes :: prefix <= p
  }

  function NameOf(p: Path): string {
    p[LastSlash(p) + 1..]
  }

  predicate ExternallyOwned(p: Path) {
    p in EXTERNAL_RELEASE_FILES || p in RETIRED_SOURCE_FILES || StartsWithAny(p, EXTERNAL_RELEASE_PREFIXES)
  }

  predicate Deployable(p: Path, units: set<Unit>) {
    if "deploy/systemd/" <= p then NameOf(p) in units
    else !ExternallyOwned(p) && (p in GCP_SOURCE_FILES || StartsWithAny(p, GCP_SOURCE_PREFIXES))
  }

  predicate RetiredQuant(p: Path, target: Revision) {
    ("quant/" <= p || p in RETIRED_SOURCE_FILES) && p !in target
  }

  predicate RetiredUnit(p: Path, target: Revision, baseUnits: set<Unit>) {
    "deploy/systemd/" <= p && p !in target && NameOf(p) in baseUnits
  }

  predicate Selected(p: Path, target: Revision, units: set<Unit>, baseUnits: set<Unit>) {
    Deployable(p, units) || RetiredQuant(p, target) || RetiredUnit(p, target, baseUnits)
  }

  /** git diff --name-only base..target */
  function ChangedPaths(base: Revision, target: Revision): set<Path> {
    set p | p in base.Keys + target.Keys && (p !in base || p !in target || base[p] != target[p])
  }

  /** runtime_paths | changed paths */
  function Considered(r: Repository, units: set<Unit>): set<Path> {
    (set p | p in r.target.Keys && Deployable(p, units)) + ChangedPaths(r.base, r.target)
  }

  // ----- entries -----

  function DigestOf(rev: Revision, p: Path): Option<Digest> {
    DigestAt(rev, p)
  }

  function ModeOf(rev: Revision, p: Path): Option<nat> {
    if p in rev then Some(rev[p].mode) else None
  }

  /** The versions of p at the base, at each commit up to the target, and at the target. */
  function Versions(r: Repository, p: Path): seq<Option<Digest>> {
    [DigestOf(r.base, p)] + seq(|r.between|, i requires 0 <= i < |r.between| => DigestOf(r.between[i], p)) + [DigestOf(r.target, p)]
  }

  function EntryFor(r: Repository, p: Path): Entry {
    Entry(p, if p in r.target then Upsert else Delete, DigestOf(r.base, p), DigestOf(r.target, p),
          [None] + Versions(r, p) + (if p in r.overrides then [Some(r.overrides[p])] else []),
          ModeOf(r.base, p), ModeOf(r.target, p))
  }

  datatype Manifest = Manifest(entries: seq<Entry>, external: seq<Path>, ignored: seq<Path>)

  /** The loop's result for a set of paths: an entry per selected path, the others noted in a list. */
  ghost predicate Classified(m: Manifest, r: Repository, units: set<Unit>, baseUnits: set<Unit>, paths: set<Path>) {
    && DistinctPaths(m.entries)
    && (forall e | e in m.entries :: e == EntryFor(r, e.path))
    && (forall p :: p in PathsOf(m.entries) <==> p in paths && Selected(p, r.target, units, baseUnits))
    && (forall p :: p in m.external <==> p in paths && !Selected(p, r.target, units, baseUnits) && (p !in r.target || ExternallyOwned(p)))
    && (forall p :: p in m.ignored <==> p in paths && !Selected(p, r.target, units, baseUnits) && p in r.target && !ExternallyOwned(p))
  }

  /** The entries are exactly those of the selected considered paths, one each. */
  ghost predicate IsManifest(m: Manifest, r: Repository, units: set<Unit>, baseUnits: set<Unit>) {
    Classified(m, r, units, baseUnits, Considered(r, units))
  }

  // ----- the loop -----

  lemma OneMoreEntry(entries: seq<Entry>, e: Entry)
    requires DistinctPaths(entries) && e.path !in PathsOf(entries)
    ensures PathsOf(entries + [e]) == PathsOf(entries) + {e.path} && DistinctPaths(entries + [e])
  {
    assert forall i | 0 <= i < |entries| :: entries[i].path in PathsOf(entries);
    assert forall x :: x in entries + [e] <==> x in entries || x == e;
  }

  /** One path: an entry, or a note in the external or the ignored list. */
  method ClassifyPath(m: Manifest, r: Repository, units: set<Unit>, baseUnits: set<Unit>, p: Path, ghost done: set<Path>)
    returns (m': Manifest)
    requires Classified(m, r, units, baseUnits, done) && p !in done
    ensures Classified(m', r, units, baseUnits, done + {p})
  {
    var retiredQuant := ("quant/" <= p || p in RETIRED_SOURCE_FILES) && p !in r.target;
    var retiredUnit := "deploy/systemd/" <= p && p !in r.target && NameOf(p) in baseUnits;
    if !Deployable(p, units) && !retiredQuant && !retiredUnit {
      if p !in r.target || ExternallyOwned(p) {
        m' := m.(external := m.external + [p]);
      } else {
        m' := m.(ignored := m.ignored + [p]);
      }
    } else {
      m' := m.(entries := m.entries + [EntryFor(r, p)]);
      OneMoreEntry(m.entries, EntryFor(r, p));
    }
  }

  method ClassifyPaths(r: Repository, units: set<Unit>, baseUnits: set<Unit>, paths: set<Path>) returns (m: Manifest)
    ensures Classified(m, r, units, baseUnits, paths)
  {
    m := Manifest([], [], []);
    var todo := paths;
    ghost var done := {};
    assert PathsOf([]) == {};
    while todo != {}
      invariant done + todo == paths && done !! todo
      invariant Classified(m, r, units, baseUnits, done)
      decreases |todo|
    {
      var p := AnyOf(todo);
      m := ClassifyPath(m, r, units, baseUnits, p, done);
      todo, done := todo - {p}, done + {p};
    }
    assert done == paths;
  }

  /** Every approved override is for a path that the release selects. */
  ghost predicate OverridesApply(r: Repository, units: set<Unit>, baseUnits: set<Unit>) {
    forall p | p in r.overrides :: p in Considered(r, units) && Selected(p, r.target, units, baseUnits)
  }

  /** build_release, up to writing the archive; paths are visited in any order. */
  method BuildRelease(r: Repository)
    returns (result: Result<Manifest, string>, units: set<Unit>, baseUnits: set<Unit>)
    ensures result.Ok? ==>
              && IsManifest(result.value, r, units, baseUnits)
              && IsUnitClosure(r.targetUnits, units) && IsUnitClosure(r.baseUnits, baseUnits)
              && r.overrides.Keys <= PathsOf(result.value.entries)
    ensures ROOT_UNIT !in r.targetUnits || ROOT_UNIT !in r.baseUnits ==> result.Err?
    ensures ROOT_UNIT in r.targetUnits && ROOT_UNIT in r.baseUnits ==>
              && IsUnitClosure(r.targetUnits, units) && IsUnitClosure(r.baseUnits, baseUnits)
              && (result.Ok? <==> OverridesApply(r, units, baseUnits))
  {
    units, baseUnits := {}, {};
    var closure := TargetGcpUnits(r.targetUnits);
    if closure.Err? {
      result := Err(closure.error);
      return;
    }
    var previous := TargetGcpUnits(r.baseUnits);
    if previous.Err? {
      result := Err(previous.error);
      return;
    }
    units, baseUnits := closure.value, previous.value;
    var m := ClassifyPaths(r, units, baseUnits, Considered(r, units));
    if r.overrides.Keys <= PathsOf(m.entries) {
      result := Ok(m);
    } else {
      result := Err("approved remote overrides do not match changed deployable paths");
    }
  }

  // ----- build, preflight and apply compose -----

  /** A version some commit from base to target has of p, or the approved override. */
  ghost predicate AcceptedContent(r: Repository, p: Path, c: Content) {
    || (p in r.base && r.base[p].content == c)
    || (exists rev: Revision | rev in r.between :: p in rev && rev[p].content == c)
    || (p in r.target && r.target[p].content == c)
    || (p in r.overrides && r.overrides[p] == Sha256(c))
  }

  /** Digests of the versions are the versions, as far as contents go. */
  lemma VersionsAreContents(r: Repository, p: Path, c: Content)
    ensures AcceptedContent(r, p, c) <==> Some(Sha256(c)) in Versions(r, p) || (p in r.overrides && r.overrides[p] == Sha256(c))
  {
    var versions := Versions(r, p);
    assert versions[0] == DigestOf(r.base, p) && versions[|versions| - 1] == DigestOf(r.target, p);
    if exists rev: Revision | rev in r.between :: p in rev && rev[p].content == c {
      var rev: Revision :| rev in r.between && p in rev && rev[p].content == c;
      var i :| 0 <= i < |r.between| && r.between[i] == rev;
      assert versions[i + 1] == DigestOf(r.between[i], p);
    }
    forall i | 0 <= i < |versions| && versions[i] == Some(Sha256(c))
      ensures AcceptedContent(r, p, c)
    {
      if 0 < i < |versions| - 1 {
        assert versions[i] == DigestOf(r.between[i - 1], p);
        assert r.between[i - 1] in r.between;
      }
    }
  }

  /** A tree that holds, for each entry of the manifest, an accepted version or no file. */
  ghost predicate HoldsAccepted(t: Tree, m: Manifest, r: Repository) {
    forall p | p in PathsOf(m.entries) && p in t :: AcceptedContent(r, p, t[p].content)
  }

  /** Preflight passes exactly when every entry path is missing or holds an accepted version. */
  lemma PreflightOfManifest(t: Tree, m: Manifest, r: Repository, units: set<Unit>, baseUnits: set<Unit>)
    requires IsManifest(m, r, units, baseUnits)
    ensures Conflicts(t, m.entries) == [] <==>
            HoldsAccepted(t, m, r)
  {
    PreflightPassesExactlyWhen(t, m.entries);
    forall e | e in m.entries
      ensures e.path in PathsOf(m.entries)
      ensures Expected(e, DigestAt(t, e.path)) <==> e.path !in t || AcceptedContent(r, e.path, t[e.path].content)
    {
      ExpectedVersions(r, e.path, DigestAt(t, e.path));
      if e.path in t {
        VersionsAreContents(r, e.path, t[e.path].content);
      }
    }
    forall p | p in PathsOf(m.entries)
      ensures Expected(EntryFor(r, p), DigestAt(t, p)) <==> p !in t || AcceptedContent(r, p, t[p].content)
    {
      ExpectedVersions(r, p, DigestAt(t, p));
      if p in t {
        VersionsAreContents(r, p, t[p].content);
      }
    }
  }

  lemma ExpectedVersions(r: Repository, p: Path, current: Option<Digest>)
    ensures Expected(EntryFor(r, p), current) <==>
            current.None? || current in Versions(r, p) || (p in r.overrides && current == Some(r.overrides[p]))
  {
    var versions := Versions(r, p);
    assert versions[0] == DigestOf(r.base, p) && versions[|versions| - 1] == DigestOf(r.target, p);
  }

  /** The payload that build_release archives. */
  function PayloadOf(r: Repository, entries: seq<Entry>): map<Path, Content> {
    map p | p in r.target.Keys && p in PathsOf(entries) :: r.target[p].content
  }

  lemma PayloadIsValid(m: Manifest, r: Repository, units: set<Unit>, baseUnits: set<Unit>)
    requires IsManifest(m, r, units, baseUnits)
    ensures ValidPayload(PayloadOf(r, m.entries), m.entries)
  {
    var payload := PayloadOf(r, m.entries);
    forall e | e in m.entries
      ensures e.path in PathsOf(m.entries) && (IsUpsert(e) <==> e.path in payload)
    {
    }
    forall p
      ensures p in payload.Keys <==> p in set e | e in m.entries && IsUpsert(e) :: e.path
    {
      if p in payload {
        var e :| e in m.entries && e.path == p;
      }
    }
  }

  /**
    A tree to which the manifest has been applied equals the target revision, content and mode, on
    every release path and so on every deployable path of base or target; elsewhere it is unchanged,
    release temporaries that lay there before aside.
  */
  lemma AppliedIsTarget(t: Tree, original: Tree, m: Manifest, r: Repository, units: set<Unit>, baseUnits: set<Unit>)
    requires IsManifest(m, r, units, baseUnits) && IsApplied(t, original, m.entries)
    ensures forall p | p in PathsOf(m.entries) :: SameAt(t, r.target, p)
    ensures forall p | p in r.base.Keys + r.target.Keys && Deployable(p, units) :: SameAt(t, r.target, p)
    ensures forall p | p !in PathsOf(m.entries) && !IsTemp(PathsOf(m.entries), p) :: SameAt(t, original, p)
    ensures NoTemps(original, PathsOf(m.entries)) ==> forall p | p !in PathsOf(m.entries) :: SameAt(t, original, p)
  {
    forall p | p in PathsOf(m.entries)
      ensures SameAt(t, r.target, p)
    {
      var e :| e in m.entries && e.path == p;
      assert PublishedAt(t, e) && e == EntryFor(r, p);
    }
    if NoTemps(original, PathsOf(m.entries)) {
      AppliedChangesEntriesOnly(t, original, m.entries);
    }
    forall p | p in r.base.Keys + r.target.Keys && Deployable(p, units)
      ensures p in PathsOf(m.entries)
    {
      assert p in Considered(r, units) && Selected(p, r.target, units, baseUnits);
    }
  }

  /** The target revision on every deployable path, the manifest's entries applied, and nothing else changed. */
  ghost predicate IsReleased(t: Tree, original: Tree, m: Manifest, r: Repository, units: set<Unit>) {
    && (forall p | p in r.base.Keys + r.target.Keys && Deployable(p, units) :: SameAt(t, r.target, p))
    && IsApplied(t, original, m.entries)
    && (NoTemps(original, PathsOf(m.entries)) ==> forall p | p !in PathsOf(m.entries) :: SameAt(t, original, p))
  }

  /** Preflight and apply of a built manifest, without faults: applied exactly when all versions are accepted. */
  method ApplyBuilt(r: Repository, m: Manifest, fs: FileSystem, ghost units: set<Unit>, ghost baseUnits: set<Unit>)
    returns (outcome: Outcome)
    requires fs.faults == [] && IsManifest(m, r, units, baseUnits) && NoClash(r.base.Keys + r.target.Keys)
    modifies fs
    ensures outcome.Applied? <==> HoldsAccepted(old(fs.files), m, r)
    ensures !outcome.Applied? ==> fs.files == old(fs.files)
    ensures outcome.Applied? ==> IsReleased(fs.files, old(fs.files), m, r, units)
  {
    CanBeApplied(fs.files, m, r, units, baseUnits);
    ghost var original := fs.files;
    outcome := ApplyRelease(fs, m.entries, PayloadOf(r, m.entries), false);
    if outcome.Applied? {
      AppliedIsReleased(fs.files, original, m, r, units, baseUnits);
    }
  }

  lemma CanBeApplied(t: Tree, m: Manifest, r: Repository, units: set<Unit>, baseUnits: set<Unit>)
    requires IsManifest(m, r, units, baseUnits) && NoClash(r.base.Keys + r.target.Keys)
    ensures DistinctPaths(m.entries) && NoClash(PathsOf(m.entries)) && ValidPayload(PayloadOf(r, m.entries), m.entries)
    ensures Conflicts(t, m.entries) == [] <==> HoldsAccepted(t, m, r)
  {
    EntriesAreOfRevisions(m, r, units, baseUnits);
    FewerPathsNoClash(PathsOf(m.entries), r.base.Keys + r.target.Keys);
    PreflightOfManifest(t, m, r, units, baseUnits);
    PayloadIsValid(m, r, units, baseUnits);
  }

  lemma EntriesAreOfRevisions(m: Manifest, r: Repository, units: set<Unit>, baseUnits: set<Unit>)
    requires IsManifest(m, r, units, baseUnits)
    ensures PathsOf(m.entries) <= r.base.Keys + r.target.Keys
  {
    forall p | p in PathsOf(m.entries)
      ensures p in r.base.Keys + r.target.Keys
    {
      assert p in Considered(r, units);
    }
  }

  lemma FewerPathsNoClash(ps: set<Path>, all: set<Path>)
    requires ps <= all && NoClash(all)
    ensures NoClash(ps)
  {
  }

  lemma AppliedIsReleased(t: Tree, original: Tree, m: Manifest, r: Repository, units: set<Unit>, baseUnits: set<Unit>)
    requires IsManifest(m, r, units, baseUnits) && IsApplied(t, original, m.entries)
    ensures IsReleased(t, original, m, r, units)
  {
    AppliedIsTarget(t, original, m, r, units, baseUnits);
  }

  /**
    Build, preflight and apply in one go, without faults. A manifest is built exactly when both
    revisions have the root unit and every override applies; it is applied exactly when the tree
    holds accepted versions; and then the tree is the target on every deployable path.
  */
  method BuildAndApply(r: Repository, fs: FileSystem)
    returns (result: Result<Manifest, string>, outcome: Outcome, units: set<Unit>, baseUnits: set<Unit>)
    requires fs.faults == [] && NoClash(r.base.Keys + r.target.Keys)
    modifies fs
    ensures ROOT_UNIT !in r.targetUnits || ROOT_UNIT !in r.baseUnits ==> result.Err?
    ensures ROOT_UNIT in r.targetUnits && ROOT_UNIT in r.baseUnits ==>
              && IsUnitClosure(r.targetUnits, units) && IsUnitClosure(r.baseUnits, baseUnits)
              && (result.Ok? <==> OverridesApply(r, units, baseUnits))
    ensures outcome.Applied? <==> result.Ok? && HoldsAccepted(old(fs.files), result.value, r)
    ensures !outcome.Applied? ==> fs.files == old(fs.files)
    ensures outcome.Applied? ==> IsReleased(fs.files, old(fs.files), result.value, r, units)
  {
    result, units, baseUnits := BuildRelease(r);
    outcome := Refused;
    if result.Ok? {
      outcome := ApplyBuilt(r, result.value, fs, units, baseUnits);
    }
  }
}
