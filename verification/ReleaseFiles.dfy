/**
  Files of the serving tree during a release (scripts/deploy/gcp_release.py): temporary names, the
  atomic file operations, and the trees a rollback can start from.
*/
module ReleaseFiles {
  import opened Prelude

  type Path = string
  type Content = string

  datatype File = File(content: Content, mode: nat)

  type Tree = map<Path, File>

  const NEW_SUFFIX := ".polydata-new"
  const ROLLBACK_SUFFIX := ".polydata-rollback"

  // ----- temporary names -----

  /** Index of the last slash, -1 when there is none. */
  function LastSlash(p: Path): (i: int)
    ensures -1 <= i < |p|
  {
    if p == "" then -1 else if p[|p| - 1] == '/' then |p| - 1 else LastSlash(p[..|p| - 1])
  }

  lemma {:induction false} LastSlashIsLast(p: Path, i: int)
    requires -1 <= i < |p| && (i >= 0 ==> p[i] == '/')
    requires forall j | i < j < |p| :: p[j] != '/'
    ensures LastSlash(p) == i
  {
    if p != "" && p[|p| - 1] != '/' {
      LastSlashIsLast(p[..|p| - 1], i);
    }
  }

  lemma {:induction false} LastSlashFound(p: Path)
    ensures LastSlash(p) >= 0 ==> p[LastSlash(p)] == '/'
    ensures forall j | LastSlash(p) < j < |p| :: p[j] != '/'
  {
    if p != "" {
      LastSlashFound(p[..|p| - 1]);
    }
  }

  /** destination.with_name(f".{destination.name}{suffix}") */
  function TempName(p: Path, suffix: string): Path {
    var cut := LastSlash(p) + 1;
    p[..cut] + "." + p[cut..] + suffix
  }

  function StagedName(p: Path): Path {
    TempName(p, NEW_SUFFIX)
  }

  function RollbackName(p: Path): Path {
    TempName(p, ROLLBACK_SUFFIX)
  }

  lemma TempNameKeepsDirectory(p: Path, suffix: string)
    requires '/' !in suffix
    ensures LastSlash(TempName(p, suffix)) == LastSlash(p)
  {
    var t, s := TempName(p, suffix), LastSlash(p);
    LastSlashFound(p);
    assert forall j | s < j < |t| :: t[j] != '/';
    assert s >= 0 ==> t[s] == p[s];
    LastSlashIsLast(t, s);
  }

  /** The temporaries of a file lie beside it, hidden, with the kind at the end. */
  lemma TempNamesOf(dir: string, name: string)
    requires '/' !in name
    ensures StagedName(dir + "/" + name) == dir + "/" + "." + name + ".polydata-new"
    ensures RollbackName(dir + "/" + name) == dir + "/" + "." + name + ".polydata-rollback"
  {
    TempNameIn(dir, name, ".polydata-new");
    TempNameIn(dir, name, ".polydata-rollback");
  }

  lemma TempNameIn(dir: string, name: string, suffix: string)
    requires '/' !in name
    ensures TempName(dir + "/" + name, suffix) == dir + "/" + "." + name + suffix
  {
    var p := dir + "/" + name;
    assert forall j | |dir| < j < |p| :: p[j] == name[j - |dir| - 1] && p[j] in name;
    LastSlashIsLast(p, |dir|);
    assert p[..|dir| + 1] == dir + "/" && p[|dir| + 1..] == name;
  }

  /** Different files get different temporary names, and the two kinds never coincide. */
  lemma TempNamesDiffer(p: Path, q: Path)
    ensures StagedName(p) == StagedName(q) ==> p == q
    ensures RollbackName(p) == RollbackName(q) ==> p == q
    ensures StagedName(p) != RollbackName(q)
  {
    TempNameInjective(p, q, NEW_SUFFIX);
    TempNameInjective(p, q, ROLLBACK_SUFFIX);
    var a, b := StagedName(p), RollbackName(q);
    assert a[|a| - 1] == 'w' && b[|b| - 1] == 'k';
  }

  lemma TempNameInjective(p: Path, q: Path, suffix: string)
    requires '/' !in suffix
    ensures TempName(p, suffix) == TempName(q, suffix) ==> p == q
  {
    if TempName(p, suffix) == TempName(q, suffix) {
      TempNameKeepsDirectory(p, suffix);
      TempNameKeepsDirectory(q, suffix);
      var t, cut := TempName(p, suffix), LastSlash(p) + 1;
      assert p == t[..cut] + t[cut + 1..|t| - |suffix|];
      assert q == t[..cut] + t[cut + 1..|t| - |suffix|];
    }
  }

  // ----- trees -----

  ghost predicate SameAt(t: Tree, u: Tree, p: Path) {
    && (p in t <==> p in u)
    && (p in t ==> t[p] == u[p])
  }

  /** Release paths: none is a temporary name of another, so publishing never collides. */
  ghost predicate NoClash(ps: set<Path>) {
    forall p, q | p in ps && q in ps :: StagedName(p) != q && RollbackName(p) != q
  }

  ghost predicate IsTemp(ps: set<Path>, q: Path) {
    exists p | p in ps :: q == StagedName(p) || q == RollbackName(p)
  }

  /** No release temporary of these paths exists. */
  ghost predicate NoTemps(t: Tree, ps: set<Path>) {
    forall p | p in ps :: StagedName(p) !in t && RollbackName(p) !in t
  }

  /** Every release temporary that exists is one that was there before. */
  ghost predicate NoNewTemps(t: Tree, original: Tree, ps: set<Path>) {
    forall p | p in ps ::
      && (StagedName(p) in t ==> SameAt(t, original, StagedName(p)))
      && (RollbackName(p) in t ==> SameAt(t, original, RollbackName(p)))
  }

  /**
    A tree some interruption of the release may have left: outside the release paths and their
    temporaries nothing changed, and a new rollback temporary exists only beside a file that still
    has to be restored.
  */
  ghost predicate Recoverable(t: Tree, original: Tree, ps: set<Path>) {
    && (forall q | q !in ps && !IsTemp(ps, q) :: SameAt(t, original, q))
    && forall p | p in ps :: Unfinished(t, original, p)
  }

  /** A rollback temporary is one from before the release, or its file still has to be restored. */
  ghost predicate Unfinished(t: Tree, original: Tree, p: Path) {
    RollbackName(p) in t ==> SameAt(t, original, RollbackName(p)) || (p in original && !SameAt(t, original, p))
  }

  /** The path is as it was, nothing is staged for it, and no new rollback temporary is left. */
  ghost predicate RestoredAt(t: Tree, original: Tree, p: Path) {
    && SameAt(t, original, p)
    && StagedName(p) !in t
    && (RollbackName(p) in t ==> SameAt(t, original, RollbackName(p)))
  }

  /** Everything but release temporaries is as it was, and the only temporaries are old rollback ones. */
  ghost predicate Restored(t: Tree, original: Tree, ps: set<Path>) {
    && (forall q | q !in ps && !IsTemp(ps, q) :: SameAt(t, original, q))
    && forall p | p in ps :: RestoredAt(t, original, p)
  }

  /** Where no temporary was lying about before, the restored tree is exactly the original one. */
  lemma RestoredIsOriginal(t: Tree, original: Tree, ps: set<Path>)
    requires Restored(t, original, ps) && NoTemps(original, ps)
    ensures t == original
  {
    forall q
      ensures q in t <==> q in original
      ensures q in t ==> t[q] == original[q]
    {
      if IsTemp(ps, q) {
        var p :| p in ps && (q == StagedName(p) || q == RollbackName(p));
        assert RestoredAt(t, original, p);
      }
      assert SameAt(t, original, q);
    }
    assert t.Keys == original.Keys;
  }

  // ----- file operations, each of which may raise or be cut short by a crash -----

  /** How the next file operation ends. A copy cut short may leave any partial file behind. */
  datatype Fault = Works | Raises(partial: Option<File>) | Crashes(partial: Option<File>)

  datatype Signal = Fine | Raised | Crashed

  const DEFAULT_MODE: nat := 0x1A4   // 0o644

  class FileSystem {
    var files: Tree
    var faults: seq<Fault>

    constructor (files: Tree, faults: seq<Fault>)
      ensures this.files == files && this.faults == faults
    {
      this.files, this.faults := files, faults;
    }

    method NextFault() returns (f: Fault)
      modifies this`faults
      ensures |faults| <= |old(faults)| && (!f.Works? ==> |faults| < |old(faults)|)
    {
      if faults == [] {
        f := Works;
      } else {
        f, faults := faults[0], faults[1..];
      }
    }

    /** path.unlink(missing_ok=True) */
    method Unlink(p: Path) returns (s: Signal)
      modifies this
      ensures s.Fine? ==> files == old(files) - {p}
      ensures !s.Fine? ==> files == old(files)
      ensures |faults| <= |old(faults)| && (!s.Fine? ==> |faults| < |old(faults)|)
    {
      var f := NextFault();
      s := SignalOf(f);
      if s.Fine? {
        files := files - {p};
      }
    }

    /** shutil.copyfile(source, p): creates or truncates p, then writes it. */
    method CopyFile(content: Content, p: Path) returns (s: Signal)
      modifies this
      ensures s.Fine? ==> files == old(files)[p := File(content, if p in old(files) then old(files)[p].mode else DEFAULT_MODE)]
      ensures !s.Fine? ==> files == old(files) || (p in files && files == old(files)[p := files[p]])
      ensures |faults| <= |old(faults)| && (!s.Fine? ==> |faults| < |old(faults)|)
    {
      var f := NextFault();
      s := SignalOf(f);
      match f {
        case Works =>
          files := files[p := File(content, if p in files then files[p].mode else DEFAULT_MODE)];
        case Raises(partial) => if partial.Some? { files := files[p := partial.value]; }
        case Crashes(partial) => if partial.Some? { files := files[p := partial.value]; }
      }
    }

    /** os.chmod(p, mode) */
    method Chmod(p: Path, mode: nat) returns (s: Signal)
      requires p in files
      modifies this
      ensures s.Fine? ==> files == old(files)[p := old(files)[p].(mode := mode)]
      ensures !s.Fine? ==> files == old(files)
      ensures |faults| <= |old(faults)| && (!s.Fine? ==> |faults| < |old(faults)|)
    {
      var f := NextFault();
      s := SignalOf(f);
      if s.Fine? {
        files := files[p := files[p].(mode := mode)];
      }
    }

    /** p.replace(q): atomic */
    method Replace(p: Path, q: Path) returns (s: Signal)
      requires p in files
      modifies this
      ensures s.Fine? ==> files == (old(files) - {p})[q := old(files)[p]]
      ensures !s.Fine? ==> files == old(files)
      ensures |faults| <= |old(faults)| && (!s.Fine? ==> |faults| < |old(faults)|)
    {
      var f := NextFault();
      s := SignalOf(f);
      if s.Fine? {
        files := (files - {p})[q := files[p]];
      }
    }
  }

  function SignalOf(f: Fault): Signal {
    match f case Works => Fine case Raises(_) => Raised case Crashes(_) => Crashed
  }
}
