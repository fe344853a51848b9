/**
  rollback_release: restoring every release path from its receipt, from any tree that an
  interrupted apply or an interrupted rollback may have left.
*/
module ReleaseRollback {
  import opened Prelude
  import opened ReleaseFiles

  datatype ReceiptEntry = ReceiptEntry(path: Path, existed: bool, previousMode: Option<nat>)

  /** The backup directory of one release: the saved contents and receipt.json. */
  datatype Backup = Backup(saved: map<Path, Content>, receipt: seq<ReceiptEntry>)

  function ReceiptPaths(receipt: seq<ReceiptEntry>): set<Path> {
    set e | e in receipt :: e.path
  }

  /** The receipt describes the release paths of the original tree, and the contents are saved. */
  ghost predicate Describes(b: Backup, original: Tree) {
    && NoClash(ReceiptPaths(b.receipt))
    && (forall i, j | 0 <= i < j < |b.receipt| :: b.receipt[i].path != b.receipt[j].path)
    && forall e | e in b.receipt ::
         && (e.existed <==> e.path in original)
         && (e.existed ==> e.path in b.saved && e.previousMode.Some? &&
                           original[e.path] == File(b.saved[e.path], e.previousMode.value))
         && (!e.existed ==> e.previousMode.None?)
  }

  /** Only p and its two temporaries differ. */
  ghost predicate OnlyTouches(t: Tree, t': Tree, p: Path) {
    forall q | q != p && q != StagedName(p) && q != RollbackName(p) :: SameAt(t, t', q)
  }

  /** Work on one release path leaves the tree recoverable and other restored paths restored. */
  lemma TouchingOnePath(t: Tree, t': Tree, original: Tree, ps: set<Path>, p: Path)
    requires p in ps && NoClash(ps) && Recoverable(t, original, ps) && OnlyTouches(t, t', p)
    requires Unfinished(t', original, p)
    ensures Recoverable(t', original, ps)
    ensures forall q | q in ps && q != p && RestoredAt(t, original, q) :: RestoredAt(t', original, q)
  {
    forall q | q in ps
      ensures q != p ==> SameAt(t, t', q) && SameAt(t, t', StagedName(q)) && SameAt(t, t', RollbackName(q))
    {
      TempNamesDiffer(p, q);
      TempNamesDiffer(q, p);
    }
    forall q | q !in ps && !IsTemp(ps, q)
      ensures SameAt(t', original, q)
    {
      assert SameAt(t, t', q) && SameAt(t, original, q);
    }
  }

  /** Write the temporary, set its mode and move it over the destination. */
  method RestoreFile(fs: FileSystem, p: Path, content: Content, mode: nat) returns (s: Signal)
    modifies fs
    ensures OnlyTouches(old(fs.files), fs.files, p)
    ensures s.Fine? ==> fs.files == (old(fs.files) - {RollbackName(p)})[p := File(content, mode)]
    ensures !s.Fine? ==> SameAt(fs.files, old(fs.files), p) && SameAt(fs.files, old(fs.files), StagedName(p))
    ensures |fs.faults| <= |old(fs.faults)| && (!s.Fine? ==> |fs.faults| < |old(fs.faults)|)
  {
    TempNamesDiffer(p, p);
    NotItsOwnTemp(p);
    s := fs.CopyFile(content, RollbackName(p));
    if !s.Fine? { return; }
    s := fs.Chmod(RollbackName(p), mode);
    if !s.Fine? { return; }
    s := fs.Replace(RollbackName(p), p);
  }

  lemma TouchesCompose(t: Tree, u: Tree, v: Tree, p: Path)
    requires OnlyTouches(t, u, p) && OnlyTouches(u, v, p)
    ensures OnlyTouches(t, v, p)
  {
    forall q | q != p && q != StagedName(p) && q != RollbackName(p)
      ensures SameAt(t, v, q)
    {
      assert SameAt(t, u, q) && SameAt(u, v, q);
    }
  }

  lemma NotItsOwnTemp(p: Path)
    ensures |StagedName(p)| > |p| && |RollbackName(p)| > |p|
  {
  }

  /** One pass of the loop: the receipt entry is restored, or an operation was interrupted. */
  method RollbackEntry(fs: FileSystem, e: ReceiptEntry, b: Backup, ghost original: Tree) returns (s: Signal)
    requires e in b.receipt && Describes(b, original)
    requires Unfinished(fs.files, original, e.path)
    modifies fs
    ensures OnlyTouches(old(fs.files), fs.files, e.path) && Unfinished(fs.files, original, e.path)
    ensures s.Fine? ==> RestoredAt(fs.files, original, e.path)
    ensures RestoredAt(old(fs.files), original, e.path) ==> fs.files == old(fs.files)
    ensures |fs.faults| <= |old(fs.faults)| && (!s.Fine? ==> |fs.faults| < |old(fs.faults)|)
  {
    var p := e.path;
    TempNamesDiffer(p, p);
    NotItsOwnTemp(p);
    ghost var before := fs.files;
    s := fs.Unlink(StagedName(p));
    if !s.Fine? { return; }
    ghost var unstaged := fs.files;
    assert OnlyTouches(before, unstaged, p);
    if e.existed {
      // content and mode of the destination against the backup
      if p in fs.files && fs.files[p].content == b.saved[p] && Some(fs.files[p].mode) == e.previousMode {
        return;
      }
      s := RestoreFile(fs, p, b.saved[p], e.previousMode.value);
      TouchesCompose(before, unstaged, fs.files, p);
    } else if p in fs.files {
      s := fs.Unlink(p);
    }
  }

  /** Receipt entries from i on are restored. */
  ghost predicate RestoredFrom(t: Tree, original: Tree, receipt: seq<ReceiptEntry>, i: nat) {
    forall j | i <= j < |receipt| :: RestoredAt(t, original, receipt[j].path)
  }

  lemma RestoredOneMore(t: Tree, t': Tree, original: Tree, b: Backup, i: nat)
    requires i < |b.receipt| && Describes(b, original)
    requires Recoverable(t, original, ReceiptPaths(b.receipt)) && RestoredFrom(t, original, b.receipt, i + 1)
    requires OnlyTouches(t, t', b.receipt[i].path) && Unfinished(t', original, b.receipt[i].path)
    ensures Recoverable(t', original, ReceiptPaths(b.receipt))
    ensures RestoredAt(t', original, b.receipt[i].path) ==> RestoredFrom(t', original, b.receipt, i)
  {
    var ps, p := ReceiptPaths(b.receipt), b.receipt[i].path;
    TouchingOnePath(t, t', original, ps, p);
    forall j | i < j < |b.receipt|
      ensures RestoredAt(t', original, b.receipt[j].path)
    {
      assert b.receipt[j] in b.receipt && b.receipt[j].path in ps && b.receipt[j].path != p;
    }
  }

  lemma AllRestored(t: Tree, original: Tree, b: Backup)
    requires Describes(b, original)
    requires Recoverable(t, original, ReceiptPaths(b.receipt)) && RestoredFrom(t, original, b.receipt, 0)
    ensures Restored(t, original, ReceiptPaths(b.receipt))
  {
    var ps := ReceiptPaths(b.receipt);
    forall p | p in ps
      ensures RestoredAt(t, original, p)
    {
      var e :| e in b.receipt && e.path == p;
      var j :| 0 <= j < |b.receipt| && b.receipt[j] == e;
    }
  }

  /**
    From every recoverable tree, a rollback that is interrupted leaves a recoverable tree again,
    and one that completes restores everything. A restored tree stays as it is, interrupted or not.
  */
  method RollbackRelease(fs: FileSystem, b: Backup, ghost original: Tree) returns (s: Signal)
    requires Describes(b, original)
    requires Recoverable(fs.files, original, ReceiptPaths(b.receipt))
    modifies fs
    ensures Recoverable(fs.files, original, ReceiptPaths(b.receipt))
    ensures s.Fine? ==> Restored(fs.files, original, ReceiptPaths(b.receipt))
    ensures s.Fine? && NoTemps(original, ReceiptPaths(b.receipt)) ==> fs.files == original
    ensures Restored(old(fs.files), original, ReceiptPaths(b.receipt)) ==> fs.files == old(fs.files)
    ensures |fs.faults| <= |old(fs.faults)| && (!s.Fine? ==> |fs.faults| < |old(fs.faults)|)
  {
    s := Fine;
    var i := |b.receipt|;
    while i > 0
      invariant 0 <= i <= |b.receipt|
      invariant Recoverable(fs.files, original, ReceiptPaths(b.receipt))
      invariant RestoredFrom(fs.files, original, b.receipt, i)
      invariant Restored(old(fs.files), original, ReceiptPaths(b.receipt)) ==> fs.files == old(fs.files)
      invariant |fs.faults| <= |old(fs.faults)|
    {
      i := i - 1;
      ghost var before := fs.files;
      assert b.receipt[i].path in ReceiptPaths(b.receipt);
      s := RollbackEntry(fs, b.receipt[i], b, original);
      RestoredOneMore(before, fs.files, original, b, i);
      if !s.Fine? { return; }
    }
    s := Fine;
    AllRestored(fs.files, original, b);
    if NoTemps(original, ReceiptPaths(b.receipt)) {
      RestoredIsOriginal(fs.files, original, ReceiptPaths(b.receipt));
    }
  }
}
