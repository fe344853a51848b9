/**
  The release manifest, its preflight, and apply_release: back up, stage, publish, and roll back
  when anything raises.
*/
module ReleaseApply {
  import opened Prelude
  import opened ReleaseFiles
  import opened ReleaseRollback

  // ----- manifest and preflight -----

  type Digest = string

  /** SHA-256, taken to be injective: a digest stands for its content. */
  function Sha256(c: Content): Digest {
    c
  }

  datatype Action = Upsert | Delete

  datatype Entry = Entry(path: Path, action: Action, before: Option<Digest>, after: Option<Digest>,
                         accepted: seq<Option<Digest>>, beforeMode: Option<nat>, afterMode: Option<nat>)

  function PathsOf(entries: seq<Entry>): set<Path> {
    set e | e in entries :: e.path
  }

  ghost predicate DistinctPaths(entries: seq<Entry>) {
    forall i, j | 0 <= i < j < |entries| :: entries[i].path != entries[j].path
  }

  /** _file_sha256 of a regular or missing file */
  function DigestAt(t: Tree, p: Path): Option<Digest> {
    if p in t then Some(Sha256(t[p].content)) else None
  }

  predicate Expected(e: Entry, current: Option<Digest>) {
    current in e.accepted || current == e.before || current == e.after
  }

  function Conflicts(t: Tree, entries: seq<Entry>): seq<Path> {
    if entries == [] then []
    else
      var e := entries[|entries| - 1];
      Conflicts(t, entries[..|entries| - 1]) + (if Expected(e, DigestAt(t, e.path)) then [] else [e.path])
  }

  method Preflight(t: Tree, entries: seq<Entry>) returns (conflicts: seq<Path>)
    ensures conflicts == Conflicts(t, entries)
  {
    conflicts := [];
    for i := 0 to |entries|
      invariant conflicts == Conflicts(t, entries[..i])
    {
      var e := entries[i];
      assert entries[..i + 1][..i] == entries[..i];
      var current := DigestAt(t, e.path);
      if !(current in e.accepted || current == e.before || current == e.after) {
        conflicts := conflicts + [e.path];
      }
    }
    assert entries[..|entries|] == entries;
  }

  /** Preflight passes exactly when every path is missing or holds a version its entry expects. */
  lemma {:induction false} PreflightPassesExactlyWhen(t: Tree, entries: seq<Entry>)
    ensures Conflicts(t, entries) == [] <==> forall e | e in entries :: Expected(e, DigestAt(t, e.path))
  {
    if entries != [] {
      var init, e := entries[..|entries| - 1], entries[|entries| - 1];
      PreflightPassesExactlyWhen(t, init);
      assert entries == init + [e];
    }
  }

  // ----- the applied tree -----

  /** The destination holds what the entry says. */
  ghost predicate PublishedAt(t: Tree, e: Entry) {
    match e.action
    case Upsert => e.path in t && Some(Sha256(t[e.path].content)) == e.after && Some(t[e.path].mode) == e.afterMode
    case Delete => e.path !in t
  }

  /** Every entry is published, nothing is staged for an upsert, and nothing else differs from the original tree. */
  ghost predicate IsApplied(t: Tree, original: Tree, entries: seq<Entry>) {
    && (forall e | e in entries :: PublishedAt(t, e) && (IsUpsert(e) ==> StagedName(e.path) !in t))
    && (forall q | q !in PathsOf(entries) && !IsTemp(PathsOf(entries), q) :: SameAt(t, original, q))
    && NoNewTemps(t, original, PathsOf(entries))
  }

  /** Where no temporary was lying about before, only the entries' paths differ. */
  lemma AppliedChangesEntriesOnly(t: Tree, original: Tree, entries: seq<Entry>)
    requires IsApplied(t, original, entries) && NoTemps(original, PathsOf(entries))
    ensures forall q | q !in PathsOf(entries) :: SameAt(t, original, q)
  {
    forall q | q !in PathsOf(entries)
      ensures SameAt(t, original, q)
    {
      if IsTemp(PathsOf(entries), q) {
        var p :| p in PathsOf(entries) && (q == StagedName(p) || q == RollbackName(p));
      }
    }
  }

  predicate IsUpsert(e: Entry) {
    e.action == Upsert
  }

  /** The payload has exactly the upserted files, with the recorded contents; modes are present. */
  predicate ValidPayload(payload: map<Path, Content>, entries: seq<Entry>) {
    && payload.Keys == (set e | e in entries && IsUpsert(e) :: e.path)
    && forall e | e in entries && IsUpsert(e) :: e.after == Some(Sha256(payload[e.path])) && e.afterMode.Some?
  }

  // ----- progress of staging and publishing -----

  /** The staged file of an upserted entry is ready. */
  ghost predicate StagedAt(t: Tree, e: Entry) {
    && StagedName(e.path) in t
    && Some(Sha256(t[StagedName(e.path)].content)) == e.after
    && Some(t[StagedName(e.path)].mode) == e.afterMode
  }

  /** Where an entry stands: published, staged, or untouched; nothing is ever staged for a deletion. */
  ghost predicate Stands(t: Tree, original: Tree, e: Entry, staged: bool, published: bool) {
    && (if published then PublishedAt(t, e) else SameAt(t, original, e.path))
    && (if e.action == Delete || !staged then SameAt(t, original, StagedName(e.path))
        else if published then StagedName(e.path) !in t
        else StagedAt(t, e))
  }

  /** Entries before published are published, from there to staged they are staged, the rest untouched. */
  ghost predicate Progress(t: Tree, original: Tree, entries: seq<Entry>, staged: nat, published: nat) {
    forall j | 0 <= j < |entries| :: Stands(t, original, entries[j], j < staged, j < published)
  }

  /** Only p and its staged file differ. */
  ghost predicate OnlyStages(t: Tree, t': Tree, p: Path) {
    forall q | q != p && q != StagedName(p) :: SameAt(t, t', q)
  }

  /** Interrupted or complete, apply has changed only release paths and staged files. */
  ghost predicate Forward(t: Tree, original: Tree, ps: set<Path>) {
    && (forall q | q !in ps && !IsTemp(ps, q) :: SameAt(t, original, q))
    && (forall p | p in ps :: SameAt(t, original, RollbackName(p)))
  }

  lemma ForwardIsRecoverable(t: Tree, original: Tree, ps: set<Path>)
    requires Forward(t, original, ps)
    ensures Recoverable(t, original, ps)
  {
  }

  lemma ForwardStep(t: Tree, t': Tree, original: Tree, ps: set<Path>, p: Path)
    requires p in ps && NoClash(ps) && Forward(t, original, ps) && OnlyStages(t, t', p)
    ensures Forward(t', original, ps)
  {
    forall q | q in ps
      ensures SameAt(t', original, RollbackName(q))
    {
      TempNamesDiffer(p, q);
      assert SameAt(t, t', RollbackName(q));
    }
    forall q | q !in ps && !IsTemp(ps, q)
      ensures SameAt(t', original, q)
    {
      assert SameAt(t, t', q) && SameAt(t, original, q);
    }
  }

  lemma OtherPathSame(t: Tree, t': Tree, ps: set<Path>, p: Path, q: Path)
    requires p in ps && q in ps && p != q && NoClash(ps) && OnlyStages(t, t', p)
    ensures SameAt(t, t', q) && SameAt(t, t', StagedName(q))
  {
    TempNamesDiffer(p, q);
  }

  lemma OthersStand(t: Tree, t': Tree, original: Tree, ps: set<Path>, p: Path, e: Entry, staged: bool, published: bool)
    requires p in ps && e.path in ps && p != e.path && NoClash(ps) && OnlyStages(t, t', p)
    requires Stands(t, original, e, staged, published)
    ensures Stands(t', original, e, staged, published)
  {
    OtherPathSame(t, t', ps, p, e.path);
  }

  /** Work on entry i that leaves it standing as wanted moves the whole progress on. */
  lemma ProgressStep(t: Tree, t': Tree, original: Tree, entries: seq<Entry>, i: nat,
                     staged: nat, published: nat, staged': nat, published': nat)
    requires i < |entries| && DistinctPaths(entries) && NoClash(PathsOf(entries))
    requires Progress(t, original, entries, staged, published) && OnlyStages(t, t', entries[i].path)
    requires Stands(t', original, entries[i], i < staged', i < published')
    requires staged' == staged || (staged == i && staged' == i + 1)
    requires published' == published || (published == i && published' == i + 1)
    ensures Progress(t', original, entries, staged', published')
  {
    forall j | 0 <= j < |entries|
      ensures Stands(t', original, entries[j], j < staged', j < published')
    {
      if j != i {
        assert entries[i].path in PathsOf(entries) && entries[j].path in PathsOf(entries);
        OthersStand(t, t', original, PathsOf(entries), entries[i].path, entries[j], j < staged, j < published);
      }
    }
  }

  ghost predicate NoneStaged(t: Tree, entries: seq<Entry>) {
    forall e | e in entries && IsUpsert(e) :: StagedName(e.path) !in t
  }

  lemma AllPublished(t: Tree, original: Tree, entries: seq<Entry>)
    requires Progress(t, original, entries, |entries|, |entries|) && Forward(t, original, PathsOf(entries))
    ensures IsApplied(t, original, entries)
    ensures NoneStaged(t, entries)
  {
    forall e | e in entries
      ensures PublishedAt(t, e) && (IsUpsert(e) ==> StagedName(e.path) !in t)
      ensures StagedName(e.path) in t ==> SameAt(t, original, StagedName(e.path))
    {
      var j :| 0 <= j < |entries| && entries[j] == e;
      assert Stands(t, original, entries[j], true, true);
    }
  }

  // ----- staging, publishing, cleaning up -----

  /** Copy the payload file beside its destination and give it its mode. */
  method StageEntry(fs: FileSystem, e: Entry, content: Content) returns (s: Signal)
    requires IsUpsert(e) && e.after == Some(Sha256(content)) && e.afterMode.Some?
    modifies fs
    ensures OnlyStages(old(fs.files), fs.files, e.path) && SameAt(fs.files, old(fs.files), e.path)
    ensures s.Fine? ==> StagedAt(fs.files, e)
    ensures |fs.faults| <= |old(fs.faults)| && (!s.Fine? ==> |fs.faults| < |old(fs.faults)|)
  {
    NotItsOwnTemp(e.path);
    s := fs.CopyFile(content, StagedName(e.path));
    if !s.Fine? { return; }
    s := fs.Chmod(StagedName(e.path), e.afterMode.value);
  }

  /** Unlink a deleted file, or move the staged file over its destination. */
  method PublishEntry(fs: FileSystem, e: Entry) returns (s: Signal)
    requires IsUpsert(e) ==> StagedAt(fs.files, e)
    modifies fs
    ensures OnlyStages(old(fs.files), fs.files, e.path)
    ensures s.Fine? ==> PublishedAt(fs.files, e)
    ensures s.Fine? && IsUpsert(e) ==> StagedName(e.path) !in fs.files
    ensures !IsUpsert(e) ==> SameAt(fs.files, old(fs.files), StagedName(e.path))
    ensures |fs.faults| <= |old(fs.faults)| && (!s.Fine? ==> |fs.faults| < |old(fs.faults)|)
  {
    NotItsOwnTemp(e.path);
    match e.action {
      case Delete => s := fs.Unlink(e.path);
      case Upsert => s := fs.Replace(StagedName(e.path), e.path);
    }
  }

  method Stage(fs: FileSystem, entries: seq<Entry>, payload: map<Path, Content>, ghost original: Tree)
    returns (s: Signal, staged: nat)
    requires DistinctPaths(entries) && NoClash(PathsOf(entries)) && ValidPayload(payload, entries)
    requires fs.files == original
    modifies fs
    ensures Forward(fs.files, original, PathsOf(entries)) && staged <= |entries|
    ensures s.Fine? ==> Progress(fs.files, original, entries, |entries|, 0) && staged == |entries|
    ensures |fs.faults| <= |old(fs.faults)| && (!s.Fine? ==> |fs.faults| < |old(fs.faults)|)
  {
    s, staged := Fine, 0;
    ghost var ps := PathsOf(entries);
    assert Progress(fs.files, original, entries, 0, 0) by {
      assert forall e | e in entries :: e.path in ps;
    }
    while staged < |entries|
      invariant staged <= |entries| && s.Fine?
      invariant Forward(fs.files, original, ps)
      invariant Progress(fs.files, original, entries, staged, 0)
      invariant |fs.faults| <= |old(fs.faults)|
    {
      var e := entries[staged];
      ghost var before := fs.files;
      assert e.path in ps;
      if IsUpsert(e) {
        s := StageEntry(fs, e, payload[e.path]);
        ForwardStep(before, fs.files, original, ps, e.path);
        if !s.Fine? {
          staged := staged + 1;
          return;
        }
      }
      assert Stands(before, original, e, false, false);
      ProgressStep(before, fs.files, original, entries, staged, staged, 0, staged + 1, 0);
      staged := staged + 1;
    }
  }

  method Publish(fs: FileSystem, entries: seq<Entry>, ghost original: Tree) returns (s: Signal)
    requires DistinctPaths(entries) && NoClash(PathsOf(entries))
    requires Progress(fs.files, original, entries, |entries|, 0) && Forward(fs.files, original, PathsOf(entries))
    modifies fs
    ensures Forward(fs.files, original, PathsOf(entries))
    ensures s.Fine? ==> Progress(fs.files, original, entries, |entries|, |entries|)
    ensures |fs.faults| <= |old(fs.faults)| && (!s.Fine? ==> |fs.faults| < |old(fs.faults)|)
  {
    s := Fine;
    ghost var ps := PathsOf(entries);
    for i := 0 to |entries|
      invariant s.Fine? && Forward(fs.files, original, ps)
      invariant Progress(fs.files, original, entries, |entries|, i)
      invariant |fs.faults| <= |old(fs.faults)|
    {
      ghost var before := fs.files;
      assert entries[i].path in ps;
      assert Stands(before, original, entries[i], true, false);
      s := PublishEntry(fs, entries[i]);
      ForwardStep(before, fs.files, original, ps, entries[i].path);
      if !s.Fine? { return; }
      ProgressStep(before, fs.files, original, entries, i, |entries|, i, |entries|, i + 1);
    }
  }

  /** finally: unlink every staged file that was started. */
  method RemoveStaged(fs: FileSystem, entries: seq<Entry>, staged: nat, ghost original: Tree) returns (s: Signal)
    requires staged <= |entries| && NoClash(PathsOf(entries)) && Forward(fs.files, original, PathsOf(entries))
    modifies fs
    ensures Forward(fs.files, original, PathsOf(entries))
    ensures NoneStaged(old(fs.files), entries) ==> fs.files == old(fs.files)
    ensures |fs.faults| <= |old(fs.faults)| && (!s.Fine? ==> |fs.faults| < |old(fs.faults)|)
  {
    s := Fine;
    ghost var ps := PathsOf(entries);
    for i := 0 to staged
      invariant Forward(fs.files, original, ps)
      invariant NoneStaged(old(fs.files), entries) ==> fs.files == old(fs.files)
      invariant s.Fine? && |fs.faults| <= |old(fs.faults)|
    {
      if IsUpsert(entries[i]) {
        ghost var before := fs.files;
        assert entries[i].path in ps;
        s := fs.Unlink(StagedName(entries[i].path));
        ForwardStep(before, fs.files, original, ps, entries[i].path);
        if !s.Fine? { return; }
      }
    }
  }

  // ----- the whole release -----

  /** How apply_release ends. The backup is the one whose receipt is on disk at that point. */
  datatype Outcome =
    | Applied(backup: Backup)
    | Refused                                  // an exception before any serving file was touched
    | CrashedUntouched                         // a crash before the receipt was written
    | RolledBack(backup: Backup)               // an exception, answered by a complete rollback
    | RollbackInterrupted(backup: Backup)      // the rollback raised or was cut short
    | CrashedMidway(backup: Backup)            // a crash while staging or publishing

  /** What the backup loop has recorded of the first n entries. */
  ghost predicate BackedUp(b: Backup, original: Tree, entries: seq<Entry>, n: nat) {
    && n <= |entries| && |b.receipt| == n
    && forall j | 0 <= j < n ::
         var e, p := b.receipt[j], entries[j].path;
         && e.path == p && (e.existed <==> p in original)
         && (e.existed ==> p in b.saved && e.previousMode == Some(original[p].mode) && b.saved[p] == original[p].content)
         && (!e.existed ==> e.previousMode.None?)
  }

  lemma BackedUpDescribes(b: Backup, original: Tree, entries: seq<Entry>)
    requires BackedUp(b, original, entries, |entries|)
    requires DistinctPaths(entries) && NoClash(PathsOf(entries))
    ensures ReceiptPaths(b.receipt) == PathsOf(entries)
    ensures Describes(b, original)
  {
    forall p
      ensures p in ReceiptPaths(b.receipt) <==> p in PathsOf(entries)
    {
      if p in ReceiptPaths(b.receipt) {
        var e :| e in b.receipt && e.path == p;
        var j :| 0 <= j < |b.receipt| && b.receipt[j] == e;
        assert entries[j] in entries;
      }
      if p in PathsOf(entries) {
        var e :| e in entries && e.path == p;
        var j :| 0 <= j < |entries| && entries[j] == e;
        assert b.receipt[j] in b.receipt;
      }
    }
  }

  /** Copy every existing destination to the backup directory, then write the receipt. */
  method BackUp(fs: FileSystem, entries: seq<Entry>) returns (s: Signal, b: Backup)
    requires DistinctPaths(entries)
    modifies fs`faults
    ensures s.Fine? ==> BackedUp(b, fs.files, entries, |entries|)
    ensures |fs.faults| <= |old(fs.faults)| && (!s.Fine? ==> |fs.faults| < |old(fs.faults)|)
  {
    s, b := Fine, Backup(map[], []);
    for i := 0 to |entries|
      invariant s.Fine? && BackedUp(b, fs.files, entries, i)
      invariant |fs.faults| <= |old(fs.faults)|
    {
      var p := entries[i].path;
      var f := fs.NextFault();
      s := SignalOf(f);
      if !s.Fine? { return; }
      if p in fs.files {
        b := Backup(b.saved[p := fs.files[p].content], b.receipt + [ReceiptEntry(p, true, Some(fs.files[p].mode))]);
      } else {
        b := Backup(b.saved, b.receipt + [ReceiptEntry(p, false, None)]);
      }
    }
    var f := fs.NextFault();
    s := SignalOf(f);
  }

  /**
    From the backup on, whatever operation raises or is cut short by a crash: the tree is the
    applied one, the original one, or one from which a rollback restores the original.
  */
  method PublishRelease(fs: FileSystem, entries: seq<Entry>, payload: map<Path, Content>, b: Backup)
    returns (outcome: Outcome)
    requires DistinctPaths(entries) && ValidPayload(payload, entries)
    requires Describes(b, fs.files) && ReceiptPaths(b.receipt) == PathsOf(entries)
    modifies fs
    ensures outcome.Applied? || outcome.RolledBack? || outcome.RollbackInterrupted? || outcome.CrashedMidway?
    ensures outcome.backup == b && Recoverable(fs.files, old(fs.files), PathsOf(entries))
    ensures outcome.Applied? ==> IsApplied(fs.files, old(fs.files), entries)
    ensures outcome.RolledBack? ==> Restored(fs.files, old(fs.files), PathsOf(entries))
    ensures |fs.faults| <= |old(fs.faults)| && (!outcome.Applied? ==> |fs.faults| < |old(fs.faults)|)
  {
    ghost var original, ps := fs.files, PathsOf(entries);
    var s, staged := Stage(fs, entries, payload, original);
    if s.Fine? {
      s := Publish(fs, entries, original);
    }
    ghost var published := s.Fine?;
    if published {
      AllPublished(fs.files, original, entries);
    }
    if !s.Crashed? {
      var removal := RemoveStaged(fs, entries, staged, original);
      s := if removal.Fine? then s else removal;
    }
    ForwardIsRecoverable(fs.files, original, ps);
    match s {
      case Fine => outcome := Applied(b);
      case Crashed => outcome := CrashedMidway(b);
      case Raised =>
        var rollback := RollbackRelease(fs, b, original);
        outcome := if rollback.Fine? then RolledBack(b) else RollbackInterrupted(b);
    }
  }

  /** apply_release */
  method ApplyRelease(fs: FileSystem, entries: seq<Entry>, payload: map<Path, Content>, backupExists: bool)
    returns (outcome: Outcome)
    requires DistinctPaths(entries) && NoClash(PathsOf(entries))
    modifies fs
    ensures outcome.Applied? ==> IsApplied(fs.files, old(fs.files), entries)
    ensures outcome.Refused? || outcome.CrashedUntouched? ==> fs.files == old(fs.files)
    ensures outcome.RolledBack? ==> Restored(fs.files, old(fs.files), PathsOf(entries))
    ensures outcome.RolledBack? && NoTemps(old(fs.files), PathsOf(entries)) ==> fs.files == old(fs.files)
    ensures |fs.faults| <= |old(fs.faults)|
    ensures !outcome.Refused? && !outcome.CrashedUntouched? ==>
              && Describes(outcome.backup, old(fs.files)) && ReceiptPaths(outcome.backup.receipt) == PathsOf(entries)
              && Recoverable(fs.files, old(fs.files), PathsOf(entries))
    ensures Conflicts(old(fs.files), entries) != [] || backupExists || !ValidPayload(payload, entries) ==> outcome.Refused?
    ensures !outcome.Refused? ==>
              && (forall p :: p in payload <==> exists e | e in entries :: e.path == p && e.action == Upsert)
              && forall e | e in entries && e.action == Upsert :: e.after == Some(Sha256(payload[e.path])) && e.afterMode.Some?
    ensures Conflicts(old(fs.files), entries) == [] && !backupExists && ValidPayload(payload, entries) ==>
              (old(fs.faults) == [] ==> outcome.Applied?)
  {
    var conflicts := Preflight(fs.files, entries);
    if conflicts != [] || backupExists || !ValidPayload(payload, entries) {
      return Refused;
    }
    var s, b := BackUp(fs, entries);
    if !s.Fine? {
      return if s.Crashed? then CrashedUntouched else Refused;
    }
    BackedUpDescribes(b, fs.files, entries);
    ghost var original := fs.files;
    outcome := PublishRelease(fs, entries, payload, b);
    if outcome.RolledBack? && NoTemps(original, PathsOf(entries)) {
      RestoredIsOriginal(fs.files, original, PathsOf(entries));
    }
  }

  /**
    Apply, then any number of rollback attempts, each of which may be interrupted: as soon as one
    attempt completes everything is restored, and later attempts, interrupted or not, keep it so.
    Every interruption uses up one of the faults, so more attempts than faults always restore.
  */
  method ApplyThenRollBack(fs: FileSystem, entries: seq<Entry>, payload: map<Path, Content>, attempts: nat)
    returns (outcome: Outcome, restored: bool)
    requires DistinctPaths(entries) && NoClash(PathsOf(entries))
    modifies fs
    ensures restored ==> Restored(fs.files, old(fs.files), PathsOf(entries))
    ensures restored && NoTemps(old(fs.files), PathsOf(entries)) ==> fs.files == old(fs.files)
    ensures outcome.Refused? || outcome.CrashedUntouched? ==> fs.files == old(fs.files)
    ensures !outcome.Refused? && !outcome.CrashedUntouched? ==>
              Recoverable(fs.files, old(fs.files), PathsOf(entries)) && (attempts > |old(fs.faults)| ==> restored)
  {
    ghost var original := fs.files;
    outcome := ApplyRelease(fs, entries, payload, false);
    restored := false;
    if outcome.Refused? || outcome.CrashedUntouched? {
      return;
    }
    ghost var ps := PathsOf(entries);
    for i := 0 to attempts
      invariant Recoverable(fs.files, original, ps)
      invariant restored ==> Restored(fs.files, original, ps)
      invariant restored || |fs.faults| + i <= |old(fs.faults)|
    {
      var s := RollbackRelease(fs, outcome.backup, original);
      restored := restored || s.Fine?;
    }
    if restored && NoTemps(original, ps) {
      RestoredIsOriginal(fs.files, original, ps);
    }
  }
}
