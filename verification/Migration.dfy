/**
  Resumable, chunked copying of an id-keyed table (migrate_table in
  scripts/db/migrate_sqlite_to_mysql.py): chunks are written as files, loaded ignoring rows whose id
  is already there, and committed one by one; a run may stop after any chunk.
*/
module Migration {
  import opened Prelude
  import opened TsvCodec

  /** The value of the id column of a row. */
  type IdOf = Fields -> int

  type Table = map<int, Fields>

  // ----- the target table -----

  /** LOAD DATA LOCAL keeps the row that is already there. */
  function InsertRow(t: Table, row: Fields, idOf: IdOf): Table {
    if idOf(row) in t then t else t[idOf(row) := row]
  }

  function InsertAll(t: Table, rows: seq<Fields>, idOf: IdOf): Table {
    if rows == [] then t else InsertRow(InsertAll(t, rows[..|rows| - 1], idOf), rows[|rows| - 1], idOf)
  }

  /** The source, each row under its id. */
  function Contents(source: seq<Fields>, idOf: IdOf): Table {
    InsertAll(map[], source, idOf)
  }

  class MysqlTable {
    var rows: Table

    constructor ()
      ensures rows == map[]
    {
      rows := map[];
    }

    method LoadChunk(file: string, idOf: IdOf)
      modifies this
      ensures rows == InsertAll(old(rows), ReadRows(file), idOf)
    {
      var loaded := ReadRows(file);
      for i := 0 to |loaded|
        invariant rows == InsertAll(old(rows), loaded[..i], idOf)
      {
        rows := InsertRow(rows, loaded[i], idOf);
        assert loaded[..i + 1][..i] == loaded[..i];
      }
      assert loaded[..|loaded|] == loaded;
    }

    /** SELECT MAX(id): None for an empty table. */
    method MaxId() returns (last: Option<int>)
      ensures last == LastOf(rows)
    {
      var ids := rows.Keys;
      last := None;
      while ids != {}
        invariant ids <= rows.Keys
        invariant last.None? ==> ids == rows.Keys
        invariant last.Some? ==> last.value in rows
        invariant forall id | id in rows && id !in ids :: last.Some? && id <= last.value
      {
        var id := AnyOf(ids);
        if last.None? || id > last.value {
          last := Some(id);
        }
        ids := ids - {id};
      }
      assert last.None? ==> rows.Keys == {};
    }
  }

  ghost function GreatestOf(ids: set<int>): (r: Option<int>)
    ensures r.None? <==> ids == {}
    ensures r.Some? ==> r.value in ids && forall id | id in ids :: id <= r.value
  {
    if ids == {} then None
    else
      var id := PickOne(ids);
      var rest := GreatestOf(ids - {id});
      assert ids == (ids - {id}) + {id};
      if rest.None? || id > rest.value then Some(id) else rest
  }

  ghost function LastOf(t: Table): (r: Option<int>)
    ensures r.None? <==> t.Keys == {}
    ensures r.Some? ==> r.value in t && forall id | id in t :: id <= r.value
  {
    GreatestOf(t.Keys)
  }

  // ----- what a run reads -----

  function InsertById(row: Fields, sorted: seq<Fields>, idOf: IdOf): seq<Fields> {
    if sorted == [] || idOf(row) <= idOf(sorted[0]) then [row] + sorted
    else [sorted[0]] + InsertById(row, sorted[1..], idOf)
  }

  /** ORDER BY id */
  function OrderedById(rows: seq<Fields>, idOf: IdOf): seq<Fields> {
    if rows == [] then [] else InsertById(rows[0], OrderedById(rows[1..], idOf), idOf)
  }

  /** WHERE id > last */
  function Above(rows: seq<Fields>, last: int, idOf: IdOf): seq<Fields> {
    if rows == [] then []
    else (if idOf(rows[0]) > last then [rows[0]] else []) + Above(rows[1..], last, idOf)
  }

  function Limited(rows: seq<Fields>, limit: Option<nat>): seq<Fields> {
    if limit.Some? && limit.value < |rows| then rows[..limit.value] else rows
  }

  /** The rows a run selects, in the order it reads them; None when it refuses to resume. */
  function Selected(source: seq<Fields>, target: Table, last: Option<int>, idOf: IdOf, keyed: bool, resume: bool, limit: Option<nat>)
    : Option<seq<Fields>>
  {
    if resume && |target| == |source| && limit.None? then Some([])
    else if resume && keyed then
      var ordered := OrderedById(source, idOf);
      Some(Limited(if last.Some? then Above(ordered, last.value, idOf) else ordered, limit))
    else if resume && |target| > 0 && limit.None? then None
    else Some(Limited(source, limit))
  }

  /** Loads and commits chunk after chunk; stopAfter is how many are committed before an interruption, if there is one. */
  method CopyChunks(rows: seq<Fields>, target: MysqlTable, idOf: IdOf, batchSize: nat, stopAfter: Option<nat>)
    returns (inserted: nat, completed: bool)
    requires batchSize >= 1 && HaveColumns(rows)
    modifies target
    ensures inserted <= |rows| && target.rows == InsertAll(old(target.rows), rows[..inserted], idOf)
    ensures completed ==> inserted == |rows|
    ensures !completed ==> stopAfter.Some? && inserted == stopAfter.value * batchSize
  {
    ghost var before := target.rows;
    var chunks := 0;
    inserted := 0;
    while inserted < |rows|
      invariant inserted <= |rows| && (inserted == chunks * batchSize || inserted == |rows|)
      invariant target.rows == InsertAll(before, rows[..inserted], idOf)
    {
      if stopAfter == Some(chunks) {
        return inserted, false;
      }
      var next := if inserted + batchSize < |rows| then inserted + batchSize else |rows|;
      CopyChunk(rows[inserted..next], target, idOf);
      InsertSlice(before, rows, inserted, next, idOf);
      OneMore(chunks, batchSize);
      inserted, chunks := next, chunks + 1;
    }
    completed := true;
  }

  lemma InsertSlice(t: Table, rows: seq<Fields>, from: nat, next: nat, idOf: IdOf)
    requires from <= next <= |rows|
    ensures InsertAll(InsertAll(t, rows[..from], idOf), rows[from..next], idOf) == InsertAll(t, rows[..next], idOf)
  {
    InsertAppend(t, rows[..from], rows[from..next], idOf);
    assert rows[..from] + rows[from..next] == rows[..next];
  }

  lemma OneMore(chunks: nat, size: nat)
    ensures (chunks + 1) * size == chunks * size + size
  {
  }

  /** Writes a chunk file, loads it and removes it. */
  method CopyChunk(batch: seq<Fields>, target: MysqlTable, idOf: IdOf)
    requires HaveColumns(batch)
    modifies target
    ensures target.rows == InsertAll(old(target.rows), batch, idOf)
  {
    var file := WriteChunkFile(batch);
    RowsRoundTrip(batch);
    target.LoadChunk(file, idOf);
  }

  datatype Stopped = RefusedToResume | Interrupted

  /** done is how many of the selected rows a run has committed when it ends or is interrupted. */
  method MigrateTable(source: seq<Fields>, target: MysqlTable, idOf: IdOf, keyed: bool, batchSize: nat, resume: bool,
                      limit: Option<nat>, stopAfter: Option<nat>)
    returns (r: Result<nat, Stopped>, ghost done: nat)
    requires batchSize >= 1 && HaveColumns(source)
    modifies target
    ensures var selected := Selected(source, old(target.rows), LastOf(old(target.rows)), idOf, keyed, resume, limit);
            if selected.None? then r == Err(RefusedToResume) && target.rows == old(target.rows)
            else
              && done <= |selected.value|
              && target.rows == InsertAll(old(target.rows), selected.value[..done], idOf)
              && (r.Ok? ==> r.value == done == |selected.value|)
              && (r.Err? ==> r.error == Interrupted && stopAfter.Some? && done == stopAfter.value * batchSize)
    ensures r == Err(RefusedToResume) <==>
              resume && !keyed && limit.None? && |old(target.rows)| > 0 && |old(target.rows)| != |source|
    ensures limit.Some? ==> done <= limit.value
    ensures keyed && limit.None? ==> target.rows == AfterRun(source, old(target.rows), Run(resume, done), idOf)
    ensures keyed && limit.None? && resume && r.Ok? ==> target.rows == Resumed(source, old(target.rows), idOf)
  {
    var last := target.MaxId();
    var selected := Selected(source, target.rows, last, idOf, keyed, resume, limit);
    if selected.None? {
      return Err(RefusedToResume), 0;
    }
    SelectedHaveColumns(source, target.rows, last, idOf, keyed, resume, limit);
    var inserted, completed := CopyChunks(selected.value, target, idOf, batchSize, stopAfter);
    done := inserted;
    assert selected.value[..|selected.value|] == selected.value;
    SelectedIsShorter(source, old(target.rows), last, idOf, keyed, resume, limit);
    r := if completed then Ok(inserted) else Err(Interrupted);
  }

  lemma {:induction false} InsertAppend(t: Table, a: seq<Fields>, b: seq<Fields>, idOf: IdOf)
    ensures InsertAll(t, a + b, idOf) == InsertAll(InsertAll(t, a, idOf), b, idOf)
  {
    if b == [] {
      assert a + b == a;
    } else {
      assert (a + b)[..|a + b| - 1] == a + b[..|b| - 1];
      InsertAppend(t, a, b[..|b| - 1], idOf);
    }
  }

  // ----- looking rows up -----

  function Find(rows: seq<Fields>, id: int, idOf: IdOf): (r: Option<Fields>)
    ensures r.Some? ==> idOf(r.value) == id
  {
    if rows == [] then None else if idOf(rows[0]) == id then Some(rows[0]) else Find(rows[1..], id, idOf)
  }

  function Lookup(t: Table, id: int): Option<Fields> {
    if id in t then Some(t[id]) else None
  }

  function OrElse(a: Option<Fields>, b: Option<Fields>): Option<Fields> {
    if a.Some? then a else b
  }

  lemma {:induction false} FindAppend(a: seq<Fields>, b: seq<Fields>, id: int, idOf: IdOf)
    ensures Find(a + b, id, idOf) == OrElse(Find(a, id, idOf), Find(b, id, idOf))
  {
    if a == [] {
      assert a + b == b;
    } else {
      assert (a + b)[1..] == a[1..] + b;
      FindAppend(a[1..], b, id, idOf);
    }
  }

  /** Rows already there stay; of the others, the first with an id wins. */
  lemma {:induction false} LookupOfInserted(t: Table, rows: seq<Fields>, id: int, idOf: IdOf)
    ensures Lookup(InsertAll(t, rows, idOf), id) == OrElse(Lookup(t, id), Find(rows, id, idOf))
  {
    if rows != [] {
      var before, last := rows[..|rows| - 1], rows[|rows| - 1];
      LookupOfInserted(t, before, id, idOf);
      assert rows == before + [last];
      FindAppend(before, [last], id, idOf);
      assert [last][1..] == [];
      assert Find([last], id, idOf) == if idOf(last) == id then Some(last) else None;
    }
  }

  lemma SameTable(t: Table, u: Table)
    requires forall id :: Lookup(t, id) == Lookup(u, id)
    ensures t == u
  {
    forall id
      ensures id in t <==> id in u
      ensures id in t ==> t[id] == u[id]
    {
      assert Lookup(t, id) == Lookup(u, id);
    }
    assert t.Keys == u.Keys;
  }

  ghost predicate DistinctIds(rows: seq<Fields>, idOf: IdOf) {
    forall i, j | 0 <= i < j < |rows| :: idOf(rows[i]) != idOf(rows[j])
  }

  ghost predicate InIdOrder(rows: seq<Fields>, idOf: IdOf) {
    forall i, j | 0 <= i < j < |rows| :: idOf(rows[i]) < idOf(rows[j])
  }

  lemma {:induction false} FindDistinct(rows: seq<Fields>, i: nat, idOf: IdOf)
    requires DistinctIds(rows, idOf) && i < |rows|
    ensures Find(rows, idOf(rows[i]), idOf) == Some(rows[i])
  {
    if i > 0 {
      FindDistinct(rows[1..], i - 1, idOf);
    }
  }

  lemma {:induction false} FindMember(rows: seq<Fields>, id: int, idOf: IdOf) returns (i: nat)
    requires Find(rows, id, idOf).Some?
    ensures i < |rows| && rows[i] == Find(rows, id, idOf).value
  {
    if idOf(rows[0]) == id {
      i := 0;
    } else {
      i := FindMember(rows[1..], id, idOf);
      i := i + 1;
    }
  }

  // ----- what ORDER BY and WHERE do to lookups -----

  lemma {:induction false} FindInInsertion(row: Fields, sorted: seq<Fields>, id: int, idOf: IdOf)
    ensures idOf(row) != id ==> Find(InsertById(row, sorted, idOf), id, idOf) == Find(sorted, id, idOf)
    ensures idOf(row) == id && Find(sorted, id, idOf).None? ==> Find(InsertById(row, sorted, idOf), id, idOf) == Some(row)
    ensures |InsertById(row, sorted, idOf)| == |sorted| + 1
  {
    if sorted == [] || idOf(row) <= idOf(sorted[0]) {
      assert ([row] + sorted)[1..] == sorted;
    } else {
      FindInInsertion(row, sorted[1..], id, idOf);
      assert InsertById(row, sorted, idOf)[1..] == InsertById(row, sorted[1..], idOf);
    }
  }

  lemma {:induction false} FindInOrdered(rows: seq<Fields>, id: int, idOf: IdOf)
    requires DistinctIds(rows, idOf)
    ensures Find(OrderedById(rows, idOf), id, idOf) == Find(rows, id, idOf)
    ensures |OrderedById(rows, idOf)| == |rows|
  {
    if rows != [] {
      FindInOrdered(rows[1..], id, idOf);
      FindInInsertion(rows[0], OrderedById(rows[1..], idOf), id, idOf);
      if Find(rows[1..], idOf(rows[0]), idOf).Some? {
        var i := FindMember(rows[1..], idOf(rows[0]), idOf);
        assert rows[1..][i] == rows[i + 1];
      }
    }
  }

  lemma {:induction false} FindAbove(rows: seq<Fields>, last: int, id: int, idOf: IdOf)
    ensures Find(Above(rows, last, idOf), id, idOf) == if id > last then Find(rows, id, idOf) else None
  {
    if rows != [] {
      FindAbove(rows[1..], last, id, idOf);
      var first := if idOf(rows[0]) > last then [rows[0]] else [];
      FindAppend(first, Above(rows[1..], last, idOf), id, idOf);
    }
  }

  // ----- every selected row has columns -----

  lemma {:induction false} OrderedHaveColumns(rows: seq<Fields>, idOf: IdOf)
    requires HaveColumns(rows)
    ensures HaveColumns(OrderedById(rows, idOf))
  {
    if rows != [] {
      OrderedHaveColumns(rows[1..], idOf);
      InsertionHasColumns(rows[0], OrderedById(rows[1..], idOf), idOf);
    }
  }

  lemma {:induction false} InsertionHasColumns(row: Fields, sorted: seq<Fields>, idOf: IdOf)
    requires row != [] && HaveColumns(sorted)
    ensures HaveColumns(InsertById(row, sorted, idOf))
  {
    if sorted != [] && idOf(row) > idOf(sorted[0]) {
      InsertionHasColumns(row, sorted[1..], idOf);
    }
  }

  lemma {:induction false} AboveHaveColumns(rows: seq<Fields>, last: int, idOf: IdOf)
    requires HaveColumns(rows)
    ensures HaveColumns(Above(rows, last, idOf))
  {
    if rows != [] {
      AboveHaveColumns(rows[1..], last, idOf);
    }
  }

  lemma SelectedHaveColumns(source: seq<Fields>, target: Table, last: Option<int>, idOf: IdOf, keyed: bool, resume: bool, limit: Option<nat>)
    requires HaveColumns(source)
    ensures var selected := Selected(source, target, last, idOf, keyed, resume, limit); selected.Some? ==> HaveColumns(selected.value)
  {
    OrderedHaveColumns(source, idOf);
    if last.Some? {
      AboveHaveColumns(OrderedById(source, idOf), last.value, idOf);
    }
  }

  /** A run that is not a resume and not interrupted copies every row, in whatever order it reads them. */
  lemma PlainRunCopiesAll(source: seq<Fields>, last: Option<int>, idOf: IdOf, keyed: bool)
    ensures Selected(source, map[], last, idOf, keyed, false, None) == Some(source)
    ensures DistinctIds(source, idOf) ==>
              forall i | 0 <= i < |source| :: idOf(source[i]) in Contents(source, idOf) && Contents(source, idOf)[idOf(source[i])] == source[i]
    ensures forall id | id in Contents(source, idOf) :: exists i :: 0 <= i < |source| && idOf(source[i]) == id
  {
    if DistinctIds(source, idOf) {
      forall i | 0 <= i < |source|
        ensures Lookup(Contents(source, idOf), idOf(source[i])) == Some(source[i])
      {
        LookupOfInserted(map[], source, idOf(source[i]), idOf);
        FindDistinct(source, i, idOf);
      }
    }
    forall id | id in Contents(source, idOf)
      ensures exists i :: 0 <= i < |source| && idOf(source[i]) == id
    {
      LookupOfInserted(map[], source, id, idOf);
      var i := FindMember(source, id, idOf);
    }
  }

  // ----- when a completed resume completes the table -----

  /** The target after a resume that is not interrupted, on a table with a resume key. */
  ghost function Resumed(source: seq<Fields>, target: Table, idOf: IdOf): Table {
    AfterRun(source, target, Run(true, |source|), idOf)
  }

  /** One run without a row limit that is interrupted after done rows, or earlier if there are no more. */
  datatype Run = Run(resume: bool, done: nat)

  ghost function AfterRun(source: seq<Fields>, before: Table, run: Run, idOf: IdOf): Table {
    var selected := Selected(source, before, LastOf(before), idOf, true, run.resume, None).value;
    InsertAll(before, Limited(selected, Some(run.done)), idOf)
  }

  /** Every row of the target is a row of the source. */
  ghost predicate IsPartOf(target: Table, source: seq<Fields>, idOf: IdOf) {
    forall id | id in target :: Find(source, id, idOf) == Some(target[id])
  }

  /** Every source row up to the target's greatest id is in the target: what a resume takes for granted. */
  ghost predicate HoldsAllUpToLast(target: Table, source: seq<Fields>, idOf: IdOf) {
    forall i | 0 <= i < |source| :: LastOf(target).Some? && idOf(source[i]) <= LastOf(target).value ==> idOf(source[i]) in target
  }

  lemma {:induction false} ContentsSize(source: seq<Fields>, idOf: IdOf)
    requires DistinctIds(source, idOf)
    ensures |Contents(source, idOf)| == |source|
  {
    if source != [] {
      var before, row := source[..|source| - 1], source[|source| - 1];
      ContentsSize(before, idOf);
      LookupOfInserted(map[], before, idOf(row), idOf);
      if Find(before, idOf(row), idOf).Some? {
        var i := FindMember(before, idOf(row), idOf);
      }
      var t := Contents(before, idOf);
      assert t[idOf(row) := row].Keys == t.Keys + {idOf(row)};
      assert |t[idOf(row) := row].Keys| == |t.Keys| + 1;
    }
  }

  /** A part of the source with as many rows is the whole source. */
  lemma AsManyIsAll(source: seq<Fields>, target: Table, idOf: IdOf)
    requires DistinctIds(source, idOf) && IsPartOf(target, source, idOf) && |target| == |source|
    ensures target == Contents(source, idOf)
  {
    var all := Contents(source, idOf);
    ContentsSize(source, idOf);
    forall id | id in target
      ensures id in all && all[id] == target[id]
    {
      LookupOfInserted(map[], source, id, idOf);
    }
    SubsetOfSameSize(target.Keys, all.Keys);
  }

  lemma SubsetOfSameSize(a: set<int>, b: set<int>)
    requires a <= b && |a| == |b|
    ensures a == b
  {
    assert b == a + (b - a);
    assert |b| == |a| + |b - a|;
  }

  lemma {:induction false} AboveIsShorter(rows: seq<Fields>, last: int, idOf: IdOf)
    ensures |Above(rows, last, idOf)| <= |rows|
  {
    if rows != [] {
      AboveIsShorter(rows[1..], last, idOf);
    }
  }

  lemma LookupOfResumed(source: seq<Fields>, target: Table, idOf: IdOf, id: int)
    requires DistinctIds(source, idOf) && |target| != |source|
    ensures var last := LastOf(target);
            Lookup(Resumed(source, target, idOf), id) ==
              OrElse(Lookup(target, id), if last.Some? && id <= last.value then None else Find(source, id, idOf))
  {
    var ordered, last := OrderedById(source, idOf), LastOf(target);
    FindInOrdered(source, id, idOf);
    if last.Some? {
      FindAbove(ordered, last.value, id, idOf);
      AboveIsShorter(ordered, last.value, idOf);
      LookupOfInserted(target, Above(ordered, last.value, idOf), id, idOf);
    } else {
      LookupOfInserted(target, ordered, id, idOf);
    }
  }

  lemma ResumeCompletesIf(source: seq<Fields>, target: Table, idOf: IdOf)
    requires DistinctIds(source, idOf) && IsPartOf(target, source, idOf) && HoldsAllUpToLast(target, source, idOf)
    ensures Resumed(source, target, idOf) == Contents(source, idOf)
  {
    if |target| == |source| {
      AsManyIsAll(source, target, idOf);
    } else {
      forall id
        ensures Lookup(Resumed(source, target, idOf), id) == Lookup(Contents(source, idOf), id)
      {
        LookupOfResumed(source, target, idOf, id);
        LookupOfInserted(map[], source, id, idOf);
        if Find(source, id, idOf).Some? {
          var i := FindMember(source, id, idOf);
        }
      }
      SameTable(Resumed(source, target, idOf), Contents(source, idOf));
    }
  }

  lemma LookupAfterRun(source: seq<Fields>, before: Table, run: Run, idOf: IdOf, id: int)
    ensures Lookup(before, id).Some? ==> Lookup(AfterRun(source, before, run, idOf), id) == Lookup(before, id)
  {
    var selected := Selected(source, before, LastOf(before), idOf, true, run.resume, None).value;
    LookupOfInserted(before, Limited(selected, Some(run.done)), id, idOf);
  }

  lemma ResumeCompletesOnlyIf(source: seq<Fields>, target: Table, idOf: IdOf)
    requires DistinctIds(source, idOf) && Resumed(source, target, idOf) == Contents(source, idOf)
    ensures IsPartOf(target, source, idOf) && HoldsAllUpToLast(target, source, idOf)
  {
    forall id | id in target
      ensures Find(source, id, idOf) == Some(target[id])
    {
      LookupAfterRun(source, target, Run(true, |source|), idOf, id);
      LookupOfInserted(map[], source, id, idOf);
    }
    forall i | 0 <= i < |source| && LastOf(target).Some? && idOf(source[i]) <= LastOf(target).value
      ensures idOf(source[i]) in target
    {
      LookupOfInserted(map[], source, idOf(source[i]), idOf);
      FindDistinct(source, i, idOf);
      if |target| != |source| {
        LookupOfResumed(source, target, idOf, idOf(source[i]));
      }
    }
  }

  /**
    Whatever the target holds, a resume that is not interrupted leaves exactly the source in it if
    and only if its rows are source rows and none is missing up to its greatest id.
  */
  lemma ResumeCompletesExactlyWhen(source: seq<Fields>, target: Table, idOf: IdOf)
    requires DistinctIds(source, idOf)
    ensures Resumed(source, target, idOf) == Contents(source, idOf) <==>
            IsPartOf(target, source, idOf) && HoldsAllUpToLast(target, source, idOf)
  {
    if Resumed(source, target, idOf) == Contents(source, idOf) {
      ResumeCompletesOnlyIf(source, target, idOf);
    } else if IsPartOf(target, source, idOf) && HoldsAllUpToLast(target, source, idOf) {
      ResumeCompletesIf(source, target, idOf);
    }
  }

  lemma {:induction false} OrderedSize(rows: seq<Fields>, idOf: IdOf)
    ensures |OrderedById(rows, idOf)| == |rows|
  {
    if rows != [] {
      OrderedSize(rows[1..], idOf);
      FindInInsertion(rows[0], OrderedById(rows[1..], idOf), 0, idOf);
    }
  }

  lemma SelectedIsShorter(source: seq<Fields>, target: Table, last: Option<int>, idOf: IdOf, keyed: bool, resume: bool, limit: Option<nat>)
    ensures var selected := Selected(source, target, last, idOf, keyed, resume, limit); selected.Some? ==> |selected.value| <= |source|
  {
    OrderedSize(source, idOf);
    if last.Some? {
      AboveIsShorter(OrderedById(source, idOf), last.value, idOf);
    }
  }

  // ----- any sequence of interrupted runs -----

  ghost function AfterRuns(source: seq<Fields>, runs: seq<Run>, idOf: IdOf): Table {
    if runs == [] then map[] else AfterRun(source, AfterRuns(source, runs[..|runs| - 1], idOf), runs[|runs| - 1], idOf)
  }

  lemma {:induction false} FindPrefix(rows: seq<Fields>, k: nat, id: int, idOf: IdOf)
    requires InIdOrder(rows, idOf) && k <= |rows|
    ensures Find(rows[..k], id, idOf) ==
            if k < |rows| && id >= idOf(rows[k]) then None else Find(rows, id, idOf)
  {
    assert rows == rows[..k] + rows[k..];
    FindAppend(rows[..k], rows[k..], id, idOf);
    if Find(rows[..k], id, idOf).Some? {
      var i := FindMember(rows[..k], id, idOf);
      assert rows[..k][i] == rows[i];
    }
    if Find(rows[k..], id, idOf).Some? {
      var i := FindMember(rows[k..], id, idOf);
      assert rows[k..][i] == rows[k + i];
    }
  }

  /** The target holds the source's rows below some id and no others. */
  ghost predicate IsPrefix(target: Table, source: seq<Fields>, k: nat, idOf: IdOf) {
    k <= |source| && target == Contents(source[..k], idOf)
  }

  lemma {:induction false} OrderedIsSame(source: seq<Fields>, idOf: IdOf)
    requires InIdOrder(source, idOf)
    ensures OrderedById(source, idOf) == source
  {
    if source != [] {
      OrderedIsSame(source[1..], idOf);
      assert source == [source[0]] + source[1..];
      assert |source| > 1 ==> source[1..][0] == source[1];
    }
  }

  lemma {:induction false} AboveOfPrefix(source: seq<Fields>, k: nat, idOf: IdOf)
    requires InIdOrder(source, idOf) && 0 < k <= |source|
    ensures Above(source, idOf(source[k - 1]), idOf) == source[k..]
  {
    var last := idOf(source[k - 1]);
    if k > 1 {
      AboveOfPrefix(source[1..], k - 1, idOf);
      assert source[1..][k - 1..] == source[k..];
      assert idOf(source[0]) < idOf(source[k - 1]);
    } else {
      AboveAll(source[1..], last, idOf);
    }
  }

  lemma {:induction false} AboveAll(rows: seq<Fields>, last: int, idOf: IdOf)
    requires forall i | 0 <= i < |rows| :: idOf(rows[i]) > last
    ensures Above(rows, last, idOf) == rows
  {
    if rows != [] {
      AboveAll(rows[1..], last, idOf);
    }
  }

  lemma PrefixLast(source: seq<Fields>, k: nat, idOf: IdOf)
    requires InIdOrder(source, idOf) && k <= |source|
    ensures LastOf(Contents(source[..k], idOf)) == if k == 0 then None else Some(idOf(source[k - 1]))
  {
    var t := Contents(source[..k], idOf);
    forall id
      ensures id in t ==> exists i | 0 <= i < k :: idOf(source[i]) == id
    {
      LookupOfInserted(map[], source[..k], id, idOf);
      if id in t {
        var i := FindMember(source[..k], id, idOf);
        assert source[..k][i] == source[i];
      }
    }
    if k > 0 {
      LookupOfInserted(map[], source[..k], idOf(source[k - 1]), idOf);
      FindDistinct(source[..k], k - 1, idOf);
    }
  }

  lemma RestartKeepsPrefix(source: seq<Fields>, k: nat, d: nat, idOf: IdOf)
    requires InIdOrder(source, idOf) && k <= |source| && d <= |source|
    ensures InsertAll(Contents(source[..k], idOf), source[..d], idOf) == Contents(source[..if k < d then d else k], idOf)
  {
    var m := if k < d then d else k;
    var left, right := InsertAll(Contents(source[..k], idOf), source[..d], idOf), Contents(source[..m], idOf);
    forall id
      ensures Lookup(left, id) == Lookup(right, id)
    {
      LookupOfInserted(Contents(source[..k], idOf), source[..d], id, idOf);
      LookupOfInserted(map[], source[..k], id, idOf);
      LookupOfInserted(map[], source[..m], id, idOf);
      FindPrefix(source, k, id, idOf);
      FindPrefix(source, d, id, idOf);
    }
    SameTable(left, right);
  }

  lemma RestartFrom(source: seq<Fields>, k: nat, run: Run, idOf: IdOf) returns (k': nat)
    requires InIdOrder(source, idOf) && k <= |source| && (!run.resume || k == 0)
    ensures IsPrefix(AfterRun(source, Contents(source[..k], idOf), run, idOf), source, k', idOf)
    ensures run.done >= |source| ==> k' == |source|
  {
    var d := if run.done < |source| then run.done else |source|;
    k' := if k < d then d else k;
    OrderedIsSame(source, idOf);
    PrefixLast(source, k, idOf);
    RestartKeepsPrefix(source, k, d, idOf);
    assert source[..|source|] == source;
  }

  lemma SelectedOnPrefix(source: seq<Fields>, k: nat, idOf: IdOf)
    requires InIdOrder(source, idOf) && 0 < k <= |source|
    ensures var before := Contents(source[..k], idOf);
            Selected(source, before, LastOf(before), idOf, true, true, None) == Some(source[k..])
  {
    ContentsSize(source[..k], idOf);
    OrderedIsSame(source, idOf);
    PrefixLast(source, k, idOf);
    AboveOfPrefix(source, k, idOf);
  }

  lemma LimitedSuffix(source: seq<Fields>, k: nat, done: nat) returns (k': nat)
    requires k <= |source|
    ensures k <= k' <= |source| && Limited(source[k..], Some(done)) == source[k..k']
    ensures done >= |source| ==> k' == |source|
  {
    k' := if done < |source| - k then k + done else |source|;
  }

  lemma ResumeFrom(source: seq<Fields>, k: nat, run: Run, idOf: IdOf) returns (k': nat)
    requires InIdOrder(source, idOf) && 0 < k <= |source| && run.resume
    ensures IsPrefix(AfterRun(source, Contents(source[..k], idOf), run, idOf), source, k', idOf)
    ensures run.done >= |source| ==> k' == |source|
  {
    SelectedOnPrefix(source, k, idOf);
    k' := LimitedSuffix(source, k, run.done);
    InsertSlice(map[], source, k, k', idOf);
  }

  /** With the source read in id order, a run extends the prefix that is there; a full resume completes it. */
  lemma RunKeepsPrefix(source: seq<Fields>, k: nat, run: Run, idOf: IdOf) returns (k': nat)
    requires InIdOrder(source, idOf) && k <= |source|
    ensures IsPrefix(AfterRun(source, Contents(source[..k], idOf), run, idOf), source, k', idOf)
    ensures run.done >= |source| ==> k' == |source|
  {
    if run.resume && k > 0 {
      k' := ResumeFrom(source, k, run, idOf);
    } else {
      k' := RestartFrom(source, k, run, idOf);
    }
  }

  lemma {:induction false} RunsKeepPrefix(source: seq<Fields>, runs: seq<Run>, idOf: IdOf) returns (k: nat)
    requires InIdOrder(source, idOf)
    ensures IsPrefix(AfterRuns(source, runs, idOf), source, k, idOf)
  {
    k := 0;
    if runs != [] {
      var before := RunsKeepPrefix(source, runs[..|runs| - 1], idOf);
      k := RunKeepsPrefix(source, before, runs[|runs| - 1], idOf);
    }
  }

  /** Any interrupted runs, restarted or resumed, and then a completed resume: each source row, once. */
  lemma InterruptedThenResumed(source: seq<Fields>, runs: seq<Run>, idOf: IdOf)
    requires InIdOrder(source, idOf)
    ensures Resumed(source, AfterRuns(source, runs, idOf), idOf) == Contents(source, idOf)
  {
    var k := RunsKeepPrefix(source, runs, idOf);
    var k' := RunKeepsPrefix(source, k, Run(true, |source|), idOf);
    assert source[..|source|] == source;
  }

  // ----- resumed runs of a source in any order -----

  lemma {:induction false} InsertionIsOrdered(row: Fields, sorted: seq<Fields>, idOf: IdOf)
    requires InIdOrder(sorted, idOf) && forall i | 0 <= i < |sorted| :: idOf(sorted[i]) != idOf(row)
    ensures InIdOrder(InsertById(row, sorted, idOf), idOf)
    ensures forall i | 0 <= i < |InsertById(row, sorted, idOf)| :: InsertById(row, sorted, idOf)[i] == row || InsertById(row, sorted, idOf)[i] in sorted
  {
    if sorted != [] && idOf(row) > idOf(sorted[0]) {
      InsertionIsOrdered(row, sorted[1..], idOf);
      var tail := InsertById(row, sorted[1..], idOf);
      forall i | 0 <= i < |tail|
        ensures idOf(sorted[0]) < idOf(tail[i])
      {
        if tail[i] != row {
          var j :| 0 <= j < |sorted[1..]| && sorted[1..][j] == tail[i];
          assert sorted[j + 1] == tail[i];
        }
      }
    } else {
      assert forall i | 0 < i < |[row] + sorted| :: ([row] + sorted)[i] == sorted[i - 1];
    }
  }

  /** ORDER BY gives the rows in id order. */
  lemma {:induction false} OrderedIsInOrder(rows: seq<Fields>, idOf: IdOf)
    requires DistinctIds(rows, idOf)
    ensures InIdOrder(OrderedById(rows, idOf), idOf)
    ensures forall row | row in OrderedById(rows, idOf) :: row in rows
  {
    if rows != [] {
      var rest := OrderedById(rows[1..], idOf);
      OrderedIsInOrder(rows[1..], idOf);
      forall i | 0 <= i < |rest|
        ensures idOf(rest[i]) != idOf(rows[0])
      {
        assert rest[i] in rest;
        var j :| 0 <= j < |rows[1..]| && rows[1..][j] == rest[i];
        assert rows[j + 1] == rest[i];
      }
      InsertionIsOrdered(rows[0], rest, idOf);
    }
  }

  /** A resume reads the same rows from the source in any order as from the source in id order. */
  lemma ResumeReadsInOrder(source: seq<Fields>, before: Table, run: Run, idOf: IdOf)
    requires DistinctIds(source, idOf) && run.resume
    ensures AfterRun(source, before, run, idOf) == AfterRun(OrderedById(source, idOf), before, run, idOf)
  {
    OrderedIsInOrder(source, idOf);
    OrderedIsSame(OrderedById(source, idOf), idOf);
    OrderedSize(source, idOf);
  }

  lemma {:induction false} ResumesReadInOrder(source: seq<Fields>, runs: seq<Run>, idOf: IdOf)
    requires DistinctIds(source, idOf) && forall i | 0 <= i < |runs| :: runs[i].resume
    ensures AfterRuns(source, runs, idOf) == AfterRuns(OrderedById(source, idOf), runs, idOf)
  {
    if runs != [] {
      var before := runs[..|runs| - 1];
      ResumesReadInOrder(source, before, idOf);
      ResumeReadsInOrder(source, AfterRuns(source, before, idOf), runs[|runs| - 1], idOf);
    }
  }

  /**
    Whatever order the source is read in without ORDER BY: any interrupted runs that were all started
    as resumes, and then a completed one, leave each source row once.
  */
  lemma ResumesComplete(source: seq<Fields>, runs: seq<Run>, idOf: IdOf)
    requires DistinctIds(source, idOf) && forall i | 0 <= i < |runs| :: runs[i].resume
    ensures Resumed(source, AfterRuns(source, runs, idOf), idOf) == Contents(source, idOf)
  {
    var ordered := OrderedById(source, idOf);
    OrderedIsInOrder(source, idOf);
    OrderedSize(source, idOf);
    ResumesReadInOrder(source, runs, idOf);
    ResumeReadsInOrder(source, AfterRuns(source, runs, idOf), Run(true, |source|), idOf);
    InterruptedThenResumed(ordered, runs, idOf);
    forall id
      ensures Lookup(Contents(ordered, idOf), id) == Lookup(Contents(source, idOf), id)
    {
      LookupOfInserted(map[], ordered, id, idOf);
      LookupOfInserted(map[], source, id, idOf);
      FindInOrdered(source, id, idOf);
    }
    SameTable(Contents(ordered, idOf), Contents(source, idOf));
  }

  // ----- sources read in any order -----

  lemma FindSelected(source: seq<Fields>, before: Table, run: Run, idOf: IdOf, id: int)
    requires DistinctIds(source, idOf)
    ensures var selected := Selected(source, before, LastOf(before), idOf, true, run.resume, None).value;
            var found := Find(Limited(selected, Some(run.done)), id, idOf);
            found.Some? ==> found == Find(source, id, idOf)
  {
    var selected := Selected(source, before, LastOf(before), idOf, true, run.resume, None).value;
    if run.done < |selected| {
      assert selected == selected[..run.done] + selected[run.done..];
      FindAppend(selected[..run.done], selected[run.done..], id, idOf);
    }
    FindInOrdered(source, id, idOf);
    if LastOf(before).Some? {
      FindAbove(OrderedById(source, idOf), LastOf(before).value, id, idOf);
    }
  }

  lemma {:induction false} RunsArePart(source: seq<Fields>, runs: seq<Run>, idOf: IdOf)
    requires DistinctIds(source, idOf)
    ensures IsPartOf(AfterRuns(source, runs, idOf), source, idOf)
  {
    if runs != [] {
      var before, run := AfterRuns(source, runs[..|runs| - 1], idOf), runs[|runs| - 1];
      RunsArePart(source, runs[..|runs| - 1], idOf);
      var selected := Selected(source, before, LastOf(before), idOf, true, run.resume, None).value;
      forall id | id in AfterRuns(source, runs, idOf)
        ensures Find(source, id, idOf) == Some(AfterRuns(source, runs, idOf)[id])
      {
        LookupOfInserted(before, Limited(selected, Some(run.done)), id, idOf);
        FindSelected(source, before, run, idOf, id);
      }
    }
  }

  /** The row counts agree after any runs, in any order of reading, only if the copy is complete. */
  lemma CountsAgreeExactlyWhenComplete(source: seq<Fields>, runs: seq<Run>, idOf: IdOf)
    requires DistinctIds(source, idOf)
    ensures |AfterRuns(source, runs, idOf)| == |source| <==> AfterRuns(source, runs, idOf) == Contents(source, idOf)
  {
    RunsArePart(source, runs, idOf);
    ContentsSize(source, idOf);
    if |AfterRuns(source, runs, idOf)| == |source| {
      AsManyIsAll(source, AfterRuns(source, runs, idOf), idOf);
    }
  }

  function TextId(row: Fields): int {
    if row == [Some("2")] then 2 else if row == [Some("1")] then 1 else 3
  }

  const TWO_AND_THREE: Table := map[2 := [Some("2")], 3 := [Some("3")]]

  /**
    An input with the source in id order: the target already has rows 2 and 3, written by something
    other than this migration. The resume starts above 3 and never copies row 1.
  */
  lemma RowsFromElsewhereHideARow()
    ensures var source: seq<Fields> := [[Some("1")], [Some("2")], [Some("3")]];
            InIdOrder(source, TextId) && Resumed(source, TWO_AND_THREE, TextId) != Contents(source, TextId)
  {
    var source: seq<Fields> := [[Some("1")], [Some("2")], [Some("3")]];
    assert 3 in TWO_AND_THREE && LastOf(TWO_AND_THREE) == Some(3);
    assert "1"[0] != "2"[0] && "1"[0] != "3"[0] && "2"[0] != "3"[0];
    assert TextId(source[0]) == 1 && 1 !in TWO_AND_THREE;
    ResumeCompletesExactlyWhen(source, TWO_AND_THREE, TextId);
  }

  /** An input: a first run that reads row 2 before row 1 and stops after it makes the resume skip row 1. */
  lemma OutOfOrderRunLosesARow()
    ensures var source: seq<Fields> := [[Some("2")], [Some("1")]];
            Resumed(source, AfterRuns(source, [Run(false, 1)], TextId), TextId) != Contents(source, TextId)
  {
    var source: seq<Fields> := [[Some("2")], [Some("1")]];
    var runs := [Run(false, 1)];
    var target := AfterRuns(source, runs, TextId);
    assert runs[..0] == [];
    assert source[..1] == [source[0]] && [source[0]][..0] == [];
    assert target == InsertAll(map[], [source[0]], TextId);
    assert InsertAll(map[], [], TextId) == map[];
    assert target == InsertRow(map[], source[0], TextId);
    assert target == map[2 := source[0]];
    assert LastOf(target) == Some(2) by {
      assert 2 in target;
    }
    assert TextId(source[1]) == 1 && 1 !in target;
    ResumeCompletesExactlyWhen(source, target, TextId);
  }
}
