/**
  Keyed summary tables over fills, whatever the key and the summary columns are: the table a
  single pass over all fills builds, the table an upsert produces, and why they agree.
*/
module KeyedTables {
  import opened Prelude

  /** One executed trade as seen by a market or by one of its participants. */
  datatype Fill = Fill(marketId: int, address: string, side: string, notional: real,
                       time: Option<int>, block: Option<int>)

  // ----- measures of a sequence of fills -----

  function Earlier(a: Option<int>, b: Option<int>): Option<int> {
    if a.None? then b else if b.None? then a else if b.value < a.value then b else a
  }

  function Later(a: Option<int>, b: Option<int>): Option<int> {
    if a.None? then b else if b.None? then a else if b.value > a.value then b else a
  }

  function CountSide(fs: seq<Fill>, side: string): nat {
    if fs == [] then 0
    else CountSide(fs[..|fs| - 1], side) + (if fs[|fs| - 1].side == side then 1 else 0)
  }

  function Volume(fs: seq<Fill>): real {
    if fs == [] then 0.0 else Volume(fs[..|fs| - 1]) + fs[|fs| - 1].notional
  }

  function FirstTime(fs: seq<Fill>): Option<int> {
    if fs == [] then None else Earlier(FirstTime(fs[..|fs| - 1]), fs[|fs| - 1].time)
  }

  function LastTime(fs: seq<Fill>): Option<int> {
    if fs == [] then None else Later(LastTime(fs[..|fs| - 1]), fs[|fs| - 1].time)
  }

  function LastBlock(fs: seq<Fill>): Option<int> {
    if fs == [] then None else Later(LastBlock(fs[..|fs| - 1]), fs[|fs| - 1].block)
  }

  /** LastBlock is the greatest block present, None when there is none. */
  lemma {:induction false} BlockIsBound(fs: seq<Fill>)
    ensures LastBlock(fs).None? <==> forall f | f in fs :: f.block.None?
    ensures LastBlock(fs).Some? ==>
              && (exists f :: f in fs && f.block == LastBlock(fs))
              && forall f | f in fs && f.block.Some? :: f.block.value <= LastBlock(fs).value
  {
    if fs != [] {
      var rest, x := fs[..|fs| - 1], fs[|fs| - 1];
      BlockIsBound(rest);
      assert forall f :: f in fs <==> f in rest || f == x;
      if LastBlock(fs).Some? && LastBlock(fs) != x.block {
        var f :| f in rest && f.block == LastBlock(rest);
        assert f in fs;
      }
    }
  }

  /** FirstTime and LastTime are the least and the greatest time present, None when there is none. */
  lemma {:induction false} TimesAreBounds(fs: seq<Fill>)
    ensures FirstTime(fs).None? <==> forall f | f in fs :: f.time.None?
    ensures LastTime(fs).None? <==> forall f | f in fs :: f.time.None?
    ensures FirstTime(fs).Some? ==>
              && (exists f :: f in fs && f.time == FirstTime(fs))
              && forall f | f in fs && f.time.Some? :: FirstTime(fs).value <= f.time.value
    ensures LastTime(fs).Some? ==>
              && (exists f :: f in fs && f.time == LastTime(fs))
              && forall f | f in fs && f.time.Some? :: f.time.value <= LastTime(fs).value
  {
    if fs != [] {
      var rest, x := fs[..|fs| - 1], fs[|fs| - 1];
      TimesAreBounds(rest);
      assert fs == rest + [x];
      assert forall f :: f in fs <==> f in rest || f == x;
      if FirstTime(fs).Some? && FirstTime(fs) != x.time {
        var f :| f in rest && f.time == FirstTime(rest);
        assert f in fs;
      }
      if LastTime(fs).Some? && LastTime(fs) != x.time {
        var f :| f in rest && f.time == LastTime(rest);
        assert f in fs;
      }
    }
  }

  // ----- selecting fills by key -----

  /** The fills whose key is one of ks, in order. A fill with key None belongs to no key. */
  function Within<K(==)>(fs: seq<Fill>, key: Fill -> Option<K>, ks: set<K>): seq<Fill> {
    if fs == [] then []
    else
      var f := fs[|fs| - 1];
      Within(fs[..|fs| - 1], key, ks) + (if key(f).Some? && key(f).value in ks then [f] else [])
  }

  function KeysOf<K(==)>(fs: seq<Fill>, key: Fill -> Option<K>): set<K> {
    set f | f in fs && key(f).Some? :: key(f).value
  }

  lemma {:induction false} WithinAppend<K>(a: seq<Fill>, b: seq<Fill>, key: Fill -> Option<K>, ks: set<K>)
    ensures Within(a + b, key, ks) == Within(a, key, ks) + Within(b, key, ks)
    decreases |b|
  {
    if b == [] {
      assert a + b == a;
    } else {
      WithinAppend(a, b[..|b| - 1], key, ks);
      assert (a + b)[..|a + b| - 1] == a + b[..|b| - 1];
    }
  }

  lemma {:induction false} WithinNonempty<K>(fs: seq<Fill>, key: Fill -> Option<K>, k: K)
    ensures Within(fs, key, {k}) == [] <==> k !in KeysOf(fs, key)
  {
    if fs != [] {
      var rest, f := fs[..|fs| - 1], fs[|fs| - 1];
      WithinNonempty(rest, key, k);
      assert fs == rest + [f];
      assert k in KeysOf(fs, key) <==> k in KeysOf(rest, key) || key(f) == Some(k);
    }
  }

  lemma MeasuresSnoc(fs: seq<Fill>, f: Fill, side: string)
    ensures CountSide(fs + [f], side) == CountSide(fs, side) + (if f.side == side then 1 else 0)
    ensures Volume(fs + [f]) == Volume(fs) + f.notional
    ensures FirstTime(fs + [f]) == Earlier(FirstTime(fs), f.time)
    ensures LastTime(fs + [f]) == Later(LastTime(fs), f.time)
    ensures LastBlock(fs + [f]) == Later(LastBlock(fs), f.block)
  {
    assert (fs + [f])[..|fs|] == fs;
  }

  /** The measures of both are the measures of one and rest put together. */
  ghost predicate Partitioned(both: seq<Fill>, one: seq<Fill>, rest: seq<Fill>, side: string) {
    && |both| == |one| + |rest|
    && CountSide(both, side) == CountSide(one, side) + CountSide(rest, side)
    && Volume(both) == Volume(one) + Volume(rest)
    && FirstTime(both) == Earlier(FirstTime(one), FirstTime(rest))
    && LastTime(both) == Later(LastTime(one), LastTime(rest))
    && LastBlock(both) == Later(LastBlock(one), LastBlock(rest))
  }

  lemma BoundsRegroup(a: Option<int>, b: Option<int>, c: Option<int>)
    ensures Later(Later(a, b), c) == Later(Later(a, c), b) == Later(a, Later(b, c))
    ensures Earlier(Earlier(a, b), c) == Earlier(Earlier(a, c), b) == Earlier(a, Earlier(b, c))
  {
  }

  lemma PartitionSnoc(both: seq<Fill>, one: seq<Fill>, rest: seq<Fill>, side: string, f: Fill)
    requires Partitioned(both, one, rest, side)
    ensures Partitioned(both + [f], one + [f], rest, side)
    ensures Partitioned(both + [f], one, rest + [f], side)
  {
    MeasuresSnoc(both, f, side);
    MeasuresSnoc(one, f, side);
    MeasuresSnoc(rest, f, side);
    BoundsRegroup(FirstTime(one), FirstTime(rest), f.time);
    BoundsRegroup(LastTime(one), LastTime(rest), f.time);
    BoundsRegroup(LastBlock(one), LastBlock(rest), f.block);
  }

  lemma {:induction false} AppendPartitions(a: seq<Fill>, b: seq<Fill>, side: string)
    ensures Partitioned(a + b, a, b, side)
    decreases |b|
  {
    if b == [] {
      assert a + b == a;
    } else {
      var init, f := b[..|b| - 1], b[|b| - 1];
      AppendPartitions(a, init, side);
      PartitionSnoc(a + init, a, init, side, f);
      assert b == init + [f] && a + b == (a + init) + [f];
    }
  }

  lemma MeasuresAppend(a: seq<Fill>, b: seq<Fill>)
    ensures forall side :: CountSide(a + b, side) == CountSide(a, side) + CountSide(b, side)
    ensures Volume(a + b) == Volume(a) + Volume(b)
    ensures FirstTime(a + b) == Earlier(FirstTime(a), FirstTime(b))
    ensures LastTime(a + b) == Later(LastTime(a), LastTime(b))
    ensures LastBlock(a + b) == Later(LastBlock(a), LastBlock(b))
  {
    AppendPartitions(a, b, "");
    forall side
      ensures CountSide(a + b, side) == CountSide(a, side) + CountSide(b, side)
    {
      AppendPartitions(a, b, side);
    }
  }

  /** Fills of a key outside a set and fills of the set together measure as the enlarged set. */
  lemma {:induction false} MeasuresPartition<K>(fs: seq<Fill>, key: Fill -> Option<K>, k: K, ks: set<K>, side: string)
    requires k !in ks
    ensures Partitioned(Within(fs, key, ks + {k}), Within(fs, key, {k}), Within(fs, key, ks), side)
  {
    if fs != [] {
      var init, f := fs[..|fs| - 1], fs[|fs| - 1];
      MeasuresPartition(init, key, k, ks, side);
      var both, one, rest := Within(init, key, ks + {k}), Within(init, key, {k}), Within(init, key, ks);
      PartitionSnoc(both, one, rest, side, f);
      if key(f).None? || key(f).value !in ks + {k} {
        assert Within(fs, key, ks + {k}) == both && Within(fs, key, {k}) == one && Within(fs, key, ks) == rest;
      } else if key(f).value == k {
        assert Within(fs, key, ks + {k}) == both + [f] && Within(fs, key, {k}) == one + [f] && Within(fs, key, ks) == rest;
      } else {
        assert Within(fs, key, ks + {k}) == both + [f] && Within(fs, key, {k}) == one && Within(fs, key, ks) == rest + [f];
      }
    }
  }

  // ----- tables -----

  /** The table that one pass over fs builds: per key, the summary of that key's fills. */
  function Table<K, V>(fs: seq<Fill>, key: Fill -> Option<K>, summary: seq<Fill> -> V): map<K, V> {
    map k | k in KeysOf(fs, key) :: summary(Within(fs, key, {k}))
  }

  /** INSERT ... ON CONFLICT(key) DO UPDATE with the given merge of stored and excluded row. */
  function Upserted<K, V>(stored: map<K, V>, rows: map<K, V>, merge: (V, V) -> V): map<K, V> {
    map k | k in stored.Keys + rows.Keys ::
      if k in stored && k in rows then merge(stored[k], rows[k])
      else if k in rows then rows[k]
      else stored[k]
  }

  /** The merge of two summaries is the summary of the two parts together. */
  ghost predicate Mergeable<V>(summary: seq<Fill> -> V, merge: (V, V) -> V) {
    forall a, b | a != [] && b != [] :: summary(a + b) == merge(summary(a), summary(b))
  }

  lemma KeysAppend<K>(a: seq<Fill>, b: seq<Fill>, key: Fill -> Option<K>)
    ensures KeysOf(a + b, key) == KeysOf(a, key) + KeysOf(b, key)
  {
    assert forall f :: f in a + b <==> f in a || f in b;
  }

  /** Upserting the table of a batch into the table of everything before is the table of both. */
  lemma TableAppend<K, V>(a: seq<Fill>, b: seq<Fill>, key: Fill -> Option<K>,
                          summary: seq<Fill> -> V, merge: (V, V) -> V)
    requires Mergeable(summary, merge)
    ensures Table(a + b, key, summary) ==
            Upserted(Table(a, key, summary), Table(b, key, summary), merge)
  {
    var whole, both := Table(a + b, key, summary), Upserted(Table(a, key, summary), Table(b, key, summary), merge);
    KeysAppend(a, b, key);
    forall k | k in whole
      ensures whole[k] == both[k]
    {
      WithinAppend(a, b, key, {k});
      WithinNonempty(a, key, k);
      WithinNonempty(b, key, k);
      var wa, wb := Within(a, key, {k}), Within(b, key, {k});
      assert wa == [] ==> wa + wb == wb;
      assert wb == [] ==> wa + wb == wa;
    }
  }

  lemma WithinSnoc<K>(fs: seq<Fill>, f: Fill, key: Fill -> Option<K>, ks: set<K>)
    ensures Within(fs + [f], key, ks) ==
            if key(f).Some? && key(f).value in ks then Within(fs, key, ks) + [f] else Within(fs, key, ks)
  {
    assert (fs + [f])[..|fs|] == fs;
  }

  /** A row of a one-pass table summarises its key's fills; a key without a row has none. */
  lemma TableRow<K, V>(fs: seq<Fill>, key: Fill -> Option<K>, summary: seq<Fill> -> V, k: K)
    ensures k in Table(fs, key, summary) <==> Within(fs, key, {k}) != []
    ensures k in Table(fs, key, summary) ==> Table(fs, key, summary)[k] == summary(Within(fs, key, {k}))
  {
    WithinNonempty(fs, key, k);
  }

  lemma KeysSnoc<K>(fs: seq<Fill>, f: Fill, key: Fill -> Option<K>)
    ensures KeysOf(fs + [f], key) == KeysOf(fs, key) + (if key(f).Some? then {key(f).value} else {})
  {
    KeysAppend(fs, [f], key);
    assert f in [f];
  }

  /** One more fill changes only its own key's row, to the summary with the fill added. */
  lemma TableSnoc<K, V>(fs: seq<Fill>, f: Fill, key: Fill -> Option<K>, summary: seq<Fill> -> V)
    ensures key(f).None? ==> Table(fs + [f], key, summary) == Table(fs, key, summary)
    ensures key(f).Some? ==>
              var k := key(f).value;
              Table(fs + [f], key, summary) == Table(fs, key, summary)[k := summary(Within(fs, key, {k}) + [f])]
  {
    KeysSnoc(fs, f, key);
    var whole, before := Table(fs + [f], key, summary), Table(fs, key, summary);
    forall k | k in KeysOf(fs + [f], key)
      ensures k in whole
      ensures key(f) == Some(k) ==> whole[k] == summary(Within(fs, key, {k}) + [f])
      ensures key(f) != Some(k) ==> k in before && whole[k] == before[k]
    {
      RowSnoc(fs, f, key, summary, k);
    }
    if key(f).Some? {
      OneRowSet(whole, before, key(f).value, summary(Within(fs, key, {key(f).value}) + [f]));
    } else {
      assert whole.Keys == before.Keys;
    }
  }

  lemma OneRowSet<K, V>(whole: map<K, V>, before: map<K, V>, k: K, v: V)
    requires whole.Keys == before.Keys + {k} && whole[k] == v
    requires forall j | j in whole && j != k :: j in before && whole[j] == before[j]
    ensures whole == before[k := v]
  {
  }

  lemma RowSnoc<K, V>(fs: seq<Fill>, f: Fill, key: Fill -> Option<K>, summary: seq<Fill> -> V, k: K)
    requires k in KeysOf(fs + [f], key)
    ensures key(f) == Some(k) ==> Table(fs + [f], key, summary)[k] == summary(Within(fs, key, {k}) + [f])
    ensures key(f) != Some(k) ==> k in Table(fs, key, summary) && Table(fs + [f], key, summary)[k] == Table(fs, key, summary)[k]
  {
    KeysSnoc(fs, f, key);
    WithinSnoc(fs, f, key, {k});
  }

  lemma UpsertNone<K, V>(table: map<K, V>, rows: map<K, V>, merge: (V, V) -> V)
    ensures Upserted(table, rows - rows.Keys, merge) == table
    ensures rows - {} == rows
  {
    assert (rows - rows.Keys).Keys == {};
  }

  lemma UpsertStep<K, V>(table: map<K, V>, rows: map<K, V>, todo: set<K>, k: K, merge: (V, V) -> V)
    requires k in todo && todo <= rows.Keys
    ensures var before := Upserted(table, rows - todo, merge);
            Upserted(table, rows - (todo - {k}), merge) == before[k := if k in before then merge(before[k], rows[k]) else rows[k]]
  {
    var before, after := Upserted(table, rows - todo, merge), Upserted(table, rows - (todo - {k}), merge);
    assert (rows - (todo - {k})).Keys == (rows - todo).Keys + {k};
    assert after.Keys == before.Keys + {k};
    assert forall j | j in after && j != k :: after[j] == before[j];
  }

  /** One executemany upsert: rows go in one at a time, in any order. */
  method Upsert<K, V>(table: map<K, V>, rows: map<K, V>, merge: (V, V) -> V) returns (result: map<K, V>)
    ensures result == Upserted(table, rows, merge)
  {
    result := table;
    var todo := rows.Keys;
    UpsertNone(table, rows, merge);
    while todo != {}
      invariant todo <= rows.Keys
      invariant result == Upserted(table, rows - todo, merge)
      decreases |todo|
    {
      var k :| k in todo;
      UpsertStep(table, rows, todo, k, merge);
      result := result[k := if k in result then merge(result[k], rows[k]) else rows[k]];
      todo := todo - {k};
    }
  }

  // ----- totals over a table -----

  /** All rows of the given keys folded together, as a GROUP BY aggregate does. */
  ghost function FoldRows<K, V>(table: map<K, V>, ks: set<K>, zero: V, merge: (V, V) -> V): V
    requires ks <= table.Keys
  {
    if ks == {} then zero
    else
      var k := PickOne(ks);
      merge(table[k], FoldRows(table, ks - {k}, zero, merge))
  }

  /** The rows of a fold may be taken in any order. */
  ghost predicate AnyOrder<V(!new)>(merge: (V, V) -> V) {
    forall a, b, c :: merge(a, merge(b, c)) == merge(b, merge(a, c))
  }

  lemma {:induction false} FoldTakes<K, V(!new)>(table: map<K, V>, ks: set<K>, k: K, zero: V, merge: (V, V) -> V)
    requires ks <= table.Keys && k in ks && AnyOrder(merge)
    ensures FoldRows(table, ks, zero, merge) == merge(table[k], FoldRows(table, ks - {k}, zero, merge))
    decreases |ks|
  {
    var p := PickOne(ks);
    if p != k {
      FoldTakes(table, ks - {p}, k, zero, merge);
      FoldTakes(table, ks - {k}, p, zero, merge);
      assert (ks - {p}) - {k} == (ks - {k}) - {p};
    }
  }

  /** A GROUP BY aggregate, computed row by row. */
  method Aggregate<K, V(!new)>(table: map<K, V>, ks: set<K>, zero: V, merge: (V, V) -> V) returns (total: V)
    requires ks <= table.Keys && AnyOrder(merge)
    ensures total == FoldRows(table, ks, zero, merge)
  {
    total := zero;
    var todo := ks;
    while todo != {}
      invariant todo <= ks
      invariant total == FoldRows(table, ks - todo, zero, merge)
      decreases |todo|
    {
      var k :| k in todo;
      FoldTakes(table, ks - (todo - {k}), k, zero, merge);
      assert (ks - (todo - {k})) - {k} == ks - todo;
      total := merge(table[k], total);
      todo := todo - {k};
    }
    assert ks - todo == ks;
  }

  /** zero summarises nothing, and merging a key's summary into others' gives the joint summary. */
  ghost predicate Additive<K(!new), V>(fs: seq<Fill>, key: Fill -> Option<K>,
                                       summary: seq<Fill> -> V, zero: V, merge: (V, V) -> V)
  {
    && summary([]) == zero
    && forall k, ks: set<K> | k !in ks ::
         summary(Within(fs, key, ks + {k})) == merge(summary(Within(fs, key, {k})), summary(Within(fs, key, ks)))
  }

  /** Folding a one-pass table's rows over a set of keys summarises the fills of those keys. */
  lemma {:induction false} FoldIsSummary<K(!new), V>(fs: seq<Fill>, key: Fill -> Option<K>,
                                                     summary: seq<Fill> -> V, zero: V, merge: (V, V) -> V, ks: set<K>)
    requires Additive(fs, key, summary, zero, merge)
    requires ks <= Table(fs, key, summary).Keys
    ensures FoldRows(Table(fs, key, summary), ks, zero, merge) == summary(Within(fs, key, ks))
    decreases |ks|
  {
    if ks == {} {
      WithinNone(fs, key);
    } else {
      var k := PickOne(ks);
      FoldIsSummary(fs, key, summary, zero, merge, ks - {k});
      assert (ks - {k}) + {k} == ks;
    }
  }

  lemma WithinNone<K>(fs: seq<Fill>, key: Fill -> Option<K>)
    ensures Within(fs, key, {}) == []
  {
  }
}
