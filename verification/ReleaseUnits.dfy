/** _target_gcp_units: the systemd units that the GCP target pulls in. */
module ReleaseUnits {
  import opened Prelude

  type Unit = string

  const ROOT_UNIT: Unit := "polydata-gcp.target"
  const LOCAL_TARGET: Unit := "polydata.target"

  /** A key=value line of a unit file, the value split at blanks. */
  datatype Line = Line(key: string, words: seq<string>)

  /** The unit files of one revision, by unit name. */
  type UnitFiles = map<Unit, seq<Line>>

  predicate IsDependencyKey(key: string) {
    key == "Wants" || key == "Requires" || key == "Unit"
  }

  predicate HasPrefix(s: string, prefix: string) {
    prefix <= s
  }

  predicate IsOwnUnit(word: string) {
    HasPrefix(word, "polydata-")
  }

  /** unit names another unit of ours in a Wants, Requires or Unit line. */
  ghost predicate DependsOn(files: UnitFiles, unit: Unit, dependency: Unit) {
    && unit in files
    && IsOwnUnit(dependency)
    && exists line | line in files[unit] :: IsDependencyKey(line.key) && dependency in line.words
  }

  /** A chain of dependencies from the root. */
  ghost predicate IsChain(files: UnitFiles, chain: seq<Unit>) {
    && chain != [] && chain[0] == ROOT_UNIT
    && forall i | 0 < i < |chain| :: DependsOn(files, chain[i - 1], chain[i])
  }

  ghost predicate Reachable(files: UnitFiles, unit: Unit) {
    exists chain :: IsChain(files, chain) && chain[|chain| - 1] == unit
  }

  /** Exactly the reachable units, and polydata.target. */
  ghost predicate IsUnitClosure(files: UnitFiles, units: set<Unit>) {
    forall u :: u in units <==> u == LOCAL_TARGET || Reachable(files, u)
  }

  lemma RootIsReachable(files: UnitFiles)
    ensures Reachable(files, ROOT_UNIT)
  {
    assert IsChain(files, [ROOT_UNIT]);
  }

  lemma ReachableStep(files: UnitFiles, unit: Unit, dependency: Unit)
    requires Reachable(files, unit) && DependsOn(files, unit, dependency)
    ensures Reachable(files, dependency)
  {
    var chain :| IsChain(files, chain) && chain[|chain| - 1] == unit;
    var longer := chain + [dependency];
    assert IsChain(files, longer);
    assert longer[|longer| - 1] == dependency;
  }

  lemma {:induction false} ClosedSetHoldsChain(files: UnitFiles, units: set<Unit>, chain: seq<Unit>)
    requires ROOT_UNIT in units && IsChain(files, chain)
    requires forall u, d | u in units && u != LOCAL_TARGET && DependsOn(files, u, d) :: d in units
    ensures chain[|chain| - 1] in units
  {
    if |chain| > 1 {
      var shorter := chain[..|chain| - 1];
      assert IsChain(files, shorter);
      ClosedSetHoldsChain(files, units, shorter);
      assert DependsOn(files, chain[|chain| - 2], chain[|chain| - 1]);
      ChainIsOwn(files, shorter);
    }
  }

  lemma ChainIsOwn(files: UnitFiles, chain: seq<Unit>)
    requires IsChain(files, chain)
    ensures chain[|chain| - 1] != LOCAL_TARGET
  {
    if |chain| > 1 {
      assert DependsOn(files, chain[|chain| - 2], chain[|chain| - 1]);
    }
    assert LOCAL_TARGET[8] != "polydata-"[8];
  }

  /** All words of all files: the worklist never leaves this set. */
  ghost function AllWords(files: UnitFiles): set<Unit> {
    set u, line, w | u in files.Keys && line in files[u] && w in line.words :: w
  }

  function Elements(us: seq<Unit>): set<Unit> {
    set u | u in us
  }

  lemma ElementsAppend(a: seq<Unit>, b: seq<Unit>)
    ensures Elements(a + b) == Elements(a) + Elements(b)
  {
  }

  /** The units of one line that are not known yet become known; they are returned for pending. */
  method AddWords(words: seq<string>, units: set<Unit>) returns (units': set<Unit>, added: seq<Unit>)
    ensures forall u :: u in units' <==> u in units || (u in words && IsOwnUnit(u))
    ensures Elements(added) == units' - units
  {
    units', added := units, [];
    for i := 0 to |words|
      invariant forall u :: u in units' <==> u in units || (u in words[..i] && IsOwnUnit(u))
      invariant Elements(added) == units' - units
    {
      if HasPrefix(words[i], "polydata-") && words[i] !in units' {
        units' := units' + {words[i]};
        ElementsAppend(added, [words[i]]);
        added := added + [words[i]];
      }
    }
  }

  /** One popped unit: all dependencies in its lines become known, new ones are returned for pending. */
  method ExpandUnit(files: UnitFiles, unit: Unit, units: set<Unit>) returns (units': set<Unit>, added: seq<Unit>)
    requires unit in files && Reachable(files, unit)
    ensures units <= units' <= units + AllWords(files)
    ensures forall d | DependsOn(files, unit, d) :: d in units'
    ensures forall u | u in units' - units :: Reachable(files, u)
    ensures Elements(added) == units' - units
  {
    units', added := units, [];
    var lines := files[unit];
    for i := 0 to |lines|
      invariant units <= units' <= units + AllWords(files)
      invariant forall j, d | 0 <= j < i && IsDependencyKey(lines[j].key) && d in lines[j].words && IsOwnUnit(d) :: d in units'
      invariant forall u | u in units' - units :: Reachable(files, u)
      invariant Elements(added) == units' - units
    {
      if IsDependencyKey(lines[i].key) {
        ghost var known := units';
        var more;
        units', more := AddWords(lines[i].words, units');
        ElementsAppend(added, more);
        added := added + more;
        forall u | u in units' - known
          ensures Reachable(files, u) && u in AllWords(files)
        {
          assert lines[i] in files[unit];
          assert DependsOn(files, unit, u);
          ReachableStep(files, unit, u);
        }
      }
    }
  }

  /** Every known unit is reachable, and every known unit that is not pending is expanded. */
  ghost predicate Explored(files: UnitFiles, units: set<Unit>, pending: seq<Unit>) {
    && {ROOT_UNIT, LOCAL_TARGET} <= units <= {ROOT_UNIT, LOCAL_TARGET} + AllWords(files)
    && Elements(pending) <= units - {LOCAL_TARGET}
    && (forall u | u in units && u != LOCAL_TARGET :: Reachable(files, u))
    && (forall u, d | u in units && u != LOCAL_TARGET && u !in Elements(pending) && DependsOn(files, u, d) :: d in units)
  }

  lemma ExploreStep(files: UnitFiles, units: set<Unit>, pending: seq<Unit>, units': set<Unit>, added: seq<Unit>)
    requires pending != [] && Explored(files, units, pending)
    requires units <= units' <= units + AllWords(files)
    requires forall d | DependsOn(files, pending[|pending| - 1], d) :: d in units'
    requires forall u | u in units' - units :: Reachable(files, u)
    requires Elements(added) == units' - units
    ensures Explored(files, units', pending[..|pending| - 1] + added)
  {
    var rest, unit := pending[..|pending| - 1], pending[|pending| - 1];
    assert pending == rest + [unit];
    ElementsAppend(rest, [unit]);
    ElementsAppend(rest, added);
  }

  lemma ExploredAll(files: UnitFiles, units: set<Unit>)
    requires Explored(files, units, [])
    ensures IsUnitClosure(files, units)
  {
    forall u | Reachable(files, u)
      ensures u in units
    {
      var chain :| IsChain(files, chain) && chain[|chain| - 1] == u;
      ClosedSetHoldsChain(files, units, chain);
    }
  }

  /** The worklist loop: exactly the reachable units and polydata.target, also on cyclic files. */
  method TargetGcpUnits(files: UnitFiles) returns (result: Result<set<Unit>, string>)
    ensures result.Ok? <==> ROOT_UNIT in files
    ensures result.Ok? ==> IsUnitClosure(files, result.value)
  {
    if ROOT_UNIT !in files {
      return Err("target commit does not contain polydata-gcp.target");
    }
    var units := {ROOT_UNIT, LOCAL_TARGET};
    var pending := [ROOT_UNIT];
    RootIsReachable(files);
    while pending != []
      invariant Explored(files, units, pending)
      decreases {ROOT_UNIT, LOCAL_TARGET} + AllWords(files) - units, |pending|
    {
      ghost var known := units;
      var unit := pending[|pending| - 1];
      var added: seq<Unit> := [];
      assert unit in Elements(pending);
      if unit in files {
        units, added := ExpandUnit(files, unit, units);
      }
      ExploreStep(files, known, pending, units, added);
      assert units == known ==> Elements(added) == {};
      assert added != [] ==> added[0] in Elements(added);
      pending := pending[..|pending| - 1] + added;
    }
    ExploredAll(files, units);
    return Ok(units);
  }

  /** Whatever a unit of the set names in a Wants=, Requires= or Unit= line is in it, if it starts with polydata-. */
  ghost predicate HoldsNamed(files: UnitFiles, units: set<Unit>) {
    forall u, line, d | u in units && u != "polydata.target" && u in files && line in files[u] &&
                        (line.key == "Wants" || line.key == "Requires" || line.key == "Unit") && d in line.words && "polydata-" <= d ::
      d in units
  }

  /** In terms of the lines: the closure is the least set with the root, polydata.target and all that its units name. */
  lemma ClosureByLines(files: UnitFiles, units: set<Unit>, others: set<Unit>)
    requires IsUnitClosure(files, units)
    ensures "polydata-gcp.target" in units && "polydata.target" in units && HoldsNamed(files, units)
    ensures "polydata-gcp.target" in others && "polydata.target" in others && HoldsNamed(files, others) ==> units <= others
  {
    RootIsReachable(files);
    forall u, line, d | u in units && u != "polydata.target" && u in files && line in files[u] &&
                        (line.key == "Wants" || line.key == "Requires" || line.key == "Unit") && d in line.words && "polydata-" <= d
      ensures d in units
    {
      assert DependsOn(files, u, d);
      ReachableStep(files, u, d);
    }
    if "polydata-gcp.target" in others && "polydata.target" in others && HoldsNamed(files, others) {
      forall u | u in units
        ensures u in others
      {
        if u != "polydata.target" {
          ReachableIsHeld(files, others, u);
        }
      }
    }
  }

  lemma ReachableIsHeld(files: UnitFiles, others: set<Unit>, u: Unit)
    requires "polydata-gcp.target" in others && HoldsNamed(files, others) && Reachable(files, u)
    ensures u in others
  {
    var chain :| IsChain(files, chain) && chain[|chain| - 1] == u;
    forall v, d | v in others && v != LOCAL_TARGET && DependsOn(files, v, d)
      ensures d in others
    {
      var line :| line in files[v] && IsDependencyKey(line.key) && d in line.words;
    }
    ClosedSetHoldsChain(files, others, chain);
  }
}
