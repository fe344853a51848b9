/** Which paths of the repository a release ships, for paths of every kind. */
module ReleasePaths {
  import opened ReleaseFiles
  import opened ReleaseUnits
  import opened ReleaseApply
  import opened ReleaseBuild

  /** No prefix of the list begins like the path. */
  lemma NoPrefix(p: Path, prefixes: seq<string>)
    requires forall i | 0 <= i < |prefixes| :: exists k :: 0 <= k < |prefixes[i]| && (k >= |p| || p[k] != prefixes[i][k])
    ensures !StartsWithAny(p, prefixes)
  {
  }

  lemma APrefix(p: Path, prefixes: seq<string>, i: nat)
    requires i < |prefixes| && prefixes[i] <= p
    ensures StartsWithAny(p, prefixes)
  {
    assert prefixes[i] in prefixes;
  }

  /** A path below scripts/ whose next character begins no external directory. */
  lemma NotExternal(p: Path)
    requires |p| > 8 && p[0] == 's' && p[..8] == "scripts/" && p[8] !in {'N', 'c', 'd', 'q'}
    ensures !StartsWithAny(p, EXTERNAL_RELEASE_PREFIXES)
  {
    forall i | 0 <= i < |EXTERNAL_RELEASE_PREFIXES|
      ensures exists k :: 0 <= k < |EXTERNAL_RELEASE_PREFIXES[i]| && (k >= |p| || p[k] != EXTERNAL_RELEASE_PREFIXES[i][k])
    {
      var prefix := EXTERNAL_RELEASE_PREFIXES[i];
      if prefix[0] != 's' {
        assert p[0] != prefix[0];
      } else {
        assert p[8] != prefix[8];
      }
    }
    NoPrefix(p, EXTERNAL_RELEASE_PREFIXES);
  }

  /** Everything below scripts/weather/ ships. */
  lemma WeatherShips(rest: string, units: set<Unit>)
    ensures Deployable("scripts/weather/" + rest, units)
  {
    var p := "scripts/weather/" + rest;
    assert p[8] == 'w' && p[0] == 's' && p[..8] == "scripts/";
    NotExternal(p);
    assert forall e | e in EXTERNAL_RELEASE_FILES + RETIRED_SOURCE_FILES :: |e| <= 8 || e[8] != 'w';
    assert p !in EXTERNAL_RELEASE_FILES && p !in RETIRED_SOURCE_FILES;
    assert GCP_SOURCE_PREFIXES[14] == "scripts/weather/";
    APrefix(p, GCP_SOURCE_PREFIXES, 14);
    assert p[0] != 'd';
  }

  /** Everything below scripts/db/ ships but the archive and the migration, which are released elsewhere. */
  lemma DatabaseShips(rest: string, units: set<Unit>)
    ensures Deployable("scripts/db/" + rest, units) <==> !("archive/" <= rest) && rest != "migrate_sqlite_to_mysql.py"
    ensures !Deployable("scripts/db/" + rest, units) ==> ExternallyOwned("scripts/db/" + rest)
  {
    var p := "scripts/db/" + rest;
    assert p[8] == 'd' && p[9] == 'b' && p[10] == '/' && p[0] == 's';
    assert GCP_SOURCE_PREFIXES[6] == "scripts/db/";
    APrefix(p, GCP_SOURCE_PREFIXES, 6);
    DatabaseExternal(rest);
    NotRetired(rest);
    assert !("deploy/systemd/" <= p);
  }

  lemma DatabaseExternal(rest: string)
    ensures StartsWithAny("scripts/db/" + rest, EXTERNAL_RELEASE_PREFIXES) <==> "archive/" <= rest
    ensures "scripts/db/" + rest in EXTERNAL_RELEASE_FILES <==> rest == "migrate_sqlite_to_mysql.py"
  {
    ArchiveIsExternal(rest);
    MigrationIsExternal(rest);
  }

  lemma ArchiveIsExternal(rest: string)
    ensures StartsWithAny("scripts/db/" + rest, EXTERNAL_RELEASE_PREFIXES) <==> "archive/" <= rest
  {
    var p := "scripts/db/" + rest;
    assert p[11..] == rest && p[..11] == "scripts/db/";
    if "archive/" <= rest {
      assert EXTERNAL_RELEASE_PREFIXES[6] == "scripts/db/archive/" == "scripts/db/" + "archive/";
      APrefix(p, EXTERNAL_RELEASE_PREFIXES, 6);
    }
    if StartsWithAny(p, EXTERNAL_RELEASE_PREFIXES) {
      var prefix :| prefix in EXTERNAL_RELEASE_PREFIXES && prefix <= p;
      OnlyArchive(prefix, p);
      assert "archive/" == prefix[11..];
    }
  }

  lemma OnlyArchive(prefix: string, p: Path)
    requires prefix in EXTERNAL_RELEASE_PREFIXES && prefix <= p && "scripts/db/" <= p
    ensures prefix == "scripts/db/archive/"
  {
    assert p[0] == 's' && p[8] == 'd' && p[9] == 'b';
    assert prefix[0] == 's' && prefix[8] == 'd' && prefix[9] == 'b';
  }

  lemma MigrationIsExternal(rest: string)
    ensures "scripts/db/" + rest in EXTERNAL_RELEASE_FILES <==> rest == "migrate_sqlite_to_mysql.py"
  {
    var p := "scripts/db/" + rest;
    assert "scripts/db/migrate_sqlite_to_mysql.py" == "scripts/db/" + "migrate_sqlite_to_mysql.py";
    if p in EXTERNAL_RELEASE_FILES {
      OnlyMigration(p);
      assert rest == p[11..];
    }
  }

  lemma OnlyMigration(p: Path)
    requires p in EXTERNAL_RELEASE_FILES && "scripts/db/" <= p
    ensures p == "scripts/db/migrate_sqlite_to_mysql.py"
  {
    assert p[0] == 's' && p[8] == 'd' && p[9] == 'b';
  }

  lemma NotRetired(rest: string)
    ensures "scripts/db/" + rest !in RETIRED_SOURCE_FILES
  {
    var p := "scripts/db/" + rest;
    assert p[8] == 'd' && p[9] == 'b';
    assert forall e | e in RETIRED_SOURCE_FILES :: e[8] != 'd' || e[9] != 'b';
  }

  /** A unit file ships exactly when its unit belongs to the target, whatever else is released from deploy/. */
  lemma UnitsShip(name: string, units: set<Unit>)
    requires '/' !in name
    ensures Deployable("deploy/systemd/" + name, units) <==> name in units
    ensures ExternallyOwned("deploy/systemd/" + name)
  {
    var p := "deploy/systemd/" + name;
    assert forall j | 14 < j < |p| :: p[j] == name[j - 15] && p[j] in name;
    assert p[14] == '/';
    LastSlashIsLast(p, 14);
    assert NameOf(p) == name;
    assert EXTERNAL_RELEASE_PREFIXES[1] == "deploy/";
    assert p[..7] == "deploy/";
    APrefix(p, EXTERNAL_RELEASE_PREFIXES, 1);
  }

  /** Retired sources and the files of retired units, once deleted from the repository, are deleted from the tree. */
  lemma RetiredAreRemoved(t: Tree, original: Tree, m: Manifest, r: Repository, units: set<Unit>, baseUnits: set<Unit>, p: Path)
    requires IsManifest(m, r, units, baseUnits) && IsApplied(t, original, m.entries)
    requires p in r.base && p !in r.target
    requires || "quant/" <= p
             || p in {"scripts/demo.sh", "scripts/market/market_decoder.py", "scripts/trade/trade_decoder.py",
                      "scripts/trade/clickhouse_orderfilled_writer.py"}
             || ("deploy/systemd/" <= p && p[LastSlash(p) + 1..] in baseUnits)
    ensures p !in t
  {
    assert p in Considered(r, units) && Selected(p, r.target, units, baseUnits);
    AppliedIsTarget(t, original, m, r, units, baseUnits);
  }

  /** Every considered path is an entry, or noted as external or as ignored, and only one of these. */
  lemma EveryPathIsNoted(m: Manifest, r: Repository, units: set<Unit>, baseUnits: set<Unit>, p: Path)
    requires IsManifest(m, r, units, baseUnits) && p in Considered(r, units)
    ensures p in PathsOf(m.entries) || p in m.external || p in m.ignored
    ensures p in m.external || p in m.ignored ==> p !in PathsOf(m.entries)
    ensures !(p in m.external && p in m.ignored)
    ensures p !in PathsOf(m.entries) && p !in r.target ==> p in m.external
  {
  }

  /** The frontend is released elsewhere, and so noted as external. */
  lemma WebpageIsExternal(m: Manifest, r: Repository, units: set<Unit>, baseUnits: set<Unit>, rest: string)
    requires IsManifest(m, r, units, baseUnits) && "webpage/" + rest in Considered(r, units) && "webpage/" + rest in r.target
    ensures "webpage/" + rest in m.external
  {
    var p := "webpage/" + rest;
    assert p[0] == 'w' && p[..8] == "webpage/";
    assert EXTERNAL_RELEASE_PREFIXES[12] == "webpage/";
    APrefix(p, EXTERNAL_RELEASE_PREFIXES, 12);
  }

  /** Quant sources in the target are shipped by nobody, and so ignored. */
  lemma QuantIsIgnored(m: Manifest, r: Repository, units: set<Unit>, baseUnits: set<Unit>, rest: string)
    requires IsManifest(m, r, units, baseUnits) && "quant/" + rest in Considered(r, units) && "quant/" + rest in r.target
    ensures "quant/" + rest in m.ignored
  {
    var p := "quant/" + rest;
    assert p[0] == 'q';
    NoPrefixBeginsLike(p);
    NoFileBeginsLike(p);
    assert !("deploy/systemd/" <= p);
  }

  lemma NoPrefixBeginsLike(p: Path)
    requires |p| > 0 && p[0] == 'q'
    ensures !StartsWithAny(p, EXTERNAL_RELEASE_PREFIXES) && !StartsWithAny(p, GCP_SOURCE_PREFIXES)
  {
    forall i | 0 <= i < |EXTERNAL_RELEASE_PREFIXES|
      ensures exists k :: 0 <= k < |EXTERNAL_RELEASE_PREFIXES[i]| && (k >= |p| || p[k] != EXTERNAL_RELEASE_PREFIXES[i][k])
    {
      assert p[0] != EXTERNAL_RELEASE_PREFIXES[i][0];
    }
    NoPrefix(p, EXTERNAL_RELEASE_PREFIXES);
    forall i | 0 <= i < |GCP_SOURCE_PREFIXES|
      ensures exists k :: 0 <= k < |GCP_SOURCE_PREFIXES[i]| && (k >= |p| || p[k] != GCP_SOURCE_PREFIXES[i][k])
    {
      assert p[0] != GCP_SOURCE_PREFIXES[i][0];
    }
    NoPrefix(p, GCP_SOURCE_PREFIXES);
  }

  lemma NoFileBeginsLike(p: Path)
    requires |p| > 0 && p[0] == 'q'
    ensures p !in EXTERNAL_RELEASE_FILES && p !in RETIRED_SOURCE_FILES && p !in GCP_SOURCE_FILES
  {
    if p in EXTERNAL_RELEASE_FILES {
      ExternalFileBegins(p);
    }
    if p in GCP_SOURCE_FILES {
      SourceFileBegins(p);
    }
    if p in RETIRED_SOURCE_FILES {
      RetiredFileBegins(p);
    }
  }

  lemma RetiredFileBegins(p: Path)
    requires p in RETIRED_SOURCE_FILES
    ensures |p| > 0 && p[0] == 's'
  {
    var demo, market, trade, writer :=
      "scripts/demo.sh", "scripts/market/market_decoder.py", "scripts/trade/trade_decoder.py", "scripts/trade/clickhouse_orderfilled_writer.py";
    assert demo[0] == 's' && market[0] == 's' && trade[0] == 's' && writer[0] == 's';
    assert p == demo || p == market || p == trade || p == writer;
  }

  lemma ExternalFileBegins(p: Path)
    requires p in EXTERNAL_RELEASE_FILES
    ensures |p| > 0 && p[0] in {'.', 'A', 'M', 'R', 's'}
  {
  }

  lemma SourceFileBegins(p: Path)
    requires p in GCP_SOURCE_FILES
    ensures |p| > 0 && p[0] in {'.', 'p', 's'}
  {
  }
}
