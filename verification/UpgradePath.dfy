/** Installing and upgrading along the single upgrade path that the migration scripts form, also
    when several installers race between the observing and the applying transaction. */
module UpgradePath {
  import opened Rows
  import opened Versions
  import opened Installer

  /** The single upgrade path: every script upgrades, and starts where the one before it ends. File
      names are distinct, and none is the init script's (`Versions.InitNameIsNotParsed`). */
  ghost predicate Path(path: seq<Script>) {
    && |path| >= 1
    && (forall i | 0 <= i < |path| :: Compare(path[i].from, path[i].to) < 0 && path[i].original != INIT_NAME)
    && (forall i, j | 0 <= i < j < |path| :: path[i].original != path[j].original)
    && (forall i | 0 < i < |path| :: path[i].from == path[i - 1].to)
  }

  /** The `k`-th version on the path. */
  function VersionAt(path: seq<Script>, k: nat): Version
    requires |path| >= 1 && k <= |path|
  {
    if k == 0 then path[0].from else path[k - 1].to
  }

  /** A release whose sorted script directory is the first `k` scripts of the path and whose init
      script installs the `k`-th version. */
  ghost predicate Release(path: seq<Script>, dir: seq<Script>, k: nat) {
    Path(path) && k <= |path| && SortByFrom(dir) == path[..k]
  }

  lemma {:induction false} VersionsIncrease(path: seq<Script>, i: nat, j: nat)
    requires Path(path) && i < j <= |path|
    ensures Compare(VersionAt(path, i), VersionAt(path, j)) < 0
    decreases j
  {
    var last := path[j - 1];
    assert VersionAt(path, j - 1) == last.from;
    if i < j - 1 {
      VersionsIncrease(path, i, j - 1);
      VersionOrderTotal(VersionAt(path, i), last.from, last.to);
      VersionOrderTotal(last.to, VersionAt(path, i), last.from);
    }
  }

  lemma VersionsOrdered(path: seq<Script>, i: nat, j: nat)
    requires Path(path) && i <= |path| && j <= |path|
    ensures AtMost(VersionAt(path, i), VersionAt(path, j)) <==> i <= j
  {
    VersionOrderTotal(VersionAt(path, i), VersionAt(path, j), VersionAt(path, i));
    if i < j { VersionsIncrease(path, i, j); } else if j < i { VersionsIncrease(path, j, i); }
  }

  // ----- the databases that installers produce -----

  /** The rows of the scripts from the `i`-th to the `j`-th version. */
  function Upgrades(path: seq<Script>, i: nat, j: nat): seq<Applied>
    requires j <= |path|
    decreases j - i
  {
    if i >= j then [] else [Applied(path[i].original, path[i].to)] + Upgrades(path, i + 1, j)
  }

  /** First installed at the `i`-th version, now at the `j`-th: the applied names are the init script and
      then an unbroken chain of scripts. */
  ghost predicate Installed(path: seq<Script>, db: Database, i: nat, j: nat) {
    && Path(path) && i <= j <= |path|
    && db.schema == At(VersionAt(path, j))
    && db.applied == [Applied(INIT_NAME, VersionAt(path, i))] + Upgrades(path, i, j)
  }

  lemma {:induction false} UpgradesExtend(path: seq<Script>, i: nat, j: nat)
    requires i <= j < |path|
    ensures Upgrades(path, i, j) + [Applied(path[j].original, path[j].to)] == Upgrades(path, i, j + 1)
    decreases j - i
  {
    var row := [Applied(path[j].original, path[j].to)];
    if i < j {
      UpgradesExtend(path, i + 1, j);
      assert Upgrades(path, i, j) + row == [Applied(path[i].original, path[i].to)] + (Upgrades(path, i + 1, j) + row);
    } else {
      assert Upgrades(path, i + 1, j + 1) == [];
    }
  }

  lemma AppliedCons(row: Applied, l: seq<Applied>, name: string)
    ensures IsApplied([row] + l, name) <==> row.name == name || IsApplied(l, name)
  {
    var all := [row] + l;
    if IsApplied(l, name) {
      var x :| 0 <= x < |l| && l[x].name == name;
      assert all[x + 1].name == name;
    }
    if row.name == name { assert all[0].name == name; }
  }

  lemma {:induction false} UpgradeNames(path: seq<Script>, i: nat, j: nat, m: nat)
    requires Path(path) && i <= j <= |path| && m < |path|
    ensures IsApplied(Upgrades(path, i, j), path[m].original) <==> i <= m < j
    decreases j - i
  {
    if i < j {
      AppliedCons(Applied(path[i].original, path[i].to), Upgrades(path, i + 1, j), path[m].original);
      UpgradeNames(path, i + 1, j, m);
    }
  }

  lemma AppliedNames(path: seq<Script>, db: Database, i: nat, j: nat, m: nat)
    requires Installed(path, db, i, j) && m < |path|
    ensures IsApplied(db.applied, path[m].original) <==> i <= m < j
    ensures IsApplied(db.applied, INIT_NAME)
  {
    var init := Applied(INIT_NAME, VersionAt(path, i));
    AppliedCons(init, Upgrades(path, i, j), path[m].original);
    AppliedCons(init, Upgrades(path, i, j), INIT_NAME);
    UpgradeNames(path, i, j, m);
  }

  lemma MaxCons(row: Applied, l: seq<Applied>, v: Version)
    requires MaxApplied(l) == Some(v)
    ensures MaxApplied([row] + l) == Some(if AtMost(v, row.version) then row.version else v)
  {
    assert ([row] + l)[1..] == l;
  }

  lemma {:induction false} MaxUpgrade(path: seq<Script>, i: nat, j: nat)
    requires Path(path) && i < j <= |path|
    ensures MaxApplied(Upgrades(path, i, j)) == Some(VersionAt(path, j))
    decreases j - i
  {
    if i + 1 < j {
      MaxUpgrade(path, i + 1, j);
      VersionsOrdered(path, j, i + 1);
      MaxCons(Applied(path[i].original, path[i].to), Upgrades(path, i + 1, j), VersionAt(path, j));
    } else {
      assert Upgrades(path, i + 1, j) == [];
    }
  }

  /** The observed version of an installed database is the one its schema has. */
  lemma ObservedIsCurrent(path: seq<Script>, db: Database, i: nat, j: nat)
    requires Installed(path, db, i, j)
    ensures MaxApplied(db.applied) == Some(VersionAt(path, j))
  {
    if i < j {
      MaxUpgrade(path, i, j);
      VersionsOrdered(path, j, i);
      MaxCons(Applied(INIT_NAME, VersionAt(path, i)), Upgrades(path, i, j), VersionAt(path, j));
    } else {
      assert Upgrades(path, i, j) == [];
    }
  }

  // ----- one installer -----

  lemma {:induction false} FilterTwice(l: seq<Script>, f: Script -> bool, g: Script -> bool, both: Script -> bool)
    requires forall s :: both(s) <==> f(s) && g(s)
    ensures Filter(Filter(l, f), g) == Filter(l, both)
    decreases l
  {
    if l != [] {
      FilterTwice(l[1..], f, g, both);
      if f(l[0]) {
        assert Filter(l, f)[1..] == Filter(l[1..], f);
      } else {
        assert Filter(l, f) == Filter(l[1..], f);
      }
    }
  }

  lemma {:induction false} FilterSuffix(l: seq<Script>, from: nat, keep: Script -> bool)
    requires forall m | 0 <= m < |l| :: keep(l[m]) <==> from <= m
    ensures Filter(l, keep) == if from <= |l| then l[from..] else []
    decreases l
  {
    if l != [] {
      var f := if from == 0 then 0 else from - 1;
      forall m | 0 <= m < |l[1..]| ensures keep(l[1..][m]) <==> f <= m { assert l[1..][m] == l[m + 1]; }
      FilterSuffix(l[1..], f, keep);
      if from == 0 { assert l[0..] == l && [l[0]] + l[1..] == l; }
    }
  }

  /** What is left to apply from a release: with an observation that is not ahead of the database, the
      scripts from the database's version up to the release's. */
  lemma UpgradeSelection(path: seq<Script>, db: Database, i: nat, j: nat, dir: seq<Script>, k: nat, o: nat)
    requires Installed(path, db, i, j) && Release(path, dir, k) && i <= o <= j
    ensures Unapplied(Fetch(dir, VersionAt(path, k), Some(VersionAt(path, o))), db.applied)
         == if j <= k then path[j..k] else []
  {
    var release, current := VersionAt(path, k), VersionAt(path, o);
    var recent := (s: Script) => AtMost(current, s.from);
    var missing := (s: Script) => !IsApplied(db.applied, s.original);
    var both := (s: Script) => AtMost(current, s.from) && !IsApplied(db.applied, s.original);
    AppliedNames(path, db, i, j, 0);
    assert Filter([InitScript(release)] + Filter(dir, recent), missing) == Filter(Filter(dir, recent), missing) by {
      assert ([InitScript(release)] + Filter(dir, recent))[1..] == Filter(dir, recent);
    }
    FilterTwice(dir, recent, missing, both);
    SortFiltered(dir, both);
    var l := path[..k];
    forall m | 0 <= m < |l| ensures both(l[m]) <==> j <= m {
      AppliedNames(path, db, i, j, m);
      VersionsOrdered(path, o, m);
      assert l[m] == path[m] && VersionAt(path, m) == path[m].from;
    }
    FilterSuffix(l, j, both);
    if j <= k { assert l[j..] == path[j..k]; }
  }

  lemma FreshSelection(path: seq<Script>, dir: seq<Script>, k: nat, applied: seq<Applied>)
    requires Release(path, dir, k)
    ensures Unapplied(Fetch(dir, VersionAt(path, k), None), applied)
         == if IsApplied(applied, INIT_NAME) then [] else [InitScript(VersionAt(path, k))]
  {
    var release := VersionAt(path, k);
    var recent := (s: Script) => AtMost(release, s.from);
    var missing := (s: Script) => !IsApplied(applied, s.original);
    var l := path[..k];
    forall m | 0 <= m < |l| ensures recent(l[m]) <==> k <= m {
      VersionsOrdered(path, k, m);
      assert l[m] == path[m] && VersionAt(path, m) == path[m].from;
    }
    FilterSuffix(l, k, recent);
    SortFiltered(dir, recent);
    SortEmpty(Filter(dir, recent));
    assert Fetch(dir, release, None) == [InitScript(release)];
    assert [InitScript(release)][1..] == [];
    assert Filter([InitScript(release)], missing) == if missing(InitScript(release)) then [InitScript(release)] else [];
  }

  lemma SortEmpty(l: seq<Script>)
    ensures SortByFrom(l) == [] <==> l == []
  {
  }

  lemma {:induction false} ApplySuffix(path: seq<Script>, db: Database, i: nat, j: nat, k: nat)
    requires Installed(path, db, i, j) && j <= k <= |path|
    ensures var r := ApplyAll(db, path[j..k]); r.Some? && Installed(path, r.value, i, k)
    decreases k - j
  {
    if j < k {
      var s := path[j];
      var next := Database(RunScript(db.schema, s).value, db.applied + [Applied(s.original, s.to)]);
      AppliedNames(path, db, i, j, j);
      UpgradesExtend(path, i, j);
      assert VersionAt(path, j) == s.from;
      assert next.applied == [Applied(INIT_NAME, VersionAt(path, i))] + Upgrades(path, i, j + 1);
      assert path[j..k][1..] == path[j + 1..k] && path[j..k][0] == s;
      ApplySuffix(path, next, i, j + 1, k);
    }
  }

  /** A fresh database ends at the release's own version, by the init script alone. */
  lemma FreshInstall(path: seq<Script>, dir: seq<Script>, k: nat)
    requires Release(path, dir, k)
    ensures Installed(path, Install(FRESH, dir, VersionAt(path, k), None), k, k)
  {
    FreshSelection(path, dir, k, []);
    var init := InitScript(VersionAt(path, k));
    var done := Database(At(init.to), [Applied(INIT_NAME, init.to)]);
    assert ApplyAll(done, []) == Some(done);
    assert FRESH.applied + [Applied(init.original, init.to)] == done.applied;
    assert RunScript(FRESH.schema, init) == Some(done.schema) && !IsApplied(FRESH.applied, init.original);
    assert [init][1..] == [] && [init][0] == init;
    assert ApplyAll(FRESH, [init]) == ApplyAll(done, [init][1..]);
    assert Upgrades(path, k, k) == [];
  }

  /** An upgrade that passes an observed version ends at the later of the release's and the database's
      version, even when the observation is stale; when it is not ahead, nothing changes. */
  lemma UpgradeInstall(path: seq<Script>, db: Database, i: nat, j: nat, dir: seq<Script>, k: nat, o: nat)
    requires Installed(path, db, i, j) && Release(path, dir, k) && i <= o <= j
    ensures var after := Install(db, dir, VersionAt(path, k), Some(VersionAt(path, o)));
            Installed(path, after, i, if j <= k then k else j) && (k <= j ==> after == db)
  {
    UpgradeSelection(path, db, i, j, dir, k, o);
    if j <= k { ApplySuffix(path, db, i, j, k); }
  }

  /** Without an observation an installed database is left alone, whatever the release: the embedded
      installer, which never observes, ends at its release exactly when it was there already. */
  lemma UnobservedInstall(path: seq<Script>, db: Database, i: nat, j: nat, dir: seq<Script>, k: nat)
    requires Installed(path, db, i, j) && Release(path, dir, k)
    ensures var after := Install(db, dir, VersionAt(path, k), None);
            after == db && (after.schema == At(VersionAt(path, k)) <==> j == k)
  {
    FreshSelection(path, dir, k, db.applied);
    AppliedNames(path, db, i, j, 0);
    VersionsOrdered(path, j, k);
    VersionsOrdered(path, k, j);
    VersionOrderTotal(VersionAt(path, j), VersionAt(path, k), VersionAt(path, j));
  }
}
