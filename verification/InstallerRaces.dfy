/** Any number of installers, of any releases, racing on one database: each observes in one transaction
    and applies in a later one, with other installers' transactions in between. */
module InstallerRaces {
  import opened Rows
  import opened Versions
  import opened Installer
  import opened UpgradePath

  /** An installer between its two transactions. */
  datatype Pending = Pending(dir: seq<Script>, k: nat, observed: Option<Version>)

  datatype System = System(db: Database, pending: map<nat, Pending>)

  datatype Move =
    | Look(id: nat, dir: seq<Script>, k: nat)
    | Commit(id: nat)
    | Embedded(dir: seq<Script>, k: nat)

  ghost predicate Possible(path: seq<Script>, s: System, move: Move) {
    match move
    case Look(id, dir, k) => id !in s.pending && Release(path, dir, k)
    case Commit(id) => id in s.pending && Release(path, s.pending[id].dir, s.pending[id].k)
    case Embedded(dir, k) => Release(path, dir, k)
  }

  function Advance(path: seq<Script>, s: System, move: Move): System
    requires Possible(path, s, move)
  {
    match move
    case Look(id, dir, k) => s.(pending := s.pending[id := Pending(dir, k, MaxApplied(s.db.applied))])
    case Commit(id) =>
      var p := s.pending[id];
      System(Install(s.db, p.dir, VersionAt(path, p.k), p.observed), s.pending - {id})
    case Embedded(dir, k) => s.(db := Install(s.db, dir, VersionAt(path, k), None))
  }

  ghost predicate Race(path: seq<Script>, s: System, moves: seq<Move>)
    decreases moves
  {
    moves == [] || (Possible(path, s, moves[0]) && Race(path, Advance(path, s, moves[0]), moves[1..]))
  }

  ghost function After(path: seq<Script>, s: System, moves: seq<Move>): System
    requires Race(path, s, moves)
    decreases moves
  {
    if moves == [] then s else After(path, Advance(path, s, moves[0]), moves[1..])
  }

  // ----- the invariant -----

  ghost predicate ObservedBetween(path: seq<Script>, observed: Option<Version>, i: nat, j: nat)
    requires |path| >= 1 && i <= j <= |path|
  {
    observed == None || exists o :: i <= o <= j && observed == Some(VersionAt(path, o))
  }

  ghost predicate Settled(path: seq<Script>, s: System, i: nat, j: nat) {
    && Installed(path, s.db, i, j)
    && forall id | id in s.pending :: ObservedBetween(path, s.pending[id].observed, i, j)
  }

  ghost predicate Untouched(s: System) {
    s.db == FRESH && forall id | id in s.pending :: s.pending[id].observed == None
  }

  ghost predicate Consistent(path: seq<Script>, s: System) {
    Untouched(s) || exists i, j :: Settled(path, s, i, j)
  }

  lemma CommitUntouched(path: seq<Script>, s: System, move: Move)
    requires Path(path) && Untouched(s) && Possible(path, s, move)
    ensures Consistent(path, Advance(path, s, move))
  {
    match move
    case Look(id, dir, k) =>
    case Commit(id) =>
      var k := s.pending[id].k;
      FreshInstall(path, s.pending[id].dir, k);
      assert Settled(path, Advance(path, s, move), k, k);
    case Embedded(dir, k) =>
      FreshInstall(path, dir, k);
      assert Settled(path, Advance(path, s, move), k, k);
  }

  lemma WiderObservation(path: seq<Script>, observed: Option<Version>, i: nat, j: nat, k: nat)
    requires |path| >= 1 && i <= j <= k <= |path| && ObservedBetween(path, observed, i, j)
    ensures ObservedBetween(path, observed, i, k)
  {
    if observed != None {
      var o :| i <= o <= j && observed == Some(VersionAt(path, o));
      assert i <= o <= k;
    }
  }

  /** What one commit does to an installed database, whatever happened since its observation. */
  lemma CommitSettled(path: seq<Script>, s: System, i: nat, j: nat, id: nat)
    requires Settled(path, s, i, j) && Possible(path, s, Commit(id))
    ensures var p := s.pending[id];
            var end := if p.observed.Some? && j <= p.k then p.k else j;
            Settled(path, Advance(path, s, Commit(id)), i, end)
  {
    var p := s.pending[id];
    assert ObservedBetween(path, p.observed, i, j);
    var end := if p.observed.Some? && j <= p.k then p.k else j;
    if p.observed == None {
      UnobservedInstall(path, s.db, i, j, p.dir, p.k);
    } else {
      var o :| i <= o <= j && p.observed == Some(VersionAt(path, o));
      UpgradeInstall(path, s.db, i, j, p.dir, p.k, o);
    }
    forall other | other in s.pending ensures ObservedBetween(path, s.pending[other].observed, i, end) {
      WiderObservation(path, s.pending[other].observed, i, j, end);
    }
  }

  lemma AdvanceConsistent(path: seq<Script>, s: System, move: Move)
    requires Path(path) && Consistent(path, s) && Possible(path, s, move)
    ensures Consistent(path, Advance(path, s, move))
  {
    if Untouched(s) {
      CommitUntouched(path, s, move);
    } else {
      var i, j :| Settled(path, s, i, j);
      match move
      case Look(id, dir, k) =>
        ObservedIsCurrent(path, s.db, i, j);
        assert ObservedBetween(path, MaxApplied(s.db.applied), i, j);
        assert Settled(path, Advance(path, s, move), i, j);
      case Commit(id) => CommitSettled(path, s, i, j, id);
      case Embedded(dir, k) =>
        UnobservedInstall(path, s.db, i, j, dir, k);
        assert Settled(path, Advance(path, s, move), i, j);
    }
  }

  lemma {:induction false} RaceConsistent(path: seq<Script>, s: System, moves: seq<Move>)
    requires Path(path) && Consistent(path, s) && Race(path, s, moves)
    ensures Consistent(path, After(path, s, moves))
    decreases moves
  {
    if moves != [] {
      AdvanceConsistent(path, s, moves[0]);
      RaceConsistent(path, Advance(path, s, moves[0]), moves[1..]);
    }
  }

  // ----- what every race guarantees -----

  predicate NamesUnique(l: seq<Applied>) {
    l == [] || (!IsApplied(l[1..], l[0].name) && NamesUnique(l[1..]))
  }

  lemma {:induction false} UpgradesUnique(path: seq<Script>, i: nat, j: nat)
    requires Path(path) && i <= j <= |path|
    ensures NamesUnique(Upgrades(path, i, j)) && !IsApplied(Upgrades(path, i, j), INIT_NAME)
    decreases j - i
  {
    if i < j {
      UpgradesUnique(path, i + 1, j);
      UpgradeNames(path, i + 1, j, i);
      AppliedCons(Applied(path[i].original, path[i].to), Upgrades(path, i + 1, j), INIT_NAME);
      assert Upgrades(path, i, j)[1..] == Upgrades(path, i + 1, j);
    }
  }

  /** However installers race on a fresh or an installed database, each script runs only on the schema
      version it upgrades (the schema is never corrupt), and the applied names stay unique and form the
      init script followed by an unbroken chain of scripts that ends at the schema's version. */
  lemma RacesKeepTheChain(path: seq<Script>, db: Database, moves: seq<Move>)
    requires Path(path) && (db == FRESH || exists i, j :: Installed(path, db, i, j))
    requires Race(path, System(db, map[]), moves)
    ensures var after := After(path, System(db, map[]), moves).db;
            && after.schema != Corrupt && NamesUnique(after.applied)
            && (after == FRESH || exists i, j :: Installed(path, after, i, j))
  {
    var s := System(db, map[]);
    if db != FRESH {
      var i, j :| Installed(path, db, i, j);
      assert Settled(path, s, i, j);
    }
    RaceConsistent(path, s, moves);
    var last := After(path, s, moves);
    if !Untouched(last) {
      var i, j :| Settled(path, last, i, j);
      UpgradesUnique(path, i, j);
      assert last.db.applied[1..] == Upgrades(path, i, j);
    }
  }

  /** Whoever commits first on a fresh database ends at their release. */
  lemma FreshEndsAtRelease(path: seq<Script>, s: System, id: nat)
    requires Path(path) && Untouched(s) && Possible(path, s, Commit(id))
    ensures Advance(path, s, Commit(id)).db.schema == At(VersionAt(path, s.pending[id].k))
  {
    FreshInstall(path, s.pending[id].dir, s.pending[id].k);
  }

  /** On an installed database an installer ends at its release exactly when the database is there
      already, or is not ahead of it and the installer has observed some version, current or stale. */
  lemma EndsAtReleaseIff(path: seq<Script>, s: System, i: nat, j: nat, id: nat)
    requires Settled(path, s, i, j) && Possible(path, s, Commit(id))
    ensures Advance(path, s, Commit(id)).db.schema == At(VersionAt(path, s.pending[id].k))
       <==> j == s.pending[id].k || (s.pending[id].observed.Some? && j <= s.pending[id].k)
  {
    var k := s.pending[id].k;
    CommitSettled(path, s, i, j, id);
    if k != j {
      VersionsOrdered(path, k, j);
      VersionsOrdered(path, j, k);
    }
  }

  /** Observing and installing the same release again changes nothing. */
  lemma RepeatChangesNothing(path: seq<Script>, db: Database, i: nat, j: nat, dir: seq<Script>, k: nat)
    requires Installed(path, db, i, j) && Release(path, dir, k)
    ensures var once := Install(db, dir, VersionAt(path, k), MaxApplied(db.applied));
            Install(once, dir, VersionAt(path, k), MaxApplied(once.applied)) == once
  {
    var once := Install(db, dir, VersionAt(path, k), MaxApplied(db.applied));
    var end := if j <= k then k else j;
    ObservedIsCurrent(path, db, i, j);
    UpgradeInstall(path, db, i, j, dir, k, j);
    ObservedIsCurrent(path, once, i, end);
    UpgradeInstall(path, once, i, end, dir, k, end);
  }

  // ----- databases installed before versions were tracked -----

  /** Recording the old version first makes such a database one that upgrades safely. */
  lemma BaselineIsInstalled(path: seq<Script>, i: nat)
    requires Path(path) && i <= |path|
    ensures Installed(path, Database(At(VersionAt(path, i)), [Applied(INIT_NAME, VersionAt(path, i))]), i, i)
  {
    assert Upgrades(path, i, i) == [];
  }

  /** Scripts that contain the init script fail on a schema that is already there. */
  lemma {:induction false} InitNeedsAbsent(db: Database, scripts: seq<Script>)
    requires db.schema != Absent && exists i :: 0 <= i < |scripts| && scripts[i].original == INIT_NAME
    ensures ApplyAll(db, scripts) == None
    decreases scripts
  {
    var i :| 0 <= i < |scripts| && scripts[i].original == INIT_NAME;
    var s, rest := scripts[0], scripts[1..];
    if s.original != INIT_NAME && !IsApplied(db.applied, s.original) {
      assert rest[i - 1].original == INIT_NAME;
      InitNeedsAbsent(Database(RunScript(db.schema, s).value, db.applied + [Applied(s.original, s.to)]), rest);
    }
  }

  lemma InitIsSelected(dir: seq<Script>, release: Version, observed: Option<Version>, applied: seq<Applied>)
    requires !IsApplied(applied, INIT_NAME)
    ensures var l := Unapplied(Fetch(dir, release, observed), applied);
            exists i :: 0 <= i < |l| && l[i].original == INIT_NAME
  {
    var missing := (s: Script) => !IsApplied(applied, s.original);
    var kept := Filter(Fetch(dir, release, observed), missing);
    assert Unapplied(Fetch(dir, release, observed), applied) == SortByFrom(kept);
    assert kept[0] == InitScript(release);
    SortKeeps(kept, InitScript(release));
  }

  lemma SortKeeps(l: seq<Script>, x: Script)
    requires x in l
    ensures exists i :: 0 <= i < |SortByFrom(l)| && SortByFrom(l)[i].original == x.original
  {
    SortMembers(l);
    assert x in multiset(l);
    assert x in SortByFrom(l);
  }

  /** Without such a record every installer fails on an existing schema, whatever it fetched and observed:
      its transaction is rolled back, and schema and migrations table stay as they are. */
  lemma UntrackedIsLeftAlone(db: Database, dir: seq<Script>, release: Version, observed: Option<Version>)
    requires db.schema != Absent && !IsApplied(db.applied, INIT_NAME)
    ensures ApplyAll(db, Unapplied(Fetch(dir, release, observed), db.applied)) == None
    ensures Install(db, dir, release, observed) == db
  {
    InitIsSelected(dir, release, observed, db.applied);
    InitNeedsAbsent(db, Unapplied(Fetch(dir, release, observed), db.applied));
  }

  /** A database at the `i`-th version that an older installer left, with its version on record or not. */
  function Untracked(path: seq<Script>, i: nat, recorded: bool): Database
    requires |path| >= 1 && i <= |path|
  {
    Database(At(VersionAt(path, i)), if recorded then [Applied(INIT_NAME, VersionAt(path, i))] else [])
  }

  /** An installer that observes the database and fetches for what it has observed succeeds on a schema of
      the path, and takes it to a release that is not behind, exactly when the old version is on record. */
  lemma BaselineDecides(path: seq<Script>, i: nat, recorded: bool, dir: seq<Script>, k: nat)
    requires Release(path, dir, k) && i <= k
    ensures var db := Untracked(path, i, recorded);
            var after := Install(db, dir, VersionAt(path, k), MaxApplied(db.applied));
            && (recorded <==>
                  ApplyAll(db, Unapplied(Fetch(dir, VersionAt(path, k), MaxApplied(db.applied)), db.applied)).Some?)
            && (after.schema == At(VersionAt(path, k)) <==> recorded || i == k)
  {
    var db := Untracked(path, i, recorded);
    if recorded {
      BaselineIsInstalled(path, i);
      ObservedIsCurrent(path, db, i, i);
      UpgradeInstall(path, db, i, i, dir, k, i);
      UpgradeSelection(path, db, i, i, dir, k, i);
      ApplySuffix(path, db, i, i, k);
    } else {
      UntrackedIsLeftAlone(db, dir, VersionAt(path, k), MaxApplied(db.applied));
      if i < k { VersionsIncrease(path, i, k); }
    }
  }
}
