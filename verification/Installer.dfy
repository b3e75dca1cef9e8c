/** The SQL installer: which scripts it fetches, which of them it applies, and in what order. */
module Installer {
  import opened Rows
  import opened Versions

  /** A migration script: its name, which `Versions.ParseName` took apart. */
  type Script = ScriptName

  /** A row of `pgmq.__pgmq_migrations`. */
  datatype Applied = Applied(name: string, version: Version)

  /** What the scripts run so far have made of the schema. A migration script that runs on
      another schema than the one it upgrades leaves it `Corrupt`. */
  datatype Schema = Absent | At(version: Version) | Corrupt

  datatype Database = Database(schema: Schema, applied: seq<Applied>)

  const FRESH: Database := Database(Absent, [])

  function InitScript(release: Version): Script {
    ScriptName(INIT_NAME, Version(0, 0, 0), release)
  }

  // ----- fetching: get_migration_scripts_from_dir and the GitHub fetcher -----

  function Filter(l: seq<Script>, keep: Script -> bool): seq<Script> {
    if l == [] then [] else (if keep(l[0]) then [l[0]] else []) + Filter(l[1..], keep)
  }

  /** The init script, then the scripts at or above the installed version; with nothing observed, at or
      above the release's own version. */
  function Fetch(dir: seq<Script>, release: Version, installed: Option<Version>): seq<Script> {
    var current := if installed.Some? then installed.value else release;
    [InitScript(release)] + Filter(dir, (s: Script) => AtMost(current, s.from))
  }

  // ----- filter_unapplied_scripts: filter, then a stable sort by `from` -----

  predicate IsApplied(applied: seq<Applied>, name: string) {
    exists i | 0 <= i < |applied| :: applied[i].name == name
  }

  function Place(x: Script, l: seq<Script>): seq<Script> {
    if l == [] || AtMost(x.from, l[0].from) then [x] + l else [l[0]] + Place(x, l[1..])
  }

  function SortByFrom(l: seq<Script>): seq<Script> {
    if l == [] then [] else Place(l[0], SortByFrom(l[1..]))
  }

  function Unapplied(available: seq<Script>, applied: seq<Applied>): seq<Script> {
    SortByFrom(Filter(available, (s: Script) => !IsApplied(applied, s.original)))
  }

  /** `max_applied_version`. */
  function MaxApplied(applied: seq<Applied>): Option<Version> {
    if applied == [] then None
    else match MaxApplied(applied[1..])
      case None => Some(applied[0].version)
      case Some(v) => Some(if AtMost(v, applied[0].version) then applied[0].version else v)
  }

  /** Version `v` is recorded, and no recorded version is later. */
  ghost predicate IsHighest(applied: seq<Applied>, v: Version) {
    && (exists i :: 0 <= i < |applied| && applied[i].version == v)
    && forall i | 0 <= i < |applied| :: AtMost(applied[i].version, v)
  }

  /** Nothing is observed exactly on an empty table, and otherwise the highest version in any order. */
  lemma {:induction false} MaxAppliedIsHighest(applied: seq<Applied>)
    ensures match MaxApplied(applied)
            case None => applied == []
            case Some(v) => IsHighest(applied, v)
    decreases applied
  {
    if applied != [] {
      var rest := applied[1..];
      MaxAppliedIsHighest(rest);
      var first := applied[0].version;
      if rest == [] {
        assert IsHighest(applied, first);
      } else {
        var v := MaxApplied(rest).value;
        var i :| 0 <= i < |rest| && rest[i].version == v;
        assert applied[i + 1].version == v;
        forall k | 0 <= k < |applied|
          ensures AtMost(applied[k].version, MaxApplied(applied).value)
        {
          if k > 0 {
            assert AtMost(rest[k - 1].version, v);
            VersionOrderTotal(rest[k - 1].version, v, first);
          }
          VersionOrderTotal(first, v, first);
        }
      }
    }
  }

  // ----- applying -----

  /** Executing a script's SQL; `None` when it raises an error. The init script creates types and
      functions without `OR REPLACE`, which fails on a schema that has them. */
  function RunScript(schema: Schema, script: Script): Option<Schema> {
    if script.original == INIT_NAME then (if schema == Absent then Some(At(script.to)) else None)
    else Some(if schema == At(script.from) then At(script.to) else Corrupt)
  }

  /** Run each script and record it; `None` when a script fails, or when its name is already there
      (`name` is the primary key). */
  function ApplyAll(db: Database, scripts: seq<Script>): Option<Database>
    decreases scripts
  {
    if scripts == [] then Some(db)
    else match RunScript(db.schema, scripts[0])
      case None => None
      case Some(schema) =>
        if IsApplied(db.applied, scripts[0].original) then None
        else ApplyAll(Database(schema, db.applied + [Applied(scripts[0].original, scripts[0].to)]), scripts[1..])
  }

  /** The whole apply transaction; a failure rolls everything back. */
  function Install(db: Database, dir: seq<Script>, release: Version, observed: Option<Version>): Database {
    match ApplyAll(db, Unapplied(Fetch(dir, release, observed), db.applied))
    case Some(done) => done
    case None => db
  }

  /** The database an installer works on. */
  class Target {
    var db: Database

    constructor ()
      ensures db == FRESH
    {
      db := FRESH;
    }

    /** `apply_scripts`: one transaction around the loop. */
    method ApplyScripts(available: seq<Script>) returns (committed: bool)
      modifies this
      ensures committed == ApplyAll(old(db), Unapplied(available, old(db).applied)).Some?
      ensures db == if committed then ApplyAll(old(db), Unapplied(available, old(db).applied)).value else old(db)
    {
      var toApply := Unapplied(available, db.applied);
      var schema, applied := db.schema, db.applied;
      var i := 0;
      while i < |toApply|
        invariant 0 <= i <= |toApply| && db == old(db)
        invariant ApplyAll(db, toApply) == ApplyAll(Database(schema, applied), toApply[i..])
      {
        assert toApply[i..][1..] == toApply[i + 1..];
        var ran := RunScript(schema, toApply[i]);
        if ran.None? { return false; }
        schema := ran.value;
        if IsApplied(applied, toApply[i].original) { return false; }
        applied := applied + [Applied(toApply[i].original, toApply[i].to)];
        i := i + 1;
      }
      assert toApply[i..] == [];
      db := Database(schema, applied);
      committed := true;
    }

    /** `init_migrations_table`: record the version that an older installer left behind. */
    method InitMigrationsTable(version: Version)
      modifies this
      ensures db == if old(db).applied == [] then old(db).(applied := [Applied(INIT_NAME, version)]) else old(db)
    {
      if db.applied != [] { return; }
      db := db.(applied := [Applied(INIT_NAME, version)]);
    }

    /** The observing transaction of `install_sql_from_github`. */
    method Observe() returns (installed: Option<Version>)
      ensures installed == MaxApplied(db.applied)
      ensures installed.None? <==> db.applied == []
      ensures installed.Some? ==> IsHighest(db.applied, installed.value)
    {
      installed := MaxApplied(db.applied);
      MaxAppliedIsHighest(db.applied);
    }

    /** The applying transaction of `install_sql_from_github`, after the network fetch. */
    method ApplyFetched(dir: seq<Script>, release: Version, observed: Option<Version>)
      modifies this
      ensures db == Install(old(db), dir, release, observed)
    {
      var committed := ApplyScripts(Fetch(dir, release, observed));
    }

    /** `install_sql_from_embedded`: nothing is observed before the fetch. */
    method InstallFromEmbedded(dir: seq<Script>, release: Version)
      modifies this
      ensures db == Install(old(db), dir, release, None)
    {
      var committed := ApplyScripts(Fetch(dir, release, None));
    }
  }

  // ----- what is fetched, selected and applied -----

  /** The scripts that are fetched: the init script first, then those of the directory from the observed
      version on, or from the release's own when nothing is observed, in the order of the directory. */
  lemma FetchExactly(dir: seq<Script>, release: Version, installed: Option<Version>, x: Script)
    ensures var l := Fetch(dir, release, installed);
            && l != [] && l[0] == ScriptName("pgmq.sql", Version(0, 0, 0), release)
            && multiset(l[1..])[x]
               == if Compare(if installed.Some? then installed.value else release, x.from) <= 0
                  then multiset(dir)[x] else 0
  {
    var current := if installed.Some? then installed.value else release;
    FilterCount(dir, (s: Script) => AtMost(current, s.from), x);
    assert Fetch(dir, release, installed)[1..] == Filter(dir, (s: Script) => AtMost(current, s.from));
  }

  lemma {:induction false} FilterCount(l: seq<Script>, keep: Script -> bool, x: Script)
    ensures multiset(Filter(l, keep))[x] == if keep(x) then multiset(l)[x] else 0
    decreases l
  {
    if l != [] {
      FilterCount(l[1..], keep, x);
      assert l == [l[0]] + l[1..];
    }
  }

  /** The scripts left to apply are those available whose name is not recorded, each as often as it is
      available, sorted by the version they start from. */
  lemma UnappliedExactly(available: seq<Script>, applied: seq<Applied>, x: Script)
    ensures Ordered(Unapplied(available, applied))
    ensures multiset(Unapplied(available, applied))[x]
         == if exists i :: 0 <= i < |applied| && applied[i].name == x.original then 0 else multiset(available)[x]
  {
    var missing := (s: Script) => !IsApplied(applied, s.original);
    var kept := Filter(available, missing);
    FilterCount(available, missing, x);
    SortOrdered(kept);
    SortMembers(kept);
    assert Unapplied(available, applied) == SortByFrom(kept);
  }

  /** When the init script is to be applied, it comes first. */
  lemma InitRunsFirst(dir: seq<Script>, release: Version, installed: Option<Version>, applied: seq<Applied>)
    requires !IsApplied(applied, INIT_NAME)
    ensures var l := Unapplied(Fetch(dir, release, installed), applied); l != [] && l[0] == InitScript(release)
  {
    var missing := (s: Script) => !IsApplied(applied, s.original);
    var kept := Filter(Fetch(dir, release, installed), missing);
    assert Unapplied(Fetch(dir, release, installed), applied) == SortByFrom(kept);
    assert kept[0] == InitScript(release);
    LowestFirst(kept[0], SortByFrom(kept[1..]));
  }

  lemma LowestFirst(x: Script, l: seq<Script>)
    requires x.from == Version(0, 0, 0)
    ensures Place(x, l)[0] == x
  {
  }

  /** No two scripts have one name, and none is recorded. */
  ghost predicate NewNames(scripts: seq<Script>, applied: seq<Applied>) {
    && (forall i | 0 <= i < |scripts| :: !IsApplied(applied, scripts[i].original))
    && forall i, j | 0 <= i < j < |scripts| :: scripts[i].original != scripts[j].original
  }

  /** The init script is at most the first one, and needs that the schema is not there. */
  ghost predicate InitFits(schema: Schema, scripts: seq<Script>) {
    forall i | 0 <= i < |scripts| && scripts[i].original == "pgmq.sql" :: i == 0 && schema == Absent
  }

  function Records(scripts: seq<Script>): seq<Applied> {
    if scripts == [] then [] else [Applied(scripts[0].original, scripts[0].to)] + Records(scripts[1..])
  }

  /** The apply transaction succeeds exactly when all names are new and the init script, if any, comes first
      on an absent schema; then it has recorded every script in order behind the rows that were there. */
  lemma {:induction false} ApplyExactly(db: Database, scripts: seq<Script>)
    ensures ApplyAll(db, scripts).Some? <==> NewNames(scripts, db.applied) && InitFits(db.schema, scripts)
    ensures ApplyAll(db, scripts).Some? ==> ApplyAll(db, scripts).value.applied == db.applied + Records(scripts)
    decreases scripts
  {
    if scripts == [] {
      assert db.applied + [] == db.applied;
    } else {
      var s, rest := scripts[0], scripts[1..];
      var ran := RunScript(db.schema, s);
      if ran.Some? && !IsApplied(db.applied, s.original) {
        var row := Applied(s.original, s.to);
        var next := Database(ran.value, db.applied + [row]);
        ApplyExactly(next, rest);
        FirstIsNew(db.schema, ran.value, db.applied, scripts);
        assert db.applied + [row] + Records(rest) == db.applied + ([row] + Records(rest));
      } else {
        assert scripts[0] == s;
      }
    }
  }

  lemma NameAppended(applied: seq<Applied>, row: Applied, name: string)
    ensures IsApplied(applied + [row], name) <==> IsApplied(applied, name) || row.name == name
  {
    var all := applied + [row];
    if i :| 0 <= i < |applied| && applied[i].name == name { assert all[i].name == name; }
    if row.name == name { assert all[|applied|].name == name; }
  }

  lemma FirstIsNew(schema: Schema, ran: Schema, applied: seq<Applied>, scripts: seq<Script>)
    requires scripts != [] && RunScript(schema, scripts[0]) == Some(ran) && !IsApplied(applied, scripts[0].original)
    ensures var rows := applied + [Applied(scripts[0].original, scripts[0].to)];
            NewNames(scripts, applied) && InitFits(schema, scripts)
            <==> NewNames(scripts[1..], rows) && InitFits(ran, scripts[1..])
  {
    var s, rest, row := scripts[0], scripts[1..], Applied(scripts[0].original, scripts[0].to);
    forall i | 0 <= i < |rest| ensures rest[i] == scripts[i + 1] {}
    forall name ensures IsApplied(applied + [row], name) <==> IsApplied(applied, name) || row.name == name {
      NameAppended(applied, row, name);
    }
    RestNames(applied, row, scripts);
    RestInit(schema, ran, scripts);
  }

  lemma RestNames(applied: seq<Applied>, row: Applied, scripts: seq<Script>)
    requires scripts != [] && row.name == scripts[0].original && !IsApplied(applied, row.name)
    requires forall name :: IsApplied(applied + [row], name) <==> IsApplied(applied, name) || row.name == name
    ensures NewNames(scripts, applied) <==> NewNames(scripts[1..], applied + [row])
  {
    var rest := scripts[1..];
    if NewNames(rest, applied + [row]) {
      forall i | 0 <= i < |scripts| ensures !IsApplied(applied, scripts[i].original) {
        if i > 0 { assert scripts[i] == rest[i - 1]; }
      }
      forall i, j | 0 <= i < j < |scripts| ensures scripts[i].original != scripts[j].original {
        assert scripts[j] == rest[j - 1] && !IsApplied(applied + [row], rest[j - 1].original);
        if i > 0 { assert scripts[i] == rest[i - 1]; }
      }
    }
  }

  lemma RestInit(schema: Schema, ran: Schema, scripts: seq<Script>)
    requires scripts != [] && RunScript(schema, scripts[0]) == Some(ran)
    ensures InitFits(schema, scripts) <==> InitFits(ran, scripts[1..])
  {
    var rest := scripts[1..];
    assert forall i | 0 < i < |scripts| :: scripts[i] == rest[i - 1];
    assert forall i | 0 <= i < |rest| :: rest[i] == scripts[i + 1];
  }

  // ----- sorting and filtering -----

  predicate Ordered(l: seq<Script>) {
    |l| <= 1 || (AtMost(l[0].from, l[1].from) && Ordered(l[1..]))
  }

  lemma {:induction false} PlaceOrdered(x: Script, l: seq<Script>)
    requires Ordered(l)
    ensures Ordered(Place(x, l))
    decreases l
  {
    if l == [] || AtMost(x.from, l[0].from) {
      assert Place(x, l)[1..] == l;
    } else {
      PlaceOrdered(x, l[1..]);
      VersionOrderTotal(x.from, l[0].from, x.from);
      assert Place(x, l)[1..] == Place(x, l[1..]);
    }
  }

  lemma {:induction false} SortOrdered(l: seq<Script>)
    ensures Ordered(SortByFrom(l))
    decreases l
  {
    if l != [] {
      SortOrdered(l[1..]);
      PlaceOrdered(l[0], SortByFrom(l[1..]));
    }
  }

  lemma {:induction false} FilterHead(x: Script, l: seq<Script>, keep: Script -> bool)
    requires Ordered(l) && (l == [] || AtMost(x.from, l[0].from))
    ensures var f := Filter(l, keep); f == [] || AtMost(x.from, f[0].from)
    decreases l
  {
    if l != [] && !keep(l[0]) {
      if |l| > 1 { VersionOrderTotal(x.from, l[0].from, l[1].from); }
      FilterHead(x, l[1..], keep);
    }
  }

  lemma {:induction false} FilterPlace(x: Script, l: seq<Script>, keep: Script -> bool)
    requires Ordered(l)
    ensures Filter(Place(x, l), keep) == if keep(x) then Place(x, Filter(l, keep)) else Filter(l, keep)
    decreases l
  {
    if l == [] || AtMost(x.from, l[0].from) {
      assert Place(x, l)[1..] == l;
      FilterHead(x, l, keep);
    } else {
      assert Place(x, l)[1..] == Place(x, l[1..]);
      FilterPlace(x, l[1..], keep);
      if keep(l[0]) {
        assert Filter(l, keep)[1..] == Filter(l[1..], keep);
      } else {
        assert Filter(l, keep) == Filter(l[1..], keep);
        assert Filter(Place(x, l), keep) == Filter(Place(x, l[1..]), keep);
      }
    }
  }

  lemma {:induction false} PlaceMembers(x: Script, l: seq<Script>)
    ensures multiset(Place(x, l)) == multiset{x} + multiset(l)
    decreases l
  {
    if l != [] && !AtMost(x.from, l[0].from) {
      PlaceMembers(x, l[1..]);
      assert [l[0]] + l[1..] == l;
    } else {
      assert multiset([x] + l) == multiset{x} + multiset(l);
    }
  }

  lemma {:induction false} SortMembers(l: seq<Script>)
    ensures multiset(SortByFrom(l)) == multiset(l)
    decreases l
  {
    if l != [] {
      SortMembers(l[1..]);
      PlaceMembers(l[0], SortByFrom(l[1..]));
      assert [l[0]] + l[1..] == l;
    }
  }

  lemma {:induction false} SortOfEqual(l: seq<Script>, v: Version)
    requires forall s | s in l :: s.from == v
    ensures SortByFrom(l) == l
    decreases l
  {
    if l != [] {
      SortOfEqual(l[1..], v);
      if |l| > 1 { assert l[1] in l && l[0] in l; }
      assert [l[0]] + l[1..] == l;
    }
  }

  lemma {:induction false} FilterKeeps(l: seq<Script>, keep: Script -> bool)
    ensures forall s | s in Filter(l, keep) :: keep(s)
    decreases l
  {
    if l != [] { FilterKeeps(l[1..], keep); }
  }

  /** The sort is a sort, loses and invents nothing, and keeps scripts with the same `from` in place. */
  lemma SortIsStable(l: seq<Script>, v: Version)
    ensures Ordered(SortByFrom(l)) && multiset(SortByFrom(l)) == multiset(l)
    ensures var same := (s: Script) => s.from == v; Filter(SortByFrom(l), same) == Filter(l, same)
  {
    var same := (s: Script) => s.from == v;
    SortOrdered(l);
    SortMembers(l);
    SortFiltered(l, same);
    FilterKeeps(l, same);
    SortOfEqual(Filter(l, same), v);
  }

  /** Filtering before the stable sort is filtering after it. */
  lemma {:induction false} SortFiltered(l: seq<Script>, keep: Script -> bool)
    ensures SortByFrom(Filter(l, keep)) == Filter(SortByFrom(l), keep)
    decreases l
  {
    if l != [] {
      SortFiltered(l[1..], keep);
      SortOrdered(l[1..]);
      FilterPlace(l[0], SortByFrom(l[1..]), keep);
      if keep(l[0]) {
        assert Filter(l, keep)[1..] == Filter(l[1..], keep);
      } else {
        assert Filter(l, keep) == Filter(l[1..], keep);
      }
    }
  }
}
