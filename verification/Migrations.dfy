/**
  Schema bootstrap: how a database of unknown history is brought under alembic.

  A run of `bootstrap_schema` is a plan of separate transactions, decided by what it finds; a
  process may die between any two of them.  `Plan` and `Apply` are the specification; the class
  `Engine` probes, alters and stamps step by step.
*/
module Migrations {
  import Sequences

  datatype Legacy = Legacy(table: string, column: string, wantsIndex: bool)

  const LEGACY_COLUMNS: seq<Legacy> := [
    Legacy("users", "is_active", false),
    Legacy("users", "department", false),
    Legacy("users", "environment_access", false),
    Legacy("dashboards", "default_time_range", false),
    Legacy("dashboards", "template_variables", false),
    Legacy("monitors", "muted_until", false),
    Legacy("metric_rules", "tenant_id", true),
    Legacy("extracted_metrics", "tenant_id", true),
    Legacy("spans", "tenant_id", true)
  ]

  type Tables = map<string, set<string>>

  // `stamped`: alembic_version holds a row.  `tables` leaves alembic_version itself out.
  datatype Database = Database(tables: Tables, indexes: set<(string, string)>, stamped: bool)

  // The models of the code, which are also what the one migration builds.
  datatype Model = Model(tables: Tables, indexes: set<(string, string)>)

  ghost predicate LegacyInModel(m: Model) {
    forall l <- LEGACY_COLUMNS :: l.table in m.tables && l.column in m.tables[l.table]
                                  && (l.wantsIndex ==> (l.table, l.column) in m.indexes)
  }

  datatype Transaction =
    | AddColumn(l: Legacy)  // and its index, in the same transaction
    | CreateAll
    | UpgradeHead
    | StampHead

  function CreateMissing(db: Database, m: Model): Database {
    db.(tables := m.tables + db.tables,
        indexes := db.indexes + set i | i in m.indexes && i.0 !in db.tables)
  }

  function Apply(db: Database, m: Model, tx: Transaction): Database {
    match tx
    case AddColumn(l) =>
      if l.table !in db.tables then db
      else db.(tables := db.tables[l.table := db.tables[l.table] + {l.column}],
               indexes := if l.wantsIndex then db.indexes + {(l.table, l.column)} else db.indexes)
    case CreateAll => CreateMissing(db, m)
    // replays the baseline when there is no stamp, and has nothing to do at head
    case UpgradeHead => if db.stamped then db else CreateMissing(db, m).(stamped := true)
    case StampHead => db.(stamped := true)
  }

  function ApplyAll(db: Database, m: Model, txs: seq<Transaction>): Database {
    if txs == [] then db
    else Apply(ApplyAll(db, m, txs[..|txs| - 1]), m, txs[|txs| - 1])
  }

  // Each column is probed and added on its own; a missing table is left to create_all.
  predicate NeedsRepair(db: Database, l: Legacy) {
    l.table in db.tables && l.column !in db.tables[l.table]
  }

  function Repairs(db: Database, ls: seq<Legacy>): seq<Transaction> {
    if ls == [] then []
    else
      var rest := Repairs(db, ls[..|ls| - 1]);
      if NeedsRepair(db, ls[|ls| - 1]) then rest + [AddColumn(ls[|ls| - 1])] else rest
  }

  function Repaired(db: Database, m: Model, ls: seq<Legacy>): Database {
    ApplyAll(db, m, Repairs(db, ls))
  }

  // The entries whose columns the repair adds.
  function Missing(db: Database, ls: seq<Legacy>): seq<Legacy> {
    if ls == [] then []
    else
      var rest := Missing(db, ls[..|ls| - 1]);
      if NeedsRepair(db, ls[|ls| - 1]) then rest + [ls[|ls| - 1]] else rest
  }

  function AllRepairs(db: Database): seq<Transaction> {
    Repairs(db, LEGACY_COLUMNS)
  }

  datatype Path = Skipped | ByCreateAll | Managed | Fresh | LegacyAdopted

  // SEMANTICOS_AUTO_MIGRATE, and whether alembic and its directory are there.
  datatype Mode = Mode(autoMigrate: bool, alembic: bool)

  const NORMAL := Mode(true, true)

  function PathTaken(db: Database, mode: Mode): Path {
    if !mode.autoMigrate then Skipped
    else if !mode.alembic then ByCreateAll
    else if db.stamped then Managed
    else if db.tables == map[] then Fresh
    else LegacyAdopted
  }

  function Plan(db: Database, m: Model, mode: Mode): seq<Transaction> {
    match PathTaken(db, mode)
    case Skipped => []
    case ByCreateAll => [CreateAll] + AllRepairs(CreateMissing(db, m))
    case Managed => [UpgradeHead]
    case Fresh => [UpgradeHead]
    case LegacyAdopted => AllRepairs(db) + [CreateAll, StampHead]
  }

  function Upto<T>(s: seq<T>, n: nat): seq<T> {
    if n < |s| then s[..n] else s
  }

  // A start of the process that dies after `survive` transactions, or finishes its plan.
  datatype Start = Start(mode: Mode, survive: nat)

  function AfterStart(db: Database, m: Model, s: Start): Database {
    ApplyAll(db, m, Upto(Plan(db, m, s.mode), s.survive))
  }

  function AfterStarts(db: Database, m: Model, starts: seq<Start>): Database {
    if starts == [] then db
    else AfterStart(AfterStarts(db, m, starts[..|starts| - 1]), m, starts[|starts| - 1])
  }

  function FullRun(db: Database, m: Model): Database {
    ApplyAll(db, m, Plan(db, m, NORMAL))
  }

  // ---------------------------------------------------------------- properties of databases

  // Every model table and column is there.
  ghost predicate Complete(db: Database, m: Model) {
    forall t <- m.tables :: t in db.tables && m.tables[t] <= db.tables[t]
  }

  // What an existing table lacks of its model is at most legacy columns.
  ghost predicate Adoptable(db: Database, m: Model) {
    forall t <- m.tables :: t in db.tables ==>
      forall c <- m.tables[t] :: c in db.tables[t] || c in LegacyOf(t, LEGACY_COLUMNS)
  }

  function LegacyOf(t: string, ls: seq<Legacy>): set<string> {
    set l | l in ls && l.table == t :: l.column
  }

  ghost predicate Truthful(db: Database, m: Model) {
    db.stamped ==> Complete(db, m)
  }

  // Nothing of `a` is missing from `b`.
  ghost predicate Keeps(a: Database, b: Database) {
    && (forall t <- a.tables :: t in b.tables && a.tables[t] <= b.tables[t])
    && a.indexes <= b.indexes && (a.stamped ==> b.stamped)
  }

  // ---------------------------------------------------------------- single transactions

  lemma ApplyKeeps(db: Database, m: Model, tx: Transaction)
    ensures Keeps(db, Apply(db, m, tx))
    ensures Adoptable(db, m) ==> Adoptable(Apply(db, m, tx), m)
  {
  }

  lemma {:induction false} ApplyAllKeeps(db: Database, m: Model, txs: seq<Transaction>)
    ensures Keeps(db, ApplyAll(db, m, txs))
    ensures Adoptable(db, m) ==> Adoptable(ApplyAll(db, m, txs), m)
  {
    if txs != [] {
      ApplyAllKeeps(db, m, txs[..|txs| - 1]);
      ApplyKeeps(ApplyAll(db, m, txs[..|txs| - 1]), m, txs[|txs| - 1]);
    }
  }

  lemma ApplyOne(db: Database, m: Model, tx: Transaction)
    ensures ApplyAll(db, m, [tx]) == Apply(db, m, tx)
  {
    assert [tx][..0] == [];
  }

  lemma {:induction false} ApplyAllConcat(db: Database, m: Model, a: seq<Transaction>, b: seq<Transaction>)
    ensures ApplyAll(db, m, a + b) == ApplyAll(ApplyAll(db, m, a), m, b)
  {
    if b == [] {
      assert a + b == a;
    } else {
      Sequences.InitOfConcat(a, b);
      ApplyAllConcat(db, m, a, b[..|b| - 1]);
    }
  }

  lemma RepairsUnfold(db: Database, m: Model, ls: seq<Legacy>)
    requires ls != []
    ensures var l, before := ls[|ls| - 1], ApplyAll(db, m, Repairs(db, ls[..|ls| - 1]));
            ApplyAll(db, m, Repairs(db, ls)) == if NeedsRepair(db, l) then Apply(before, m, AddColumn(l)) else before
  {
    if NeedsRepair(db, ls[|ls| - 1]) {
      assert Repairs(db, ls)[..|Repairs(db, ls)| - 1] == Repairs(db, ls[..|ls| - 1]);
    }
  }

  lemma LegacyOfLast(t: string, ls: seq<Legacy>)
    requires ls != []
    ensures var l := ls[|ls| - 1];
            LegacyOf(t, ls) == LegacyOf(t, ls[..|ls| - 1]) + if l.table == t then {l.column} else {}
  {
    assert ls == ls[..|ls| - 1] + [ls[|ls| - 1]];
  }

  // `db'` is `db` with the legacy columns `ls` of its tables.
  ghost predicate Widened(db: Database, db': Database, ls: seq<Legacy>) {
    && db'.tables.Keys == db.tables.Keys && db'.stamped == db.stamped
    && (forall t <- db.tables :: db'.tables[t] == db.tables[t] + LegacyOf(t, ls))
  }

  lemma OneRepairWidens(db: Database, before: Database, m: Model, ls: seq<Legacy>)
    requires ls != [] && Widened(db, before, ls[..|ls| - 1])
    ensures var l := ls[|ls| - 1];
            Widened(db, if NeedsRepair(db, l) then Apply(before, m, AddColumn(l)) else before, ls)
  {
    var l := ls[|ls| - 1];
    var after := if NeedsRepair(db, l) then Apply(before, m, AddColumn(l)) else before;
    forall t | t in db.tables ensures after.tables[t] == db.tables[t] + LegacyOf(t, ls) {
      LegacyOfLast(t, ls);
      assert before.tables[t] == db.tables[t] + LegacyOf(t, ls[..|ls| - 1]);
    }
  }

  lemma {:induction false} RepairsAddColumns(db: Database, m: Model, ls: seq<Legacy>)
    ensures Widened(db, ApplyAll(db, m, Repairs(db, ls)), ls)
  {
    if ls == [] {
      assert forall t: string :: LegacyOf(t, ls) == {};
    } else {
      RepairsAddColumns(db, m, ls[..|ls| - 1]);
      RepairsUnfold(db, m, ls);
      OneRepairWidens(db, ApplyAll(db, m, Repairs(db, ls[..|ls| - 1])), m, ls);
    }
  }

  lemma {:induction false} RepairsAddIndexes(db: Database, m: Model, ls: seq<Legacy>)
    ensures ApplyAll(db, m, Repairs(db, ls)).indexes == db.indexes + RepairIndexes(db, ls)
  {
    if ls != [] {
      var init, l := ls[..|ls| - 1], ls[|ls| - 1];
      RepairsAddIndexes(db, m, init);
      RepairsAddColumns(db, m, init);
      RepairsUnfold(db, m, ls);
      assert ls == init + [l];
      assert RepairIndexes(db, ls) == RepairIndexes(db, init) + RepairIndexes(db, [l]);
      assert RepairIndexes(db, [l]) == if NeedsRepair(db, l) && l.wantsIndex then {(l.table, l.column)} else {};
    }
  }

  // The repair adds exactly the missing legacy columns of the existing tables, each with its
  // index if it wants one, and stamps nothing.
  lemma RepairsEffect(db: Database, m: Model, ls: seq<Legacy>)
    ensures var db' := ApplyAll(db, m, Repairs(db, ls));
            && db'.tables.Keys == db.tables.Keys && db'.stamped == db.stamped
            && (forall t <- db.tables :: db'.tables[t] == db.tables[t] + LegacyOf(t, ls))
            && db'.indexes == db.indexes + RepairIndexes(db, ls)
  {
    RepairsAddColumns(db, m, ls);
    RepairsAddIndexes(db, m, ls);
  }

  function RepairIndexes(db: Database, ls: seq<Legacy>): set<(string, string)> {
    set l | l in ls && NeedsRepair(db, l) && l.wantsIndex :: (l.table, l.column)
  }

  lemma RepairedIsAdoptedExactly(db: Database, m: Model)
    ensures Complete(CreateMissing(ApplyAll(db, m, AllRepairs(db)), m), m) <==> Adoptable(db, m)
  {
    RepairsEffect(db, m, LEGACY_COLUMNS);
    var db1 := ApplyAll(db, m, AllRepairs(db));
    var db2 := CreateMissing(db1, m);
    assert forall t <- db.tables :: db2.tables[t] == db.tables[t] + LegacyOf(t, LEGACY_COLUMNS);
  }

  // ---------------------------------------------------------------- whole runs

  lemma LegacyRunUnfolds(db: Database, m: Model)
    ensures ApplyAll(db, m, AllRepairs(db) + [CreateAll, StampHead])
            == CreateMissing(ApplyAll(db, m, AllRepairs(db)), m).(stamped := true)
    ensures ApplyAll(db, m, AllRepairs(db) + [CreateAll])
            == CreateMissing(ApplyAll(db, m, AllRepairs(db)), m)
  {
    var r := AllRepairs(db);
    assert (r + [CreateAll])[..|r|] == r;
    assert (r + [CreateAll, StampHead])[..|r| + 1] == r + [CreateAll];
  }

  // A legacy database ends with every model column exactly when all it lacked was legacy
  // columns and whole tables: otherwise the stamp asserts a schema it does not have.
  lemma LegacyStampIsTruthfulIff(db: Database, m: Model)
    requires PathTaken(db, NORMAL) == LegacyAdopted
    ensures FullRun(db, m).stamped
    ensures Complete(FullRun(db, m), m) <==> Adoptable(db, m)
  {
    LegacyRunUnfolds(db, m);
    RepairedIsAdoptedExactly(db, m);
  }

  // The index of a legacy column is there after adoption exactly when it was there before, or
  // the table or the column was missing: a column that the old probes added without its index
  // never gets one.
  lemma LegacyIndexAfterAdoption(db: Database, m: Model, l: Legacy)
    requires PathTaken(db, NORMAL) == LegacyAdopted && LegacyInModel(m)
    requires l in LEGACY_COLUMNS && l.wantsIndex
    ensures (l.table, l.column) in FullRun(db, m).indexes <==>
              (l.table, l.column) in db.indexes || l.table !in db.tables || l.column !in db.tables[l.table]
  {
    AdoptedIndexes(db, m);
    assert (l.table, l.column) in RepairIndexes(db, LEGACY_COLUMNS) <==> NeedsRepair(db, l);
  }

  lemma AdoptedIndexes(db: Database, m: Model)
    requires PathTaken(db, NORMAL) == LegacyAdopted
    ensures FullRun(db, m).indexes
            == db.indexes + RepairIndexes(db, LEGACY_COLUMNS) + set i | i in m.indexes && i.0 !in db.tables
  {
    LegacyRunUnfolds(db, m);
    RepairsAddIndexes(db, m, LEGACY_COLUMNS);
    var repaired := ApplyAll(db, m, AllRepairs(db));
    assert repaired.tables.Keys == db.tables.Keys by {
      RepairsAddColumns(db, m, LEGACY_COLUMNS);
    }
    assert (set i | i in m.indexes && i.0 !in repaired.tables) == set i | i in m.indexes && i.0 !in db.tables;
  }

  ghost predicate Inv(db: Database, m: Model) {
    Adoptable(db, m) && Truthful(db, m)
  }

  predicate StampFree(txs: seq<Transaction>) {
    forall tx <- txs :: tx.AddColumn? || tx.CreateAll?
  }

  lemma {:induction false} RepairsAreStampFree(db: Database, ls: seq<Legacy>)
    ensures forall tx <- Repairs(db, ls) :: tx.AddColumn?
  {
    if ls != [] {
      RepairsAreStampFree(db, ls[..|ls| - 1]);
    }
  }

  lemma {:induction false} StampFreeKeepsUnstamped(db: Database, m: Model, txs: seq<Transaction>)
    requires StampFree(txs)
    ensures ApplyAll(db, m, txs).stamped == db.stamped
  {
    if txs != [] {
      StampFreeKeepsUnstamped(db, m, txs[..|txs| - 1]);
    }
  }

  // In a plan for an unstamped database only the last transaction can stamp.
  lemma PlanStampsLast(db: Database, m: Model, mode: Mode, n: nat)
    requires !db.stamped && n < |Plan(db, m, mode)|
    ensures StampFree(Plan(db, m, mode)[..n])
  {
    RepairsAreStampFree(db, LEGACY_COLUMNS);
    RepairsAreStampFree(CreateMissing(db, m), LEGACY_COLUMNS);
  }

  // A finished plan for an unstamped database leaves no stamp it should not.
  lemma FullPlanIsTruthful(db: Database, m: Model, mode: Mode)
    requires Adoptable(db, m) && !db.stamped
    ensures Truthful(ApplyAll(db, m, Plan(db, m, mode)), m)
  {
    match PathTaken(db, mode)
    case LegacyAdopted =>
      LegacyStampIsTruthfulIff(db, m);
    case Fresh =>
      ApplyOne(db, m, UpgradeHead);
    case _ =>
      RepairsAreStampFree(CreateMissing(db, m), LEGACY_COLUMNS);
      StampFreeKeepsUnstamped(db, m, Plan(db, m, mode));
  }

  lemma StartKeepsInv(db: Database, m: Model, s: Start)
    requires Inv(db, m)
    ensures Inv(AfterStart(db, m, s), m) && Keeps(db, AfterStart(db, m, s))
  {
    var plan := Plan(db, m, s.mode);
    ApplyAllKeeps(db, m, Upto(plan, s.survive));
    if !db.stamped {
      if s.survive < |plan| {
        PlanStampsLast(db, m, s.mode, s.survive);
        StampFreeKeepsUnstamped(db, m, plan[..s.survive]);
      } else {
        FullPlanIsTruthful(db, m, s.mode);
      }
    }
  }

  lemma KeepsTransitive(a: Database, b: Database, c: Database)
    requires Keeps(a, b) && Keeps(b, c)
    ensures Keeps(a, c)
  {
  }

  // CRASH TOLERANCE: from any adoptable database whose stamp, if any, is true, any number of
  // starts that die anywhere drop nothing and never leave a stamp on an incomplete schema.
  lemma {:induction false} StartsKeepInv(db: Database, m: Model, starts: seq<Start>)
    requires Inv(db, m)
    ensures Inv(AfterStarts(db, m, starts), m) && Keeps(db, AfterStarts(db, m, starts))
  {
    if starts != [] {
      var init := starts[..|starts| - 1];
      StartsKeepInv(db, m, init);
      StartKeepsInv(AfterStarts(db, m, init), m, starts[|starts| - 1]);
      KeepsTransitive(db, AfterStarts(db, m, init), AfterStarts(db, m, starts));
    }
  }

  // CONVERGENCE: after them, the first uninterrupted run leaves the database complete and
  // stamped, still holding everything it ever held; every later run returns "managed" and
  // changes nothing.
  lemma FirstFullRunConverges(db: Database, m: Model, starts: seq<Start>)
    requires Inv(db, m)
    ensures var done := FullRun(AfterStarts(db, m, starts), m);
            && done.stamped && Complete(done, m) && Keeps(db, done)
            && PathTaken(done, NORMAL) == Managed && FullRun(done, m) == done
  {
    var db1 := AfterStarts(db, m, starts);
    var done := FullRun(db1, m);
    StartsKeepInv(db, m, starts);
    FullRunKeepsInv(db1, m);
    KeepsTransitive(db, db1, done);
    FullRunStamps(db1, m);
    ApplyOne(done, m, UpgradeHead);
  }

  lemma FullRunKeepsInv(db: Database, m: Model)
    requires Inv(db, m)
    ensures Inv(FullRun(db, m), m) && Keeps(db, FullRun(db, m))
  {
    var start := Start(NORMAL, |Plan(db, m, NORMAL)|);
    StartKeepsInv(db, m, start);
    assert AfterStart(db, m, start) == FullRun(db, m);
  }

  lemma FullRunStamps(db: Database, m: Model)
    ensures FullRun(db, m).stamped
  {
    if PathTaken(db, NORMAL) == LegacyAdopted {
      LegacyRunUnfolds(db, m);
    } else {
      ApplyOne(db, m, UpgradeHead);
    }
  }

  // ---------------------------------------------------------------- the bootstrap itself

  class Engine {
    var tables: Tables
    var indexes: set<(string, string)>
    var stamped: bool

    ghost function Contents(): Database
      reads this
    {
      Database(tables, indexes, stamped)
    }

    constructor (db: Database)
      ensures Contents() == db
    {
      tables, indexes, stamped := db.tables, db.indexes, db.stamped;
    }

    // op.add_column would raise if the column were already there.
    method AddLegacyColumn(l: Legacy, m: Model)
      requires l.table in tables && l.column !in tables[l.table]
      modifies this
      ensures Contents() == Apply(old(Contents()), m, AddColumn(l))
    {
      tables := tables[l.table := tables[l.table] + {l.column}];
      if l.wantsIndex {
        indexes := indexes + {(l.table, l.column)};
      }
    }

    // One entry of the list: probe through the inspector's cache, and add the column if it is
    // missing and the process lives long enough.
    method RepairOne(m: Model, l: Legacy, existing: set<string>, cache: Tables, left: nat)
      returns (cache': Tables, added: bool, alive: bool)
      requires existing == tables.Keys
      requires l.table in cache ==> l.table in tables && (l.column in cache[l.table] <==> l.column in tables[l.table])
      modifies this
      ensures var need := NeedsRepair(old(Contents()), l);
              && alive == (need ==> left > 0) && added == (need && alive)
              && Contents() == (if added then Apply(old(Contents()), m, AddColumn(l)) else old(Contents()))
      ensures cache'
           == if l.table in existing && l.table !in cache then cache[l.table := old(tables)[l.table]] else cache
    {
      cache', added, alive := cache, false, true;
      if l.table !in existing {
        return;  // create_all will add the whole table
      }
      if l.table !in cache {
        cache' := cache[l.table := tables[l.table]];
      }
      if l.column in cache'[l.table] {
        return;
      }
      alive := left > 0;
      if alive {
        AddLegacyColumn(l, m);
        added := true;
      }
    }

    // One turn of the loop over `ls`, which started on `db0`.
    method RepairNext(
        m: Model, ls: seq<Legacy>, i: nat, existing: set<string>, cache: Tables, left: nat, ghost db0: Database)
      returns (cache': Tables, added: bool, alive: bool)
      requires DistinctColumns(ls) && i < |ls| && existing == db0.tables.Keys
      requires Contents() == Repaired(db0, m, ls[..i]) && CachesStart(db0, ls, i, cache)
      modifies this
      ensures alive == (NeedsRepair(db0, ls[i]) ==> left > 0) && added == (NeedsRepair(db0, ls[i]) && alive)
      ensures alive ==> Contents() == Repaired(db0, m, ls[..i + 1]) && CachesStart(db0, ls, i + 1, cache')
      ensures !alive ==> Contents() == Repaired(db0, m, ls[..i])
    {
      ProbeSeesTheStart(db0, m, ls, i);
      CacheGrows(db0, tables, ls, i, cache);
      RepairsUnfold(db0, m, ls[..i + 1]);
      assert ls[..i + 1][..i] == ls[..i];
      cache', added, alive := RepairOne(m, ls[i], existing, cache, left);
    }

    // `_repair_legacy_columns` on the list `ls`.  The inspector reads the table names once and
    // caches each table's columns at its first probe.  The process dies after `budget` more
    // transactions.
    method RepairColumns(m: Model, ls: seq<Legacy>, budget: nat) returns (repaired: seq<Legacy>, left: nat, alive: bool)
      requires DistinctColumns(ls)
      modifies this
      ensures var plan := Repairs(old(Contents()), ls);
              && Contents() == ApplyAll(old(Contents()), m, Upto(plan, budget))
              && (alive <==> budget >= |plan|)
              && (alive ==> left == budget - |plan|)
      ensures alive ==> forall l :: l in repaired <==> l in ls && NeedsRepair(old(Contents()), l)
    {
      ghost var db0 := Contents();
      var existing := tables.Keys;
      var cache: Tables := map[];
      repaired, left, alive := [], budget, true;
      for i := 0 to |ls|
        invariant alive && left == budget - |Repairs(db0, ls[..i])|
        invariant Contents() == Repaired(db0, m, ls[..i])
        invariant CachesStart(db0, ls, i, cache)
        invariant repaired == Missing(db0, ls[..i])
      {
        var added;
        PlanExtends(db0, ls, i);
        cache, added, alive := RepairNext(m, ls, i, existing, cache, left, db0);
        if !alive {
          return;
        }
        if added {
          repaired := repaired + [ls[i]];
          left := left - 1;
        }
      }
      assert ls[..|ls|] == ls;
      MissingContent(db0, ls);
    }

    method Commit(m: Model, tx: Transaction)
      requires !tx.AddColumn?
      modifies this
      ensures Contents() == Apply(old(Contents()), m, tx)
    {
      if tx.CreateAll? || (tx.UpgradeHead? && !stamped) {
        var missing := set i | i in m.indexes && i.0 !in tables;
        indexes := indexes + missing;
        tables := m.tables + tables;
      }
      if !tx.CreateAll? {
        stamped := true;
      }
    }

    // The last branch of `bootstrap_schema`: repair, create what is missing, and stamp.
    method AdoptLegacy(m: Model, mode: Mode, survive: nat) returns (alive: bool)
      requires PathTaken(Contents(), mode) == LegacyAdopted
      modifies this
      ensures Contents() == AfterStart(old(Contents()), m, Start(mode, survive))
      ensures alive <==> survive >= |Plan(old(Contents()), m, mode)|
    {
      LegacyColumnsAreDistinct();
      RepairThenAdopt(Contents(), m, mode, survive);
      var _, left, lived := RepairColumns(m, LEGACY_COLUMNS, survive);
      alive := lived && left > 0;
      if alive {
        Commit(m, CreateAll);
        alive := left > 1;
        if alive {
          Commit(m, StampHead);
        }
      }
    }

    // `bootstrap_schema`.  Returns the path taken, or nothing when the process died first.
    method BootstrapSchema(m: Model, mode: Mode, survive: nat) returns (alive: bool, path: Path)
      modifies this
      ensures Contents() == AfterStart(old(Contents()), m, Start(mode, survive))
      ensures alive <==> survive >= |Plan(old(Contents()), m, mode)|
      ensures alive ==> path == PathTaken(old(Contents()), mode)
    {
      ghost var db0 := Contents();
      alive := true;
      if !mode.autoMigrate {
        path := Skipped;
      } else if !mode.alembic {
        path := ByCreateAll;
        LegacyColumnsAreDistinct();
        CreateThenRepair(db0, m, mode, survive);
        alive := survive > 0;
        if alive {
          Commit(m, CreateAll);
          var _, _, lived := RepairColumns(m, LEGACY_COLUMNS, survive - 1);
          alive := lived;
        }
      } else if stamped || tables == map[] {
        path := if stamped then Managed else Fresh;
        UpgradeAlone(db0, m, mode, survive);
        alive := survive > 0;
        if alive {
          Commit(m, UpgradeHead);
        }
      } else {
        path := LegacyAdopted;
        alive := AdoptLegacy(m, mode, survive);
      }
    }
  }

  lemma {:induction false} MissingContent(db: Database, ls: seq<Legacy>)
    ensures forall l :: l in Missing(db, ls) <==> l in ls && NeedsRepair(db, l)
  {
    if ls != [] {
      MissingContent(db, ls[..|ls| - 1]);
      assert ls == ls[..|ls| - 1] + [ls[|ls| - 1]];
    }
  }

  // The inspector's cache after `i` probes: the columns the tables of those entries started with.
  ghost predicate CachesStart(db: Database, ls: seq<Legacy>, i: nat, cache: Tables)
    requires i <= |ls|
  {
    && (forall t <- cache :: t in db.tables && cache[t] == db.tables[t])
    && (forall k | 0 <= k < i :: ls[k].table in db.tables ==> ls[k].table in cache)
  }

  lemma CacheGrows(db: Database, tables: Tables, ls: seq<Legacy>, i: nat, cache: Tables)
    requires i < |ls| && CachesStart(db, ls, i, cache) && tables.Keys == db.tables.Keys
    requires var t := ls[i].table;
             t in tables && (forall k | 0 <= k < i :: ls[k].table != t) ==> tables[t] == db.tables[t]
    ensures var t := ls[i].table;
            && (t in cache ==> t in db.tables && cache[t] == db.tables[t])
            && CachesStart(db, ls, i + 1, if t in tables && t !in cache then cache[t := tables[t]] else cache)
  {
  }

  lemma UpgradeAlone(db: Database, m: Model, mode: Mode, n: nat)
    requires PathTaken(db, mode) == Managed || PathTaken(db, mode) == Fresh
    ensures |Plan(db, m, mode)| == 1
    ensures AfterStart(db, m, Start(mode, n)) == if n > 0 then Apply(db, m, UpgradeHead) else db
  {
    ApplyOne(db, m, UpgradeHead);
    assert [UpgradeHead][..0] == [];
  }

  lemma CreateThenRepair(db: Database, m: Model, mode: Mode, n: nat)
    requires PathTaken(db, mode) == ByCreateAll
    ensures var rest := AllRepairs(CreateMissing(db, m));
            && |Plan(db, m, mode)| == 1 + |rest|
            && AfterStart(db, m, Start(mode, n))
               == if n > 0 then ApplyAll(CreateMissing(db, m), m, Upto(rest, n - 1)) else db
  {
    var rest := AllRepairs(CreateMissing(db, m));
    if n > 0 {
      assert Upto([CreateAll] + rest, n) == [CreateAll] + Upto(rest, n - 1);
      ApplyAllConcat(db, m, [CreateAll], Upto(rest, n - 1));
      ApplyOne(db, m, CreateAll);
    } else {
      assert Upto([CreateAll] + rest, n) == [];
    }
  }

  lemma RepairThenAdopt(db: Database, m: Model, mode: Mode, n: nat)
    requires PathTaken(db, mode) == LegacyAdopted
    ensures var repairs := AllRepairs(db); var repaired := ApplyAll(db, m, repairs);
            && |Plan(db, m, mode)| == |repairs| + 2
            && AfterStart(db, m, Start(mode, n))
               == (if n <= |repairs| then ApplyAll(db, m, Upto(repairs, n))
                   else if n == |repairs| + 1 then CreateMissing(repaired, m)
                   else CreateMissing(repaired, m).(stamped := true))
  {
    var repairs := AllRepairs(db);
    var plan := repairs + [CreateAll, StampHead];
    LegacyRunUnfolds(db, m);
    if n == |repairs| + 1 {
      assert Upto(plan, n) == repairs + [CreateAll];
    } else if n <= |repairs| {
      assert Upto(plan, n) == Upto(repairs, n);
    }
  }

  // When entry `i` is probed, the database still says of it what it said at the start.
  lemma ProbeSeesTheStart(db: Database, m: Model, ls: seq<Legacy>, i: nat)
    requires DistinctColumns(ls) && i < |ls|
    ensures var db', l := ApplyAll(db, m, Repairs(db, ls[..i])), ls[i];
            && db'.tables.Keys == db.tables.Keys
            && (NeedsRepair(db', l) <==> NeedsRepair(db, l))
            && (l.table in db.tables ==> (l.column in db'.tables[l.table] <==> l.column in db.tables[l.table]))
            && (l.table in db.tables && (forall k | 0 <= k < i :: ls[k].table != l.table)
                ==> db'.tables[l.table] == db.tables[l.table])
  {
    RepairsAddColumns(db, m, ls[..i]);
    assert ls[i].column !in LegacyOf(ls[i].table, ls[..i]);
    assert (forall k | 0 <= k < i :: ls[k].table != ls[i].table) ==> LegacyOf(ls[i].table, ls[..i]) == {};
  }

  lemma LegacyColumnsAreDistinct()
    ensures DistinctColumns(LEGACY_COLUMNS)
  {
  }

  ghost predicate DistinctColumns(ls: seq<Legacy>) {
    forall i, j :: 0 <= i < j < |ls| ==> ls[i].table != ls[j].table || ls[i].column != ls[j].column
  }

  lemma {:induction false} RepairsArePrefixes(db: Database, ls: seq<Legacy>, n: nat)
    requires n <= |ls|
    ensures Repairs(db, ls[..n]) <= Repairs(db, ls)
  {
    if n == |ls| {
      assert ls[..n] == ls;
    } else {
      assert ls[..|ls| - 1][..n] == ls[..n];
      RepairsArePrefixes(db, ls[..|ls| - 1], n);
    }
  }

  // The plan up to entry `i` and past it, and where a process that dies at it leaves off.
  lemma PlanExtends(db: Database, ls: seq<Legacy>, i: nat)
    requires i < |ls|
    ensures var before, after, l := Repairs(db, ls[..i]), Repairs(db, ls[..i + 1]), ls[i];
            && |after| == |before| + (if NeedsRepair(db, l) then 1 else 0)
            && |after| <= |Repairs(db, ls)| && Upto(Repairs(db, ls), |before|) == before
            && Missing(db, ls[..i + 1]) == Missing(db, ls[..i]) + if NeedsRepair(db, l) then [l] else []
  {
    assert ls[..i + 1][..i] == ls[..i];
    RepairsArePrefixes(db, ls, i);
    RepairsArePrefixes(db, ls, i + 1);
  }
}
