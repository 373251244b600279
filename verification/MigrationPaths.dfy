/**
  What a start leaves behind, for every setting and every database: whether anything is changed at
  all, and the tables, columns, indexes and stamp a finished start ends with.
*/
module MigrationPaths {
  import opened Migrations
  import Sequences

  // With automatic migration switched off a start changes nothing, wherever it dies.
  lemma SkippedStartChangesNothing(db: Database, m: Model, alembic: bool, survive: nat)
    ensures AfterStart(db, m, Start(Mode(false, alembic), survive)) == db
  {
  }

  // A database under alembic is left as it is by every start that finds alembic.
  lemma ManagedStartChangesNothing(db: Database, m: Model, survive: nat)
    requires db.stamped
    ensures AfterStart(db, m, Start(Mode(true, true), survive)) == db
  {
    ApplyOne(db, m, UpgradeHead);
    assert Plan(db, m, Mode(true, true))[..0] == [];
  }

  // Without alembic nothing is ever stamped.
  lemma CreateAllNeverStamps(db: Database, m: Model, survive: nat)
    ensures AfterStart(db, m, Start(Mode(true, false), survive)).stamped == db.stamped
  {
    var plan := Plan(db, m, Mode(true, false));
    RepairsAreStampFree(CreateMissing(db, m), LEGACY_COLUMNS);
    StampFreeKeepsUnstamped(db, m, Upto(plan, survive));
  }

  // Starts follow one another.
  lemma {:induction false} StartsContinue(db: Database, m: Model, a: seq<Start>, b: seq<Start>)
    ensures AfterStarts(db, m, a + b) == AfterStarts(AfterStarts(db, m, a), m, b)
    ensures b != [] ==> AfterStarts(db, m, a + [b[0]]) == AfterStart(AfterStarts(db, m, a), m, b[0])
  {
    if b == [] {
      assert a + b == a;
    } else {
      StartsContinue(db, m, a, b[..|b| - 1]);
      Sequences.InitOfConcat(a, b);
      Sequences.InitOfSnoc(a, b[0]);
    }
  }

  // What a start that has anything to do ends with: the model's tables where there were none, the
  // legacy columns in those there were, an index for each new table and each added column, and a
  // stamp if alembic is there.
  ghost predicate BroughtUp(db: Database, db': Database, m: Model, alembic: bool) {
    && db'.tables.Keys == db.tables.Keys + m.tables.Keys
    && (forall t <- db.tables :: db'.tables[t] == db.tables[t] + LegacyOf(t, LEGACY_COLUMNS))
    && (forall t <- m.tables :: t !in db.tables ==> db'.tables[t] == m.tables[t])
    && (forall i :: i in db'.indexes <==> i in db.indexes || NewIndex(db, m, i))
    && (db'.stamped <==> db.stamped || alembic)
  }

  // An index of a table that is created, or of a legacy column that is added.
  ghost predicate NewIndex(db: Database, m: Model, i: (string, string)) {
    if i.0 in db.tables
    then Legacy(i.0, i.1, true) in LEGACY_COLUMNS && i.1 !in db.tables[i.0]
    else i in m.indexes
  }

  lemma RepairIndexesAre(db: Database, m: Model, i: (string, string))
    requires i.0 in db.tables
    ensures i in RepairIndexes(db, LEGACY_COLUMNS) <==> NewIndex(db, m, i)
  {
    assert Legacy(i.0, i.1, true).table == i.0;
    if i in RepairIndexes(db, LEGACY_COLUMNS) {
      var l :| l in LEGACY_COLUMNS && NeedsRepair(db, l) && l.wantsIndex && i == (l.table, l.column);
      assert l == Legacy(i.0, i.1, true);
    }
    if NewIndex(db, m, i) {
      assert NeedsRepair(db, Legacy(i.0, i.1, true));
    }
  }

  lemma RepairIndexesAreOfTables(db: Database, i: (string, string))
    requires i in RepairIndexes(db, LEGACY_COLUMNS)
    ensures i.0 in db.tables
  {
    var l :| l in LEGACY_COLUMNS && NeedsRepair(db, l) && l.wantsIndex && i == (l.table, l.column);
  }

  lemma AdoptedIndexIsNew(db: Database, m: Model, i: (string, string))
    ensures i in RepairIndexes(db, LEGACY_COLUMNS) || (i in m.indexes && i.0 !in db.tables) <==> NewIndex(db, m, i)
  {
    if i.0 in db.tables {
      RepairIndexesAre(db, m, i);
    } else if i in RepairIndexes(db, LEGACY_COLUMNS) {
      RepairIndexesAreOfTables(db, i);
      assert false;
    }
  }

  lemma AdoptedIndexesAreNew(db: Database, m: Model)
    requires PathTaken(db, NORMAL) == LegacyAdopted
    ensures forall i :: i in FullRun(db, m).indexes <==> i in db.indexes || NewIndex(db, m, i)
  {
    AdoptedIndexes(db, m);
    forall i: (string, string) ensures i in FullRun(db, m).indexes <==> i in db.indexes || NewIndex(db, m, i) {
      AdoptedIndexIsNew(db, m, i);
    }
  }

  lemma AdoptedTables(db: Database, m: Model)
    requires PathTaken(db, NORMAL) == LegacyAdopted
    ensures var db' := FullRun(db, m);
            && db'.stamped && db'.tables.Keys == db.tables.Keys + m.tables.Keys
            && (forall t <- db.tables :: db'.tables[t] == db.tables[t] + LegacyOf(t, LEGACY_COLUMNS))
            && (forall t <- m.tables :: t !in db.tables ==> db'.tables[t] == m.tables[t])
  {
    var repaired := ApplyAll(db, m, AllRepairs(db));
    RepairsEffect(db, m, LEGACY_COLUMNS);
    FinishedAdoption(db, m);
    assert repaired.tables.Keys == db.tables.Keys;
  }

  lemma FinishedAdoption(db: Database, m: Model)
    requires PathTaken(db, NORMAL) == LegacyAdopted
    ensures FullRun(db, m) == CreateMissing(ApplyAll(db, m, AllRepairs(db)), m).(stamped := true)
  {
    LegacyRunUnfolds(db, m);
  }

  lemma AdoptionBringsUp(db: Database, m: Model)
    requires !db.stamped && db.tables != map[]
    ensures BroughtUp(db, ApplyAll(db, m, Plan(db, m, Mode(true, true))), m, true)
  {
    AdoptedTables(db, m);
    AdoptedIndexesAreNew(db, m);
  }

  lemma CreationBringsUp(db: Database, m: Model)
    requires db.tables == map[] && !db.stamped
    ensures BroughtUp(db, ApplyAll(db, m, Plan(db, m, Mode(true, true))), m, true)
  {
    ApplyOne(db, m, UpgradeHead);
    assert CreateMissing(db, m).tables == m.tables;
  }

  lemma AfterCreateAll(db: Database, m: Model)
    ensures ApplyAll(db, m, Plan(db, m, Mode(true, false)))
            == ApplyAll(CreateMissing(db, m), m, AllRepairs(CreateMissing(db, m)))
  {
    ApplyOne(db, m, CreateAll);
    ApplyAllConcat(db, m, [CreateAll], AllRepairs(CreateMissing(db, m)));
  }

  // A table just created lacks no legacy column, so the repair after it adds none to it.
  lemma CreatedIndexIsNew(db: Database, m: Model, i: (string, string))
    requires LegacyInModel(m)
    ensures var created := CreateMissing(db, m);
            i in created.indexes || i in RepairIndexes(created, LEGACY_COLUMNS)
            <==> i in db.indexes || NewIndex(db, m, i)
  {
    var created := CreateMissing(db, m);
    if i.0 in created.tables {
      RepairIndexesAre(created, m, i);
    } else if i in RepairIndexes(created, LEGACY_COLUMNS) {
      RepairIndexesAreOfTables(created, i);
      assert false;
    }
  }

  lemma CreateAllBringsUp(db: Database, m: Model)
    requires LegacyInModel(m)
    ensures BroughtUp(db, ApplyAll(db, m, Plan(db, m, Mode(true, false))), m, false)
  {
    var created := CreateMissing(db, m);
    AfterCreateAll(db, m);
    RepairsEffect(created, m, LEGACY_COLUMNS);
    forall t | t in m.tables && t !in db.tables ensures m.tables[t] + LegacyOf(t, LEGACY_COLUMNS) == m.tables[t] {
      assert LegacyOf(t, LEGACY_COLUMNS) <= m.tables[t];
    }
    forall i: (string, string)
      ensures i in created.indexes || i in RepairIndexes(created, LEGACY_COLUMNS)
              <==> i in db.indexes || NewIndex(db, m, i)
    {
      CreatedIndexIsNew(db, m, i);
    }
  }

  // PATHS: a finished start changes nothing where it is switched off or the database is already
  // under alembic, and otherwise brings every table up, with the stamp exactly if alembic is there.
  lemma FinishedStart(db: Database, m: Model, mode: Mode)
    requires LegacyInModel(m)
    ensures var db' := ApplyAll(db, m, Plan(db, m, mode));
            if !mode.autoMigrate || (mode.alembic && db.stamped) then db' == db
            else BroughtUp(db, db', m, mode.alembic)
  {
    if mode.autoMigrate {
      if !mode.alembic {
        CreateAllBringsUp(db, m);
      } else if db.stamped {
        ApplyOne(db, m, UpgradeHead);
      } else if db.tables == map[] {
        CreationBringsUp(db, m);
      } else {
        AdoptionBringsUp(db, m);
      }
    }
  }
}
