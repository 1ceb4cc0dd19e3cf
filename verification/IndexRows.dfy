/** The step machine of IndexCrash over the real rows: every run has its row-level run, whose committed
    tables satisfy all constraints, keep the full-text table equal to the join, and stand for the
    machine's database. */
module IndexRows {
  import opened SqliteRepository
  import opened IndexCrash

  /** The durable tables and those of the open transaction, if one is open. */
  datatype Rows = Rows(committed: Tables, working: Tables)

  /** What a step does to the rows: opening and committing change the durable ones, a statement the
      working ones; leaving a transaction any other way forgets them. */
  ghost function RowsAfter(c: Config, s: State, s': State, r: Rows): Rows
    requires GoodConfig(c)
  {
    if CommitTransaction(c, s, s') then Rows(r.working, r.working)
    else if OpenTables(s, s') then Rows(Open(r.committed), Open(r.committed))
    else if RunStatement(c, s, s') then
      match Execute(r.working, Script(c, s.process.plan)[s.process.done])
      case Some(t) => Rows(r.committed, t)
      case None => r
    else Rows(r.committed, r.committed)
  }

  ghost function RowsAt(c: Config, run: seq<State>, i: nat): Rows
    requires GoodConfig(c) && Behavior(c, run) && i < |run|
  {
    if i == 0 then Rows(EMPTY_TABLES, EMPTY_TABLES) else RowsAfter(c, run[i - 1], run[i], RowsAt(c, run, i - 1))
  }

  ghost predicate RowsMatch(s: State, r: Rows) {
    StandsFor(r.committed, s.disk.db) && (s.process.InTransaction? ==> StandsFor(r.working, s.process.working))
  }

  lemma {:induction false} OpenMatches(t: Tables, db: Database)
    requires StandsFor(t, db)
    ensures StandsFor(Open(t), OpenDatabase(db))
  {
    OpenRefinesRows(t);
  }

  lemma {:induction false} StatementMatches(t: Tables, db: Database, st: Statement)
    requires StandsFor(t, db) && Apply(db, st).Some?
    ensures Execute(t, st).Some? && StandsFor(Execute(t, st).value, Apply(db, st).value)
  {
    StatementRefines(t, db, st);
  }

  lemma {:induction false} StepMatches(c: Config, s: State, s': State, r: Rows)
    requires GoodConfig(c) && Next(c, s, s') && RowsMatch(s, r)
    ensures RowsMatch(s', RowsAfter(c, s, s', r))
  {
    var kind :| StepOf(c, s, s', kind);
    match kind
    case Opens => OpenMatches(r.committed, s.disk.db);
    case Executes => StatementMatches(r.working, s.process.working, Script(c, s.process.plan)[s.process.done]);
    case _ =>
  }

  /** In every state of every run, with exceptions and crashes anywhere: the durable rows satisfy every
      constraint, their full-text table is the join of chunks with documents, and they stand for the
      database of the machine; so do the rows of an open transaction. */
  lemma {:induction false} RowsAlwaysConsistent(c: Config, run: seq<State>, i: nat)
    requires GoodConfig(c) && Behavior(c, run) && i < |run|
    ensures RowsMatch(run[i], RowsAt(c, run, i))
    ensures var t := RowsAt(c, run, i).committed;
            Consistent(t) && t.fts == Join(t.documents, t.chunks) && Abstract(t) == run[i].disk.db
    decreases i
  {
    if i == 0 {
      EmptyTablesStand();
    } else {
      RowsAlwaysConsistent(c, run, i - 1);
      StepMatches(c, run[i - 1], run[i - 1 + 1], RowsAt(c, run, i - 1));
    }
  }
}
