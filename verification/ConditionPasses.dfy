/** The four passes over all tables of all databases, and the dump of the list. */
module ConditionPasses {
  import opened Conditions
  import opened ConditionConverter

  datatype Table = Table(name: string, numberOfConditions: int)

  datatype Database = Database(name: string, expansion: int)

  /** What the tables hold; nothing is written to them between the passes. */
  type Select = (Database, Table) -> seq<Row>

  const LOOT_TABLES: seq<Table> := [
    Table("reference_loot_template", 1), Table("creature_loot_template", 1), Table("gameobject_loot_template", 1),
    Table("pickpocketing_loot_template", 1), Table("item_loot_template", 1), Table("fishing_loot_template", 1),
    Table("skinning_loot_template", 1), Table("disenchant_loot_template", 1), Table("mail_loot_template", 1)]
  const LOOT_TABLES_1: seq<Table> := [Table("prospecting_loot_template", 1)]
  const LOOT_TABLES_2: seq<Table> := [Table("spell_loot_template", 1), Table("milling_loot_template", 1)]
  const MENU_TABLES: seq<Table> := [Table("gossip_menu", 2)]
  const OPTION_TABLES: seq<Table> := [Table("gossip_menu_option", 3)]

  /** The loot tables of an expansion. */
  function LootTables(expansion: int): seq<Table> {
    LOOT_TABLES + (if expansion >= 1 then LOOT_TABLES_1 else []) + (if expansion >= 2 then LOOT_TABLES_2 else [])
  }

  /** Each row has as many conditions as its table has columns for. */
  ghost predicate Shaped(select: Select) {
    forall d, t, i :: 0 <= i < |select(d, t)| ==> |select(d, t)[i].conditions| == t.numberOfConditions
  }

  // ---------- what a pass is to write ----------

  /** The jobs of one row in pass k: none in pass 0. */
  function RowDue(d: Database, t: Table, row: Row, k: int): seq<Job> {
    if k > 0 && |Wanted(row.conditions)| == k then [JobOf(d.name, t.name, row)] else []
  }

  /** The jobs of the rows with exactly k proper conditions. */
  function Due(d: Database, t: Table, rows: seq<Row>, k: int): seq<Job> {
    if rows == [] then []
    else
      var n := |rows| - 1;
      Due(d, t, rows[..n], k) + RowDue(d, t, rows[n], k)
  }

  function TablesDue(d: Database, tables: seq<Table>, select: Select, k: int): seq<Job> {
    if tables == [] then []
    else
      var n := |tables| - 1;
      TablesDue(d, tables[..n], select, k) + Due(d, tables[n], select(d, tables[n]), k)
  }

  /** The tables visited in pass k. */
  function Visited(k: int, expansion: int): seq<Table> {
    (if k <= 1 then LootTables(expansion) else []) + (if k < 3 then MENU_TABLES else []) + OPTION_TABLES
  }

  function PassDue(databases: seq<Database>, select: Select, k: int): seq<Job> {
    if databases == [] then []
    else
      var n := |databases| - 1;
      PassDue(databases[..n], select, k) + TablesDue(databases[n], Visited(k, databases[n].expansion), select, k)
  }

  // ---------- the list and the updates, step by step ----------

  function AfterRows(log: Log, d: Database, t: Table, rows: seq<Row>, k: int): Log {
    if rows == [] then log
    else
      var n := |rows| - 1;
      AfterRow(AfterRows(log, d, t, rows[..n], k), d.name, t.name, rows[n], k)
  }

  function AfterTables(log: Log, d: Database, tables: seq<Table>, select: Select, k: int): Log {
    if tables == [] then log
    else
      var n := |tables| - 1;
      AfterRows(AfterTables(log, d, tables[..n], select, k), d, tables[n], select(d, tables[n]), k)
  }

  function AfterPass(log: Log, databases: seq<Database>, select: Select, k: int): Log {
    if databases == [] then log
    else
      var n := |databases| - 1;
      AfterTables(AfterPass(log, databases[..n], select, k), databases[n], Visited(k, databases[n].expansion), select,
                  k)
  }

  /** After the passes before pass k. */
  function AfterPasses(databases: seq<Database>, select: Select, k: nat): Log {
    if k == 0 then Log([INITIAL_FILL], [])
    else AfterPass(AfterPasses(databases, select, k - 1), databases, select, k - 1)
  }

  lemma NextRow(log: Log, d: Database, t: Table, rows: seq<Row>, r: nat, k: int)
    requires r < |rows|
    ensures AfterRows(log, d, t, [], k) == log
    ensures AfterRows(log, d, t, rows[..r + 1], k)
         == AfterRow(AfterRows(log, d, t, rows[..r], k), d.name, t.name, rows[r], k)
  {
    assert rows[..r + 1][..r] == rows[..r];
    hide AfterRow;
  }

  lemma NextTable(log: Log, d: Database, tables: seq<Table>, select: Select, i: nat, k: int)
    requires i < |tables|
    ensures AfterTables(log, d, [], select, k) == log
    ensures AfterTables(log, d, tables[..i + 1], select, k)
         == AfterRows(AfterTables(log, d, tables[..i], select, k), d, tables[i], select(d, tables[i]), k)
  {
    assert tables[..i + 1][..i] == tables[..i];
    hide AfterRows;
  }

  lemma NextDatabase(log: Log, databases: seq<Database>, select: Select, i: nat, k: int)
    requires i < |databases|
    ensures AfterPass(log, [], select, k) == log
    ensures AfterPass(log, databases[..i + 1], select, k)
         == AfterTables(AfterPass(log, databases[..i], select, k), databases[i], Visited(k, databases[i].expansion),
                        select, k)
  {
    assert databases[..i + 1][..i] == databases[..i];
    hide AfterTables;
    hide Visited;
  }

  lemma NothingYet(log: Log, d: Database, t: Table, rows: seq<Row>, tables: seq<Table>, databases: seq<Database>,
                   select: Select, k: int)
    ensures AfterRows(log, d, t, rows[..0], k) == log
    ensures AfterTables(log, d, tables[..0], select, k) == log
    ensures AfterPass(log, databases[..0], select, k) == log
  {
  }

  lemma {:induction false} AfterMoreTables(log: Log, d: Database, tables: seq<Table>, more: seq<Table>, select: Select,
                                           k: int)
    ensures AfterTables(log, d, tables + more, select, k)
         == AfterTables(AfterTables(log, d, tables, select, k), d, more, select, k)
    decreases |more|
  {
    hide AfterRows;
    if more == [] {
      assert tables + more == tables;
    } else {
      var n := |more| - 1;
      AfterMoreTables(log, d, tables, more[..n], select, k);
      assert (tables + more)[..|tables| + n] == tables + more[..n];
    }
  }

  /** The updates answer the jobs one by one. */
  ghost predicate Answered(list: seq<Entry>, updates: seq<Update>, jobs: seq<Job>)
    requires Formed(list)
  {
    |updates| == |jobs| && forall i :: 0 <= i < |jobs| ==> Answers(list, updates[i], jobs[i])
  }

  lemma AnsweredExtends(list: seq<Entry>, longer: seq<Entry>, updates: seq<Update>, jobs: seq<Job>)
    requires Formed(list) && Formed(longer) && list <= longer && Answered(list, updates, jobs)
    ensures Answered(longer, updates, jobs)
  {
    forall i | 0 <= i < |jobs|
      ensures Answers(longer, updates[i], jobs[i])
    {
      assert Answers(list, updates[i], jobs[i]);
      DenotesExtends(list, longer, updates[i].conditionId, jobs[i].wanted);
    }
  }

  ghost predicate RowsKnown(list: seq<Entry>, rows: seq<Row>)
    requires Formed(list)
  {
    forall i :: 0 <= i < |rows| ==> AllKnown(list, Wanted(rows[i].conditions))
  }

  ghost predicate TablesKnown(list: seq<Entry>, d: Database, tables: seq<Table>, select: Select)
    requires Formed(list)
  {
    forall i :: 0 <= i < |tables| ==> RowsKnown(list, select(d, tables[i]))
  }

  lemma TablesKnownExtends(list: seq<Entry>, longer: seq<Entry>, d: Database, tables: seq<Table>, select: Select)
    requires Formed(list) && Formed(longer) && list <= longer && TablesKnown(list, d, tables, select)
    ensures TablesKnown(longer, d, tables, select)
  {
    forall i | 0 <= i < |tables|
      ensures RowsKnown(longer, select(d, tables[i]))
    {
    }
  }

  ghost predicate AllTablesKnown(list: seq<Entry>, databases: seq<Database>, select: Select)
    requires Formed(list)
  {
    forall i :: 0 <= i < |databases| ==> TablesKnown(list, databases[i], Visited(0, databases[i].expansion), select)
  }

  lemma AllTablesKnownExtends(list: seq<Entry>, longer: seq<Entry>, databases: seq<Database>, select: Select)
    requires Formed(list) && Formed(longer) && list <= longer && AllTablesKnown(list, databases, select)
    ensures AllTablesKnown(longer, databases, select)
  {
    forall i | 0 <= i < |databases|
      ensures TablesKnown(longer, databases[i], Visited(0, databases[i].expansion), select)
    {
      TablesKnownExtends(list, longer, databases[i], Visited(0, databases[i].expansion), select);
    }
  }

  /** Later passes visit no other tables than the first. */
  lemma VisitedBefore(list: seq<Entry>, k: int, d: Database, select: Select)
    requires Formed(list) && 0 <= k <= 3 && TablesKnown(list, d, Visited(0, d.expansion), select)
    ensures TablesKnown(list, d, Visited(k, d.expansion), select)
  {
    hide RowsKnown;
    hide LootTables;
    var all, some, n := Visited(0, d.expansion), Visited(k, d.expansion), |LootTables(d.expansion)|;
    forall i | 0 <= i < |some|
      ensures RowsKnown(list, select(d, some[i]))
    {
      var j := if k <= 1 then i else if k == 2 then n + i else n + 1 + i;
      assert some[i] == all[j];
    }
  }

  // ---------- the passes ----------

  /** The state between two steps of a run: the jobs done so far are answered. */
  ghost predicate Running(state: Converter, k: int, done: seq<Job>)
    reads state
  {
    && state.Valid() && state.processNumConditions == k && 0 <= k <= 3 && state.errors == 0
    && Answered(state.linkedList, state.updates, done)
  }

  lemma AnsweredAppend(list: seq<Entry>, updates: seq<Update>, jobs: seq<Job>, update: Update, job: Job)
    requires Formed(list) && Answered(list, updates, jobs) && Answers(list, update, job)
    ensures Answered(list, updates + [update], jobs + [job])
  {
    hide Answers;
  }

  method ProgressRow(state: Converter, d: Database, t: Table, row: Row, ghost done: seq<Job>)
    requires Running(state, state.processNumConditions, done) && 1 <= |row.conditions| <= 3
    requires state.processNumConditions == 0 || AllKnown(state.linkedList, Wanted(row.conditions))
    modifies state`linkedList, state`oldMax, state`updates, state`errors
    ensures old(state.linkedList) <= state.linkedList
    ensures Running(state, state.processNumConditions, done + RowDue(d, t, row, state.processNumConditions))
    ensures Formed(state.linkedList) && AllKnown(state.linkedList, Wanted(row.conditions))
    ensures state.Value() == AfterRow(old(state.Value()), d.name, t.name, row, state.processNumConditions)
  {
    hide AfterRow;
    hide Sound;
    hide AllKnown;
    hide Wanted;
    hide Answered;
    hide Answers;
    ghost var list, log := state.linkedList, state.updates;
    SoundIsFormed(list);
    state.ProcessRow(d.name, t.name, row);
    SoundIsFormed(state.linkedList);
    AnsweredExtends(list, state.linkedList, log, done);
    if state.processNumConditions > 0 {
      KnownExtends(list, state.linkedList, Wanted(row.conditions));
      if |Wanted(row.conditions)| == state.processNumConditions {
        AnsweredAppend(state.linkedList, log, done, state.updates[|log|], JobOf(d.name, t.name, row));
        assert state.updates == log + [state.updates[|log|]];
      }
    }
    assert done + [] == done;
  }

  lemma RowsKnownAppend(list: seq<Entry>, rows: seq<Row>, r: int)
    requires Formed(list) && 0 <= r < |rows| && RowsKnown(list, rows[..r]) && AllKnown(list, Wanted(rows[r].conditions))
    ensures RowsKnown(list, rows[..r + 1])
  {
  }

  lemma DueAppend(done: seq<Job>, d: Database, t: Table, rows: seq<Row>, r: int, k: int)
    requires 0 <= r < |rows|
    ensures done + Due(d, t, rows[..r + 1], k) == done + Due(d, t, rows[..r], k) + RowDue(d, t, rows[r], k)
  {
    assert rows[..r + 1][..r] == rows[..r];
    hide RowDue;
  }

  lemma RowKnownAt(list: seq<Entry>, rows: seq<Row>, r: nat)
    requires Formed(list) && r < |rows| && RowsKnown(list, rows)
    ensures AllKnown(list, Wanted(rows[r].conditions))
  {
  }

  lemma RowsKnownExtends(list: seq<Entry>, longer: seq<Entry>, rows: seq<Row>)
    requires Formed(list) && Formed(longer) && list <= longer && RowsKnown(list, rows)
    ensures RowsKnown(longer, rows)
  {
    hide AllKnown;
    hide Wanted;
    forall i | 0 <= i < |rows|
      ensures AllKnown(longer, Wanted(rows[i].conditions))
    {
      KnownExtends(list, longer, Wanted(rows[i].conditions));
    }
  }

  lemma NoRow(list: seq<Entry>, d: Database, t: Table, rows: seq<Row>, k: int, done: seq<Job>)
    requires Formed(list)
    ensures RowsKnown(list, rows[..0]) && done + Due(d, t, rows[..0], k) == done
  {
  }

  method ProgressTable(state: Converter, d: Database, t: Table, rows: seq<Row>, ghost done: seq<Job>)
    requires Running(state, state.processNumConditions, done) && Formed(state.linkedList)
    requires 1 <= t.numberOfConditions <= 3
    requires forall i :: 0 <= i < |rows| ==> |rows[i].conditions| == t.numberOfConditions
    requires state.processNumConditions == 0 || RowsKnown(state.linkedList, rows)
    modifies state`linkedList, state`oldMax, state`updates, state`errors
    ensures old(state.linkedList) <= state.linkedList && Formed(state.linkedList)
    ensures Running(state, state.processNumConditions, done + Due(d, t, rows, state.processNumConditions))
    ensures RowsKnown(state.linkedList, rows)
    ensures state.Value() == AfterRows(old(state.Value()), d, t, rows, state.processNumConditions)
  {
    hide *;
    ghost var k, list, log := state.processNumConditions, state.linkedList, state.Value();
    ghost var jobs := done;
    NothingYet(log, d, t, rows, [], [], (_, _) => [], k);
    NoRow(list, d, t, rows, k, done);
    for r := 0 to |rows|
      invariant list <= state.linkedList && state.processNumConditions == k && Formed(state.linkedList)
      invariant Running(state, k, jobs)
      invariant jobs == done + Due(d, t, rows[..r], k)
      invariant RowsKnown(state.linkedList, rows[..r])
      invariant state.Value() == AfterRows(log, d, t, rows[..r], k)
      invariant k == 0 || RowsKnown(state.linkedList, rows)
    {
      ghost var before := state.linkedList;
      NextRow(log, d, t, rows, r, k);
      if k != 0 {
        RowKnownAt(before, rows, r);
      }
      ProgressRow(state, d, t, rows[r], jobs);
      RowsKnownExtends(before, state.linkedList, rows[..r]);
      if k != 0 {
        RowsKnownExtends(before, state.linkedList, rows);
      }
      RowsKnownAppend(state.linkedList, rows, r);
      DueAppend(done, d, t, rows, r, k);
      jobs := jobs + RowDue(d, t, rows[r], k);
    }
    assert rows[..|rows|] == rows;
  }

  lemma TablesKnownAppend(list: seq<Entry>, d: Database, tables: seq<Table>, select: Select, i: int)
    requires Formed(list) && 0 <= i < |tables| && TablesKnown(list, d, tables[..i], select)
    requires RowsKnown(list, select(d, tables[i]))
    ensures TablesKnown(list, d, tables[..i + 1], select)
  {
    hide RowsKnown;
  }

  lemma TablesDueAppend(done: seq<Job>, d: Database, tables: seq<Table>, select: Select, i: int, k: int)
    requires 0 <= i < |tables|
    ensures done + TablesDue(d, tables[..i + 1], select, k)
         == done + TablesDue(d, tables[..i], select, k) + Due(d, tables[i], select(d, tables[i]), k)
  {
    assert tables[..i + 1][..i] == tables[..i];
    hide Due;
  }

  ghost predicate ProperTables(tables: seq<Table>) {
    forall i :: 0 <= i < |tables| ==> 1 <= tables[i].numberOfConditions <= 3
  }

  lemma AreProper(tables: seq<Table>)
    requires ProperTables(tables)
    ensures forall i :: 0 <= i < |tables| ==> 1 <= tables[i].numberOfConditions <= 3
  {
  }

  method ProgressTables(state: Converter, d: Database, tables: seq<Table>, select: Select, ghost done: seq<Job>)
    requires Running(state, state.processNumConditions, done) && Formed(state.linkedList)
    requires ProperTables(tables) && Shaped(select)
    requires state.processNumConditions == 0 || TablesKnown(state.linkedList, d, tables, select)
    modifies state`linkedList, state`oldMax, state`updates, state`errors
    ensures old(state.linkedList) <= state.linkedList && Formed(state.linkedList)
    ensures Running(state, state.processNumConditions, done + TablesDue(d, tables, select, state.processNumConditions))
    ensures TablesKnown(state.linkedList, d, tables, select)
    ensures state.Value() == AfterTables(old(state.Value()), d, tables, select, state.processNumConditions)
  {
    ghost var k, list, log := state.processNumConditions, state.linkedList, state.Value();
    ghost var jobs := done;
    NothingYet(log, d, Table("", 0), [], tables, [], select, k);
    NothingVisited(list, d, select, k, done);
    AreProper(tables);
    assert tables[..0] == [];
    hide *;
    for i := 0 to |tables|
      invariant list <= state.linkedList && state.processNumConditions == k && Formed(state.linkedList)
      invariant Running(state, k, jobs)
      invariant jobs == done + TablesDue(d, tables[..i], select, k)
      invariant TablesKnown(state.linkedList, d, tables[..i], select)
      invariant state.Value() == AfterTables(log, d, tables[..i], select, k)
      invariant k == 0 || TablesKnown(state.linkedList, d, tables, select)
    {
      ghost var before := state.linkedList;
      var rows := select(d, tables[i]);
      NextTable(log, d, tables, select, i, k);
      ProgressTable(state, d, tables[i], rows, jobs);
      TablesKnownExtends(before, state.linkedList, d, tables[..i], select);
      if k != 0 {
        TablesKnownExtends(before, state.linkedList, d, tables, select);
      }
      TablesKnownAppend(state.linkedList, d, tables, select, i);
      TablesDueAppend(done, d, tables, select, i, k);
      jobs := jobs + Due(d, tables[i], rows, k);
    }
    assert tables[..|tables|] == tables;
  }

  lemma TablesKnownParts(list: seq<Entry>, d: Database, tables: seq<Table>, more: seq<Table>, select: Select)
    requires Formed(list)
    ensures TablesKnown(list, d, tables + more, select) <==>
              TablesKnown(list, d, tables, select) && TablesKnown(list, d, more, select)
  {
    hide RowsKnown;
    var all := tables + more;
    assert forall i :: 0 <= i < |tables| ==> all[i] == tables[i];
    assert forall i :: 0 <= i < |more| ==> all[|tables| + i] == more[i];
  }

  lemma {:induction false} TablesDueParts(d: Database, tables: seq<Table>, more: seq<Table>, select: Select, k: int)
    ensures TablesDue(d, tables + more, select, k) == TablesDue(d, tables, select, k) + TablesDue(d, more, select, k)
    decreases |more|
  {
    hide Due;
    if more == [] {
      assert tables + more == tables;
    } else {
      var n := |more| - 1;
      TablesDueParts(d, tables, more[..n], select, k);
      assert (tables + more)[..|tables| + n] == tables + more[..n];
    }
  }

  lemma TablesKnownPrefix(list: seq<Entry>, d: Database, tables: seq<Table>, all: seq<Table>, select: Select)
    requires Formed(list) && tables <= all && TablesKnown(list, d, all, select)
    ensures TablesKnown(list, d, tables, select)
  {
    hide RowsKnown;
    assert forall i :: 0 <= i < |tables| ==> tables[i] == all[i];
  }

  /** Visits more tables of a database after those visited already. */
  method ProgressMore(state: Converter, d: Database, ghost visited: seq<Table>, more: seq<Table>, ghost all: seq<Table>,
                      select: Select, ghost done: seq<Job>)
    requires Formed(state.linkedList) && ProperTables(more) && Shaped(select) && visited + more <= all
    requires Running(state, state.processNumConditions,
                     done + TablesDue(d, visited, select, state.processNumConditions))
    requires TablesKnown(state.linkedList, d, visited, select)
    requires state.processNumConditions == 0 || TablesKnown(state.linkedList, d, all, select)
    modifies state`linkedList, state`oldMax, state`updates, state`errors
    ensures old(state.linkedList) <= state.linkedList && Formed(state.linkedList)
    ensures Running(state, state.processNumConditions,
              done + TablesDue(d, visited + more, select, state.processNumConditions))
    ensures TablesKnown(state.linkedList, d, visited + more, select)
    ensures state.processNumConditions == 0 || TablesKnown(state.linkedList, d, all, select)
    ensures state.Value() == AfterTables(old(state.Value()), d, more, select, state.processNumConditions)
  {
    hide *;
    ghost var k, before := state.processNumConditions, state.linkedList;
    if k != 0 {
      TablesKnownPrefix(before, d, visited + more, all, select);
      TablesKnownParts(before, d, visited, more, select);
    }
    ProgressTables(state, d, more, select, done + TablesDue(d, visited, select, k));
    TablesKnownExtends(before, state.linkedList, d, visited, select);
    TablesKnownParts(state.linkedList, d, visited, more, select);
    TablesDueParts(d, visited, more, select, k);
    assert done + TablesDue(d, visited, select, k) + TablesDue(d, more, select, k)
        == done + (TablesDue(d, visited, select, k) + TablesDue(d, more, select, k));
    if k != 0 {
      TablesKnownExtends(before, state.linkedList, d, all, select);
    }
  }

  lemma TablesAreProper()
    ensures ProperTables(LOOT_TABLES) && ProperTables(LOOT_TABLES_1) && ProperTables(LOOT_TABLES_2)
    ensures ProperTables(MENU_TABLES) && ProperTables(OPTION_TABLES)
  {
  }

  lemma LootTablesAre(e: int)
    ensures [] + LOOT_TABLES <= LootTables(e)
    ensures e >= 1 ==> [] + LOOT_TABLES + LOOT_TABLES_1 <= LootTables(e)
    ensures e >= 2 ==> [] + LOOT_TABLES + LOOT_TABLES_1 + LOOT_TABLES_2 == LootTables(e)
    ensures e == 1 ==> [] + LOOT_TABLES + LOOT_TABLES_1 == LootTables(e)
    ensures e < 1 ==> [] + LOOT_TABLES == LootTables(e)
  {
  }

  lemma NothingVisited(list: seq<Entry>, d: Database, select: Select, k: int, done: seq<Job>)
    requires Formed(list)
    ensures TablesKnown(list, d, [], select) && done + TablesDue(d, [], select, k) == done
  {
  }

  method DoLootTables(state: Converter, d: Database, ghost all: seq<Table>, select: Select, ghost done: seq<Job>)
    requires Formed(state.linkedList) && Shaped(select) && LootTables(d.expansion) <= all
    requires Running(state, state.processNumConditions, done)
    requires state.processNumConditions == 0 || TablesKnown(state.linkedList, d, all, select)
    modifies state`linkedList, state`oldMax, state`updates, state`errors
    ensures old(state.linkedList) <= state.linkedList && Formed(state.linkedList)
    ensures Running(state, state.processNumConditions,
              done + TablesDue(d, LootTables(d.expansion), select, state.processNumConditions))
    ensures TablesKnown(state.linkedList, d, LootTables(d.expansion), select)
    ensures state.processNumConditions == 0 || TablesKnown(state.linkedList, d, all, select)
    ensures state.Value()
         == AfterTables(old(state.Value()), d, LootTables(d.expansion), select, state.processNumConditions)
  {
    hide *;
    TablesAreProper();
    LootTablesAre(d.expansion);
    NothingVisited(state.linkedList, d, select, state.processNumConditions, done);
    ghost var k, log := state.processNumConditions, state.Value();
    ProgressMore(state, d, [], LOOT_TABLES, all, select, done);
    ghost var visited := [] + LOOT_TABLES;
    assert visited == LOOT_TABLES;
    if d.expansion >= 1 {
      ProgressMore(state, d, visited, LOOT_TABLES_1, all, select, done);
      AfterMoreTables(log, d, visited, LOOT_TABLES_1, select, k);
      visited := visited + LOOT_TABLES_1;
    }
    if d.expansion >= 2 {
      ProgressMore(state, d, visited, LOOT_TABLES_2, all, select, done);
      AfterMoreTables(log, d, visited, LOOT_TABLES_2, select, k);
      visited := visited + LOOT_TABLES_2;
    }
    assert visited == LootTables(d.expansion);
  }

  lemma VisitedIs(k: int, e: int)
    ensures k <= 1 ==> LootTables(e) <= Visited(k, e) && LootTables(e) + MENU_TABLES <= Visited(k, e)
                       && LootTables(e) + MENU_TABLES + OPTION_TABLES == Visited(k, e)
    ensures k == 2 ==> [] + MENU_TABLES <= Visited(k, e) && [] + MENU_TABLES + OPTION_TABLES == Visited(k, e)
    ensures k >= 3 ==> [] + OPTION_TABLES == Visited(k, e)
  {
    hide LootTables;
  }

  /** One database in one pass. */
  method DoTables(state: Converter, d: Database, select: Select, ghost done: seq<Job>)
    requires Running(state, state.processNumConditions, done) && Formed(state.linkedList) && Shaped(select)
    requires state.processNumConditions == 0 ||
      TablesKnown(state.linkedList, d, Visited(state.processNumConditions, d.expansion), select)
    modifies state`linkedList, state`oldMax, state`updates, state`errors
    ensures old(state.linkedList) <= state.linkedList && Formed(state.linkedList)
    ensures Running(state, state.processNumConditions, done
              + TablesDue(d, Visited(state.processNumConditions, d.expansion), select, state.processNumConditions))
    ensures TablesKnown(state.linkedList, d, Visited(state.processNumConditions, d.expansion), select)
    ensures state.Value()
              == AfterTables(old(state.Value()), d, Visited(state.processNumConditions, d.expansion), select,
                                         state.processNumConditions)
  {
    hide *;
    ghost var k, log := state.processNumConditions, state.Value();
    ghost var all := Visited(state.processNumConditions, d.expansion);
    NothingYet(log, d, Table("", 0), [], [], [], select, k);
    ghost var visited: seq<Table> := [];
    TablesAreProper();
    VisitedIs(state.processNumConditions, d.expansion);
    NothingVisited(state.linkedList, d, select, state.processNumConditions, done);
    if state.processNumConditions <= 1 {
      DoLootTables(state, d, all, select, done);
      visited := LootTables(d.expansion);
    }
    if state.processNumConditions < 3 {
      ProgressMore(state, d, visited, MENU_TABLES, all, select, done);
      AfterMoreTables(log, d, visited, MENU_TABLES, select, k);
      visited := visited + MENU_TABLES;
    }
    ProgressMore(state, d, visited, OPTION_TABLES, all, select, done);
    AfterMoreTables(log, d, visited, OPTION_TABLES, select, k);
  }

  lemma PassDueAppend(done: seq<Job>, databases: seq<Database>, select: Select, i: int, k: int)
    requires 0 <= i < |databases|
    ensures done + PassDue(databases[..i + 1], select, k)
         == done + PassDue(databases[..i], select, k)
            + TablesDue(databases[i], Visited(k, databases[i].expansion), select, k)
  {
    assert databases[..i + 1][..i] == databases[..i];
    hide TablesDue;
    hide Visited;
  }

  lemma AllTablesKnownAppend(list: seq<Entry>, databases: seq<Database>, select: Select, i: int)
    requires Formed(list) && 0 <= i < |databases| && AllTablesKnown(list, databases[..i], select)
    requires TablesKnown(list, databases[i], Visited(0, databases[i].expansion), select)
    ensures AllTablesKnown(list, databases[..i + 1], select)
  {
    hide TablesKnown;
    hide Visited;
  }

  lemma AllTablesKnownAt(list: seq<Entry>, databases: seq<Database>, select: Select, i: int, k: int)
    requires Formed(list) && 0 <= i < |databases| && AllTablesKnown(list, databases, select) && 0 <= k <= 3
    ensures TablesKnown(list, databases[i], Visited(k, databases[i].expansion), select)
  {
    assert TablesKnown(list, databases[i], Visited(0, databases[i].expansion), select);
    VisitedBefore(list, k, databases[i], select);
  }

  lemma NoDatabase(list: seq<Entry>, databases: seq<Database>, select: Select, k: int, done: seq<Job>)
    requires Formed(list)
    ensures AllTablesKnown(list, databases[..0], select) && done + PassDue(databases[..0], select, k) == done
  {
  }

  /** All databases in one pass. */
  method Pass(state: Converter, databases: seq<Database>, select: Select, ghost done: seq<Job>)
    requires Running(state, state.processNumConditions, done) && Formed(state.linkedList) && Shaped(select)
    requires 0 <= state.processNumConditions <= 3
    requires state.processNumConditions == 0 || AllTablesKnown(state.linkedList, databases, select)
    modifies state`linkedList, state`oldMax, state`updates, state`errors
    ensures old(state.linkedList) <= state.linkedList && Formed(state.linkedList)
    ensures Running(state, state.processNumConditions, done + PassDue(databases, select, state.processNumConditions))
    ensures AllTablesKnown(state.linkedList, databases, select)
    ensures state.Value() == AfterPass(old(state.Value()), databases, select, state.processNumConditions)
  {
    hide *;
    ghost var k, list, log := state.processNumConditions, state.linkedList, state.Value();
    NothingYet(log, Database("", 0), Table("", 0), [], [], databases, select, k);
    NoDatabase(list, databases, select, k, done);
    for i := 0 to |databases|
      invariant list <= state.linkedList && state.processNumConditions == k && Formed(state.linkedList)
      invariant Running(state, k, done + PassDue(databases[..i], select, k))
      invariant AllTablesKnown(state.linkedList, databases[..i], select)
      invariant state.Value() == AfterPass(log, databases[..i], select, k)
      invariant k == 0 || AllTablesKnown(state.linkedList, databases, select)
    {
      ghost var before := state.linkedList;
      if k != 0 {
        AllTablesKnownAt(before, databases, select, i, k);
      }
      NextDatabase(log, databases, select, i, k);
      DoTables(state, databases[i], select, done + PassDue(databases[..i], select, k));
      AllTablesKnownExtends(before, state.linkedList, databases[..i], select);
      if k != 0 {
        AllTablesKnownExtends(before, state.linkedList, databases, select);
        AllTablesKnownAt(state.linkedList, databases, select, i, 0);
      }
      AllTablesKnownAppend(state.linkedList, databases, select, i);
      PassDueAppend(done, databases, select, i, k);
    }
    assert databases[..|databases|] == databases;
  }

  lemma {:induction false} NothingDueAtFirst(d: Database, t: Table, rows: seq<Row>)
    ensures Due(d, t, rows, 0) == []
  {
    if rows != [] {
      NothingDueAtFirst(d, t, rows[..|rows| - 1]);
    }
  }

  lemma {:induction false} NoTablesDueAtFirst(d: Database, tables: seq<Table>, select: Select)
    ensures TablesDue(d, tables, select, 0) == []
  {
    hide Due;
    if tables != [] {
      var n := |tables| - 1;
      NoTablesDueAtFirst(d, tables[..n], select);
      NothingDueAtFirst(d, tables[n], select(d, tables[n]));
    }
  }

  lemma {:induction false} NoPassDueAtFirst(databases: seq<Database>, select: Select)
    ensures PassDue(databases, select, 0) == []
  {
    hide TablesDue;
    hide Visited;
    if databases != [] {
      var n := |databases| - 1;
      NoPassDueAtFirst(databases[..n], select);
      NoTablesDueAtFirst(databases[n], Visited(0, databases[n].expansion), select);
    }
  }

  /** The jobs of the passes before pass k. */
  function DueBefore(databases: seq<Database>, select: Select, k: nat): seq<Job> {
    if k == 0 then [] else DueBefore(databases, select, k - 1) + PassDue(databases, select, k - 1)
  }

  method StartPass(state: Converter, k: int, ghost done: seq<Job>)
    requires Running(state, state.processNumConditions, done) && 0 <= k <= 3
    modifies state`processNumConditions
    ensures Running(state, k, done) && Formed(state.linkedList)
    ensures state.processNumConditions == k && state.linkedList == old(state.linkedList)
    ensures state.Value() == old(state.Value())
  {
    state.processNumConditions := k;
  }

  method Start() returns (state: Converter)
    ensures fresh(state) && Running(state, state.processNumConditions, []) && Formed(state.linkedList)
    ensures state.Value() == Log([INITIAL_FILL], [])
  {
    state := new Converter();
  }

  /** The whole run: every job is answered, in the order of passes, databases, tables and rows, by an update
      whose entry joins exactly the conditions of the row; no condition is ever missing. */
  method Run(databases: seq<Database>, select: Select) returns (state: Converter)
    requires Shaped(select)
    ensures fresh(state) && state.Valid() && state.errors == 0
    ensures Answered(state.linkedList, state.updates, DueBefore(databases, select, 4))
    ensures state.Value() == AfterPasses(databases, select, 4)
  {
    hide AfterPasses;
    state := Start();
    RunPasses(state, databases, select);
  }

  lemma BeforePasses(databases: seq<Database>, select: Select)
    ensures DueBefore(databases, select, 0) == [] && AfterPasses(databases, select, 0) == Log([INITIAL_FILL], [])
  {
  }

  lemma NextPass(databases: seq<Database>, select: Select, k: nat)
    ensures AfterPasses(databases, select, k + 1) == AfterPass(AfterPasses(databases, select, k), databases, select, k)
    ensures DueBefore(databases, select, k + 1) == DueBefore(databases, select, k) + PassDue(databases, select, k)
  {
    hide AfterPass;
    hide PassDue;
  }

  method RunPasses(state: Converter, databases: seq<Database>, select: Select)
    requires Running(state, state.processNumConditions, []) && Formed(state.linkedList) && Shaped(select)
    requires state.Value() == Log([INITIAL_FILL], [])
    modifies state
    ensures Running(state, state.processNumConditions, DueBefore(databases, select, 4))
    ensures state.Value() == AfterPasses(databases, select, 4)
  {
    hide *;
    BeforePasses(databases, select);
    for i := 0 to 4
      invariant Formed(state.linkedList)
      invariant Running(state, state.processNumConditions, DueBefore(databases, select, i))
      invariant i == 0 || AllTablesKnown(state.linkedList, databases, select)
      invariant state.Value() == AfterPasses(databases, select, i)
    {
      NextPass(databases, select, i);
      StartPass(state, i, DueBefore(databases, select, i));
      Pass(state, databases, select, DueBefore(databases, select, i));
    }
  }

  // ---------- every row once ----------

  /** The jobs of all rows with proper conditions, whatever their number. */
  function AllDue(d: Database, t: Table, rows: seq<Row>): seq<Job> {
    if rows == [] then []
    else
      var n := |rows| - 1;
      AllDue(d, t, rows[..n]) + if |Wanted(rows[n].conditions)| > 0 then [JobOf(d.name, t.name, rows[n])] else []
  }

  function AllTablesDue(d: Database, tables: seq<Table>, select: Select): seq<Job> {
    if tables == [] then []
    else
      var n := |tables| - 1;
      AllTablesDue(d, tables[..n], select) + AllDue(d, tables[n], select(d, tables[n]))
  }

  function AllPassesDue(databases: seq<Database>, select: Select): seq<Job> {
    if databases == [] then []
    else
      var n := |databases| - 1;
      AllPassesDue(databases[..n], select)
      + AllTablesDue(databases[n], Visited(0, databases[n].expansion), select)
  }

  function Three(a: seq<Job>, b: seq<Job>, c: seq<Job>): multiset<Job> {
    multiset(a) + multiset(b) + multiset(c)
  }

  lemma {:induction false} RowsOnce(d: Database, t: Table, rows: seq<Row>)
    ensures Three(Due(d, t, rows, 1), Due(d, t, rows, 2), Due(d, t, rows, 3)) == multiset(AllDue(d, t, rows))
  {
    if rows != [] {
      var n := |rows| - 1;
      var r := rows[n];
      RowsOnce(d, t, rows[..n]);
    }
  }

  /** A table with fewer columns has no job in a later pass. */
  lemma {:induction false} NothingDueBeyond(d: Database, t: Table, rows: seq<Row>, k: int)
    requires forall i :: 0 <= i < |rows| ==> |rows[i].conditions| < k
    ensures Due(d, t, rows, k) == []
  {
    if rows != [] {
      NothingDueBeyond(d, t, rows[..|rows| - 1], k);
    }
  }

  ghost predicate Narrow(tables: seq<Table>, k: int) {
    forall i :: 0 <= i < |tables| ==> tables[i].numberOfConditions < k
  }

  lemma {:induction false} NoTablesDueBeyond(d: Database, tables: seq<Table>, select: Select, k: int)
    requires Shaped(select) && Narrow(tables, k)
    ensures TablesDue(d, tables, select, k) == []
  {
    hide Due;
    if tables != [] {
      var n := |tables| - 1;
      NoTablesDueBeyond(d, tables[..n], select, k);
      NothingDueBeyond(d, tables[n], select(d, tables[n]), k);
    }
  }

  lemma TablesAreNarrow(e: int)
    ensures Narrow(LootTables(e), 2) && Narrow(LootTables(e) + MENU_TABLES, 3)
  {
  }

  /** The tables that a later pass leaves out have nothing due in it. */
  lemma VisitedSuffices(d: Database, select: Select, k: int)
    requires Shaped(select) && 1 <= k <= 3
    ensures TablesDue(d, Visited(k, d.expansion), select, k) == TablesDue(d, Visited(0, d.expansion), select, k)
  {
    var loot := LootTables(d.expansion);
    VisitedIs(0, d.expansion);
    VisitedIs(k, d.expansion);
    TablesAreNarrow(d.expansion);
    hide *;
    if k == 1 {
    } else if k == 2 {
      NoTablesDueBeyond(d, loot, select, 2);
      TablesDueParts(d, loot, MENU_TABLES + OPTION_TABLES, select, 2);
      assert loot + (MENU_TABLES + OPTION_TABLES) == loot + MENU_TABLES + OPTION_TABLES;
      assert [] + MENU_TABLES + OPTION_TABLES == MENU_TABLES + OPTION_TABLES;
    } else {
      NoTablesDueBeyond(d, loot + MENU_TABLES, select, 3);
      TablesDueParts(d, loot + MENU_TABLES, OPTION_TABLES, select, 3);
      assert [] + OPTION_TABLES == OPTION_TABLES;
    }
  }

  lemma {:induction false} TablesOnce(d: Database, tables: seq<Table>, select: Select)
    ensures Three(TablesDue(d, tables, select, 1), TablesDue(d, tables, select, 2), TablesDue(d, tables, select, 3))
         == multiset(AllTablesDue(d, tables, select))
  {
    hide Due;
    hide AllDue;
    if tables != [] {
      var n := |tables| - 1;
      var t, some := tables[n], tables[..n];
      var rows := select(d, t);
      TablesOnce(d, some, select);
      RowsOnce(d, t, rows);
      hide Three;
    }
  }

  lemma {:induction false} DatabasesOnce(databases: seq<Database>, select: Select)
    requires Shaped(select)
    ensures Three(PassDue(databases, select, 1), PassDue(databases, select, 2), PassDue(databases, select, 3))
         == multiset(AllPassesDue(databases, select))
  {
    hide Visited;
    hide TablesDue;
    hide AllTablesDue;
    if databases != [] {
      var n := |databases| - 1;
      var d, some := databases[n], databases[..n];
      var all := Visited(0, d.expansion);
      DatabasesOnce(some, select);
      TablesOnce(d, all, select);
      VisitedSuffices(d, select, 1);
      VisitedSuffices(d, select, 2);
      VisitedSuffices(d, select, 3);
      hide Three;
    }
  }

  /** Every row with a proper condition, of every table that its database has, gives rise to exactly one update
      over the run, and no other row to any. */
  lemma EveryRowOnce(databases: seq<Database>, select: Select)
    requires Shaped(select)
    ensures multiset(DueBefore(databases, select, 4)) == multiset(AllPassesDue(databases, select))
  {
    var a, b, c := PassDue(databases, select, 1), PassDue(databases, select, 2), PassDue(databases, select, 3);
    DatabasesOnce(databases, select);
    assert DueBefore(databases, select, 0) == [];
    assert multiset(a + b + c) == Three(a, b, c);
    hide *;
    NoPassDueAtFirst(databases, select);
    assert DueBefore(databases, select, 1) == [];
    assert DueBefore(databases, select, 2) == a;
    assert DueBefore(databases, select, 4) == a + b + c;
  }

  /** Rows with the same proper conditions get the same id. */
  lemma SameConditionsSameId(list: seq<Entry>, updates: seq<Update>, jobs: seq<Job>, i: int, j: int)
    requires Sound(list) && Answered(list, updates, jobs) && 0 <= i < |jobs| && 0 <= j < |jobs|
    ensures jobs[i].wanted == jobs[j].wanted <==> updates[i].conditionId == updates[j].conditionId
  {
    assert Answers(list, updates[i], jobs[i]) && Answers(list, updates[j], jobs[j]);
  }

  /** What an update refers to holds exactly when all proper conditions of its row hold. */
  lemma UpdateMeansRow(list: seq<Entry>, update: Update, job: Job, holds: Condition -> bool)
    requires Formed(list) && Answers(list, update, job)
    ensures Eval(list, holds, update.conditionId) <==> forall c :: c in job.wanted ==> holds(c)
  {
    EvalIsConjunction(list, holds, update.conditionId);
  }

  /** The INSERT rows: all entries but the initial fill, each once and in order; the fill alone if there is no other. */
  method Dump(state: Converter) returns (dump: seq<Entry>)
    requires state.Valid()
    ensures state.oldMax > 0 ==> dump == state.linkedList[1..]
    ensures state.oldMax == 0 ==> dump == [INITIAL_FILL]
    ensures forall i :: 0 <= i < |dump| && state.oldMax > 0 ==> dump[i].id == i + 1
  {
    dump := [];
    var i := 1;
    while i < state.oldMax
      invariant 1 <= i <= |state.linkedList| && (i == 1 || i <= state.oldMax) && dump == state.linkedList[1..i]
    {
      dump := dump + [state.linkedList[i]];
      i := i + 1;
    }
    dump := dump + [state.linkedList[state.oldMax]];
  }
}
