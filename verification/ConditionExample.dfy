/** A run over one database: the list and the updates it ends with. */
module ConditionExample {
  import opened Conditions
  import opened ConditionSteps
  import opened ConditionConverter
  import opened ConditionPasses

  const DB := Database("db", 0)
  const LOOT := Table("creature_loot_template", 1)
  const MENU := Table("gossip_menu", 2)
  const OPTION := Table("gossip_menu_option", 3)

  const A := Condition(9, 1, 1)
  const B := Condition(5, 6, 7)
  const C := Condition(2, 1, 1)

  /** The conditions of the rows are in no particular order, and the last row has only two proper ones. */
  function Rows(d: Database, t: Table): seq<Row> {
    if t == LOOT then [Row(1, 2, [B])]
    else if t == MENU then [Row(3, 4, [C, A])]
    else if t == OPTION then [Row(5, 6, [C, B, A]), Row(7, 8, [NO_CONDITION, A, C])]
    else []
  }

  lemma RowsAreShaped()
    ensures Shaped(Rows)
  {
  }

  // ---------- searching ----------

  lemma {:induction false} FoundAt(list: seq<Entry>, c: Condition, i: nat)
    requires i < |list| && IsSameCondition(c, list[i]) && list[i].id != 0
    requires forall j :: 0 <= j < i ==> !IsSameCondition(c, list[j])
    ensures Found(list, c) == list[i].id
    decreases |list|
  {
    hide IsSameCondition;
    var most := list[..|list| - 1];
    if i < |list| - 1 {
      FoundAt(most, c, i);
    } else {
      NotFound(most, c);
    }
  }

  lemma {:induction false} NotFound(list: seq<Entry>, c: Condition)
    requires forall j :: 0 <= j < |list| ==> !IsSameCondition(c, list[j])
    ensures Found(list, c) == 0
  {
    hide IsSameCondition;
    if list != [] {
      NotFound(list[..|list| - 1], c);
    }
  }

  const BASE := [INITIAL_FILL, Entry(1, 5, 6, 7), Entry(2, 9, 1, 1), Entry(3, 2, 1, 1)]
  const WITH_PAIR := BASE + [Entry(4, AND, 3, 2)]
  const WITH_TRIPLE := WITH_PAIR + [Entry(5, AND, 1, 4)]

  lemma FoundInFirst()
    ensures Found([INITIAL_FILL], B) == 0
    ensures Found([INITIAL_FILL, Entry(1, 5, 6, 7)], A) == 0
    ensures Found([INITIAL_FILL, Entry(1, 5, 6, 7), Entry(2, 9, 1, 1)], C) == 0
  {
    NotFound([INITIAL_FILL], B);
    NotFound([INITIAL_FILL, Entry(1, 5, 6, 7)], A);
    NotFound([INITIAL_FILL, Entry(1, 5, 6, 7), Entry(2, 9, 1, 1)], C);
  }

  /** Where the conditions are in a list that starts with the three. */
  lemma FoundInBase(list: seq<Entry>)
    requires BASE <= list
    ensures Found(list, A) == 2 && Found(list, B) == 1 && Found(list, C) == 3
  {
    assert list[0] == INITIAL_FILL && list[1] == Entry(1, 5, 6, 7);
    assert list[2] == Entry(2, 9, 1, 1) && list[3] == Entry(3, 2, 1, 1);
    FoundAt(list, A, 2);
    FoundAt(list, B, 1);
    FoundAt(list, C, 3);
  }

  lemma JoinsInBase()
    ensures FoundJoin(BASE, 3, 2) == 0
  {
    NotFound(BASE, Condition(AND, 3, 2));
    NotFound(BASE, Condition(AND, 2, 3));
  }

  lemma JoinsWithPair()
    ensures FoundJoin(WITH_PAIR, 3, 2) == 4 && FoundJoin(WITH_PAIR, 2, 3) == 4
    ensures FoundJoin(WITH_PAIR, 1, 3) == 0 && FoundJoin(WITH_PAIR, 2, 1) == 0 && FoundJoin(WITH_PAIR, 4, 1) == 0
  {
    FoundAt(WITH_PAIR, Condition(AND, 3, 2), 4);
    NotFound(WITH_PAIR, Condition(AND, 2, 3));
    NotFound(WITH_PAIR, Condition(AND, 1, 3));
    NotFound(WITH_PAIR, Condition(AND, 3, 1));
    NotFound(WITH_PAIR, Condition(AND, 2, 1));
    NotFound(WITH_PAIR, Condition(AND, 1, 2));
    NotFound(WITH_PAIR, Condition(AND, 4, 1));
    NotFound(WITH_PAIR, Condition(AND, 1, 4));
  }

  // ---------- single rows ----------

  lemma Sorted()
    ensures Descending([B]) == [B] && Descending([C, A]) == [A, C]
    ensures Descending([C, B, A]) == [A, B, C] && Descending([NO_CONDITION, A, C]) == [A, C, NO_CONDITION]
  {
    DescendingTwo(B, C);
    DescendingTwo(C, A);
    DescendingThree(C, B, A);
    DescendingThree(NO_CONDITION, A, C);
    hide Descending;
  }

  lemma Counted()
    ensures ProperOnes([B]) == 1 && ProperOnes([A, C]) == 2
    ensures ProperOnes([A, B, C]) == 3 && ProperOnes([A, C, NO_CONDITION]) == 2
  {
    OnesAre([B]);
    OnesAre([A, C]);
    OnesAre([A, B, C]);
    OnesAre([A, C, NO_CONDITION]);
    hide ProperOnes;
  }

  const LOOT_ROW := Row(1, 2, [B])
  const MENU_ROW := Row(3, 4, [C, A])
  const THREE_ROW := Row(5, 6, [C, B, A])
  const TWO_ROW := Row(7, 8, [NO_CONDITION, A, C])

  lemma Skips(log: Log, table: string, row: Row, k: int)
    requires k > 0 && ProperOnes(Descending(row.conditions)) != k
    ensures AfterRow(log, "db", table, row, k) == log
  {
    hide Descending;
    hide ProperOnes;
    hide WithAnswer;
  }

  /** All conditions of the row are in the list: none is added in the first pass. */
  lemma {:induction false} NothingToLearn(list: seq<Entry>, sorted: seq<Condition>, n: nat)
    requires n <= |sorted| && forall i :: 0 <= i < n ==> Found(list, sorted[i]) != 0
    ensures LearnedFirst(list, sorted, n) == list
  {
    hide Found;
    if n > 0 {
      NothingToLearn(list, sorted, n - 1);
    }
  }

  const AFTER_LOOT := [INITIAL_FILL, Entry(1, 5, 6, 7)]

  lemma FirstPassRows()
    ensures AfterRow(Log([INITIAL_FILL], []), "db", LOOT.name, LOOT_ROW, 0) == Log(AFTER_LOOT, [])
    ensures AfterRow(Log(AFTER_LOOT, []), "db", MENU.name, MENU_ROW, 0) == Log(BASE, [])
  {
    Sorted();
    Counted();
    FoundInFirst();
    hide Descending;
    hide ProperOnes;
    hide Found;
    assert LearnedFirst([INITIAL_FILL], [B], 0) == [INITIAL_FILL];
    assert LearnedFirst([INITIAL_FILL], [B], 1) == AFTER_LOOT;
    assert LearnedFirst(AFTER_LOOT, [A, C], 0) == AFTER_LOOT;
    assert LearnedFirst(AFTER_LOOT, [A, C], 1) == AFTER_LOOT + [Entry(2, 9, 1, 1)];
    assert AFTER_LOOT + [Entry(2, 9, 1, 1)] == [INITIAL_FILL, Entry(1, 5, 6, 7), Entry(2, 9, 1, 1)];
    assert AFTER_LOOT + [Entry(2, 9, 1, 1)] + [Entry(3, 2, 1, 1)] == BASE;
    assert LearnedFirst(AFTER_LOOT, [A, C], 2) == BASE;
    hide LearnedFirst;
  }

  lemma OptionRowsAtFirst()
    ensures AfterRow(Log(BASE, []), "db", OPTION.name, THREE_ROW, 0) == Log(BASE, [])
    ensures AfterRow(Log(BASE, []), "db", OPTION.name, TWO_ROW, 0) == Log(BASE, [])
  {
    Sorted();
    Counted();
    FoundInBase(BASE);
    hide Descending;
    hide ProperOnes;
    hide Found;
    NothingToLearn(BASE, [A, B, C], 3);
    NothingToLearn(BASE, [A, C, NO_CONDITION], 2);
    hide LearnedFirst;
  }

  const U1 := Update("db", "creature_loot_template", 1, 2, 1)
  const U2 := Update("db", "gossip_menu", 3, 4, 4)
  const U3 := Update("db", "gossip_menu_option", 7, 8, 4)
  const U4 := Update("db", "gossip_menu_option", 5, 6, 5)

  lemma AnswerIs(log: Log, table: string, row: Row, sorted: seq<Condition>, n: nat, f: seq<int>, linked: Linked)
    requires Descending(row.conditions) == sorted && ProperOnes(sorted) == n && 1 <= n <= 3
    requires FoundFirst(log.list, sorted, n) == f && 0 !in f[..n] && Joined(log.list, f, n) == linked
    ensures AfterRow(log, "db", table, row, n)
         == Log(linked.list, log.updates + [Update("db", table, row.key1, row.key2, linked.id)])
  {
    hide Descending;
    hide ProperOnes;
    hide FoundFirst;
    hide Joined;
  }

  lemma OneCondition()
    ensures AfterRow(Log(BASE, []), "db", LOOT.name, LOOT_ROW, 1) == Log(BASE, [U1])
  {
    Sorted();
    Counted();
    FoundInBase(BASE);
    hide Descending;
    hide ProperOnes;
    hide Found;
    assert FoundFirst(BASE, [B], 1) == [1, 0, 0] && [1, 0, 0][..1] == [1];
    AnswerIs(Log(BASE, []), LOOT.name, LOOT_ROW, [B], 1, [1, 0, 0], Linked(BASE, 1));
  }

  lemma TwoConditions()
    ensures AfterRow(Log(BASE, [U1]), "db", MENU.name, MENU_ROW, 2) == Log(WITH_PAIR, [U1, U2])
    ensures AfterRow(Log(WITH_PAIR, [U1, U2]), "db", OPTION.name, TWO_ROW, 2) == Log(WITH_PAIR, [U1, U2, U3])
  {
    Sorted();
    Counted();
    FoundInBase(BASE);
    FoundInBase(WITH_PAIR);
    JoinsInBase();
    JoinsWithPair();
    hide Descending;
    hide ProperOnes;
    hide Found;
    hide FoundJoin;
    assert [2, 3, 0][..2] == [2, 3];
    assert FoundFirst(BASE, [A, C], 2) == [2, 3, 0] && FoundFirst(WITH_PAIR, [A, C, NO_CONDITION], 2) == [2, 3, 0];
    assert Joined(BASE, [2, 3, 0], 2) == Linked(WITH_PAIR, 4)
           && Joined(WITH_PAIR, [2, 3, 0], 2) == Linked(WITH_PAIR, 4);
    AnswerIs(Log(BASE, [U1]), MENU.name, MENU_ROW, [A, C], 2, [2, 3, 0], Linked(WITH_PAIR, 4));
    AnswerIs(Log(WITH_PAIR, [U1, U2]), OPTION.name, TWO_ROW, [A, C, NO_CONDITION], 2, [2, 3, 0], Linked(WITH_PAIR, 4));
    assert [U1] + [U2] == [U1, U2] && [U1, U2] + [U3] == [U1, U2, U3];
  }

  lemma ThreeConditions()
    ensures AfterRow(Log(WITH_PAIR, [U1, U2, U3]), "db", OPTION.name, THREE_ROW, 3)
         == Log(WITH_TRIPLE, [U1, U2, U3, U4])
  {
    Sorted();
    Counted();
    FoundInBase(WITH_PAIR);
    JoinsWithPair();
    hide Descending;
    hide ProperOnes;
    hide Found;
    hide FoundJoin;
    var f := [2, 1, 3];
    assert f[..3] == f && FoundFirst(WITH_PAIR, [A, B, C], 3) == f;
    var pairs := PairsFound(WITH_PAIR, f);
    assert pairs == [0, 4, 0];
    assert SplitJoined(WITH_PAIR, pairs, f, 3) == 0;
    assert SplitJoined(WITH_PAIR, pairs, f, 2) == 0;
    assert SplitJoined(WITH_PAIR, pairs, f, 1) == 0;
    assert SplitJoined(WITH_PAIR, pairs, f, 0) == 0;
    assert SplitLinked(WITH_PAIR, pairs, f) == Linked(WITH_TRIPLE, 5);
    assert Joined(WITH_PAIR, f, 3) == Linked(WITH_TRIPLE, 5);
    AnswerIs(Log(WITH_PAIR, [U1, U2, U3]), OPTION.name, THREE_ROW, [A, B, C], 3, f, Linked(WITH_TRIPLE, 5));
    assert [U1, U2, U3] + [U4] == [U1, U2, U3, U4];
  }

  // ---------- tables and passes ----------

  lemma OneRow(log: Log, t: Table, row: Row, k: int)
    ensures AfterRows(log, DB, t, [row], k) == AfterRow(log, "db", t.name, row, k)
  {
    hide AfterRow;
    assert [row][..0] == [];
  }

  lemma TwoRows(log: Log, t: Table, a: Row, b: Row, k: int)
    ensures AfterRows(log, DB, t, [a, b], k) == AfterRow(AfterRow(log, "db", t.name, a, k), "db", t.name, b, k)
  {
    hide AfterRow;
    OneRow(log, t, a, k);
    assert [a, b][..1] == [a];
  }

  lemma OneTable(log: Log, t: Table, k: int)
    ensures AfterTables(log, DB, [t], Rows, k) == AfterRows(log, DB, t, Rows(DB, t), k)
  {
    hide AfterRows;
    hide Rows;
    assert [t][..0] == [];
  }

  /** Tables without rows change nothing. */
  lemma {:induction false} EmptyTables(log: Log, tables: seq<Table>, k: int)
    requires forall i :: 0 <= i < |tables| ==> Rows(DB, tables[i]) == []
    ensures AfterTables(log, DB, tables, Rows, k) == log
    decreases |tables|
  {
    hide Rows;
    if tables != [] {
      EmptyTables(log, tables[..|tables| - 1], k);
    }
  }

  lemma LootOnly(log: Log, k: int)
    ensures AfterTables(log, DB, LootTables(0), Rows, k) == AfterRow(log, "db", LOOT.name, LOOT_ROW, k)
  {
    var before, after := LOOT_TABLES[..1], LOOT_TABLES[2..];
    assert LootTables(0) == before + ([LOOT] + after);
    LootNames();
    AfterMoreTables(log, DB, before, [LOOT] + after, Rows, k);
    EmptyTables(log, before, k);
    AfterMoreTables(log, DB, [LOOT], after, Rows, k);
    OneTable(log, LOOT, k);
    OneRow(log, LOOT, LOOT_ROW, k);
    EmptyTables(AfterTables(log, DB, [LOOT], Rows, k), after, k);
  }

  lemma LootNames()
    ensures |LOOT_TABLES| == 9 && LOOT_TABLES[1] == LOOT
    ensures forall i :: 0 <= i < 9 && i != 1 ==> Rows(DB, LOOT_TABLES[i]) == []
  {
  }

  /** One pass: the loot tables in the first two, the menus but in the last, and the options. */
  lemma PassIs(log: Log, k: int, loot: Log, menu: Log, three: Log, option: Log)
    requires 0 <= k <= 3
    requires loot == if k <= 1 then AfterRow(log, "db", LOOT.name, LOOT_ROW, k) else log
    requires menu == if k < 3 then AfterRow(loot, "db", MENU.name, MENU_ROW, k) else loot
    requires three == AfterRow(menu, "db", OPTION.name, THREE_ROW, k)
    requires option == AfterRow(three, "db", OPTION.name, TWO_ROW, k)
    ensures AfterPass(log, [DB], Rows, k) == option
  {
    var first, second := if k <= 1 then LootTables(0) else [], if k < 3 then MENU_TABLES else [];
    OnePass(log, k);
    LootOnly(log, k);
    assert AfterTables(log, DB, [], Rows, k) == log && AfterTables(loot, DB, [], Rows, k) == loot;
    OneTable(loot, MENU, k);
    OneRow(loot, MENU, MENU_ROW, k);
    OneTable(menu, OPTION, k);
    TwoRows(menu, OPTION, THREE_ROW, TWO_ROW, k);
    assert MENU_TABLES == [MENU] && OPTION_TABLES == [OPTION];
    hide AfterRow;
    hide AfterRows;
    hide AfterTables;
    hide LootTables;
    AfterMoreTables(log, DB, first, second, Rows, k);
    AfterMoreTables(log, DB, first + second, OPTION_TABLES, Rows, k);
  }

  lemma OnePass(log: Log, k: int)
    ensures AfterPass(log, [DB], Rows, k)
         == AfterTables(log, DB,
                        (if k <= 1 then LootTables(0) else []) + (if k < 3 then MENU_TABLES else []) + OPTION_TABLES,
                        Rows, k)
  {
    hide AfterTables;
    hide LootTables;
    assert [DB][..0] == [];
  }

  lemma AfterAllPasses()
    ensures AfterPasses([DB], Rows, 4) == Log(WITH_TRIPLE, [U1, U2, U3, U4])
  {
    FirstPassRows();
    OptionRowsAtFirst();
    OneCondition();
    TwoConditions();
    ThreeConditions();
    Sorted();
    Counted();
    NextPass([DB], Rows, 0);
    NextPass([DB], Rows, 1);
    NextPass([DB], Rows, 2);
    NextPass([DB], Rows, 3);
    BeforePasses([DB], Rows);
    hide Descending;
    hide ProperOnes;
    hide AfterRow;
    hide AfterPass;
    hide AfterPasses;
    var start, learned := Log([INITIAL_FILL], []), Log(BASE, []);
    PassIs(start, 0, Log(AFTER_LOOT, []), learned, learned, learned);
    var one, two, three := Log(BASE, [U1]), Log(WITH_PAIR, [U1, U2]), Log(WITH_PAIR, [U1, U2, U3]);
    Skips(one, MENU.name, MENU_ROW, 1);
    Skips(one, OPTION.name, THREE_ROW, 1);
    Skips(one, OPTION.name, TWO_ROW, 1);
    PassIs(learned, 1, one, one, one, one);
    Skips(two, OPTION.name, THREE_ROW, 2);
    PassIs(one, 2, one, two, two, three);
    var all := Log(WITH_TRIPLE, [U1, U2, U3, U4]);
    Skips(all, OPTION.name, TWO_ROW, 3);
    PassIs(three, 3, three, three, all, all);
  }

  /** The greatest condition of a row is listed first, the pair is made once and used three times, and each row is
      updated in the pass of its number of conditions. */
  method RunExample() returns (list: seq<Entry>, updates: seq<Update>, errors: nat)
    ensures list == [Entry(0, 0, 0, 0), Entry(1, 5, 6, 7), Entry(2, 9, 1, 1), Entry(3, 2, 1, 1), Entry(4, -1, 3, 2),
                     Entry(5, -1, 1, 4)]
    ensures updates == [Update("db", "creature_loot_template", 1, 2, 1), Update("db", "gossip_menu", 3, 4, 4),
                        Update("db", "gossip_menu_option", 7, 8, 4), Update("db", "gossip_menu_option", 5, 6, 5)]
    ensures errors == 0
  {
    RowsAreShaped();
    AfterAllPasses();
    hide Shaped;
    hide AfterPasses;
    hide Running;
    hide DueBefore;
    var state := Run([DB], Rows);
    list, updates, errors := state.linkedList, state.updates, state.errors;
  }

  /** Which tables a pass visits, by the expansion of the database. */
  lemma TablesVisited()
    ensures Visited(0, 0) == Visited(1, 0) == LOOT_TABLES + [MENU, OPTION]
    ensures Visited(0, 1) == Visited(1, 1) == LOOT_TABLES + [Table("prospecting_loot_template", 1), MENU, OPTION]
    ensures Visited(0, 2) == Visited(1, 2)
         == LOOT_TABLES + [Table("prospecting_loot_template", 1), Table("spell_loot_template", 1),
                           Table("milling_loot_template", 1), MENU, OPTION]
    ensures Visited(2, 2) == [MENU, OPTION] && Visited(3, 2) == [OPTION]
  {
  }
}
