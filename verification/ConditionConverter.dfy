/** The passes that turn the conditions of table rows into entries of one shared list. */
module ConditionConverter {
  import opened Conditions
  import opened ConditionSteps

  const NO_CONDITION := Condition(0, 0, 0)

  /** One selected row: its keys and as many conditions as its table has columns for. */
  datatype Row = Row(key1: int, key2: int, conditions: seq<Condition>)

  datatype Update = Update(database: string, table: string, key1: int, key2: int, conditionId: int)

  function At(conditions: seq<Condition>, i: nat): Condition {
    if i < |conditions| then conditions[i] else NO_CONDITION
  }

  function Part(c: Condition): multiset<Condition> {
    if c.kind > 0 then multiset{c} else multiset{}
  }

  function Proper(c: Condition): int {
    if c.kind > 0 then 1 else 0
  }

  function Parts(a: Condition, b: Condition, c: Condition): multiset<Condition> {
    Part(a) + Part(b) + Part(c)
  }

  function Trio(a: Condition, b: Condition, c: Condition): multiset<Condition> {
    multiset{a} + multiset{b} + multiset{c}
  }

  lemma SwappedTrio(a: Condition, b: Condition, c: Condition)
    ensures Parts(a, b, c) == Parts(b, a, c) == Parts(a, c, b)
    ensures Trio(a, b, c) == Trio(b, a, c) == Trio(a, c, b)
  {
    hide Part;
  }

  /** The proper conditions of a row. */
  function Wanted(conditions: seq<Condition>): (m: multiset<Condition>)
    ensures |m| <= 3 && |m| <= |conditions|
  {
    Parts(At(conditions, 0), At(conditions, 1), At(conditions, 2))
  }

  // ---------- ordering the conditions of a row ----------

  /** The conditions of a row in descending order, and none for the columns its table does not have. */
  predicate AreDescending(conditions: seq<Condition>, c1: Condition, c2: Condition, c3: Condition)
    requires 1 <= |conditions| <= 3
  {
    && Descending(conditions) == [c1, c2, c3][..|conditions|]
    && (|conditions| < 2 ==> c2 == NO_CONDITION) && (|conditions| < 3 ==> c3 == NO_CONDITION)
  }

  /** What two or three exchanges make of a row. */
  ghost function Exchanged(conditions: seq<Condition>): (r: (Condition, Condition, Condition))
    requires 1 <= |conditions| <= 3
  {
    var a, b, c := conditions[0], At(conditions, 1), At(conditions, 2);
    if |conditions| == 1 then (a, b, c)
    else
      var (p, q) := if CompareCondition(b, a) then (b, a) else (a, b);
      if |conditions| == 2 then (p, q, c)
      else
        var (r, s) := if CompareCondition(c, q) then (c, q) else (q, c);
        var (t, u) := if CompareCondition(r, p) then (r, p) else (p, r);
        (t, u, s)
  }

  lemma ExchangedIsSorted(conditions: seq<Condition>)
    requires 1 <= |conditions| <= 3
    ensures var (c1, c2, c3) := Exchanged(conditions);
      && AreDescending(conditions, c1, c2, c3)
  {
    if |conditions| == 1 {
      assert conditions == [conditions[0]];
      DescendingTwo(conditions[0], NO_CONDITION);
    } else if |conditions| == 2 {
      assert conditions == [conditions[0], conditions[1]];
      DescendingTwo(conditions[0], conditions[1]);
    } else {
      assert conditions == [conditions[0], conditions[1], conditions[2]];
      DescendingThree(conditions[0], conditions[1], conditions[2]);
    }
    hide Descending;
    hide CompareCondition;
  }

  lemma ExchangedInOrder(conditions: seq<Condition>)
    requires 1 <= |conditions| <= 3
    ensures var (c1, c2, c3) := Exchanged(conditions);
      && (|conditions| >= 2 ==> !CompareCondition(c2, c1))
      && (|conditions| >= 3 ==> !CompareCondition(c3, c2) && !CompareCondition(c3, c1))
      && (c3.kind > 0 ==> c2.kind > 0) && (c2.kind > 0 ==> c1.kind > 0)
  {
  }

  /** Sorts three conditions, the greatest first. */
  method OrderConditions(conditions: seq<Condition>) returns (c1: Condition, c2: Condition, c3: Condition)
    requires 1 <= |conditions| <= 3
    ensures |conditions| >= 2 ==> !CompareCondition(c2, c1)
    ensures |conditions| >= 3 ==> !CompareCondition(c3, c2) && !CompareCondition(c3, c1)
    ensures Trio(c1, c2, c3) == Trio(At(conditions, 0), At(conditions, 1), At(conditions, 2))
    ensures Parts(c1, c2, c3) == Wanted(conditions)
    ensures (c3.kind > 0 ==> c2.kind > 0) && (c2.kind > 0 ==> c1.kind > 0)
    ensures AreDescending(conditions, c1, c2, c3)
  {
    ExchangedIsSorted(conditions);
    ExchangedInOrder(conditions);
    hide AreDescending;
    hide CompareCondition;
    hide Parts;
    hide Trio;
    var n := |conditions|;
    c1, c2, c3 := conditions[0], NO_CONDITION, NO_CONDITION;
    if n >= 2 {
      c2 := conditions[1];
    }
    if n >= 3 {
      c3 := conditions[2];
    }
    if n >= 2 && CompareCondition(c2, c1) {
      SwappedTrio(c1, c2, c3);
      c1, c2 := c2, c1;
    }
    if n >= 3 {
      if CompareCondition(c3, c2) {
        SwappedTrio(c1, c2, c3);
        c2, c3 := c3, c2;
      }
      if CompareCondition(c2, c1) {
        SwappedTrio(c1, c2, c3);
        c1, c2 := c2, c1;
      }
    }
    assert (c1, c2, c3) == Exchanged(conditions);
  }

  // ---------- what the list has to offer ----------

  ghost predicate Known(list: seq<Entry>, c: Condition)
    requires Formed(list)
  {
    exists i :: Listed(list, i) && IsSameCondition(c, list[i])
  }

  ghost predicate AllKnown(list: seq<Entry>, m: multiset<Condition>)
    requires Formed(list)
  {
    forall c :: c in m ==> Known(list, c)
  }

  /** What is known stays known while the list grows. */
  lemma KnownExtends(list: seq<Entry>, longer: seq<Entry>, m: multiset<Condition>)
    requires Formed(list) && Formed(longer) && list <= longer && AllKnown(list, m)
    ensures AllKnown(longer, m)
  {
    forall c | c in m
      ensures Known(longer, c)
    {
      var i :| Listed(list, i) && IsSameCondition(c, list[i]);
      assert Listed(longer, i) && longer[i] == list[i];
    }
  }

  /** The entry joins exactly the given conditions. */
  ghost predicate Denotes(list: seq<Entry>, id: int, m: multiset<Condition>)
    requires Formed(list)
  {
    Listed(list, id) && Flat(list, id) == m
  }

  lemma DenotesExtends(list: seq<Entry>, longer: seq<Entry>, id: int, m: multiset<Condition>)
    requires Formed(list) && Formed(longer) && list <= longer && Denotes(list, id, m)
    ensures Denotes(longer, id, m)
  {
    FlatExtends(list, longer, id);
  }

  lemma FoundStep(list: seq<Entry>, c: Condition, i: nat)
    requires i < |list|
    ensures Found(list[..i + 1], c) ==
              if Found(list[..i], c) != 0 then Found(list[..i], c)
              else if IsSameCondition(c, list[i]) then list[i].id else 0
  {
    assert list[..i + 1][..i] == list[..i];
  }

  /** What is found in a prefix is found first. */
  lemma {:induction false} FoundStays(list: seq<Entry>, c: Condition, i: nat)
    requires i <= |list| && Found(list[..i], c) != 0
    ensures Found(list, c) == Found(list[..i], c)
    decreases |list|
  {
    if i == |list| {
      assert list[..i] == list;
    } else {
      var most := list[..|list| - 1];
      assert most[..i] == list[..i];
      FoundStays(most, c, i);
    }
  }

  /** The list and the updates written so far. */
  datatype Log = Log(list: seq<Entry>, updates: seq<Update>)

  /** The list after one row in pass k, and the update it gives rise to: the row's conditions are learned, greatest
      first, or their entries joined, once all of them are in the list. */
  function AfterRow(log: Log, database: string, table: string, row: Row, k: int): Log {
    var sorted := Descending(row.conditions);
    var n := ProperOnes(sorted);
    if n > 3 then log
    else if k == 0 then Log(LearnedFirst(log.list, sorted, n), log.updates)
    else if n != k then log
    else WithAnswer(log, database, table, row, FoundFirst(log.list, sorted, n), n)
  }

  /** With an update that refers to the first n entries joined, unless one of them was not found. */
  function WithAnswer(log: Log, database: string, table: string, row: Row, f: seq<int>, n: nat): Log
    requires |f| == 3 && n <= 3
  {
    if 0 in f[..n] then log
    else
      var linked := Joined(log.list, f, n);
      Log(linked.list, log.updates + [Update(database, table, row.key1, row.key2, linked.id)])
  }

  lemma SortedRow(conditions: seq<Condition>, c1: Condition, c2: Condition, c3: Condition)
    requires 1 <= |conditions| <= 3 && AreDescending(conditions, c1, c2, c3)
    requires (c3.kind > 0 ==> c2.kind > 0) && (c2.kind > 0 ==> c1.kind > 0)
    ensures var sorted, n := Descending(conditions), Proper(c1) + Proper(c2) + Proper(c3);
      && n == ProperOnes(sorted) && (n >= 1 ==> sorted[0] == c1) && (n >= 2 ==> sorted[1] == c2)
      && (n >= 3 ==> sorted[2] == c3)
  {
    var sorted := Descending(conditions);
    hide Descending;
    OnesAre(sorted);
  }

  lemma OneIsMissing(f0: int, f1: int, f2: int, n: nat)
    requires n <= 3
    ensures 0 in [f0, f1, f2][..n] <==> (n >= 1 && f0 == 0) || (n >= 2 && f1 == 0) || (n >= 3 && f2 == 0)
  {
    var f := [f0, f1, f2];
    assert forall i :: 0 <= i < n ==> f[..n][i] == f[i];
    if n >= 1 && f0 == 0 {
      assert f[..n][0] == 0;
    }
    if n >= 2 && f1 == 0 {
      assert f[..n][1] == 0;
    }
    if n >= 3 && f2 == 0 {
      assert f[..n][2] == 0;
    }
  }

  lemma AnswerIs(log: Log, database: string, table: string, row: Row, f: seq<int>, n: nat)
    requires |f| == 3 && n <= 3
    ensures WithAnswer(log, database, table, row, f, n) ==
            if 0 in f[..n] then log
            else
              var linked := Joined(log.list, f, n);
              Log(linked.list, log.updates + [Update(database, table, row.key1, row.key2, linked.id)])
  {
  }

  lemma SameRow(list: seq<Entry>, sorted: seq<Condition>, c1: Condition, c2: Condition, c3: Condition, n: nat)
    requires n <= |sorted| && n <= 3
    requires (n >= 1 ==> sorted[0] == c1) && (n >= 2 ==> sorted[1] == c2) && (n >= 3 ==> sorted[2] == c3)
    ensures LearnedFirst(list, sorted, n) == LearnedFirst(list, [c1, c2, c3], n)
    ensures FoundFirst(list, sorted, n) == FoundFirst(list, [c1, c2, c3], n)
  {
    LearnedSame(list, sorted, [c1, c2, c3], n);
    hide LearnedFirst;
    hide Found;
  }

  lemma OnesAre(sorted: seq<Condition>)
    requires 1 <= |sorted| <= 3
    ensures ProperOnes(sorted) == Proper(sorted[0]) + (if |sorted| >= 2 then Proper(sorted[1]) else 0)
                                  + (if |sorted| >= 3 then Proper(sorted[2]) else 0)
  {
    if |sorted| >= 2 {
      assert sorted[1..][0] == sorted[1];
      if |sorted| >= 3 {
        assert sorted[1..][1..][0] == sorted[2] && sorted[1..][1..][1..] == [];
      }
    }
  }

  class Converter {
    var linkedList: seq<Entry>
    var oldMax: int
    var processNumConditions: int
    /** The UPDATE statements written, of all databases. */
    var updates: seq<Update>
    /** How often a condition of a row was missing. */
    var errors: nat

    ghost predicate Valid()
      reads this
    {
      Sound(linkedList) && oldMax == |linkedList| - 1
    }

    ghost function Value(): Log
      reads this
    {
      Log(linkedList, updates)
    }

    constructor ()
      ensures Valid() && linkedList == [INITIAL_FILL] && updates == [] && errors == 0 && processNumConditions == 0
    {
      linkedList := [INITIAL_FILL];
      oldMax := 0;
      processNumConditions := 0;
      updates := [];
      errors := 0;
    }

    method InsertCondition(c: Condition)
      modifies this`linkedList, this`oldMax
      ensures oldMax == old(oldMax) + 1
      ensures linkedList == old(linkedList) + [Entry(oldMax, c.kind, c.value1, c.value2)]
    {
      oldMax := oldMax + 1;
      linkedList := linkedList + [Entry(oldMax, c.kind, c.value1, c.value2)];
    }

    method FindCondition(c: Condition) returns (id: int)
      requires Formed(linkedList) && c.kind != 0
      ensures id == 0 ==> forall i :: Listed(linkedList, i) ==> !IsSameCondition(c, linkedList[i])
      ensures id != 0 ==> Listed(linkedList, id) && IsSameCondition(c, linkedList[id])
      ensures id == Found(linkedList, c)
    {
      assert linkedList[..0] == [];
      for i := 0 to |linkedList|
        invariant forall j :: 0 <= j < i ==> !IsSameCondition(c, linkedList[j])
        invariant Found(linkedList[..i], c) == 0
      {
        FoundStep(linkedList, c, i);
        if IsSameCondition(c, linkedList[i]) {
          FoundStays(linkedList, c, i + 1);
          return linkedList[i].id;
        }
      }
      assert linkedList[..|linkedList|] == linkedList;
      return 0;
    }

    /** Looks for AND of a and b in this order, then in the other. */
    method FindJoin(a: int, b: int) returns (id: int)
      requires Formed(linkedList)
      ensures id == 0 ==> forall i :: Listed(linkedList, i) ==> !Joins(linkedList[i], a, b)
      ensures id != 0 ==> Listed(linkedList, id) && Joins(linkedList[id], a, b)
      ensures id == FoundJoin(linkedList, a, b)
    {
      id := FindCondition(Condition(AND, a, b));
      if id == 0 {
        var other := FindCondition(Condition(AND, b, a));
        forall i | id == other && Listed(linkedList, i)
          ensures !Joins(linkedList[i], a, b)
        {
          assert !IsSameCondition(Condition(AND, a, b), linkedList[i]);
          assert !IsSameCondition(Condition(AND, b, a), linkedList[i]);
        }
        id := other;
      }
    }

    /** Adds a condition unless the list has it. */
    method Learn(c: Condition)
      requires Valid() && c.kind > 0
      modifies this`linkedList, this`oldMax
      ensures Valid() && old(linkedList) <= linkedList && AllKnown(linkedList, Part(c))
      ensures linkedList == Learned(old(linkedList), c)
    {
      var id := FindCondition(c);
      if id == 0 {
        ghost var list := linkedList;
        NoBase(list, c);
        InsertCondition(c);
        assert Flat(linkedList, |list|) == multiset{c};
        InsertKeepsSound(list, linkedList[|list|], multiset{c});
        id := oldMax;
      }
      assert Listed(linkedList, id) && IsSameCondition(c, linkedList[id]);
    }

    /** Adds the AND of two entries when nothing joins their conditions yet. */
    method InsertJoin(a: int, b: int)
      requires Valid() && Listed(linkedList, a) && Listed(linkedList, b)
      requires Absent(linkedList, Flat(linkedList, a) + Flat(linkedList, b))
      requires |Flat(linkedList, a) + Flat(linkedList, b)| <= 3
      modifies this`linkedList, this`oldMax
      ensures Valid() && old(linkedList) <= linkedList && |linkedList| == |old(linkedList)| + 1
      ensures linkedList == Appended(old(linkedList), Condition(AND, a, b)) && oldMax == |old(linkedList)|
      ensures Denotes(linkedList, oldMax, old(Flat(linkedList, a)) + old(Flat(linkedList, b)))
    {
      ghost var list := linkedList;
      ghost var m := Flat(list, a) + Flat(list, b);
      InsertCondition(Condition(AND, a, b));
      FlatExtends(list, linkedList, a);
      FlatExtends(list, linkedList, b);
      assert Flat(linkedList, oldMax) == m;
      InsertKeepsSound(list, linkedList[|list|], m);
    }

    /** The entry for two conditions, found or made. */
    method JoinTwo(f0: int, f1: int) returns (id: int)
      requires Valid() && IsBase(linkedList, f0) && IsBase(linkedList, f1)
      modifies this`linkedList, this`oldMax
      ensures Valid() && old(linkedList) <= linkedList
      ensures Denotes(linkedList, id, old(Flat(linkedList, f0)) + old(Flat(linkedList, f1)))
      ensures Linked(linkedList, id) == JoinedTwo(old(linkedList), f0, f1)
    {
      id := FindJoin(f1, f0);
      if id == 0 {
        NoPair(linkedList, f1, f0);
        InsertJoin(f1, f0);
        id := oldMax;
      }
    }

    /** Looks for the entry that joins two conditions. */
    method SearchPair(a: int, b: int) returns (id: int)
      requires Valid() && IsBase(linkedList, a) && IsBase(linkedList, b)
      ensures PairSearched(linkedList, id, a, b) && id == FoundJoin(linkedList, a, b)
    {
      id := FindJoin(a, b);
      if id == 0 {
        NoPair(linkedList, a, b);
      }
    }

    /** Searches the three pairs; makes one of them if there is none. */
    method SearchSplits(f: seq<int>) returns (notSearched: seq<int>)
      requires Valid() && BaseTriple(linkedList, f)
      modifies this`linkedList, this`oldMax
      ensures Valid() && old(linkedList) <= linkedList && BaseTriple(linkedList, f)
      ensures SumOfThree(linkedList, f) == old(SumOfThree(linkedList, f))
      ensures Splits(linkedList, notSearched, f) && notSearched != [0, 0, 0]
      ensures NoneJoined(linkedList, notSearched, f) ==> Absent(linkedList, SumOfThree(linkedList, f))
      ensures SplitLinked(linkedList, notSearched, f) == JoinedThree(old(linkedList), f)
    {
      hide SplitLinked;
      hide FoundJoin;
      hide Sound;
      hide Absent;
      hide Flat;
      hide Splits;
      ghost var list := linkedList;
      var ns2 := SearchPair(f[0], f[1]);
      var ns1 := SearchPair(f[0], f[2]);
      var ns0 := SearchPair(f[1], f[2]);
      notSearched := [ns0, ns1, ns2];
      SplitsFound(list, f, ns0, ns1, ns2);
      if NoneJoined(list, notSearched, f) {
        NoSplitJoined(list, f, ns0, ns1, ns2);
      }
      if notSearched == [0, 0, 0] {
        TwoOfThree(list, f);
        InsertJoin(f[1], f[2]);
        notSearched := [oldMax, 0, 0];
        SoundIsFormed(linkedList);
        MadePair(list, linkedList, f, oldMax);
      }
    }

    /** Looks for one of the pairs joined with the condition it leaves over. */
    method FindSplitJoin(notSearched: seq<int>, f: seq<int>) returns (last: int)
      requires BaseTriple(linkedList, f) && Splits(linkedList, notSearched, f)
      ensures last == 0 ==> NoneJoined(linkedList, notSearched, f)
      ensures last != 0 ==> Denotes(linkedList, last, SumOfThree(linkedList, f))
      ensures last == SplitJoined(linkedList, notSearched, f, 0)
    {
      hide FoundJoin;
      last := 0;
      for i := 0 to 3
        invariant last == 0
        invariant SplitJoined(linkedList, notSearched, f, 0) == SplitJoined(linkedList, notSearched, f, i)
        invariant forall j :: 0 <= j < i && notSearched[j] > 0 ==> NotJoined(linkedList, notSearched[j], f[j])
      {
        if notSearched[i] > 0 {
          last := FindJoin(notSearched[i], f[i]);
          if last > 0 {
            JoinIsSum(linkedList, last, notSearched[i], f[i]);
            SplitIsSum(linkedList, notSearched, f, i);
            return;
          }
        }
      }
    }

    /** The entry for three conditions: a pair joined with the condition left over, found or made. */
    method JoinThree(f: seq<int>) returns (last: int)
      requires Valid() && BaseTriple(linkedList, f)
      modifies this`linkedList, this`oldMax
      ensures Valid() && old(linkedList) <= linkedList
      ensures Denotes(linkedList, last, old(SumOfThree(linkedList, f)))
      ensures Linked(linkedList, last) == JoinedThree(old(linkedList), f)
    {
      hide Sound;
      hide SumOfThree;
      hide Split;
      hide JoinedThree;
      hide SplitJoined;
      var notSearched := SearchSplits(f);
      last := FindSplitJoin(notSearched, f);
      if last == 0 {
        var i := 0;
        while i < 2 && notSearched[i] == 0
          invariant 0 <= i <= 2 && forall j :: 0 <= j < i ==> notSearched[j] == 0
        {
          i := i + 1;
        }
        SplitIsSum(linkedList, notSearched, f, i);
        InsertJoin(f[i], notSearched[i]);
        last := oldMax;
      }
    }

    /** Looks up a proper condition; counts it when it is there. */
    method Lookup(c: Condition, wanted: bool, countFound: int) returns (id: int, count: int)
      requires Formed(linkedList) && (wanted <==> c.kind > 0)
      ensures count == countFound + if id != 0 then 1 else 0
      ensures id != 0 <==> wanted && Known(linkedList, c)
      ensures id != 0 ==> IsBase(linkedList, id) && Flat(linkedList, id) == Part(c)
      ensures id == if wanted then Found(linkedList, c) else 0
    {
      id, count := 0, countFound;
      if wanted {
        id := FindCondition(c);
        if id > 0 {
          BaseIs(linkedList, id);
          count := countFound + 1;
        }
      }
    }

    /** Looks up the conditions of a row and counts those that are there. */
    method LookupAll(c1: Condition, c2: Condition, c3: Condition, rowConditionNumber: int)
      returns (founds: seq<int>, countFound: int)
      requires Formed(linkedList) && 1 <= rowConditionNumber == Proper(c1) + Proper(c2) + Proper(c3)
      requires (c3.kind > 0 ==> c2.kind > 0) && (c2.kind > 0 ==> c1.kind > 0)
      ensures |founds| == 3 && founds == FoundFirst(linkedList, [c1, c2, c3], rowConditionNumber)
      ensures countFound == rowConditionNumber <==> AllKnown(linkedList, Parts(c1, c2, c3))
      ensures countFound == rowConditionNumber <==> 0 !in founds[..rowConditionNumber]
      ensures countFound == rowConditionNumber ==>
                && AllBase(linkedList, founds, rowConditionNumber)
                && SumOf(linkedList, founds, rowConditionNumber) == Parts(c1, c2, c3)
    {
      hide Flat;
      hide Found;
      KnownParts(linkedList, c1, c2, c3);
      hide Parts;
      hide AllKnown;
      hide Known;
      hide IsBase;
      hide SumOf;
      var found0, found1, found2;
      found0, countFound := Lookup(c1, rowConditionNumber >= 1, 0);
      found1, countFound := Lookup(c2, rowConditionNumber >= 2, countFound);
      found2, countFound := Lookup(c3, rowConditionNumber >= 3, countFound);
      founds := [found0, found1, found2];
      OneIsMissing(found0, found1, found2, rowConditionNumber);
      if countFound == rowConditionNumber {
        FoundSum(linkedList, c1, c2, c3, founds, rowConditionNumber);
      }
    }

    /** The entry for one, two or three conditions in the list. */
    method Join(founds: seq<int>, rowConditionNumber: int, ghost m: multiset<Condition>) returns (last: int)
      requires Valid() && 1 <= rowConditionNumber <= 3 && |founds| == 3
      requires AllBase(linkedList, founds, rowConditionNumber)
      requires m == SumOf(linkedList, founds, rowConditionNumber)
      modifies this`linkedList, this`oldMax
      ensures Valid() && old(linkedList) <= linkedList && Denotes(linkedList, last, m)
      ensures Linked(linkedList, last) == Joined(old(linkedList), founds, rowConditionNumber)
    {
      hide Flat;
      hide JoinedThree;
      hide JoinedTwo;
      hide Injective;
      hide Small;
      if rowConditionNumber == 3 {
        last := JoinThree(founds);
      } else if rowConditionNumber == 2 {
        last := JoinTwo(founds[0], founds[1]);
      } else {
        last := founds[0];
      }
    }

    /** One row in one pass. */
    method ProcessRow(database: string, table: string, row: Row)
      requires Valid() && 1 <= |row.conditions| <= 3 && 0 <= processNumConditions
      modifies this`linkedList, this`oldMax, this`updates, this`errors
      ensures Valid() && old(linkedList) <= linkedList && old(updates) <= updates
      ensures processNumConditions == 0 ==> AllKnown(linkedList, Wanted(row.conditions))
      ensures processNumConditions == 0 || |Wanted(row.conditions)| != processNumConditions ==>
                updates == old(updates) && errors == old(errors)
      ensures processNumConditions > 0 && |Wanted(row.conditions)| != processNumConditions ==>
                linkedList == old(linkedList)
      ensures 0 < processNumConditions == |Wanted(row.conditions)|
              && old(AllKnown(linkedList, Wanted(row.conditions))) ==>
                errors == old(errors) && |updates| == |old(updates)| + 1
                && Answers(linkedList, updates[|old(updates)|], JobOf(database, table, row))
      ensures 0 < processNumConditions == |Wanted(row.conditions)|
              && !old(AllKnown(linkedList, Wanted(row.conditions))) ==>
                errors == old(errors) + 1 && linkedList == old(linkedList) && updates == old(updates)
      ensures Value() == AfterRow(old(Value()), database, table, row, processNumConditions)
    {
      hide Sound;
      hide Flat;
      hide WithAnswer;
      hide LearnedFirst;
      hide FoundFirst;
      hide Descending;
      hide ProperOnes;
      SoundIsFormed(linkedList);
      var c1, c2, c3 := OrderConditions(row.conditions);
      SortedRow(row.conditions, c1, c2, c3);
      SameRow(linkedList, Descending(row.conditions), c1, c2, c3, Proper(c1) + Proper(c2) + Proper(c3));
      hide AreDescending;
      ghost var m := Parts(c1, c2, c3);
      KnownParts(linkedList, c1, c2, c3);
      hide Wanted;
      hide Parts;
      hide Part;
      hide AllKnown;
      var rowConditionNumber := Proper(c1) + Proper(c2) + Proper(c3);
      if processNumConditions == 0 {
        LearnAll(c1, c2, c3, rowConditionNumber);
        return;
      }
      if processNumConditions != rowConditionNumber {
        return;
      }
      Answer(c1, c2, c3, rowConditionNumber, database, table, row);
    }

    /** Currently processing: finds the conditions, links to their entry and writes the update. */
    method Answer(c1: Condition, c2: Condition, c3: Condition, rowConditionNumber: int,
                  database: string, table: string, row: Row)
      requires Valid() && 1 <= rowConditionNumber == Proper(c1) + Proper(c2) + Proper(c3)
      requires (c3.kind > 0 ==> c2.kind > 0) && (c2.kind > 0 ==> c1.kind > 0)
      requires Parts(c1, c2, c3) == Wanted(row.conditions)
      modifies this`linkedList, this`oldMax, this`updates, this`errors
      ensures Valid() && old(linkedList) <= linkedList && old(updates) <= updates
      ensures old(AllKnown(linkedList, Wanted(row.conditions))) ==>
                errors == old(errors) && |updates| == |old(updates)| + 1
                && Answers(linkedList, updates[|old(updates)|], JobOf(database, table, row))
      ensures !old(AllKnown(linkedList, Wanted(row.conditions))) ==>
                errors == old(errors) + 1 && linkedList == old(linkedList) && updates == old(updates)
      ensures var f := FoundFirst(old(linkedList), [c1, c2, c3], rowConditionNumber);
        Value() == WithAnswer(old(Value()), database, table, row, f, rowConditionNumber)
    {
      hide Sound;
      hide Joined;
      hide FoundFirst;
      hide WithAnswer;
      hide Wanted;
      hide Parts;
      hide AllKnown;
      hide AllBase;
      hide SumOf;
      SoundIsFormed(linkedList);
      var founds, countFound := LookupAll(c1, c2, c3, rowConditionNumber);
      AnswerIs(Value(), database, table, row, founds, rowConditionNumber);
      if countFound != rowConditionNumber {
        errors := errors + 1;
        return;
      }
      var last := Join(founds, rowConditionNumber, Wanted(row.conditions));
      updates := updates + [Update(database, table, row.key1, row.key2, last)];
    }

    /** Just insert. */
    method LearnAll(c1: Condition, c2: Condition, c3: Condition, rowConditionNumber: int)
      requires Valid() && (c3.kind > 0 ==> c2.kind > 0) && (c2.kind > 0 ==> c1.kind > 0)
      requires rowConditionNumber == Proper(c1) + Proper(c2) + Proper(c3)
      modifies this`linkedList, this`oldMax
      ensures Valid() && old(linkedList) <= linkedList && AllKnown(linkedList, Parts(c1, c2, c3))
      ensures linkedList == LearnedFirst(old(linkedList), [c1, c2, c3], rowConditionNumber)
    {
      hide Learned;
      ghost var list0 := linkedList;
      LearnedInTurn(list0, c1, c2, c3);
      if rowConditionNumber >= 1 {
        Learn(c1);
      }
      ghost var list1 := linkedList;
      if rowConditionNumber >= 2 {
        Learn(c2);
      }
      ghost var list2 := linkedList;
      if rowConditionNumber >= 3 {
        Learn(c3);
      }
      KnownExtends(list1, linkedList, Part(c1));
      KnownExtends(list2, linkedList, Part(c2));
    }
  }

  lemma LearnedInTurn(list: seq<Entry>, c1: Condition, c2: Condition, c3: Condition)
    ensures LearnedFirst(list, [c1, c2, c3], 0) == list
    ensures LearnedFirst(list, [c1, c2, c3], 1) == Learned(list, c1)
    ensures LearnedFirst(list, [c1, c2, c3], 2) == Learned(Learned(list, c1), c2)
    ensures LearnedFirst(list, [c1, c2, c3], 3) == Learned(Learned(Learned(list, c1), c2), c3)
  {
    hide Learned;
  }

  /** Only the first n conditions matter. */
  lemma {:induction false} LearnedSame(list: seq<Entry>, a: seq<Condition>, b: seq<Condition>, n: nat)
    requires n <= |a| && n <= |b| && forall i :: 0 <= i < n ==> a[i] == b[i]
    ensures LearnedFirst(list, a, n) == LearnedFirst(list, b, n)
  {
    hide Learned;
    if n > 0 {
      LearnedSame(list, a, b, n - 1);
    }
  }

  // ---------- rows and the updates that answer them ----------

  /** What one row asks for: an update of its keys with an entry for exactly these conditions. */
  datatype Job = Job(database: string, table: string, key1: int, key2: int, wanted: multiset<Condition>)

  function JobOf(database: string, table: string, row: Row): Job {
    Job(database, table, row.key1, row.key2, Wanted(row.conditions))
  }

  ghost predicate Answers(list: seq<Entry>, update: Update, job: Job)
    requires Formed(list)
  {
    && update.database == job.database && update.table == job.table
    && update.key1 == job.key1 && update.key2 == job.key2
    && Denotes(list, update.conditionId, job.wanted)
  }

  ghost predicate AllBase(list: seq<Entry>, f: seq<int>, n: int)
    requires Formed(list) && |f| == 3
  {
    (n >= 1 ==> IsBase(list, f[0])) && (n >= 2 ==> IsBase(list, f[1])) && (n >= 3 ==> IsBase(list, f[2]))
  }

  ghost function SumOf(list: seq<Entry>, f: seq<int>, n: int): multiset<Condition>
    requires Formed(list) && 1 <= n <= 3 && |f| == 3 && AllBase(list, f, n)
  {
    if n == 3 then SumOfThree(list, f)
    else if n == 2 then Flat(list, f[0]) + Flat(list, f[1])
    else Flat(list, f[0])
  }

  lemma KnownParts(list: seq<Entry>, c1: Condition, c2: Condition, c3: Condition)
    requires Formed(list)
    ensures AllKnown(list, Parts(c1, c2, c3)) <==>
      && (c1.kind > 0 ==> Known(list, c1)) && (c2.kind > 0 ==> Known(list, c2)) && (c3.kind > 0 ==> Known(list, c3))
  {
    hide Known;
    var m := Parts(c1, c2, c3);
    assert forall c :: c in m <==> c in Part(c1) || c in Part(c2) || c in Part(c3);
  }

  lemma FoundSum(list: seq<Entry>, c1: Condition, c2: Condition, c3: Condition, f: seq<int>, n: int)
    requires Formed(list) && 1 <= n <= 3 && |f| == 3 && AllBase(list, f, n)
    requires (c3.kind > 0 ==> c2.kind > 0) && (c2.kind > 0 ==> c1.kind > 0)
    requires n == Proper(c1) + Proper(c2) + Proper(c3)
    requires n >= 1 ==> Flat(list, f[0]) == Part(c1)
    requires n >= 2 ==> Flat(list, f[1]) == Part(c2)
    requires n >= 3 ==> Flat(list, f[2]) == Part(c3)
    ensures SumOf(list, f, n) == Parts(c1, c2, c3)
  {
    hide Flat;
  }

  ghost predicate BaseTriple(list: seq<Entry>, f: seq<int>) {
    Formed(list) && |f| == 3 && IsBase(list, f[0]) && IsBase(list, f[1]) && IsBase(list, f[2])
  }

  ghost function SumOfThree(list: seq<Entry>, f: seq<int>): multiset<Condition>
    requires BaseTriple(list, f)
  {
    Flat(list, f[0]) + Flat(list, f[1]) + Flat(list, f[2])
  }

  ghost predicate NotJoined(list: seq<Entry>, a: int, b: int) {
    forall i :: Listed(list, i) ==> !Joins(list[i], a, b)
  }

  ghost predicate Split(list: seq<Entry>, pair: int, one: int, m: multiset<Condition>)
    requires Formed(list)
  {
    pair == 0 || (Listed(list, pair) && Listed(list, one) && Flat(list, pair) + Flat(list, one) == m)
  }

  ghost predicate Splits(list: seq<Entry>, ns: seq<int>, f: seq<int>)
    requires BaseTriple(list, f)
  {
    |ns| == 3 && forall i :: 0 <= i < 3 ==> Split(list, ns[i], f[i], SumOfThree(list, f))
  }

  ghost predicate NoneJoined(list: seq<Entry>, ns: seq<int>, f: seq<int>)
    requires |ns| == |f| == 3
  {
    forall i :: 0 <= i < 3 && ns[i] > 0 ==> NotJoined(list, ns[i], f[i])
  }

  lemma SoundIsFormed(list: seq<Entry>)
    requires Sound(list)
    ensures Formed(list)
  {
  }

  lemma SumRegroups(x: multiset<Condition>, y: multiset<Condition>, z: multiset<Condition>)
    ensures y + z + x == x + y + z && x + z + y == x + y + z
  {
  }

  ghost predicate SplitsSearched(list: seq<Entry>, f: seq<int>, ns0: int, ns1: int, ns2: int)
    requires BaseTriple(list, f)
  {
    && PairSearched(list, ns0, f[1], f[2]) && PairSearched(list, ns1, f[0], f[2])
    && PairSearched(list, ns2, f[0], f[1])
  }

  /** The pairs found split the triple. */
  lemma SplitsFound(list: seq<Entry>, f: seq<int>, ns0: int, ns1: int, ns2: int)
    requires BaseTriple(list, f) && SplitsSearched(list, f, ns0, ns1, ns2)
    ensures Splits(list, [ns0, ns1, ns2], f)
  {
    SumRegroups(Flat(list, f[0]), Flat(list, f[1]), Flat(list, f[2]));
    hide Flat;
    hide Absent;
    hide IsBase;
    assert Split(list, ns0, f[0], SumOfThree(list, f));
    assert Split(list, ns1, f[1], SumOfThree(list, f));
    assert Split(list, ns2, f[2], SumOfThree(list, f));
  }

  /** If none of them is joined with the condition left over, the triple is missing. */
  lemma NoSplitJoined(list: seq<Entry>, f: seq<int>, ns0: int, ns1: int, ns2: int)
    requires Sound(list) && BaseTriple(list, f) && SplitsSearched(list, f, ns0, ns1, ns2)
    requires NoneJoined(list, [ns0, ns1, ns2], f)
    ensures Absent(list, SumOfThree(list, f))
  {
    var ns := [ns0, ns1, ns2];
    assert ns[0] > 0 ==> NotJoined(list, ns[0], f[0]);
    assert ns[1] > 0 ==> NotJoined(list, ns[1], f[1]);
    assert ns[2] > 0 ==> NotJoined(list, ns[2], f[2]);
    hide Sound;
    hide Flat;
    hide Absent;
    forall i | Listed(list, i)
      ensures !JoinsSplit(list, i, f[0], f[1], f[2], ns0, ns1, ns2)
    {
      hide Joins;
    }
    NoTriple(list, f[0], f[1], f[2], ns0, ns1, ns2);
  }

  lemma TwoOfThree(list: seq<Entry>, f: seq<int>)
    requires BaseTriple(list, f)
    ensures |Flat(list, f[1]) + Flat(list, f[2])| == 2 && |SumOfThree(list, f)| == 3
  {
  }

  /** Making the first pair leaves the triple missing. */
  lemma MadePair(list: seq<Entry>, longer: seq<Entry>, f: seq<int>, id: int)
    requires Formed(list) && Formed(longer) && list <= longer && |longer| == |list| + 1 && id == |list|
    requires BaseTriple(list, f) && Absent(list, SumOfThree(list, f))
    requires Denotes(longer, id, Flat(list, f[1]) + Flat(list, f[2]))
    ensures BaseTriple(longer, f) && SumOfThree(longer, f) == SumOfThree(list, f)
    ensures Splits(longer, [id, 0, 0], f) && Absent(longer, SumOfThree(longer, f))
  {
    FlatExtends(list, longer, f[0]);
    FlatExtends(list, longer, f[1]);
    FlatExtends(list, longer, f[2]);
    TwoOfThree(list, f);
    SumRegroups(Flat(list, f[0]), Flat(list, f[1]), Flat(list, f[2]));
    forall i | Listed(longer, i)
      ensures Flat(longer, i) != SumOfThree(list, f)
    {
      if i < |list| {
        assert Listed(list, i);
        FlatExtends(list, longer, i);
      }
    }
  }

  lemma JoinIsSum(list: seq<Entry>, i: int, a: int, b: int)
    requires Formed(list) && Listed(list, i) && Joins(list[i], a, b)
    ensures Listed(list, a) && Listed(list, b) && Flat(list, i) == Flat(list, a) + Flat(list, b)
  {
  }

  lemma SplitIsSum(list: seq<Entry>, ns: seq<int>, f: seq<int>, i: int)
    requires BaseTriple(list, f) && Splits(list, ns, f) && 0 <= i < 3 && ns[i] != 0
    ensures Listed(list, f[i]) && Listed(list, ns[i])
    ensures Flat(list, f[i]) + Flat(list, ns[i]) == SumOfThree(list, f) && |SumOfThree(list, f)| <= 3
  {
    TwoOfThree(list, f);
    assert Split(list, ns[i], f[i], SumOfThree(list, f));
  }
}
