/** What the searches and insertions make of a list of conditions, as functions. */
module ConditionSteps {
  import opened Conditions

  /** The id of the first entry with a condition, or 0. */
  function Found(list: seq<Entry>, c: Condition): int {
    if list == [] then 0
    else
      var n := |list| - 1;
      var earlier := Found(list[..n], c);
      if earlier != 0 then earlier else if IsSameCondition(c, list[n]) then list[n].id else 0
  }

  /** The AND of two entries in this order, or else in the other. */
  function FoundJoin(list: seq<Entry>, a: int, b: int): int {
    var id := Found(list, Condition(AND, a, b));
    if id != 0 then id else Found(list, Condition(AND, b, a))
  }

  function Appended(list: seq<Entry>, c: Condition): seq<Entry> {
    list + [Entry(|list|, c.kind, c.value1, c.value2)]
  }

  /** With one more condition, unless the list has it. */
  function Learned(list: seq<Entry>, c: Condition): seq<Entry> {
    if Found(list, c) == 0 then Appended(list, c) else list
  }

  /** A list, and an entry of it. */
  datatype Linked = Linked(list: seq<Entry>, id: int)

  function JoinedTwo(list: seq<Entry>, f0: int, f1: int): Linked {
    var id := FoundJoin(list, f1, f0);
    if id != 0 then Linked(list, id) else Linked(Appended(list, Condition(AND, f1, f0)), |list|)
  }

  /** The three pairs, each at the place of the condition it leaves over. */
  function PairsFound(list: seq<Entry>, f: seq<int>): (ids: seq<int>)
    requires |f| == 3
    ensures |ids| == 3
  {
    [FoundJoin(list, f[1], f[2]), FoundJoin(list, f[0], f[2]), FoundJoin(list, f[0], f[1])]
  }

  /** The first place from i on at which a pair is joined with the condition left over gives that entry; or 0. */
  function SplitJoined(list: seq<Entry>, pairs: seq<int>, f: seq<int>, i: nat): int
    requires |pairs| == |f| == 3 && i <= 3
    decreases 3 - i
  {
    if i == 3 then 0
    else if pairs[i] > 0 && FoundJoin(list, pairs[i], f[i]) > 0 then FoundJoin(list, pairs[i], f[i])
    else SplitJoined(list, pairs, f, i + 1)
  }

  /** With the pairs given: an entry that is there already, or else the first pair joined with what it leaves over. */
  function SplitLinked(list: seq<Entry>, pairs: seq<int>, f: seq<int>): Linked
    requires |pairs| == |f| == 3
  {
    var id := SplitJoined(list, pairs, f, 0);
    var i := if pairs[0] != 0 then 0 else if pairs[1] != 0 then 1 else 2;
    if id != 0 then Linked(list, id) else Linked(Appended(list, Condition(AND, f[i], pairs[i])), |list|)
  }

  /** With three conditions joined; a pair of them is made first if there is none. */
  function JoinedThree(list: seq<Entry>, f: seq<int>): Linked
    requires |f| == 3
  {
    var pairs := PairsFound(list, f);
    if pairs == [0, 0, 0] then SplitLinked(Appended(list, Condition(AND, f[1], f[2])), [|list|, 0, 0], f)
    else SplitLinked(list, pairs, f)
  }

  /** With the first n of three entries joined. */
  function Joined(list: seq<Entry>, f: seq<int>, n: int): Linked
    requires |f| == 3
  {
    if n == 3 then JoinedThree(list, f) else if n == 2 then JoinedTwo(list, f[0], f[1]) else Linked(list, f[0])
  }

  // ---------- the order of conditions ----------

  /** A list of conditions in descending order with one more. */
  function Placed(c: Condition, sorted: seq<Condition>): seq<Condition> {
    if sorted == [] || !CompareCondition(sorted[0], c) then [c] + sorted else [sorted[0]] + Placed(c, sorted[1..])
  }

  function Descending(conditions: seq<Condition>): (sorted: seq<Condition>)
    ensures |sorted| == |conditions|
  {
    if conditions == [] then []
    else
      var rest := Descending(conditions[1..]);
      PlacedLength(conditions[0], rest);
      Placed(conditions[0], rest)
  }

  lemma {:induction false} PlacedLength(c: Condition, sorted: seq<Condition>)
    ensures |Placed(c, sorted)| == |sorted| + 1
  {
    if sorted != [] && CompareCondition(sorted[0], c) {
      PlacedLength(c, sorted[1..]);
    }
  }

  /** How many of some conditions are proper. */
  function ProperOnes(sorted: seq<Condition>): (n: nat)
    ensures n <= |sorted|
  {
    if sorted == [] then 0 else ProperOnes(sorted[1..]) + if sorted[0].kind > 0 then 1 else 0
  }

  lemma PlacedFirst(c: Condition, sorted: seq<Condition>)
    ensures sorted == [] ==> Placed(c, sorted) == [c]
    ensures sorted != [] ==>
              Placed(c, sorted)
                == if CompareCondition(sorted[0], c) then [sorted[0]] + Placed(c, sorted[1..]) else [c] + sorted
  {
    hide CompareCondition;
  }

  lemma DescendingTwo(a: Condition, b: Condition)
    ensures Descending([a]) == [a]
    ensures Descending([a, b]) == if CompareCondition(b, a) then [b, a] else [a, b]
  {
    assert [a, b][1..] == [b] && [b][1..] == [] && [a][1..] == [];
    assert Descending([b]) == [b] && Descending([a]) == [a];
    PlacedFirst(a, [b]);
    PlacedFirst(a, []);
    hide Placed;
    hide CompareCondition;
  }

  /** Three exchanges of neighbours sort three conditions. */
  lemma DescendingThree(a: Condition, b: Condition, c: Condition)
    ensures var (p, q) := if CompareCondition(b, a) then (b, a) else (a, b);
      var (r, s) := if CompareCondition(c, q) then (c, q) else (q, c);
      var (t, u) := if CompareCondition(r, p) then (r, p) else (p, r);
      Descending([a, b, c]) == [t, u, s]
  {
    DescendingTwo(b, c);
    assert [a, b, c][1..] == [b, c];
    var x, y := Descending([b, c])[0], Descending([b, c])[1];
    assert Descending([b, c]) == [x, y] && [x, y][1..] == [y] && [y][1..] == [];
    PlacedFirst(a, [x, y]);
    PlacedFirst(a, [y]);
    PlacedFirst(a, []);
    assert Descending([a, b, c]) == Placed(a, [x, y]);
    hide Placed;
    hide Descending;
  }

  /** The first n conditions learned in turn. */
  function LearnedFirst(list: seq<Entry>, conditions: seq<Condition>, n: nat): seq<Entry>
    requires n <= |conditions|
  {
    if n == 0 then list else Learned(LearnedFirst(list, conditions, n - 1), conditions[n - 1])
  }

  /** The entries of the first n conditions; 0 stands for the others. */
  function FoundFirst(list: seq<Entry>, conditions: seq<Condition>, n: nat): (f: seq<int>)
    requires n <= |conditions| && n <= 3
    ensures |f| == 3
  {
    [if n >= 1 then Found(list, conditions[0]) else 0, if n >= 2 then Found(list, conditions[1]) else 0,
     if n >= 3 then Found(list, conditions[2]) else 0]
  }
}
