/** Lists of conditions in which entries of kind AND join two earlier entries. */
module Conditions {
  datatype Condition = Condition(kind: int, value1: int, value2: int)

  datatype Entry = Entry(id: int, kind: int, value1: int, value2: int)

  const AND := -1
  const INITIAL_FILL := Entry(0, 0, 0, 0)

  predicate IsSameCondition(a: Condition, e: Entry) {
    a.kind == e.kind && a.value1 == e.value1 && a.value2 == e.value2
  }

  predicate CompareCondition(a: Condition, b: Condition) {
    if a.kind > b.kind then true
    else if a.kind == b.kind then
      if a.value1 > b.value1 then true
      else if a.value1 == b.value1 then a.value2 > b.value2
      else false
    else false
  }

  /** Compared by kinds, then by first values, then by second values. */
  lemma ComparedExactly(a: Condition, b: Condition)
    ensures !CompareCondition(a, b)
            <==> b.kind > a.kind || (b.kind == a.kind && (
                   b.value1 > a.value1 || (b.value1 == a.value1 && b.value2 >= a.value2)))
  {
  }

  /** Ids are positions, and AND joins entries that come before it. */
  predicate Formed(list: seq<Entry>) {
    && |list| > 0 && list[0] == INITIAL_FILL
    && forall i :: 0 < i < |list| ==>
         && list[i].id == i
         && (list[i].kind > 0 || (list[i].kind == AND && 0 < list[i].value1 < i && 0 < list[i].value2 < i))
  }

  predicate Listed(list: seq<Entry>, i: int) {
    0 < i < |list|
  }

  /** The conditions joined under an entry, with their multiplicity. */
  ghost function Flat(list: seq<Entry>, i: int): multiset<Condition>
    requires Formed(list) && Listed(list, i)
    decreases i
  {
    var e := list[i];
    if e.kind == AND then Flat(list, e.value1) + Flat(list, e.value2)
    else multiset{Condition(e.kind, e.value1, e.value2)}
  }

  /** What the server makes of an entry: AND recursively, anything else by itself. */
  function Eval(list: seq<Entry>, holds: Condition -> bool, i: int): bool
    requires Formed(list) && Listed(list, i)
    decreases i
  {
    var e := list[i];
    if e.kind == AND then Eval(list, holds, e.value1) && Eval(list, holds, e.value2)
    else holds(Condition(e.kind, e.value1, e.value2))
  }

  /** An entry holds exactly when all conditions under it do. */
  lemma {:induction false} EvalIsConjunction(list: seq<Entry>, holds: Condition -> bool, i: int)
    requires Formed(list) && Listed(list, i)
    ensures Eval(list, holds, i) <==> forall c :: c in Flat(list, i) ==> holds(c)
    decreases i
  {
    var e := list[i];
    if e.kind == AND {
      EvalIsConjunction(list, holds, e.value1);
      EvalIsConjunction(list, holds, e.value2);
      assert forall c :: c in Flat(list, i) <==> c in Flat(list, e.value1) || c in Flat(list, e.value2);
    } else {
      assert Condition(e.kind, e.value1, e.value2) in Flat(list, i);
    }
  }

  /** No two entries join the same conditions. */
  ghost predicate Injective(list: seq<Entry>)
    requires Formed(list)
  {
    forall i, j :: Listed(list, i) && Listed(list, j) && Flat(list, i) == Flat(list, j) ==> i == j
  }

  /** At most three conditions under an entry. */
  ghost predicate Small(list: seq<Entry>)
    requires Formed(list)
  {
    forall i :: Listed(list, i) ==> |Flat(list, i)| <= 3
  }

  ghost predicate Sound(list: seq<Entry>) {
    Formed(list) && Injective(list) && Small(list)
  }

  /** An entry that joins a and b in either order. */
  predicate Joins(e: Entry, a: int, b: int) {
    e.kind == AND && ((e.value1 == a && e.value2 == b) || (e.value1 == b && e.value2 == a))
  }

  /** In a sound list no two AND entries share an unordered pair of operands. */
  lemma PairsAreUnique(list: seq<Entry>, i: int, j: int, a: int, b: int)
    requires Sound(list) && Listed(list, i) && Listed(list, j) && Joins(list[i], a, b) && Joins(list[j], a, b)
    ensures i == j
  {
    assert Flat(list, i) == Flat(list, a) + Flat(list, b) == Flat(list, j);
  }

  // ---------- growing lists ----------

  lemma {:induction false} FlatExtends(list: seq<Entry>, longer: seq<Entry>, i: int)
    requires Formed(list) && Formed(longer) && list <= longer && Listed(list, i)
    ensures Flat(longer, i) == Flat(list, i)
    decreases i
  {
    var e := list[i];
    assert longer[i] == e;
    if e.kind == AND {
      FlatExtends(list, longer, e.value1);
      FlatExtends(list, longer, e.value2);
    }
  }

  lemma {:induction false} FlatIsNotEmpty(list: seq<Entry>, i: int)
    requires Formed(list) && Listed(list, i)
    ensures |Flat(list, i)| >= 1
    ensures list[i].kind == AND ==> |Flat(list, i)| >= 2
    decreases i
  {
    var e := list[i];
    if e.kind == AND {
      FlatIsNotEmpty(list, e.value1);
      FlatIsNotEmpty(list, e.value2);
    }
  }

  ghost predicate Absent(list: seq<Entry>, m: multiset<Condition>)
    requires Formed(list)
  {
    forall i :: Listed(list, i) ==> Flat(list, i) != m
  }

  /** Appending an entry for conditions that no entry joins yet keeps the list sound. */
  lemma InsertKeepsSound(list: seq<Entry>, e: Entry, m: multiset<Condition>)
    requires Sound(list) && Formed(list + [e]) && Absent(list, m) && |m| <= 3
    requires Flat(list + [e], |list|) == m
    ensures Sound(list + [e])
  {
    var longer := list + [e];
    forall i | Listed(longer, i) && i < |list|
      ensures Flat(longer, i) == Flat(list, i) && Listed(list, i)
    {
      FlatExtends(list, longer, i);
    }
    hide Flat;
  }

  ghost predicate IsBase(list: seq<Entry>, i: int)
    requires Formed(list)
  {
    Listed(list, i) && list[i].kind > 0
  }

  lemma BaseSize(list: seq<Entry>, i: int)
    requires Formed(list) && Listed(list, i)
    ensures IsBase(list, i) <==> |Flat(list, i)| == 1
  {
    FlatIsNotEmpty(list, i);
  }

  function AsCondition(e: Entry): Condition {
    Condition(e.kind, e.value1, e.value2)
  }

  // ---------- what a failed search means ----------

  lemma NoBase(list: seq<Entry>, c: Condition)
    requires Formed(list) && c.kind > 0
    requires forall i :: Listed(list, i) ==> !IsSameCondition(c, list[i])
    ensures Absent(list, multiset{c})
  {
    forall i | Listed(list, i)
      ensures Flat(list, i) != multiset{c}
    {
      BaseSize(list, i);
      assert AsCondition(list[i]) !in multiset{c};
      assert IsBase(list, i) ==> AsCondition(list[i]) in Flat(list, i);
    }
  }

  lemma BaseIs(list: seq<Entry>, i: int)
    requires Formed(list) && IsBase(list, i)
    ensures Flat(list, i) == multiset{AsCondition(list[i])}
  {
  }

  /** Two sums of two conditions agree only if their terms do, in one order or the other. */
  lemma SameTwo(p: Condition, q: Condition, r: Condition, s: Condition)
    requires multiset{p} + multiset{q} == multiset{r} + multiset{s}
    ensures (p == r && q == s) || (p == s && q == r)
  {
    var m := multiset{r} + multiset{s};
    assert p in m;
    if p == r {
      assert multiset{q} == m - multiset{p} == multiset{s};
      assert q in multiset{s};
    } else {
      assert multiset{q} == m - multiset{p} == multiset{r};
      assert q in multiset{r};
    }
  }

  lemma NoPair(list: seq<Entry>, a: int, b: int)
    requires Sound(list) && IsBase(list, a) && IsBase(list, b)
    requires forall i :: Listed(list, i) ==> !Joins(list[i], a, b)
    ensures Absent(list, Flat(list, a) + Flat(list, b))
  {
    forall i | Listed(list, i)
      ensures Flat(list, i) != Flat(list, a) + Flat(list, b)
    {
      if Flat(list, i) == Flat(list, a) + Flat(list, b) {
        PairOperands(list, i, a, b);
      }
    }
  }

  lemma PairOperands(list: seq<Entry>, i: int, a: int, b: int)
    requires Sound(list) && IsBase(list, a) && IsBase(list, b) && Listed(list, i)
    requires Flat(list, i) == Flat(list, a) + Flat(list, b)
    ensures Joins(list[i], a, b)
  {
    BaseSize(list, i);
    var x, y := list[i].value1, list[i].value2;
    assert list[i].kind == AND;
    FlatIsNotEmpty(list, x);
    FlatIsNotEmpty(list, y);
    BaseSize(list, x);
    BaseSize(list, y);
    SameTwo(AsCondition(list[x]), AsCondition(list[y]), AsCondition(list[a]), AsCondition(list[b]));
  }

  /** The outcome of a search for the entry that joins a and b: its position, or 0 if there is none. */
  ghost predicate PairSearched(list: seq<Entry>, pair: int, a: int, b: int)
    requires Formed(list) && Listed(list, a) && Listed(list, b)
  {
    if pair == 0 then Absent(list, Flat(list, a) + Flat(list, b))
    else Listed(list, pair) && Flat(list, pair) == Flat(list, a) + Flat(list, b)
  }

  /** Entry i joins one of the pairs found with the remaining condition. */
  predicate JoinsSplit(list: seq<Entry>, i: int, a: int, b: int, c: int, bc: int, ac: int, ab: int)
    requires Listed(list, i)
  {
    (bc != 0 && Joins(list[i], bc, a)) || (ac != 0 && Joins(list[i], ac, b)) || (ab != 0 && Joins(list[i], ab, c))
  }

  lemma NoTriple(list: seq<Entry>, a: int, b: int, c: int, bc: int, ac: int, ab: int)
    requires Sound(list) && IsBase(list, a) && IsBase(list, b) && IsBase(list, c)
    requires PairSearched(list, bc, b, c) && PairSearched(list, ac, a, c) && PairSearched(list, ab, a, b)
    requires forall i :: Listed(list, i) ==> !JoinsSplit(list, i, a, b, c, bc, ac, ab)
    ensures Absent(list, Flat(list, a) + Flat(list, b) + Flat(list, c))
  {
    forall i | Listed(list, i)
      ensures Flat(list, i) != Flat(list, a) + Flat(list, b) + Flat(list, c)
    {
      if Flat(list, i) == Flat(list, a) + Flat(list, b) + Flat(list, c) {
        TripleOperands(list, i, a, b, c, bc, ac, ab);
      }
    }
  }

  lemma TripleOperands(list: seq<Entry>, i: int, a: int, b: int, c: int, bc: int, ac: int, ab: int)
    requires Sound(list) && IsBase(list, a) && IsBase(list, b) && IsBase(list, c) && Listed(list, i)
    requires PairSearched(list, bc, b, c) && PairSearched(list, ac, a, c) && PairSearched(list, ab, a, b)
    requires Flat(list, i) == Flat(list, a) + Flat(list, b) + Flat(list, c)
    ensures JoinsSplit(list, i, a, b, c, bc, ac, ab)
  {
    BaseSize(list, i);
    var x, y := list[i].value1, list[i].value2;
    assert list[i].kind == AND;
    FlatIsNotEmpty(list, x);
    FlatIsNotEmpty(list, y);
    BaseSize(list, x);
    BaseSize(list, y);
    if |Flat(list, x)| == 1 {
      OneOfThree(list, i, y, x, a, b, c, bc, ac, ab);
    } else {
      OneOfThree(list, i, x, y, a, b, c, bc, ac, ab);
    }
  }

  lemma OneOfThree(list: seq<Entry>, i: int, pair: int, one: int, a: int, b: int, c: int, bc: int, ac: int, ab: int)
    requires Sound(list) && IsBase(list, a) && IsBase(list, b) && IsBase(list, c) && Listed(list, i)
    requires PairSearched(list, bc, b, c) && PairSearched(list, ac, a, c) && PairSearched(list, ab, a, b)
    requires Listed(list, pair) && IsBase(list, one) && Joins(list[i], pair, one)
    requires Flat(list, pair) + Flat(list, one) == Flat(list, a) + Flat(list, b) + Flat(list, c)
    ensures JoinsSplit(list, i, a, b, c, bc, ac, ab)
  {
    var s, p, q, r := AsCondition(list[one]), AsCondition(list[a]), AsCondition(list[b]), AsCondition(list[c]);
    BaseIs(list, one);
    BaseIs(list, a);
    BaseIs(list, b);
    BaseIs(list, c);
    hide Flat;
    TakeOneOfThree(Flat(list, pair), s, p, q, r);
    if s == p && Flat(list, pair) == multiset{q} + multiset{r} {
      assert bc == pair && one == a;
    } else if s == q && Flat(list, pair) == multiset{p} + multiset{r} {
      assert ac == pair && one == b;
    } else {
      assert ab == pair && one == c;
    }
  }

  lemma TakeOneOfThree(m: multiset<Condition>, s: Condition, p: Condition, q: Condition, r: Condition)
    requires m + multiset{s} == multiset{p} + multiset{q} + multiset{r}
    ensures || (s == p && m == multiset{q} + multiset{r})
            || (s == q && m == multiset{p} + multiset{r})
            || (s == r && m == multiset{p} + multiset{q})
  {
    assert s in m + multiset{s};
    assert m == multiset{p} + multiset{q} + multiset{r} - multiset{s};
    if s == p {
      assert m == multiset{q} + multiset{r};
    } else if s == q {
      assert m == multiset{p} + multiset{r};
    } else {
      assert m == multiset{p} + multiset{q};
    }
  }
}
