/** The two-level table from vertex pairs to lists of faces, and the iterator over its pairs. */
module MeshEdgeTables {
  import opened MeshTopology

  datatype TableEdge = TableEdge(i1: int, faceIndexArray: seq<int>)

  type EdgeArray = seq<TableEdge>

  /** A pair with its faces, as the iterator presents it. */
  datatype Key = Key(i0: int, i1: int, faces: seq<int>)

  // ---------- what a table holds ----------

  /** The half-edge a signed face index under the pair (i0, i1) stands for. */
  function Entry(i0: int, i1: int, signed: int): HalfEdge {
    if signed >= 0 then HalfEdge(i0, i1, signed) else HalfEdge(i1, i0, Flip(signed))
  }

  function Entries(i0: int, i1: int, faces: seq<int>): multiset<HalfEdge> {
    if faces == [] then multiset{} else
      Entries(i0, i1, faces[..|faces| - 1]) + multiset{Entry(i0, i1, faces[|faces| - 1])}
  }

  function Pending(keys: seq<Key>): multiset<HalfEdge> {
    if keys == [] then multiset{} else
      Entries(keys[0].i0, keys[0].i1, keys[0].faces) + Pending(keys[1..])
  }

  function RowKeys(i0: int, row: EdgeArray): (keys: seq<Key>)
    ensures |keys| == |row|
  {
    seq(|row|, p requires 0 <= p < |row| => Key(i0, row[p].i1, row[p].faceIndexArray))
  }

  /** All pairs of a table in the order of its rows. */
  function Keys(table: seq<EdgeArray>): seq<Key> {
    if table == [] then [] else
      Keys(table[..|table| - 1]) + RowKeys(|table| - 1, table[|table| - 1])
  }

  ghost predicate KeyOk(k: Key, numVertices: nat) {
    && 0 <= k.i0 <= k.i1 < numVertices
    && (k.i0 == k.i1 ==> forall i :: 0 <= i < |k.faces| ==> k.faces[i] < 0)
  }

  ghost predicate KeysOk(keys: seq<Key>, numVertices: nat) {
    && (forall k :: 0 <= k < |keys| ==> KeyOk(keys[k], numVertices))
    && (forall j, k :: 0 <= j < k < |keys| ==> keys[j].i0 != keys[k].i0 || keys[j].i1 != keys[k].i1)
  }

  // ---------- insertion ----------

  /** The row after adding a face to the entry of i1, which is created when there is none. */
  function Inserted(row: EdgeArray, i1: int, signed: int): EdgeArray {
    if row == [] then [TableEdge(i1, [signed])]
    else if row[0].i1 == i1 then [row[0].(faceIndexArray := row[0].faceIndexArray + [signed])] + row[1..]
    else [row[0]] + Inserted(row[1..], i1, signed)
  }

  lemma {:induction false} InsertedAt(row: EdgeArray, i: nat, i1: int, signed: int)
    requires i <= |row| && forall j :: 0 <= j < i ==> row[j].i1 != i1
    ensures i == |row| ==> Inserted(row, i1, signed) == row + [TableEdge(i1, [signed])]
    ensures i < |row| && row[i].i1 == i1 ==>
      Inserted(row, i1, signed) == row[i := row[i].(faceIndexArray := row[i].faceIndexArray + [signed])]
  {
    if i > 0 {
      InsertedAt(row[1..], i - 1, i1, signed);
    }
  }

  class MeshEdgeTable {
    var table: seq<EdgeArray>

    constructor (maxV: nat)
      ensures table == seq(maxV, _ => [])
    {
      table := seq(maxV, _ => []);
    }

    method Insert(v0: int, v1: int, faceIndex: int)
      requires 0 <= v0 < |table| && v0 <= v1
      modifies this
      ensures table == old(table)[v0 := Inserted(old(table[v0]), v1, faceIndex)]
    {
      var edgeArray := table[v0];
      for i := 0 to |edgeArray|
        invariant table == old(table)
        invariant forall j :: 0 <= j < i ==> edgeArray[j].i1 != v1
      {
        if edgeArray[i].i1 == v1 {
          InsertedAt(edgeArray, i, v1, faceIndex);
          var p := edgeArray[i].(faceIndexArray := edgeArray[i].faceIndexArray + [faceIndex]);
          table := table[v0 := edgeArray[i := p]];
          return;
        }
      }
      InsertedAt(edgeArray, |edgeArray|, v1, faceIndex);
      table := table[v0 := edgeArray + [TableEdge(v1, [faceIndex])]];
    }
  }

  /** Visits the pairs of a table; a row without pairs is skipped. */
  class Iterator {
    const rows: seq<EdgeArray>
    var i0: int
    var p: int
    var end: bool

    /** Where the iterator stands in Keys(rows). */
    ghost function Position(): int
      reads this
      requires -1 <= i0 <= |rows|
    {
      if i0 < 0 then -1 else |Keys(rows[..i0])| + p
    }

    ghost predicate Valid()
      reads this
    {
      && -1 <= i0 <= |rows|
      && (end ==> i0 == |rows|)
      && (!end && i0 >= 0 ==> i0 < |rows| && 0 <= p < |rows[i0]|)
    }

    /** Begins in front of the first pair and moves on to it. */
    constructor (table: MeshEdgeTable)
      ensures Valid() && rows == table.table
      ensures end <==> Keys(rows) == []
      ensures !end ==> Position() == 0
    {
      rows := table.table;
      i0, p, end := -1, -1, false;
      new;
      Advance();
    }

    method Advance()
      requires Valid() && !end
      modifies this
      ensures Valid()
      ensures end <==> old(Position()) + 1 == |Keys(rows)|
      ensures !end ==> Position() == old(Position()) + 1
    {
      ghost var at := Position();
      if i0 >= 0 && p < |rows[i0]| - 1 {
        p := p + 1;
        KeyAt(rows, i0, p);
      } else {
        if i0 >= 0 {
          KeyAt(rows, i0, p);
          KeysOfPrefix(rows, i0);
        } else {
          assert rows[..0] == [];
        }
        i0 := i0 + 1;
        while i0 < |rows| && |rows[i0]| == 0
          invariant 0 <= i0 <= |rows| && !end
          invariant |Keys(rows[..i0])| == at + 1
          decreases |rows| - i0
        {
          KeysOfPrefix(rows, i0);
          i0 := i0 + 1;
        }
        if i0 == |rows| {
          assert rows[..i0] == rows;
          end := true;
        } else {
          p := 0;
          KeyAt(rows, i0, p);
        }
      }
    }

    function I1(): int
      reads this
      requires Valid() && !end && i0 >= 0
    {
      rows[i0][p].i1
    }

    function FaceIndex(): seq<int>
      reads this
      requires Valid() && !end && i0 >= 0
    {
      rows[i0][p].faceIndexArray
    }
  }

  lemma KeysOfPrefix(table: seq<EdgeArray>, i0: nat)
    requires i0 < |table|
    ensures Keys(table[..i0 + 1]) == Keys(table[..i0]) + RowKeys(i0, table[i0])
  {
    assert table[..i0 + 1][..i0] == table[..i0];
  }

  /** The pair p of row i0 stands behind all pairs of the rows before. */
  lemma {:induction false} KeyAt(table: seq<EdgeArray>, i0: nat, p: nat)
    requires i0 < |table| && p < |table[i0]|
    ensures |Keys(table[..i0])| + p < |Keys(table)|
    ensures Keys(table)[|Keys(table[..i0])| + p] == Key(i0, table[i0][p].i1, table[i0][p].faceIndexArray)
    decreases |table|
  {
    var last := |table| - 1;
    if i0 < last {
      KeyAt(table[..last], i0, p);
      assert table[..last][..i0] == table[..i0];
    }
  }

  // ---------- what insertion does to the contents ----------

  lemma {:induction false} PendingAppend(a: seq<Key>, b: seq<Key>)
    ensures Pending(a + b) == Pending(a) + Pending(b)
  {
    hide Entries;
    if a == [] {
      assert a + b == b;
    } else {
      PendingAppend(a[1..], b);
      assert (a + b)[1..] == a[1..] + b;
    }
  }

  lemma RowKeysSplit(i0: int, row: EdgeArray)
    requires row != []
    ensures RowKeys(i0, row) == [Key(i0, row[0].i1, row[0].faceIndexArray)] + RowKeys(i0, row[1..])
  {
  }

  lemma PendingOfRow(i0: int, row: EdgeArray)
    requires row != []
    ensures Pending(RowKeys(i0, row)) == Entries(i0, row[0].i1, row[0].faceIndexArray) + Pending(RowKeys(i0, row[1..]))
  {
    RowKeysSplit(i0, row);
    PendingAppend([Key(i0, row[0].i1, row[0].faceIndexArray)], RowKeys(i0, row[1..]));
  }

  lemma {:induction false} InsertedPending(i0: int, row: EdgeArray, i1: int, signed: int)
    ensures Pending(RowKeys(i0, Inserted(row, i1, signed)))
              == Pending(RowKeys(i0, row)) + multiset{Entry(i0, i1, signed)}
  {
    var row' := Inserted(row, i1, signed);
    PendingOfRow(i0, row');
    if row == [] {
      assert row'[1..] == [];
    } else {
      PendingOfRow(i0, row);
      if row[0].i1 == i1 {
        assert row'[1..] == row[1..];
      } else {
        InsertedPending(i0, row[1..], i1, signed);
        assert row'[1..] == Inserted(row[1..], i1, signed);
      }
    }
  }

  lemma {:induction false} InsertPending(table: seq<EdgeArray>, v0: nat, i1: int, signed: int)
    requires v0 < |table|
    ensures Pending(Keys(table[v0 := Inserted(table[v0], i1, signed)]))
              == Pending(Keys(table)) + multiset{Entry(v0, i1, signed)}
  {
    hide Entries;
    hide Inserted;
    hide Pending;
    var last := |table| - 1;
    var table' := table[v0 := Inserted(table[v0], i1, signed)];
    PendingAppend(Keys(table[..last]), RowKeys(last, table[last]));
    PendingAppend(Keys(table'[..last]), RowKeys(last, table'[last]));
    if v0 < last {
      InsertPending(table[..last], v0, i1, signed);
      assert table'[..last] == table[..last][v0 := Inserted(table[v0], i1, signed)];
    } else {
      InsertedPending(v0, table[v0], i1, signed);
      assert table'[..last] == table[..last];
    }
  }

  ghost predicate RowOk(i0: int, row: EdgeArray, numVertices: nat) {
    && (forall p :: 0 <= p < |row| ==> KeyOk(Key(i0, row[p].i1, row[p].faceIndexArray), numVertices))
    && (forall p, q :: 0 <= p < q < |row| ==> row[p].i1 != row[q].i1)
  }

  ghost predicate TableOk(table: seq<EdgeArray>, numVertices: nat) {
    forall i0 :: 0 <= i0 < |table| ==> RowOk(i0, table[i0], numVertices)
  }

  lemma {:induction false} InsertedRowOk(i0: int, row: EdgeArray, i1: int, signed: int, numVertices: nat)
    requires RowOk(i0, row, numVertices)
    requires 0 <= i0 <= i1 < numVertices && (i0 == i1 ==> signed < 0)
    ensures RowOk(i0, Inserted(row, i1, signed), numVertices)
    ensures forall p :: 0 <= p < |Inserted(row, i1, signed)| ==>
              Inserted(row, i1, signed)[p].i1 == i1
              || exists q :: 0 <= q < |row| && row[q].i1 == Inserted(row, i1, signed)[p].i1
  {
    if row == [] {
    } else if row[0].i1 == i1 {
      var faces := row[0].faceIndexArray;
      assert KeyOk(Key(i0, row[0].i1, faces), numVertices);
      assert KeyOk(Key(i0, i1, faces + [signed]), numVertices);
      assert forall p :: 0 <= p < |row| ==> Inserted(row, i1, signed)[p].i1 == row[p].i1;
    } else {
      var rest := row[1..];
      assert forall p :: 0 <= p < |rest| ==> rest[p] == row[p + 1];
      assert RowOk(i0, rest, numVertices);
      InsertedRowOk(i0, rest, i1, signed, numVertices);
      var row', rest' := Inserted(row, i1, signed), Inserted(rest, i1, signed);
      assert forall p :: 0 < p < |row'| ==> row'[p] == rest'[p - 1];
      forall p | 0 < p < |row'| ensures row'[p].i1 != row[0].i1 {
        if rest'[p - 1].i1 != i1 {
          var q :| 0 <= q < |rest| && rest[q].i1 == rest'[p - 1].i1;
          assert row[q + 1].i1 == rest'[p - 1].i1;
        }
      }
      forall p | 0 <= p < |row'| ensures row'[p].i1 == i1 || exists q :: 0 <= q < |row| && row[q].i1 == row'[p].i1 {
        if p > 0 && row'[p].i1 != i1 {
          var q :| 0 <= q < |rest| && rest[q].i1 == rest'[p - 1].i1;
          assert row[q + 1].i1 == row'[p].i1;
        }
      }
    }
  }

  /** Pairs of different rows differ in their lower vertex, so a good table has each pair once. */
  lemma {:induction false} KeysOfTable(table: seq<EdgeArray>, numVertices: nat)
    requires TableOk(table, numVertices)
    ensures KeysOk(Keys(table), numVertices)
    ensures forall k :: 0 <= k < |Keys(table)| ==> Keys(table)[k].i0 < |table|
  {
    if table != [] {
      KeysOfTable(table[..|table| - 1], numVertices);
    }
  }

  lemma {:induction false} EmptyTable(n: nat, numVertices: nat)
    ensures Keys(seq(n, _ => [])) == []
    ensures TableOk(seq(n, _ => []), numVertices)
  {
    var empty: seq<EdgeArray> := seq(n, _ => []);
    if n > 0 {
      EmptyTable(n - 1, numVertices);
      assert empty[..n - 1] == seq(n - 1, _ => []);
    }
  }
}
