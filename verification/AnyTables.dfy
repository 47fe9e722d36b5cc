/** Tables as the parser builds them: setting a key keeps all others, and the last value of a key stays. */
module AnyTables {
  import opened AnyParser
  import opened AnyPrinter

  // ---------- the order of keys ----------

  lemma {:induction false} NotLessItself(a: string)
    ensures !Less(a, a)
  {
    if a != "" {
      NotLessItself(a[1..]);
    }
  }

  lemma {:induction false} LessIsTotal(a: string, b: string)
    ensures Less(a, b) || a == b || Less(b, a)
  {
    if a != "" && b != "" && a[0] == b[0] {
      LessIsTotal(a[1..], b[1..]);
      assert a == [a[0]] + a[1..] && b == [b[0]] + b[1..];
    }
  }

  lemma {:induction false} LessIsTransitive(a: string, b: string, c: string)
    requires Less(a, b) && Less(b, c)
    ensures Less(a, c)
  {
    if a != "" && a[0] == b[0] == c[0] {
      LessIsTransitive(a[1..], b[1..], c[1..]);
    }
  }

  lemma {:induction false} AscendingKeys(entries: seq<Entry>, i: nat, j: nat)
    requires Ascending(entries) && i < j < |entries|
    ensures Less(entries[i].key, entries[j].key)
  {
    hide Less;
    if i < j - 1 {
      AscendingKeys(entries, i, j - 1);
      LessIsTransitive(entries[i].key, entries[j - 1].key, entries[j].key);
    }
  }

  /** No key occurs twice. */
  lemma KeysDiffer(entries: seq<Entry>, e: Entry, f: Entry)
    requires Ascending(entries) && e in entries && f in entries && e.key == f.key
    ensures e == f
  {
    hide Less;
    var i :| 0 <= i < |entries| && entries[i] == e;
    var j :| 0 <= j < |entries| && entries[j] == f;
    NotLessItself(e.key);
    if i < j {
      AscendingKeys(entries, i, j);
    } else if j < i {
      AscendingKeys(entries, j, i);
    }
  }

  lemma HasEntry(entries: seq<Entry>)
    ensures entries == [] || exists e :: e in entries
  {
    if entries != [] {
      assert entries[0] in entries;
    }
  }

  /** Two tables with the same entries are the same. */
  lemma {:induction false} SameEntries(a: seq<Entry>, b: seq<Entry>)
    requires Ascending(a) && Ascending(b) && forall e :: e in a <==> e in b
    ensures a == b
    decreases |a|
  {
    hide Less;
    HasEntry(a);
    HasEntry(b);
    if a != [] {
      var m, n := |a| - 1, |b| - 1;
      SameLast(a, b);
      DropLast(a);
      DropLast(b);
      SameEntries(a[..m], b[..n]);
      assert a == a[..m] + [a[m]] && b == b[..n] + [b[n]];
    }
  }

  lemma SameLast(a: seq<Entry>, b: seq<Entry>)
    requires Ascending(a) && Ascending(b) && a != [] && b != [] && forall e :: e in a <==> e in b
    ensures a[|a| - 1] == b[|b| - 1]
  {
    hide Less;
    var m, n := |a| - 1, |b| - 1;
    assert a[m] in a && b[n] in b;
    var i :| 0 <= i < |b| && b[i] == a[m];
    var j :| 0 <= j < |a| && a[j] == b[n];
    if i < n && j < m {
      AscendingKeys(b, i, n);
      AscendingKeys(a, j, m);
      LessIsTransitive(a[m].key, b[n].key, a[m].key);
      NotLessItself(a[m].key);
    }
  }

  lemma DropLast(entries: seq<Entry>)
    requires Ascending(entries) && entries != []
    ensures var n := |entries| - 1;
      Ascending(entries[..n]) && forall e :: e in entries[..n] <==> e in entries && e != entries[n]
  {
    hide Less;
    var n := |entries| - 1;
    assert entries == entries[..n] + [entries[n]];
    NotLessItself(entries[n].key);
    forall i | 0 <= i < n
      ensures entries[i] != entries[n]
    {
      AscendingKeys(entries, i, n);
    }
  }

  // ---------- setting keys ----------

  /** After setting a key the keys still ascend, the key has the value, and every other entry is there as before. */
  lemma {:induction false} SetEntryExactly(entries: seq<Entry>, key: string, value: Any)
    requires Ascending(entries)
    ensures var r := SetEntry(entries, key, value);
      Ascending(r) && forall e :: e in r <==> (if e.key == key then e.value == value else e in entries)
  {
    hide Less;
    if entries == [] {
    } else {
      var n := |entries| - 1;
      var last := entries[n];
      assert entries == entries[..n] + [last];
      DropLast(entries);
      if last.key == key {
        SetsLast(entries, key, value);
      } else {
        LessIsTotal(last.key, key);
        if Less(last.key, key) {
          SetsBehind(entries, key, value);
        } else {
          SetEntryExactly(entries[..n], key, value);
          SetsWithin(entries, key, value);
        }
      }
    }
  }

  lemma SetsLast(entries: seq<Entry>, key: string, value: Any)
    requires Ascending(entries) && entries != [] && entries[|entries| - 1].key == key
    ensures var r := entries[..|entries| - 1] + [Entry(key, value)];
      Ascending(r) && forall e :: e in r <==> (if e.key == key then e.value == value else e in entries)
  {
    hide Less;
    var n := |entries| - 1;
    var r := entries[..n] + [Entry(key, value)];
    DropLast(entries);
    assert forall i :: 0 <= i < |r| ==> r[i].key == entries[i].key;
    assert Entry(key, value) in r by {
      assert r[n] == Entry(key, value);
    }
    forall e | e in entries[..n]
      ensures e.key != key
    {
      if e.key == key {
        KeysDiffer(entries, e, entries[n]);
      }
    }
  }

  lemma SetsBehind(entries: seq<Entry>, key: string, value: Any)
    requires Ascending(entries) && entries != [] && Less(entries[|entries| - 1].key, key)
    ensures var r := entries + [Entry(key, value)];
      Ascending(r) && forall e :: e in r <==> (if e.key == key then e.value == value else e in entries)
  {
    hide Less;
    var n := |entries| - 1;
    var r := entries + [Entry(key, value)];
    assert r[n + 1] == Entry(key, value);
    forall e | e in entries
      ensures e.key != key
    {
      NotLessItself(key);
      var i :| 0 <= i < |entries| && entries[i] == e;
      if i < n {
        AscendingKeys(entries, i, n);
        LessIsTransitive(e.key, entries[n].key, key);
      }
    }
  }

  lemma SetsWithin(entries: seq<Entry>, key: string, value: Any)
    requires Ascending(entries) && entries != [] && Less(key, entries[|entries| - 1].key)
    requires var r := SetEntry(entries[..|entries| - 1], key, value);
      && Ascending(r)
      && forall e :: e in r <==> if e.key == key then e.value == value else e in entries[..|entries| - 1]
    ensures var r := SetEntry(entries[..|entries| - 1], key, value) + [entries[|entries| - 1]];
      Ascending(r) && forall e :: e in r <==> (if e.key == key then e.value == value else e in entries)
  {
    hide Less;
    hide SetEntry;
    var n := |entries| - 1;
    var last, r := entries[n], SetEntry(entries[..n], key, value);
    DropLast(entries);
    NotLessItself(key);
    assert (r + [last])[|r|] == last;
    if r != [] {
      var e := r[|r| - 1];
      assert e in r;
      if e.key != key {
        var i :| 0 <= i < n && entries[..n][i] == e;
        AscendingKeys(entries, i, n);
      }
    }
  }
}
