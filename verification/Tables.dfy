/** Insertion-ordered tables from path to hash: the `Map` of the chain and the stored `keystone_hashes` object. */
module Tables {
  import opened Wrappers

  datatype Entry = Entry(path: string, hash: string)

  predicate DistinctKeys(entries: seq<Entry>) {
    forall i, j :: 0 <= i < j < |entries| ==> entries[i].path != entries[j].path
  }

  /** Entries in insertion order, no path twice. */
  type Table = entries: seq<Entry> | DistinctKeys(entries) witness []

  /** The first position that holds the path, or the length of the table. */
  function IndexOf(table: seq<Entry>, path: string): (k: nat)
    ensures k <= |table|
    ensures k < |table| ==> table[k].path == path
    ensures forall i :: 0 <= i < k ==> table[i].path != path
  {
    if table == [] || table[0].path == path then 0 else IndexOf(table[1..], path) + 1
  }

  function Lookup(table: seq<Entry>, path: string): Option<string> {
    var k := IndexOf(table, path);
    if k < |table| then Some(table[k].hash) else None
  }

  predicate Has(table: seq<Entry>, path: string) {
    IndexOf(table, path) < |table|
  }

  /** `map.set(path, hash)`: a known path keeps its place and gets the new hash, a new one goes last. */
  function Put(table: Table, path: string, hash: string): Table {
    var k := IndexOf(table, path);
    if k < |table| then table[k := Entry(path, hash)] else table + [Entry(path, hash)]
  }

  function Paths(table: seq<Entry>): (paths: seq<string>)
    ensures |paths| == |table|
  {
    seq(|table|, i requires 0 <= i < |table| => table[i].path)
  }

  lemma IndexOfEntry(table: Table, i: nat)
    requires i < |table|
    ensures IndexOf(table, table[i].path) == i
  {
  }

  /** In a table a path has one hash, the one `Lookup` finds. */
  lemma LookupIffEntry(table: Table, path: string, hash: string)
    ensures Lookup(table, path) == Some(hash) <==> Entry(path, hash) in table
  {
    if Entry(path, hash) in table {
      var i :| 0 <= i < |table| && table[i] == Entry(path, hash);
      IndexOfEntry(table, i);
    }
  }

  /** What `map.set` does to every later `map.get`, and to the order of the keys. */
  lemma PutLaws(table: Table, path: string, hash: string, q: string)
    ensures Lookup(Put(table, path, hash), q) == if q == path then Some(hash) else Lookup(table, q)
    ensures Has(table, path) ==> Paths(Put(table, path, hash)) == Paths(table)
    ensures !Has(table, path) ==> Put(table, path, hash) == table + [Entry(path, hash)]
  {
    var r := Put(table, path, hash);
    var k := IndexOf(table, q);
    if k < |table| {
      assert r[k].path == q;
      IndexOfEntry(r, k);
    } else if q == path {
      assert r[|table|].path == q;
      IndexOfEntry(r, |table|);
    } else {
      assert forall i :: 0 <= i < |r| ==> r[i].path != q;
    }
  }

  /** Equal contents in any order give equal look-ups. */
  lemma LookupIgnoresOrder(a: Table, b: Table, path: string)
    requires multiset(a) == multiset(b)
    ensures Lookup(a, path) == Lookup(b, path)
  {
    forall e ensures e in a <==> e in b {
      assert e in multiset(a) <==> e in multiset(b);
    }
    if Has(a, path) {
      LookupIffEntry(a, path, Lookup(a, path).value);
      LookupIffEntry(b, path, Lookup(a, path).value);
    } else if Has(b, path) {
      LookupIffEntry(a, path, Lookup(b, path).value);
      LookupIffEntry(b, path, Lookup(b, path).value);
    }
  }

  function KeySet(table: seq<Entry>): set<string> {
    set e | e in table :: e.path
  }

  lemma KeySetIsHas(table: seq<Entry>, path: string)
    ensures path in KeySet(table) <==> Has(table, path)
  {
    if Has(table, path) {
      assert table[IndexOf(table, path)] in table;
    }
  }

  lemma KeySetIgnoresOrder(a: Table, b: Table)
    requires multiset(a) == multiset(b)
    ensures KeySet(a) == KeySet(b)
  {
    forall e ensures e in a <==> e in b {
      assert e in multiset(a) <==> e in multiset(b);
    }
  }
}
