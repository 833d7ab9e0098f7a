/**
 * How Heatmap's dataMap groups the records into frames: the key of each
 * record, one append to the map of lists, and what a whole load builds.
 */
module Grouping {
  import opened JavaLang
  import opened Datasets

  /** The file name that asks for numbered output files. */
  const AUTO: string := "auto"

  /** The frame a record belongs to: its file name, or its label when the
      file name is exactly "auto" (case-sensitive String.equals). */
  function KeyOf(d: Dataset): string {
    if d.fileName == AUTO then d.labelText else d.fileName
  }

  /** dataMap: frame key to the records of that frame, in insertion order. */
  type Groups = map<string, seq<Dataset>>

  /** dataMap.get(k), with an absent key read as an empty list. */
  function Get(m: Groups, k: string): seq<Dataset> {
    if k in m then m[k] else []
  }

  /** One record appended to its key's list, the list created if absent. */
  function Insert(m: Groups, d: Dataset): (r: Groups)
    ensures r.Keys == m.Keys + {KeyOf(d)}
    ensures r[KeyOf(d)] == Get(m, KeyOf(d)) + [d]
  {
    m[KeyOf(d) := Get(m, KeyOf(d)) + [d]]
  }

  /** An append leaves every other key's list as it was. */
  lemma InsertOthersUnchanged(m: Groups, d: Dataset, k: string)
    requires k != KeyOf(d)
    ensures Get(Insert(m, d), k) == Get(m, k)
  {
  }

  /** The map after appending the records one by one, in order. */
  function AddAll(m: Groups, ds: seq<Dataset>): Groups {
    if ds == [] then m else Insert(AddAll(m, ds[..|ds| - 1]), ds[|ds| - 1])
  }

  /** The map a load builds from empty. */
  function Grouped(ds: seq<Dataset>): Groups {
    AddAll(map[], ds)
  }

  /** The records with key k, in input order. */
  function Select(ds: seq<Dataset>, k: string): seq<Dataset> {
    if ds == [] then []
    else Select(ds[..|ds| - 1], k) + (if KeyOf(ds[|ds| - 1]) == k then [ds[|ds| - 1]] else [])
  }

  predicate AnyAuto(ds: seq<Dataset>) {
    exists i :: 0 <= i < |ds| && ds[i].fileName == AUTO
  }

  /** Selecting by key distributes over concatenation: the order of records
      within a group is the order they arrived in. */
  lemma {:induction false} SelectAppend(a: seq<Dataset>, b: seq<Dataset>, k: string)
    ensures Select(a + b, k) == Select(a, k) + Select(b, k)
    decreases |b|
  {
    if b == [] {
      assert a + b == a;
    } else {
      var b' := b[..|b| - 1];
      assert (a + b)[..|a + b| - 1] == a + b';
      assert (a + b)[|a + b| - 1] == b[|b| - 1];
      SelectAppend(a, b', k);
    }
  }

  /** Every selected record has the key it was selected by, and every record
      with that key is selected. */
  lemma {:induction false} SelectMembers(ds: seq<Dataset>, k: string)
    ensures forall d :: d in Select(ds, k) <==> d in ds && KeyOf(d) == k
    decreases |ds|
  {
    if ds != [] {
      SelectMembers(ds[..|ds| - 1], k);
      assert ds == ds[..|ds| - 1] + [ds[|ds| - 1]];
    }
  }

  /** What loading does to each key's list: the records with that key are
      appended, in input order, and a key appears exactly when it has one. */
  lemma {:induction false} AddAllSelect(m: Groups, ds: seq<Dataset>, k: string)
    ensures k in AddAll(m, ds) <==> k in m || Select(ds, k) != []
    ensures Get(AddAll(m, ds), k) == Get(m, k) + Select(ds, k)
    decreases |ds|
  {
    if ds != [] {
      AddAllSelect(m, ds[..|ds| - 1], k);
    }
  }

  /** The invariant of dataMap and autoNumberFiles: no list is empty, every
      record sits under its own key, and without the flag no record is "auto". */
  predicate GroupsWellFormed(m: Groups, auto: bool) {
    && (forall k :: k in m ==> |m[k]| > 0)
    && (forall k, d :: k in m && d in m[k] ==> KeyOf(d) == k)
    && (!auto ==> forall k, d :: k in m && d in m[k] ==> d.fileName != AUTO)
  }

  lemma InsertWellFormed(m: Groups, auto: bool, d: Dataset)
    requires GroupsWellFormed(m, auto)
    ensures GroupsWellFormed(Insert(m, d), auto || d.fileName == AUTO)
  {
    var r := Insert(m, d);
    forall k: string, e: Dataset | k in r && e in r[k] ensures KeyOf(e) == k {
      if k != KeyOf(d) { assert r[k] == m[k]; }
    }
    if !(auto || d.fileName == AUTO) {
      forall k: string, e: Dataset | k in r && e in r[k] ensures e.fileName != AUTO {
        if k != KeyOf(d) { assert r[k] == m[k]; }
      }
    }
  }

  /** Under the invariant, a group's file names are its key unless the run
      numbers its files. */
  lemma ExplicitNamesAreKeys(m: Groups, k: string)
    requires GroupsWellFormed(m, false) && k in m
    ensures forall d :: d in m[k] ==> d.fileName == k
  {
    forall d | d in m[k] ensures d.fileName == k {
      assert KeyOf(d) == k && d.fileName != AUTO;
    }
  }

  /** The records of the groups listed in keys, group after group. */
  function ConcatGroups(keys: seq<string>, m: Groups): seq<Dataset> {
    if keys == [] then [] else Get(m, keys[0]) + ConcatGroups(keys[1..], m)
  }

  predicate Distinct(keys: seq<string>) {
    forall i, j :: 0 <= i < j < |keys| ==> keys[i] != keys[j]
  }

  lemma {:induction false} ConcatGroupsEmpty(keys: seq<string>)
    ensures ConcatGroups(keys, map[]) == []
  {
    if keys != [] { ConcatGroupsEmpty(keys[1..]); }
  }

  /** The tail of a distinct list is distinct and misses its head. */
  lemma DistinctTail(keys: seq<string>)
    requires Distinct(keys) && keys != []
    ensures Distinct(keys[1..]) && keys[0] !in keys[1..]
  {
    var rest := keys[1..];
    forall i, j | 0 <= i < j < |rest| ensures rest[i] != rest[j] {
      assert rest[i] == keys[i + 1] && rest[j] == keys[j + 1];
    }
    forall j | 0 <= j < |rest| ensures rest[j] != keys[0] {
      assert rest[j] == keys[j + 1];
    }
  }

  /** If r differs from m only by d appended to key's list, the records of a
      list of distinct keys gain d once when the list holds key, and nothing
      otherwise. */
  lemma {:induction false} ConcatGroupsAppend(keys: seq<string>, m: Groups, r: Groups, key: string, d: Dataset)
    requires Distinct(keys)
    requires Get(r, key) == Get(m, key) + [d]
    requires forall k :: k != key ==> Get(r, k) == Get(m, k)
    ensures multiset(ConcatGroups(keys, r))
         == multiset(ConcatGroups(keys, m)) + (if key in keys then multiset{d} else multiset{})
  {
    if keys != [] {
      var k, rest := keys[0], keys[1..];
      DistinctTail(keys);
      ConcatGroupsAppend(rest, m, r, key, d);
      assert ConcatGroups(keys, r) == Get(r, k) + ConcatGroups(rest, r);
      assert ConcatGroups(keys, m) == Get(m, k) + ConcatGroups(rest, m);
      if key == k {
        assert key !in rest;
        assert multiset(Get(r, k)) == multiset(Get(m, k)) + multiset{d};
      } else {
        assert Get(r, k) == Get(m, k);
        assert key in keys <==> key in rest;
      }
    }
  }

  /** Appending a record adds it once to the records of a list of distinct
      keys that holds its key, and not at all otherwise. */
  lemma ConcatGroupsInsert(keys: seq<string>, m: Groups, d: Dataset)
    requires Distinct(keys)
    ensures multiset(ConcatGroups(keys, Insert(m, d)))
         == multiset(ConcatGroups(keys, m)) + (if KeyOf(d) in keys then multiset{d} else multiset{})
  {
    forall k | k != KeyOf(d) ensures Get(Insert(m, d), k) == Get(m, k) {
      InsertOthersUnchanged(m, d, k);
    }
    ConcatGroupsAppend(keys, m, Insert(m, d), KeyOf(d), d);
  }

  /** If a list covers the keys after an append, it covers them before, and
      it holds the appended record's key. */
  lemma InsertKeysCovered(m: Groups, d: Dataset, keys: seq<string>)
    requires forall k :: k in Insert(m, d) ==> k in keys
    ensures forall k :: k in m ==> k in keys
    ensures KeyOf(d) in keys
  {
    var r := Insert(m, d);
    assert r.Keys == m.Keys + {KeyOf(d)};
    assert KeyOf(d) in r;
  }

  /** One append keeps the groups a partition of the records so far. */
  lemma PartitionStep(keys: seq<string>, m: Groups, before: seq<Dataset>, d: Dataset)
    requires Distinct(keys) && KeyOf(d) in keys
    requires multiset(ConcatGroups(keys, m)) == multiset(before)
    ensures multiset(ConcatGroups(keys, Insert(m, d))) == multiset(before + [d])
  {
    ConcatGroupsInsert(keys, m, d);
    assert multiset(before + [d]) == multiset(before) + multiset{d};
  }

  /** Grouping is a partition: over any distinct list of keys that covers the
      map, the groups together hold exactly the loaded records. */
  lemma {:induction false} GroupsPartition(keys: seq<string>, ds: seq<Dataset>)
    requires Distinct(keys)
    requires forall k :: k in Grouped(ds) ==> k in keys
    ensures multiset(ConcatGroups(keys, Grouped(ds))) == multiset(ds)
    decreases |ds|
  {
    var all := ConcatGroups(keys, Grouped(ds));
    if ds == [] {
      ConcatGroupsEmpty(keys);
    } else {
      var before, d := ds[..|ds| - 1], ds[|ds| - 1];
      assert ds == before + [d];
      var m0 := Grouped(before);
      assert Grouped(ds) == Insert(m0, d);
      InsertKeysCovered(m0, d, keys);
      GroupsPartition(keys, before);
      PartitionStep(keys, m0, before, d);
    }
  }
}
