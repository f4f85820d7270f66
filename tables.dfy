// A database table as the sequence of its rows in insertion order, with an integer primary
// key read from each row by `key`. The lookups, rewrites and deletes every repository performs
// are defined here once, for any row type.

module Tables {
  import opened Wrappers
  import opened Seqs

  /** No two rows share a primary key. */
  predicate UniqueKeys<T>(t: seq<T>, key: T -> int) {
    forall i, j :: 0 <= i < j < |t| ==> key(t[i]) != key(t[j])
  }

  /** Every key is below the next one the table will generate. */
  predicate KeysBelow<T>(t: seq<T>, key: T -> int, n: int) {
    forall i :: 0 <= i < |t| ==> key(t[i]) < n
  }

  /** The table is well formed: unique keys, all below the next generated key. */
  predicate WellKeyed<T>(t: seq<T>, key: T -> int, next: int) {
    UniqueKeys(t, key) && KeysBelow(t, key, next)
  }

  /** `findOne({ where: { id } })`. */
  function Lookup<T>(t: seq<T>, key: T -> int, id: int): (r: Option<T>)
    ensures r.Some? ==> r.value in t && key(r.value) == id
    ensures r.None? <==> forall i :: 0 <= i < |t| ==> key(t[i]) != id
  {
    if t == [] then None
    else if key(t[0]) == id then Some(t[0])
    else Lookup(t[1..], key, id)
  }

  /** The table after the row with key `id` is rewritten to `x`. */
  function Replaced<T>(t: seq<T>, key: T -> int, id: int, x: T): (r: seq<T>)
    ensures |r| == |t|
    ensures forall i :: 0 <= i < |t| ==> r[i] == if key(t[i]) == id then x else t[i]
  {
    seq(|t|, i requires 0 <= i < |t| => if key(t[i]) == id then x else t[i])
  }

  function KeyIsNot<T>(key: T -> int, id: int): T -> bool {
    (r: T) => key(r) != id
  }

  /** The table after `delete(id)`. */
  function Without<T>(t: seq<T>, key: T -> int, id: int): seq<T> {
    Filter(t, KeyIsNot(key, id))
  }

  /** Inserting a row under the next key keeps the table well formed. */
  lemma AppendWellKeyed<T>(t: seq<T>, key: T -> int, next: int, x: T)
    requires WellKeyed(t, key, next) && key(x) == next
    ensures WellKeyed(t + [x], key, next + 1)
  {
  }

  /** Rewriting a row without changing its key keeps the table well formed. */
  lemma ReplacedWellKeyed<T>(t: seq<T>, key: T -> int, next: int, id: int, x: T)
    requires WellKeyed(t, key, next) && key(x) == id && Lookup(t, key, id).Some?
    ensures WellKeyed(Replaced(t, key, id, x), key, next)
  {
    var r := Replaced(t, key, id, x);
    forall i, j | 0 <= i < j < |r|
      ensures key(r[i]) != key(r[j])
    {
      assert key(r[i]) == key(t[i]) && key(r[j]) == key(t[j]);
    }
  }

  /** A rewrite leaves the keys of the table as they were: the same ids answer lookups. */
  lemma ReplacedLookup<T>(t: seq<T>, key: T -> int, id: int, x: T, other: int)
    requires UniqueKeys(t, key) && key(x) == id && Lookup(t, key, id).Some?
    ensures Lookup(Replaced(t, key, id, x), key, other) ==
      if other == id then Some(x) else Lookup(t, key, other)
  {
    var r := Replaced(t, key, id, x);
    if Lookup(r, key, other).Some? {
      var v := Lookup(r, key, other).value;
      var i :| 0 <= i < |r| && r[i] == v;
      if other != id {
        LookupUnique(t, key, other, i);
      } else {
        assert key(t[i]) == id;
      }
    } else {
      var i :| 0 <= i < |t| && t[i] == Lookup(t, key, id).value;
      assert key(r[i]) == id;
    }
  }

  /** In a table with unique keys, the row at any position holding key `id` is the one found. */
  lemma LookupUnique<T>(t: seq<T>, key: T -> int, id: int, i: int)
    requires UniqueKeys(t, key) && 0 <= i < |t| && key(t[i]) == id
    ensures Lookup(t, key, id) == Some(t[i])
  {
    if i > 0 && key(t[0]) != id {
      LookupUnique(t[1..], key, id, i - 1);
    }
  }

  /** A delete keeps exactly the rows whose key differs from `id`. */
  lemma WithoutRows<T>(t: seq<T>, key: T -> int, id: int, x: T)
    ensures x in Without(t, key, id) <==> x in t && key(x) != id
  {
    var w := Without(t, key, id);
    FilterMembers(t, KeyIsNot(key, id));
    if x in w {
      var i :| 0 <= i < |w| && w[i] == x;
    }
    if x in t && key(x) != id {
      var i :| 0 <= i < |t| && t[i] == x;
    }
  }

  /** Any selection of the rows of a well-formed table is well formed. */
  lemma {:induction false} FilterWellKeyed<T>(t: seq<T>, key: T -> int, next: int, p: T -> bool)
    requires WellKeyed(t, key, next)
    ensures WellKeyed(Filter(t, p), key, next)
    decreases |t|
  {
    if t != [] {
      FilterWellKeyed(t[1..], key, next, p);
      var rest := Filter(t[1..], p);
      FilterMembers(t[1..], p);
      forall i | 0 <= i < |rest|
        ensures key(rest[i]) != key(t[0])
      {
        assert rest[i] in rest;
        assert rest[i] in t[1..];
      }
    }
  }

  /** A delete keeps the table well formed, and the deleted key is no longer found. */
  lemma WithoutWellKeyed<T>(t: seq<T>, key: T -> int, next: int, id: int)
    requires WellKeyed(t, key, next)
    ensures WellKeyed(Without(t, key, id), key, next)
    ensures Lookup(Without(t, key, id), key, id).None?
  {
    FilterWellKeyed(t, key, next, KeyIsNot(key, id));
    if Lookup(Without(t, key, id), key, id).Some? {
      var x := Lookup(Without(t, key, id), key, id).value;
      WithoutRows(t, key, id, x);
    }
  }
}
