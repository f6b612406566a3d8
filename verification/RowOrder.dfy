/** Ordered selection, as `ORDER BY ... LIMIT n` performs it on the rows of a table.

    A row is named by its primary key and sorted by a key that ends in that id, so no
    two rows of one table share a sort key and the order is strict. */
module RowOrder {
  import opened Basics

  /** A primary key, as its position in the id collation order. */
  datatype RowId = RowId(position: int)

  /** A four-column sort key; a query that sorts on fewer columns leaves the others at 0. */
  datatype Key = Key(rank: int, due: int, occurred: int, id: int)

  predicate Less(a: Key, b: Key) {
    || a.rank < b.rank
    || (a.rank == b.rank && a.due < b.due)
    || (a.rank == b.rank && a.due == b.due && a.occurred < b.occurred)
    || (a.rank == b.rank && a.due == b.due && a.occurred == b.occurred && a.id < b.id)
  }

  /** No two rows share a sort key. */
  ghost predicate Keyed<T(!new)>(ids: set<T>, key: T -> Key) {
    forall a, b | a in ids && b in ids && a != b :: key(a) != key(b)
  }

  predicate IsFirst<T(==, !new)>(m: T, ids: set<T>, key: T -> Key) {
    m in ids && forall id | id in ids :: id == m || Less(key(m), key(id))
  }

  ghost predicate Ascending<T(!new)>(ids: seq<T>, key: T -> Key) {
    forall i, j | 0 <= i < j < |ids| :: Less(key(ids[i]), key(ids[j]))
  }

  function Elements<T(==)>(ids: seq<T>): (s: set<T>) {
    set id | id in ids
  }

  lemma ElementsAre<T>(ids: seq<T>, s: set<T>)
    requires forall id :: id in s <==> id in ids
    ensures Elements(ids) == s
  {
  }

  lemma FirstExists<T(!new)>(ids: set<T>, key: T -> Key)
    requires ids != {} && Keyed(ids, key)
    ensures exists m :: IsFirst(m, ids, key)
    decreases |ids|
  {
    var x := Member(ids);
    if ids == {x} {
      assert IsFirst(x, ids, key);
    } else {
      FirstExists(ids - {x}, key);
      var m :| IsFirst(m, ids - {x}, key);
      var first := if Less(key(x), key(m)) then x else m;
      assert forall id | id in ids :: id == x || id in ids - {x};
      assert IsFirst(first, ids, key);
    }
  }

  function First<T(==, !new)>(ids: set<T>, key: T -> Key): (m: T)
    requires ids != {} && Keyed(ids, key)
    ensures IsFirst(m, ids, key)
  {
    FirstExists(ids, key);
    var m :| m in ids && IsFirst(m, ids, key);
    m
  }

  /** `SELECT id ... ORDER BY key`. */
  function Ordered<T(==, !new)>(ids: set<T>, key: T -> Key): (r: seq<T>)
    requires Keyed(ids, key)
    decreases |ids|
  {
    if ids == {} then []
    else
      var m := First(ids, key);
      assert |ids - {m}| < |ids|;
      [m] + Ordered(ids - {m}, key)
  }

  /** `SELECT id ... ORDER BY key LIMIT n`. */
  function FirstN<T(==, !new)>(ids: set<T>, key: T -> Key, n: nat): (r: seq<T>)
    requires Keyed(ids, key)
  {
    var all := Ordered(ids, key);
    if n < |all| then all[..n] else all
  }

  lemma AscendingCons<T(!new)>(id: T, ids: seq<T>, key: T -> Key)
    requires Ascending(ids, key) && forall p | p in ids :: Less(key(id), key(p))
    ensures Ascending([id] + ids, key)
  {
    forall j | 0 <= j < |ids| ensures Less(key(id), key(ids[j])) {
      assert ids[j] in ids;
    }
  }

  /** The listing has every row once, in key order. */
  lemma {:induction false} OrderedLists<T(!new)>(ids: set<T>, key: T -> Key)
    requires Keyed(ids, key)
    ensures |Ordered(ids, key)| == |ids|
    ensures Ascending(Ordered(ids, key), key)
    ensures forall id :: id in ids <==> id in Ordered(ids, key)
    decreases |ids|
  {
    if ids != {} {
      var m := First(ids, key);
      OrderedLists(ids - {m}, key);
      var rest := Ordered(ids - {m}, key);
      assert forall id :: id in rest <==> id in ids - {m};
      AscendingCons(m, rest, key);
    }
  }

  lemma FirstNSplits<T(!new)>(ids: set<T>, key: T -> Key, n: nat) returns (rest: seq<T>)
    requires Keyed(ids, key)
    ensures Ordered(ids, key) == FirstN(ids, key, n) + rest
    ensures |FirstN(ids, key, n)| == if n < |ids| then n else |ids|
  {
    OrderedLists(ids, key);
    rest := if n < |ids| then Ordered(ids, key)[n..] else [];
  }

  lemma FirstBeforeRest<T(!new)>(first: seq<T>, rest: seq<T>, key: T -> Key)
    requires Ascending(first + rest, key)
    ensures Ascending(first, key)
    ensures forall p, q | p in first && q in rest :: Less(key(p), key(q))
  {
    var all := first + rest;
    forall i, j | 0 <= i < j < |first| ensures Less(key(first[i]), key(first[j])) {
      assert all[i] == first[i] && all[j] == first[j];
    }
    forall p, q | p in first && q in rest ensures Less(key(p), key(q)) {
      var i :| 0 <= i < |first| && first[i] == p;
      var j :| 0 <= j < |rest| && rest[j] == q;
      assert all[i] == p && all[|first| + j] == q;
    }
  }

  /** `LIMIT n` keeps the n least rows, in order. */
  lemma FirstNIsLeast<T(!new)>(ids: set<T>, key: T -> Key, n: nat)
    requires Keyed(ids, key)
    ensures |FirstN(ids, key, n)| == |Elements(FirstN(ids, key, n))| == if n < |ids| then n else |ids|
    ensures Ascending(FirstN(ids, key, n), key)
    ensures Elements(FirstN(ids, key, n)) <= ids
    ensures forall p, q | p in FirstN(ids, key, n) && q in ids && q !in FirstN(ids, key, n) :: Less(key(p), key(q))
  {
    var rest := FirstNSplits(ids, key, n);
    OrderedLists(ids, key);
    FirstBeforeRest(FirstN(ids, key, n), rest, key);
    CountListed(FirstN(ids, key, n), key);
    assert forall q | q in ids :: q in FirstN(ids, key, n) || q in rest;
  }

  lemma {:induction false} CountListed<T(!new)>(r: seq<T>, key: T -> Key)
    requires Ascending(r, key)
    ensures |Elements(r)| == |r|
  {
    if r != [] {
      var init, last := r[..|r| - 1], r[|r| - 1];
      CountListed(init, key);
      assert r == init + [last];
      assert forall i | 0 <= i < |init| :: Less(key(init[i]), key(last));
      assert last !in init;
      assert Elements(r) == Elements(init) + {last};
    }
  }

  lemma AscendingSnoc<T(!new)>(ids: seq<T>, id: T, key: T -> Key)
    requires Ascending(ids, key) && forall p | p in ids :: Less(key(p), key(id))
    ensures Ascending(ids + [id], key)
  {
    forall i | 0 <= i < |ids| ensures Less(key(ids[i]), key(id)) {
      assert ids[i] in ids;
    }
  }

  /** A set of rows has one ascending listing. */
  lemma {:induction false} AscendingIsUnique<T(!new)>(xs: seq<T>, ys: seq<T>, key: T -> Key)
    requires Ascending(xs, key) && Ascending(ys, key)
    requires forall id :: id in xs <==> id in ys
    ensures xs == ys
  {
    assert ys == [] || ys[0] in xs;
    if xs != [] {
      assert xs[0] in ys;
      assert ys[0] in xs;
      assert xs[0] == ys[0];
      forall id ensures id in xs[1..] <==> id in ys[1..] {
        assert id in xs <==> id == xs[0] || id in xs[1..];
        assert id in ys <==> id == ys[0] || id in ys[1..];
      }
      AscendingIsUnique(xs[1..], ys[1..], key);
      assert xs == [xs[0]] + xs[1..];
    }
  }

  lemma OrderedIsUnique<T(!new)>(ids: set<T>, r: seq<T>, key: T -> Key)
    requires Keyed(ids, key) && Ascending(r, key)
    requires forall id :: id in ids <==> id in r
    ensures Ordered(ids, key) == r
  {
    OrderedLists(ids, key);
    AscendingIsUnique(Ordered(ids, key), r, key);
  }

  /** The order of a set of rows depends on those rows' keys only. */
  lemma OrderedCongruent<T(!new)>(ids: set<T>, key: T -> Key, key': T -> Key)
    requires Keyed(ids, key)
    requires forall id | id in ids :: key(id) == key'(id)
    ensures Ordered(ids, key) == Ordered(ids, key')
  {
    OrderedLists(ids, key);
    var r := Ordered(ids, key);
    forall i, j | 0 <= i < j < |r| ensures Less(key'(r[i]), key'(r[j])) {
      assert r[i] in ids && r[j] in ids;
    }
    OrderedIsUnique(ids, r, key');
  }

  /** Taking the first rows away leaves the tail of the ordering. */
  lemma OrderedWithoutPrefix<T(!new)>(ids: set<T>, key: T -> Key, head: seq<T>, tail: seq<T>)
    requires Keyed(ids, key)
    requires Ordered(ids, key) == head + tail
    ensures Ordered(ids - Elements(head), key) == tail
  {
    OrderedLists(ids, key);
    var rest := ids - Elements(head);
    forall i, j | 0 <= i < j < |tail| ensures Less(key(tail[i]), key(tail[j])) {
      assert (head + tail)[|head| + i] == tail[i] && (head + tail)[|head| + j] == tail[j];
    }
    forall id ensures id in rest <==> id in tail {
      assert id in ids <==> id in head || id in tail;
      if id in tail {
        var i :| 0 <= i < |tail| && tail[i] == id;
        assert (head + tail)[|head| + i] == id;
        forall j | 0 <= j < |head| ensures head[j] != id {
          assert Less(key((head + tail)[j]), key((head + tail)[|head| + i]));
        }
        assert id !in head;
      }
    }
    OrderedIsUnique(rest, tail, key);
  }

  /** `LIMIT n` is determined by what it promises: no other choice of n rows is least. */
  lemma FirstNIsUnique<T(!new)>(ids: set<T>, key: T -> Key, n: nat, r: seq<T>)
    requires Keyed(ids, key)
    requires |r| == if n < |ids| then n else |ids|
    requires Ascending(r, key) && Elements(r) <= ids
    requires forall p, q | p in r && q in ids && q !in r :: Less(key(p), key(q))
    ensures r == FirstN(ids, key, n)
  {
    var others := ids - Elements(r);
    OrderedLists(others, key);
    OrderedLists(ids, key);
    var rest := Ordered(others, key);
    forall i, j | 0 <= i < j < |r + rest| ensures Less(key((r + rest)[i]), key((r + rest)[j])) {
      if i < |r| <= j {
        assert rest[j - |r|] in others;
      }
    }
    OrderedIsUnique(ids, r + rest, key);
  }
}
