/** A stable sort in descending order of an integer key: what Python's
    `list.sort(key=..., reverse=True)` does on keys that are numbers, and one
    admissible order for SQL's `ORDER BY ... DESC`. */
module Ranking {
  import opened Rows

  ghost predicate NonIncreasing<T>(s: seq<T>, key: T -> int) {
    forall i, j :: 0 <= i < j < |s| ==> key(s[i]) >= key(s[j])
  }

  /** The elements whose key is `k`. */
  function KeyIs<T>(key: T -> int, k: int): T -> bool {
    x => key(x) == k
  }

  /** Place `x` before the first element whose key is not greater than its own. */
  function Insert<T>(x: T, s: seq<T>, key: T -> int): seq<T> {
    if s == [] || key(x) >= key(s[0]) then [x] + s
    else [s[0]] + Insert(x, s[1..], key)
  }

  /** Stable descending sort by insertion, from the back of the input. */
  function SortDesc<T>(s: seq<T>, key: T -> int): seq<T> {
    if s == [] then [] else Insert(s[0], SortDesc(s[1..], key), key)
  }

  lemma {:induction false} InsertSorted<T>(x: T, s: seq<T>, key: T -> int)
    requires NonIncreasing(s, key)
    ensures |Insert(x, s, key)| == |s| + 1
    ensures Insert(x, s, key)[0] == x || Insert(x, s, key)[0] == s[0]
    ensures NonIncreasing(Insert(x, s, key), key)
  {
    if s != [] && key(x) < key(s[0]) {
      var t := s[1..];
      assert NonIncreasing(t, key) by {
        forall i, j | 0 <= i < j < |t| ensures key(t[i]) >= key(t[j]) {
          assert t[i] == s[i + 1] && t[j] == s[j + 1];
        }
      }
      InsertSorted(x, t, key);
      var r := Insert(x, t, key);
      assert key(s[0]) >= key(r[0]);
      forall i, j | 0 <= i < j < |r| + 1 ensures key(([s[0]] + r)[i]) >= key(([s[0]] + r)[j]) {
        if i == 0 && j > 1 {
          assert key(r[0]) >= key(r[j - 1]);
        }
      }
    }
  }

  lemma {:induction false} InsertMultiset<T>(x: T, s: seq<T>, key: T -> int)
    ensures multiset(Insert(x, s, key)) == multiset(s) + multiset{x}
  {
    if s != [] && key(x) < key(s[0]) {
      InsertMultiset(x, s[1..], key);
      assert s == [s[0]] + s[1..];
    }
  }

  /** Inserting into a sorted sequence keeps, for every key, the elements of
      that key in the order `[x] + s` has them. */
  lemma {:induction false} InsertStable<T>(x: T, s: seq<T>, key: T -> int, k: int)
    requires NonIncreasing(s, key)
    ensures Where(Insert(x, s, key), KeyIs(key, k)) == Where([x] + s, KeyIs(key, k))
  {
    var p := KeyIs(key, k);
    if s != [] && key(x) < key(s[0]) {
      var t := s[1..];
      assert NonIncreasing(t, key) by {
        forall i, j | 0 <= i < j < |t| ensures key(t[i]) >= key(t[j]) {
          assert t[i] == s[i + 1] && t[j] == s[j + 1];
        }
      }
      InsertStable(x, t, key, k);
      calc {
        Where(Insert(x, s, key), p);
        Where([s[0]] + Insert(x, t, key), p);
        { WhereAppend([s[0]], Insert(x, t, key), p); }
        Where([s[0]], p) + Where(Insert(x, t, key), p);
        Where([s[0]], p) + Where([x] + t, p);
        { WhereAppend([x], t, p); }
        Where([s[0]], p) + Where([x], p) + Where(t, p);
        // x and s[0] have different keys, so at most one of them is kept
        Where([x], p) + Where([s[0]], p) + Where(t, p);
        { WhereAppend([s[0]], t, p); assert [s[0]] + t == s; }
        Where([x], p) + Where(s, p);
        { WhereAppend([x], s, p); }
        Where([x] + s, p);
      }
    }
  }

  /** `SortDesc` orders by non-increasing key. */
  lemma {:induction false} SortDescSorted<T>(s: seq<T>, key: T -> int)
    ensures |SortDesc(s, key)| == |s|
    ensures NonIncreasing(SortDesc(s, key), key)
  {
    if s != [] {
      SortDescSorted(s[1..], key);
      InsertSorted(s[0], SortDesc(s[1..], key), key);
    }
  }

  /** `SortDesc` returns a permutation of its input. */
  lemma {:induction false} SortDescPermutation<T>(s: seq<T>, key: T -> int)
    ensures multiset(SortDesc(s, key)) == multiset(s)
  {
    if s != [] {
      SortDescPermutation(s[1..], key);
      InsertMultiset(s[0], SortDesc(s[1..], key), key);
      assert s == [s[0]] + s[1..];
    }
  }

  /** `SortDesc` is stable: elements with equal keys keep their input order. */
  lemma {:induction false} SortDescStable<T>(s: seq<T>, key: T -> int, k: int)
    ensures Where(SortDesc(s, key), KeyIs(key, k)) == Where(s, KeyIs(key, k))
  {
    if s != [] {
      var t := SortDesc(s[1..], key);
      SortDescStable(s[1..], key, k);
      SortDescSorted(s[1..], key);
      InsertStable(s[0], t, key, k);
      WhereAppend([s[0]], t, KeyIs(key, k));
      WhereAppend([s[0]], s[1..], KeyIs(key, k));
      assert [s[0]] + s[1..] == s;
    }
  }
}
