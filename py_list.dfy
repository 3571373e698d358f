// The Python list operations the editor relies on: insert (with its index
// clamping), index, remove (first occurrence) and the `[:n]` slice.

module PyLists {

  /** Where `list.insert(i, x)` puts `x` in a list of length `n`. */
  function InsertPos(n: nat, i: int): (p: nat)
    ensures p <= n
  {
    if i < 0 then (if i + n < 0 then 0 else i + n)
    else if i > n then n
    else i
  }

  /** `s.insert(i, x)` */
  function Insert<T>(s: seq<T>, i: int, x: T): (r: seq<T>)
    ensures |r| == |s| + 1
    ensures r[InsertPos(|s|, i)] == x
    ensures r[..InsertPos(|s|, i)] == s[..InsertPos(|s|, i)]
    ensures r[InsertPos(|s|, i) + 1..] == s[InsertPos(|s|, i)..]
    ensures multiset(r) == multiset(s) + multiset{x}
  {
    var p := InsertPos(|s|, i);
    assert s == s[..p] + s[p..];
    s[..p] + [x] + s[p..]
  }

  /** An insert adds `x` and keeps every element that was there. */
  lemma InsertMembers<T>(s: seq<T>, i: int, x: T)
    ensures forall y :: y in Insert(s, i, x) <==> y in s || y == x
  {
    var r := Insert(s, i, x);
    forall y ensures y in r <==> y in s || y == x {
      assert y in r <==> y in multiset(r);
      assert y in s <==> y in multiset(s);
    }
  }

  /** `s.index(x)`: the first position holding `x`. */
  function IndexOf<T(==)>(s: seq<T>, x: T): (k: nat)
    requires x in s
    ensures k < |s| && s[k] == x
    ensures forall j :: 0 <= j < k ==> s[j] != x
  {
    if s[0] == x then 0 else 1 + IndexOf(s[1..], x)
  }

  /** The list without its element at position `k`. */
  function RemoveAt<T>(s: seq<T>, k: nat): (r: seq<T>)
    requires k < |s|
    ensures |r| == |s| - 1
    ensures multiset(r) == multiset(s) - multiset{s[k]}
  {
    assert s == s[..k] + [s[k]] + s[k + 1..];
    s[..k] + s[k + 1..]
  }

  /** What is left after removing position `k` was all in the list. */
  lemma RemoveAtMembers<T>(s: seq<T>, k: nat)
    requires k < |s|
    ensures forall y :: y in RemoveAt(s, k) ==> y in s
  {
    forall y | y in RemoveAt(s, k) ensures y in s {
      assert y in multiset(RemoveAt(s, k));
    }
  }

  /** `s.remove(x)`: the first occurrence goes, everything else keeps its order. */
  function Remove<T(==)>(s: seq<T>, x: T): (r: seq<T>)
    requires x in s
    ensures r == RemoveAt(s, IndexOf(s, x))
    ensures multiset(r) == multiset(s) - multiset{x}
  {
    RemoveAt(s, IndexOf(s, x))
  }

  predicate Distinct<T(==)>(s: seq<T>) {
    forall i, j :: 0 <= i < j < |s| ==> s[i] != s[j]
  }

  /** In a list without repeats, removing the element at `k` removes position `k`. */
  lemma DistinctRemove<T>(s: seq<T>, k: nat)
    requires Distinct(s) && k < |s|
    ensures Remove(s, s[k]) == RemoveAt(s, k)
    ensures Distinct(RemoveAt(s, k))
    ensures s[k] !in RemoveAt(s, k)
  {
    var r := RemoveAt(s, k);
    assert IndexOf(s, s[k]) == k;
    forall i | 0 <= i < |r| ensures r[i] != s[k] && r[i] == (if i < k then s[i] else s[i + 1]) {
    }
  }

  lemma DistinctInsert<T>(s: seq<T>, i: int, x: T)
    requires Distinct(s) && x !in s
    ensures Distinct(Insert(s, i, x))
  {
    var r := Insert(s, i, x);
    var p := InsertPos(|s|, i);
    forall a, b | 0 <= a < b < |r| ensures r[a] != r[b] {
      if a < p {
        assert r[a] == s[a];
      } else if a > p {
        assert r[a] == s[a - 1];
      }
      if b < p {
        assert r[b] == s[b];
      } else if b > p {
        assert r[b] == s[b - 1];
      }
    }
  }

  /** Taking the element at `k` out and inserting it again at `i`, as `list.insert` does. */
  function Move<T>(s: seq<T>, k: nat, i: int): (r: seq<T>)
    requires k < |s|
    ensures r == Insert(RemoveAt(s, k), i, s[k])
    ensures |r| == |s|
  {
    Insert(RemoveAt(s, k), i, s[k])
  }

  /** Moving an element permutes the list. */
  lemma MovePermutes<T>(s: seq<T>, k: nat, i: int)
    requires k < |s|
    ensures multiset(Move(s, k, i)) == multiset(s)
  {
  }

  /** Moving an element keeps a list free of repeats. */
  lemma MoveDistinct<T>(s: seq<T>, k: nat, i: int)
    requires k < |s| && Distinct(s)
    ensures Distinct(Move(s, k, i))
  {
    DistinctRemove(s, k);
    DistinctInsert(RemoveAt(s, k), i, s[k]);
  }

  /** The moved element lands at the clamped destination. */
  lemma MoveLands<T>(s: seq<T>, k: nat, i: int)
    requires k < |s|
    ensures Move(s, k, i)[InsertPos(|s| - 1, i)] == s[k]
  {
  }

  /** `s[:n]` */
  function Take<T>(s: seq<T>, n: int): (r: seq<T>)
    ensures n >= 0 ==> |r| == (if n < |s| then n else |s|)
    ensures n < 0 ==> |r| == (if |s| + n < 0 then 0 else |s| + n)
    ensures r == s[..|r|]
  {
    if n >= 0 then (if n < |s| then s[..n] else s)
    else if |s| + n < 0 then []
    else s[..|s| + n]
  }
}
