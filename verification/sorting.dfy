/** Python's stable `sorted(xs, key=...)` and `sorted(xs, key=..., reverse=True)`,
    stated on positions: the result lists the positions of `keys`, ordered by
    key and, among equal keys, by position. Python keeps equal keys in their
    input order in both directions, so this order is exactly what a stable
    sort produces. */
module Sorting {

  /** Position `a` comes before position `b`: by key (ascending, or
      descending when `desc`), ties broken by position. */
  predicate Precedes(keys: seq<real>, desc: bool, a: nat, b: nat)
    requires a < |keys| && b < |keys|
  {
    if desc then keys[a] > keys[b] || (keys[a] == keys[b] && a < b)
    else keys[a] < keys[b] || (keys[a] == keys[b] && a < b)
  }

  lemma PrecedesTransitive(keys: seq<real>, desc: bool, a: nat, b: nat, c: nat)
    requires a < |keys| && b < |keys| && c < |keys|
    requires Precedes(keys, desc, a, b) && Precedes(keys, desc, b, c)
    ensures Precedes(keys, desc, a, c)
  {
  }

  /** Every entry is a position of `keys`, and the entries appear in strictly
      increasing `Precedes` order (so they are also distinct). */
  predicate SortedBy(keys: seq<real>, desc: bool, s: seq<nat>)
  {
    && (forall i :: 0 <= i < |s| ==> s[i] < |keys|)
    && (forall i, j :: 0 <= i < j < |s| ==> Precedes(keys, desc, s[i], s[j]))
  }

  /** The positions `0 .. n - 1`. */
  function Range(n: nat): (r: seq<nat>)
    ensures |r| == n && forall i :: 0 <= i < n ==> r[i] == i
  {
    seq(n, i => i)
  }

  /** Each entry is a position of `keys` that precedes the next entry. */
  predicate Chain(keys: seq<real>, desc: bool, s: seq<nat>)
  {
    && (forall i :: 0 <= i < |s| ==> s[i] < |keys|)
    && (forall i :: 0 <= i < |s| - 1 ==> Precedes(keys, desc, s[i], s[i + 1]))
  }

  /** Neighbourwise order gives order between any two entries. */
  lemma {:induction false} ChainSorted(keys: seq<real>, desc: bool, s: seq<nat>)
    requires Chain(keys, desc, s)
    ensures SortedBy(keys, desc, s)
  {
    if |s| > 1 {
      ChainSorted(keys, desc, s[1..]);
      forall j | 1 <= j < |s| ensures Precedes(keys, desc, s[0], s[j]) {
        if j > 1 {
          assert Precedes(keys, desc, s[1], s[j]) by {
            assert s[1] == s[1..][0] && s[j] == s[1..][j - 1];
          }
          PrecedesTransitive(keys, desc, s[0], s[1], s[j]);
        }
      }
      forall i, j | 0 <= i < j < |s| ensures Precedes(keys, desc, s[i], s[j]) {
        if i > 0 {
          assert s[i] == s[1..][i - 1] && s[j] == s[1..][j - 1];
        }
      }
    }
  }

  /** Inserts position `j` in front of the first entry it precedes. */
  function Insert(keys: seq<real>, desc: bool, s: seq<nat>, j: nat): (r: seq<nat>)
    requires j < |keys| && forall i :: 0 <= i < |s| ==> s[i] < |keys|
    ensures multiset(r) == multiset(s) + multiset{j}
    ensures |r| == |s| + 1
    ensures forall i :: 0 <= i < |r| ==> r[i] < |keys|
    ensures r[0] == j || (|s| > 0 && r[0] == s[0])
  {
    if |s| == 0 then [j]
    else if Precedes(keys, desc, j, s[0]) then [j] + s
    else
      assert s == [s[0]] + s[1..];
      [s[0]] + Insert(keys, desc, s[1..], j)
  }

  /** Inserting a position larger than every entry keeps the chain ordered. */
  lemma {:induction false} InsertChain(keys: seq<real>, desc: bool, s: seq<nat>, j: nat)
    requires j < |keys| && Chain(keys, desc, s)
    requires forall i :: 0 <= i < |s| ==> s[i] < j
    ensures Chain(keys, desc, Insert(keys, desc, s, j))
  {
    if |s| > 0 && !Precedes(keys, desc, j, s[0]) {
      var rest := Insert(keys, desc, s[1..], j);
      InsertChain(keys, desc, s[1..], j);
      assert Precedes(keys, desc, s[0], rest[0]) by {
        if rest[0] != j {
          assert rest[0] == s[1];
        }
      }
      var r := [s[0]] + rest;
      assert forall i :: 1 <= i < |r| - 1 ==> r[i] == rest[i - 1] && r[i + 1] == rest[i];
    }
  }

  /** Insertion sort of the positions before `n`. */
  function SortPrefix(keys: seq<real>, desc: bool, n: nat): (r: seq<nat>)
    requires n <= |keys|
    ensures Chain(keys, desc, r)
    ensures multiset(r) == multiset(Range(n))
  {
    if n == 0 then []
    else
      var s := SortPrefix(keys, desc, n - 1);
      assert forall i :: 0 <= i < |s| ==> s[i] < n - 1 by {
        forall i | 0 <= i < |s| ensures s[i] < n - 1 {
          assert s[i] in multiset(Range(n - 1));
        }
      }
      assert Range(n) == Range(n - 1) + [n - 1];
      InsertChain(keys, desc, s, n - 1);
      Insert(keys, desc, s, n - 1)
  }

  /** The positions of `keys` in the order Python's stable sort puts them:
      a permutation of `0 .. |keys| - 1` in strictly increasing `Precedes`
      order. */
  function SortPositions(keys: seq<real>, desc: bool): (r: seq<nat>)
    ensures SortedBy(keys, desc, r)
    ensures multiset(r) == multiset(Range(|keys|))
    ensures |r| == |keys|
  {
    var r := SortPrefix(keys, desc, |keys|);
    ChainSorted(keys, desc, r);
    assert |r| == |multiset(r)| == |multiset(Range(|keys|))|;
    r
  }

  /** A sorted permutation of the positions is unique, so any stable sort of
      the same keys gives the same order. */
  lemma {:induction false} SortedPermutationUnique(keys: seq<real>, desc: bool, a: seq<nat>, b: seq<nat>)
    requires SortedBy(keys, desc, a) && SortedBy(keys, desc, b)
    requires multiset(a) == multiset(b)
    ensures a == b
  {
    assert |a| == |multiset(a)| == |multiset(b)| == |b|;
    if |a| > 0 {
      if a[0] != b[0] {
        // Each first entry sits later in the other sequence, so each precedes the other.
        assert a[0] in multiset(b);
        var i :| 0 <= i < |b| && b[i] == a[0];
        assert b[0] in multiset(a);
        var k :| 0 <= k < |a| && a[k] == b[0];
        PrecedesTransitive(keys, desc, a[0], b[0], a[0]);
        assert false;
      }
      assert a == [a[0]] + a[1..];
      assert b == [b[0]] + b[1..];
      assert multiset(a[1..]) == multiset(a) - multiset{a[0]};
      assert multiset(b[1..]) == multiset(b) - multiset{b[0]};
      SortedPermutationUnique(keys, desc, a[1..], b[1..]);
    }
  }

  /** Every entry of a permutation of `Range(n)` is below `n`, and every
      position below `n` appears. */
  lemma RangePermutation(s: seq<nat>, n: nat)
    requires multiset(s) == multiset(Range(n))
    ensures |s| == n
    ensures forall i :: 0 <= i < |s| ==> s[i] < n
    ensures forall p :: 0 <= p < n ==> p in s
  {
    assert |s| == |multiset(s)| == |multiset(Range(n))|;
    forall i | 0 <= i < |s| ensures s[i] < n {
      assert s[i] in multiset(Range(n));
    }
    forall p | 0 <= p < n ensures p in s {
      assert Range(n)[p] == p;
      assert p in multiset(Range(n));
    }
  }

  /** The entries of a sorted sequence are distinct. */
  lemma SortedDistinct(keys: seq<real>, desc: bool, s: seq<nat>)
    requires SortedBy(keys, desc, s)
    ensures forall i, j :: 0 <= i < j < |s| ==> s[i] != s[j]
  {
  }
}
