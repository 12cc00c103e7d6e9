/** Sequence helpers for the array operations the request handlers perform on
    Mongoose arrays: `includes`, `push`, and `String.prototype.startsWith`. */
module Seqs {

  /** No element occurs twice. */
  ghost predicate NoDup<T>(xs: seq<T>) {
    forall i, j :: 0 <= i < j < |xs| ==> xs[i] != xs[j]
  }

  /** The guarded push `if (!xs.includes(x)) xs.push(x)`: the existing
      elements keep their order, `x` is present afterwards, nothing changes
      when `x` was already there, and otherwise exactly one `x` is added. */
  function AppendIfAbsent<T(==)>(xs: seq<T>, x: T): (r: seq<T>)
    ensures xs <= r
    ensures x in r
    ensures x in xs ==> r == xs
    ensures |r| <= |xs| + 1
    ensures multiset(r)[x] == if x in xs then multiset(xs)[x] else 1
  {
    if x in xs then xs else xs + [x]
  }

  /** Applying the guarded push a second time changes nothing. */
  lemma AppendIfAbsentIdempotent<T>(xs: seq<T>, x: T)
    ensures AppendIfAbsent(AppendIfAbsent(xs, x), x) == AppendIfAbsent(xs, x)
  {
  }

  /** The guarded push never introduces a duplicate. */
  lemma NoDupAppendIfAbsent<T>(xs: seq<T>, x: T)
    requires NoDup(xs)
    ensures NoDup(AppendIfAbsent(xs, x))
  {
    if x !in xs {
      var r := xs + [x];
      forall i, j | 0 <= i < j < |r| ensures r[i] != r[j] {
        if j == |xs| {
          assert r[i] == xs[i];
        }
      }
    }
  }

  /** Appending an element that is absent keeps a duplicate-free sequence
      duplicate-free. */
  lemma NoDupAppendFresh<T>(xs: seq<T>, x: T)
    requires NoDup(xs) && x !in xs
    ensures NoDup(xs + [x])
  {
    NoDupAppendIfAbsent(xs, x);
  }

  /** In a duplicate-free sequence a present element occurs exactly once. */
  lemma {:induction false} NoDupSingleOccurrence<T>(xs: seq<T>, x: T)
    requires NoDup(xs) && x in xs
    ensures multiset(xs)[x] == 1
  {
    assert xs == [xs[0]] + xs[1..];
    var tail := xs[1..];
    assert NoDup(tail) by {
      forall i, j | 0 <= i < j < |tail| ensures tail[i] != tail[j] {
        assert tail[i] == xs[i + 1] && tail[j] == xs[j + 1];
      }
    }
    if xs[0] == x {
      assert x !in tail by {
        forall k | 0 <= k < |tail| ensures tail[k] != x {
          assert tail[k] == xs[k + 1];
        }
      }
      assert multiset(tail)[x] == 0;
    } else {
      assert x in tail;
      NoDupSingleOccurrence(tail, x);
    }
    assert multiset(xs) == multiset([xs[0]]) + multiset(tail);
  }

  /** Character-by-character prefix comparison, as `String.prototype.startsWith`
      with no position argument performs it. */
  function StartsWith(s: string, prefix: string): bool
    decreases |prefix|
  {
    |prefix| == 0 || (|s| > 0 && s[0] == prefix[0] && StartsWith(s[1..], prefix[1..]))
  }

  /** The character-wise comparison agrees with Dafny's sequence-prefix relation. */
  lemma {:induction false} StartsWithIsPrefix(s: string, prefix: string)
    ensures StartsWith(s, prefix) <==> prefix <= s
    decreases |prefix|
  {
    if |prefix| > 0 && |s| > 0 {
      StartsWithIsPrefix(s[1..], prefix[1..]);
      if prefix <= s {
        assert prefix[1..] <= s[1..];
      }
      if s[0] == prefix[0] && prefix[1..] <= s[1..] {
        assert prefix == [prefix[0]] + prefix[1..];
        assert s == [s[0]] + s[1..];
      }
    }
  }
}
