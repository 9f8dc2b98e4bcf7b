/** The order `Array.prototype.sort()` uses on strings when no comparator is
    given: lexicographic comparison of characters by code. The warehouse summary
    sorts keys with `localeCompare`, which this model replaces by the same order. */
module Sorting {
  import opened Seqs

  /** `a` sorts strictly before `b`. A proper prefix sorts first. */
  predicate Lt(a: string, b: string)
    decreases |a|
  {
    if |a| == 0 then |b| > 0
    else if |b| == 0 then false
    else if a[0] != b[0] then a[0] < b[0]
    else Lt(a[1..], b[1..])
  }

  predicate Le(a: string, b: string)
  {
    a == b || Lt(a, b)
  }

  lemma {:induction false} LtIrreflexive(a: string)
    ensures !Lt(a, a)
    decreases |a|
  {
    if |a| > 0 {
      LtIrreflexive(a[1..]);
    }
  }

  lemma {:induction false} LtTransitive(a: string, b: string, c: string)
    requires Lt(a, b) && Lt(b, c)
    ensures Lt(a, c)
    decreases |a|
  {
    if |a| > 0 && a[0] == b[0] && b[0] == c[0] {
      LtTransitive(a[1..], b[1..], c[1..]);
    }
  }

  /** Any two distinct strings are ordered one way or the other, and not both ways. */
  lemma {:induction false} LtTrichotomy(a: string, b: string)
    ensures a == b || Lt(a, b) || Lt(b, a)
    ensures !(Lt(a, b) && Lt(b, a))
    decreases |a|
  {
    if |a| > 0 && |b| > 0 && a[0] == b[0] {
      LtTrichotomy(a[1..], b[1..]);
      if a[1..] == b[1..] {
        assert a == [a[0]] + a[1..] && b == [b[0]] + b[1..];
      }
    }
  }

  lemma LeTransitive(a: string, b: string, c: string)
    requires Le(a, b) && Le(b, c)
    ensures Le(a, c)
  {
    if a != b && b != c {
      LtTransitive(a, b, c);
    }
  }

  predicate Sorted(s: seq<string>)
  {
    forall i, j | 0 <= i < j < |s| :: Le(s[i], s[j])
  }

  predicate StrictlySorted(s: seq<string>)
  {
    forall i, j | 0 <= i < j < |s| :: Lt(s[i], s[j])
  }

  /** Places `x` before the first element it does not sort after. */
  function Insert(x: string, s: seq<string>): (r: seq<string>)
    ensures multiset(r) == multiset(s) + multiset{x}
    ensures |r| == |s| + 1
  {
    if |s| == 0 then [x]
    else if Le(x, s[0]) then [x] + s
    else
      assert s == [s[0]] + s[1..];
      [s[0]] + Insert(x, s[1..])
  }

  lemma {:induction false} InsertSorted(x: string, s: seq<string>)
    requires Sorted(s)
    ensures Sorted(Insert(x, s))
    decreases |s|
  {
    if |s| == 0 {
    } else if Le(x, s[0]) {
      forall j | 0 < j < |s| + 1 ensures Le(x, ([x] + s)[j]) {
        LeTransitive(x, s[0], s[j - 1]);
      }
    } else {
      var rest := Insert(x, s[1..]);
      InsertSorted(x, s[1..]);
      LtTrichotomy(x, s[0]);
      assert s == [s[0]] + s[1..];
      forall j | 0 <= j < |rest| ensures Le(s[0], rest[j]) {
        assert rest[j] in multiset(rest);
        if rest[j] != x {
          assert rest[j] in multiset(s[1..]);
          var k :| 0 <= k < |s[1..]| && s[1..][k] == rest[j];
          assert Le(s[0], s[k + 1]);
        }
      }
      assert Insert(x, s) == [s[0]] + rest;
    }
  }

  lemma NoDupHead(s: seq<string>)
    requires NoDup(s) && |s| > 0
    ensures s[0] !in s[1..] && NoDup(s[1..])
  {
    forall k | 0 <= k < |s| - 1 ensures s[1..][k] != s[0] {
      assert s[1..][k] == s[k + 1];
    }
  }

  lemma {:induction false} InsertNoDup(x: string, s: seq<string>)
    requires NoDup(s) && x !in s
    ensures NoDup(Insert(x, s))
    decreases |s|
  {
    if |s| == 0 {
    } else if Le(x, s[0]) {
      NoDupPrepend(x, s);
    } else {
      assert s == [s[0]] + s[1..];
      var rest := Insert(x, s[1..]);
      NoDupHead(s);
      InsertNoDup(x, s[1..]);
      NoDupHead(s);
      assert s[0] !in multiset(rest);
      NoDupPrepend(s[0], rest);
    }
  }

  /** Insertion sort: a sorted permutation of `s`. */
  function Sort(s: seq<string>): (r: seq<string>)
    ensures multiset(r) == multiset(s)
    ensures |r| == |s|
    ensures Sorted(r)
    ensures NoDup(s) ==> NoDup(r)
  {
    if |s| == 0 then []
    else
      var rest := Sort(s[1..]);
      assert s == [s[0]] + s[1..];
      InsertSorted(s[0], rest);
      if NoDup(s) then
        NoDupHead(s);
        assert s[0] !in multiset(rest);
        InsertNoDup(s[0], rest);
        Insert(s[0], rest)
      else Insert(s[0], rest)
  }

  /** `Array.from(new Set(xs)).sort()`: the distinct values of `xs`, each once, in
      strictly increasing order. */
  function SortedDistinct(xs: seq<string>): (r: seq<string>)
    ensures StrictlySorted(r)
    ensures ToSet(r) == ToSet(xs)
  {
    var r := Sort(Dedup(xs));
    assert ToSet(r) == ToSet(Dedup(xs)) by {
      forall x ensures x in r <==> x in Dedup(xs) {
        assert x in r <==> x in multiset(r);
      }
    }
    forall i, j | 0 <= i < j < |r| ensures Lt(r[i], r[j]) {
      LtTrichotomy(r[i], r[j]);
    }
    r
  }

  /** A strictly sorted sequence is determined by its elements, so any way of
      sorting the distinct values gives the same list. */
  lemma {:induction false} StrictlySortedUnique(a: seq<string>, b: seq<string>)
    requires StrictlySorted(a) && StrictlySorted(b)
    requires ToSet(a) == ToSet(b)
    ensures a == b
    decreases |a|
  {
    if |a| > 0 {
      assert a[0] in ToSet(b);
      assert b[0] in ToSet(a);
      assert a[0] == b[0] by {
        var i :| 0 <= i < |b| && b[i] == a[0];
        var j :| 0 <= j < |a| && a[j] == b[0];
        if i > 0 && j > 0 {
          LtTransitive(a[0], a[j], a[0]);
          LtIrreflexive(a[0]);
        }
      }
      forall x ensures x in a[1..] <==> x in b[1..] {
        if x in a[1..] {
          assert x in ToSet(a);
          assert x in b;
          var k :| 1 <= k < |a| && a[k] == x;
          LtIrreflexive(x);
        }
        if x in b[1..] {
          assert x in ToSet(b);
          assert x in a;
          var k :| 1 <= k < |b| && b[k] == x;
          LtIrreflexive(x);
        }
      }
      assert ToSet(a[1..]) == ToSet(b[1..]);
      StrictlySortedUnique(a[1..], b[1..]);
      assert a == [a[0]] + a[1..] && b == [b[0]] + b[1..];
    } else {
      EmptyToSet(b);
    }
  }

  lemma EmptyToSet(s: seq<string>)
    ensures ToSet(s) == {} ==> s == []
  {
    if |s| > 0 {
      assert s[0] in ToSet(s);
    }
  }
}
