/** The order on strings that sorted maps and sorted lists use, and sorting. */
module Sorting {

  /** Lexicographic by character code. */
  predicate Before(a: string, b: string) {
    b != "" && (a == "" || a[0] < b[0] || (a[0] == b[0] && Before(a[1..], b[1..])))
  }

  /** The first character in which they differ decides, or the shorter is the first. */
  ghost predicate Precedes(a: string, b: string, k: nat) {
    && k <= |a| && k < |b| && a[..k] == b[..k]
    && (k < |a| ==> a[k] < b[k])
  }

  lemma SameHead(a: string, b: string, k: nat)
    requires Precedes(a, b, k)
    ensures k > 0 ==> a[0] == b[0]
  {
    assert k > 0 ==> a[..k][0] == b[..k][0];
  }

  lemma {:induction false} BeforeExactly(a: string, b: string)
    ensures Before(a, b) <==> exists k: nat :: Precedes(a, b, k)
  {
    if a != "" && b != "" && a[0] == b[0] {
      BeforeExactly(a[1..], b[1..]);
      if k: nat :| Precedes(a[1..], b[1..], k) {
        var next := k + 1;
        assert a[..next] == [a[0]] + a[1..][..k] && b[..next] == [b[0]] + b[1..][..k];
        assert Precedes(a, b, next);
      }
      if k: nat :| Precedes(a, b, k) {
        assert k > 0;
        var less := k - 1;
        assert a[1..][..less] == a[..k][1..] && b[1..][..less] == b[..k][1..];
        assert Precedes(a[1..], b[1..], less);
      }
    } else if Before(a, b) {
      assert Precedes(a, b, 0);
    } else {
      forall k: nat | Precedes(a, b, k)
        ensures Before(a, b)
      {
        SameHead(a, b, k);
      }
    }
  }

  lemma {:induction false} BeforeIsTotal(a: string, b: string)
    ensures Before(a, b) || Before(b, a) || a == b
  {
    if a != "" && b != "" && a[0] == b[0] {
      BeforeIsTotal(a[1..], b[1..]);
      assert a == [a[0]] + a[1..] && b == [b[0]] + b[1..];
    }
  }

  lemma {:induction false} BeforeIsAsymmetric(a: string, b: string)
    ensures !(Before(a, b) && Before(b, a)) && !Before(a, a)
  {
    if a != "" {
      BeforeIsAsymmetric(a[1..], a[1..]);
    }
    if a != "" && b != "" {
      BeforeIsAsymmetric(a[1..], b[1..]);
    }
  }

  lemma {:induction false} BeforeIsTransitive(a: string, b: string, c: string)
    requires Before(a, b) && Before(b, c)
    ensures Before(a, c)
  {
    if a != "" && a[0] == b[0] == c[0] {
      BeforeIsTransitive(a[1..], b[1..], c[1..]);
    }
  }

  /** Each before every later one: sorted and without repetition. */
  predicate Ascending(s: seq<string>) {
    forall i, j :: 0 <= i < j < |s| ==> Before(s[i], s[j])
  }

  predicate NoRepeats<T(==)>(s: seq<T>) {
    forall i, j :: 0 <= i < j < |s| ==> s[i] != s[j]
  }

  lemma AscendingDistinct(s: seq<string>)
    requires Ascending(s)
    ensures NoRepeats(s)
  {
    forall i, j | 0 <= i < j < |s|
      ensures s[i] != s[j]
    {
      BeforeIsAsymmetric(s[i], s[i]);
    }
  }

  function Insert(x: string, s: seq<string>): (r: seq<string>)
    ensures multiset(r) == multiset(s) + multiset{x}
  {
    if s == [] || !Before(s[0], x) then [x] + s
    else
      assert s == [s[0]] + s[1..];
      [s[0]] + Insert(x, s[1..])
  }

  function Sort(s: seq<string>): (r: seq<string>)
    ensures multiset(r) == multiset(s)
  {
    if s == [] then []
    else
      assert s == [s[0]] + s[1..];
      Insert(s[0], Sort(s[1..]))
  }

  lemma SameMembers(a: seq<string>, b: seq<string>)
    requires multiset(a) == multiset(b)
    ensures |a| == |b| && forall x :: x in a <==> x in b
  {
    assert |multiset(a)| == |multiset(b)|;
    forall x
      ensures x in a <==> x in b
    {
      assert x in multiset(a) <==> x in multiset(b);
    }
  }

  lemma {:induction false} InsertAscending(x: string, s: seq<string>)
    requires Ascending(s) && x !in s
    ensures Ascending(Insert(x, s))
  {
    if s != [] {
      BeforeIsTotal(s[0], x);
      if Before(s[0], x) {
        var rest := Insert(x, s[1..]);
        InsertAscending(x, s[1..]);
        forall y | y in rest
          ensures Before(s[0], y)
        {
          assert y in multiset(rest);
        }
      } else {
        forall i | 0 < i < |s|
          ensures Before(x, s[i])
        {
          BeforeIsTransitive(x, s[0], s[i]);
        }
      }
    }
  }

  /** Sorting a list without repetition puts it in ascending order. */
  lemma {:induction false} SortAscending(s: seq<string>)
    requires NoRepeats(s)
    ensures Ascending(Sort(s))
  {
    if s != [] {
      SortAscending(s[1..]);
      SameMembers(Sort(s[1..]), s[1..]);
      InsertAscending(s[0], Sort(s[1..]));
    }
  }

  lemma EmptyTogether(a: seq<string>, b: seq<string>)
    requires forall x :: x in a <==> x in b
    ensures a == [] <==> b == []
  {
    assert (a != [] ==> a[0] in a) && (b != [] ==> b[0] in b);
  }

  /** There is only one ascending list of given strings. */
  lemma {:induction false} AscendingUnique(a: seq<string>, b: seq<string>)
    requires Ascending(a) && Ascending(b)
    requires forall x :: x in a <==> x in b
    ensures a == b
  {
    EmptyTogether(a, b);
    if a != [] {
      assert a[0] in a && b[0] in b;
      FirstIsLeast(a, b);
      AscendingDistinct(a);
      AscendingDistinct(b);
      assert a == [a[0]] + a[1..] && b == [b[0]] + b[1..];
      forall x
        ensures x in a[1..] <==> x in b[1..]
      {
        assert x in a[1..] <==> x in a && x != a[0];
        assert x in b[1..] <==> x in b && x != b[0];
      }
      AscendingUnique(a[1..], b[1..]);
    }
  }

  lemma FirstIsLeast(a: seq<string>, b: seq<string>)
    requires a != [] && b != [] && Ascending(a) && Ascending(b)
    requires a[0] in b && b[0] in a
    ensures a[0] == b[0]
  {
    BeforeIsAsymmetric(a[0], b[0]);
  }
}
