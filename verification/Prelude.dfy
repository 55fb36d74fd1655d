/** Options, results and the few facts about sequences that the other modules share. */
module Prelude {

  datatype Option<+T> = None | Some(value: T)

  datatype Result<+T, +E> = Ok(value: T) | Err(error: E)

  ghost predicate Distinct<T>(s: seq<T>) {
    forall i, j :: 0 <= i < j < |s| ==> s[i] != s[j]
  }

  /** The subsequence of `s` that satisfies `p`, in the order of `s`. */
  function Filter<T>(p: T -> bool, s: seq<T>): seq<T> {
    if s == [] then []
    else if p(s[0]) then [s[0]] + Filter(p, s[1..])
    else Filter(p, s[1..])
  }

  lemma {:induction false} FilterMembers<T>(p: T -> bool, s: seq<T>)
    ensures forall x :: x in Filter(p, s) ==> x in s && p(x)
    ensures forall x :: x in s && p(x) ==> x in Filter(p, s)
    ensures |Filter(p, s)| <= |s|
  {
    if s == [] {
    } else {
      FilterMembers(p, s[1..]);
      assert s == [s[0]] + s[1..];
    }
  }

  lemma FilterCons<T>(p: T -> bool, x: T, s: seq<T>)
    ensures Filter(p, [x] + s) == (if p(x) then [x] else []) + Filter(p, s)
  {
    assert ([x] + s)[1..] == s;
  }

  lemma {:induction false} FilterConcat<T>(p: T -> bool, a: seq<T>, b: seq<T>)
    ensures Filter(p, a + b) == Filter(p, a) + Filter(p, b)
  {
    if a == [] {
      assert a + b == b;
    } else {
      assert (a + b)[1..] == a[1..] + b;
      FilterConcat(p, a[1..], b);
    }
  }

  lemma {:induction false} FilterAll<T>(p: T -> bool, s: seq<T>)
    requires forall x :: x in s ==> p(x)
    ensures Filter(p, s) == s
  {
    if s == [] {
    } else {
      FilterAll(p, s[1..]);
    }
  }

  lemma {:induction false} FilterNone<T>(p: T -> bool, s: seq<T>)
    requires forall x :: x in s ==> !p(x)
    ensures Filter(p, s) == []
  {
    if s == [] {
    } else {
      FilterNone(p, s[1..]);
    }
  }

  /** Two predicates that agree on the members select the same subsequence. */
  lemma {:induction false} FilterSame<T>(p: T -> bool, q: T -> bool, s: seq<T>)
    requires forall x :: x in s ==> p(x) == q(x)
    ensures Filter(p, s) == Filter(q, s)
  {
    if s == [] {
    } else {
      FilterSame(p, q, s[1..]);
    }
  }

  /** Filtering by one condition and then by another is filtering by both. */
  lemma {:induction false} FilterBoth<T>(p: T -> bool, q: T -> bool, both: T -> bool, s: seq<T>)
    requires forall x :: x in s ==> both(x) == (p(x) && q(x))
    ensures Filter(both, s) == Filter(p, Filter(q, s))
  {
    if s == [] {
    } else {
      FilterBoth(p, q, both, s[1..]);
      assert s[0] in s;
      if q(s[0]) {
        assert ([s[0]] + Filter(q, s[1..]))[1..] == Filter(q, s[1..]);
      }
    }
  }

  lemma Associate<T>(a: seq<T>, b: seq<T>, c: seq<T>)
    ensures a + (b + c) == a + b + c
  {
  }

  /** No element clashes with a later one. */
  ghost predicate NoClash<T>(clash: (T, T) -> bool, s: seq<T>) {
    forall i, j :: 0 <= i < j < |s| ==> !clash(s[i], s[j])
  }

  lemma {:induction false} FilterNoClash<T>(clash: (T, T) -> bool, p: T -> bool, s: seq<T>)
    requires NoClash(clash, s)
    ensures NoClash(clash, Filter(p, s))
  {
    if s == [] {
    } else {
      FilterNoClash(clash, p, s[1..]);
      FilterMembers(p, s[1..]);
      var f := Filter(p, s[1..]);
      if p(s[0]) {
        forall j | 0 <= j < |f|
          ensures !clash(s[0], f[j])
        {
          var x := f[j];
          assert x in f;
          assert x in s[1..];
        }
      }
    }
  }

  lemma ConcatNoClash<T>(clash: (T, T) -> bool, a: seq<T>, b: seq<T>)
    requires NoClash(clash, a) && NoClash(clash, b)
    requires forall x, y :: x in a && y in b ==> !clash(x, y)
    ensures NoClash(clash, a + b)
  {
    var s := a + b;
    forall i, j | 0 <= i < j < |s|
      ensures !clash(s[i], s[j])
    {
      if i < |a| <= j {
        assert s[i] in a && s[j] in b;
      }
    }
  }

  /** Elements that survive a filter keep their relative order. */
  lemma {:induction false} FilterOrder<T>(p: T -> bool, s: seq<T>, i: nat, j: nat)
    returns (i': nat, j': nat)
    requires i < j < |s| && p(s[i]) && p(s[j])
    ensures i' < j' < |Filter(p, s)|
    ensures Filter(p, s)[i'] == s[i] && Filter(p, s)[j'] == s[j]
  {
    if i == 0 {
      FilterMembers(p, s[1..]);
      assert s[j] in s[1..];
      var k :| 0 <= k < |Filter(p, s[1..])| && Filter(p, s[1..])[k] == s[j];
      i', j' := 0, k + 1;
    } else {
      i', j' := FilterOrder(p, s[1..], i - 1, j - 1);
      if p(s[0]) {
        i', j' := i' + 1, j' + 1;
      }
    }
  }

  /** The sum of a weight over a sequence. */
  function SumBy<T>(weight: T -> int, s: seq<T>): int {
    if s == [] then 0 else weight(s[0]) + SumBy(weight, s[1..])
  }

  lemma {:induction false} SumByConcat<T>(weight: T -> int, a: seq<T>, b: seq<T>)
    ensures SumBy(weight, a + b) == SumBy(weight, a) + SumBy(weight, b)
  {
    if a == [] {
      assert a + b == b;
    } else {
      assert (a + b)[1..] == a[1..] + b;
      SumByConcat(weight, a[1..], b);
    }
  }
}
