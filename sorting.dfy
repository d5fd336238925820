/** Python's ordering of `str` values (code point by code point, a proper
    prefix first) and `sorted(set(...))` over titles and tags. */
module Sorting {

  /** Python's `a < b` on strings. */
  predicate Less(a: string, b: string)
    decreases |a|
  {
    if |a| == 0 then |b| > 0
    else if |b| == 0 then false
    else if a[0] == b[0] then Less(a[1..], b[1..])
    else a[0] < b[0]
  }

  lemma {:induction false} LessIrreflexive(a: string)
    ensures !Less(a, a)
    decreases |a|
  {
    if |a| > 0 { LessIrreflexive(a[1..]); }
  }

  lemma {:induction false} LessTransitive(a: string, b: string, c: string)
    requires Less(a, b) && Less(b, c)
    ensures Less(a, c)
    decreases |a|
  {
    if |a| > 0 && |b| > 0 && |c| > 0 && a[0] == b[0] && b[0] == c[0] {
      LessTransitive(a[1..], b[1..], c[1..]);
    }
  }

  /** Any two distinct strings are ordered one way or the other. */
  lemma {:induction false} LessTotal(a: string, b: string)
    requires a != b
    ensures Less(a, b) || Less(b, a)
    decreases |a|
  {
    if |a| > 0 && |b| > 0 && a[0] == b[0] {
      assert a == [a[0]] + a[1..] && b == [b[0]] + b[1..];
      LessTotal(a[1..], b[1..]);
    }
  }

  /** Ascending without repetitions, as `sorted(set(xs))` returns. */
  predicate StrictlySorted(s: seq<string>) {
    forall i, j :: 0 <= i < j < |s| ==> Less(s[i], s[j])
  }

  /** No element occurs twice. */
  predicate Distinct(s: seq<string>) {
    forall i, j :: 0 <= i < j < |s| ==> s[i] != s[j]
  }

  /** A strictly sorted list holds each element once. */
  lemma StrictlySortedIsDistinct(s: seq<string>)
    requires StrictlySorted(s)
    ensures Distinct(s)
  {
    forall i, j | 0 <= i < j < |s| ensures s[i] != s[j] {
      LessIrreflexive(s[i]);
    }
  }

  /** The least element of a non-empty set of strings. */
  method Minimum(s: set<string>) returns (m: string)
    requires s != {}
    ensures m in s
    ensures forall y :: y in s && y != m ==> Less(m, y)
  {
    m :| m in s;
    var todo := s - {m};
    while todo != {}
      invariant todo <= s && m in s && m !in todo
      invariant forall y :: y in s && y !in todo && y != m ==> Less(m, y)
      decreases |todo|
    {
      var y :| y in todo;
      if Less(y, m) {
        forall z | z in s && z !in todo && z != y
          ensures Less(y, z)
        {
          if z != m { LessTransitive(y, m, z); }
        }
        m := y;
      } else {
        LessTotal(m, y);
      }
      todo := todo - {y};
    }
  }

  /** Python's `sorted(xs)` of a set `xs`: its elements in ascending order. */
  method SortedList(s: set<string>) returns (r: seq<string>)
    ensures StrictlySorted(r)
    ensures forall x :: x in r <==> x in s
    ensures |r| == |s|
  {
    r := [];
    var rest := s;
    while rest != {}
      invariant rest <= s
      invariant forall x :: x in r <==> x in s && x !in rest
      invariant StrictlySorted(r)
      invariant forall i, y :: 0 <= i < |r| && y in rest ==> Less(r[i], y)
      invariant |r| + |rest| == |s|
      decreases |rest|
    {
      var m := Minimum(rest);
      r := r + [m];
      rest := rest - {m};
    }
  }
}
