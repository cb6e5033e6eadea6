/** Byte order on strings, strict order checks, and `sort` followed by `dedup`. */
module Ordering {

  /** The lexicographic order that Rust gives `String`. */
  predicate Less(a: string, b: string) {
    if |b| == 0 then false
    else if |a| == 0 then true
    else if a[0] != b[0] then a[0] < b[0]
    else Less(a[1..], b[1..])
  }

  lemma {:induction false} LessIrreflexive(a: string)
    ensures !Less(a, a)
  {
    if |a| > 0 {
      LessIrreflexive(a[1..]);
    }
  }

  lemma {:induction false} LessTransitive(a: string, b: string, c: string)
    requires Less(a, b) && Less(b, c)
    ensures Less(a, c)
  {
    if |a| > 0 && a[0] == b[0] && b[0] == c[0] {
      LessTransitive(a[1..], b[1..], c[1..]);
    }
  }

  lemma {:induction false} LessTotal(a: string, b: string)
    ensures Less(a, b) || a == b || Less(b, a)
  {
    if |a| > 0 && |b| > 0 && a[0] == b[0] {
      LessTotal(a[1..], b[1..]);
      assert a == [a[0]] + a[1..] && b == [b[0]] + b[1..];
    }
  }

  predicate StrictlyAscending(s: seq<string>) {
    forall i, j :: 0 <= i < j < |s| ==> Less(s[i], s[j])
  }

  ghost predicate Ascending(s: seq<string>) {
    forall i, j :: 0 <= i < j < |s| ==> s[i] == s[j] || Less(s[i], s[j])
  }

  ghost predicate SameMembers(a: seq<string>, b: seq<string>) {
    forall x :: x in a <==> x in b
  }

  ghost predicate Distinct<T>(s: seq<T>) {
    forall i, j :: 0 <= i < j < |s| ==> s[i] != s[j]
  }

  /** `require_strict_order`: one pass that keeps only the previous value. */
  method RequireStrictOrder(values: seq<string>) returns (ok: bool)
    ensures ok <==> StrictlyAscending(values)
  {
    for n := 0 to |values|
      invariant StrictlyAscending(values[..n])
    {
      if n > 0 && !Less(values[n - 1], values[n]) {
        return false;
      }
      forall i | 0 <= i < n
        ensures Less(values[i], values[n])
      {
        if i < n - 1 {
          assert Less(values[..n][i], values[..n][n - 1]);
          LessTransitive(values[i], values[n - 1], values[n]);
        }
      }
    }
    assert values[..|values|] == values;
    return true;
  }

  /** The members of a strictly ascending list fix its order. */
  lemma {:induction false} StrictOrderIsUnique(a: seq<string>, b: seq<string>)
    requires StrictlyAscending(a) && StrictlyAscending(b) && SameMembers(a, b)
    ensures a == b
  {
    assert a != [] ==> a[0] in a;
    assert b != [] ==> b[0] in b;
    if a != [] && b != [] {
      HeadsAgree(a, b);
      forall x
        ensures x in a[1..] <==> x in b[1..]
      {
        TailMember(a, x);
        TailMember(b, x);
      }
      StrictOrderIsUnique(a[1..], b[1..]);
      assert a == [a[0]] + a[1..] && b == [b[0]] + b[1..];
    }
  }

  lemma HeadsAgree(a: seq<string>, b: seq<string>)
    requires StrictlyAscending(a) && StrictlyAscending(b) && SameMembers(a, b)
    requires a != [] && b != []
    ensures a[0] == b[0]
  {
    assert a[0] in b && b[0] in a;
    if a[0] != b[0] {
      assert Less(b[0], a[0]);
      assert Less(a[0], b[0]);
      LessTransitive(a[0], b[0], a[0]);
      LessIrreflexive(a[0]);
    }
  }

  lemma TailMember(a: seq<string>, x: string)
    requires StrictlyAscending(a) && a != []
    ensures x in a[1..] <==> x in a && x != a[0]
  {
    LessIrreflexive(a[0]);
    if x in a && x != a[0] {
      var i :| 0 <= i < |a| && a[i] == x;
      assert a[1..][i - 1] == x;
    }
  }

  /** A strictly ascending list has no repeated member. */
  lemma StrictIsDistinct(s: seq<string>)
    requires StrictlyAscending(s)
    ensures Distinct(s)
  {
    forall i, j | 0 <= i < j < |s|
      ensures s[i] != s[j]
    {
      assert Less(s[i], s[j]);
      LessIrreflexive(s[i]);
    }
  }

  function Members(s: seq<string>): set<string> {
    set x | x in s
  }

  lemma {:induction false} DistinctSize(s: seq<string>)
    requires Distinct(s)
    ensures |Members(s)| == |s|
  {
    if s != [] {
      DistinctSize(s[1..]);
      assert Members(s) == Members(s[1..]) + {s[0]};
    }
  }

  function Insert(x: string, s: seq<string>): seq<string> {
    if s == [] || !Less(s[0], x) then [x] + s else [s[0]] + Insert(x, s[1..])
  }

  /** `sort` on a vector of strings. */
  function Sort(s: seq<string>): seq<string> {
    if s == [] then [] else Insert(s[0], Sort(s[1..]))
  }

  /** `dedup`: drop every element equal to the one before it. */
  function Dedup(s: seq<string>): seq<string> {
    if |s| <= 1 then s
    else if s[0] == s[1] then Dedup(s[1..])
    else [s[0]] + Dedup(s[1..])
  }

  function SortDedup(s: seq<string>): seq<string> {
    Dedup(Sort(s))
  }

  lemma {:induction false} InsertMembers(x: string, s: seq<string>)
    ensures multiset(Insert(x, s)) == multiset(s) + multiset{x}
  {
    if s != [] && Less(s[0], x) {
      InsertMembers(x, s[1..]);
      assert s == [s[0]] + s[1..];
    }
  }

  lemma AscendingCons(head: string, tail: seq<string>)
    requires Ascending(tail)
    requires forall j :: 0 <= j < |tail| ==> head == tail[j] || Less(head, tail[j])
    ensures Ascending([head] + tail)
  {
  }

  lemma {:induction false} InsertAscends(x: string, s: seq<string>)
    requires Ascending(s)
    ensures Ascending(Insert(x, s))
  {
    if s == [] {
    } else if !Less(s[0], x) {
      LessTotal(s[0], x);
      forall j | 0 <= j < |s|
        ensures x == s[j] || Less(x, s[j])
      {
        if j > 0 && Less(x, s[0]) && Less(s[0], s[j]) {
          LessTransitive(x, s[0], s[j]);
        }
      }
      AscendingCons(x, s);
    } else {
      var t := Insert(x, s[1..]);
      InsertAscends(x, s[1..]);
      InsertMembers(x, s[1..]);
      forall j | 0 <= j < |t|
        ensures s[0] == t[j] || Less(s[0], t[j])
      {
        assert t[j] in multiset(t);
        assert t[j] == x || t[j] in s[1..];
      }
      AscendingCons(s[0], t);
    }
  }

  lemma {:induction false} SortSorts(s: seq<string>)
    ensures Ascending(Sort(s)) && multiset(Sort(s)) == multiset(s)
  {
    if s != [] {
      SortSorts(s[1..]);
      InsertMembers(s[0], Sort(s[1..]));
      InsertAscends(s[0], Sort(s[1..]));
      assert s == [s[0]] + s[1..];
    }
  }

  lemma {:induction false} DedupStrict(s: seq<string>)
    requires Ascending(s)
    ensures StrictlyAscending(Dedup(s)) && SameMembers(Dedup(s), s)
    ensures s != [] ==> Dedup(s) != [] && Dedup(s)[0] == s[0]
  {
    if |s| > 1 {
      DedupStrict(s[1..]);
      assert s == [s[0]] + s[1..];
      if s[0] != s[1] {
        var t := Dedup(s[1..]);
        forall j | 0 <= j < |t|
          ensures Less(s[0], t[j])
        {
          if j > 0 {
            assert Less(t[0], t[j]);
            LessTransitive(s[0], s[1], t[j]);
          }
        }
      }
    }
  }

  /** Sorting and deduplicating keeps exactly the members and orders them strictly. */
  lemma SortDedupIsStrict(s: seq<string>)
    ensures StrictlyAscending(SortDedup(s)) && SameMembers(SortDedup(s), s)
  {
    SortSorts(s);
    DedupStrict(Sort(s));
    forall x
      ensures x in Sort(s) <==> x in s
    {
      assert x in multiset(Sort(s)) <==> x in multiset(s);
    }
  }

  /** Sorting alone already orders a list strictly when nothing in it repeats. */
  lemma SortDistinct(s: seq<string>)
    requires Distinct(s)
    ensures Sort(s) == SortDedup(s)
  {
    SortSorts(s);
    var t := Sort(s);
    forall i, j | 0 <= i < j < |t|
      ensures t[i] != t[j]
    {
      MultisetOfDistinct(s, t[i]);
      RepeatedMember(t, i, j);
    }
    DedupIdentity(t);
  }

  lemma RepeatedMember<T>(t: seq<T>, i: nat, j: nat)
    requires i < j < |t|
    ensures t[i] == t[j] ==> multiset(t)[t[i]] >= 2
  {
    assert t == t[..i] + [t[i]] + t[i + 1..j] + [t[j]] + t[j + 1..];
  }

  lemma {:induction false} MultisetOfDistinct<T>(s: seq<T>, x: T)
    requires Distinct(s)
    ensures multiset(s)[x] <= 1
  {
    if s != [] {
      MultisetOfDistinct(s[1..], x);
      assert s == [s[0]] + s[1..];
      if s[0] == x {
        assert x !in s[1..];
      }
    }
  }

  lemma {:induction false} DedupIdentity(s: seq<string>)
    requires Distinct(s)
    ensures Dedup(s) == s
  {
    if |s| > 1 {
      DedupIdentity(s[1..]);
    }
  }

  /** `filter(..).collect()` and `retain`: the kept members in their old order. */
  function Filter<T>(s: seq<T>, keep: T -> bool): seq<T> {
    if s == [] then []
    else if keep(s[0]) then [s[0]] + Filter(s[1..], keep)
    else Filter(s[1..], keep)
  }

  lemma {:induction false} FilterMembers<T>(s: seq<T>, keep: T -> bool)
    ensures forall x :: x in Filter(s, keep) <==> x in s && keep(x)
    ensures |Filter(s, keep)| <= |s|
  {
    if s != [] {
      FilterMembers(s[1..], keep);
      assert s == [s[0]] + s[1..];
    }
  }

  lemma {:induction false} FilterStrict(s: seq<string>, keep: string -> bool)
    requires StrictlyAscending(s)
    ensures StrictlyAscending(Filter(s, keep))
  {
    if s != [] {
      FilterStrict(s[1..], keep);
      FilterMembers(s[1..], keep);
      var t := Filter(s[1..], keep);
      forall j | 0 <= j < |t|
        ensures Less(s[0], t[j])
      {
        assert t[j] in s[1..];
      }
    }
  }

  /** Two strictly ascending lists filter to the same list when the kept members agree. */
  lemma StrictFilterEqual(a: seq<string>, b: seq<string>, keep: string -> bool)
    requires StrictlyAscending(a) && StrictlyAscending(b)
    requires forall x :: keep(x) ==> (x in a <==> x in b)
    ensures Filter(a, keep) == Filter(b, keep)
  {
    FilterStrict(a, keep);
    FilterStrict(b, keep);
    FilterMembers(a, keep);
    FilterMembers(b, keep);
    StrictOrderIsUnique(Filter(a, keep), Filter(b, keep));
  }

  /** When exactly the members of one window are kept, the window is what remains. */
  lemma {:induction false} FilterWindow<T>(s: seq<T>, keep: T -> bool, i: nat, j: nat)
    requires i <= j <= |s| && forall k :: 0 <= k < |s| ==> (keep(s[k]) <==> i <= k < j)
    ensures Filter(s, keep) == s[i..j]
  {
    if s != [] {
      var rest := s[1..];
      assert forall k :: 0 <= k < |rest| ==> rest[k] == s[k + 1];
      assert keep(s[0]) <==> i == 0 < j;
      if i > 0 {
        FilterWindow(rest, keep, i - 1, j - 1);
        assert s[i..j] == rest[i - 1..j - 1];
      } else if j > 0 {
        FilterWindow(rest, keep, 0, j - 1);
        assert s[0..j] == [s[0]] + rest[0..j - 1];
      } else {
        FilterWindow(rest, keep, 0, 0);
      }
    }
  }
}
