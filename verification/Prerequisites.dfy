/** The feature prerequisite table, the bounded walk over it, and dependency depth. */
module Prerequisites {

  /** One table row: `dependent` needs `prerequisite`. */
  datatype Edge = Edge(dependent: string, prerequisite: string)

  type Table = seq<Edge>

  const FEATURE_PREREQUISITES: Table := [
    Edge("AVX2", "AVX"),
    Edge("AVX512BW", "AVX512F"),
    Edge("AVX512DQ", "AVX512F"),
    Edge("AVX512F", "AVX"),
    Edge("AVX512VL", "AVX512F"),
    Edge("FMA", "AVX"),
    Edge("SSE4_2", "SSE4_1")
  ]

  /** A walk from `a` to `b` given as table rows, possibly empty. */
  ghost predicate Walk(table: Table, rows: seq<nat>, a: string, b: string) {
    if rows == [] then a == b
    else
      var last := rows[|rows| - 1];
      last < |table|
      && table[last].prerequisite == b
      && Walk(table, rows[..|rows| - 1], a, table[last].dependent)
  }

  /** `a` requires `b` directly or transitively. */
  ghost predicate Reaches(table: Table, a: string, b: string) {
    exists rows :: rows != [] && Walk(table, rows, a, b)
  }

  /** Every row goes down in `rank`: the usual witness that a finite table has no cycle. */
  ghost predicate Ranked(table: Table, rank: string -> nat) {
    forall i :: 0 <= i < |table| ==> rank(table[i].dependent) > rank(table[i].prerequisite)
  }

  ghost predicate Acyclic(table: Table) {
    forall rows, x :: rows != [] ==> !Walk(table, rows, x, x)
  }

  lemma {:induction false} WalkDropsRank(table: Table, rank: string -> nat, rows: seq<nat>, a: string, b: string)
    requires Ranked(table, rank) && Walk(table, rows, a, b)
    ensures rank(a) >= rank(b) + |rows|
  {
    if rows != [] {
      WalkDropsRank(table, rank, rows[..|rows| - 1], a, table[rows[|rows| - 1]].dependent);
    }
  }

  lemma RankedIsAcyclic(table: Table, rank: string -> nat)
    requires Ranked(table, rank)
    ensures Acyclic(table)
  {
    forall rows, x | rows != []
      ensures !Walk(table, rows, x, x)
    {
      if Walk(table, rows, x, x) {
        WalkDropsRank(table, rank, rows, x, x);
      }
    }
  }

  lemma {:induction false} WalkSplits(table: Table, rows: seq<nat>, a: string, b: string, i: nat)
    requires Walk(table, rows, a, b) && i < |rows|
    ensures rows[i] < |table|
    ensures Walk(table, rows[..i], a, table[rows[i]].dependent)
    ensures Walk(table, rows[i..], table[rows[i]].dependent, b)
    decreases |rows|
  {
    var n := |rows| - 1;
    if i == n {
      assert rows[i..] == [rows[n]];
      assert rows[i..][..0] == [];
    } else {
      WalkSplits(table, rows[..n], a, table[rows[n]].dependent, i);
      assert rows[..n][..i] == rows[..i];
      assert rows[i..][..|rows[i..]| - 1] == rows[..n][i..];
      assert rows[i..][|rows[i..]| - 1] == rows[n];
    }
  }

  /** In an acyclic table no row occurs twice on one walk. */
  lemma WalkRowsDistinct(table: Table, rows: seq<nat>, a: string, b: string, i: nat, j: nat)
    requires Acyclic(table) && Walk(table, rows, a, b) && i < j < |rows|
    ensures rows[i] != rows[j]
  {
    WalkSplits(table, rows, a, b, j);
    var upToJ := rows[..j];
    WalkSplits(table, upToJ, a, table[rows[j]].dependent, i);
    assert upToJ[i] == rows[i];
    assert upToJ[i..] != [];
  }

  lemma {:induction false} PigeonHole(rows: seq<nat>, n: nat)
    requires forall i :: 0 <= i < |rows| ==> rows[i] < n
    requires forall i, j :: 0 <= i < j < |rows| ==> rows[i] != rows[j]
    ensures |rows| <= n
  {
    if rows != [] {
      assert rows[0] < n;
      if n - 1 in rows {
        var k :| 0 <= k < |rows| && rows[k] == n - 1;
        PigeonHole(rows[..k] + rows[k + 1..], n - 1);
      } else {
        PigeonHole(rows, n - 1);
      }
    }
  }

  /** A walk in an acyclic table is never longer than the table. */
  lemma WalkIsBounded(table: Table, rows: seq<nat>, a: string, b: string)
    requires Acyclic(table) && Walk(table, rows, a, b)
    ensures |rows| <= |table|
  {
    forall i | 0 <= i < |rows|
      ensures rows[i] < |table|
    {
      WalkSplits(table, rows, a, b, i);
    }
    forall i, j | 0 <= i < j < |rows|
      ensures rows[i] != rows[j]
    {
      WalkRowsDistinct(table, rows, a, b, i, j);
    }
    PigeonHole(rows, |table|);
  }

  /** The nodes that end a walk of exactly `n` rows from `a`. */
  ghost predicate EndsAt(table: Table, n: nat, a: string, b: string) {
    exists rows :: |rows| == n && Walk(table, rows, a, b)
  }

  lemma ExtendWalk(table: Table, n: nat, a: string, row: nat)
    requires row < |table| && EndsAt(table, n, a, table[row].dependent)
    ensures EndsAt(table, n + 1, a, table[row].prerequisite)
  {
    var rows :| |rows| == n && Walk(table, rows, a, table[row].dependent);
    var longer := rows + [row];
    assert longer[..|longer| - 1] == rows;
    assert Walk(table, longer, a, table[row].prerequisite);
  }

  lemma LastRow(table: Table, n: nat, a: string, b: string) returns (row: nat)
    requires EndsAt(table, n + 1, a, b)
    ensures row < |table| && table[row].prerequisite == b && EndsAt(table, n, a, table[row].dependent)
  {
    var rows :| |rows| == n + 1 && Walk(table, rows, a, b);
    row := rows[n];
    assert |rows[..n]| == n;
  }

  /** Once no walk of `n` rows exists, no longer walk exists either. */
  lemma {:induction false} NoLongerWalk(table: Table, n: nat, m: nat, a: string, b: string)
    requires forall x :: !EndsAt(table, n, a, x)
    requires n <= m
    ensures !EndsAt(table, m, a, b)
    decreases m
  {
    if n < m && EndsAt(table, m, a, b) {
      var row := LastRow(table, m - 1, a, b);
      NoLongerWalk(table, n, m - 1, a, table[row].dependent);
    }
  }

  /**
   * `feature_requires`: a walk bounded by the table length, one frontier per
   * level. In every acyclic table it decides reachability exactly.
   */
  method FeatureRequires(table: Table, candidate: string, feature: string) returns (required: bool)
    requires Acyclic(table)
    ensures required <==> Reaches(table, candidate, feature)
  {
    var frontier := [candidate];
    assert Walk(table, [], candidate, candidate);
    for level := 0 to |table|
      invariant forall x :: x in frontier <==> EndsAt(table, level, candidate, x)
      invariant forall n :: 0 < n <= level ==> !EndsAt(table, n, candidate, feature)
    {
      var found, next := ExpandFrontier(table, candidate, feature, level, frontier);
      if found {
        return true;
      }
      if next == [] {
        ghost var deeper: nat := level + 1;
        assert forall x :: EndsAt(table, deeper, candidate, x) ==> x in next;
        forall m: nat | m > 0
          ensures !EndsAt(table, m, candidate, feature)
        {
          if m > level {
            NoLongerWalk(table, deeper, m, candidate, feature);
          }
        }
        NotReached(table, candidate, feature);
        return false;
      }
      frontier := next;
    }
    forall m: nat | m > 0
      ensures !EndsAt(table, m, candidate, feature)
    {
      if EndsAt(table, m, candidate, feature) {
        var rows :| |rows| == m && Walk(table, rows, candidate, feature);
        WalkIsBounded(table, rows, candidate, feature);
      }
    }
    NotReached(table, candidate, feature);
    return false;
  }

  lemma NotReached(table: Table, a: string, b: string)
    requires forall m: nat :: m > 0 ==> !EndsAt(table, m, a, b)
    ensures !Reaches(table, a, b)
  {
    if Reaches(table, a, b) {
      var rows :| rows != [] && Walk(table, rows, a, b);
      assert EndsAt(table, |rows|, a, b);
    }
  }

  /** One level of the walk: every row that leaves the frontier. */
  method ExpandFrontier(table: Table, ghost origin: string, feature: string, ghost level: nat, frontier: seq<string>)
    returns (found: bool, next: seq<string>)
    requires forall x :: x in frontier <==> EndsAt(table, level, origin, x)
    ensures found ==> Reaches(table, origin, feature)
    ensures !found ==> !EndsAt(table, level + 1, origin, feature)
    ensures !found ==> forall x :: x in next <==> EndsAt(table, level + 1, origin, x)
  {
    next := [];
    for i := 0 to |frontier|
      invariant forall x :: x in next ==> EndsAt(table, level + 1, origin, x)
      invariant forall k, j :: 0 <= k < i && 0 <= j < |table| && table[j].dependent == frontier[k] ==>
        table[j].prerequisite in next && table[j].prerequisite != feature
    {
      var current := frontier[i];
      for j := 0 to |table|
        invariant forall x :: x in next ==> EndsAt(table, level + 1, origin, x)
        invariant forall k, l :: 0 <= k < i && 0 <= l < |table| && table[l].dependent == frontier[k] ==>
          table[l].prerequisite in next && table[l].prerequisite != feature
        invariant forall l :: 0 <= l < j && table[l].dependent == current ==>
          table[l].prerequisite in next && table[l].prerequisite != feature
      {
        if table[j].dependent == current {
          assert current in frontier;
          ExtendWalk(table, level, origin, j);
          if table[j].prerequisite == feature {
            return true, next;
          }
          next := next + [table[j].prerequisite];
        }
      }
    }
    forall x | EndsAt(table, level + 1, origin, x)
      ensures x in next && x != feature
    {
      var row := LastRow(table, level, origin, x);
      var k :| 0 <= k < |frontier| && frontier[k] == table[row].dependent;
      assert table[row].prerequisite in next && table[row].prerequisite != feature;
    }
    assert EndsAt(table, level + 1, origin, feature) ==> feature in next && feature != feature;
    found := false;
  }

  lemma ReachedIsPrerequisite(table: Table, a: string, b: string)
    requires Reaches(table, a, b)
    ensures exists row :: 0 <= row < |table| && table[row].prerequisite == b
  {
    var rows :| rows != [] && Walk(table, rows, a, b);
    assert table[rows[|rows| - 1]].prerequisite == b;
  }

  /** A walk starts with one row and goes on from its prerequisite. */
  lemma FirstRow(table: Table, a: string, b: string) returns (row: nat)
    requires Reaches(table, a, b)
    ensures row < |table| && table[row].dependent == a
    ensures table[row].prerequisite == b || Reaches(table, table[row].prerequisite, b)
  {
    var rows :| rows != [] && Walk(table, rows, a, b);
    WalkSplits(table, rows, a, b, 0);
    assert rows[..0] == [];
    row := rows[0];
    if |rows| == 1 {
      assert table[row].prerequisite == b;
    } else {
      WalkSplits(table, rows, a, b, 1);
      assert rows[..1] == [row] && [row][..0] == [];
      assert rows[1..] != [];
    }
  }

  lemma {:induction false} WalksJoin(table: Table, first: seq<nat>, second: seq<nat>, a: string, b: string, c: string)
    requires Walk(table, first, a, b) && Walk(table, second, b, c)
    ensures Walk(table, first + second, a, c)
    decreases |second|
  {
    if second == [] {
      assert first + second == first;
    } else {
      var n := |second| - 1;
      WalksJoin(table, first, second[..n], a, b, table[second[n]].dependent);
      assert (first + second)[..|first + second| - 1] == first + second[..n];
    }
  }

  function Max(a: nat, b: nat): nat {
    if a >= b then a else b
  }

  /** `dependency_depth`, with the rank that makes its recursion end. */
  function DependencyDepth(table: Table, ghost rank: string -> nat, feature: string): nat
    requires Ranked(table, rank)
    decreases rank(feature), |table| + 1
  {
    DepthFrom(table, rank, feature, 0)
  }

  /** The largest depth offered by rows `i..` that leave `feature`, or zero. */
  function DepthFrom(table: Table, ghost rank: string -> nat, feature: string, i: nat): nat
    requires Ranked(table, rank) && i <= |table|
    decreases rank(feature), |table| - i
  {
    if i == |table| then 0
    else if table[i].dependent == feature then
      Max(DependencyDepth(table, rank, table[i].prerequisite) + 1, DepthFrom(table, rank, feature, i + 1))
    else DepthFrom(table, rank, feature, i + 1)
  }

  lemma {:induction false} DepthCoversRow(table: Table, rank: string -> nat, feature: string, i: nat, row: nat)
    requires Ranked(table, rank) && i <= row < |table| && table[row].dependent == feature
    ensures DepthFrom(table, rank, feature, i) >= DependencyDepth(table, rank, table[row].prerequisite) + 1
    decreases |table| - i
  {
    if i < row {
      DepthCoversRow(table, rank, feature, i + 1, row);
    }
  }

  lemma {:induction false} DepthHasRow(table: Table, rank: string -> nat, feature: string, i: nat) returns (row: nat)
    requires Ranked(table, rank) && i <= |table| && DepthFrom(table, rank, feature, i) > 0
    ensures row < |table| && table[row].dependent == feature
    ensures DepthFrom(table, rank, feature, i) == DependencyDepth(table, rank, table[row].prerequisite) + 1
    decreases |table| - i
  {
    if table[i].dependent == feature
      && DepthFrom(table, rank, feature, i) == DependencyDepth(table, rank, table[i].prerequisite) + 1
    {
      row := i;
    } else {
      row := DepthHasRow(table, rank, feature, i + 1);
    }
  }

  /** Depth drops by at least the number of rows walked. */
  lemma {:induction false} DepthDropsAlongWalk(table: Table, rank: string -> nat, rows: seq<nat>, a: string, b: string)
    requires Ranked(table, rank) && Walk(table, rows, a, b)
    ensures DependencyDepth(table, rank, a) >= DependencyDepth(table, rank, b) + |rows|
  {
    if rows != [] {
      var last := rows[|rows| - 1];
      DepthDropsAlongWalk(table, rank, rows[..|rows| - 1], a, table[last].dependent);
      DepthCoversRow(table, rank, table[last].dependent, 0, last);
    }
  }

  /** Depth is attained: some walk from the feature has exactly that many rows. */
  lemma {:induction false} DepthIsAttained(table: Table, rank: string -> nat, feature: string)
    returns (rows: seq<nat>, end: string)
    requires Ranked(table, rank)
    ensures Walk(table, rows, feature, end) && |rows| == DependencyDepth(table, rank, feature)
    decreases rank(feature)
  {
    if DependencyDepth(table, rank, feature) == 0 {
      rows, end := [], feature;
    } else {
      var row := DepthHasRow(table, rank, feature, 0);
      var rest, last := DepthIsAttained(table, rank, table[row].prerequisite);
      assert [row][..0] == [];
      assert Walk(table, [row], feature, table[row].prerequisite);
      WalksJoin(table, [row], rest, feature, table[row].prerequisite, last);
      rows, end := [row] + rest, last;
    }
  }

  /** A rank for the shipped table. */
  function FeatureRank(feature: string): nat {
    if feature in ["AVX512BW", "AVX512DQ", "AVX512VL"] then 2
    else if feature in ["AVX2", "AVX512F", "FMA", "SSE4_2"] then 1
    else 0
  }

  lemma FeatureTableRanked()
    ensures Ranked(FEATURE_PREREQUISITES, FeatureRank) && Acyclic(FEATURE_PREREQUISITES)
  {
    var names := ["AVX512BW", "AVX512DQ", "AVX512VL"];
    var middle := ["AVX2", "AVX512F", "FMA", "SSE4_2"];
    assert names[0] == "AVX512BW" && names[1] == "AVX512DQ" && names[2] == "AVX512VL";
    assert middle[0] == "AVX2" && middle[1] == "AVX512F" && middle[2] == "FMA" && middle[3] == "SSE4_2";
    assert "AVX" !in names && "AVX" !in middle;
    assert "SSE4_1" !in names && "SSE4_1" !in middle by {
      assert "SSE4_1"[5] != "SSE4_2"[5];
    }
    assert "AVX512F" !in names;
    assert "AVX2" !in names && "FMA" !in names && "SSE4_2" !in names;
    RankedIsAcyclic(FEATURE_PREREQUISITES, FeatureRank);
  }

  /** Depth in the shipped table. */
  function FeatureDepth(feature: string): nat {
    FeatureTableRanked();
    DependencyDepth(FEATURE_PREREQUISITES, FeatureRank, feature)
  }

  ghost predicate FeatureReaches(candidate: string, feature: string) {
    Reaches(FEATURE_PREREQUISITES, candidate, feature)
  }

  /** A dependent sits strictly deeper than everything it requires. */
  lemma DependentIsDeeper(candidate: string, feature: string)
    requires FeatureReaches(candidate, feature)
    ensures FeatureDepth(candidate) > FeatureDepth(feature)
  {
    FeatureTableRanked();
    var rows :| rows != [] && Walk(FEATURE_PREREQUISITES, rows, candidate, feature);
    DepthDropsAlongWalk(FEATURE_PREREQUISITES, FeatureRank, rows, candidate, feature);
  }
}
