/** The two-row Levenshtein loop: as documented in the header, and as coded in the C file. */
module Levenshtein {
  import opened EditScripts

  lemma NextPrefix(s: string, i: nat)
    requires i < |s|
    ensures s[..i + 1] != [] && Init(s[..i + 1]) == s[..i] && Last(s[..i + 1]) == s[i]
  {
  }

  /** The distances from the first `i` characters of `s` to all prefixes of `t`. */
  ghost predicate IsRow(row: seq<nat>, s: string, t: string, i: nat)
    requires i <= |s|
  {
    |row| == |t| + 1 && forall j :: 0 <= j <= |t| ==> row[j] == Distance(s[..i], t[..j])
  }

  /** The documented algorithm, with rows of `n + 1` entries. */
  method LevenshteinDistance(s: string, t: string) returns (d: nat)
    ensures d == Distance(s, t)
  {
    var n, m := |t|, |s|;
    var v0, v1 := new nat[n + 1], new nat[n + 1];
    for i := 0 to n + 1
      invariant forall j :: 0 <= j < i ==> v0[j] == j
    {
      v0[i] := i;
    }
    for i := 0 to m
      invariant v0 != v1 && v0.Length == v1.Length == n + 1 && fresh(v0) && fresh(v1)
      invariant IsRow(v0[..], s, t, i)
    {
      NextRow(v0, v1, s, t, i);
      v0, v1 := v1, v0;
    }
    d := v0[n];
    assert s[..m] == s && t[..n] == t && v0[..][n] == d;
  }

  /** The body of the outer loop, up to the swap: the next row from the previous one. */
  method NextRow(v0: array<nat>, v1: array<nat>, s: string, t: string, i: nat)
    requires i < |s| && v0 != v1 && v0.Length == v1.Length == |t| + 1 && IsRow(v0[..], s, t, i)
    modifies v1
    ensures IsRow(v1[..], s, t, i + 1)
  {
    ghost var row := v0[..];
    NextPrefix(s, i);
    v1[0] := i + 1;
    for j := 0 to |t|
      invariant v0[..] == row
      invariant forall k :: 0 <= k <= j ==> v1[k] == Distance(s[..i + 1], t[..k])
    {
      NextPrefix(t, j);
      assert v0[j] == row[j] && v0[j + 1] == row[j + 1];
      var deletionCost := v0[j + 1] + 1;
      var insertionCost := v1[j] + 1;
      var substitutionCost := v0[j];
      if s[i] != t[j] {
        substitutionCost := substitutionCost + 1;
      }
      v1[j + 1] := Min(deletionCost, Min(insertionCost, substitutionCost));
    }
  }

  /** The C function, whose rows have only `n` entries, with every access that can leave them checked.
      It always ends at one: the result is the first index it touches out of bounds. */
  method LevenshteinDistanceAsCoded(s: string, t: string) returns (outOfBounds: nat)
    ensures outOfBounds == |t|
  {
    var n, m := |t|, |s|;
    var v0, v1 := new nat[n], new nat[n];
    for i := 0 to n {
      v0[i] := i;
    }
    for i := 0 to m
      invariant i == 0 && v0.Length == v1.Length == n && fresh(v0) && fresh(v1)
    {
      if 0 >= v1.Length {
        return 0;
      }
      v1[0] := i + 1;
      for j := 0 to n
        invariant j < n
      {
        if j + 1 >= v0.Length {
          return j + 1;
        }
        var deletionCost := v0[j + 1] + 1;
        var insertionCost := v1[j] + 1;
        var substitutionCost := v0[j];
        if s[i] != t[j] {
          substitutionCost := substitutionCost + 1;
        }
        v1[j + 1] := Min(deletionCost, Min(insertionCost, substitutionCost));
      }
      v0, v1 := v1, v0;
    }
    return n; // the result is read from `v0[n]`
  }
}
