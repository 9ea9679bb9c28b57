/**
 * How pattern matches survive an edit of the text elsewhere: a region `[a, b)`
 * of `u` replaced by `y` gives `v == Splice(u, a, b, y)`. Positions at or
 * before `a` keep their place; positions at or after `b` move by
 * `|y| - (b - a)`.
 */
module Edits {
  import opened Wrappers
  import opened Text

  lemma CharLeft(u: string, a: nat, b: nat, y: string, r: nat)
    requires a <= b <= |u| && r < a
    ensures Splice(u, a, b, y)[r] == u[r]
  {
  }

  lemma CharRight(u: string, a: nat, b: nat, y: string, r: nat)
    requires a <= b <= r < |u|
    ensures Splice(u, a, b, y)[r - b + a + |y|] == u[r]
  {
  }

  lemma CharMid(u: string, a: nat, b: nat, y: string, j: nat)
    requires a <= b <= |u| && j < |y|
    ensures Splice(u, a, b, y)[a + j] == y[j]
  {
  }

  /** A slice at or before the edit is untouched. */
  lemma SliceLeft(u: string, a: nat, b: nat, y: string, x: nat, z: nat)
    requires a <= b <= |u| && x <= z <= a
    ensures Splice(u, a, b, y)[x..z] == u[x..z]
  {
    var v := Splice(u, a, b, y);
    assert v[..a] == u[..a];
    assert v[x..z] == v[..a][x..z];
    assert u[x..z] == u[..a][x..z];
  }

  /** A slice at or after the edit moves unchanged. */
  lemma SliceRight(u: string, a: nat, b: nat, y: string, x: nat, z: nat)
    requires a <= b <= x <= z <= |u|
    ensures Splice(u, a, b, y)[x - b + a + |y|..z - b + a + |y|] == u[x..z]
  {
    var v := Splice(u, a, b, y);
    var off := a + |y|;
    assert v[off..] == u[b..];
    assert v[x - b + off..z - b + off] == v[off..][x - b..z - b];
    assert u[x..z] == u[b..][x - b..z - b];
  }

  /** A slice of a slice is a slice. */
  lemma SubSlice(t: string, a: nat, b: nat, c: nat, d: nat)
    requires a <= c <= d <= b <= |t|
    ensures t[c..d] == t[a..b][c - a..d - a]
  {
    forall k | 0 <= k < d - c
      ensures t[c..d][k] == t[a..b][c - a..d - a][k]
    {
    }
  }

  /** The middle of a concatenation of three. */
  lemma ConcatMid(x: string, y: string, z: string)
    ensures (x + y + z)[|x|..|x| + |y|] == y
  {
  }

  /** A slice of the inserted text. */
  lemma SliceMid(u: string, a: nat, b: nat, y: string, x: nat, z: nat)
    requires a <= b <= |u| && x <= z <= |y|
    ensures Splice(u, a, b, y)[a + x..a + z] == y[x..z]
  {
    var v := Splice(u, a, b, y);
    assert v[a..a + |y|] == y;
    assert v[a + x..a + z] == v[a..a + |y|][x..z];
  }

  /** A slice across the edit is its left part, `y`, and its right part. */
  lemma SliceAcross(u: string, a: nat, b: nat, y: string, x: nat, z: nat)
    requires x <= a <= b <= z <= |u|
    ensures Splice(u, a, b, y)[x..z - b + a + |y|] == u[x..a] + y + u[b..z]
  {
    var v := Splice(u, a, b, y);
    var off := a + |y|;
    SliceLeft(u, a, b, y, x, a);
    SliceRight(u, a, b, y, b, z);
    assert v[a..off] == y;
    assert v[x..z - b + off] == v[x..a] + v[a..off] + v[off..z - b + off];
  }

  /** A match before the edit is a match in the edited text. */
  lemma RegionLeft(u: string, a: nat, b: nat, y: string, q: nat, p: Pattern)
    requires a <= b <= |u| && q <= |u| && MatchAt(u, q, p).Some? && MatchAt(u, q, p).value <= a
    ensures MatchAt(Splice(u, a, b, y), q, p) == MatchAt(u, q, p)
  {
    var e := MatchAt(u, q, p).value;
    SliceLeft(u, a, b, y, q, e);
    MatchLocal(u, q, p, Splice(u, a, b, y), q);
  }

  /** A match after the edit is a match in the edited text, moved along. */
  lemma RegionRight(u: string, a: nat, b: nat, y: string, q: nat, p: Pattern)
    requires a <= b <= q <= |u| && MatchAt(u, q, p).Some?
    ensures MatchAt(Splice(u, a, b, y), q - b + a + |y|, p) == Some(MatchAt(u, q, p).value - b + a + |y|)
  {
    var e := MatchAt(u, q, p).value;
    SliceRight(u, a, b, y, q, e);
    MatchLocal(u, q, p, Splice(u, a, b, y), q - b + a + |y|);
  }

  /** A stretch free of `c` before the edit stays free of it. */
  lemma SpanLeft(u: string, a: nat, b: nat, y: string, k: nat, m: nat, c: char)
    requires a <= b <= |u| && k <= m <= a && c !in u[k..m]
    ensures c !in Splice(u, a, b, y)[k..m]
  {
    SliceLeft(u, a, b, y, k, m);
  }

  /** A stretch free of `c` after the edit stays free of it, moved along. */
  lemma SpanRight(u: string, a: nat, b: nat, y: string, k: nat, m: nat, c: char)
    requires a <= b <= k <= m <= |u| && c !in u[k..m]
    ensures c !in Splice(u, a, b, y)[k - b + a + |y|..m - b + a + |y|]
  {
    SliceRight(u, a, b, y, k, m);
  }

  /** A stretch free of `c` across the edit stays free of it when `y` has no `c`. */
  lemma SpanAcross(u: string, a: nat, b: nat, y: string, k: nat, m: nat, c: char)
    requires k <= a <= b <= m <= |u| && c !in u[k..m] && c !in y
    ensures c !in Splice(u, a, b, y)[k..m - b + a + |y|]
  {
    SliceAcross(u, a, b, y, k, m);
    assert u[k..a] == u[k..m][..a - k];
    assert u[b..m] == u[k..m][b - k..];
  }

  /** Undoing an edit: putting the old region back. */
  lemma SpliceUndo(u: string, a: nat, b: nat, y: string)
    requires a <= b <= |u|
    ensures Splice(Splice(u, a, b, y), a, a + |y|, u[a..b]) == u
  {
    var v := Splice(u, a, b, y);
    assert v[..a] == u[..a];
    assert v[a + |y|..] == u[b..];
    assert u == u[..a] + u[a..b] + u[b..];
  }

  /**
   * A match that reaches into `[lo, hi)` of a text whose character `hi - 1`
   * the pattern does not admit ends inside that region, on its final atom.
   */
  lemma EndsInside(t: string, q: nat, p: Pattern, lo: nat, hi: nat)
    requires q <= |t| && p != [] && MatchAt(t, q, p).Some? && lo < hi <= |t|
    requires q < hi && lo < MatchAt(t, q, p).value
    requires !PatternAdmits(p, t[hi - 1])
    ensures lo <= MatchAt(t, q, p).value - 1 < hi - 1
    ensures Admits(LastAtom(p), t[MatchAt(t, q, p).value - 1])
  {
    MatchChars(t, q, p);
    MatchInterior(t, q, p);
  }

  /**
   * A match ending after position `r`, whose pattern admits `t[r]` neither
   * before its final atom nor as whitespace, starts after `r`.
   */
  lemma StartsAfter(t: string, q: nat, p: Pattern, r: nat)
    requires q <= |t| && p != [] && MatchAt(t, q, p).Some? && r < MatchAt(t, q, p).value - 1
    requires !PatternAdmits(p[..|p| - 1], t[r]) && !IsSpace(t[r])
    ensures r < q
  {
    MatchInterior(t, q, p);
  }

  /** A match starts with its first atom. */
  lemma FirstChar(t: string, q: nat, p: Pattern)
    requires q <= |t| && p != [] && p[0].One? && MatchAt(t, q, p).Some?
    ensures q < |t| && Admits(p[0].a, t[q])
  {
  }

  /** A match is free of every character its pattern does not admit. */
  lemma Avoids(t: string, q: nat, p: Pattern, r: nat)
    requires q <= |t| && MatchAt(t, q, p).Some? && q <= r < MatchAt(t, q, p).value
    ensures PatternAdmits(p, t[r])
  {
    MatchChars(t, q, p);
  }

  /** A stretch free of `c` that reaches past an occurrence of `c` starts after it. */
  lemma FreeStretchBound(t: string, lo: nat, hi: nat, r: nat, c: char)
    requires lo <= hi <= |t| && c !in t[lo..hi] && r < hi && t[r] == c
    ensures r < lo
  {
  }

  /** A match that reaches past a character its pattern does not admit starts after it. */
  lemma Outside(t: string, q: nat, p: Pattern, r: nat)
    requires q <= |t| && MatchAt(t, q, p).Some? && r < MatchAt(t, q, p).value && !PatternAdmits(p, t[r])
    ensures r < q
  {
    if q <= r {
      Avoids(t, q, p, r);
    }
  }
}
