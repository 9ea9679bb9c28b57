/**
 * Text primitives shared by every model in this project: the character
 * classes of JavaScript regular expressions, a matcher for the fixed regex
 * shapes the program uses (literal characters and whitespace runs), the
 * leftmost search that `RegExp.test` and `String.replace` perform, and a few
 * string helpers (insertion, splicing, decimal rendering).
 */
module Text {
  import opened Wrappers

  /** JavaScript's `\s`: WhiteSpace and LineTerminator code points. `String.prototype.trim` removes the same set. */
  predicate IsSpace(c: char)
  {
    c == ' ' || c == '\t' || c == '\n' || c == '\r' || c == '\U{B}' || c == '\U{C}'
    || c == '\U{A0}' || c == '\U{1680}' || ('\U{2000}' <= c <= '\U{200A}')
    || c == '\U{2028}' || c == '\U{2029}' || c == '\U{202F}' || c == '\U{205F}'
    || c == '\U{3000}' || c == '\U{FEFF}'
  }

  /** The characters `.` refuses to match in a JavaScript regex. */
  predicate IsLineTerminator(c: char)
  {
    c == '\n' || c == '\r' || c == '\U{2028}' || c == '\U{2029}'
  }

  /** `\d` */
  predicate IsDigit(c: char)
  {
    '0' <= c <= '9'
  }

  /** `\w`, the characters that decide where `\b` holds. */
  predicate IsWordChar(c: char)
  {
    'a' <= c <= 'z' || 'A' <= c <= 'Z' || IsDigit(c) || c == '_'
  }

  /** One character of a pattern: a literal, a two-way class such as `["']`, or `\d`. */
  datatype Atom = Is(c: char) | Either(c1: char, c2: char) | Digit

  predicate Admits(a: Atom, c: char)
  {
    match a
    case Is(x) => c == x
    case Either(x, y) => c == x || c == y
    case Digit => IsDigit(c)
  }

  /** An atom that no whitespace character satisfies. */
  predicate SolidAtom(a: Atom)
  {
    match a
    case Is(x) => !IsSpace(x)
    case Either(x, y) => !IsSpace(x) && !IsSpace(y)
    case Digit => true
  }

  type Solid = a: Atom | SolidAtom(a) witness Digit

  /**
   * A piece of a pattern: one atom, or a whitespace run (`\s*`, or `\s+` when
   * `plus`) followed by an atom that refuses whitespace. Because the run is
   * always followed by such an atom, matching the run greedily is the only way
   * the piece can match: the greedy matcher below agrees with backtracking.
   */
  datatype Piece = One(a: Atom) | Gap(plus: bool, next: Solid)

  type Pattern = seq<Piece>

  /** The pattern that matches exactly the string `w`. */
  function Lit(w: string): (p: Pattern)
    ensures |p| == |w|
    ensures forall k :: 0 <= k < |w| ==> p[k] == One(Is(w[k]))
  {
    seq(|w|, k requires 0 <= k < |w| => One(Is(w[k])))
  }

  /** End of the maximal whitespace run that starts at `i`. */
  function SkipSpaces(s: string, i: nat): (k: nat)
    requires i <= |s|
    ensures i <= k <= |s|
    ensures forall q :: i <= q < k ==> IsSpace(s[q])
    ensures k == |s| || !IsSpace(s[k])
    decreases |s| - i
  {
    if i < |s| && IsSpace(s[i]) then SkipSpaces(s, i + 1) else i
  }

  /**
   * Anchored match of `p` at position `i` of `s`: the end of the matched
   * region, or None.
   */
  function MatchAt(s: string, i: nat, p: Pattern): (r: Option<nat>)
    requires i <= |s|
    ensures r.Some? ==> i <= r.value <= |s|
    ensures r.Some? ==> r.value >= i + |p|
    decreases |p|
  {
    if p == [] then Some(i)
    else match p[0]
      case One(a) =>
        if i < |s| && Admits(a, s[i]) then MatchAt(s, i + 1, p[1..]) else None
      case Gap(plus, a) =>
        var k := SkipSpaces(s, i);
        if (plus && k == i) || k == |s| || !Admits(a, s[k]) then None
        else MatchAt(s, k + 1, p[1..])
  }

  /** Some piece of `p` could consume the character `c`. */
  predicate PieceAdmits(pc: Piece, c: char)
  {
    match pc
    case One(a) => Admits(a, c)
    case Gap(_, a) => IsSpace(c) || Admits(a, c)
  }

  predicate PatternAdmits(p: Pattern, c: char)
  {
    exists k :: 0 <= k < |p| && PieceAdmits(p[k], c)
  }

  /** Matching a concatenation is matching its two halves one after the other. */
  lemma MatchConcat(s: string, i: nat, p: Pattern, q: Pattern)
    requires i <= |s|
    ensures MatchAt(s, i, p + q) ==
              if MatchAt(s, i, p).Some? then MatchAt(s, MatchAt(s, i, p).value, q) else None
    decreases |p|
  {
    if p == [] {
      assert p + q == q;
    } else {
      assert (p + q)[0] == p[0];
      assert (p + q)[1..] == p[1..] + q;
      match p[0]
      case One(a) =>
        if i < |s| && Admits(a, s[i]) {
          MatchConcat(s, i + 1, p[1..], q);
        }
      case Gap(plus, a) =>
        var k := SkipSpaces(s, i);
        if !((plus && k == i) || k == |s| || !Admits(a, s[k])) {
          MatchConcat(s, k + 1, p[1..], q);
        }
    }
  }

  /** A non-empty slice is its first character followed by the rest. */
  lemma SliceCons(s: string, i: nat, e: nat)
    requires i < e <= |s|
    ensures s[i..e] == [s[i]] + s[i + 1..e]
  {
  }

  /** A literal pattern matches exactly where its text occurs. */
  lemma MatchLit(s: string, i: nat, w: string)
    requires i <= |s|
    ensures MatchAt(s, i, Lit(w)) ==
              if i + |w| <= |s| && s[i..i + |w|] == w then Some(i + |w|) else None
    decreases |w|
  {
    if w != [] {
      var p := Lit(w);
      assert p[1..] == Lit(w[1..]);
      if i < |s| && s[i] == w[0] {
        MatchLit(s, i + 1, w[1..]);
        if i + |w| <= |s| {
          SliceCons(s, i, i + |w|);
          assert w == [w[0]] + w[1..];
        }
      } else if i + |w| <= |s| {
        assert s[i..i + |w|][0] == s[i];
      }
    }
  }

  /** A whitespace run followed by its atom, seen from a known run end. */
  lemma MatchGap(s: string, i: nat, k: nat, plus: bool, a: Solid, rest: Pattern)
    requires i <= k < |s|
    requires forall q :: i <= q < k ==> IsSpace(s[q])
    requires Admits(a, s[k])
    requires plus ==> k > i
    ensures MatchAt(s, i, [Gap(plus, a)] + rest) == MatchAt(s, k + 1, rest)
  {
    var p := [Gap(plus, a)] + rest;
    assert p[0] == Gap(plus, a) && p[1..] == rest;
    MatchGapAt(s, i, k, p);
  }

  /** The same, for a pattern that starts with a whitespace run. */
  lemma MatchGapAt(s: string, i: nat, k: nat, p: Pattern)
    requires i <= k < |s| && p != [] && p[0].Gap?
    requires forall q :: i <= q < k ==> IsSpace(s[q])
    requires Admits(p[0].next, s[k])
    requires p[0].plus ==> k > i
    ensures MatchAt(s, i, p) == MatchAt(s, k + 1, p[1..])
  {
    assert !IsSpace(s[k]);
    assert SkipSpaces(s, i) == k;
  }

  /** Equal regions have equal sub-regions. */
  lemma SubRegion(s: string, i: nat, e: nat, t: string, j: nat, a: nat, b: nat)
    requires i <= a <= b <= e <= |s| && j + (e - i) <= |t|
    requires t[j..j + (e - i)] == s[i..e]
    ensures t[j + (a - i)..j + (b - i)] == s[a..b]
  {
    var x, y := t[j + (a - i)..j + (b - i)], s[a..b];
    forall d | 0 <= d < b - a ensures x[d] == y[d] {
      assert t[j..j + (e - i)][a - i + d] == s[i..e][a - i + d];
    }
    assert x == y;
  }

  /** Equal regions agree position by position. */
  lemma RegionAt(s: string, i: nat, e: nat, t: string, j: nat, q: nat)
    requires i <= q < e <= |s| && j + (e - i) <= |t|
    requires t[j..j + (e - i)] == s[i..e]
    ensures t[j + (q - i)] == s[q]
  {
    assert t[j..j + (e - i)][q - i] == s[i..e][q - i];
  }

  /**
   * Locality: whether and where a match ends depends only on the text of the
   * matched region, so the same region elsewhere matches the same way.
   */
  lemma MatchLocal(s: string, i: nat, p: Pattern, t: string, j: nat)
    requires i <= |s| && MatchAt(s, i, p).Some?
    requires j + (MatchAt(s, i, p).value - i) <= |t|
    requires t[j..j + (MatchAt(s, i, p).value - i)] == s[i..MatchAt(s, i, p).value]
    ensures MatchAt(t, j, p) == Some(j + (MatchAt(s, i, p).value - i))
  {
    MatchLocalAt(s, i, p, t, j, MatchAt(s, i, p).value);
  }

  /** The same, with the end `e` of the match named. */
  lemma MatchLocalAt(s: string, i: nat, p: Pattern, t: string, j: nat, e: nat)
    requires i <= |s| && MatchAt(s, i, p).Some? && MatchAt(s, i, p).value == e
    requires j + (e - i) <= |t| && t[j..j + (e - i)] == s[i..e]
    ensures MatchAt(t, j, p) == Some(j + (e - i))
    decreases |p|, 1
  {
    if p != [] {
      match p[0]
      case One(a) =>
        MatchLocalOne(s, i, p, t, j, e);
      case Gap(plus, a) =>
        MatchLocalGap(s, i, p, t, j, e);
    }
  }

  lemma MatchLocalOne(s: string, i: nat, p: Pattern, t: string, j: nat, e: nat)
    requires i <= |s| && p != [] && p[0].One? && MatchAt(s, i, p).Some? && MatchAt(s, i, p).value == e
    requires j + (e - i) <= |t| && t[j..j + (e - i)] == s[i..e]
    ensures MatchAt(t, j, p) == Some(j + (e - i))
    decreases |p|, 0
  {
    RegionAt(s, i, e, t, j, i);
    SubRegion(s, i, e, t, j, i + 1, e);
    MatchLocalAt(s, i + 1, p[1..], t, j + 1, e);
  }

  lemma MatchLocalGap(s: string, i: nat, p: Pattern, t: string, j: nat, e: nat)
    requires i <= |s| && p != [] && p[0].Gap? && MatchAt(s, i, p).Some? && MatchAt(s, i, p).value == e
    requires j + (e - i) <= |t| && t[j..j + (e - i)] == s[i..e]
    ensures MatchAt(t, j, p) == Some(j + (e - i))
    decreases |p|, 0
  {
    var k := GapCarry(s, i, p, t, j, e);
    MatchLocalAt(s, k + 1, p[1..], t, j + (k - i) + 1, e);
  }

  /** The whitespace run of a matched gap carries over to an equal region, leaving the rest of the pattern. */
  lemma GapCarry(s: string, i: nat, p: Pattern, t: string, j: nat, e: nat) returns (k: nat)
    requires i <= |s| && p != [] && p[0].Gap? && MatchAt(s, i, p).Some? && MatchAt(s, i, p).value == e
    requires j + (e - i) <= |t| && t[j..j + (e - i)] == s[i..e]
    ensures i <= k < e && MatchAt(s, k + 1, p[1..]).Some? && MatchAt(s, k + 1, p[1..]).value == e
    ensures MatchAt(t, j, p) == MatchAt(t, j + (k - i) + 1, p[1..])
    ensures j + (k - i) + 1 + (e - (k + 1)) <= |t|
    ensures t[j + (k - i) + 1..j + (k - i) + 1 + (e - (k + 1))] == s[k + 1..e]
  {
    k := GapUnfold(s, i, p);
    SpacesCarry(s, i, k, e, t, j);
    MatchGapAt(t, j, j + (k - i), p);
    SubRegion(s, i, e, t, j, k + 1, e);
    assert j + (k + 1 - i) == j + (k - i) + 1 && j + (e - i) == j + (k - i) + 1 + (e - (k + 1));
  }

  /** Where a pattern starting with a whitespace run matches, the run ends at an admitted character. */
  lemma GapUnfold(s: string, i: nat, p: Pattern) returns (k: nat)
    requires i <= |s| && p != [] && p[0].Gap? && MatchAt(s, i, p).Some?
    ensures k == SkipSpaces(s, i) && k < |s| && Admits(p[0].next, s[k]) && (p[0].plus ==> k > i)
    ensures MatchAt(s, k + 1, p[1..]) == MatchAt(s, i, p)
  {
    k := SkipSpaces(s, i);
  }

  /** A run of whitespace and the character after it, carried over to an equal region. */
  lemma SpacesCarry(s: string, i: nat, k: nat, e: nat, t: string, j: nat)
    requires i <= k < e <= |s| && j + (e - i) <= |t|
    requires t[j..j + (e - i)] == s[i..e]
    requires forall q :: i <= q < k ==> IsSpace(s[q])
    ensures forall q :: j <= q < j + (k - i) ==> IsSpace(t[q])
    ensures t[j + (k - i)] == s[k]
  {
    forall q | j <= q < j + (k - i) ensures IsSpace(t[q]) {
      RegionAt(s, i, e, t, j, i + (q - j));
    }
    RegionAt(s, i, e, t, j, k);
  }

  /** Every character of a matched region is one some piece of the pattern admits. */
  lemma MatchChars(s: string, i: nat, p: Pattern)
    requires i <= |s| && MatchAt(s, i, p).Some?
    ensures forall q :: i <= q < MatchAt(s, i, p).value ==> PatternAdmits(p, s[q])
    decreases |p|
  {
    if p != [] {
      var e := MatchAt(s, i, p).value;
      match p[0]
      case One(a) =>
        MatchChars(s, i + 1, p[1..]);
        forall q | i <= q < e ensures PatternAdmits(p, s[q]) {
          if q == i {
            assert PieceAdmits(p[0], s[q]);
          } else {
            var k :| 0 <= k < |p[1..]| && PieceAdmits(p[1..][k], s[q]);
            assert PieceAdmits(p[k + 1], s[q]);
          }
        }
      case Gap(plus, a) =>
        var k := SkipSpaces(s, i);
        MatchChars(s, k + 1, p[1..]);
        forall q | i <= q < e ensures PatternAdmits(p, s[q]) {
          if q <= k {
            assert PieceAdmits(p[0], s[q]);
          } else {
            var m :| 0 <= m < |p[1..]| && PieceAdmits(p[1..][m], s[q]);
            assert PieceAdmits(p[m + 1], s[q]);
          }
        }
    }
  }

  /** The atom that a non-empty pattern ends with. */
  function LastAtom(p: Pattern): Atom
    requires p != []
  {
    match p[|p| - 1]
    case One(a) => a
    case Gap(_, a) => a
  }

  /**
   * The last character of a matched region is the pattern's final atom; every
   * earlier one is admitted by the earlier pieces, or is whitespace of a final
   * run.
   */
  lemma MatchInterior(s: string, i: nat, p: Pattern)
    requires i <= |s| && p != [] && MatchAt(s, i, p).Some?
    ensures Admits(LastAtom(p), s[MatchAt(s, i, p).value - 1])
    ensures forall r :: i <= r < MatchAt(s, i, p).value - 1 ==>
              PatternAdmits(p[..|p| - 1], s[r]) || (p[|p| - 1].Gap? && IsSpace(s[r]))
  {
    var init, last := p[..|p| - 1], p[|p| - 1];
    assert p == init + [last];
    MatchConcat(s, i, init, [last]);
    var m := MatchAt(s, i, init).value;
    MatchChars(s, i, init);
    assert [last][0] == last && [last][1..] == [];
    match last
    case One(a) =>
    case Gap(plus, a) =>
      var k := SkipSpaces(s, m);
      assert MatchAt(s, k + 1, []) == Some(k + 1);
  }

  /** Leftmost match search starting at `from`. */
  function FindFrom(s: string, p: Pattern, from: nat): (r: Option<Span>)
    requires from <= |s|
    ensures r.Some? ==> from <= r.value.start <= |s| && MatchAt(s, r.value.start, p) == Some(r.value.end)
    ensures r.Some? ==> forall q :: from <= q < r.value.start ==> MatchAt(s, q, p).None?
    ensures r.None? ==> forall q :: from <= q <= |s| ==> MatchAt(s, q, p).None?
    decreases |s| - from
  {
    match MatchAt(s, from, p)
    case Some(e) => Some(Span(from, e))
    case None => if from == |s| then None else FindFrom(s, p, from + 1)
  }

  /** A region of text: `start` inclusive, `end` exclusive. */
  datatype Span = Span(start: nat, end: nat)

  /**
   * The leftmost match of `p` in `s`: what `RegExp.prototype.test` decides and
   * the match that `String.prototype.replace` (without the global flag) rewrites.
   */
  function Find(s: string, p: Pattern): (r: Option<Span>)
    ensures r.Some? ==> r.value.start <= |s| && MatchAt(s, r.value.start, p) == Some(r.value.end)
    ensures r.Some? ==> forall q :: 0 <= q < r.value.start ==> MatchAt(s, q, p).None?
    ensures r.None? ==> forall q :: 0 <= q <= |s| ==> MatchAt(s, q, p).None?
  {
    FindFrom(s, p, 0)
  }

  /** `s.includes(w)` */
  predicate Contains(s: string, w: string)
  {
    Find(s, Lit(w)).Some?
  }

  /** `w` occurs in `s` at position `q`. */
  predicate OccursAt(s: string, w: string, q: nat)
  {
    q + |w| <= |s| && s[q..q + |w|] == w
  }

  lemma ContainsIff(s: string, w: string)
    ensures Contains(s, w) <==> exists q :: OccursAt(s, w, q)
  {
    if Contains(s, w) {
      var q := Find(s, Lit(w)).value.start;
      MatchLit(s, q, w);
      assert OccursAt(s, w, q);
    }
    if exists q :: OccursAt(s, w, q) {
      var q: nat :| OccursAt(s, w, q);
      MatchLit(s, q, w);
    }
  }

  lemma ContainsAt(s: string, w: string, q: nat)
    requires OccursAt(s, w, q)
    ensures Contains(s, w)
  {
    ContainsIff(s, w);
  }

  /** `s` with `x` inserted at position `e`. */
  function InsertAt(s: string, e: nat, x: string): (r: string)
    requires e <= |s|
    ensures |r| == |s| + |x|
  {
    s[..e] + x + s[e..]
  }

  /** `s` with the region `[a, b)` replaced by `x`. */
  function Splice(s: string, a: nat, b: nat, x: string): (r: string)
    requires a <= b <= |s|
    ensures |r| == |s| - (b - a) + |x|
  {
    s[..a] + x + s[b..]
  }

  /** Replacing a region by itself followed by `x` inserts `x` after the region. */
  lemma SpliceKeeps(s: string, a: nat, b: nat, x: string)
    requires a <= b <= |s|
    ensures Splice(s, a, b, s[a..b] + x) == InsertAt(s, b, x)
  {
    assert s[..a] + s[a..b] == s[..b];
  }

  /** Text inserted into a string still contains what it contained. */
  lemma ContainsInserted(s: string, e: nat, x: string, w: string)
    requires e <= |s| && Contains(x, w)
    ensures Contains(InsertAt(s, e, x), w)
  {
    ContainsIff(x, w);
    var q: nat :| OccursAt(x, w, q);
    var r := InsertAt(s, e, x);
    assert r[e..e + |x|] == x;
    assert r[e + q..e + q + |w|] == x[q..q + |w|];
    ContainsAt(r, w, e + q);
  }

  /** A text contains whatever was placed in its middle. */
  lemma ContainsMiddle(a: string, w: string, b: string)
    ensures Contains(a + w + b, w)
  {
    assert (a + w + b)[|a|..|a| + |w|] == w;
    ContainsAt(a + w + b, w, |a|);
  }

  /** An occurrence in a piece of a text is an occurrence in the text. */
  lemma OccursWithin(a: string, x: string, b: string, w: string, q: nat)
    requires OccursAt(x, w, q)
    ensures OccursAt(a + x + b, w, |a| + q)
  {
    assert (a + x + b)[|a| + q..|a| + q + |w|] == x[q..q + |w|];
  }

  /** A text contains whatever a piece of it contains. */
  lemma ContainsWithin(a: string, x: string, b: string, w: string)
    requires Contains(x, w)
    ensures Contains(a + x + b, w)
  {
    ContainsIff(x, w);
    var q: nat :| OccursAt(x, w, q);
    OccursWithin(a, x, b, w, q);
    ContainsAt(a + x + b, w, |a| + q);
  }

  /** A text contains whatever its end contains. */
  lemma ContainsAfter(a: string, x: string, w: string)
    requires Contains(x, w)
    ensures Contains(a + x, w)
  {
    ContainsIff(x, w);
    var q: nat :| OccursAt(x, w, q);
    assert (a + x)[|a| + q..|a| + q + |w|] == x[q..q + |w|];
    ContainsAt(a + x, w, |a| + q);
  }

  /** A text contains whatever its beginning contains. */
  lemma ContainsBefore(x: string, b: string, w: string)
    requires Contains(x, w)
    ensures Contains(x + b, w)
  {
    ContainsIff(x, w);
    var q: nat :| OccursAt(x, w, q);
    assert (x + b)[q..q + |w|] == x[q..q + |w|];
    ContainsAt(x + b, w, q);
  }

  /** A text contains its beginning and its end. */
  lemma ContainsEnds(a: string, b: string)
    ensures Contains(a + b, a) && Contains(a + b, b)
  {
    assert (a + b)[..|a|] == a;
    ContainsAt(a + b, a, 0);
    assert (a + b)[|a|..|a| + |b|] == b;
    ContainsAt(a + b, b, |a|);
  }

  /** Where a word without spaces occurs, the text has no space. */
  lemma NoSpaceWithin(s: string, w: string, q: nat)
    requires OccursAt(s, w, q) && ' ' !in w
    ensures forall p :: q <= p < q + |w| ==> s[p] != ' '
  {
    forall p | q <= p < q + |w|
      ensures s[p] != ' '
    {
      assert s[p] == s[q..q + |w|][p - q] == w[p - q];
    }
  }

  /** A word without spaces occurs in two texts joined by a space exactly when it occurs in one of them. */
  lemma ContainsAroundSpace(x: string, y: string, w: string)
    requires ' ' !in w
    ensures Contains(x + " " + y, w) <==> Contains(x, w) || Contains(y, w)
  {
    var s := x + " " + y;
    if Contains(s, w) {
      ContainsIff(s, w);
      var q: nat :| OccursAt(s, w, q);
      if q + |w| <= |x| {
        assert s[q..q + |w|] == x[q..q + |w|];
        ContainsAt(x, w, q);
      } else {
        NoSpaceWithin(s, w, q);
        assert s[|x|] == ' ';
        assert q > |x|;
        assert s[q..q + |w|] == y[q - |x| - 1..q - |x| - 1 + |w|];
        ContainsAt(y, w, q - |x| - 1);
      }
    }
    ContainsEitherSide(x, y, w);
  }

  /** A text joined with another by a space contains what either of them contains. */
  lemma ContainsEitherSide(x: string, y: string, w: string)
    ensures Contains(x, w) || Contains(y, w) ==> Contains(x + " " + y, w)
  {
    if Contains(x, w) {
      ContainsWithin([], x, " " + y, w);
      assert [] + x + (" " + y) == x + " " + y;
    }
    if Contains(y, w) {
      ContainsWithin(x + " ", y, [], w);
      assert x + " " + y + [] == x + " " + y;
    }
  }

  /**
   * `x + y` does not contain `w` when `w` holds a character `c` followed by
   * `d`, `x` holds no `d`, `y` holds no `c` and does not start with `d`: no
   * place in `x + y` has `c` followed by `d`.
   */
  lemma NoPairAcross(x: string, y: string, w: string, i: nat)
    requires i + 1 < |w| && w[i + 1] !in x && w[i] !in y && y != [] && y[0] != w[i + 1]
    ensures !Contains(x + y, w)
  {
    var s := x + y;
    forall q: nat
      ensures !OccursAt(s, w, q)
    {
      if q + |w| <= |s| {
        assert s[q..q + |w|][i] == s[q + i] && s[q..q + |w|][i + 1] == s[q + i + 1];
        if q + i + 1 < |x| {
          assert s[q + i + 1] == x[q + i + 1];
        } else if q + i >= |x| {
          assert s[q + i] == y[q + i - |x|];
        } else {
          assert s[q + i + 1] == y[0];
        }
      }
    }
    ContainsIff(s, w);
  }

  /** The decimal digit for `d`. */
  function DigitChar(d: nat): (c: char)
    requires d < 10
    ensures IsDigit(c)
  {
    (('0' as int) + d) as char
  }

  /** `String(n)` for a non-negative integer. */
  function NatToString(n: nat): (r: string)
    ensures |r| >= 1
    ensures forall k :: 0 <= k < |r| ==> IsDigit(r[k])
    ensures n >= 10 ==> r[0] != '0'
    decreases n
  {
    if n < 10 then [DigitChar(n)] else NatToString(n / 10) + [DigitChar(n % 10)]
  }

  /** The value of one decimal digit. */
  function DigitValue(c: char): (d: nat)
    requires IsDigit(c)
    ensures d < 10 && DigitChar(d) == c
  {
    (c as int) - ('0' as int)
  }

  /** The value of a string of decimal digits. */
  function DigitsValue(s: string): nat
    requires forall k :: 0 <= k < |s| ==> IsDigit(s[k])
  {
    if s == [] then 0 else 10 * DigitsValue(s[..|s| - 1]) + DigitValue(s[|s| - 1])
  }

  /** Rendering a number and reading it back gives the number. */
  lemma {:induction false} NatToStringRoundTrip(n: nat)
    ensures DigitsValue(NatToString(n)) == n
    decreases n
  {
    if n >= 10 {
      var r := NatToString(n);
      assert r[..|r| - 1] == NatToString(n / 10);
      NatToStringRoundTrip(n / 10);
    }
  }

  /**
   * The first position at or after `k` holding `c`, or `|s|`: how far a
   * negated class such as `[^}]*` can reach from `k`.
   */
  function UpTo(s: string, k: nat, c: char): (z: nat)
    requires k <= |s|
    ensures k <= z <= |s|
    ensures c !in s[k..z]
    ensures z < |s| ==> s[z] == c
    decreases |s| - k
  {
    if k == |s| || s[k] == c then k
    else
      var z := UpTo(s, k + 1, c);
      assert s[k..z] == [s[k]] + s[k + 1..z];
      z
  }

  /** A region starting at `k` is free of `c` exactly when it stops at or before `UpTo(s, k, c)`. */
  lemma UpToBound(s: string, k: nat, m: nat, c: char)
    requires k <= m <= |s|
    ensures c !in s[k..m] <==> m <= UpTo(s, k, c)
  {
    var z := UpTo(s, k, c);
    if m <= z {
      assert s[k..z] == s[k..m] + s[m..z];
    } else {
      assert s[k..m][z - k] == s[z] == c;
      assert c in s[k..m];
    }
  }

  /** The end of the run of digits that starts at `d`: what the greedy `\d+` consumes. */
  function DigitRunEnd(s: string, d: nat): (e: nat)
    requires d <= |s|
    ensures d <= e <= |s|
    ensures forall q :: d <= q < e ==> IsDigit(s[q])
    ensures e == |s| || !IsDigit(s[e])
    decreases |s| - d
  {
    if d < |s| && IsDigit(s[d]) then DigitRunEnd(s, d + 1) else d
  }

  /** A run of digits that stops at `e` ends at `e`. */
  lemma DigitRunEndAt(s: string, d: nat, e: nat)
    requires d <= e <= |s| && (forall q :: d <= q < e ==> IsDigit(s[q])) && (e == |s| || !IsDigit(s[e]))
    ensures DigitRunEnd(s, d) == e
  {
  }

  /** A literal followed directly by its one-atom run: `w` then a character `a` admits. */
  lemma LitThenAtom(t: string, q: nat, w: string, a: Solid)
    requires q + |w| < |t| && t[q..q + |w|] == w && Admits(a, t[q + |w|])
    ensures MatchAt(t, q, Lit(w) + [Gap(false, a)]) == Some(q + |w| + 1)
  {
    var g := [Gap(false, a)];
    MatchConcat(t, q, Lit(w), g);
    MatchLit(t, q, w);
    MatchGapAt(t, q + |w|, q + |w|, g);
  }

  /**
   * A literal, a character `a1` admits, one space and a character `a2` admits:
   * the layout `server: {`, `eventBusConfig: {` and `port: 8` share.
   */
  lemma LitAtomSpaceAtom(t: string, q: nat, w: string, a1: Solid, a2: Solid)
    requires q + |w| + 2 < |t| && t[q..q + |w|] == w
    requires Admits(a1, t[q + |w|]) && t[q + |w| + 1] == ' ' && Admits(a2, t[q + |w| + 2])
    ensures MatchAt(t, q, Lit(w) + [Gap(false, a1), Gap(false, a2)]) == Some(q + |w| + 3)
  {
    var g := [Gap(false, a1), Gap(false, a2)];
    MatchConcat(t, q, Lit(w), g);
    MatchLit(t, q, w);
    MatchGapAt(t, q + |w|, q + |w|, g);
    MatchGapAt(t, q + |w| + 1, q + |w| + 2, g[1..]);
    assert g[1..][1..] == [];
  }
}
