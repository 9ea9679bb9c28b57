/**
 * The JavaScript string operations the commands use: `split` on one
 * character, `join`, `trim`, `startsWith`/`endsWith`, and case mapping
 * (ASCII letters only).
 */
module Strings {
  import opened Wrappers
  import opened Text

  /** `s.split(c)` for a one-character separator: the pieces between the separators. */
  function Split(s: string, c: char): (r: seq<string>)
    ensures |r| >= 1
    ensures forall i :: 0 <= i < |r| ==> c !in r[i]
  {
    if |s| == 0 then [""]
    else
      var rest := Split(s[1..], c);
      if s[0] == c then [""] + rest
      else [[s[0]] + rest[0]] + rest[1..]
  }

  /** `parts.join(sep)`. */
  function Join(parts: seq<string>, sep: string): (r: string)
    ensures |parts| == 0 ==> r == []
    ensures |parts| == 1 ==> r == parts[0]
  {
    if |parts| == 0 then []
    else if |parts| == 1 then parts[0]
    else parts[0] + sep + Join(parts[1..], sep)
  }

  /** Joining one more piece adds the separator and the piece at the end. */
  lemma {:induction false} JoinSnoc(ps: seq<string>, x: string, sep: string)
    requires |ps| >= 1
    ensures Join(ps + [x], sep) == Join(ps, sep) + sep + x
    decreases |ps|
  {
    if |ps| == 1 {
      assert (ps + [x])[1..] == [x];
    } else {
      assert (ps + [x])[1..] == ps[1..] + [x];
      JoinSnoc(ps[1..], x, sep);
      calc {
        Join(ps + [x], sep);
        ps[0] + sep + Join(ps[1..] + [x], sep);
        ps[0] + sep + (Join(ps[1..], sep) + sep + x);
        (ps[0] + sep + Join(ps[1..], sep)) + sep + x;
      }
    }
  }

  /** A text without the separator is one piece. */
  lemma {:induction false} SplitNone(s: string, c: char)
    requires c !in s
    ensures Split(s, c) == [s]
  {
    if |s| > 0 {
      SplitNone(s[1..], c);
      assert [s[0]] + s[1..] == s;
    }
  }

  /** A separator cuts the split in two: the pieces of `a`, then those of `b`. */
  lemma {:induction false} SplitAcross(a: string, c: char, b: string)
    ensures Split(a + [c] + b, c) == Split(a, c) + Split(b, c)
  {
    var s := a + [c] + b;
    if |a| == 0 {
      assert s == [c] + b;
      assert s[1..] == b;
    } else {
      SplitAcross(a[1..], c, b);
      assert s[0] == a[0] && s[1..] == a[1..] + [c] + b;
      var ra := Split(a[1..], c);
      if a[0] != c {
        FirstPieceGrows([a[0]], ra, Split(b, c));
      }
    }
  }

  /** Growing the first piece of `ra + rb` grows the first piece of `ra`. */
  lemma FirstPieceGrows(h: string, ra: seq<string>, rb: seq<string>)
    requires |ra| >= 1
    ensures [h + (ra + rb)[0]] + (ra + rb)[1..] == [h + ra[0]] + ra[1..] + rb
  {
    assert (ra + rb)[1..] == ra[1..] + rb;
  }

  /** Joining the pieces with the separator gives back the text. */
  lemma {:induction false} JoinSplit(s: string, c: char)
    ensures Join(Split(s, c), [c]) == s
  {
    if |s| > 0 {
      JoinSplit(s[1..], c);
      var rest := Split(s[1..], c);
      if s[0] == c {
        assert Join([""] + rest, [c]) == "" + [c] + Join(rest, [c]);
      } else {
        var r := Split(s, c);
        if |rest| == 1 {
          assert r == [[s[0]] + rest[0]];
        } else {
          assert r[1..] == rest[1..];
          assert Join(rest, [c]) == rest[0] + [c] + Join(rest[1..], [c]);
        }
        assert [s[0]] + s[1..] == s;
      }
    }
  }

  /** Splitting the pieces joined with a separator none of them holds gives the pieces back. */
  lemma {:induction false} SplitJoin(parts: seq<string>, c: char)
    requires |parts| >= 1 && forall i :: 0 <= i < |parts| ==> c !in parts[i]
    ensures Split(Join(parts, [c]), c) == parts
  {
    if |parts| == 1 {
      SplitNone(parts[0], c);
    } else {
      SplitJoin(parts[1..], c);
      SplitNone(parts[0], c);
      SplitAcross(parts[0], c, Join(parts[1..], [c]));
      assert [parts[0]] + parts[1..] == parts;
    }
  }

  /** `lastIndexOf("/")` within `f[..end]`. */
  function LastSlash(f: string, end: nat): (r: Option<nat>)
    requires end <= |f|
    ensures r.Some? ==> r.value < end && f[r.value] == '/' && forall q :: r.value < q < end ==> f[q] != '/'
    ensures r.None? ==> forall q :: 0 <= q < end ==> f[q] != '/'
    decreases end
  {
    if end == 0 then None
    else if f[end - 1] == '/' then Some(end - 1)
    else LastSlash(f, end - 1)
  }

  /** The last `/` before `end` is the one after which no other comes. */
  lemma LastSlashAt(f: string, end: nat, k: nat)
    requires k < end <= |f| && f[k] == '/' && forall q :: k < q < end ==> f[q] != '/'
    ensures LastSlash(f, end) == Some(k)
  {
  }

  /** The last piece of `s` split at `/`: what follows the last `/`. */
  function LastSegment(s: string): (r: string)
    ensures '/' !in r
  {
    var parts := Split(s, '/');
    parts[|parts| - 1]
  }

  /** The last segment of `a/b` is `b` when `b` holds no `/`. */
  lemma LastSegmentJoin(a: string, b: string)
    requires '/' !in b
    ensures LastSegment(a + "/" + b) == b
  {
    SplitAcross(a, '/', b);
    SplitNone(b, '/');
  }

  /** No text occurs twice in the list. */
  predicate NoDuplicates(ps: seq<string>)
  {
    forall i, j :: 0 <= i < j < |ps| ==> ps[i] != ps[j]
  }

  /** Adding to a JavaScript `Set` kept in insertion order: appended only when absent. */
  function AddNew(ps: seq<string>, x: string): (r: seq<string>)
    ensures x in r && forall y :: y in r <==> y in ps || y == x
    ensures NoDuplicates(ps) ==> NoDuplicates(r)
    ensures |ps| <= |r| && r[..|ps|] == ps
  {
    if x in ps then ps else ps + [x]
  }

  /**
   * `s.length` in JavaScript: the number of UTF-16 code units, one for a
   * character up to U+FFFF and two (a surrogate pair) for one above.
   */
  function Utf16Length(s: string): (n: nat)
    ensures |s| <= n <= 2 * |s|
  {
    if s == [] then 0 else (if s[0] as int > 0xFFFF then 2 else 1) + Utf16Length(s[1..])
  }

  /** Only a character above U+FFFF makes the UTF-16 length exceed the character count. */
  lemma {:induction false} Utf16LengthBasic(s: string)
    ensures Utf16Length(s) == |s| <==> forall i :: 0 <= i < |s| ==> s[i] as int <= 0xFFFF
  {
    if s != [] {
      Utf16LengthBasic(s[1..]);
      assert forall i :: 1 <= i < |s| ==> s[i] == s[1..][i - 1];
    }
  }

  /** `s.startsWith(p)` */
  predicate StartsWith(s: string, p: string)
  {
    |p| <= |s| && s[..|p|] == p
  }

  /** `s.endsWith(p)` */
  predicate EndsWith(s: string, p: string)
  {
    |p| <= |s| && s[|s| - |p|..] == p
  }

  /** The first position from which `s` has no more leading whitespace. */
  function SkipLeading(s: string, i: nat): (k: nat)
    requires i <= |s|
    ensures i <= k <= |s|
    ensures forall q :: i <= q < k ==> IsSpace(s[q])
    ensures k == |s| || !IsSpace(s[k])
    decreases |s| - i
  {
    if i < |s| && IsSpace(s[i]) then SkipLeading(s, i + 1) else i
  }

  /** The end of `s[..j]` without its trailing whitespace, stopping at `lo`. */
  function DropTrailing(s: string, lo: nat, j: nat): (k: nat)
    requires lo <= j <= |s|
    ensures lo <= k <= j
    ensures forall q :: k <= q < j ==> IsSpace(s[q])
    ensures k == lo || !IsSpace(s[k - 1])
    decreases j
  {
    if j > lo && IsSpace(s[j - 1]) then DropTrailing(s, lo, j - 1) else j
  }

  /**
   * `s.trim()`: `s` without leading and trailing white space and line
   * terminators; the result is a slice of `s` that neither starts nor ends
   * with one, and only such characters were cut.
   */
  function Trim(s: string): (r: string)
    ensures exists i, j ::
      0 <= i <= j <= |s| && r == s[i..j] &&
      (forall q :: 0 <= q < i ==> IsSpace(s[q])) && (forall q :: j <= q < |s| ==> IsSpace(s[q]))
    ensures r == [] || (!IsSpace(r[0]) && !IsSpace(r[|r| - 1]))
  {
    var i := SkipLeading(s, 0);
    var j := DropTrailing(s, i, |s|);
    s[i..j]
  }

  /** A text that neither starts nor ends with white space is its own trim. */
  lemma TrimKeeps(s: string)
    requires s != [] && !IsSpace(s[0]) && !IsSpace(s[|s| - 1])
    ensures Trim(s) == s
  {
    var i, j :| 0 <= i <= j <= |s| && Trim(s) == s[i..j] &&
      (forall q :: 0 <= q < i ==> IsSpace(s[q])) && (forall q :: j <= q < |s| ==> IsSpace(s[q]));
    assert i == 0;
    assert j == |s|;
  }

  /** White space around a text that neither starts nor ends with it is all `trim` removes. */
  lemma TrimAround(l: string, s: string, r: string)
    requires s != [] && !IsSpace(s[0]) && !IsSpace(s[|s| - 1])
    requires forall q :: 0 <= q < |l| ==> IsSpace(l[q])
    requires forall q :: 0 <= q < |r| ==> IsSpace(r[q])
    ensures Trim(l + s + r) == s
  {
    var x := l + s + r;
    assert forall q :: 0 <= q < |l| ==> x[q] == l[q];
    assert forall q :: |l| + |s| <= q < |x| ==> x[q] == r[q - |l| - |s|];
    assert x[|l|] == s[0] && x[|l| + |s| - 1] == s[|s| - 1];
    var i := SkipLeading(x, 0);
    assert i == |l|;
    var j := DropTrailing(x, i, |x|);
    assert j == |l| + |s|;
    assert x[i..j] == s;
  }

  /** ASCII lower case of one character. */
  function LowerChar(c: char): char
  {
    if 'A' <= c <= 'Z' then (c as int + 32) as char else c
  }

  /** ASCII upper case of one character. */
  function UpperChar(c: char): char
  {
    if 'a' <= c <= 'z' then (c as int - 32) as char else c
  }

  /** `s.toLowerCase()`, for ASCII letters. */
  function ToLower(s: string): (r: string)
    ensures |r| == |s| && forall i :: 0 <= i < |s| ==> r[i] == LowerChar(s[i])
  {
    if |s| == 0 then [] else [LowerChar(s[0])] + ToLower(s[1..])
  }

  /** Lower-casing works piece by piece. */
  lemma ToLowerConcat(a: string, b: string)
    ensures ToLower(a + b) == ToLower(a) + ToLower(b)
  {
    var l, r := ToLower(a + b), ToLower(a) + ToLower(b);
    forall i | 0 <= i < |l|
      ensures l[i] == r[i]
    {
      if i < |a| {
        assert (a + b)[i] == a[i];
      } else {
        assert (a + b)[i] == b[i - |a|];
      }
    }
  }
}
