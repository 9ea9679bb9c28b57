/**
 * Properties of `patchServerPort`: where its replacement lands, what each
 * branch does to the text, and why a second run leaves the text alone.
 */
module ServerPortProps {
  import opened Wrappers
  import opened Text
  import opened Edits
  import opened VitePatch
  import opened ServerBlockProps

  // ---------------------------------------------------------------------------
  // Editing one run of digits

  /** `u[a..b]` is a whole run of digits and is replaced by the digits `y`. */
  predicate DigitEdit(u: string, a: nat, b: nat, y: string)
  {
    a < b <= |u| && (forall r :: a <= r < b ==> IsDigit(u[r])) && (b == |u| || !IsDigit(u[b])) &&
    |y| > 0 && (forall j :: 0 <= j < |y| ==> IsDigit(y[j]))
  }

  /** Where a position outside the edited run ends up. */
  function Moved(a: nat, b: nat, y: string, x: nat): nat
    requires a < b && (x <= a || b <= x)
  {
    if x <= a then x else x - b + a + |y|
  }

  /** Every site of the replaced expression also satisfies the test expression. */
  lemma ValueSiteIsTestSite(s: string, i: nat, m: nat)
    requires ServerPortAt(s, i, m, true)
    ensures ServerPortAt(s, i, m, false)
  {
    MatchConcat(s, m, PortColon, [Gap(false, Digit)]);
  }

  lemma ServerOpenHasNoDigit(c: char)
    requires IsDigit(c)
    ensures !PatternAdmits(ServerOpen, c)
  {
  }

  /** A `port: <digit>` match meets a digit run only at the value's first digit. */
  lemma PortValueVersusEdit(u: string, a: nat, b: nat, y: string, m: nat)
    requires DigitEdit(u, a, b, y) && m <= |u| && MatchAt(u, m, PortValue).Some?
    ensures ValueStart(u, m) <= a || b <= m
  {
    var d := ValueStart(u, m);
    var first := u[a];
    assert m < a < d ==> !IsDigit(first);
    if a <= m < b {
      FirstChar(u, m, PortValue);
    }
  }

  /** A value whose first digit is the edited run still matches, with the new digits. */
  lemma PortValueAtEdit(u: string, a: nat, b: nat, y: string, m: nat)
    requires DigitEdit(u, a, b, y) && m <= |u| && MatchAt(u, m, PortValue).Some? && ValueStart(u, m) == a
    ensures MatchAt(Splice(u, a, b, y), m, PortValue) == Some(a + 1)
  {
    var v := Splice(u, a, b, y);
    var g := [Gap(false, Digit)];
    var c := MatchAt(u, m, PortColon).value;
    RegionLeft(u, a, b, y, m, PortColon);
    MatchConcat(v, m, PortColon, g);
    forall q | c <= q < a
      ensures IsSpace(v[q])
    {
      CharLeft(u, a, b, y, q);
    }
    CharMid(u, a, b, y, 0);
    MatchGapAt(v, c, a, g);
  }

  // ---------------------------------------------------------------------------
  // How one site of the server-port expressions moves under an edit `Splice(u, a, b, y)`

  /** A `server: {` after the edit moves along. */
  lemma OpenRight(u: string, a: nat, b: nat, y: string, i: nat)
    requires a <= b <= i <= |u| && MatchAt(u, i, ServerOpen).Some?
    ensures MatchAt(Splice(u, a, b, y), i - b + a + |y|, ServerOpen).Some?
    ensures ServerOpenEnd(Splice(u, a, b, y), i - b + a + |y|) == ServerOpenEnd(u, i) - b + a + |y|
  {
    RegionRight(u, a, b, y, i, ServerOpen);
  }

  /** A `server: {` before the edit stays. */
  lemma OpenLeft(u: string, a: nat, b: nat, y: string, i: nat)
    requires a <= b <= |u| && i <= |u| && MatchAt(u, i, ServerOpen).Some? && ServerOpenEnd(u, i) <= a
    ensures MatchAt(Splice(u, a, b, y), i, ServerOpen).Some?
    ensures ServerOpenEnd(Splice(u, a, b, y), i) == ServerOpenEnd(u, i)
  {
    RegionLeft(u, a, b, y, i, ServerOpen);
  }

  /** A `port` site after the edit moves along, given a word boundary where it lands. */
  lemma PortSiteRight(u: string, a: nat, b: nat, y: string, m: nat, value: bool)
    requires a <= b <= m <= |u| && ServerPortSite(u, m, value)
    requires b < m || BoundaryBefore(Splice(u, a, b, y), a + |y|)
    ensures ServerPortSite(Splice(u, a, b, y), m - b + a + |y|, value)
    ensures MatchAt(Splice(u, a, b, y), m - b + a + |y|, PortTail(value)) ==
              Some(MatchAt(u, m, PortTail(value)).value - b + a + |y|)
  {
    if b < m {
      CharRight(u, a, b, y, m - 1);
    }
    RegionRight(u, a, b, y, m, PortTail(value));
  }

  /** A `port` site that ends before the edit stays. */
  lemma PortSiteLeft(u: string, a: nat, b: nat, y: string, m: nat, value: bool)
    requires a <= b <= |u| && m <= |u| && ServerPortSite(u, m, value) && MatchAt(u, m, PortTail(value)).value <= a
    ensures ServerPortSite(Splice(u, a, b, y), m, value)
    ensures MatchAt(Splice(u, a, b, y), m, PortTail(value)) == MatchAt(u, m, PortTail(value))
  {
    if m > 0 {
      CharLeft(u, a, b, y, m - 1);
    }
    RegionLeft(u, a, b, y, m, PortTail(value));
  }

  /** A site entirely after the edit moves along. */
  lemma SiteRight(u: string, a: nat, b: nat, y: string, i: nat, m: nat, value: bool)
    requires a <= b <= i && ServerPortAt(u, i, m, value)
    ensures ServerPortAt(Splice(u, a, b, y), i - b + a + |y|, m - b + a + |y|, value)
  {
    OpenRight(u, a, b, y, i);
    SpanRight(u, a, b, y, ServerOpenEnd(u, i), m, '}');
    PortSiteRight(u, a, b, y, m, value);
  }

  /** A site entirely before the edit stays. */
  lemma SiteLeft(u: string, a: nat, b: nat, y: string, i: nat, m: nat, value: bool)
    requires a <= b <= |u| && ServerPortAt(u, i, m, value) && MatchAt(u, m, PortTail(value)).value <= a
    ensures ServerPortAt(Splice(u, a, b, y), i, m, value)
  {
    OpenLeft(u, a, b, y, i);
    SpanLeft(u, a, b, y, ServerOpenEnd(u, i), m, '}');
    PortSiteLeft(u, a, b, y, m, value);
  }

  /** A site whose `}`-free stretch holds the edit: the `port` part moves along. */
  lemma SiteAround(u: string, a: nat, b: nat, y: string, i: nat, m: nat, value: bool)
    requires ServerPortAt(u, i, m, value) && ServerOpenEnd(u, i) <= a <= b <= m && '}' !in y
    requires b < m || BoundaryBefore(Splice(u, a, b, y), a + |y|)
    ensures ServerPortAt(Splice(u, a, b, y), i, m - b + a + |y|, value)
  {
    OpenLeft(u, a, b, y, i);
    SpanAcross(u, a, b, y, ServerOpenEnd(u, i), m, '}');
    PortSiteRight(u, a, b, y, m, value);
  }

  // ---------------------------------------------------------------------------
  // Replacing the digits of a value

  /** A site of the replaced expression lies clear of a whole digit run, except for its value. */
  lemma SiteClearOfEdit(u: string, a: nat, b: nat, y: string, i: nat, m: nat)
    requires DigitEdit(u, a, b, y) && ServerPortAt(u, i, m, true)
    ensures b <= i || ServerOpenEnd(u, i) <= a
    ensures m < a || b < m
    ensures ValueStart(u, m) <= a || b <= m
  {
    var k := ServerOpenEnd(u, i);
    var r := if i < a then a else i;
    assert i < b && a < k ==> i <= r < k;
    if i < b && a < k {
      Avoids(u, i, ServerOpen, r);
      ServerOpenHasNoDigit(u[r]);
    }
    if a <= m < b {
      FirstChar(u, m, PortValue);
    }
    var last := u[b - 1];
    assert m == b ==> IsWordChar(last);
    PortValueVersusEdit(u, a, b, y, m);
  }

  /** A site whose value is the edited run keeps its place, with the new digits. */
  lemma SiteValueAtEdit(u: string, a: nat, b: nat, y: string, i: nat, m: nat)
    requires DigitEdit(u, a, b, y) && ServerPortAt(u, i, m, true) && ValueStart(u, m) == a
    ensures ServerPortAt(Splice(u, a, b, y), i, m, true)
    ensures MatchAt(Splice(u, a, b, y), m, PortValue) == Some(a + 1)
  {
    OpenLeft(u, a, b, y, i);
    SpanLeft(u, a, b, y, ServerOpenEnd(u, i), m, '}');
    if m > 0 {
      CharLeft(u, a, b, y, m - 1);
    }
    PortValueAtEdit(u, a, b, y, m);
  }

  /** A site of the replaced expression survives the replacement of any whole digit run, moved along. */
  lemma SiteAcrossDigits(u: string, a: nat, b: nat, y: string, i: nat, m: nat)
    requires DigitEdit(u, a, b, y) && ServerPortAt(u, i, m, true)
    ensures i < a || b <= i
    ensures m < a || b < m
    ensures ServerPortAt(Splice(u, a, b, y), Moved(a, b, y, i), Moved(a, b, y, m), true)
  {
    SiteClearOfEdit(u, a, b, y, i, m);
    if b <= i {
      SiteRight(u, a, b, y, i, m, true);
    } else if b < m {
      assert '}' !in y;
      SiteAround(u, a, b, y, i, m, true);
    } else if ValueStart(u, m) < a {
      SiteLeft(u, a, b, y, i, m, true);
    } else {
      SiteValueAtEdit(u, a, b, y, i, m);
    }
  }

  /** The replacement digits, put back by the reverse edit, form a digit edit too. */
  lemma DigitEditUndo(u: string, a: nat, b: nat, y: string)
    requires DigitEdit(u, a, b, y)
    ensures DigitEdit(Splice(u, a, b, y), a, a + |y|, u[a..b])
    ensures Splice(Splice(u, a, b, y), a, a + |y|, u[a..b]) == u
  {
    var v := Splice(u, a, b, y);
    forall r | a <= r < a + |y|
      ensures IsDigit(v[r])
    {
      CharMid(u, a, b, y, r - a);
    }
    if b < |u| {
      CharRight(u, a, b, y, b);
    }
    SpliceUndo(u, a, b, y);
  }

  /** The chosen match of the replaced expression is at least as far left, and then as greedy, as any site. */
  lemma ChosenBeats(s: string, i: nat, m: nat)
    requires ServerPortAt(s, i, m, true)
    ensures ServerPortMatch(s, true).Some?
    ensures ServerPortMatch(s, true).value.start < i ||
            (ServerPortMatch(s, true).value.start == i && m <= ServerPortMatch(s, true).value.port)
  {
  }

  /** The chosen site, before its own value's digits are replaced, is still a site afterwards. */
  lemma ChosenStays(u: string, a: nat, b: nat, y: string)
    requires DigitEdit(u, a, b, y) && ServerPortMatch(u, true).Some?
    requires ValueStart(u, ServerPortMatch(u, true).value.port) == a
    ensures ServerPortAt(Splice(u, a, b, y), ServerPortMatch(u, true).value.start, ServerPortMatch(u, true).value.port, true)
  {
    var w := ServerPortMatch(u, true).value;
    SiteAcrossDigits(u, a, b, y, w.start, w.port);
  }

  /** A site of `v` carried back over the edit that undoes `u`'s replacement. */
  lemma SiteBack(u: string, v: string, a: nat, b: nat, y: string, i: nat, m: nat)
    requires a <= b <= |u| && DigitEdit(v, a, a + |y|, u[a..b]) && Splice(v, a, a + |y|, u[a..b]) == u
    requires ServerPortAt(v, i, m, true)
    ensures i < a || a + |y| <= i
    ensures m < a || a + |y| < m
    ensures ServerPortAt(u, Moved(a, a + |y|, u[a..b], i), Moved(a, a + |y|, u[a..b], m), true)
  {
    SiteAcrossDigits(v, a, a + |y|, u[a..b], i, m);
  }

  /** Any site after the replacement is a site before it, in the same order relative to the edited run. */
  lemma SiteBeforeEdit(u: string, a: nat, b: nat, y: string, i: nat, m: nat)
    requires DigitEdit(u, a, b, y) && ServerPortAt(Splice(u, a, b, y), i, m, true)
    ensures i < a || a + |y| <= i
    ensures m < a || a + |y| < m
    ensures ServerPortAt(u, Moved(a, a + |y|, u[a..b], i), Moved(a, a + |y|, u[a..b], m), true)
  {
    DigitEditUndo(u, a, b, y);
    SiteBack(u, Splice(u, a, b, y), a, b, y, i, m);
  }

  /** The order argument behind `ChosenAfterDigitEdit`, on positions alone. */
  lemma ChosenOrder(w: Site, w': Site, a: nat, y: string, x: string, i0: nat, m0: nat)
    requires w.start <= w.port < a && |x| > 0 && |y| > 0
    requires w'.start < w.start || (w'.start == w.start && w.port <= w'.port)
    requires w'.start < a || a + |y| <= w'.start
    requires w'.port < a || a + |y| < w'.port
    requires i0 == Moved(a, a + |y|, x, w'.start) && m0 == Moved(a, a + |y|, x, w'.port)
    requires w.start < i0 || (w.start == i0 && m0 <= w.port)
    ensures w' == w
  {
  }

  /** Replacing the value's digits of the chosen match leaves that match the chosen one. */
  lemma ChosenAfterDigitEdit(u: string, a: nat, b: nat, y: string)
    requires DigitEdit(u, a, b, y) && ServerPortMatch(u, true).Some?
    requires ValueStart(u, ServerPortMatch(u, true).value.port) == a
    ensures ServerPortMatch(Splice(u, a, b, y), true) == ServerPortMatch(u, true)
  {
    var v := Splice(u, a, b, y);
    var w := ServerPortMatch(u, true).value;
    ChosenStays(u, a, b, y);
    ChosenBeats(v, w.start, w.port);
    var w' := ServerPortMatch(v, true).value;
    SiteBeforeEdit(u, a, b, y, w'.start, w'.port);
    var i0, m0 := Moved(a, a + |y|, u[a..b], w'.start), Moved(a, a + |y|, u[a..b], w'.port);
    ChosenBeats(u, i0, m0);
    ChosenOrder(w, w', a, y, u[a..b], i0, m0);
  }

  /**
   * Replacing the digits of the matched value keeps the match of the replaced
   * expression where it was, with the new digits as its value.
   */
  lemma ReplaceKeepsMatch(s: string, port: nat)
    requires ServerPortMatch(s, true).Some?
    ensures var w := ServerPortMatch(s, true).value;
      var d := ValueStart(s, w.port);
      var t := ReplaceDigits(s, d, port);
      ServerPortMatch(t, true) == Some(w) && ValueStart(t, w.port) == d &&
      DigitRunEnd(t, d) == d + |NatToString(port)| && t[d..d + |NatToString(port)|] == NatToString(port)
  {
    var w := ServerPortMatch(s, true).value;
    var d := ValueStart(s, w.port);
    var e := DigitRunEnd(s, d);
    var n := NatToString(port);
    assert DigitEdit(s, d, e, n);
    ChosenAfterDigitEdit(s, d, e, n);
    ValueAfterEdit(s, w.port, d, e, n);
  }

  /** Replacing the digits of the value of a `port\s*:\s*\d` match leaves the new digits as its value. */
  lemma ValueAfterEdit(u: string, m: nat, a: nat, b: nat, y: string)
    requires DigitEdit(u, a, b, y) && m <= |u| && MatchAt(u, m, PortValue).Some? && ValueStart(u, m) == a
    ensures var v := Splice(u, a, b, y);
      MatchAt(v, m, PortValue).Some? && ValueStart(v, m) == a &&
      DigitRunEnd(v, a) == a + |y| && v[a..a + |y|] == y
  {
    var v := Splice(u, a, b, y);
    PortValueAtEdit(u, a, b, y, m);
    DigitEditUndo(u, a, b, y);
    DigitRunEndAt(v, a, a + |y|);
    assert v[a..a + |y|] == y;
  }

  // ---------------------------------------------------------------------------
  // The port is set

  /** The digits of the value of the `port\s*:\s*\d` match at `m` spell `port`. */
  predicate ValueSpells(t: string, m: nat, port: nat)
  {
    m <= |t| && MatchAt(t, m, PortValue).Some? &&
    var d := ValueStart(t, m);
    t[d..DigitRunEnd(t, d)] == NatToString(port)
  }

  /** A value holding the spelled-out port, followed by a non-digit, spells the port. */
  lemma ValueAt(t: string, m: nat, d: nat, port: nat)
    requires m <= |t| && MatchAt(t, m, PortValue) == Some(d + 1)
    requires d + |NatToString(port)| < |t| && t[d..d + |NatToString(port)|] == NatToString(port)
    requires !IsDigit(t[d + |NatToString(port)|])
    ensures ValueStart(t, m) == d && ValueSpells(t, m, port)
  {
    var n := NatToString(port);
    forall q | d <= q < d + |n|
      ensures IsDigit(t[q])
    {
      assert t[q] == n[q - d];
    }
    DigitRunEndAt(t, d, d + |n|);
  }

  /** `server.port` is already `port`: the replaced expression matches and its value spells `port`. */
  predicate PortSet(t: string, port: nat)
  {
    ServerPortMatch(t, true).Some? && ValueSpells(t, ServerPortMatch(t, true).value.port, port)
  }

  /** With a server-port match, `patchServerPort` replaces the digits of the value the replaced expression finds. */
  lemma ServerPortReplaces(t: string, port: nat)
    requires ServerPortMatch(t, false).Some? && ServerPortMatch(t, true).Some?
    ensures ServerPort(t, port).text == ReplaceDigits(t, ValueStart(t, ServerPortMatch(t, true).value.port), port)
  {
  }

  /** Replacing a run of digits by its own spelling changes nothing. */
  lemma ReplaceSameDigits(t: string, d: nat, port: nat)
    requires d <= |t| && t[d..DigitRunEnd(t, d)] == NatToString(port)
    ensures ReplaceDigits(t, d, port) == t
  {
    var e := DigitRunEnd(t, d);
    assert t == t[..d] + t[d..e] + t[e..];
  }

  /** Once the port is set, `patchServerPort` with that port leaves the text as it is. */
  lemma PortSetFixed(t: string, port: nat)
    requires PortSet(t, port)
    ensures ServerPort(t, port).text == t
  {
    var w := ServerPortMatch(t, true).value;
    ValueSiteIsTestSite(t, w.start, w.port);
    ServerPortReplaces(t, port);
    ReplaceSameDigits(t, ValueStart(t, w.port), port);
  }

  /** The port is set when the value of the chosen `port` spells it. */
  lemma PortSetBy(t: string, m: nat, port: nat)
    requires ServerPortMatch(t, true).Some? && ServerPortMatch(t, true).value.port == m && ValueSpells(t, m, port)
    ensures PortSet(t, port)
  {
  }

  /** Replacing the value sets the port. */
  lemma ReplaceSetsPort(s: string, port: nat)
    requires ServerPortMatch(s, true).Some?
    ensures PortSet(ReplaceDigits(s, ValueStart(s, ServerPortMatch(s, true).value.port), port), port)
  {
    ReplaceKeepsMatch(s, port);
  }

  // ---------------------------------------------------------------------------
  // Injecting a `port` line

  /** The layout of `t`, a text with `PortLine(port)` inserted at `k`. */
  lemma PortLineAt(u: string, k: nat, port: nat, t: string)
    requires k <= |u| && t == InsertAt(u, k, PortLine(port))
    ensures var n := NatToString(port); var h := k + |PortLine(port)|;
      |PortLine(port)| == 12 + |n| && |t| == |u| + 12 + |n| &&
      t[k + 5..k + 9] == "port" && t[k + 9] == ':' && t[k + 10] == ' ' &&
      t[k + 11..k + 11 + |n|] == n && t[h - 1] == ',' &&
      (forall r :: k <= r < h ==> t[r] != '{' && t[r] != '}') &&
      (forall r :: k <= r < h && t[r] == ':' ==> r == k + 9) &&
      (forall r :: k <= r <= k + 5 && t[r] == 'p' ==> r == k + 5)
  {
    var x, n := PortLine(port), NatToString(port);
    var h := k + |x|;
    assert x == "\n    port: " + n + ",";
    assert t[k..h] == x;
    forall r | k <= r < h
      ensures t[r] == x[r - k]
    {
      assert t[k..h][r - k] == t[r];
    }
    forall r | k + 11 <= r < h - 1
      ensures IsDigit(t[r])
    {
      assert x[r - k] == n[r - k - 11];
    }
    assert t[k + 5..k + 9] == x[5..9];
    assert t[k + 11..k + 11 + |n|] == x[11..11 + |n|];
  }

  /** `server: {` ends with its brace. */
  lemma BraceBeforeEnd(u: string, sp: Span)
    requires Find(u, ServerOpen) == Some(sp)
    ensures 0 < sp.end <= |u| && u[sp.end - 1] == '{'
  {
    MatchInterior(u, sp.start, ServerOpen);
  }

  /** The injected line holds a `port: <digit>` match. */
  lemma PortLineValue(u: string, k: nat, port: nat, t: string)
    requires k <= |u| && t == InsertAt(u, k, PortLine(port))
    ensures MatchAt(t, k + 5, PortValue) == Some(k + 12)
  {
    PortLineAt(u, k, port, t);
    LitAtomSpaceAtom(t, k + 5, "port", Is(':'), Digit);
    assert PortValue == Lit("port") + [Gap(false, Is(':')), Gap(false, Digit)];
  }

  /** The injected line completes a site of the replaced expression whose value is the new port. */
  lemma PortLineSite(u: string, sp: Span, port: nat, t: string)
    requires Find(u, ServerOpen) == Some(sp) && t == InsertAt(u, sp.end, PortLine(port))
    ensures ServerPortAt(t, sp.start, sp.end + 5, true) && MatchAt(t, sp.end + 5, PortValue) == Some(sp.end + 12)
  {
    var k := sp.end;
    PortLineAt(u, k, port, t);
    PortLineValue(u, k, port, t);
    assert t == Splice(u, k, k, PortLine(port));
    OpenLeft(u, k, k, PortLine(port), sp.start);
    assert ServerOpenEnd(t, sp.start) == k;
    assert '}' !in t[k..k + 5];
    assert BoundaryBefore(t, k + 5) by {
      assert t[k + 4] == PortLine(port)[4] == ' ';
    }
  }

  /** A `server: {` in the text with the injected line lies wholly before or after that line. */
  lemma OpenClearOfLine(u: string, sp: Span, port: nat, t: string, i: nat)
    requires Find(u, ServerOpen) == Some(sp) && t == InsertAt(u, sp.end, PortLine(port))
    requires i <= |t| && MatchAt(t, i, ServerOpen).Some?
    ensures sp.end + |PortLine(port)| <= i || ServerOpenEnd(t, i) <= sp.end
  {
    var k, h := sp.end, sp.end + |PortLine(port)|;
    PortLineAt(u, k, port, t);
    var e := ServerOpenEnd(t, i);
    if i < h && k < e {
      EndsInside(t, i, ServerOpen, k, h);
      assert false;
    }
  }

  /** A `port\s*:` in the text with the injected line, other than the injected one, lies wholly before or after it. */
  lemma ColonClearOfLine(u: string, sp: Span, port: nat, t: string, m: nat)
    requires Find(u, ServerOpen) == Some(sp) && t == InsertAt(u, sp.end, PortLine(port))
    requires m <= |t| && MatchAt(t, m, PortColon).Some? && m != sp.end + 5
    ensures sp.end + |PortLine(port)| <= m || MatchAt(t, m, PortColon).value <= sp.end
  {
    var k, h := sp.end, sp.end + |PortLine(port)|;
    PortLineAt(u, k, port, t);
    BraceBeforeEnd(u, sp);
    assert t[k - 1] == '{';
    var c := MatchAt(t, m, PortColon).value;
    if m < h && k < c {
      EndsInside(t, m, PortColon, k, h);
      assert t[c - 1] == ':';
      if m < k {
        Avoids(t, m, PortColon, k - 1);
        assert false;
      }
      FirstChar(t, m, PortColon);
      assert false;
    }
  }

  /** Removing an inserted piece gives back the text. */
  lemma InsertionRemoved(u: string, k: nat, x: string)
    requires k <= |u|
    ensures Splice(InsertAt(u, k, x), k, k + |x|, "") == u
  {
    SpliceUndo(u, k, k, x);
    assert u[k..k] == "";
  }

  /** A site of the text with a line at `[k, h)` that lies apart from the line is a site without it. */
  lemma LineApart(u: string, t: string, k: nat, h: nat, i: nat, m: nat)
    requires k <= h <= |t| && Splice(t, k, h, "") == u && ServerPortAt(t, i, m, false)
    requires h <= i || MatchAt(t, m, PortColon).value <= k
    ensures ServerPortMatch(u, false).Some?
  {
    if h <= i {
      SiteRight(t, k, h, "", i, m, false);
    } else {
      SiteLeft(t, k, h, "", i, m, false);
    }
  }

  /**
   * A site of the text with a line at `[k, h)`, right after a brace at `k - 1`,
   * whose `}`-free stretch holds the line is a site without it.
   */
  lemma LineInside(u: string, t: string, k: nat, h: nat, i: nat, m: nat)
    requires 0 < k <= h <= |t| && Splice(t, k, h, "") == u && ServerPortAt(t, i, m, false)
    requires u[k - 1] == '{' && ServerOpenEnd(t, i) <= k && h <= m
    ensures ServerPortMatch(u, false).Some?
  {
    SiteAround(t, k, h, "", i, m, false);
  }

  /**
   * When the test expression has no match before the injection, every match of
   * it afterwards has its `port` in the injected line.
   */
  lemma OnlyInjectedPort(u: string, sp: Span, port: nat, t: string, i: nat, m: nat)
    requires Find(u, ServerOpen) == Some(sp) && ServerPortMatch(u, false).None?
    requires t == InsertAt(u, sp.end, PortLine(port)) && ServerPortAt(t, i, m, false)
    ensures m == sp.end + 5
  {
    var k, x := sp.end, PortLine(port);
    var h := k + |x|;
    assert k <= |u| && h <= |t|;
    if m != k + 5 {
      OpenClearOfLine(u, sp, port, t, i);
      ColonClearOfLine(u, sp, port, t, m);
      InsertionRemoved(u, k, x);
      BraceBeforeEnd(u, sp);
      if h <= i || MatchAt(t, m, PortColon).value <= k {
        LineApart(u, t, k, h, i, m);
      } else {
        LineInside(u, t, k, h, i, m);
      }
      assert false;
    }
  }

  /** The replaced expression, after the injection, chooses the injected `port`. */
  lemma ChosenIsInjected(u: string, sp: Span, port: nat, t: string)
    requires Find(u, ServerOpen) == Some(sp) && ServerPortMatch(u, false).None?
    requires t == InsertAt(u, sp.end, PortLine(port))
    ensures ServerPortMatch(t, true).Some? && ServerPortMatch(t, true).value.port == sp.end + 5
  {
    assert sp.end <= |u|;
    PortLineSite(u, sp, port, t);
    ChosenBeats(t, sp.start, sp.end + 5);
    var w := ServerPortMatch(t, true).value;
    ValueSiteIsTestSite(t, w.start, w.port);
    OnlyInjectedPort(u, sp, port, t, w.start, w.port);
  }

  /** The value of the injected `port` is exactly the spelled-out port. */
  lemma InjectedValue(u: string, k: nat, port: nat, t: string)
    requires k <= |u| && t == InsertAt(u, k, PortLine(port))
    ensures ValueSpells(t, k + 5, port)
  {
    PortLineAt(u, k, port, t);
    PortLineValue(u, k, port, t);
    ValueAt(t, k + 5, k + 11, port);
  }

  /**
   * Injecting the `port` line, giving `t`, into a text whose server block has
   * no `port` sets the port.
   */
  lemma InjectSetsPort(u: string, sp: Span, port: nat, t: string)
    requires Find(u, ServerOpen) == Some(sp) && ServerPortMatch(u, false).None?
    requires t == InsertAt(u, sp.end, PortLine(port))
    ensures PortSet(t, port)
  {
    InjectedValue(u, sp.end, port, t);
    ChosenIsInjected(u, sp, port, t);
    PortSetBy(t, sp.end + 5, port);
  }

  // ---------------------------------------------------------------------------
  // Creating the server block

  /** In a text that had no `server: {`, the only `server: {` is the one in the inserted block. */
  lemma OnlyCreatedOpen(s: string, a: nat, i: nat)
    requires a <= |s| && Find(s, ServerOpen).None?
    requires var t := InsertAt(s, a, ServerBlock); i <= |t| && MatchAt(t, i, ServerOpen).Some?
    ensures ServerOpenEnd(InsertAt(s, a, ServerBlock), i) == a + 12
  {
    var t, h := InsertAt(s, a, ServerBlock), a + 17;
    ServerBlockAt(s, a);
    var e := ServerOpenEnd(t, i);
    if i < h && a < e {
      EndsInside(t, i, ServerOpen, a, h);
    } else {
      InsertionRemoved(s, a, ServerBlock);
      if e <= a {
        RegionLeft(t, a, h, "", i, ServerOpen);
      } else {
        RegionRight(t, a, h, "", i, ServerOpen);
      }
      assert false;
    }
  }

  /** A newly created server block has no `port`: the test expression does not match. */
  lemma CreatedBlockHasNoPort(s: string, a: nat)
    requires a <= |s| && Find(s, ServerOpen).None?
    ensures ServerPortMatch(InsertAt(s, a, ServerBlock), false).None?
  {
    var t := InsertAt(s, a, ServerBlock);
    if ServerPortMatch(t, false).Some? {
      var w := ServerPortMatch(t, false).value;
      FirstChar(t, w.port, PortColon);
      ServerBlockAt(s, a);
      OnlyCreatedOpen(s, a, w.start);
      assert false;
    }
  }

  /** When `ensureServerBlock` creates the block, the test expression finds no `port` in it. */
  lemma EnsuredBlockHasNoPort(s: string)
    requires Find(s, ServerOpen).None?
    ensures ServerPortMatch(EnsureServerBlock(s), false).None?
  {
    if EnsureServerBlock(s) == s {
      assert ServerPortMatch(s, false).None?;
    } else {
      var sp := if Find(s, DefineConfigOpen).Some? then Find(s, DefineConfigOpen).value else Find(s, ExportDefaultOpen).value;
      CreatedBlockHasNoPort(s, sp.end);
    }
  }

  // ---------------------------------------------------------------------------
  // The whole of `patchServerPort`

  /** `patchServerPort` either leaves the text alone or leaves the port set. */
  lemma ServerPortSetsOrKeeps(s: string, port: nat)
    ensures ServerPort(s, port).text == s || PortSet(ServerPort(s, port).text, port)
  {
    if ServerPortMatch(s, false).Some? {
      if ServerPortMatch(s, true).Some? {
        ServerPortReplaces(s, port);
        ReplaceSetsPort(s, port);
      }
    } else if Find(s, ServerOpen).Some? {
      InjectSetsPort(s, Find(s, ServerOpen).value, port, ServerPort(s, port).text);
    } else {
      var u := EnsureServerBlock(s);
      if Find(u, ServerOpen).Some? {
        EnsuredBlockHasNoPort(s);
        InjectSetsPort(u, Find(u, ServerOpen).value, port, ServerPort(s, port).text);
      } else {
        EnsureServerBlockAnchors(s);
        assert u == s;
        assert ServerPort(s, port).text == s;
      }
    }
  }

  /** Running `patchServerPort` twice with the same port gives the text of one run. */
  lemma ServerPortIdempotent(s: string, port: nat)
    ensures ServerPort(ServerPort(s, port).text, port).text == ServerPort(s, port).text
  {
    ServerPortSetsOrKeeps(s, port);
    if ServerPort(s, port).text != s {
      PortSetFixed(ServerPort(s, port).text, port);
    }
  }

  /** The port that is set reads back as the number: its digits spell `port` in decimal. */
  lemma PortSetReadsBack(t: string, port: nat)
    requires PortSet(t, port)
    ensures var d := ValueStart(t, ServerPortMatch(t, true).value.port);
      DigitsValue(t[d..DigitRunEnd(t, d)]) == port
  {
    NatToStringRoundTrip(port);
  }
}
