/**
 * Properties of `patchDevtoolsPort`: where its replacement lands, what each
 * branch does to the text, and why a second run leaves the text alone.
 */
module DevtoolsProps {
  import opened Wrappers
  import opened Text
  import opened Edits
  import opened VitePatch
  import opened ServerPortProps

  // ---------------------------------------------------------------------------
  // How one site of the devtools expressions moves under an edit `Splice(u, a, b, y)`

  /** A `devtools(` after the edit moves along. */
  lemma ParenRight(u: string, a: nat, b: nat, y: string, i: nat)
    requires a <= b <= i <= |u| && MatchAt(u, i, DevtoolsParen).Some?
    ensures MatchAt(Splice(u, a, b, y), i - b + a + |y|, DevtoolsParen).Some?
    ensures DevtoolsParenEnd(Splice(u, a, b, y), i - b + a + |y|) == DevtoolsParenEnd(u, i) - b + a + |y|
  {
    RegionRight(u, a, b, y, i, DevtoolsParen);
  }

  /** A `devtools(` before the edit stays. */
  lemma ParenLeft(u: string, a: nat, b: nat, y: string, i: nat)
    requires a <= b <= |u| && i <= |u| && MatchAt(u, i, DevtoolsParen).Some? && DevtoolsParenEnd(u, i) <= a
    ensures MatchAt(Splice(u, a, b, y), i, DevtoolsParen).Some?
    ensures DevtoolsParenEnd(Splice(u, a, b, y), i) == DevtoolsParenEnd(u, i)
  {
    RegionLeft(u, a, b, y, i, DevtoolsParen);
  }

  /** An `eventBusConfig: {` after the edit moves along. */
  lemma BusOpenRight(u: string, a: nat, b: nat, y: string, m: nat)
    requires a <= b <= m <= |u| && MatchAt(u, m, EventBusOpen).Some?
    ensures MatchAt(Splice(u, a, b, y), m - b + a + |y|, EventBusOpen).Some?
    ensures EventBusOpenEnd(Splice(u, a, b, y), m - b + a + |y|) == EventBusOpenEnd(u, m) - b + a + |y|
  {
    RegionRight(u, a, b, y, m, EventBusOpen);
  }

  /** An `eventBusConfig: {` before the edit stays. */
  lemma BusOpenLeft(u: string, a: nat, b: nat, y: string, m: nat)
    requires a <= b <= |u| && m <= |u| && MatchAt(u, m, EventBusOpen).Some? && EventBusOpenEnd(u, m) <= a
    ensures MatchAt(Splice(u, a, b, y), m, EventBusOpen).Some?
    ensures EventBusOpenEnd(Splice(u, a, b, y), m) == EventBusOpenEnd(u, m)
  {
    RegionLeft(u, a, b, y, m, EventBusOpen);
  }

  /** The part from `eventBusConfig` on, after the edit, moves along. */
  lemma BusPortRight(u: string, a: nat, b: nat, y: string, m1: nat, m2: nat, value: bool)
    requires a <= b <= m1 && EventBusPortAt(u, m1, m2, value)
    ensures EventBusPortAt(Splice(u, a, b, y), m1 - b + a + |y|, m2 - b + a + |y|, value)
  {
    BusOpenRight(u, a, b, y, m1);
    SpanRight(u, a, b, y, EventBusOpenEnd(u, m1), m2, '}');
    RegionRight(u, a, b, y, m2, PortTail(value));
  }

  /** The part from `eventBusConfig` on, ending before the edit, stays. */
  lemma BusPortLeft(u: string, a: nat, b: nat, y: string, m1: nat, m2: nat, value: bool)
    requires a <= b <= |u| && EventBusPortAt(u, m1, m2, value) && MatchAt(u, m2, PortTail(value)).value <= a
    ensures EventBusPortAt(Splice(u, a, b, y), m1, m2, value)
  {
    BusOpenLeft(u, a, b, y, m1);
    SpanLeft(u, a, b, y, EventBusOpenEnd(u, m1), m2, '}');
    RegionLeft(u, a, b, y, m2, PortTail(value));
  }

  /** The part from `eventBusConfig` on, whose `}`-free stretch holds the edit: the `port` moves along. */
  lemma BusPortAround(u: string, a: nat, b: nat, y: string, m1: nat, m2: nat, value: bool)
    requires EventBusPortAt(u, m1, m2, value) && EventBusOpenEnd(u, m1) <= a <= b <= m2 && '}' !in y
    ensures EventBusPortAt(Splice(u, a, b, y), m1, m2 - b + a + |y|, value)
  {
    BusOpenLeft(u, a, b, y, m1);
    SpanAcross(u, a, b, y, EventBusOpenEnd(u, m1), m2, '}');
    RegionRight(u, a, b, y, m2, PortTail(value));
  }

  /** A site entirely after the edit moves along. */
  lemma DevtoolsRight(u: string, a: nat, b: nat, y: string, i: nat, m1: nat, m2: nat, value: bool)
    requires a <= b <= i && DevtoolsPortAt(u, i, m1, m2, value)
    ensures var sh := a + |y|; DevtoolsPortAt(Splice(u, a, b, y), i - b + sh, m1 - b + sh, m2 - b + sh, value)
  {
    ParenRight(u, a, b, y, i);
    SpanRight(u, a, b, y, DevtoolsParenEnd(u, i), m1, ')');
    BusPortRight(u, a, b, y, m1, m2, value);
  }

  /** A site entirely before the edit stays. */
  lemma DevtoolsLeft(u: string, a: nat, b: nat, y: string, i: nat, m1: nat, m2: nat, value: bool)
    requires a <= b <= |u| && DevtoolsPortAt(u, i, m1, m2, value) && MatchAt(u, m2, PortTail(value)).value <= a
    ensures DevtoolsPortAt(Splice(u, a, b, y), i, m1, m2, value)
  {
    ParenLeft(u, a, b, y, i);
    SpanLeft(u, a, b, y, DevtoolsParenEnd(u, i), m1, ')');
    BusPortLeft(u, a, b, y, m1, m2, value);
  }

  /** A site whose `)`-free stretch holds the edit: everything from `eventBusConfig` moves along. */
  lemma DevtoolsAroundParen(u: string, a: nat, b: nat, y: string, i: nat, m1: nat, m2: nat, value: bool)
    requires DevtoolsPortAt(u, i, m1, m2, value) && DevtoolsParenEnd(u, i) <= a <= b <= m1 && ')' !in y
    ensures var sh := a + |y|; DevtoolsPortAt(Splice(u, a, b, y), i, m1 - b + sh, m2 - b + sh, value)
  {
    ParenLeft(u, a, b, y, i);
    SpanAcross(u, a, b, y, DevtoolsParenEnd(u, i), m1, ')');
    BusPortRight(u, a, b, y, m1, m2, value);
  }

  /** A site whose `}`-free stretch holds the edit: only the `port` moves along. */
  lemma DevtoolsAroundBrace(u: string, a: nat, b: nat, y: string, i: nat, m1: nat, m2: nat, value: bool)
    requires DevtoolsPortAt(u, i, m1, m2, value) && EventBusOpenEnd(u, m1) <= a <= b <= m2 && '}' !in y
    ensures DevtoolsPortAt(Splice(u, a, b, y), i, m1, m2 - b + a + |y|, value)
  {
    ParenLeft(u, a, b, y, i);
    SpanLeft(u, a, b, y, DevtoolsParenEnd(u, i), m1, ')');
    BusPortAround(u, a, b, y, m1, m2, value);
  }

  // ---------------------------------------------------------------------------
  // Replacing the digits of a value

  lemma DevtoolsParenHasNoDigit(c: char)
    requires IsDigit(c)
    ensures !PatternAdmits(DevtoolsParen, c)
  {
  }

  lemma EventBusOpenHasNoDigit(c: char)
    requires IsDigit(c)
    ensures !PatternAdmits(EventBusOpen, c)
  {
  }

  /**
   * A site of the replaced expression meets a whole digit run only in one of
   * its two stretches or at its value.
   */
  lemma DevtoolsClearOfEdit(u: string, a: nat, b: nat, y: string, i: nat, m1: nat, m2: nat)
    requires DigitEdit(u, a, b, y) && DevtoolsPortAt(u, i, m1, m2, true)
    ensures b <= i || (DevtoolsParenEnd(u, i) <= a && b <= m1) ||
            (EventBusOpenEnd(u, m1) <= a && b <= m2) || ValueStart(u, m2) <= a
  {
    var k1, k2, d := DevtoolsParenEnd(u, i), EventBusOpenEnd(u, m1), ValueStart(u, m2);
    var first := u[a];
    if b <= i {
    } else if a < i {
      FirstChar(u, i, DevtoolsParen);
    } else if a < k1 {
      Avoids(u, i, DevtoolsParen, a);
      DevtoolsParenHasNoDigit(first);
    } else if a < m1 {
      if m1 < b {
        FirstChar(u, m1, EventBusOpen);
      }
    } else if a < k2 {
      Avoids(u, m1, EventBusOpen, a);
      EventBusOpenHasNoDigit(first);
    } else if a < m2 {
      if m2 < b {
        FirstChar(u, m2, PortValue);
      }
    } else if a < d {
      FirstChar(u, m2, PortValue);
    }
  }

  /** A site whose value is the edited run keeps its place, with the new digits. */
  lemma DevtoolsValueAtEdit(u: string, a: nat, b: nat, y: string, i: nat, m1: nat, m2: nat)
    requires DigitEdit(u, a, b, y) && DevtoolsPortAt(u, i, m1, m2, true) && ValueStart(u, m2) == a
    ensures DevtoolsPortAt(Splice(u, a, b, y), i, m1, m2, true)
  {
    ParenLeft(u, a, b, y, i);
    SpanLeft(u, a, b, y, DevtoolsParenEnd(u, i), m1, ')');
    BusOpenLeft(u, a, b, y, m1);
    SpanLeft(u, a, b, y, EventBusOpenEnd(u, m1), m2, '}');
    PortValueAtEdit(u, a, b, y, m2);
  }

  /** A site of the replaced expression survives the replacement of any whole digit run, moved along. */
  lemma DevtoolsSiteAcrossDigits(u: string, a: nat, b: nat, y: string, i: nat, m1: nat, m2: nat)
    requires DigitEdit(u, a, b, y) && DevtoolsPortAt(u, i, m1, m2, true)
    ensures i <= a || b <= i
    ensures m1 <= a || b <= m1
    ensures m2 <= a || b <= m2
    ensures DevtoolsPortAt(Splice(u, a, b, y), Moved(a, b, y, i), Moved(a, b, y, m1), Moved(a, b, y, m2), true)
  {
    DevtoolsClearOfEdit(u, a, b, y, i, m1, m2);
    if b <= i {
      DevtoolsRight(u, a, b, y, i, m1, m2, true);
    } else if DevtoolsParenEnd(u, i) <= a && b <= m1 {
      assert ')' !in y;
      DevtoolsAroundParen(u, a, b, y, i, m1, m2, true);
    } else if EventBusOpenEnd(u, m1) <= a && b <= m2 {
      assert '}' !in y;
      DevtoolsAroundBrace(u, a, b, y, i, m1, m2, true);
    } else if ValueStart(u, m2) < a {
      DevtoolsLeft(u, a, b, y, i, m1, m2, true);
    } else {
      DevtoolsValueAtEdit(u, a, b, y, i, m1, m2);
    }
  }

  /** The chosen match of the replaced expression precedes every site in the order the expression tries them. */
  lemma DevtoolsChosenBeats(s: string, i: nat, m1: nat, m2: nat)
    requires DevtoolsPortAt(s, i, m1, m2, true)
    ensures DevtoolsPortMatch(s, true).Some? && Precedes(DevtoolsPortMatch(s, true).value, i, m1, m2)
  {
  }

  /** The chosen site, before its own value's digits are replaced, is still a site afterwards. */
  lemma DevtoolsChosenStays(u: string, a: nat, b: nat, y: string)
    requires DigitEdit(u, a, b, y) && DevtoolsPortMatch(u, true).Some?
    requires ValueStart(u, DevtoolsPortMatch(u, true).value.port) == a
    ensures var w := DevtoolsPortMatch(u, true).value;
      w.start <= w.bus <= w.port < a && DevtoolsPortAt(Splice(u, a, b, y), w.start, w.bus, w.port, true)
  {
    var w := DevtoolsPortMatch(u, true).value;
    DevtoolsSiteAcrossDigits(u, a, b, y, w.start, w.bus, w.port);
  }

  /** A site of `v` carried back over the edit that undoes `u`'s replacement. */
  lemma DevtoolsSiteBack(u: string, v: string, a: nat, b: nat, y: string, i: nat, m1: nat, m2: nat)
    requires a <= b <= |u| && DigitEdit(v, a, a + |y|, u[a..b]) && Splice(v, a, a + |y|, u[a..b]) == u
    requires DevtoolsPortAt(v, i, m1, m2, true)
    ensures i <= a || a + |y| <= i
    ensures m1 <= a || a + |y| <= m1
    ensures m2 <= a || a + |y| <= m2
    ensures var x := u[a..b];
      DevtoolsPortAt(u, Moved(a, a + |y|, x, i), Moved(a, a + |y|, x, m1), Moved(a, a + |y|, x, m2), true)
  {
    DevtoolsSiteAcrossDigits(v, a, a + |y|, u[a..b], i, m1, m2);
  }

  /** Any site after the replacement is a site before it. */
  lemma DevtoolsSiteBeforeEdit(u: string, a: nat, b: nat, y: string, i: nat, m1: nat, m2: nat)
    requires DigitEdit(u, a, b, y) && DevtoolsPortAt(Splice(u, a, b, y), i, m1, m2, true)
    ensures i <= a || a + |y| <= i
    ensures m1 <= a || a + |y| <= m1
    ensures m2 <= a || a + |y| <= m2
    ensures var x := u[a..b];
      DevtoolsPortAt(u, Moved(a, a + |y|, x, i), Moved(a, a + |y|, x, m1), Moved(a, a + |y|, x, m2), true)
  {
    DigitEditUndo(u, a, b, y);
    DevtoolsSiteBack(u, Splice(u, a, b, y), a, b, y, i, m1, m2);
  }

  /** The order argument behind `DevtoolsChosenAfterDigitEdit`, on positions alone. */
  lemma DevtoolsChosenOrder(w: DevtoolsSite, w': DevtoolsSite, a: nat, y: string, x: string, i0: nat, m10: nat, m20: nat)
    requires w.start <= w.bus <= w.port < a && |x| > 0 && |y| > 0
    requires Precedes(w', w.start, w.bus, w.port)
    requires w'.start <= a || a + |y| <= w'.start
    requires w'.bus <= a || a + |y| <= w'.bus
    requires w'.port <= a || a + |y| <= w'.port
    requires i0 == Moved(a, a + |y|, x, w'.start) && m10 == Moved(a, a + |y|, x, w'.bus)
    requires m20 == Moved(a, a + |y|, x, w'.port)
    requires Precedes(w, i0, m10, m20)
    ensures w' == w
  {
    assert w'.start == w.start;
    assert w'.bus == w.bus;
  }

  /** Replacing the value's digits of the chosen match leaves that match the chosen one. */
  lemma DevtoolsChosenAfterDigitEdit(u: string, a: nat, b: nat, y: string)
    requires DigitEdit(u, a, b, y) && DevtoolsPortMatch(u, true).Some?
    requires ValueStart(u, DevtoolsPortMatch(u, true).value.port) == a
    ensures DevtoolsPortMatch(Splice(u, a, b, y), true) == DevtoolsPortMatch(u, true)
  {
    var v := Splice(u, a, b, y);
    var w := DevtoolsPortMatch(u, true).value;
    DevtoolsChosenStays(u, a, b, y);
    DevtoolsChosenBeats(v, w.start, w.bus, w.port);
    var w' := DevtoolsPortMatch(v, true).value;
    DevtoolsSiteBeforeEdit(u, a, b, y, w'.start, w'.bus, w'.port);
    var x := u[a..b];
    var i0, m10, m20 := Moved(a, a + |y|, x, w'.start), Moved(a, a + |y|, x, w'.bus), Moved(a, a + |y|, x, w'.port);
    DevtoolsChosenBeats(u, i0, m10, m20);
    DevtoolsChosenOrder(w, w', a, y, x, i0, m10, m20);
  }

  /**
   * Replacing the digits of the matched value keeps the match of the replaced
   * expression where it was, with the new digits as its value.
   */
  lemma DevtoolsReplaceKeepsMatch(s: string, port: nat)
    requires DevtoolsPortMatch(s, true).Some?
    ensures var w := DevtoolsPortMatch(s, true).value;
      var d := ValueStart(s, w.port);
      var t := ReplaceDigits(s, d, port);
      DevtoolsPortMatch(t, true) == Some(w) && ValueStart(t, w.port) == d &&
      DigitRunEnd(t, d) == d + |NatToString(port)| && t[d..d + |NatToString(port)|] == NatToString(port)
  {
    var w := DevtoolsPortMatch(s, true).value;
    var d := ValueStart(s, w.port);
    var e := DigitRunEnd(s, d);
    var n := NatToString(port);
    assert DigitEdit(s, d, e, n);
    DevtoolsChosenAfterDigitEdit(s, d, e, n);
    ValueAfterEdit(s, w.port, d, e, n);
  }

  /**
   * The devtools port is set: the replaced expression matches, and the digits
   * of its value spell `port`.
   */
  predicate DevtoolsSet(t: string, port: nat)
  {
    DevtoolsPortMatch(t, true).Some? && ValueSpells(t, DevtoolsPortMatch(t, true).value.port, port)
  }

  /**
   * The devtools port is set when the replaced expression has a site whose
   * `port` is the only `port` any site of the test has, and the digits of its
   * value, which start at `m2 + 6`, spell the port.
   */
  lemma DevtoolsSetAt(t: string, i: nat, m1: nat, m2: nat, port: nat)
    requires DevtoolsPortAt(t, i, m1, m2, true) && ValueSpells(t, m2, port)
    requires forall i': nat, m1': nat, m2': nat :: DevtoolsPortAt(t, i', m1', m2', false) ==> m2' == m2
    ensures DevtoolsSet(t, port)
  {
    DevtoolsChosenAt(t, i, m1, m2);
  }

  /** A site of the replaced expression whose `port` is the only `port` of any site of the test is the chosen one. */
  lemma DevtoolsChosenAt(t: string, i: nat, m1: nat, m2: nat)
    requires DevtoolsPortAt(t, i, m1, m2, true)
    requires forall i': nat, m1': nat, m2': nat :: DevtoolsPortAt(t, i', m1', m2', false) ==> m2' == m2
    ensures DevtoolsPortMatch(t, true).Some? && DevtoolsPortMatch(t, true).value.port == m2
  {
    DevtoolsChosenBeats(t, i, m1, m2);
    var w := DevtoolsPortMatch(t, true).value;
    DevtoolsValueSiteIsTestSite(t, w.start, w.bus, w.port);
  }

  /** A match of the devtools expression contains `devtools`. */
  lemma SiteContainsDevtools(t: string, i: nat, m1: nat, m2: nat)
    requires DevtoolsPortAt(t, i, m1, m2, false)
    ensures Contains(t, "devtools")
  {
    MatchConcat(t, i, Lit("devtools"), [Gap(false, Is('('))]);
    MatchLit(t, i, "devtools");
    ContainsAt(t, "devtools", i);
  }

  /** With a devtools match, `patchDevtoolsPort` replaces the digits of the value the replaced expression finds. */
  lemma DevtoolsReplaces(t: string, port: nat)
    requires Contains(t, "devtools") && DevtoolsPortMatch(t, false).Some? && DevtoolsPortMatch(t, true).Some?
    ensures Devtools(t, port).text == ReplaceDigits(t, ValueStart(t, DevtoolsPortMatch(t, true).value.port), port)
  {
  }

  /** Once the devtools port is set, `patchDevtoolsPort` with that port leaves the text as it is. */
  lemma DevtoolsSetFixed(t: string, port: nat)
    requires DevtoolsSet(t, port)
    ensures Devtools(t, port).text == t
  {
    var w := DevtoolsPortMatch(t, true).value;
    DevtoolsValueSiteIsTestSite(t, w.start, w.bus, w.port);
    SiteContainsDevtools(t, w.start, w.bus, w.port);
    DevtoolsReplaces(t, port);
    ReplaceSameDigits(t, ValueStart(t, w.port), port);
  }

  /** Replacing the value sets the devtools port. */
  lemma DevtoolsReplaceSetsPort(s: string, port: nat)
    requires DevtoolsPortMatch(s, true).Some?
    ensures DevtoolsSet(ReplaceDigits(s, ValueStart(s, DevtoolsPortMatch(s, true).value.port), port), port)
  {
    DevtoolsReplaceKeepsMatch(s, port);
  }

  // ---------------------------------------------------------------------------
  // The texts the other branches write

  /** The layout of `DevtoolsCall(port)`: a fixed head, the digits, a fixed tail. */
  lemma DevtoolsCallShape(port: nat)
    ensures var z, n := DevtoolsCall(port), NatToString(port);
      |z| == 40 + |n| && z[..35] == "devtools({ eventBusConfig: { port: " && z[35..35 + |n|] == n &&
      z[35 + |n|..] == " } })" && (forall j :: 0 <= j < |z| && z[j] == 'p' ==> j == 29)
  {
    var z, n := DevtoolsCall(port), NatToString(port);
    var pre, post := "devtools({ eventBusConfig: { port: ", " } })";
    assert z == pre + n + post;
    forall j | 0 <= j < |z|
      ensures z[j] == 'p' ==> j == 29
    {
      if j < 35 {
        assert z[j] == pre[j];
      } else if j < 35 + |n| {
        assert z[j] == n[j - 35];
      } else {
        assert z[j] == post[j - 35 - |n|];
      }
    }
  }

  /** The layout of `EventBusEntry(port)`: a fixed head, the digits, a fixed tail. */
  lemma EventBusEntryShape(port: nat)
    ensures var x, n := EventBusEntry(port), NatToString(port);
      |x| == 28 + |n| && x[..25] == " eventBusConfig: { port: " && x[25..25 + |n|] == n &&
      x[25 + |n|..] == " }," &&
      (forall j :: 0 <= j < |x| && x[j] == 'p' ==> j == 19) &&
      (forall j :: 0 <= j < |x| ==> x[j] != '(' && x[j] != ')')
  {
    var x, n := EventBusEntry(port), NatToString(port);
    var pre, post := " eventBusConfig: { port: ", " },";
    assert x == pre + n + post;
    forall j | 0 <= j < |x|
      ensures x[j] != '(' && x[j] != ')' && (x[j] == 'p' ==> j == 19)
    {
      if j < 25 {
        assert x[j] == pre[j];
      } else if j < 25 + |n| {
        assert x[j] == n[j - 25];
      } else {
        assert x[j] == post[j - 25 - |n|];
      }
    }
  }

  /** The words in the head of `DevtoolsCall`, wherever it sits. */
  lemma CallHeadWords(t: string, i: nat)
    requires i + 35 <= |t| && t[i..i + 35] == "devtools({ eventBusConfig: { port: "
    ensures t[i..i + 8] == "devtools" && t[i + 11..i + 25] == "eventBusConfig" && t[i + 29..i + 33] == "port"
  {
    var head := t[i..i + 35];
    assert head == "devtools({ " + "eventBusConfig" + ": { port: ";
    ConcatMid("devtools({ ", "eventBusConfig", ": { port: ");
    assert head == "devtools({ eventBusConfig: { " + "port" + ": ";
    ConcatMid("devtools({ eventBusConfig: { ", "port", ": ");
    SubSlice(t, i, i + 35, i, i + 8);
    SubSlice(t, i, i + 35, i + 11, i + 25);
    SubSlice(t, i, i + 35, i + 29, i + 33);
  }

  /** The punctuation in the head of `DevtoolsCall`, wherever it sits. */
  lemma CallHeadChars(t: string, i: nat)
    requires i + 35 <= |t| && t[i..i + 35] == "devtools({ eventBusConfig: { port: "
    ensures t[i + 8] == '(' && t[i + 9] == '{' && t[i + 10] == ' '
    ensures t[i + 25] == ':' && t[i + 26] == ' ' && t[i + 27] == '{'
    ensures t[i + 28] == ' ' && t[i + 33] == ':' && t[i + 34] == ' '
  {
    var head := t[i..i + 35];
    assert t[i + 8] == head[8] && t[i + 9] == head[9] && t[i + 10] == head[10];
    assert t[i + 25] == head[25] && t[i + 26] == head[26] && t[i + 27] == head[27];
    assert t[i + 28] == head[28] && t[i + 33] == head[33] && t[i + 34] == head[34];
  }

  /** The layout of a text with `DevtoolsCall(port)` in place of `[i, j)`. */
  lemma CallAt(s: string, i: nat, j: nat, port: nat, t: string)
    requires i <= j <= |s| && t == Splice(s, i, j, DevtoolsCall(port))
    ensures var z, n := DevtoolsCall(port), NatToString(port);
      var h := i + |z|;
      |z| == 40 + |n| && h <= |t| && t[i..i + 35] == "devtools({ eventBusConfig: { port: " &&
      t[i + 35..i + 35 + |n|] == n && t[i + 35 + |n|] == ' ' && t[h - 2] == '}' && t[h - 1] == ')'
  {
    var z, n := DevtoolsCall(port), NatToString(port);
    DevtoolsCallShape(port);
    SliceMid(s, i, j, z, 0, 35);
    SliceMid(s, i, j, z, 35, 35 + |n|);
    SliceMid(s, i, j, z, 35 + |n|, |z|);
    var tail := z[35 + |n|..];
    assert t[i + 35 + |n|] == tail[0];
    assert t[i + |z| - 2] == tail[3] && t[i + |z| - 1] == tail[4];
  }

  /** The only `p` of the rewritten call is the one of its `port`. */
  lemma CallOneP(s: string, i: nat, j: nat, port: nat, t: string)
    requires i <= j <= |s| && t == Splice(s, i, j, DevtoolsCall(port))
    ensures forall r :: i <= r < i + |DevtoolsCall(port)| && t[r] == 'p' ==> r == i + 29
  {
    var z := DevtoolsCall(port);
    DevtoolsCallShape(port);
    forall r | i <= r < i + |z|
      ensures t[r] == z[r - i]
    {
      CharMid(s, i, j, z, r - i);
    }
  }

  /** The devtools site in `DevtoolsCall(port)`: `devtools(` at `i`, `eventBusConfig` at `i + 11`, `port` at `i + 29`. */
  lemma CallSite(t: string, i: nat)
    requires i + 36 <= |t| && t[i..i + 35] == "devtools({ eventBusConfig: { port: " && IsDigit(t[i + 35])
    ensures DevtoolsPortAt(t, i, i + 11, i + 29, true) && MatchAt(t, i + 29, PortValue) == Some(i + 36)
  {
    CallHeadWords(t, i);
    CallHeadChars(t, i);
    LitThenAtom(t, i, "devtools", Is('('));
    LitAtomSpaceAtom(t, i + 11, "eventBusConfig", Is(':'), Is('{'));
    LitAtomSpaceAtom(t, i + 29, "port", Is(':'), Digit);
    assert PortValue == Lit("port") + [Gap(false, Is(':')), Gap(false, Digit)];
    assert ')' !in t[i + 9..i + 11];
    assert '}' !in t[i + 28..i + 29];
  }

  /** A site of the replaced expression is a site of the test. */
  lemma DevtoolsValueSiteIsTestSite(s: string, i: nat, m1: nat, m2: nat)
    requires DevtoolsPortAt(s, i, m1, m2, true)
    ensures DevtoolsPortAt(s, i, m1, m2, false)
  {
    MatchConcat(s, m2, PortColon, [Gap(false, Digit)]);
  }

  /**
   * An `eventBusConfig: {` whose `}`-free stretch reaches past a `}` at `h - 2`,
   * followed by a character it does not admit, starts at or after `h`.
   */
  lemma BusOpenAfter(t: string, h: nat, m1: nat, k2: nat, m2: nat)
    requires 2 <= h <= |t| && t[h - 2] == '}' && !PatternAdmits(EventBusOpen, t[h - 1])
    requires m1 <= |t| && MatchAt(t, m1, EventBusOpen) == Some(k2) && k2 <= m2 <= |t| && '}' !in t[k2..m2]
    requires h <= m2
    ensures h <= m1
  {
    MatchInterior(t, m1, EventBusOpen);
    FreeStretchBound(t, k2, m2, h - 2, '}');
    Outside(t, m1, EventBusOpen, h - 1);
  }

  /** A `devtools(` whose `)`-free stretch reaches past a `)` at `h - 1` starts at or after `h`. */
  lemma ParenOpenAfter(t: string, h: nat, i: nat, k1: nat, m1: nat)
    requires 1 <= h <= |t| && t[h - 1] == ')'
    requires i <= |t| && MatchAt(t, i, DevtoolsParen) == Some(k1) && k1 <= m1 <= |t| && ')' !in t[k1..m1]
    requires h <= m1
    ensures h <= i
  {
    MatchInterior(t, i, DevtoolsParen);
    FreeStretchBound(t, k1, m1, h - 1, ')');
    Outside(t, i, DevtoolsParen, h - 1);
  }

  /**
   * A site whose `port` lies at or after a `})` ending at `h` starts at or
   * after `h`: its `}`-free and `)`-free stretches cannot reach back over them.
   */
  lemma ClosedBefore(t: string, h: nat, i: nat, m1: nat, m2: nat)
    requires 2 <= h <= |t| && t[h - 2] == '}' && t[h - 1] == ')'
    requires DevtoolsPortAt(t, i, m1, m2, false) && h <= m2
    ensures h <= i
  {
    BusOpenAfter(t, h, m1, EventBusOpenEnd(t, m1), m2);
    ParenOpenAfter(t, h, i, DevtoolsParenEnd(t, i), m1);
  }

  /** A `port\s*:` starting before a `d` at `i` ends at or before it. */
  lemma PortBefore(t: string, i: nat, m: nat)
    requires i < |t| && t[i] == 'd' && m <= |t| && MatchAt(t, m, PortColon).Some?
    ensures i < m || MatchAt(t, m, PortColon).value <= i
  {
    if i < MatchAt(t, m, PortColon).value {
      Outside(t, m, PortColon, i);
    }
  }

  /** A site of the text with a call at `[i, h)` whose `port` comes after the call is a site without it. */
  lemma CallRight(s: string, t: string, i: nat, h: nat, y: string, i': nat, m1': nat, m2': nat)
    requires i <= h && 2 <= h <= |t| && t[h - 2] == '}' && t[h - 1] == ')'
    requires Splice(t, i, h, y) == s && DevtoolsPortAt(t, i', m1', m2', false) && h <= m2'
    ensures DevtoolsPortMatch(s, false).Some?
  {
    ClosedBefore(t, h, i', m1', m2');
    DevtoolsRight(t, i, h, y, i', m1', m2', false);
  }

  /** A site of the text with a call at `[i, h)` whose `port` comes before the call is a site without it. */
  lemma CallLeft(s: string, t: string, i: nat, h: nat, y: string, i': nat, m1': nat, m2': nat)
    requires i < h <= |t| && t[i] == 'd'
    requires Splice(t, i, h, y) == s && DevtoolsPortAt(t, i', m1', m2', false) && m2' < i
    ensures DevtoolsPortMatch(s, false).Some?
  {
    PortBefore(t, i, m2');
    DevtoolsLeft(t, i, h, y, i', m1', m2', false);
  }

  /**
   * When the test has no match before `devtools()` is rewritten, every match
   * of it afterwards has its `port` in the rewritten call.
   */
  lemma OnlyCallPort(s: string, i: nat, j: nat, port: nat, t: string)
    requires i <= j <= |s| && DevtoolsPortMatch(s, false).None?
    requires t == Splice(s, i, j, DevtoolsCall(port))
    ensures forall i': nat, m1': nat, m2': nat :: DevtoolsPortAt(t, i', m1', m2', false) ==> m2' == i + 29
  {
    var z := DevtoolsCall(port);
    var h := i + |z|;
    CallAt(s, i, j, port, t);
    CallOneP(s, i, j, port, t);
    assert t[i] == t[i..i + 35][0];
    SpliceUndo(s, i, j, z);
    forall i': nat, m1': nat, m2': nat | DevtoolsPortAt(t, i', m1', m2', false)
      ensures m2' == i + 29
    {
      if m2' != i + 29 {
        if h <= m2' {
          CallRight(s, t, i, h, s[i..j], i', m1', m2');
        } else if i <= m2' {
          FirstChar(t, m2', PortColon);
        } else {
          CallLeft(s, t, i, h, s[i..j], i', m1', m2');
        }
        assert false;
      }
    }
  }

  /** Rewriting `devtools()` into `t` in a text where the test has no match sets the port. */
  lemma CallSetsPort(s: string, sp: Span, port: nat, t: string)
    requires Find(s, DevtoolsEmpty) == Some(sp) && DevtoolsPortMatch(s, false).None?
    requires t == Splice(s, sp.start, sp.end, DevtoolsCall(port))
    ensures DevtoolsSet(t, port)
  {
    var i, j := sp.start, sp.end;
    assert i <= j <= |s|;
    CallAt(s, i, j, port, t);
    OnlyCallPort(s, i, j, port, t);
    CallSetsAt(t, i, port);
  }

  /**
   * A text with the call for `port` at `i`, and no other `port` in a site of
   * the test, has the port set.
   */
  lemma CallSetsAt(t: string, i: nat, port: nat)
    requires var n := NatToString(port);
      i + 35 + |n| < |t| && t[i..i + 35] == "devtools({ eventBusConfig: { port: " &&
      t[i + 35..i + 35 + |n|] == n && t[i + 35 + |n|] == ' '
    requires forall i': nat, m1': nat, m2': nat :: DevtoolsPortAt(t, i', m1', m2', false) ==> m2' == i + 29
    ensures DevtoolsSet(t, port)
  {
    CallValue(t, i, port);
    DevtoolsSetAt(t, i, i + 11, i + 29, port);
  }

  /** The call for `port` at `i` is a site whose value spells `port`. */
  lemma CallValue(t: string, i: nat, port: nat)
    requires var n := NatToString(port);
      i + 35 + |n| < |t| && t[i..i + 35] == "devtools({ eventBusConfig: { port: " &&
      t[i + 35..i + 35 + |n|] == n && t[i + 35 + |n|] == ' '
    ensures DevtoolsPortAt(t, i, i + 11, i + 29, true) && ValueSpells(t, i + 29, port)
  {
    assert IsDigit(t[i + 35]) by {
      assert t[i + 35] == t[i + 35..i + 35 + |NatToString(port)|][0];
    }
    CallSite(t, i);
    ValueAt(t, i + 29, i + 35, port);
  }

  // ---------------------------------------------------------------------------
  // Adding `eventBusConfig` after the brace of `devtools({`

  /** The layout of a text with `EventBusEntry(port)` inserted at `k`. */
  lemma EntryAt(s: string, k: nat, port: nat, t: string)
    requires k <= |s| && t == InsertAt(s, k, EventBusEntry(port))
    ensures var x, n := EventBusEntry(port), NatToString(port);
      var h := k + |x|;
      |x| == 28 + |n| && h <= |t| && t[k..k + 25] == " eventBusConfig: { port: " &&
      t[k + 25..k + 25 + |n|] == n && t[k + 25 + |n|] == ' ' && t[h - 2] == '}' && t[h - 1] == ','
  {
    var x, n := EventBusEntry(port), NatToString(port);
    EventBusEntryShape(port);
    assert t == Splice(s, k, k, x);
    SliceMid(s, k, k, x, 0, 25);
    SliceMid(s, k, k, x, 25, 25 + |n|);
    SliceMid(s, k, k, x, 25 + |n|, |x|);
    var tail := x[25 + |n|..];
    assert t[k + 25 + |n|] == tail[0];
    assert t[k + |x| - 2] == tail[1] && t[k + |x| - 1] == tail[2];
  }

  /** The inserted entry has no `(`, and its only `p` is the one of its `port`. */
  lemma EntryChars(s: string, k: nat, port: nat, t: string)
    requires k <= |s| && t == InsertAt(s, k, EventBusEntry(port))
    ensures var h := k + |EventBusEntry(port)|;
      (forall r :: k <= r < h ==> t[r] != '(') &&
      (forall r :: k <= r < h && t[r] == 'p' ==> r == k + 19)
  {
    var x := EventBusEntry(port);
    EventBusEntryShape(port);
    assert t == Splice(s, k, k, x);
    forall r | k <= r < k + |x|
      ensures t[r] == x[r - k]
    {
      CharMid(s, k, k, x, r - k);
    }
  }

  /** The words in the head of `EventBusEntry`, wherever it sits. */
  lemma EntryHeadWords(t: string, k: nat)
    requires k + 25 <= |t| && t[k..k + 25] == " eventBusConfig: { port: "
    ensures t[k + 1..k + 15] == "eventBusConfig" && t[k + 19..k + 23] == "port"
  {
    var head := t[k..k + 25];
    assert head == " " + "eventBusConfig" + ": { port: ";
    ConcatMid(" ", "eventBusConfig", ": { port: ");
    assert head == " eventBusConfig: { " + "port" + ": ";
    ConcatMid(" eventBusConfig: { ", "port", ": ");
    SubSlice(t, k, k + 25, k + 1, k + 15);
    SubSlice(t, k, k + 25, k + 19, k + 23);
  }

  /** The punctuation in the head of `EventBusEntry`, wherever it sits. */
  lemma EntryHeadChars(t: string, k: nat)
    requires k + 25 <= |t| && t[k..k + 25] == " eventBusConfig: { port: "
    ensures t[k] == ' ' && t[k + 1] == 'e' && t[k + 15] == ':' && t[k + 16] == ' ' && t[k + 17] == '{'
    ensures t[k + 18] == ' ' && t[k + 23] == ':' && t[k + 24] == ' '
  {
    var head := t[k..k + 25];
    assert t[k] == head[0] && t[k + 1] == head[1] && t[k + 15] == head[15] && t[k + 16] == head[16];
    assert t[k + 17] == head[17] && t[k + 18] == head[18] && t[k + 23] == head[23] && t[k + 24] == head[24];
  }

  /** Between the `(` and the brace of `devtools({` there is no `)`, and the inserted text starts with a space. */
  lemma ObjectStretch(s: string, i: nat, k: nat, port: nat, t: string)
    requires i <= k <= |s| && MatchAt(s, i, DevtoolsObject) == Some(k) && t == InsertAt(s, k, EventBusEntry(port))
    ensures MatchAt(t, i, DevtoolsParen).Some? && DevtoolsParenEnd(t, i) < k &&
      ')' !in t[DevtoolsParenEnd(t, i)..k + 1]
  {
    var x := EventBusEntry(port);
    EntryAt(s, k, port, t);
    EntryHeadChars(t, k);
    MatchConcat(s, i, DevtoolsParen, [Gap(false, Is('{'))]);
    var k1 := MatchAt(s, i, DevtoolsParen).value;
    assert t == Splice(s, k, k, x);
    RegionLeft(s, k, k, x, i, DevtoolsParen);
    forall r | k1 <= r < k + 1
      ensures t[r] != ')'
    {
      if r < k {
        Avoids(s, i, DevtoolsObject, r);
        CharLeft(s, k, k, x, r);
      }
    }
  }

  /** The devtools site the inserted entry completes: `eventBusConfig` at `k + 1`, `port` at `k + 19`. */
  lemma EntrySite(t: string, i: nat, k: nat)
    requires i <= k && k + 26 <= |t| && t[k..k + 25] == " eventBusConfig: { port: " && IsDigit(t[k + 25])
    requires MatchAt(t, i, DevtoolsParen).Some? && DevtoolsParenEnd(t, i) < k && ')' !in t[DevtoolsParenEnd(t, i)..k + 1]
    ensures DevtoolsPortAt(t, i, k + 1, k + 19, true) && MatchAt(t, k + 19, PortValue) == Some(k + 26)
  {
    EntryHeadWords(t, k);
    EntryHeadChars(t, k);
    LitAtomSpaceAtom(t, k + 1, "eventBusConfig", Is(':'), Is('{'));
    LitAtomSpaceAtom(t, k + 19, "port", Is(':'), Digit);
    assert PortValue == Lit("port") + [Gap(false, Is(':')), Gap(false, Digit)];
    assert '}' !in t[k + 18..k + 19];
  }

  /**
   * A `devtools(` before a `(`-free stretch `[k, h)` whose `)`-free stretch
   * reaches `h` ends at or before `k`, unless it starts at or after `h`.
   */
  lemma ParenAcross(t: string, k: nat, h: nat, i: nat, k1: nat, m1: nat)
    requires 1 <= h <= |t| && k <= h && !PatternAdmits(DevtoolsParen, t[h - 1])
    requires forall r :: k <= r < h ==> t[r] != '('
    requires i <= |t| && MatchAt(t, i, DevtoolsParen) == Some(k1) && k1 <= m1 <= |t| && h <= m1
    ensures k1 <= k || h <= i
  {
    MatchInterior(t, i, DevtoolsParen);
    if h <= k1 {
      Outside(t, i, DevtoolsParen, h - 1);
    }
  }

  /** A `port\s*:` starting before a space followed by a character it does not admit ends at or before the space. */
  lemma PortBeforeSpace(t: string, k: nat, m: nat)
    requires k + 1 < |t| && t[k] == ' ' && !PatternAdmits(PortColon, t[k + 1])
    requires m <= |t| && MatchAt(t, m, PortColon).Some?
    ensures k < m || MatchAt(t, m, PortColon).value <= k
  {
    MatchInterior(t, m, PortColon);
    if k + 1 < MatchAt(t, m, PortColon).value {
      Outside(t, m, PortColon, k + 1);
    }
  }

  /** A site of the text with an entry at `[k, h)` whose `port` comes after the entry is a site without it. */
  lemma EntryRight(s: string, t: string, k: nat, h: nat, i: nat, m1: nat, m2: nat)
    requires k <= h && 2 <= h <= |t| && t[h - 2] == '}' && t[h - 1] == ','
    requires forall r :: k <= r < h ==> t[r] != '('
    requires Splice(t, k, h, "") == s && DevtoolsPortAt(t, i, m1, m2, false) && h <= m2
    ensures DevtoolsPortMatch(s, false).Some?
  {
    BusOpenAfter(t, h, m1, EventBusOpenEnd(t, m1), m2);
    ParenAcross(t, k, h, i, DevtoolsParenEnd(t, i), m1);
    if h <= i {
      DevtoolsRight(t, k, h, "", i, m1, m2, false);
    } else {
      DevtoolsAroundParen(t, k, h, "", i, m1, m2, false);
    }
  }

  /** A site of the text with an entry at `[k, h)` whose `port` comes before the entry is a site without it. */
  lemma EntryLeft(s: string, t: string, k: nat, h: nat, i: nat, m1: nat, m2: nat)
    requires k + 1 < h <= |t| && t[k] == ' ' && t[k + 1] == 'e'
    requires Splice(t, k, h, "") == s && DevtoolsPortAt(t, i, m1, m2, false) && m2 < k
    ensures DevtoolsPortMatch(s, false).Some?
  {
    PortBeforeSpace(t, k, m2);
    DevtoolsLeft(t, k, h, "", i, m1, m2, false);
  }

  /**
   * When the test has no match before the entry is added, every match of it
   * afterwards has its `port` in the entry.
   */
  lemma OnlyEntryPort(s: string, k: nat, port: nat, t: string)
    requires k <= |s| && DevtoolsPortMatch(s, false).None?
    requires t == InsertAt(s, k, EventBusEntry(port))
    ensures forall i': nat, m1': nat, m2': nat :: DevtoolsPortAt(t, i', m1', m2', false) ==> m2' == k + 19
  {
    var x := EventBusEntry(port);
    var h := k + |x|;
    EntryAt(s, k, port, t);
    EntryChars(s, k, port, t);
    EntryHeadChars(t, k);
    InsertionRemoved(s, k, x);
    forall i': nat, m1': nat, m2': nat | DevtoolsPortAt(t, i', m1', m2', false)
      ensures m2' == k + 19
    {
      if m2' != k + 19 {
        if h <= m2' {
          EntryRight(s, t, k, h, i', m1', m2');
        } else if k <= m2' {
          FirstChar(t, m2', PortColon);
        } else {
          EntryLeft(s, t, k, h, i', m1', m2');
        }
        assert false;
      }
    }
  }

  /** Adding the entry after `devtools({`, giving `t`, in a text where the test has no match sets the port. */
  lemma EntrySetsPort(s: string, sp: Span, port: nat, t: string)
    requires Find(s, DevtoolsObject) == Some(sp) && DevtoolsPortMatch(s, false).None?
    requires t == InsertAt(s, sp.end, EventBusEntry(port))
    ensures DevtoolsSet(t, port)
  {
    var i, k := sp.start, sp.end;
    assert i <= k <= |s|;
    EntryAt(s, k, port, t);
    ObjectStretch(s, i, k, port, t);
    OnlyEntryPort(s, k, port, t);
    EntrySetsAt(t, i, k, port);
  }

  /**
   * A text with the entry for `port` at `k`, after a `devtools(` at `i` with
   * no `)` in between, and no other `port` in a site of the test, has the
   * port set.
   */
  lemma EntrySetsAt(t: string, i: nat, k: nat, port: nat)
    requires var n := NatToString(port);
      i <= k && k + 25 + |n| < |t| && t[k..k + 25] == " eventBusConfig: { port: " &&
      t[k + 25..k + 25 + |n|] == n && t[k + 25 + |n|] == ' '
    requires MatchAt(t, i, DevtoolsParen).Some? && DevtoolsParenEnd(t, i) < k && ')' !in t[DevtoolsParenEnd(t, i)..k + 1]
    requires forall i': nat, m1': nat, m2': nat :: DevtoolsPortAt(t, i', m1', m2', false) ==> m2' == k + 19
    ensures DevtoolsSet(t, port)
  {
    EntryValue(t, i, k, port);
    DevtoolsSetAt(t, i, k + 1, k + 19, port);
  }

  /** The entry for `port` at `k`, after a `devtools(` at `i` with no `)` in between, completes a site whose value spells `port`. */
  lemma EntryValue(t: string, i: nat, k: nat, port: nat)
    requires var n := NatToString(port);
      i <= k && k + 25 + |n| < |t| && t[k..k + 25] == " eventBusConfig: { port: " &&
      t[k + 25..k + 25 + |n|] == n && t[k + 25 + |n|] == ' '
    requires MatchAt(t, i, DevtoolsParen).Some? && DevtoolsParenEnd(t, i) < k && ')' !in t[DevtoolsParenEnd(t, i)..k + 1]
    ensures DevtoolsPortAt(t, i, k + 1, k + 19, true) && ValueSpells(t, k + 19, port)
  {
    assert IsDigit(t[k + 25]) by {
      assert t[k + 25] == t[k + 25..k + 25 + |NatToString(port)|][0];
    }
    EntrySite(t, i, k);
    ValueAt(t, k + 19, k + 25, port);
  }

  // ---------------------------------------------------------------------------
  // The whole of `patchDevtoolsPort`

  /** `patchDevtoolsPort` either leaves the text alone or leaves the port set. */
  lemma DevtoolsSetsOrKeeps(s: string, port: nat)
    ensures Devtools(s, port).text == s || DevtoolsSet(Devtools(s, port).text, port)
  {
    if !Contains(s, "devtools") {
    } else if DevtoolsPortMatch(s, false).Some? {
      if DevtoolsPortMatch(s, true).Some? {
        DevtoolsReplaces(s, port);
        DevtoolsReplaceSetsPort(s, port);
      }
    } else if Find(s, DevtoolsEmpty).Some? {
      var sp := Find(s, DevtoolsEmpty).value;
      CallSetsPort(s, sp, port, Devtools(s, port).text);
    } else if Find(s, DevtoolsObject).Some? {
      var sp := Find(s, DevtoolsObject).value;
      EntrySetsPort(s, sp, port, Devtools(s, port).text);
    }
  }

  /** Running `patchDevtoolsPort` twice with the same port gives the text of one run. */
  lemma DevtoolsIdempotent(s: string, port: nat)
    ensures Devtools(Devtools(s, port).text, port).text == Devtools(s, port).text
  {
    DevtoolsSetsOrKeeps(s, port);
    if Devtools(s, port).text != s {
      DevtoolsSetFixed(Devtools(s, port).text, port);
    }
  }

  /** The port that is set reads back as the number: its digits spell `port` in decimal. */
  lemma DevtoolsSetReadsBack(t: string, port: nat)
    requires DevtoolsSet(t, port)
    ensures var d := ValueStart(t, DevtoolsPortMatch(t, true).value.port);
      DigitsValue(t[d..DigitRunEnd(t, d)]) == port
  {
    NatToStringRoundTrip(port);
  }
}
