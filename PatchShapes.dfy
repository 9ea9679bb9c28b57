/**
 * The shape of each change `patchServerPort` and `patchDevtoolsPort` make:
 * either one run of digits is replaced, or a text is inserted right after a
 * `{`, or (for `devtools()`) the empty call is replaced; everything else is
 * kept.
 */
module PatchShapes {
  import opened Wrappers
  import opened Text
  import opened VitePatch
  import opened ServerBlockProps
  import opened AllowedHostsProps

  /** A match of a pattern that starts with the literal `w` starts with `w`. */
  lemma StartsWithLit(s: string, q: nat, w: string, rest: Pattern)
    requires q <= |s| && MatchAt(s, q, Lit(w) + rest).Some?
    ensures q + |w| <= |s| && s[q..q + |w|] == w
  {
    MatchConcat(s, q, Lit(w), rest);
    MatchLit(s, q, w);
  }

  /** Inserting `x` at `e` keeps what comes before and after it. */
  lemma InsertLayout(s: string, e: nat, x: string, t: string)
    requires e <= |s| && t == InsertAt(s, e, x)
    ensures t[..e] == s[..e] && t[e..e + |x|] == x && t[e + |x|..] == s[e..]
  {
    assert t == s[..e] + x + s[e..];
  }

  /**
   * Replacing the value at `d`, the start of a run of digits: the whole run
   * goes, the decimal form of `port` comes in, and nothing else changes.
   */
  lemma ReplacesOneRun(s: string, d: nat, port: nat)
    requires d < |s| && IsDigit(s[d])
    ensures var e, n, t := DigitRunEnd(s, d), NatToString(port), ReplaceDigits(s, d, port);
      d < e <= |s| && (forall q :: d <= q < e ==> IsDigit(s[q])) && (e == |s| || !IsDigit(s[e])) &&
      t[..d] == s[..d] && t[d..d + |n|] == n && t[d + |n|..] == s[e..]
  {
  }

  // ---------------------------------------------------------------------------
  // `patchServerPort`

  /**
   * A `port` in the first `server` block whose value is digits: only that
   * run of digits is replaced; the action reports the new port.
   */
  lemma ServerPortReplacesValue(s: string, port: nat)
    requires ServerPortMatch(s, false).Some? && ServerPortMatch(s, true).Some?
    ensures var d := ValueStart(s, ServerPortMatch(s, true).value.port);
      var e, n, t := DigitRunEnd(s, d), NatToString(port), ServerPort(s, port).text;
      d < e <= |s| && (forall q :: d <= q < e ==> IsDigit(s[q])) && (e == |s| || !IsDigit(s[e])) &&
      t[..d] == s[..d] && t[d..d + |n|] == n && t[d + |n|..] == s[e..]
    ensures ServerPort(s, port).action == "server.port: replaced with " + NatToString(port)
  {
    ReplacesOneRun(s, ValueStart(s, ServerPortMatch(s, true).value.port), port);
  }

  /**
   * A `port` in the first `server` block whose value is not digits: the
   * text stays as it is, yet the action still reports a replacement.
   */
  lemma ServerPortValueNotDigits(s: string, port: nat)
    requires ServerPortMatch(s, false).Some? && ServerPortMatch(s, true).None?
    ensures ServerPort(s, port) == Step(s, "server.port: replaced with " + NatToString(port))
  {
  }

  /**
   * A `server` block without `port`: the line `port: <port>,` goes right after
   * the `{` of the first `server: {`, and nothing else changes.
   */
  lemma ServerPortInjects(s: string, port: nat)
    requires ServerPortMatch(s, false).None? && Find(s, ServerOpen).Some?
    ensures var e, x, t := Find(s, ServerOpen).value.end, PortLine(port), ServerPort(s, port).text;
      0 < e <= |s| && s[e - 1] == '{' &&
      t[..e] == s[..e] && t[e..e + |x|] == x && t[e + |x|..] == s[e..]
    ensures ServerPort(s, port).action == "server.port: injected " + NatToString(port)
  {
    var sp := Find(s, ServerOpen).value;
    EndsOn(s, sp.start, ServerOpen, '{');
    InsertLayout(s, sp.end, PortLine(port), ServerPort(s, port).text);
  }

  /**
   * No `server` block, but a `defineConfig({` or an `export default {`: a
   * `server` block holding only the `port` line is created right after that `{`.
   */
  lemma ServerPortCreatesBlock(s: string, port: nat)
    requires Find(s, ServerOpen).None?
    requires Find(s, DefineConfigOpen).Some? || Find(s, ExportDefaultOpen).Some?
    ensures var a := BlockAnchor(s);
      0 < a <= |s| && s[a - 1] == '{' &&
      ServerPort(s, port).text == InsertAt(InsertAt(s, a, ServerBlock), a + 12, PortLine(port))
    ensures ServerPort(s, port).action == "server.port: created server block with port " + NatToString(port)
  {
    assert ServerPortMatch(s, false).None? by {
      if ServerPortMatch(s, false).Some? {
        ServerPortNeedsOpen(s);
        assert false;
      }
    }
    var a := CreatedAnchor(s);
    assert ServerPort(s, port).text == InsertAt(EnsureServerBlock(s), a + 12, PortLine(port));
  }

  /** The test expression only matches where a `server: {` does. */
  lemma ServerPortNeedsOpen(s: string)
    requires ServerPortMatch(s, false).Some?
    ensures Find(s, ServerOpen).Some?
  {
    var w := ServerPortMatch(s, false).value;
    assert MatchAt(s, w.start, ServerOpen).Some?;
  }

  /**
   * Without a `port` in a `server` block, `patchServerPort` leaves the text
   * unchanged exactly when there is no `server: {`, `defineConfig({` or
   * `export default {`; it then reports the format as unrecognized.
   */
  lemma ServerPortUnchangedIff(s: string, port: nat)
    requires ServerPortMatch(s, false).None?
    ensures ServerPort(s, port).text == s <==>
      Find(s, ServerOpen).None? && Find(s, DefineConfigOpen).None? && Find(s, ExportDefaultOpen).None?
    ensures ServerPort(s, port).text == s ==> ServerPort(s, port).action == "server.port: unrecognized config format"
  {
    if Find(s, ServerOpen).Some? {
      assert |ServerPort(s, port).text| > |s|;
    } else {
      EnsureServerBlockAnchors(s);
      var u := EnsureServerBlock(s);
      if Find(u, ServerOpen).Some? {
        assert |u| >= |s|;
        assert |ServerPort(s, port).text| > |s|;
      }
    }
  }

  // ---------------------------------------------------------------------------
  // `patchDevtoolsPort`

  /** No `devtools` anywhere: nothing changes and the patch reports it skipped. */
  lemma DevtoolsNotFound(s: string, port: nat)
    requires !Contains(s, "devtools")
    ensures Devtools(s, port) == Step(s, "devtools: not found, skipped")
  {
  }

  /**
   * An `eventBusConfig` `port` inside `devtools(` whose value is digits: only
   * that run of digits is replaced.
   */
  lemma DevtoolsReplacesValue(s: string, port: nat)
    requires Contains(s, "devtools")
    requires DevtoolsPortMatch(s, false).Some? && DevtoolsPortMatch(s, true).Some?
    ensures var d := ValueStart(s, DevtoolsPortMatch(s, true).value.port);
      var e, n, t := DigitRunEnd(s, d), NatToString(port), Devtools(s, port).text;
      d < e <= |s| && (forall q :: d <= q < e ==> IsDigit(s[q])) && (e == |s| || !IsDigit(s[e])) &&
      t[..d] == s[..d] && t[d..d + |n|] == n && t[d + |n|..] == s[e..]
    ensures Devtools(s, port).action == "devtools: updated eventBusConfig.port to " + NatToString(port)
  {
    ReplacesOneRun(s, ValueStart(s, DevtoolsPortMatch(s, true).value.port), port);
  }

  /**
   * The first `devtools()` with nothing between its parentheses is replaced,
   * as a whole, by `devtools({ eventBusConfig: { port: <port> } })`.
   */
  lemma DevtoolsInjectsCall(s: string, port: nat)
    requires Contains(s, "devtools") && DevtoolsPortMatch(s, false).None?
    requires Find(s, DevtoolsEmpty).Some?
    ensures var sp, c, t := Find(s, DevtoolsEmpty).value, DevtoolsCall(port), Devtools(s, port).text;
      sp.start + 8 <= sp.end <= |s| && s[sp.start..sp.start + 8] == "devtools" && s[sp.end - 1] == ')' &&
      t[..sp.start] == s[..sp.start] && t[sp.start..sp.start + |c|] == c && t[sp.start + |c|..] == s[sp.end..]
    ensures Devtools(s, port).action == "devtools: injected eventBusConfig.port " + NatToString(port)
  {
    var sp := Find(s, DevtoolsEmpty).value;
    EmptyCallAt(s, sp.start, sp.end);
    DevtoolsCallText(s, port);
    SpliceLayout(s, sp.start, sp.end, DevtoolsCall(port), Devtools(s, port).text);
  }

  /** A `devtools()` match runs from the word `devtools` to a `)`. */
  lemma EmptyCallAt(s: string, q: nat, e: nat)
    requires q <= |s| && MatchAt(s, q, DevtoolsEmpty) == Some(e)
    ensures q + 8 <= e <= |s| && s[q..q + 8] == "devtools" && s[e - 1] == ')'
  {
    assert DevtoolsEmpty == Lit("devtools") + [Gap(false, Is('(')), Gap(false, Is(')'))];
    StartsWithLit(s, q, "devtools", [Gap(false, Is('(')), Gap(false, Is(')'))]);
    EndsOn(s, q, DevtoolsEmpty, ')');
    MatchInterior(s, q, DevtoolsEmpty);
  }

  /** The text `devtools()` turns into. */
  lemma DevtoolsCallText(s: string, port: nat)
    requires Contains(s, "devtools") && DevtoolsPortMatch(s, false).None?
    requires Find(s, DevtoolsEmpty).Some?
    ensures Devtools(s, port).text ==
      Splice(s, Find(s, DevtoolsEmpty).value.start, Find(s, DevtoolsEmpty).value.end, DevtoolsCall(port))
  {
  }

  /** The text `devtools({` turns into. */
  lemma DevtoolsAddsText(s: string, port: nat)
    requires Contains(s, "devtools") && DevtoolsPortMatch(s, false).None?
    requires Find(s, DevtoolsEmpty).None? && Find(s, DevtoolsObject).Some?
    ensures Devtools(s, port).text == InsertAt(s, Find(s, DevtoolsObject).value.end, EventBusEntry(port))
  {
  }

  /** Replacing `[a, b)` by `x` keeps what comes before and after. */
  lemma SpliceLayout(s: string, a: nat, b: nat, x: string, t: string)
    requires a <= b <= |s| && t == Splice(s, a, b, x)
    ensures t[..a] == s[..a] && t[a..a + |x|] == x && t[a + |x|..] == s[b..]
  {
    assert t == s[..a] + x + s[b..];
  }

  /**
   * A `devtools({` without an `eventBusConfig` `port`: the entry
   * ` eventBusConfig: { port: <port> },` goes right after its `{`.
   */
  lemma DevtoolsAddsEntry(s: string, port: nat)
    requires Contains(s, "devtools") && DevtoolsPortMatch(s, false).None?
    requires Find(s, DevtoolsEmpty).None? && Find(s, DevtoolsObject).Some?
    ensures var e, x, t := Find(s, DevtoolsObject).value.end, EventBusEntry(port), Devtools(s, port).text;
      0 < e <= |s| && s[e - 1] == '{' &&
      t[..e] == s[..e] && t[e..e + |x|] == x && t[e + |x|..] == s[e..]
    ensures Devtools(s, port).action == "devtools: added eventBusConfig.port " + NatToString(port)
  {
    var sp := Find(s, DevtoolsObject).value;
    EndsOn(s, sp.start, DevtoolsObject, '{');
    DevtoolsAddsText(s, port);
    InsertLayout(s, sp.end, EventBusEntry(port), Devtools(s, port).text);
  }

  /** `devtools` occurs but in no shape the patch knows: nothing changes. */
  lemma DevtoolsUnrecognized(s: string, port: nat)
    requires Contains(s, "devtools") && DevtoolsPortMatch(s, false).None?
    requires Find(s, DevtoolsEmpty).None? && Find(s, DevtoolsObject).None?
    ensures Devtools(s, port) == Step(s, "devtools: unrecognized call pattern")
  {
  }
}
