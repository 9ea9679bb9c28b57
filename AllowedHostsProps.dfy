/** Properties of `patchAllowedHosts`. */
module AllowedHostsProps {
  import opened Wrappers
  import opened Text
  import opened Edits
  import opened VitePatch
  import opened ServerBlockProps
  import opened ServerPortProps

  /** Both texts the patch inserts mention `.<domain>`. */
  lemma InsertionsMentionDomain(d: string)
    ensures Contains(Entry(d) + ", ", "." + d)
    ensures Contains(HostsLine(d), "." + d)
  {
    assert Entry(d) + ", " == "\"" + ("." + d) + ("\"" + ", ");
    ContainsMiddle("\"", "." + d, "\"" + ", ");
    assert HostsLine(d) == "\n    allowedHosts: [\"" + ("." + d) + ("\"" + "],");
    ContainsMiddle("\n    allowedHosts: [\"", "." + d, "\"" + "],");
  }

  /** Whenever `patchAllowedHosts` changes the text, the result mentions `.<domain>`. */
  lemma AllowedHostsLeavesDomain(s: string, d: string)
    ensures AllowedHosts(s, d).text == s || Contains(AllowedHosts(s, d).text, "." + d)
  {
    InsertionsMentionDomain(d);
    if Contains(s, "." + d) || Find(s, HostsTrue).Some? || Find(s, HostsAll).Some? {
    } else if Find(s, HostsList).Some? {
      ContainsInserted(s, Find(s, HostsList).value.end, Entry(d) + ", ", "." + d);
    } else if Find(s, ServerOpen).Some? {
      ContainsInserted(s, Find(s, ServerOpen).value.end, HostsLine(d), "." + d);
    } else {
      EnsureServerBlockAnchors(s);
      var u := EnsureServerBlock(s);
      if Find(u, ServerOpen).Some? {
        assert AllowedHosts(s, d).text == InsertAt(u, Find(u, ServerOpen).value.end, HostsLine(d));
        ContainsInserted(u, Find(u, ServerOpen).value.end, HostsLine(d), "." + d);
      }
    }
  }

  /**
   * Running `patchAllowedHosts` on its own result changes nothing; when the
   * first run changed the text, the second reports the domain as present.
   */
  lemma AllowedHostsIdempotent(s: string, d: string)
    ensures var t := AllowedHosts(s, d).text;
      AllowedHosts(t, d).text == t &&
      (t != s ==> AllowedHosts(t, d).action == "allowedHosts: domain already present")
  {
    AllowedHostsLeavesDomain(s, d);
  }

  /**
   * `patchAllowedHosts` leaves the text unchanged exactly when the domain is
   * already mentioned, the hosts already allow everything, or there is no
   * place to put it: no `allowedHosts: [`, no `server: {`, and neither
   * `defineConfig({` nor `export default {` to create the block after.
   */
  lemma AllowedHostsUnchangedIff(s: string, d: string)
    ensures AllowedHosts(s, d).text == s <==>
      Contains(s, "." + d) || Find(s, HostsTrue).Some? || Find(s, HostsAll).Some? ||
      (Find(s, HostsList).None? && Find(s, ServerOpen).None? &&
       Find(s, DefineConfigOpen).None? && Find(s, ExportDefaultOpen).None?)
  {
    if Contains(s, "." + d) || Find(s, HostsTrue).Some? || Find(s, HostsAll).Some? {
    } else if Find(s, HostsList).Some? {
      assert |AllowedHosts(s, d).text| > |s|;
    } else if Find(s, ServerOpen).Some? {
      assert |AllowedHosts(s, d).text| > |s|;
    } else {
      EnsureServerBlockAnchors(s);
      var u := EnsureServerBlock(s);
      if Find(u, ServerOpen).Some? {
        assert |u| >= |s|;
        assert |AllowedHosts(s, d).text| > |s|;
      }
    }
  }

  /**
   * An `allowedHosts` list: the entry `".<domain>", ` goes right after the `[`
   * of the first list; everything before and after is kept, so the entries
   * already there keep their order, and taking the entry out again gives the
   * original text.
   */
  lemma AppendsToList(s: string, d: string)
    requires !Contains(s, "." + d) && Find(s, HostsTrue).None? && Find(s, HostsAll).None?
    requires Find(s, HostsList).Some?
    ensures var e, x, t := Find(s, HostsList).value.end, Entry(d) + ", ", AllowedHosts(s, d).text;
      0 < e <= |s| && s[e - 1] == '[' &&
      t[..e] == s[..e] && t[e..e + |x|] == x && t[e + |x|..] == s[e..] &&
      Splice(t, e, e + |x|, "") == s &&
      AllowedHosts(s, d).action == "allowedHosts: appended domain"
  {
    var sp := Find(s, HostsList).value;
    EndsOn(s, sp.start, HostsList, '[');
    var x, t := Entry(d) + ", ", AllowedHosts(s, d).text;
    assert t == s[..sp.end] + x + s[sp.end..];
    assert t[..sp.end] == s[..sp.end];
    assert t[sp.end + |x|..] == s[sp.end..];
    assert Splice(t, sp.end, sp.end + |x|, "") == s[..sp.end] + s[sp.end..];
  }

  /**
   * A `server` block but no list: the line `allowedHosts: [".<domain>"],`
   * goes right after the `{` of the first `server: {`, and nothing else changes.
   */
  lemma AddsToServerBlock(s: string, d: string)
    requires !Contains(s, "." + d) && Find(s, HostsTrue).None? && Find(s, HostsAll).None?
    requires Find(s, HostsList).None? && Find(s, ServerOpen).Some?
    ensures var e, x, t := Find(s, ServerOpen).value.end, HostsLine(d), AllowedHosts(s, d).text;
      0 < e <= |s| && s[e - 1] == '{' &&
      t[..e] == s[..e] && t[e..e + |x|] == x && t[e + |x|..] == s[e..] &&
      AllowedHosts(s, d).action == "allowedHosts: added to server block"
  {
    var sp := Find(s, ServerOpen).value;
    EndsOn(s, sp.start, ServerOpen, '{');
    var x, t := HostsLine(d), AllowedHosts(s, d).text;
    assert t == s[..sp.end] + x + s[sp.end..];
    assert t[..sp.end] == s[..sp.end];
    assert t[sp.end + |x|..] == s[sp.end..];
  }

  /**
   * Neither a list nor a `server` block, but a `defineConfig({` or an
   * `export default {`: a `server` block holding only the `allowedHosts` line
   * is created right after that `{`.
   */
  lemma CreatesServerBlock(s: string, d: string)
    requires !Contains(s, "." + d) && Find(s, HostsTrue).None? && Find(s, HostsAll).None?
    requires Find(s, HostsList).None? && Find(s, ServerOpen).None?
    requires Find(s, DefineConfigOpen).Some? || Find(s, ExportDefaultOpen).Some?
    ensures var a := BlockAnchor(s);
      0 < a <= |s| && s[a - 1] == '{' &&
      AllowedHosts(s, d).text == InsertAt(InsertAt(s, a, ServerBlock), a + 12, HostsLine(d))
    ensures AllowedHosts(s, d).action == "allowedHosts: created server block"
  {
    var a := CreatedAnchor(s);
    assert AllowedHosts(s, d).text == InsertAt(EnsureServerBlock(s), a + 12, HostsLine(d));
  }

  /**
   * Where `ensureServerBlock` puts a missing block: right after the `{` of its
   * anchor, and the first `server: {` afterwards is the created one.
   */
  lemma CreatedAnchor(s: string) returns (a: nat)
    requires Find(s, ServerOpen).None?
    requires Find(s, DefineConfigOpen).Some? || Find(s, ExportDefaultOpen).Some?
    ensures a == BlockAnchor(s)
    ensures 0 < a <= |s| && s[a - 1] == '{' && EnsureServerBlock(s) == InsertAt(s, a, ServerBlock)
    ensures Find(EnsureServerBlock(s), ServerOpen).Some? && Find(EnsureServerBlock(s), ServerOpen).value.end == a + 12
  {
    if Find(s, DefineConfigOpen).Some? {
      a := Find(s, DefineConfigOpen).value.end;
      EndsOn(s, Find(s, DefineConfigOpen).value.start, DefineConfigOpen, '{');
    } else {
      a := Find(s, ExportDefaultOpen).value.end;
      EndsOn(s, Find(s, ExportDefaultOpen).value.start, ExportDefaultOpen, '{');
    }
    CreatedOpenEnd(s, a);
  }

  /** The first `server: {` of a created block ends inside it, after its `{`. */
  lemma CreatedOpenEnd(s: string, a: nat)
    requires a <= |s| && Find(s, ServerOpen).None?
    ensures Find(InsertAt(s, a, ServerBlock), ServerOpen).Some?
    ensures Find(InsertAt(s, a, ServerBlock), ServerOpen).value.end == a + 12
  {
    var u := InsertAt(s, a, ServerBlock);
    ServerBlockMatches(s, a);
    var sp := Find(u, ServerOpen).value;
    OnlyCreatedOpen(s, a, sp.start);
  }
}
