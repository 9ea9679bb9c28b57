/**
 * `generateSmartTitle`: the pull request title `zdev pr` makes up when
 * none is given. Changed files name components and areas; the commit
 * messages choose the action word; without any item the first commit or
 * the feature name, title-cased, is the title.
 */
module SmartTitle {
  import opened Wrappers
  import opened Text
  import opened Strings

  // ---------------------------------------------------------------------------
  // File names

  /** `/\.(tsx?|jsx?)$/`: a script extension at the end. */
  predicate HasScriptExt(f: string)
  {
    EndsWith(f, ".ts") || EndsWith(f, ".tsx") || EndsWith(f, ".js") || EndsWith(f, ".jsx")
  }

  /** `/\.(tsx?|jsx?|css|scss)$/`: the files the title looks at. */
  predicate Considered(f: string)
  {
    HasScriptExt(f) || EndsWith(f, ".css") || EndsWith(f, ".scss")
  }

  /** The length of the script extension `f` ends with (`.tsx`, `.jsx` or `.ts`, `.js`). */
  function ScriptExtLength(f: string): nat
    requires HasScriptExt(f)
  {
    if EndsWith(f, ".tsx") || EndsWith(f, ".jsx") then 4 else 3
  }

  /** `.replace(/\.(tsx?|jsx?)$/, "")`: one script extension off the end. */
  function DropScriptExt(f: string): (r: string)
    ensures HasScriptExt(f) ==> |r| == |f| - ScriptExtLength(f) && r == f[..|r|]
    ensures !HasScriptExt(f) ==> r == f
  {
    if HasScriptExt(f) then f[..|f| - ScriptExtLength(f)] else f
  }

  /** `([^/]+)\.(tsx?|jsx?)$` on a path segment: the non-empty name before a script extension. */
  function ScriptBase(seg: string): Option<string>
  {
    if HasScriptExt(seg) && |seg| > ScriptExtLength(seg) then Some(DropScriptExt(seg)) else None
  }

  /**
   * Where `/components\/([^/]+)\/([^/]+)\.(tsx?|jsx?)$/` looks for the
   * file: after the last `/`, when the one before it follows a folder
   * ending in `components` and a non-empty folder lies between the two.
   */
  function NestedSegment(f: string): Option<string>
  {
    var k1 := LastSlash(f, |f|);
    if k1.None? then None
    else
      var k2 := LastSlash(f, k1.value);
      if k2.Some? && k2.value + 1 < k1.value && EndsWith(f[..k2.value], "components")
      then Some(f[k1.value + 1..])
      else None
  }

  /** `/components\/([^/]+)\/([^/]+)\.(tsx?|jsx?)$/`: the non-empty name of the script file `NestedSegment` finds. */
  function NestedComponent(f: string): Option<string>
  {
    var seg := NestedSegment(f);
    if seg.Some? then ScriptBase(seg.value) else None
  }

  /** Where `/components\/([^/]+)\.(tsx?|jsx?)$/` looks for the file: after the last `/`, when it follows a folder ending in `components`. */
  function SingleSegment(f: string): Option<string>
  {
    var k1 := LastSlash(f, |f|);
    if k1.Some? && EndsWith(f[..k1.value], "components") then Some(f[k1.value + 1..]) else None
  }

  /** `/components\/([^/]+)\.(tsx?|jsx?)$/`: the non-empty name of the script file `SingleSegment` finds. */
  function SingleComponent(f: string): Option<string>
  {
    var seg := SingleSegment(f);
    if seg.Some? then ScriptBase(seg.value) else None
  }

  /** `routes\/(.+)\.(tsx?|jsx?)$` can match from `p`: `routes/`, then one line up to a script extension at the end. */
  predicate RouteAt(f: string, p: nat)
  {
    OccursAt(f, "routes/", p) && HasScriptExt(f) && p + 7 + ScriptExtLength(f) < |f| &&
    forall q :: p + 7 <= q < |f| ==> !IsLineTerminator(f[q])
  }

  /** The leftmost position at or after `from` where the route expression matches. */
  function FirstRoute(f: string, from: nat): (r: Option<nat>)
    requires from <= |f|
    ensures r.Some? ==> from <= r.value <= |f| && RouteAt(f, r.value)
    ensures r.Some? ==> forall q :: from <= q < r.value ==> !RouteAt(f, q)
    ensures r.None? ==> forall q :: from <= q <= |f| ==> !RouteAt(f, q)
    decreases |f| - from
  {
    if RouteAt(f, from) then Some(from)
    else if from == |f| then None
    else FirstRoute(f, from + 1)
  }

  /** `.replace(/[[\]$_.]/g, " ")` */
  function RouteSpaces(g: string): (r: string)
    ensures |r| == |g|
    ensures forall i :: 0 <= i < |g| ==> r[i] == if g[i] in "[]$_." then ' ' else g[i]
  {
    if g == [] then [] else [if g[0] in "[]$_." then ' ' else g[0]] + RouteSpaces(g[1..])
  }

  /** The route's name: the captured path with `[ ] $ _ .` as spaces, trimmed. */
  function RouteName(f: string, p: nat): string
    requires RouteAt(f, p)
  {
    Trim(RouteSpaces(f[p + 7..|f| - ScriptExtLength(f)]))
  }

  /** The folders that never name an area. */
  const PlainFolders: seq<string> := ["src", "web", "app", "lib", "utils"]

  /** What one changed file contributes. */
  datatype Item = Component(name: string) | Area(name: string) | Nothing

  /** The last rule: the folder holding the file, split at `/`, unless it is one of `PlainFolders`. */
  function FolderArea(f: string): Item
  {
    var ps := Split(f, '/');
    if |ps| > 1 && ps[|ps| - 2] !in PlainFolders then Area(ps[|ps| - 2]) else Nothing
  }

  /** The loop body of `generateSmartTitle` for one file. */
  function Classify(f: string): (r: Item)
    ensures r != Nothing ==> Considered(f)
  {
    if !Considered(f) then Nothing
    else if NestedComponent(f).Some? then Component(DropScriptExt(NestedComponent(f).value))
    else if SingleComponent(f).Some? then Component(SingleComponent(f).value)
    else if FirstRoute(f, 0).Some? then
      var name := RouteName(f, FirstRoute(f, 0).value);
      if name != [] && name != "index" then Area(name) else Nothing
    else FolderArea(f)
  }

  /** The two sets, in insertion order. */
  datatype Groups = Groups(components: seq<string>, areas: seq<string>)

  /** Adding one file's contribution. */
  function Add(g: Groups, it: Item): Groups
  {
    match it
    case Component(n) => g.(components := AddNew(g.components, n))
    case Area(n) => g.(areas := AddNew(g.areas, n))
    case Nothing => g
  }

  /** What each changed file contributes, in order. */
  function Contributions(files: seq<string>): (r: seq<Item>)
    ensures |r| == |files| && forall i :: 0 <= i < |files| ==> r[i] == Classify(files[i])
  {
    seq(|files|, i requires 0 <= i < |files| => Classify(files[i]))
  }

  /** The two sets after adding the contributions in order. */
  function Gather(items: seq<Item>): (g: Groups)
    ensures NoDuplicates(g.components) && NoDuplicates(g.areas)
  {
    if items == [] then Groups([], [])
    else Add(Gather(items[..|items| - 1]), items[|items| - 1])
  }

  /** The two sets after the loop has seen `files`. */
  function Collect(files: seq<string>): Groups
  {
    Gather(Contributions(files))
  }

  // ---------------------------------------------------------------------------
  // Commits and the feature name

  /** The action word: the first keyword group the lower-cased, joined commit messages mention. */
  function Action(commits: seq<string>): string
  {
    var text := ToLower(Join(commits, " "));
    if Contains(text, "fix") then "Fix"
    else if Contains(text, "add") || Contains(text, "new") then "Add"
    else if Contains(text, "refactor") then "Refactor"
    else if Contains(text, "improve") || Contains(text, "enhance") then "Improve"
    else if Contains(text, "mobile") || Contains(text, "responsive") then "Improve"
    else "Update"
  }

  /** The separators of `.split(/[-_]/)`. */
  predicate IsWordSep(c: char)
  {
    c == '-' || c == '_'
  }

  /** `s.split(/[-_]/)` */
  function SplitWords(s: string): (r: seq<string>)
    ensures |r| >= 1
  {
    if s == [] then [""]
    else
      var rest := SplitWords(s[1..]);
      if IsWordSep(s[0]) then [""] + rest else [[s[0]] + rest[0]] + rest[1..]
  }

  /** `word.charAt(0).toUpperCase() + word.slice(1)` */
  function Capitalize(w: string): string
  {
    if w == [] then [] else [UpperChar(w[0])] + w[1..]
  }

  function CapitalizeAll(ws: seq<string>): (r: seq<string>)
    ensures |r| == |ws| && forall i :: 0 <= i < |ws| ==> r[i] == Capitalize(ws[i])
  {
    seq(|ws|, i requires 0 <= i < |ws| => Capitalize(ws[i]))
  }

  /** The feature name as a title: its words capitalised, joined with spaces. */
  function TitleCase(s: string): string
  {
    Join(CapitalizeAll(SplitWords(s)), " ")
  }

  /** The first three items: components first, then areas. */
  function Items(g: Groups): (r: seq<string>)
    ensures |r| <= 3
  {
    var all := g.components + g.areas;
    if |all| <= 3 then all else all[..3]
  }

  /** `generateSmartTitle` */
  function SmartTitle(files: seq<string>, commits: seq<string>, featureName: string): string
  {
    var items := Items(Collect(files));
    if |items| > 0 then Action(commits) + " " + Join(items, ", ")
    else if |commits| > 0 && Utf16Length(commits[0]) < 72 then commits[0]
    else TitleCase(featureName)
  }

  /** `generateSmartTitle`: the loop over the changed files fills the two sets. */
  method GenerateSmartTitle(files: seq<string>, commits: seq<string>, featureName: string) returns (title: string)
    ensures title == SmartTitle(files, commits, featureName)
  {
    var components: seq<string> := [];
    var areas: seq<string> := [];
    ghost var contributions := Contributions(files);
    for k := 0 to |files|
      invariant Groups(components, areas) == Gather(contributions[..k])
    {
      var file := files[k];
      assert contributions[..k + 1][..k] == contributions[..k];
      if !Considered(file) {
        continue;
      }
      var componentMatch := NestedComponent(file);
      if componentMatch.Some? {
        components := AddNew(components, DropScriptExt(componentMatch.value));
        continue;
      }
      var singleComponent := SingleComponent(file);
      if singleComponent.Some? {
        components := AddNew(components, singleComponent.value);
        continue;
      }
      var routeMatch := FirstRoute(file, 0);
      if routeMatch.Some? {
        var routeName := RouteName(file, routeMatch.value);
        if routeName != [] && routeName != "index" {
          areas := AddNew(areas, routeName);
        }
        continue;
      }
      var pathParts := Split(file, '/');
      if |pathParts| > 1 {
        var folder := pathParts[|pathParts| - 2];
        if folder !in PlainFolders {
          areas := AddNew(areas, folder);
        }
      }
    }
    assert contributions[..|files|] == contributions;
    var items := Items(Groups(components, areas));
    if |items| > 0 {
      return Action(commits) + " " + Join(items, ", ");
    }
    if |commits| > 0 && Utf16Length(commits[0]) < 72 {
      return commits[0];
    }
    return TitleCase(featureName);
  }

  // ---------------------------------------------------------------------------
  // Properties: the two sets

  /**
   * A name is in the components set exactly when some changed file
   * contributes it as a component, and likewise for areas.
   */
  lemma {:induction false} GatherMembers(items: seq<Item>, x: string)
    ensures x in Gather(items).components <==> Component(x) in items
    ensures x in Gather(items).areas <==> Area(x) in items
    decreases |items|
  {
    if items != [] {
      var init := items[..|items| - 1];
      GatherMembers(init, x);
      assert items == init + [items[|items| - 1]];
    }
  }

  /** The sets of `files` hold exactly the names the files contribute. */
  lemma CollectMembers(files: seq<string>, x: string)
    ensures x in Collect(files).components <==> Component(x) in Contributions(files)
    ensures x in Collect(files).areas <==> Area(x) in Contributions(files)
  {
    GatherMembers(Contributions(files), x);
  }

  /** The sets keep insertion order: what was gathered from a prefix stays, in order, at the front. */
  lemma {:induction false} GatherKeepsOrder(items: seq<Item>, k: nat)
    requires k <= |items|
    ensures var g, h := Gather(items[..k]), Gather(items);
      |g.components| <= |h.components| && h.components[..|g.components|] == g.components &&
      |g.areas| <= |h.areas| && h.areas[..|g.areas|] == g.areas
    decreases |items|
  {
    if k < |items| {
      var init := items[..|items| - 1];
      assert init[..k] == items[..k];
      GatherKeepsOrder(init, k);
      var g, m, h := Gather(items[..k]), Gather(init), Gather(items);
      assert h == Add(m, items[|items| - 1]);
      assert h.components[..|m.components|] == m.components;
      assert h.areas[..|m.areas|] == m.areas;
      assert h.components[..|g.components|] == m.components[..|g.components|];
      assert h.areas[..|g.areas|] == m.areas[..|g.areas|];
    } else {
      assert items[..k] == items;
    }
  }

  /**
   * First-seen order: the names collected from the first `k` files stay,
   * in the same order, at the front of both sets.
   */
  lemma CollectKeepsOrder(files: seq<string>, k: nat)
    requires k <= |files|
    ensures var g, h := Collect(files[..k]), Collect(files);
      |g.components| <= |h.components| && h.components[..|g.components|] == g.components &&
      |g.areas| <= |h.areas| && h.areas[..|g.areas|] == g.areas
  {
    assert Contributions(files[..k]) == Contributions(files)[..k];
    GatherKeepsOrder(Contributions(files), k);
  }

  /** A file with an extension the title ignores changes nothing. */
  lemma IgnoredFile(files: seq<string>, f: string, commits: seq<string>, featureName: string)
    requires !Considered(f)
    ensures Collect(files + [f]) == Collect(files)
    ensures SmartTitle(files + [f], commits, featureName) == SmartTitle(files, commits, featureName)
  {
    var items := Contributions(files + [f]);
    assert items[..|files|] == Contributions(files);
    assert items[|files|] == Nothing;
  }

  /** A file that was already listed changes nothing: the sets keep one copy of each name. */
  lemma RepeatedFile(files: seq<string>, f: string, commits: seq<string>, featureName: string)
    requires f in files
    ensures Collect(files + [f]) == Collect(files)
    ensures SmartTitle(files + [f], commits, featureName) == SmartTitle(files, commits, featureName)
  {
    var items := Contributions(files + [f]);
    assert items[..|files|] == Contributions(files);
    assert items == Contributions(files) + [Classify(f)];
    var i :| 0 <= i < |files| && files[i] == f;
    assert Contributions(files)[i] == Classify(f);
    match Classify(f)
    case Component(n) => CollectMembers(files, n);
    case Area(n) => CollectMembers(files, n);
    case Nothing =>
  }

  /**
   * The title names at most three items: the components first, then the
   * areas, each in first-seen order and each contributed by some file.
   */
  lemma ItemsOrigin(files: seq<string>)
    ensures var g, items := Collect(files), Items(Collect(files)); var n := |g.components| + |g.areas|;
      |items| == (if n < 3 then n else 3) &&
      forall i :: 0 <= i < |items| ==>
        (i < |g.components| ==> items[i] == g.components[i] && Component(items[i]) in Contributions(files)) &&
        (i >= |g.components| ==> items[i] == g.areas[i - |g.components|] && Area(items[i]) in Contributions(files))
  {
    ItemsPrefix(Collect(files));
    forall i | 0 <= i < |Items(Collect(files))| {
      ItemOrigin(files, i);
    }
  }

  /** The `i`th item is the `i`th component, or else an area, and some file contributes it. */
  lemma ItemOrigin(files: seq<string>, i: nat)
    requires i < |Items(Collect(files))|
    ensures var g, items := Collect(files), Items(Collect(files));
      (i < |g.components| ==> items[i] == g.components[i] && Component(items[i]) in Contributions(files)) &&
      (i >= |g.components| ==> items[i] == g.areas[i - |g.components|] && Area(items[i]) in Contributions(files))
  {
    var g := Collect(files);
    ItemsPrefix(g);
    CollectMembers(files, Items(g)[i]);
  }

  /** The items are the first (up to three) names of the components followed by the areas. */
  lemma ItemsPrefix(g: Groups)
    ensures var all, items := g.components + g.areas, Items(g);
      |items| == (if |all| < 3 then |all| else 3) && forall i :: 0 <= i < |items| ==> items[i] == all[i]
  {
  }

  /** No item at all exactly when no changed file contributes anything. */
  lemma NoItems(files: seq<string>)
    ensures Items(Collect(files)) == [] <==> forall i :: 0 <= i < |files| ==> Classify(files[i]) == Nothing
  {
    var g := Collect(files);
    var cs := Contributions(files);
    if g.components != [] {
      CollectMembers(files, g.components[0]);
    } else if g.areas != [] {
      CollectMembers(files, g.areas[0]);
    }
    if exists i :: 0 <= i < |files| && Classify(files[i]) != Nothing {
      var i :| 0 <= i < |files| && Classify(files[i]) != Nothing;
      assert cs[i] == Classify(files[i]);
      CollectMembers(files, Classify(files[i]).name);
    }
  }

  /**
   * When no changed file contributes, the title is the first commit
   * message if it is shorter than 72 UTF-16 code units, and otherwise the
   * feature name title-cased character by character.
   */
  lemma FallbackTitle(files: seq<string>, commits: seq<string>, featureName: string)
    requires forall i :: 0 <= i < |files| ==> Classify(files[i]) == Nothing
    ensures SmartTitle(files, commits, featureName) ==
      if |commits| > 0 && Utf16Length(commits[0]) < 72 then commits[0] else TitleChars(featureName)
  {
    NoItems(files);
    TitleCaseChars(featureName);
  }

  /** With at least one item, the title is the action word decided message by message, then the items. */
  lemma ItemsTitle(files: seq<string>, commits: seq<string>, featureName: string)
    requires exists i :: 0 <= i < |files| && Classify(files[i]) != Nothing
    ensures SmartTitle(files, commits, featureName) ==
      ActionByCommit(commits) + " " + Join(Items(Collect(files)), ", ")
  {
    NoItems(files);
    ActionPerCommit(commits);
  }

  // ---------------------------------------------------------------------------
  // Properties: the action word

  /** Some commit message, lower-cased, mentions `w`. */
  predicate Mentioned(commits: seq<string>, w: string)
  {
    exists i :: 0 <= i < |commits| && Contains(ToLower(commits[i]), w)
  }

  /**
   * The lower-cased messages joined with spaces mention a word without
   * spaces exactly when one of the messages does: joining makes no new
   * occurrence across two messages.
   */
  lemma {:induction false} JoinedMentions(commits: seq<string>, w: string)
    requires w != [] && ' ' !in w
    ensures Contains(ToLower(Join(commits, " ")), w) <==> Mentioned(commits, w)
    decreases |commits|
  {
    if |commits| == 0 {
      ContainsIff([], w);
    } else if |commits| == 1 {
      if Contains(ToLower(commits[0]), w) {
        assert 0 < |commits|;
      }
    } else {
      var head, tail := commits[0], commits[1..];
      JoinedMentions(tail, w);
      var rest := Join(tail, " ");
      assert Join(commits, " ") == head + " " + rest;
      ToLowerConcat(head + " ", rest);
      ToLowerConcat(head, " ");
      assert ToLower(" ") == " ";
      ContainsAroundSpace(ToLower(head), ToLower(rest), w);
      if Mentioned(commits, w) {
        var i :| 0 <= i < |commits| && Contains(ToLower(commits[i]), w);
        if i > 0 {
          assert tail[i - 1] == commits[i];
        }
      }
      if Mentioned(tail, w) {
        var i :| 0 <= i < |tail| && Contains(ToLower(tail[i]), w);
        assert commits[i + 1] == tail[i];
      }
      if Contains(ToLower(head), w) {
        assert commits[0] == head;
      }
    }
  }

  /** The action word decided message by message, in the same order of priority. */
  function ActionByCommit(commits: seq<string>): string
  {
    if Mentioned(commits, "fix") then "Fix"
    else if Mentioned(commits, "add") || Mentioned(commits, "new") then "Add"
    else if Mentioned(commits, "refactor") then "Refactor"
    else if Mentioned(commits, "improve") || Mentioned(commits, "enhance") then "Improve"
    else if Mentioned(commits, "mobile") || Mentioned(commits, "responsive") then "Improve"
    else "Update"
  }

  /**
   * The action word read from the joined text is the one decided message
   * by message: `Fix` as soon as any message mentions "fix", whatever the
   * others say, and `Update` when none mentions a keyword.
   */
  lemma ActionPerCommit(commits: seq<string>)
    ensures Action(commits) == ActionByCommit(commits)
  {
    FirstKeywords(commits);
    LastKeywords(commits);
  }

  /** The joined text and the messages agree on the first four keywords. */
  lemma FirstKeywords(commits: seq<string>)
    ensures var text := ToLower(Join(commits, " "));
      (Contains(text, "fix") <==> Mentioned(commits, "fix")) &&
      (Contains(text, "add") <==> Mentioned(commits, "add")) &&
      (Contains(text, "new") <==> Mentioned(commits, "new")) &&
      (Contains(text, "refactor") <==> Mentioned(commits, "refactor"))
  {
    JoinedMentions(commits, "fix");
    JoinedMentions(commits, "add");
    JoinedMentions(commits, "new");
    JoinedMentions(commits, "refactor");
  }

  /** The joined text and the messages agree on the last four keywords. */
  lemma LastKeywords(commits: seq<string>)
    ensures var text := ToLower(Join(commits, " "));
      (Contains(text, "improve") <==> Mentioned(commits, "improve")) &&
      (Contains(text, "enhance") <==> Mentioned(commits, "enhance")) &&
      (Contains(text, "mobile") <==> Mentioned(commits, "mobile")) &&
      (Contains(text, "responsive") <==> Mentioned(commits, "responsive"))
  {
    JoinedMentions(commits, "improve");
    JoinedMentions(commits, "enhance");
    JoinedMentions(commits, "mobile");
    JoinedMentions(commits, "responsive");
  }

  // ---------------------------------------------------------------------------
  // Properties: the feature name as a title

  /**
   * The title-cased feature name, character by character: each `-` or `_`
   * becomes a space, a character at the start or after one of them is
   * upper-cased, and every other character is kept.
   */
  function TitleChars(s: string): (r: string)
    ensures |r| == |s|
  {
    seq(|s|, i requires 0 <= i < |s| =>
      if IsWordSep(s[i]) then ' ' else if i == 0 || IsWordSep(s[i - 1]) then UpperChar(s[i]) else s[i])
  }

  /** `TitleChars` without upper-casing the first character. */
  function InnerChars(s: string): (r: string)
    ensures |r| == |s|
  {
    seq(|s|, i requires 0 <= i < |s| =>
      if IsWordSep(s[i]) then ' ' else if i > 0 && IsWordSep(s[i - 1]) then UpperChar(s[i]) else s[i])
  }

  /** The words joined back with every word but the first capitalised. */
  function JoinRest(s: string): string
  {
    var ws := SplitWords(s);
    Join([ws[0]] + CapitalizeAll(ws[1..]), " ")
  }

  /** Splitting, capitalising each word and joining with spaces is `TitleChars`. */
  lemma TitleCaseChars(s: string)
    ensures TitleCase(s) == TitleChars(s)
  {
    TitleFromRest(s);
    JoinRestInner(s);
    CapitalizeInner(s);
  }

  /** Upper-casing the first character of `InnerChars` gives `TitleChars`. */
  lemma CapitalizeInner(s: string)
    ensures Capitalize(InnerChars(s)) == TitleChars(s)
  {
    var r := InnerChars(s);
    if r != [] {
      assert forall i :: 0 < i < |s| ==> Capitalize(r)[i] == r[i];
    }
  }

  /** The title is `JoinRest` with its first character upper-cased. */
  lemma TitleFromRest(s: string)
    ensures TitleCase(s) == Capitalize(JoinRest(s))
  {
    var ws := SplitWords(s);
    var rest := CapitalizeAll(ws[1..]);
    assert CapitalizeAll(ws) == [Capitalize(ws[0])] + rest;
    if ws[0] == [] {
      if rest != [] {
        assert Join([ws[0]] + rest, " ") == ws[0] + " " + Join(rest, " ");
      }
    } else {
      var x := ws[0][1..];
      assert ws[0] == [ws[0][0]] + x;
      JoinHead(ws[0][0], x, rest, " ");
      JoinHead(UpperChar(ws[0][0]), x, rest, " ");
    }
  }

  /** A first word that starts with `c` puts `c` first. */
  lemma JoinHead(c: char, x: string, rest: seq<string>, sep: string)
    ensures Join([[c] + x] + rest, sep) == [c] + Join([x] + rest, sep)
  {
    if rest != [] {
      assert ([[c] + x] + rest)[1..] == rest;
      assert ([x] + rest)[1..] == rest;
    }
  }

  /** `JoinRest` is `InnerChars`. */
  lemma {:induction false} JoinRestInner(s: string)
    ensures JoinRest(s) == InnerChars(s)
    decreases |s|
  {
    if s != [] {
      var t := s[1..];
      var r := SplitWords(t);
      if IsWordSep(s[0]) {
        assert SplitWords(s)[1..] == r;
        assert CapitalizeAll(r) == [Capitalize(r[0])] + CapitalizeAll(r[1..]);
        assert JoinRest(s) == " " + TitleCase(t);
        JoinRestInner(t);
        TitleFromRest(t);
        CapitalizeInner(t);
        InnerAfterSep(s);
      } else {
        assert SplitWords(s)[1..] == r[1..];
        JoinHead(s[0], r[0], CapitalizeAll(r[1..]), " ");
        JoinRestInner(t);
        InnerCons(s);
      }
    }
  }

  /** `InnerChars` of a text starting with a separator: a space, then the title of the rest. */
  lemma InnerAfterSep(s: string)
    requires s != [] && IsWordSep(s[0])
    ensures InnerChars(s) == " " + TitleChars(s[1..])
  {
    var t := s[1..];
    assert forall i :: 0 < i < |s| ==> t[i - 1] == s[i];
  }

  /** `InnerChars` of a text starting with a word character keeps it. */
  lemma InnerCons(s: string)
    requires s != [] && !IsWordSep(s[0])
    ensures InnerChars(s) == [s[0]] + InnerChars(s[1..])
  {
    var t := s[1..];
    assert forall i :: 0 < i < |s| ==> t[i - 1] == s[i];
  }

  // ---------------------------------------------------------------------------
  // Properties: what one file contributes

  /** A suffix of a path at least as long as `e` ends with `e` exactly when the path does. */
  lemma EndsWithSuffix(f: string, x: string, e: string)
    requires |x| <= |f| && f[|f| - |x|..] == x
    ensures EndsWith(x, e) ==> EndsWith(f, e)
    ensures |e| <= |x| ==> (EndsWith(f, e) <==> EndsWith(x, e))
  {
    if |e| <= |x| {
      assert f[|f| - |e|..] == x[|x| - |e|..];
    }
  }

  /** A path is considered, with the same script extension, when its last segment is. */
  lemma LastSegmentExt(f: string, x: string)
    requires |x| <= |f| && f[|f| - |x|..] == x
    ensures Considered(x) ==> Considered(f)
    ensures ScriptBase(x).Some? ==> HasScriptExt(f) && ScriptExtLength(f) == ScriptExtLength(x)
  {
    EndsWithSuffix(f, x, ".ts");
    EndsWithSuffix(f, x, ".tsx");
    EndsWithSuffix(f, x, ".js");
    EndsWithSuffix(f, x, ".jsx");
    EndsWithSuffix(f, x, ".css");
    EndsWithSuffix(f, x, ".scss");
  }

  /** `Classify` when the nested component expression matches. */
  lemma ClassifyNested(f: string)
    requires Considered(f) && NestedComponent(f).Some?
    ensures Classify(f) == Component(DropScriptExt(NestedComponent(f).value))
  {
  }

  /** `Classify` when only the single component expression matches. */
  lemma ClassifySingle(f: string)
    requires Considered(f) && NestedComponent(f).None? && SingleComponent(f).Some?
    ensures Classify(f) == Component(SingleComponent(f).value)
  {
  }

  /** `Classify` when no component expression matches but the route expression does. */
  lemma ClassifyRoute(f: string)
    requires Considered(f) && NestedComponent(f).None? && SingleComponent(f).None? && FirstRoute(f, 0).Some?
    ensures var name := RouteName(f, FirstRoute(f, 0).value);
      Classify(f) == if name != [] && name != "index" then Area(name) else Nothing
  {
  }

  /** `Classify` when no expression matches: the parent folder. */
  lemma ClassifyFolder(f: string)
    requires Considered(f) && NestedComponent(f).None? && SingleComponent(f).None? && FirstRoute(f, 0).None?
    ensures Classify(f) == FolderArea(f)
  {
  }

  /** A path ending in a considered name is considered. */
  lemma SuffixConsidered(f: string, x: string)
    requires |x| <= |f| && f[|f| - |x|..] == x && Considered(x)
    ensures Considered(f)
  {
    LastSegmentExt(f, x);
  }

  /** A name with a script extension and a non-empty name before it is considered. */
  lemma ScriptConsidered(x: string)
    requires ScriptBase(x).Some?
    ensures Considered(x)
  {
  }

  /** The slashes of `a + "components/" + c + "/" + x` that the nested expression looks at. */
  lemma ComponentLayout(a: string, c: string, x: string)
    requires '/' !in c && '/' !in x
    ensures var f := a + "components/" + c + "/" + x; var k1, k2 := |a| + 11 + |c|, |a| + 10;
      LastSlash(f, |f|) == Some(k1) && LastSlash(f, k1) == Some(k2) &&
      EndsWith(f[..k2], "components") && f[k1 + 1..] == x
  {
    var f := a + "components/" + c + "/" + x;
    var k1, k2 := |a| + 11 + |c|, |a| + 10;
    assert f[k2] == '/' && f[k1] == '/';
    assert forall q :: k1 < q < |f| ==> f[q] == x[q - k1 - 1];
    assert forall q :: k2 < q < k1 ==> f[q] == c[q - k2 - 1];
    LastSlashAt(f, |f|, k1);
    LastSlashAt(f, k1, k2);
    assert f[..k2] == a + "components";
    EndsInComponents(a);
  }

  /** A text ending in `components` ends in `components`. */
  lemma EndsInComponents(a: string)
    ensures EndsWith(a + "components", "components")
  {
    assert (a + "components")[|a|..] == "components";
  }

  /** The nested component expression on `a + "components/" + c + "/" + x`. */
  lemma NestedLayout(a: string, c: string, x: string)
    requires c != [] && '/' !in c && '/' !in x
    ensures NestedComponent(a + "components/" + c + "/" + x) == ScriptBase(x)
  {
    var f := a + "components/" + c + "/" + x;
    ComponentLayout(a, c, x);
    NestedAt(f, |a| + 11 + |c|, |a| + 10);
    NestedOf(f, x);
  }

  /** Where the nested component expression looks, once the last two `/` are known. */
  lemma NestedAt(f: string, k1: nat, k2: nat)
    requires LastSlash(f, |f|).Some? && LastSlash(f, |f|).value == k1
    requires k2 + 1 < k1 && LastSlash(f, k1).Some? && LastSlash(f, k1).value == k2
    requires EndsWith(f[..k2], "components")
    ensures NestedSegment(f) == Some(f[k1 + 1..])
  {
  }

  /** The nested component expression finds the name of the segment it looks at. */
  lemma NestedOf(f: string, x: string)
    requires NestedSegment(f) == Some(x)
    ensures NestedComponent(f) == ScriptBase(x)
  {
  }

  /** A path ending in a file with a script extension and a non-empty name is considered. */
  lemma EndsInScript(a: string, x: string)
    requires ScriptBase(x).Some?
    ensures Considered(a + x)
  {
    var f := a + x;
    assert f[|f| - |x|..] == x;
    ScriptConsidered(x);
    SuffixConsidered(f, x);
  }

  /**
   * `.../components/<group>/<file>` contributes the name of `<file>`
   * without its script extension, and without a second one if that name
   * has one too; the folder only has to end in `components`.
   */
  lemma ComponentFile(a: string, c: string, x: string)
    requires c != [] && '/' !in c && '/' !in x && ScriptBase(x).Some?
    ensures Classify(a + "components/" + c + "/" + x) == Component(DropScriptExt(ScriptBase(x).value))
  {
    NestedLayout(a, c, x);
    EndsInScript(a + "components/" + c + "/", x);
    ClassifyNested(a + "components/" + c + "/" + x);
  }

  /**
   * The last slash of `b + d + "/" + x` follows `d`, and the one before it,
   * if any, ends `b`.
   */
  lemma SlashesAround(b: string, d: string, x: string)
    requires '/' !in d && '/' !in x && (b == [] || b[|b| - 1] == '/')
    ensures var f := b + d + "/" + x; var k1 := |b| + |d|;
      LastSlash(f, |f|) == Some(k1) && f[..k1] == b + d && f[k1 + 1..] == x &&
      LastSlash(f, k1) == (if b == [] then None else Some(|b| - 1)) &&
      (b != [] ==> f[..|b| - 1] == b[..|b| - 1])
  {
    var f := b + d + "/" + x;
    var k1 := |b| + |d|;
    assert f[k1] == '/';
    assert forall q :: k1 < q < |f| ==> f[q] == x[q - k1 - 1];
    LastSlashAt(f, |f|, k1);
    assert forall q :: |b| <= q < k1 ==> f[q] == d[q - |b|];
    if b != [] {
      assert f[|b| - 1] == '/';
      LastSlashAt(f, k1, |b| - 1);
    }
    assert f[..k1] == b + d;
  }

  /** `b` is empty or ends in a `/` after a folder not ending in `components`. */
  predicate PlainPrefix(b: string)
  {
    b == [] || (b[|b| - 1] == '/' && !EndsWith(b[..|b| - 1], "components"))
  }

  /**
   * On `b + dir + "/" + x`, the last `/` follows `dir` and the nested
   * component expression does not match: no folder ending in `components`
   * comes before `dir`.
   */
  lemma PlainLayout(b: string, dir: string, x: string)
    requires '/' !in dir && '/' !in x && PlainPrefix(b)
    ensures var f := b + dir + "/" + x; var k1 := |b| + |dir|;
      LastSlash(f, |f|).Some? && LastSlash(f, |f|).value == k1 && f[..k1] == b + dir && f[k1 + 1..] == x &&
      NestedComponent(f).None?
  {
    var f := b + dir + "/" + x;
    SlashesAround(b, dir, x);
    NestedNoneAt(f, |b| + |dir|);
  }

  /** The single component expression on `b + dir + "/" + x`, when `dir` ends in `components`. */
  lemma SingleLayoutDir(b: string, dir: string, x: string)
    requires '/' !in dir && '/' !in x && PlainPrefix(b) && EndsWith(dir, "components")
    ensures var f := b + dir + "/" + x; NestedComponent(f).None? && SingleComponent(f) == ScriptBase(x)
  {
    var f := b + dir + "/" + x;
    PlainLayout(b, dir, x);
    EndsWithTail(b, dir, "components");
    SingleAt(f, |b| + |dir|);
    SingleOf(f, x);
  }

  /** Only the single component expression on `b + d + "components/" + x`. */
  lemma SingleLayout(b: string, d: string, x: string)
    requires '/' !in d && '/' !in x && PlainPrefix(b)
    ensures var f := b + d + "components/" + x; NestedComponent(f).None? && SingleComponent(f) == ScriptBase(x)
  {
    var dir := d + "components";
    assert '/' !in dir by {
      assert forall q :: |d| <= q < |dir| ==> dir[q] == "components"[q - |d|];
    }
    EndsInComponents(d);
    assert b + d + "components/" + x == b + dir + "/" + x;
    SingleLayoutDir(b, dir, x);
  }

  /** Where the single component expression looks, once the last `/` is known. */
  lemma SingleAt(f: string, k1: nat)
    requires LastSlash(f, |f|).Some? && LastSlash(f, |f|).value == k1 && EndsWith(f[..k1], "components")
    ensures SingleSegment(f) == Some(f[k1 + 1..])
  {
  }

  /** The single component expression finds the name of the segment it looks at. */
  lemma SingleOf(f: string, x: string)
    requires SingleSegment(f) == Some(x)
    ensures SingleComponent(f) == ScriptBase(x)
  {
  }

  /** The single component expression fails when the last `/` does not follow a folder ending in `components`. */
  lemma SingleNoneAt(f: string, k1: nat)
    requires LastSlash(f, |f|).Some? && LastSlash(f, |f|).value == k1 && !EndsWith(f[..k1], "components")
    ensures SingleSegment(f).None? && SingleComponent(f).None?
  {
  }

  /** The nested component expression fails when no `/` before the last one follows a folder ending in `components`. */
  lemma NestedNoneAt(f: string, k1: nat)
    requires LastSlash(f, |f|).Some? && LastSlash(f, |f|).value == k1
    requires LastSlash(f, k1).None? || !EndsWith(f[..LastSlash(f, k1).value], "components")
    ensures NestedSegment(f).None? && NestedComponent(f).None?
  {
  }

  /**
   * `.../components/<file>` contributes the name of `<file>` without its
   * script extension, unless the folder above ends in `components` as well.
   */
  lemma SingleComponentFile(b: string, d: string, x: string)
    requires '/' !in d && '/' !in x && ScriptBase(x).Some? && PlainPrefix(b)
    ensures Classify(b + d + "components/" + x) == Component(ScriptBase(x).value)
  {
    SingleLayout(b, d, x);
    EndsInScript(b + d + "components/", x);
    ClassifySingle(b + d + "components/" + x);
  }

  /** Neither component expression on `b + folder + "/" + x` when `folder` does not end in `components`. */
  lemma FolderLayout(b: string, folder: string, x: string)
    requires '/' !in folder && '/' !in x && PlainPrefix(b) && !EndsWith(folder, "components")
    ensures var f := b + folder + "/" + x; NestedComponent(f).None? && SingleComponent(f).None?
  {
    PlainLayout(b, folder, x);
    PlainNotComponents(b, folder);
    SingleNoneAt(b + folder + "/" + x, |b| + |folder|);
  }

  /** A folder not ending in `components` after an empty prefix or a `/` does not end in it either. */
  lemma PlainNotComponents(b: string, folder: string)
    requires '/' !in folder && PlainPrefix(b) && !EndsWith(folder, "components")
    ensures !EndsWith(b + folder, "components")
  {
    if |folder| >= 10 {
      EndsWithTail(b, folder, "components");
    } else if b != [] && |b + folder| >= 10 {
      var t := b + folder;
      assert t[|t| - 10..][|b| - 1 - (|t| - 10)] == b[|b| - 1] == '/';
    }
  }

  /** A text ends like its last part when that part is at least as long as the ending. */
  lemma EndsWithTail(b: string, d: string, e: string)
    requires |e| <= |d|
    ensures EndsWith(b + d, e) <==> EndsWith(d, e)
  {
    assert (b + d)[|b + d| - |e|..] == d[|d| - |e|..];
  }

  /** `folder/x` splits into its two names. */
  lemma SplitPair(folder: string, x: string)
    requires '/' !in folder && '/' !in x
    ensures Split(folder + "/" + x, '/') == [folder, x]
  {
    assert folder + "/" + x == folder + ['/'] + x;
    SplitAcross(folder, '/', x);
    SplitNone(folder, '/');
    SplitNone(x, '/');
  }

  /** The next to last element of `ps + [a, b]` is `a`. */
  lemma LastTwo(ps: seq<string>, a: string, b: string)
    ensures var r := ps + [a, b]; |r| >= 2 && r[|r| - 2] == a
  {
  }

  /** The last two segments of `b + folder + "/" + x`. */
  lemma FolderSegments(b: string, folder: string, x: string)
    requires '/' !in folder && '/' !in x && (b == [] || b[|b| - 1] == '/')
    ensures var ps := Split(b + folder + "/" + x, '/'); |ps| >= 2 && ps[|ps| - 2] == folder
  {
    SplitPair(folder, x);
    if b == [] {
      assert b + folder + "/" + x == folder + "/" + x;
    } else {
      var b', rest := b[..|b| - 1], folder + "/" + x;
      assert b + folder + "/" + x == b' + ['/'] + rest;
      SplitAcross(b', '/', rest);
      LastTwo(Split(b', '/'), folder, x);
    }
  }

  /**
   * Any other considered file without `routes/` in its path contributes
   * its parent folder as an area, unless the folder is `src`, `web`, `app`,
   * `lib` or `utils`.
   */
  lemma FolderFile(b: string, folder: string, x: string)
    requires '/' !in folder && '/' !in x && Considered(x) && !EndsWith(folder, "components") && PlainPrefix(b)
    requires !Contains(b + folder + "/" + x, "routes/")
    ensures Classify(b + folder + "/" + x) == if folder in PlainFolders then Nothing else Area(folder)
  {
    var f := b + folder + "/" + x;
    FolderLayout(b, folder, x);
    FolderSegments(b, folder, x);
    assert f[|f| - |x|..] == x;
    SuffixConsidered(f, x);
    NoRoute(f);
    ClassifyFolder(f);
  }

  /** Without `routes/` in the path, the route expression never matches. */
  lemma NoRoute(f: string)
    requires !Contains(f, "routes/")
    ensures FirstRoute(f, 0).None?
  {
    ContainsIff(f, "routes/");
  }

  /** The name before a script extension. */
  lemma ScriptBaseOf(n: string, e: string)
    requires n != [] && e in [".ts", ".tsx", ".js", ".jsx"]
    ensures ScriptBase(n + e) == Some(n)
  {
    var x := n + e;
    assert x[|x| - |e|..] == e;
    assert x[..|n|] == n;
    if e == ".ts" || e == ".js" {
      assert x[|x| - 1] == 's';
      assert !EndsWith(x, ".tsx") && !EndsWith(x, ".jsx") by {
        assert x[|x| - 4..][3] == x[|x| - 1];
      }
    }
  }

  /**
   * `<prefix>routes/<path><ext>` contributes the area named by `<path>`,
   * nested folders included, with `[ ] $ _ .` as spaces, trimmed, unless
   * that is empty or `index`. `routes/` must first occur after the prefix,
   * and neither component expression may match (see `NoComponentsFolder`).
   */
  lemma RouteFile(b: string, x: string)
    requires ScriptBase(x).Some? && forall q :: 0 <= q < |x| ==> !IsLineTerminator(x[q])
    requires !Contains(b + "routes", "routes/")
    requires NestedComponent(b + "routes/" + x).None? && SingleComponent(b + "routes/" + x).None?
    ensures var name := Trim(RouteSpaces(ScriptBase(x).value));
      Classify(b + "routes/" + x) == if name != [] && name != "index" then Area(name) else Nothing
  {
    var f := b + "routes/" + x;
    RouteFirst(b, x);
    ClassifyRoute(f);
  }

  /** Neither component expression matches a path with no folder ending in `components`. */
  lemma NoComponentsFolder(f: string)
    requires !Contains(f, "components/")
    ensures NestedComponent(f).None? && SingleComponent(f).None?
  {
    ContainsIff(f, "components/");
    var k1 := LastSlash(f, |f|);
    if k1.Some? {
      EndsInComponentsAt(f, k1.value);
      var k2 := LastSlash(f, k1.value);
      if k2.Some? {
        EndsInComponentsAt(f, k2.value);
      }
    }
  }

  /** The folder before a `/` ends in `components` exactly when `components/` occurs there. */
  lemma EndsInComponentsAt(f: string, k: nat)
    requires k < |f| && f[k] == '/'
    ensures EndsWith(f[..k], "components") <==> k >= 10 && OccursAt(f, "components/", k - 10)
  {
    if k >= 10 {
      var w := f[k - 10..k + 1];
      assert f[..k][k - 10..] == w[..10];
      assert "components/"[..10] == "components";
      if w == "components/" {
        assert w[..10] == "components";
      }
      if w[..10] == "components" {
        assert w == w[..10] + [f[k]];
      }
    }
  }

  /** On `routes/<file>` neither component expression matches: its only folder is `routes`. */
  lemma RoutePath(x: string)
    requires '/' !in x
    ensures NestedComponent("routes/" + x).None? && SingleComponent("routes/" + x).None?
  {
    var f := "routes/" + x;
    assert f[6] == '/';
    assert forall q :: 6 < q < |f| ==> f[q] == x[q - 7];
    LastSlashAt(f, |f|, 6);
    assert |f[..6]| < |"components"|;
  }

  /**
   * On `<prefix>routes/<path>`, the route expression first matches after the
   * prefix and captures `<path>` without its extension.
   */
  lemma RouteFirst(b: string, x: string)
    requires ScriptBase(x).Some? && forall q :: 0 <= q < |x| ==> !IsLineTerminator(x[q])
    requires !Contains(b + "routes", "routes/")
    ensures Considered(b + "routes/" + x) && FirstRoute(b + "routes/" + x, 0) == Some(|b|)
    ensures RouteName(b + "routes/" + x, |b|) == Trim(RouteSpaces(ScriptBase(x).value))
  {
    var f := b + "routes/" + x;
    EndsInScript(b + "routes/", x);
    RouteExt(f, b, x);
    RouteMatch(f, b, x);
    RouteNotBefore(f, b, x);
    FirstRouteAt(f, |b|);
    RouteCapture(f, |b|, x);
    RouteNameOf(f, |b|, ScriptBase(x).value);
  }

  /** The name the route expression gives is made from the text it captures. */
  lemma RouteNameOf(f: string, p: nat, g: string)
    requires RouteAt(f, p) && f[p + 7..|f| - ScriptExtLength(f)] == g
    ensures RouteName(f, p) == Trim(RouteSpaces(g))
  {
  }

  /** The leftmost position the route expression can match from is the one it matches from. */
  lemma FirstRouteAt(f: string, p: nat)
    requires RouteAt(f, p) && forall q :: 0 <= q < p ==> !RouteAt(f, q)
    ensures FirstRoute(f, 0) == Some(p)
  {
  }

  /** The route expression captures `<path>` from `routes/<path>` at `p`. */
  lemma RouteCapture(f: string, p: nat, x: string)
    requires ScriptBase(x).Some? && HasScriptExt(f) && ScriptExtLength(f) == ScriptExtLength(x)
    requires |f| == p + 7 + |x| && f[p + 7..] == x
    ensures f[p + 7..|f| - ScriptExtLength(f)] == ScriptBase(x).value
  {
    assert f[p + 7..|f| - ScriptExtLength(f)] == f[p + 7..][..|x| - ScriptExtLength(x)];
  }

  /** `<prefix>routes/<path>` has the script extension of `<path>`. */
  lemma RouteExt(f: string, b: string, x: string)
    requires f == b + "routes/" + x && ScriptBase(x).Some?
    ensures HasScriptExt(f) && ScriptExtLength(f) == ScriptExtLength(x)
    ensures |f| == |b| + 7 + |x| && f[|b| + 7..] == x && f[|b|..|b| + 7] == "routes/"
  {
    assert f[|f| - |x|..] == x;
    LastSegmentExt(f, x);
  }

  /** The route expression matches `<prefix>routes/<path>` after the prefix. */
  lemma RouteMatch(f: string, b: string, x: string)
    requires ScriptBase(x).Some? && forall q :: 0 <= q < |x| ==> !IsLineTerminator(x[q])
    requires HasScriptExt(f) && ScriptExtLength(f) == ScriptExtLength(x)
    requires |f| == |b| + 7 + |x| && f[|b| + 7..] == x && f[|b|..|b| + 7] == "routes/"
    ensures RouteAt(f, |b|)
  {
    assert forall q :: |b| + 7 <= q < |f| ==> f[q] == x[q - |b| - 7];
  }

  /** No `routes/` starts inside the prefix when `<prefix>routes` holds none. */
  lemma RouteNotBefore(f: string, b: string, x: string)
    requires f == b + "routes/" + x && !Contains(b + "routes", "routes/")
    ensures forall q :: 0 <= q < |b| ==> !RouteAt(f, q)
  {
    var h := b + "routes";
    ContainsIff(h, "routes/");
    assert f[..|h|] == h;
    forall q | 0 <= q < |b|
      ensures !OccursAt(f, "routes/", q)
    {
      assert !OccursAt(h, "routes/", q);
      assert f[q..q + 7] == f[..|h|][q..q + 7];
    }
  }
}
