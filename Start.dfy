/**
 * The decisions `zdev start` takes before it launches anything: which
 * sub-directory holds the web app, where that is inside the worktree,
 * which ports the worktree gets, which Vite config file it patches, and
 * the older inline patch that lets Traefik reach the Vite dev server. Which
 * paths exist is a parameter (the set `existing`); the processes started
 * and the console output are left out.
 */
module Start {
  import opened Wrappers
  import opened Text
  import opened Config

  // ---------------------------------------------------------------------------
  // `detectWebDir`

  /** The sub-directories `detectWebDir` tries, in order. */
  const CommonDirs: seq<string> := ["web", "frontend", "app", "client", "packages/web", "apps/web"]

  /** The `package.json` of the directory `dir`. */
  function PackageJson(dir: string): string
  {
    PathJoin(dir, "package.json")
  }

  /** The sub-directory `dir` of the worktree `wt` has a `package.json`. */
  predicate HasPackage(wt: string, dir: string, existing: set<string>)
  {
    PackageJson(PathJoin(wt, dir)) in existing
  }

  /** The first of `dirs` with a `package.json`, if any. */
  function FirstWithPackage(wt: string, dirs: seq<string>, existing: set<string>): (r: Option<nat>)
    ensures r.Some? ==> r.value < |dirs| && HasPackage(wt, dirs[r.value], existing)
    ensures r.Some? ==> forall j :: 0 <= j < r.value ==> !HasPackage(wt, dirs[j], existing)
    ensures r.None? ==> forall j :: 0 <= j < |dirs| ==> !HasPackage(wt, dirs[j], existing)
  {
    if dirs == [] then None
    else if HasPackage(wt, dirs[0], existing) then Some(0)
    else
      match FirstWithPackage(wt, dirs[1..], existing)
      case Some(i) => Some(i + 1)
      case None => None
  }

  /** The directory `detectWebDir` settles on. */
  function WebDir(wt: string, existing: set<string>): string
  {
    match FirstWithPackage(wt, CommonDirs, existing)
    case Some(i) => CommonDirs[i]
    case None => if PackageJson(wt) in existing then "." else "web"
  }

  /** `detectWebDir`: tries the common sub-directories in order and stops at the first with a `package.json`. */
  method DetectWebDir(wt: string, existing: set<string>) returns (dir: string)
    ensures dir == WebDir(wt, existing)
  {
    for i := 0 to |CommonDirs|
      invariant forall j :: 0 <= j < i ==> !HasPackage(wt, CommonDirs[j], existing)
    {
      var packagePath := PackageJson(PathJoin(wt, CommonDirs[i]));
      if packagePath in existing {
        dir := CommonDirs[i];
        assert FirstWithPackage(wt, CommonDirs, existing) == Some(i) by {
          FirstIsUnique(wt, CommonDirs, existing, i);
        }
        return;
      }
    }
    if PackageJson(wt) in existing {
      return ".";
    }
    return "web";
  }

  /** The first sub-directory with a `package.json` is the one `FirstWithPackage` names. */
  lemma FirstIsUnique(wt: string, dirs: seq<string>, existing: set<string>, i: nat)
    requires i < |dirs| && HasPackage(wt, dirs[i], existing)
    requires forall j :: 0 <= j < i ==> !HasPackage(wt, dirs[j], existing)
    ensures FirstWithPackage(wt, dirs, existing) == Some(i)
  {
    var r := FirstWithPackage(wt, dirs, existing);
    assert r.Some?;
  }

  /**
   * `detectWebDir` returns the first common sub-directory with a
   * `package.json`; without one, `.` when the worktree itself has a
   * `package.json`, and `web` otherwise.
   */
  lemma WebDirChoice(wt: string, existing: set<string>)
    ensures var d := WebDir(wt, existing);
      (exists i :: 0 <= i < |CommonDirs| && d == CommonDirs[i] && HasPackage(wt, d, existing) &&
         forall j :: 0 <= j < i ==> !HasPackage(wt, CommonDirs[j], existing)) ||
      ((forall j :: 0 <= j < |CommonDirs| ==> !HasPackage(wt, CommonDirs[j], existing)) &&
         d == (if PackageJson(wt) in existing then "." else "web"))
  {
    var r := FirstWithPackage(wt, CommonDirs, existing);
    if r.Some? {
      assert WebDir(wt, existing) == CommonDirs[r.value];
    }
  }

  /** `webDir === "." ? worktreePath : join(worktreePath, webDir)` */
  function WebPath(wt: string, webDir: string): string
  {
    if webDir == "." then wt else PathJoin(wt, webDir)
  }

  /** `options.webDir || detectWebDir(worktreePath)`: an empty option counts as absent. */
  function ChosenWebDir(option: string, wt: string, existing: set<string>): string
  {
    if option != [] then option else WebDir(wt, existing)
  }

  /**
   * Unless it falls back to `web`, the detected directory is where the
   * project's `package.json` is: the web path holds one.
   */
  lemma WebPathHasPackage(wt: string, existing: set<string>)
    ensures var d := WebDir(wt, existing);
      d != "web" || HasPackage(wt, "web", existing) <==> PackageJson(WebPath(wt, d)) in existing
  {
    var r := FirstWithPackage(wt, CommonDirs, existing);
    if r.Some? {
      var d := CommonDirs[r.value];
      assert d != ".";
      if r.value > 0 {
        assert !HasPackage(wt, CommonDirs[0], existing);
      }
    } else {
      assert !HasPackage(wt, CommonDirs[0], existing);
    }
  }

  // ---------------------------------------------------------------------------
  // Ports

  /**
   * The ports `start` uses and the record afterwards: a non-zero explicit
   * port `port` gives the frontend that port and a Convex project that port
   * plus 100 (otherwise 0), and leaves the counters alone; without one the
   * counters are allocated, whether or not the project uses Convex.
   */
  function StartPorts(c: ConfigData, port: nat, hasConvex: bool): (Ports, ConfigData)
  {
    if port != 0 then (Ports(port, if hasConvex then port + 100 else 0), c)
    else (Ports(c.nextFrontendPort, c.nextConvexPort), Allocate(c))
  }

  /** The port choice in `start`, on the loaded configuration object. */
  method ChoosePorts(config: ZdevConfig, port: nat, hasConvex: bool) returns (ports: Ports)
    modifies config
    ensures (ports, config.Data()) == StartPorts(old(config.Data()), port, hasConvex)
  {
    if port != 0 {
      ports := Ports(port, if hasConvex then port + 100 else 0);
    } else {
      ports := config.AllocatePorts();
    }
  }

  /** An explicit port changes no counter, and the Convex port is 100 above the frontend one exactly for a Convex project. */
  lemma ExplicitPort(c: ConfigData, port: nat, hasConvex: bool)
    requires port != 0
    ensures var (p, c') := StartPorts(c, port, hasConvex);
      c' == c && p.frontend == port && (hasConvex <==> p.convex == p.frontend + 100) && (!hasConvex ==> p.convex == 0)
  {
  }

  /**
   * Allocated ports do not depend on the Convex flag: a project without
   * Convex still takes a Convex port, as `allocatePorts` ignores the flag.
   */
  lemma AllocatedIgnoresConvex(c: ConfigData)
    ensures StartPorts(c, 0, true) == StartPorts(c, 0, false)
    ensures StartPorts(c, 0, false).0 == Allocations(c, 1)[0]
    ensures StartPorts(c, 0, false).1.nextConvexPort == c.nextConvexPort + 1
  {
    AllocationsAt(c, 1, 0);
  }

  /** Successive starts without an explicit port hand out the allocations one after another. */
  lemma {:induction false} StartsAllocate(c: ConfigData, n: nat)
    ensures Starts(c, n) == Allocations(c, n)
    decreases n
  {
    if n > 0 {
      StartsAllocate(Allocate(c), n - 1);
    }
  }

  /** The frontend and Convex ports of `n` starts without an explicit port, in order. */
  function Starts(c: ConfigData, n: nat): (r: seq<Ports>)
    ensures |r| == n
    decreases n
  {
    if n == 0 then [] else
      var (p, c') := StartPorts(c, 0, false);
      [p] + Starts(c', n - 1)
  }

  // ---------------------------------------------------------------------------
  // The Vite config file and its older inline patch

  /** `vite.config.ts` when it exists, else `vite.config.js` when that exists, else none. */
  function ViteConfigPath(webPath: string, existing: set<string>): (r: Option<string>)
    ensures r.Some? ==> r.value in existing
    ensures r.None? <==> PathJoin(webPath, "vite.config.ts") !in existing && PathJoin(webPath, "vite.config.js") !in existing
  {
    if PathJoin(webPath, "vite.config.ts") in existing then Some(PathJoin(webPath, "vite.config.ts"))
    else if PathJoin(webPath, "vite.config.js") in existing then Some(PathJoin(webPath, "vite.config.js"))
    else None
  }

  /** What `start` looks for before it inserts anything. */
  const AllowedHostsWord: string := "allowedHosts"

  /** The call the server block goes into. */
  const DefineConfigCall: string := "defineConfig({"

  /** What follows `defineConfig({` after the patch. */
  const LegacyBlock: string := "\n  server: {\n    " + AllowedHostsWord + ": true,\n  },"

  /**
   * The inline patch in `start`: without `allowedHosts` and with
   * `defineConfig({`, the first `defineConfig({` is replaced by itself and
   * a server block that allows every host; otherwise nothing changes.
   */
  function LegacyPatch(s: string): (r: string)
  {
    if Contains(s, AllowedHostsWord) then s
    else
      match Find(s, Lit(DefineConfigCall))
      case Some(sp) => Splice(s, sp.start, sp.end, DefineConfigCall + LegacyBlock)
      case None => s
  }

  /** The replacement puts the block right after the first `defineConfig({`, keeping everything else. */
  lemma LegacyPatchInserts(s: string)
    requires !Contains(s, AllowedHostsWord) && Contains(s, DefineConfigCall)
    ensures var sp := Find(s, Lit(DefineConfigCall)).value;
      sp.end <= |s| && s[sp.start..sp.end] == DefineConfigCall &&
      LegacyPatch(s) == InsertAt(s, sp.end, LegacyBlock)
  {
    var sp := Find(s, Lit(DefineConfigCall)).value;
    MatchLit(s, sp.start, DefineConfigCall);
    SpliceKeeps(s, sp.start, sp.end, LegacyBlock);
  }

  /** The patch changes the text exactly when `allowedHosts` is absent and `defineConfig({` present. */
  lemma LegacyPatchChanges(s: string)
    ensures LegacyPatch(s) != s <==> !Contains(s, AllowedHostsWord) && Contains(s, DefineConfigCall)
  {
    if !Contains(s, AllowedHostsWord) && Contains(s, DefineConfigCall) {
      LegacyPatchInserts(s);
      assert |LegacyPatch(s)| == |s| + |LegacyBlock|;
    }
  }

  /** After the patch the text mentions `allowedHosts`. */
  lemma LegacyPatchMentions(s: string)
    requires LegacyPatch(s) != s
    ensures Contains(LegacyPatch(s), AllowedHostsWord)
  {
    LegacyPatchChanges(s);
    LegacyPatchInserts(s);
    var sp := Find(s, Lit(DefineConfigCall)).value;
    ContainsMiddle("\n  server: {\n    ", AllowedHostsWord, ": true,\n  },");
    ContainsInserted(s, sp.end, LegacyBlock, AllowedHostsWord);
  }

  /** So a second run changes nothing. */
  lemma LegacyPatchIdempotent(s: string)
    ensures LegacyPatch(LegacyPatch(s)) == LegacyPatch(s)
  {
    if LegacyPatch(s) != s {
      LegacyPatchMentions(s);
    }
  }

  /**
   * The patch step of `start` once the config file is chosen: `None` when
   * there is no file or it cannot be read; otherwise the text it writes,
   * if it writes one.
   */
  method LegacyPatchFile(path: Option<string>, content: Option<string>) returns (written: Option<string>)
    ensures written.Some? <==> path.Some? && content.Some? && LegacyPatch(content.value) != content.value
    ensures written.Some? ==> written.value == LegacyPatch(content.value)
  {
    written := None;
    if path.Some? && content.Some? {
      var viteConfig := content.value;
      if !Contains(viteConfig, AllowedHostsWord) {
        if Contains(viteConfig, DefineConfigCall) {
          var sp := Find(viteConfig, Lit(DefineConfigCall)).value;
          viteConfig := Splice(viteConfig, sp.start, sp.end, DefineConfigCall + LegacyBlock);
          written := Some(viteConfig);
        }
      }
      LegacyPatchChanges(content.value);
    }
  }
}
