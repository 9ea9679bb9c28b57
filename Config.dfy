/**
 * The zdev configuration: the record kept in `~/.zdev/config.json`, its
 * defaults, how a stored file is merged over them, the two port counters
 * that hand out ports to new worktrees, and the paths under `~/.zdev`.
 */
module Config {
  import opened Wrappers
  import opened Strings

  /** The process ids a worktree's dev servers run under. */
  datatype Pids = Pids(frontend: Option<int>, convex: Option<int>)

  /** A worktree zdev started, and the ports it holds. */
  datatype Allocation = Allocation(
    project: string, projectPath: string, branch: string, webDir: string,
    frontendPort: int, convexPort: int, funnelPath: string, pids: Pids, started: string)

  /** The configuration record; `copyPatterns` is `None` when the key holds no list. */
  datatype ConfigData = ConfigData(
    nextFrontendPort: int,
    nextConvexPort: int,
    copyPatterns: Option<seq<string>>,
    dockerHostIp: string,
    devDomain: string,
    traefikConfigDir: string,
    allocations: map<string, Allocation>)

  /** `DEFAULT_CONFIG` */
  const DefaultConfig: ConfigData := ConfigData(
    5173,
    3210,
    Some([".env.local", ".env.development", ".env.development.local"]),
    "172.17.0.1",
    "dev.web3citadel.com",
    "/infra/traefik/dynamic",
    map[])

  // ---------------------------------------------------------------------------
  // Loading

  /**
   * The keys a parsed config file holds; `None` for a key the file leaves out.
   * A `copyPatterns` key holding `null` is `Some(None)`.
   */
  datatype ConfigFile = ConfigFile(
    nextFrontendPort: Option<int>,
    nextConvexPort: Option<int>,
    copyPatterns: Option<Option<seq<string>>>,
    dockerHostIp: Option<string>,
    devDomain: Option<string>,
    traefikConfigDir: Option<string>,
    allocations: Option<map<string, Allocation>>)

  /** What is found at the config path. */
  datatype Stored = Missing | Unparseable | Parsed(file: ConfigFile)

  /** The value of one key after `{ ...base, ...file }`. */
  function Override<T>(base: T, key: Option<T>): T
  {
    if key.Some? then key.value else base
  }

  /** `{ ...base, ...file }`: every key the file holds replaces the base's value. */
  function Merge(base: ConfigData, f: ConfigFile): ConfigData
  {
    ConfigData(
      Override(base.nextFrontendPort, f.nextFrontendPort),
      Override(base.nextConvexPort, f.nextConvexPort),
      Override(base.copyPatterns, f.copyPatterns),
      Override(base.dockerHostIp, f.dockerHostIp),
      Override(base.devDomain, f.devDomain),
      Override(base.traefikConfigDir, f.traefikConfigDir),
      Override(base.allocations, f.allocations))
  }

  /** `loadConfig`: the defaults when the file is missing or unparseable, else the file merged over them. */
  function LoadConfig(stored: Stored): ConfigData
  {
    match stored
    case Parsed(f) => Merge(DefaultConfig, f)
    case _ => DefaultConfig
  }

  /** The file `saveConfig` writes for a record: every key present. */
  function Saved(c: ConfigData): ConfigFile
  {
    ConfigFile(Some(c.nextFrontendPort), Some(c.nextConvexPort), Some(c.copyPatterns),
      Some(c.dockerHostIp), Some(c.devDomain), Some(c.traefikConfigDir), Some(c.allocations))
  }

  /** A file with none of the keys. */
  const EmptyFile: ConfigFile := ConfigFile(None, None, None, None, None, None, None)

  /** Loading what was saved gives the saved record back. */
  lemma LoadSaved(c: ConfigData)
    ensures LoadConfig(Parsed(Saved(c))) == c
  {
  }

  /**
   * Each of the seven keys takes the file's value when the file holds it and
   * keeps its default when the file leaves it out; a file with no keys, a
   * missing one and an unparseable one all load as the defaults: counters at
   * 5173 and 3210, three copy patterns, no allocations.
   */
  lemma LoadKeys(stored: Stored)
    ensures stored.Parsed? && stored.file.nextFrontendPort.Some? ==> LoadConfig(stored).nextFrontendPort == stored.file.nextFrontendPort.value
    ensures stored.Parsed? && stored.file.nextFrontendPort.None? ==> LoadConfig(stored).nextFrontendPort == DefaultConfig.nextFrontendPort
    ensures stored.Parsed? && stored.file.nextConvexPort.Some? ==> LoadConfig(stored).nextConvexPort == stored.file.nextConvexPort.value
    ensures stored.Parsed? && stored.file.nextConvexPort.None? ==> LoadConfig(stored).nextConvexPort == DefaultConfig.nextConvexPort
    ensures stored.Parsed? && stored.file.copyPatterns.Some? ==> LoadConfig(stored).copyPatterns == stored.file.copyPatterns.value
    ensures stored.Parsed? && stored.file.copyPatterns.None? ==> LoadConfig(stored).copyPatterns == DefaultConfig.copyPatterns
    ensures stored.Parsed? && stored.file.dockerHostIp.Some? ==> LoadConfig(stored).dockerHostIp == stored.file.dockerHostIp.value
    ensures stored.Parsed? && stored.file.dockerHostIp.None? ==> LoadConfig(stored).dockerHostIp == DefaultConfig.dockerHostIp
    ensures stored.Parsed? && stored.file.devDomain.Some? ==> LoadConfig(stored).devDomain == stored.file.devDomain.value
    ensures stored.Parsed? && stored.file.devDomain.None? ==> LoadConfig(stored).devDomain == DefaultConfig.devDomain
    ensures stored.Parsed? && stored.file.traefikConfigDir.Some? ==> LoadConfig(stored).traefikConfigDir == stored.file.traefikConfigDir.value
    ensures stored.Parsed? && stored.file.traefikConfigDir.None? ==> LoadConfig(stored).traefikConfigDir == DefaultConfig.traefikConfigDir
    ensures stored.Parsed? && stored.file.allocations.Some? ==> LoadConfig(stored).allocations == stored.file.allocations.value
    ensures stored.Parsed? && stored.file.allocations.None? ==> LoadConfig(stored).allocations == DefaultConfig.allocations
    ensures stored == Parsed(EmptyFile) || stored == Missing || stored == Unparseable ==> LoadConfig(stored) == DefaultConfig
    ensures var d := LoadConfig(Missing);
      d.nextFrontendPort == 5173 && d.nextConvexPort == 3210 &&
      d.copyPatterns.Some? && |d.copyPatterns.value| == 3 && d.allocations == map[]
  {
  }

  // ---------------------------------------------------------------------------
  // Allocating ports

  /** The ports handed to one worktree. */
  datatype Ports = Ports(frontend: int, convex: int)

  /** The record after one `allocatePorts`: both counters one larger, nothing else changed. */
  function Allocate(c: ConfigData): (r: ConfigData)
    ensures r.nextFrontendPort == c.nextFrontendPort + 1 && r.nextConvexPort == c.nextConvexPort + 1
    ensures r.(nextFrontendPort := c.nextFrontendPort, nextConvexPort := c.nextConvexPort) == c
  {
    c.(nextFrontendPort := c.nextFrontendPort + 1, nextConvexPort := c.nextConvexPort + 1)
  }

  /** The ports `n` successive allocations hand out, starting from `c`. */
  function Allocations(c: ConfigData, n: nat): (r: seq<Ports>)
    ensures |r| == n
    decreases n
  {
    if n == 0 then [] else [Ports(c.nextFrontendPort, c.nextConvexPort)] + Allocations(Allocate(c), n - 1)
  }

  /** The `i`-th allocation gets the counters' starting values plus `i`. */
  lemma {:induction false} AllocationsAt(c: ConfigData, n: nat, i: nat)
    requires i < n
    ensures Allocations(c, n)[i] == Ports(c.nextFrontendPort + i, c.nextConvexPort + i)
    decreases i
  {
    if i > 0 {
      AllocationsAt(Allocate(c), n - 1, i - 1);
    }
  }

  /** Successive allocations hand out strictly increasing, hence distinct, ports of both kinds. */
  lemma AllocationsIncrease(c: ConfigData, n: nat, i: nat, j: nat)
    requires i < j < n
    ensures Allocations(c, n)[i].frontend < Allocations(c, n)[j].frontend
    ensures Allocations(c, n)[i].convex < Allocations(c, n)[j].convex
  {
    AllocationsAt(c, n, i);
    AllocationsAt(c, n, j);
  }

  /** The configuration object the commands load, change in place and save. */
  class ZdevConfig {
    var nextFrontendPort: int
    var nextConvexPort: int
    var copyPatterns: Option<seq<string>>
    var dockerHostIp: string
    var devDomain: string
    var traefikConfigDir: string
    var allocations: map<string, Allocation>

    /** The record the object holds. */
    function Data(): ConfigData
      reads this
    {
      ConfigData(nextFrontendPort, nextConvexPort, copyPatterns, dockerHostIp, devDomain, traefikConfigDir, allocations)
    }

    /** An object holding `c`, as `loadConfig` returns one. */
    constructor (c: ConfigData)
      ensures Data() == c
    {
      nextFrontendPort := c.nextFrontendPort;
      nextConvexPort := c.nextConvexPort;
      copyPatterns := c.copyPatterns;
      dockerHostIp := c.dockerHostIp;
      devDomain := c.devDomain;
      traefikConfigDir := c.traefikConfigDir;
      allocations := c.allocations;
    }

    /** `allocatePorts`: hands out the counters' current values and moves both on by one. */
    method AllocatePorts() returns (p: Ports)
      modifies this
      ensures p == Ports(old(nextFrontendPort), old(nextConvexPort))
      ensures Data() == Allocate(old(Data()))
    {
      var frontend := nextFrontendPort;
      var convex := nextConvexPort;
      nextFrontendPort := frontend + 1;
      nextConvexPort := convex + 1;
      p := Ports(frontend, convex);
    }
  }

  // ---------------------------------------------------------------------------
  // Paths under `~/.zdev`

  /** `path.join(a, b)`, for an `a` without a trailing separator and a relative `b`. */
  function PathJoin(a: string, b: string): string
  {
    a + "/" + b
  }

  /** `~/.zdev`, for the home directory `home`. */
  function ZdevHome(home: string): string
  {
    PathJoin(home, ".zdev")
  }

  /** `getWorktreePath`: the worktrees directory joined with the name. */
  function WorktreePath(home: string, name: string): string
  {
    PathJoin(PathJoin(ZdevHome(home), "worktrees"), name)
  }

  /** `getSeedPath`: `<project>.zip` in the seeds directory. */
  function SeedPath(home: string, projectName: string): string
  {
    PathJoin(PathJoin(ZdevHome(home), "seeds"), projectName + ".zip")
  }

  /**
   * A worktree path ends in the worktree's name, and different names (without
   * `/`) give different paths.
   */
  lemma WorktreePathNames(home: string, name: string, other: string)
    requires '/' !in name && '/' !in other
    ensures LastSegment(WorktreePath(home, name)) == name
    ensures WorktreePath(home, name) == WorktreePath(home, other) ==> name == other
  {
    LastSegmentJoin(PathJoin(ZdevHome(home), "worktrees"), name);
    LastSegmentJoin(PathJoin(ZdevHome(home), "worktrees"), other);
  }

  /** A seed path's file name is the project name with `.zip`. */
  lemma SeedPathName(home: string, projectName: string)
    requires '/' !in projectName
    ensures LastSegment(SeedPath(home, projectName)) == projectName + ".zip"
  {
    LastSegmentJoin(PathJoin(ZdevHome(home), "seeds"), projectName + ".zip");
  }
}
