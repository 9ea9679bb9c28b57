/**
 * The logic of `utils.ts` that is not process or file I/O: the repository
 * name read from the origin URL, the worktree list read from
 * `git worktree list --porcelain`, the Traefik route file, and the Traefik
 * and Tailscale status records. Whether an external command succeeded,
 * what it printed and whether a file write succeeded are parameters.
 */
module Utils {
  import opened Wrappers
  import opened Text
  import opened Strings

  // ---------------------------------------------------------------------------
  // `getRepoName`

  /**
   * `/\/([^\/]+?)(\.git)?$/` can match at `p` with a group of `n`
   * characters: a `/` at `p`, then `n >= 1` characters other than `/`,
   * then the end of the text or exactly `.git` up to the end.
   */
  predicate RepoMatch(url: string, p: nat, n: nat)
  {
    p + 1 + n <= |url| && url[p] == '/' && n >= 1 &&
    (forall q :: p < q <= p + n ==> url[q] != '/') &&
    (p + 1 + n == |url| || url[p + 1 + n..] == ".git")
  }

  /**
   * The name `getRepoName` reads from the trimmed origin URL: what follows
   * the last `/`, without one trailing `.git` unless nothing else is left.
   */
  function RepoNameFromUrl(url: string): (r: Option<string>)
    ensures r.Some? ==> r.value != [] && '/' !in r.value
  {
    var k := LastSlash(url, |url|);
    if k.None? || k.value + 1 == |url| then None
    else
      var seg := url[k.value + 1..];
      if |seg| > 4 && EndsWith(seg, ".git") then Some(seg[..|seg| - 4]) else Some(seg)
  }

  /** `getRepoName`: the name from the URL `git remote get-url origin` prints, else the base name of the path. */
  function GetRepoName(gitOk: bool, stdout: string, pathBaseName: string): (r: string)
    ensures !gitOk ==> r == pathBaseName
  {
    if gitOk && RepoNameFromUrl(Trim(stdout)).Some? then RepoNameFromUrl(Trim(stdout)).value else pathBaseName
  }

  /** A match can only start at the last `/`: one before it would leave a `/` after the group. */
  lemma RepoMatchAtLast(url: string, p: nat, n: nat)
    requires RepoMatch(url, p, n)
    ensures LastSlash(url, |url|) == Some(p) && RepoNameFromUrl(url).Some?
  {
    forall q | p < q < |url|
      ensures url[q] != '/'
    {
      if q > p + n {
        assert url[q] == url[p + 1 + n..][q - (p + 1 + n)];
      }
    }
    LastSlashAt(url, |url|, p);
  }

  /** The match behind a name: at the last `/`, with the group as short as the `.git` ending allows. */
  lemma RepoNameWitness(url: string) returns (p: nat, n: nat)
    requires RepoNameFromUrl(url).Some?
    ensures RepoMatch(url, p, n) && RepoNameFromUrl(url).value == url[p + 1..p + 1 + n]
    ensures forall n': nat :: n' < n ==> !RepoMatch(url, p, n')
  {
    p := LastSlash(url, |url|).value;
    var seg := url[p + 1..];
    n := if |seg| > 4 && EndsWith(seg, ".git") then |seg| - 4 else |seg|;
    assert url[p + 1..p + 1 + n] == seg[..n];
    if n < |seg| {
      assert url[p + 1 + n..] == seg[|seg| - 4..];
    }
    forall n': nat | n' < n
      ensures !RepoMatch(url, p, n')
    {
      if 1 <= n' && |url| - (p + 1 + n') == 4 {
        assert url[p + 1 + n'..] == seg[|seg| - 4..];
      }
    }
  }

  /**
   * `RepoNameFromUrl` is what the regular expression captures: no match
   * gives no name; otherwise the name is the group of the leftmost match,
   * taken as short as the lazy `+?` allows.
   */
  lemma RepoNameIsMatch(url: string)
    ensures RepoNameFromUrl(url).None? <==> forall p: nat, n: nat :: !RepoMatch(url, p, n)
    ensures RepoNameFromUrl(url).Some? ==>
      exists p: nat, n: nat :: RepoMatch(url, p, n) && RepoNameFromUrl(url).value == url[p + 1..p + 1 + n] &&
        (forall p': nat, n': nat :: p' < p ==> !RepoMatch(url, p', n')) &&
        (forall n': nat :: n' < n ==> !RepoMatch(url, p, n'))
  {
    forall p: nat, n: nat | RepoMatch(url, p, n)
      ensures LastSlash(url, |url|) == Some(p) && RepoNameFromUrl(url).Some?
    {
      RepoMatchAtLast(url, p, n);
    }
    if RepoNameFromUrl(url).Some? {
      var p, n := RepoNameWitness(url);
    }
  }

  /** The name of a repository whose URL ends in `/<name>.git`. */
  lemma RepoNameGit(a: string, name: string)
    requires name != [] && '/' !in name
    ensures RepoNameFromUrl(a + "/" + name + ".git") == Some(name)
  {
    var url := a + "/" + name + ".git";
    var k := |a|;
    assert url[k] == '/';
    assert forall q :: k < q < |url| ==> url[q] == (name + ".git")[q - k - 1];
    assert '/' !in name + ".git";
    LastSlashAt(url, |url|, k);
    var seg := url[k + 1..];
    assert seg == name + ".git";
    assert seg[|seg| - 4..] == ".git";
    assert seg[..|seg| - 4] == name;
  }

  /** The name of a repository whose URL ends in `/<name>` without `.git`. */
  lemma RepoNamePlain(a: string, name: string)
    requires name != [] && '/' !in name && !EndsWith(name, ".git")
    ensures RepoNameFromUrl(a + "/" + name) == Some(name)
  {
    var url := a + "/" + name;
    var k := |a|;
    assert url[k] == '/';
    assert forall q :: k < q < |url| ==> url[q] == name[q - k - 1];
    LastSlashAt(url, |url|, k);
    assert url[k + 1..] == name;
  }

  /** A URL ending in `/`, or without any `/`, gives no name: `getRepoName` falls back to the base name. */
  lemma RepoNameFallback(gitOk: bool, stdout: string, pathBaseName: string)
    requires var url := Trim(stdout); '/' !in url || url[|url| - 1] == '/'
    ensures GetRepoName(gitOk, stdout, pathBaseName) == pathBaseName
  {
    var url := Trim(stdout);
    var k := LastSlash(url, |url|);
    if k.Some? {
      assert url[|url| - 1] == '/';
      assert k.value == |url| - 1;
    }
  }

  // ---------------------------------------------------------------------------
  // `listWorktrees`

  /** The prefix of the porcelain lines that name a worktree. */
  const WorktreePrefix: string := "worktree "

  /** `line.replace("worktree ", "")`: the first occurrence of the prefix removed. */
  function RemovePrefix(line: string): string
  {
    var m := Find(line, Lit(WorktreePrefix));
    if m.Some? then line[..m.value.start] + line[m.value.end..] else line
  }

  /** On a line that starts with the prefix, the first occurrence is that one: the rest of the line is left. */
  lemma RemovePrefixAtStart(line: string)
    requires StartsWith(line, WorktreePrefix)
    ensures RemovePrefix(line) == line[|WorktreePrefix|..]
  {
    MatchLit(line, 0, WorktreePrefix);
    var m := Find(line, Lit(WorktreePrefix));
    assert m.Some? && m.value.start == 0;
    MatchLit(line, 0, WorktreePrefix);
  }

  /** What one porcelain line adds to the list. */
  function WorktreeEntry(line: string): (r: seq<string>)
    ensures StartsWith(line, WorktreePrefix) ==> r == [line[|WorktreePrefix|..]]
    ensures !StartsWith(line, WorktreePrefix) ==> r == []
  {
    if StartsWith(line, WorktreePrefix) then
      RemovePrefixAtStart(line);
      [RemovePrefix(line)]
    else []
  }

  /** The paths the loop of `listWorktrees` has collected after the lines `lines`. */
  function WorktreePaths(lines: seq<string>): (r: seq<string>)
    ensures |r| <= |lines|
  {
    if lines == [] then [] else WorktreePaths(lines[..|lines| - 1]) + WorktreeEntry(lines[|lines| - 1])
  }

  /** `listWorktrees`: the paths named by the `worktree ` lines of the porcelain output, or none when git fails. */
  method ListWorktrees(gitOk: bool, stdout: string) returns (worktrees: seq<string>)
    ensures worktrees == if gitOk then WorktreePaths(Split(stdout, '\n')) else []
  {
    if !gitOk {
      return [];
    }
    worktrees := [];
    var lines := Split(stdout, '\n');
    for i := 0 to |lines|
      invariant worktrees == WorktreePaths(lines[..i])
    {
      assert lines[..i + 1][..i] == lines[..i];
      var line := lines[i];
      if StartsWith(line, WorktreePrefix) {
        worktrees := worktrees + [RemovePrefix(line)];
      }
    }
    assert lines[..|lines|] == lines;
  }

  /** The lines are read one after another: the paths of two runs of lines follow each other. */
  lemma {:induction false} WorktreePathsConcat(a: seq<string>, b: seq<string>)
    ensures WorktreePaths(a + b) == WorktreePaths(a) + WorktreePaths(b)
    decreases |b|
  {
    if b == [] {
      assert a + b == a;
    } else {
      var b' := b[..|b| - 1];
      assert (a + b)[..|a + b| - 1] == a + b';
      WorktreePathsConcat(a, b');
    }
  }

  /** `line` is `worktree ` followed by `x`. */
  predicate NamesWorktree(line: string, x: string)
  {
    StartsWith(line, WorktreePrefix) && line[|WorktreePrefix|..] == x
  }

  /** A path is listed exactly when some line is `worktree ` followed by it. */
  lemma {:induction false} WorktreePathsMembers(lines: seq<string>, x: string)
    ensures x in WorktreePaths(lines) <==> exists i :: 0 <= i < |lines| && NamesWorktree(lines[i], x)
    decreases |lines|
  {
    if lines != [] {
      var init, last := lines[..|lines| - 1], lines[|lines| - 1];
      WorktreePathsMembers(init, x);
      assert x in WorktreePaths(lines) <==> x in WorktreePaths(init) || NamesWorktree(last, x);
      if x in WorktreePaths(init) {
        var i :| 0 <= i < |init| && NamesWorktree(init[i], x);
        assert lines[i] == init[i];
      }
      if exists i :: 0 <= i < |lines| && NamesWorktree(lines[i], x) {
        var i :| 0 <= i < |lines| && NamesWorktree(lines[i], x);
        if i < |init| {
          assert init[i] == lines[i];
        }
      }
    }
  }

  /** One worktree as the porcelain format prints it: its `worktree` line, then attribute lines (HEAD, branch, a blank line). */
  datatype WorktreeRecord = WorktreeRecord(path: string, attributes: seq<string>)

  /** The lines of the porcelain output for `rs`. */
  function RecordLines(rs: seq<WorktreeRecord>): seq<string>
  {
    if rs == [] then [] else RecordLines(rs[..|rs| - 1]) + ([WorktreePrefix + rs[|rs| - 1].path] + rs[|rs| - 1].attributes)
  }

  /** The paths of `rs`, in order. */
  function RecordPaths(rs: seq<WorktreeRecord>): (r: seq<string>)
    ensures |r| == |rs| && forall i :: 0 <= i < |rs| ==> r[i] == rs[i].path
  {
    if rs == [] then [] else RecordPaths(rs[..|rs| - 1]) + [rs[|rs| - 1].path]
  }

  /** No line of `lines` is a `worktree` line. */
  predicate NoWorktreeLine(lines: seq<string>)
  {
    forall j :: 0 <= j < |lines| ==> !StartsWith(lines[j], WorktreePrefix)
  }

  /** No attribute line looks like a `worktree` line. */
  predicate PlainAttributes(rs: seq<WorktreeRecord>)
  {
    forall i :: 0 <= i < |rs| ==> NoWorktreeLine(rs[i].attributes)
  }

  /** Reading the lines of the porcelain output gives back the paths of the worktrees, in order. */
  lemma {:induction false} RecordsListed(rs: seq<WorktreeRecord>)
    requires PlainAttributes(rs)
    ensures WorktreePaths(RecordLines(rs)) == RecordPaths(rs)
    decreases |rs|
  {
    if rs != [] {
      var init, last := rs[..|rs| - 1], rs[|rs| - 1];
      assert forall i :: 0 <= i < |init| ==> init[i] == rs[i];
      RecordsListed(init);
      var a, b := RecordLines(init), [WorktreePrefix + last.path] + last.attributes;
      assert RecordLines(rs) == a + b;
      WorktreePathsConcat([WorktreePrefix + last.path], last.attributes);
      OneWorktreeLine(last.path);
      AttributesSkipped(last.attributes);
      assert WorktreePaths(b) == [last.path];
      WorktreePathsConcat(a, b);
    }
  }

  /** A `worktree` line lists its path. */
  lemma OneWorktreeLine(x: string)
    ensures WorktreePaths([WorktreePrefix + x]) == [x]
  {
    var line := WorktreePrefix + x;
    assert line[..|WorktreePrefix|] == WorktreePrefix && line[|WorktreePrefix|..] == x;
    var none: seq<string> := [];
    assert [line][..0] == none;
  }

  /** Lines that do not start with the prefix add nothing. */
  lemma {:induction false} AttributesSkipped(lines: seq<string>)
    requires NoWorktreeLine(lines)
    ensures WorktreePaths(lines) == []
    decreases |lines|
  {
    if lines != [] {
      AttributesSkipped(lines[..|lines| - 1]);
    }
  }

  /**
   * `listWorktrees` on the porcelain output of some worktrees, whose paths
   * and attribute lines hold no line break, returns their paths in order.
   */
  lemma PorcelainRoundTrip(rs: seq<WorktreeRecord>)
    requires PlainAttributes(rs)
    requires forall i :: 0 <= i < |rs| ==> '\n' !in rs[i].path
    requires forall i, j :: 0 <= i < |rs| && 0 <= j < |rs[i].attributes| ==> '\n' !in rs[i].attributes[j]
    ensures WorktreePaths(Split(Join(RecordLines(rs), "\n"), '\n')) == RecordPaths(rs)
  {
    RecordsListed(rs);
    var lines := RecordLines(rs);
    if lines == [] {
      assert WorktreePaths([""]) == [] by {
        var none: seq<string> := [];
        assert [""][..0] == none;
      }
    } else {
      RecordLinesPlain(rs);
      SplitJoin(lines, '\n');
    }
  }

  /** The porcelain lines of records without line breaks hold no line break. */
  lemma {:induction false} RecordLinesPlain(rs: seq<WorktreeRecord>)
    requires forall i :: 0 <= i < |rs| ==> '\n' !in rs[i].path
    requires forall i, j :: 0 <= i < |rs| && 0 <= j < |rs[i].attributes| ==> '\n' !in rs[i].attributes[j]
    ensures forall i :: 0 <= i < |RecordLines(rs)| ==> '\n' !in RecordLines(rs)[i]
    decreases |rs|
  {
    if rs != [] {
      var init, last := rs[..|rs| - 1], rs[|rs| - 1];
      assert forall i :: 0 <= i < |init| ==> init[i] == rs[i];
      RecordLinesPlain(init);
      var line := WorktreePrefix + last.path;
      assert '\n' !in line by {
        assert forall q :: 0 <= q < |line| ==> line[q] == (if q < |WorktreePrefix| then WorktreePrefix[q] else last.path[q - |WorktreePrefix|]);
      }
      var all := RecordLines(init) + ([line] + last.attributes);
      assert forall i :: 0 <= i < |all| ==> '\n' !in all[i] by {
        forall i | 0 <= i < |all|
          ensures '\n' !in all[i]
        {
          if i < |RecordLines(init)| {
            assert all[i] == RecordLines(init)[i];
          } else if i > |RecordLines(init)| {
            assert all[i] == last.attributes[i - |RecordLines(init)| - 1];
          }
        }
      }
    }
  }

  // ---------------------------------------------------------------------------
  // `traefikAddRoute`

  /** The router rule: `Host(`<name>.<devDomain>`)`. */
  function HostRule(name: string, devDomain: string): string
  {
    "Host(`" + name + "." + devDomain + "`)"
  }

  /** The server URL: `http://<dockerHostIp>:<port>`. */
  function ServerUrl(dockerHostIp: string, port: nat): string
  {
    "http://" + dockerHostIp + ":" + NatToString(port)
  }

  /** The router's name and its rule. */
  function RouterRule(name: string, devDomain: string): string
  {
    "    " + name + ":\n      rule: \"" + HostRule(name, devDomain) + "\"\n"
  }

  /** The router's service line. */
  function ServiceRef(name: string): string
  {
    "      service: " + name + "\n"
  }

  /** The router part of the route file. */
  function RouterBlock(name: string, devDomain: string): string
  {
    "  routers:\n" + RouterRule(name, devDomain) +
    ("      entrypoints:\n        - websecure\n" + ServiceRef(name) + "      tls:\n        certResolver: myresolver\n")
  }

  /** The service's name. */
  function ServiceName(name: string): string
  {
    "  services:\n    " + name + ":\n"
  }

  /** The line with the server's URL. */
  function UrlLine(dockerHostIp: string, port: nat): string
  {
    "          - url: \"" + ServerUrl(dockerHostIp, port) + "\"\n"
  }

  /** The service part of the route file. */
  function ServiceBlock(name: string, dockerHostIp: string, port: nat): string
  {
    ServiceName(name) + "      loadBalancer:\n        servers:\n" + UrlLine(dockerHostIp, port)
  }

  /** The YAML that `traefikAddRoute` writes for the route `name`. */
  function RouteYaml(name: string, devDomain: string, dockerHostIp: string, port: nat): string
  {
    "# zdev auto-generated config for " + name + "\nhttp:\n" +
    RouterBlock(name, devDomain) + ("\n" + ServiceBlock(name, dockerHostIp, port))
  }

  /** What `traefikAddRoute` does: the file it writes, with what, and what it returns. */
  datatype RouteWrite = RouteWrite(path: string, contents: string, ok: bool)

  /** `traefikAddRoute`: the route file under the Traefik directory; `true` exactly when the write succeeds. */
  function TraefikAddRoute(traefikConfigDir: string, devDomain: string, dockerHostIp: string, name: string, port: nat, writeOk: bool): (r: RouteWrite)
    ensures r.ok == writeOk
  {
    RouteWrite(traefikConfigDir + "/" + name + ".yml", RouteYaml(name, devDomain, dockerHostIp, port), writeOk)
  }

  /**
   * The route file names the router after the route, gives it the rule
   * `Host(`<name>.<devDomain>`)`, and points it at the service of the same
   * name.
   */
  lemma RouteRouter(name: string, devDomain: string, dockerHostIp: string, port: nat)
    ensures var y := RouteYaml(name, devDomain, dockerHostIp, port);
      Contains(y, RouterRule(name, devDomain)) && Contains(y, ServiceRef(name))
  {
    var head := "# zdev auto-generated config for " + name + "\nhttp:\n";
    var tail := "\n" + ServiceBlock(name, dockerHostIp, port);
    var entry := "      entrypoints:\n        - websecure\n";
    var tls := "      tls:\n        certResolver: myresolver\n";
    ContainsMiddle("  routers:\n", RouterRule(name, devDomain), entry + ServiceRef(name) + tls);
    ContainsWithin(head, RouterBlock(name, devDomain), tail, RouterRule(name, devDomain));
    ContainsMiddle(entry, ServiceRef(name), tls);
    ContainsAfter("  routers:\n" + RouterRule(name, devDomain), entry + ServiceRef(name) + tls, ServiceRef(name));
    ContainsWithin(head, RouterBlock(name, devDomain), tail, ServiceRef(name));
  }

  /** The route file declares the service under the route's name, sending to `http://<dockerHostIp>:<port>`. */
  lemma RouteService(name: string, devDomain: string, dockerHostIp: string, port: nat)
    ensures var y := RouteYaml(name, devDomain, dockerHostIp, port);
      Contains(y, ServiceName(name)) && Contains(y, UrlLine(dockerHostIp, port))
  {
    var head := "# zdev auto-generated config for " + name + "\nhttp:\n" + RouterBlock(name, devDomain);
    var lb := ServiceName(name) + "      loadBalancer:\n        servers:\n";
    var sb := ServiceBlock(name, dockerHostIp, port);
    ContainsEnds(ServiceName(name), "      loadBalancer:\n        servers:\n");
    ContainsBefore(lb, UrlLine(dockerHostIp, port), ServiceName(name));
    ContainsEnds(lb, UrlLine(dockerHostIp, port));
    ContainsAfter("\n", sb, ServiceName(name));
    ContainsAfter(head, "\n" + sb, ServiceName(name));
    ContainsAfter("\n", sb, UrlLine(dockerHostIp, port));
    ContainsAfter(head, "\n" + sb, UrlLine(dockerHostIp, port));
  }

  /** The URL carries the port in decimal: its digits after the last `:` read back as the port. */
  lemma ServerUrlPort(dockerHostIp: string, port: nat)
    ensures var u, d := ServerUrl(dockerHostIp, port), NatToString(port);
      u == "http://" + dockerHostIp + ":" + d && DigitsValue(d) == port
  {
    NatToStringRoundTrip(port);
  }

  // ---------------------------------------------------------------------------
  // `getTraefikStatus` and `getTailscaleStatus`

  /** What `getTraefikStatus` returns. */
  datatype TraefikStatus = TraefikStatus(baseUrl: Option<string>, running: bool, devDomain: string)

  /** `getTraefikStatus`, given whether the curl to the Traefik API succeeded and what it printed. */
  function GetTraefikStatus(devDomain: string, curlOk: bool, stdout: string): (r: TraefikStatus)
    ensures r.baseUrl.Some? <==> r.running
    ensures r.devDomain == devDomain
  {
    var running := curlOk && Trim(stdout) == "200";
    TraefikStatus(if running then Some("https://*." + devDomain) else None, running, devDomain)
  }

  /** An HTTP status 200 printed with any white space around it means Traefik runs and serves `*.<devDomain>`. */
  lemma TraefikRunning(devDomain: string, before: string, after: string)
    requires forall q :: 0 <= q < |before| ==> IsSpace(before[q])
    requires forall q :: 0 <= q < |after| ==> IsSpace(after[q])
    ensures GetTraefikStatus(devDomain, true, before + "200" + after) == TraefikStatus(Some("https://*." + devDomain), true, devDomain)
  {
    TrimAround(before, "200", after);
  }

  /** A failed curl, or any other status code, means Traefik is not running and there is no base URL. */
  lemma TraefikNotRunning(devDomain: string, curlOk: bool, stdout: string)
    requires !curlOk || Trim(stdout) != "200"
    ensures GetTraefikStatus(devDomain, curlOk, stdout) == TraefikStatus(None, false, devDomain)
  {
  }

  /**
   * The JSON `tailscale status --json` printed, as far as the status reads
   * it: `Unreadable` when parsing or reading `Self.DNSName` throws (not
   * JSON, JSON `null`, or a `DNSName` that is not a string); otherwise the
   * DNS name if there is one.
   */
  datatype TailscaleJson = Unreadable | Status(dnsName: Option<string>)

  /** What `getTailscaleStatus` returns. */
  datatype TailscaleStatus = TailscaleStatus(baseUrl: Option<string>, running: bool)

  /** `.replace(/\.$/, "")`: one `.` off the end. */
  function DropTrailingDot(s: string): (r: string)
    ensures s != [] && s[|s| - 1] == '.' ==> s == r + "."
    ensures s == [] || s[|s| - 1] != '.' ==> r == s
  {
    if s != [] && s[|s| - 1] == '.' then s[..|s| - 1] else s
  }

  /** `getTailscaleStatus`, given whether the command succeeded and what its output parses to. */
  function GetTailscaleStatus(ok: bool, json: TailscaleJson): (r: TailscaleStatus)
    ensures r.baseUrl.Some? ==> r.running
  {
    if !ok || json.Unreadable? then TailscaleStatus(None, false)
    else
      match json.dnsName
      case None => TailscaleStatus(None, true)
      case Some(n) =>
        var d := DropTrailingDot(n);
        TailscaleStatus(if d != [] then Some("https://" + d) else None, true)
  }

  /** The machine's DNS name `<host>.` gives the base URL `https://<host>`: one trailing dot is dropped, no more. */
  lemma TailscaleUrl(host: string)
    requires host != []
    ensures GetTailscaleStatus(true, Status(Some(host + "."))) == TailscaleStatus(Some("https://" + host), true)
  {
    assert (host + ".")[..|host|] == host;
  }

  /** A failed command or unreadable output means Tailscale is not running. */
  lemma TailscaleNotRunning(ok: bool, json: TailscaleJson)
    ensures GetTailscaleStatus(ok, json).running <==> ok && json.Status?
  {
  }
}
