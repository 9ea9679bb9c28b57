/**
 * The Vite config patcher: edits the unparsed text of a `vite.config.*` file so
 * that a worktree's dev server accepts the dev domain, listens on its own port
 * and gives the TanStack devtools event bus its own port.
 *
 * Every regular expression of the patcher is one fixed `Pattern` of the `Text`
 * module. The two expressions with a negated class (`[^}]*`, `[^)]*`) are
 * described by witness predicates (every way the expression can match) and by
 * selection functions that pick the match a JavaScript regex picks: the
 * leftmost start, then the greediest class.
 */
module VitePatch {
  import opened Wrappers
  import opened Text
  import opened Strings

  // ---------------------------------------------------------------------------
  // The patterns

  /** `server\s*:\s*\{` */
  const ServerOpen: Pattern := Lit("server") + [Gap(false, Is(':')), Gap(false, Is('{'))]

  /** `defineConfig\s*\(\s*\{` */
  const DefineConfigOpen: Pattern := Lit("defineConfig") + [Gap(false, Is('(')), Gap(false, Is('{'))]

  /** `export\s+default\s*\{` */
  const ExportDefaultOpen: Pattern := Lit("export") + [Gap(true, Is('d'))] + Lit("efault") + [Gap(false, Is('{'))]

  /** `allowedHosts\s*:\s*true` */
  const HostsTrue: Pattern := Lit("allowedHosts") + [Gap(false, Is(':')), Gap(false, Is('t'))] + Lit("rue")

  /** `allowedHosts\s*:\s*["']all["']` */
  const HostsAll: Pattern :=
    Lit("allowedHosts") + [Gap(false, Is(':')), Gap(false, Either('"', '\''))] + Lit("all") + [One(Either('"', '\''))]

  /** `allowedHosts\s*:\s*\[` */
  const HostsList: Pattern := Lit("allowedHosts") + [Gap(false, Is(':')), Gap(false, Is('['))]

  /** `devtools\s*\(` */
  const DevtoolsParen: Pattern := Lit("devtools") + [Gap(false, Is('('))]

  /** `devtools\s*\(\s*\)` */
  const DevtoolsEmpty: Pattern := DevtoolsParen + [Gap(false, Is(')'))]

  /** `devtools\s*\(\s*\{` */
  const DevtoolsObject: Pattern := DevtoolsParen + [Gap(false, Is('{'))]

  /** `eventBusConfig\s*:\s*\{` */
  const EventBusOpen: Pattern := Lit("eventBusConfig") + [Gap(false, Is(':')), Gap(false, Is('{'))]

  /** `port\s*:` */
  const PortColon: Pattern := Lit("port") + [Gap(false, Is(':'))]

  /** `port\s*:\s*\d`: a match ends just after the first digit of the value. */
  const PortValue: Pattern := PortColon + [Gap(false, Digit)]

  /** The tail of the two composite expressions: `port\s*:` for the test, `port\s*:\s*\d` for the replacement. */
  function PortTail(value: bool): Pattern
  {
    if value then PortValue else PortColon
  }

  // ---------------------------------------------------------------------------
  // `server\s*:\s*\{[^}]*\bport\s*:` and `(server\s*:\s*\{[^}]*\bport\s*:\s*)\d+`

  /** The end of the `server: {` match at `i`, or `i` when there is none. */
  function ServerOpenEnd(s: string, i: nat): nat
    requires i <= |s|
  {
    match MatchAt(s, i, ServerOpen)
    case Some(k) => k
    case None => i
  }

  /** `\bport` can start at `m`: `m` is at the start or follows a non-word character. */
  predicate BoundaryBefore(s: string, m: nat)
    requires m <= |s|
  {
    m == 0 || !IsWordChar(s[m - 1])
  }

  /** `\bport\s*:` (and, with `value`, `\s*\d`) matches at `m`. */
  predicate ServerPortSite(s: string, m: nat, value: bool)
    requires m <= |s|
  {
    BoundaryBefore(s, m) && MatchAt(s, m, PortTail(value)).Some?
  }

  /**
   * One way for the server-port expression to match: `server: {` at `i`, then
   * text free of `}`, then the `port` site at `m`.
   */
  predicate ServerPortAt(s: string, i: nat, m: nat, value: bool)
  {
    i <= m <= |s| && MatchAt(s, i, ServerOpen).Some? &&
    ServerOpenEnd(s, i) <= m && '}' !in s[ServerOpenEnd(s, i)..m] &&
    ServerPortSite(s, m, value)
  }

  /** The greedy `[^}]*`: the last site at or below `m` and at or above `k`. */
  function LastServerPortSite(s: string, k: nat, m: nat, value: bool): (r: Option<nat>)
    requires k <= m <= |s|
    ensures r.Some? ==> k <= r.value <= m && ServerPortSite(s, r.value, value)
    ensures r.Some? ==> forall m': nat :: r.value < m' <= m ==> !ServerPortSite(s, m', value)
    ensures r.None? ==> forall m': nat :: k <= m' <= m ==> !ServerPortSite(s, m', value)
    decreases m - k
  {
    if ServerPortSite(s, m, value) then Some(m)
    else if m == k then None
    else LastServerPortSite(s, k, m - 1, value)
  }

  /** The match the expression makes when it starts at `i`: the site with the largest `m`. */
  function ServerPortFrom(s: string, i: nat, value: bool): (r: Option<nat>)
    requires i <= |s|
    ensures r.Some? ==> ServerPortAt(s, i, r.value, value)
    ensures r.Some? ==> forall m: nat :: ServerPortAt(s, i, m, value) ==> m <= r.value
    ensures r.None? ==> forall m: nat :: !ServerPortAt(s, i, m, value)
  {
    match MatchAt(s, i, ServerOpen)
    case None => None
    case Some(k) =>
      var z := UpTo(s, k, '}');
      var r := LastServerPortSite(s, k, z, value);
      forall m | k <= m <= |s|
        ensures '}' !in s[k..m] <==> m <= z
      {
        UpToBound(s, k, m, '}');
      }
      r
  }

  /** Where a match of one of the composite expressions starts and where its `port` is. */
  datatype Site = Site(start: nat, port: nat)

  /** The leftmost start at or after `from`, and for it the greediest match. */
  function ServerPortSearch(s: string, from: nat, value: bool): (r: Option<Site>)
    requires from <= |s|
    ensures r.Some? ==> from <= r.value.start && ServerPortAt(s, r.value.start, r.value.port, value)
    ensures r.Some? ==> forall i: nat, m: nat :: from <= i && ServerPortAt(s, i, m, value) ==>
                          r.value.start < i || (r.value.start == i && m <= r.value.port)
    ensures r.None? ==> forall i: nat, m: nat :: from <= i && ServerPortAt(s, i, m, value) ==> false
    decreases |s| - from
  {
    match ServerPortFrom(s, from, value)
    case Some(m) => Some(Site(from, m))
    case None => if from == |s| then None else ServerPortSearch(s, from + 1, value)
  }

  /**
   * The match of the server-port expression: `value == false` gives the test
   * `/server\s*:\s*\{[^}]*\bport\s*:/`, `value == true` the replaced expression.
   */
  function ServerPortMatch(s: string, value: bool): (r: Option<Site>)
    ensures r.Some? ==> ServerPortAt(s, r.value.start, r.value.port, value)
    ensures r.Some? ==> forall i: nat, m: nat :: ServerPortAt(s, i, m, value) ==>
                          r.value.start < i || (r.value.start == i && m <= r.value.port)
    ensures r.None? ==> forall i: nat, m: nat :: ServerPortAt(s, i, m, value) ==> false
  {
    ServerPortSearch(s, 0, value)
  }

  // ---------------------------------------------------------------------------
  // `devtools\s*\([^)]*eventBusConfig\s*:\s*\{[^}]*port\s*:` and its `\s*\d+` form

  /** The end of the `devtools(` match at `i`, or `i` when there is none. */
  function DevtoolsParenEnd(s: string, i: nat): nat
    requires i <= |s|
  {
    match MatchAt(s, i, DevtoolsParen)
    case Some(k) => k
    case None => i
  }

  /** The end of the `eventBusConfig: {` match at `m`, or `m` when there is none. */
  function EventBusOpenEnd(s: string, m: nat): nat
    requires m <= |s|
  {
    match MatchAt(s, m, EventBusOpen)
    case Some(k) => k
    case None => m
  }

  /**
   * The part of the devtools expression after `[^)]*`: `eventBusConfig: {` at
   * `m1`, text free of `}`, then `port\s*:` (with `value`, `port\s*:\s*\d`) at `m2`.
   */
  predicate EventBusPortAt(s: string, m1: nat, m2: nat, value: bool)
  {
    m1 <= m2 <= |s| && MatchAt(s, m1, EventBusOpen).Some? &&
    EventBusOpenEnd(s, m1) <= m2 && '}' !in s[EventBusOpenEnd(s, m1)..m2] &&
    MatchAt(s, m2, PortTail(value)).Some?
  }

  /** One way for the devtools expression to match: `devtools(` at `i`, text free of `)`, then the rest at `m1`. */
  predicate DevtoolsPortAt(s: string, i: nat, m1: nat, m2: nat, value: bool)
  {
    i <= m1 <= |s| && MatchAt(s, i, DevtoolsParen).Some? &&
    DevtoolsParenEnd(s, i) <= m1 && ')' !in s[DevtoolsParenEnd(s, i)..m1] &&
    EventBusPortAt(s, m1, m2, value)
  }

  /** The greedy `[^}]*` after the `eventBusConfig: {` at `m1`: the last `port` at or below `m2`. */
  function LastEventBusPort(s: string, m1: nat, m2: nat, value: bool): (r: Option<nat>)
    requires m1 <= |s| && EventBusOpenEnd(s, m1) <= m2 <= |s|
    ensures r.Some? ==> EventBusOpenEnd(s, m1) <= r.value <= m2 && MatchAt(s, r.value, PortTail(value)).Some?
    ensures r.Some? ==> forall m: nat :: r.value < m <= m2 ==> MatchAt(s, m, PortTail(value)).None?
    ensures r.None? ==> forall m: nat :: EventBusOpenEnd(s, m1) <= m <= m2 ==> MatchAt(s, m, PortTail(value)).None?
    decreases m2
  {
    if MatchAt(s, m2, PortTail(value)).Some? then Some(m2)
    else if m2 == EventBusOpenEnd(s, m1) then None
    else LastEventBusPort(s, m1, m2 - 1, value)
  }

  /** The match of the part after `[^)]*` when it starts at `m1`: the largest `m2`. */
  function EventBusPortFrom(s: string, m1: nat, value: bool): (r: Option<nat>)
    requires m1 <= |s|
    ensures r.Some? ==> EventBusPortAt(s, m1, r.value, value)
    ensures r.Some? ==> forall m2: nat :: EventBusPortAt(s, m1, m2, value) ==> m2 <= r.value
    ensures r.None? ==> forall m2: nat :: !EventBusPortAt(s, m1, m2, value)
  {
    match MatchAt(s, m1, EventBusOpen)
    case None => None
    case Some(k) =>
      var z := UpTo(s, k, '}');
      forall m | k <= m <= |s|
        ensures '}' !in s[k..m] <==> m <= z
      {
        UpToBound(s, k, m, '}');
      }
      LastEventBusPort(s, m1, z, value)
  }

  /** The greedy `[^)]*`: the largest `m1` at or below `m1` (and at or above `k`) from which the rest matches. */
  function LastEventBus(s: string, k: nat, m1: nat, value: bool): (r: Option<Site>)
    requires k <= m1 <= |s|
    ensures r.Some? ==> k <= r.value.start <= m1 && EventBusPortAt(s, r.value.start, r.value.port, value)
    ensures r.Some? ==> forall m2: nat :: EventBusPortAt(s, r.value.start, m2, value) ==> m2 <= r.value.port
    ensures r.Some? ==> forall m: nat, m2: nat :: r.value.start < m <= m1 ==> !EventBusPortAt(s, m, m2, value)
    ensures r.None? ==> forall m: nat, m2: nat :: k <= m <= m1 ==> !EventBusPortAt(s, m, m2, value)
    decreases m1 - k
  {
    match EventBusPortFrom(s, m1, value)
    case Some(m2) => Some(Site(m1, m2))
    case None => if m1 == k then None else LastEventBus(s, k, m1 - 1, value)
  }

  /** A match of the devtools expression: where `devtools(` starts, and the positions of `eventBusConfig` and `port`. */
  datatype DevtoolsSite = DevtoolsSite(start: nat, bus: nat, port: nat)

  /** Whether `w` comes before `(i, m1, m2)` in the order the regex tries: leftmost, then greediest. */
  predicate Precedes(w: DevtoolsSite, i: nat, m1: nat, m2: nat)
  {
    w.start < i || (w.start == i && (w.bus > m1 || (w.bus == m1 && w.port >= m2)))
  }

  /** The match of the devtools expression when it starts at `i`. */
  function DevtoolsPortFrom(s: string, i: nat, value: bool): (r: Option<DevtoolsSite>)
    requires i <= |s|
    ensures r.Some? ==> r.value.start == i && DevtoolsPortAt(s, i, r.value.bus, r.value.port, value)
    ensures r.Some? ==> forall m1: nat, m2: nat :: DevtoolsPortAt(s, i, m1, m2, value) ==> Precedes(r.value, i, m1, m2)
    ensures r.None? ==> forall m1: nat, m2: nat :: !DevtoolsPortAt(s, i, m1, m2, value)
  {
    match MatchAt(s, i, DevtoolsParen)
    case None => None
    case Some(k) =>
      var z := UpTo(s, k, ')');
      forall m | k <= m <= |s|
        ensures ')' !in s[k..m] <==> m <= z
      {
        UpToBound(s, k, m, ')');
      }
      match LastEventBus(s, k, z, value)
      case None => None
      case Some(w) => Some(DevtoolsSite(i, w.start, w.port))
  }

  /** The leftmost, then greediest, match at or after `from`. */
  function DevtoolsPortSearch(s: string, from: nat, value: bool): (r: Option<DevtoolsSite>)
    requires from <= |s|
    ensures r.Some? ==> from <= r.value.start && DevtoolsPortAt(s, r.value.start, r.value.bus, r.value.port, value)
    ensures r.Some? ==> forall i: nat, m1: nat, m2: nat :: from <= i && DevtoolsPortAt(s, i, m1, m2, value) ==> Precedes(r.value, i, m1, m2)
    ensures r.None? ==> forall i: nat, m1: nat, m2: nat :: from <= i && DevtoolsPortAt(s, i, m1, m2, value) ==> false
    decreases |s| - from
  {
    match DevtoolsPortFrom(s, from, value)
    case Some(w) => Some(w)
    case None => if from == |s| then None else DevtoolsPortSearch(s, from + 1, value)
  }

  /**
   * The match of the devtools expression: `value == false` gives the test,
   * `value == true` the expression whose digits are replaced.
   */
  function DevtoolsPortMatch(s: string, value: bool): (r: Option<DevtoolsSite>)
    ensures r.Some? ==> DevtoolsPortAt(s, r.value.start, r.value.bus, r.value.port, value)
    ensures r.Some? ==> forall i: nat, m1: nat, m2: nat :: DevtoolsPortAt(s, i, m1, m2, value) ==> Precedes(r.value, i, m1, m2)
    ensures r.None? ==> forall i: nat, m1: nat, m2: nat :: DevtoolsPortAt(s, i, m1, m2, value) ==> false
  {
    DevtoolsPortSearch(s, 0, value)
  }

  // ---------------------------------------------------------------------------
  // Replacing the digits of a `port:` value

  /** The position of the first digit of the value whose `port\s*:\s*\d` match starts at `m`. */
  function ValueStart(s: string, m: nat): (d: nat)
    requires m <= |s| && MatchAt(s, m, PortValue).Some?
    ensures m < d < |s| && IsDigit(s[d])
    ensures forall q :: m < q < d ==> !IsDigit(s[q])
    ensures MatchAt(s, m, PortValue) == Some(d + 1)
    ensures MatchAt(s, m, PortColon).Some? && d == SkipSpaces(s, MatchAt(s, m, PortColon).value)
  {
    MatchConcat(s, m, PortColon, [Gap(false, Digit)]);
    var c := MatchAt(s, m, PortColon).value;
    MatchChars(s, m, PortColon);
    var d := SkipSpaces(s, c);
    assert MatchAt(s, d + 1, []) == Some(d + 1);
    forall q | m < q < d
      ensures !IsDigit(s[q])
    {
      if q >= c {
        assert IsSpace(s[q]);
      } else {
        var k :| 0 <= k < |PortColon| && PieceAdmits(PortColon[k], s[q]);
      }
    }
    d
  }

  /** `s` with the run of digits starting at `d` replaced by the decimal form of `port`. */
  function ReplaceDigits(s: string, d: nat, port: nat): (r: string)
    requires d <= |s|
    ensures var e, n := DigitRunEnd(s, d), NatToString(port);
      |r| == |s| - (e - d) + |n| && r[..d] == s[..d] && r[d..d + |n|] == n && r[d + |n|..] == s[e..]
  {
    var e, n := DigitRunEnd(s, d), NatToString(port);
    var r := s[..d] + n + s[e..];
    assert r[..d] == s[..d] && r[d..d + |n|] == n && r[d + |n|..] == s[e..];
    r
  }

  // ---------------------------------------------------------------------------
  // The sub-patches as functions of the text

  /** The text after one sub-patch, and the action that sub-patch logs. */
  datatype Step = Step(text: string, action: string)

  /** The `server` block that `ensureServerBlock` adds. */
  const ServerBlock: string := "\n  server: {\n  },"

  /**
   * `ensureServerBlock`: unchanged when `server: {` occurs; otherwise an empty
   * `server` block right after the first `defineConfig({`, else after the first
   * `export default {`, else unchanged.
   */
  function EnsureServerBlock(s: string): (r: string)
    ensures Find(s, ServerOpen).Some? ==> r == s
    ensures Find(s, ServerOpen).None? && Find(s, DefineConfigOpen).Some? ==>
              r == InsertAt(s, Find(s, DefineConfigOpen).value.end, ServerBlock)
    ensures Find(s, ServerOpen).None? && Find(s, DefineConfigOpen).None? && Find(s, ExportDefaultOpen).Some? ==>
              r == InsertAt(s, Find(s, ExportDefaultOpen).value.end, ServerBlock)
    ensures Find(s, ServerOpen).None? && Find(s, DefineConfigOpen).None? && Find(s, ExportDefaultOpen).None? ==>
              r == s
  {
    if Find(s, ServerOpen).Some? then s
    else match Find(s, DefineConfigOpen)
      case Some(sp) => InsertAt(s, sp.end, ServerBlock)
      case None =>
        match Find(s, ExportDefaultOpen)
        case Some(sp) => InsertAt(s, sp.end, ServerBlock)
        case None => s
  }

  /** The list entry for a dev domain: `".<domain>"`. */
  function Entry(devDomain: string): string
  {
    "\"" + "." + devDomain + "\""
  }

  /** The line added to a `server` block for a dev domain. */
  function HostsLine(devDomain: string): string
  {
    "\n    allowedHosts: [" + Entry(devDomain) + "],"
  }

  /** `patchAllowedHosts` as a function of the text. */
  function AllowedHosts(s: string, devDomain: string): Step
  {
    if Contains(s, "." + devDomain) then Step(s, "allowedHosts: domain already present")
    else if Find(s, HostsTrue).Some? then Step(s, "allowedHosts: already allows all (true)")
    else if Find(s, HostsAll).Some? then Step(s, "allowedHosts: already allows all (\"all\")")
    else if Find(s, HostsList).Some? then
      Step(InsertAt(s, Find(s, HostsList).value.end, Entry(devDomain) + ", "), "allowedHosts: appended domain")
    else if Find(s, ServerOpen).Some? then
      Step(InsertAt(s, Find(s, ServerOpen).value.end, HostsLine(devDomain)), "allowedHosts: added to server block")
    else
      var u := EnsureServerBlock(s);
      match Find(u, ServerOpen)
      case Some(sp) => Step(InsertAt(u, sp.end, HostsLine(devDomain)), "allowedHosts: created server block")
      case None => Step(u, "allowedHosts: unrecognized config format")
  }

  /** The line added to a `server` block for a port. */
  function PortLine(port: nat): string
  {
    "\n    port: " + NatToString(port) + ","
  }

  /** `patchServerPort` as a function of the text. */
  function ServerPort(s: string, port: nat): Step
  {
    if ServerPortMatch(s, false).Some? then
      var text :=
        match ServerPortMatch(s, true)
        case Some(w) => ReplaceDigits(s, ValueStart(s, w.port), port)
        case None => s;
      Step(text, "server.port: replaced with " + NatToString(port))
    else if Find(s, ServerOpen).Some? then
      Step(InsertAt(s, Find(s, ServerOpen).value.end, PortLine(port)), "server.port: injected " + NatToString(port))
    else
      var u := EnsureServerBlock(s);
      match Find(u, ServerOpen)
      case Some(sp) =>
        Step(InsertAt(u, sp.end, PortLine(port)), "server.port: created server block with port " + NatToString(port))
      case None => Step(u, "server.port: unrecognized config format")
  }

  /** What `devtools()` becomes. */
  function DevtoolsCall(port: nat): string
  {
    "devtools({ eventBusConfig: { port: " + NatToString(port) + " } })"
  }

  /** What is added after the brace of `devtools({`. */
  function EventBusEntry(port: nat): string
  {
    " eventBusConfig: { port: " + NatToString(port) + " },"
  }

  /** `patchDevtoolsPort` as a function of the text. */
  function Devtools(s: string, port: nat): Step
  {
    if !Contains(s, "devtools") then Step(s, "devtools: not found, skipped")
    else if DevtoolsPortMatch(s, false).Some? then
      var text :=
        match DevtoolsPortMatch(s, true)
        case Some(w) => ReplaceDigits(s, ValueStart(s, w.port), port)
        case None => s;
      Step(text, "devtools: updated eventBusConfig.port to " + NatToString(port))
    else if Find(s, DevtoolsEmpty).Some? then
      var sp := Find(s, DevtoolsEmpty).value;
      Step(Splice(s, sp.start, sp.end, DevtoolsCall(port)), "devtools: injected eventBusConfig.port " + NatToString(port))
    else if Find(s, DevtoolsObject).Some? then
      Step(InsertAt(s, Find(s, DevtoolsObject).value.end, EventBusEntry(port)), "devtools: added eventBusConfig.port " + NatToString(port))
    else Step(s, "devtools: unrecognized call pattern")
  }

  // ---------------------------------------------------------------------------
  // The whole patch

  /** Which sub-patches to run: an empty domain and a zero port stand for an absent option. */
  datatype Options = Options(devDomain: string, serverPort: nat, devtoolsPort: nat)

  /** The text after the sub-patches, and the actions they logged. */
  datatype Outcome = Outcome(text: string, actions: seq<string>)

  /** Runs one sub-patch's step after an outcome. */
  function Then(o: Outcome, st: Step): Outcome
  {
    Outcome(st.text, o.actions + [st.action])
  }

  /** The three sub-patches in their fixed order, each only when its option is set, after `o`. */
  function PatchesAfter(o: Outcome, opts: Options): Outcome
  {
    var o1 := if opts.devDomain != [] then Then(o, AllowedHosts(o.text, opts.devDomain)) else o;
    var o2 := if opts.serverPort != 0 then Then(o1, ServerPort(o1.text, opts.serverPort)) else o1;
    if opts.devtoolsPort != 0 then Then(o2, Devtools(o2.text, opts.devtoolsPort)) else o2
  }

  /** The text and the actions after all sub-patches. */
  function Patches(s: string, opts: Options): Outcome
  {
    PatchesAfter(Outcome(s, []), opts)
  }

  /** What `patchViteConfig` returns. */
  datatype PatchResult = PatchResult(patched: bool, actions: seq<string>)

  /** The result, and the text handed to the file write, if one was attempted. */
  datatype Report = Report(result: PatchResult, written: Option<string>)

  /**
   * `patchViteConfig` over the text read (`None` when the read fails) and the
   * outcome of the write.
   */
  function ViteConfig(file: Option<string>, opts: Options, writeOk: bool): Report
  {
    match file
    case None => Report(PatchResult(false, ["could not read vite config"]), None)
    case Some(s) =>
      var o := Patches(s, opts);
      if o.text == s then
        Report(PatchResult(false, if |o.actions| > 0 then o.actions else ["no changes needed"]), None)
      else if !writeOk then
        Report(PatchResult(false, ["could not write vite config"]), Some(o.text))
      else
        Report(PatchResult(true, o.actions), Some(o.text))
  }

  /** What the deprecated `patchViteAllowedHosts` returns. */
  datatype LegacyResult = LegacyResult(patched: bool, reason: string)

  /** `patchViteAllowedHosts`: `patchViteConfig` with only the domain set, its actions joined by `"; "`. */
  function ViteAllowedHosts(file: Option<string>, devDomain: string, writeOk: bool): LegacyResult
  {
    var r := ViteConfig(file, Options(devDomain, 0, 0), writeOk).result;
    LegacyResult(r.patched, Join(r.actions, "; "))
  }

  // ---------------------------------------------------------------------------
  // The imperative patcher

  /** The shared `actions` array the sub-patches push onto. */
  class ActionLog {
    var entries: seq<string>

    constructor()
      ensures entries == []
    {
      entries := [];
    }

    method Push(action: string)
      modifies this
      ensures entries == old(entries) + [action]
    {
      entries := entries + [action];
    }
  }

  method PatchAllowedHosts(content: string, devDomain: string, actions: ActionLog) returns (r: string)
    modifies actions
    ensures r == AllowedHosts(content, devDomain).text
    ensures actions.entries == old(actions.entries) + [AllowedHosts(content, devDomain).action]
  {
    var domainPattern := "." + devDomain;
    if Contains(content, domainPattern) {
      actions.Push("allowedHosts: domain already present");
      return content;
    }
    if Find(content, HostsTrue).Some? {
      actions.Push("allowedHosts: already allows all (true)");
      return content;
    }
    if Find(content, HostsAll).Some? {
      actions.Push("allowedHosts: already allows all (\"all\")");
      return content;
    }
    var entry := Entry(devDomain);
    var list := Find(content, HostsList);
    if list.Some? {
      r := InsertAt(content, list.value.end, entry + ", ");
      actions.Push("allowedHosts: appended domain");
      return r;
    }
    var block := Find(content, ServerOpen);
    if block.Some? {
      r := InsertAt(content, block.value.end, HostsLine(devDomain));
      actions.Push("allowedHosts: added to server block");
      return r;
    }
    r := EnsureServerBlock(content);
    block := Find(r, ServerOpen);
    if block.Some? {
      r := InsertAt(r, block.value.end, HostsLine(devDomain));
      actions.Push("allowedHosts: created server block");
    } else {
      actions.Push("allowedHosts: unrecognized config format");
    }
  }

  method PatchServerPort(content: string, port: nat, actions: ActionLog) returns (r: string)
    modifies actions
    ensures r == ServerPort(content, port).text
    ensures actions.entries == old(actions.entries) + [ServerPort(content, port).action]
  {
    if ServerPortMatch(content, false).Some? {
      r := content;
      var w := ServerPortMatch(content, true);
      if w.Some? {
        r := ReplaceDigits(content, ValueStart(content, w.value.port), port);
      }
      actions.Push("server.port: replaced with " + NatToString(port));
      return r;
    }
    var block := Find(content, ServerOpen);
    if block.Some? {
      r := InsertAt(content, block.value.end, "\n    port: " + NatToString(port) + ",");
      actions.Push("server.port: injected " + NatToString(port));
      return r;
    }
    r := EnsureServerBlock(content);
    block := Find(r, ServerOpen);
    if block.Some? {
      r := InsertAt(r, block.value.end, "\n    port: " + NatToString(port) + ",");
      actions.Push("server.port: created server block with port " + NatToString(port));
    } else {
      actions.Push("server.port: unrecognized config format");
    }
  }

  method PatchDevtoolsPort(content: string, port: nat, actions: ActionLog) returns (r: string)
    modifies actions
    ensures r == Devtools(content, port).text
    ensures actions.entries == old(actions.entries) + [Devtools(content, port).action]
  {
    if !Contains(content, "devtools") {
      actions.Push("devtools: not found, skipped");
      return content;
    }
    if DevtoolsPortMatch(content, false).Some? {
      r := content;
      var w := DevtoolsPortMatch(content, true);
      if w.Some? {
        r := ReplaceDigits(content, ValueStart(content, w.value.port), port);
      }
      actions.Push("devtools: updated eventBusConfig.port to " + NatToString(port));
      return r;
    }
    var call := Find(content, DevtoolsEmpty);
    if call.Some? {
      r := Splice(content, call.value.start, call.value.end, "devtools({ eventBusConfig: { port: " + NatToString(port) + " } })");
      actions.Push("devtools: injected eventBusConfig.port " + NatToString(port));
      return r;
    }
    var open := Find(content, DevtoolsObject);
    if open.Some? {
      r := InsertAt(content, open.value.end, " eventBusConfig: { port: " + NatToString(port) + " },");
      actions.Push("devtools: added eventBusConfig.port " + NatToString(port));
      return r;
    }
    actions.Push("devtools: unrecognized call pattern");
    return content;
  }

  /** The three sub-patches threaded through `content`, each only when its option is set. */
  method RunPatches(content: string, options: Options, actions: ActionLog) returns (r: string)
    modifies actions
    ensures Outcome(r, actions.entries) == PatchesAfter(Outcome(content, old(actions.entries)), options)
  {
    r := content;
    if options.devDomain != [] {
      r := PatchAllowedHosts(r, options.devDomain, actions);
    }
    if options.serverPort != 0 {
      r := PatchServerPort(r, options.serverPort, actions);
    }
    if options.devtoolsPort != 0 {
      r := PatchDevtoolsPort(r, options.devtoolsPort, actions);
    }
  }

  /**
   * `patchViteConfig`: `file` is the text read (`None` when the read fails),
   * `writeOk` whether writing the file back succeeds; `written` is the text
   * handed to the write, when one is attempted.
   */
  method PatchViteConfig(file: Option<string>, options: Options, writeOk: bool)
    returns (result: PatchResult, written: Option<string>)
    ensures Report(result, written) == ViteConfig(file, options, writeOk)
  {
    var actions := new ActionLog();
    if file.None? {
      return PatchResult(false, ["could not read vite config"]), None;
    }
    var original := file.value;
    var content := RunPatches(original, options, actions);
    if content == original {
      return PatchResult(false, if |actions.entries| > 0 then actions.entries else ["no changes needed"]), None;
    }
    written := Some(content);
    if !writeOk {
      return PatchResult(false, ["could not write vite config"]), written;
    }
    return PatchResult(true, actions.entries), written;
  }

  /** `patchViteAllowedHosts`. */
  method PatchViteAllowedHosts(file: Option<string>, devDomain: string, writeOk: bool) returns (r: LegacyResult)
    ensures r == ViteAllowedHosts(file, devDomain, writeOk)
  {
    var result, _ := PatchViteConfig(file, Options(devDomain, 0, 0), writeOk);
    r := LegacyResult(result.patched, Join(result.actions, "; "));
  }
}
