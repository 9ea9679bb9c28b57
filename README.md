# zdev in Dafny

zdev is a command-line tool that gives every feature branch of a web project
its own git worktree, its own ports and, behind Traefik, its own public URL.
This project models the logic at its centre and proves what that logic
promises.

The main part is the Vite config patcher (`src/vite-patch.ts`). It edits the
text of a `vite.config.ts`/`.js` without parsing it, using fixed regular
expressions. It makes three sub-patches:
- it adds the dev domain to `server.allowedHosts`;
- it sets `server.port`;
- it sets the event-bus port of the `devtools(...)` plugin call.

Each sub-patch logs one action, and the file is written back only when the
text changed.

The smaller parts are:
- the configuration record and its port counters (`src/config.ts`);
- the `config` command's edits of that record (`src/commands/config.ts`);
- the title and body rules of the `pr` command (`src/commands/pr.ts`);
- the parsers and templates in `src/utils.ts`;
- the decisions `start` takes (`src/commands/start.ts`).

Modules:

- `Wrappers`: `Option`.
- `Text`: how the fixed regular expressions are matched.
  - Character classes: `\s` is JavaScript's white space and line
    terminators, plus `\d` and `\w`.
  - Patterns are sequences of pieces. A `\s*`/`\s+` run is always followed
    by an atom that refuses white space, so greedy matching agrees with
    backtracking.
  - An anchored matcher `MatchAt`, and `Find`, the leftmost match (what
    `test` decides and what a non-global `replace` rewrites).
  - `Contains`, `InsertAt`, `Splice`, and decimal rendering (`NatToString`)
    with its inverse.
- `Strings`: `split` on one character, `join`, `trim`, `startsWith`,
  `endsWith`, ASCII case mapping and the last path segment.
- `Edits`: how a match, or a stretch free of a character, moves when the
  text around it is edited.
- `VitePatch`:
  - the two composite expressions of the port patches, as relations with
    their leftmost-then-greediest match;
  - `ensureServerBlock`;
  - the three sub-patches as functions of the text, and as methods that push
    onto a shared `ActionLog` object;
  - `patchViteConfig` and the legacy `patchViteAllowedHosts`, with the file
    read and the write's success as parameters.
- `AllowedHostsProps`, `ServerBlockProps`, `PatchShapes`, `ServerPortProps`,
  `DevtoolsProps`, `ViteConfigProps`: what each branch of each sub-patch
  does to the text, and idempotence.
- `Config`: the record, `loadConfig`'s merge over the defaults, the
  `ZdevConfig` class whose `AllocatePorts` moves the two counters, and the
  worktree and seed paths.
- `ConfigCommand`: `configCmd` as a method on the configuration object, and
  as a function its properties are proved about.
- `SmartTitle`: `generateSmartTitle`, a loop that fills two insertion-ordered
  sets, and its classification of changed files.
- `AiOutput`: the `TITLE:`/`BODY:` parse of the `claude` output.
- `PrBody`: the body `pr` builds section by section, and the footer rule.
- `Utils`:
  - `getRepoName`, `listWorktrees` and `traefikAddRoute`;
  - `getTraefikStatus` and `getTailscaleStatus`.
- `Start`:
  - `detectWebDir` and the web path;
  - the explicit or allocated port choice;
  - the choice of the Vite config file;
  - the older inline `allowedHosts` patch.

Outside effects are parameters:
- the result of a file read (`Option<string>`, `None` when it fails);
- whether a write succeeds;
- the paths that exist (a `set<string>`);
- whether a command succeeded and what it printed;
- the outcome of JSON parsing.

Ports are `nat`. The value 0 stands for an option that is absent (falsy).

## Model

| member | source | states |
|---|---|---|
| Text.Find | src/vite-patch.ts:219 | The span found is a match, and no match starts further left; `None` means no match starts anywhere: the leftmost-match rule of `test` and `replace` |
| Text.NatToStringRoundTrip | src/vite-patch.ts:138 | The decimal text of a port reads back as that port |
| Strings.Trim | src/utils.ts:46 | `trim` yields a slice of the input that neither starts nor ends with white space, and only white space was cut on either side |
| Strings.JoinSplit | src/commands/config.ts:15-16 | Joining the pieces of a split with the separator gives the text back |
| Strings.SplitJoin | src/utils.ts:102 | Splitting pieces joined with a separator none of them holds gives the pieces back |
| VitePatch.ServerPortMatch | src/vite-patch.ts:135-137 | The match of `server\s*:\s*\{[^}]*\bport\s*:` (with `\s*\d`, the replaced expression): a match exists exactly when the relation `ServerPortAt` holds somewhere, and the one found is leftmost and then has the greediest `[^}]*` |
| VitePatch.DevtoolsPortMatch | src/vite-patch.ts:179-181 | The match of `devtools\s*\([^)]*eventBusConfig\s*:\s*\{[^}]*port\s*:`: exists exactly when `DevtoolsPortAt` holds somewhere; the one found is leftmost, then greediest in `[^)]*`, then in `[^}]*` |
| VitePatch.ValueStart | src/vite-patch.ts:137 | The first digit of the value that `\s*\d` reaches after `port:`: only non-digits lie between the colon and it |
| VitePatch.ReplaceDigits | src/vite-patch.ts:136-139 | Replacing the `\d+` at `d`: the text before `d` and after the digit run is kept, and the decimal port lies between them |
| VitePatch.EnsureServerBlock | src/vite-patch.ts:218-238 | Unchanged when `server: {` occurs; otherwise the empty block goes right after the first `defineConfig({`, else after the first `export default {`, else nothing changes |
| VitePatch.ActionLog.constructor | src/vite-patch.ts:35 | A new log is empty |
| VitePatch.ActionLog.Push | src/vite-patch.ts:82 | Pushing appends exactly one action |
| VitePatch.PatchAllowedHosts | src/vite-patch.ts:77-129 | The method's text and its one logged action are those of the specification `AllowedHosts` |
| VitePatch.PatchServerPort | src/vite-patch.ts:133-167 | The method's text and its one logged action are those of the specification `ServerPort` |
| VitePatch.PatchDevtoolsPort | src/vite-patch.ts:171-210 | The method's text and its one logged action are those of the specification `Devtools` |
| VitePatch.RunPatches | src/vite-patch.ts:46-59 | The three sub-patches in their fixed order, each only when its option is set, threading the text and the log |
| VitePatch.PatchViteConfig | src/vite-patch.ts:31-73 | The result and the text written are those of `ViteConfig`: a failed read, a failed write and an unchanged text each have their own outcome |
| VitePatch.PatchViteAllowedHosts | src/vite-patch.ts:243-252 | The legacy wrapper: `patchViteConfig` with only the domain, its actions joined by `"; "` |
| AllowedHostsProps.AllowedHostsUnchangedIff | src/vite-patch.ts:78-94 | The text is unchanged exactly when `.<domain>` occurs, or `allowedHosts: true`/`"all"` matches, or none of `allowedHosts: [`, `server: {`, `defineConfig({`, `export default {` occurs to put it in |
| AllowedHostsProps.AppendsToList | src/vite-patch.ts:96-103 | With an `allowedHosts: [` list, the only change is `".<domain>", ` right after its first `[`; everything else, including the existing entries and their order, is kept |
| AllowedHostsProps.AddsToServerBlock | src/vite-patch.ts:105-113 | With a `server` block and no list, the only change is the `allowedHosts` line right after the first `server: {` |
| AllowedHostsProps.CreatesServerBlock | src/vite-patch.ts:115-126 | With neither a list nor a `server` block, a block holding only the `allowedHosts` line is created right after the `{` of the first `defineConfig({`, or failing that of the first `export default {` |
| AllowedHostsProps.AllowedHostsLeavesDomain | src/vite-patch.ts:100-122 | Every branch that changes the text leaves `.<domain>` in it |
| AllowedHostsProps.AllowedHostsIdempotent | src/vite-patch.ts:81-84 | A second run changes nothing; after a changing run it reports the domain as present |
| ServerBlockProps.EnsureServerBlockAnchors | src/vite-patch.ts:218-238 | Afterwards a `server: {` exists exactly when one existed or `defineConfig({`/`export default {` gave it a place |
| ServerBlockProps.EnsureServerBlockIdempotent | src/vite-patch.ts:219-221 | Applied to its own result, `ensureServerBlock` does nothing |
| ServerBlockProps.EnsureServerBlockInserts | src/vite-patch.ts:223-235 | A change happens only without a `server: {` and is the insertion of the empty block right after the `{` of the first `defineConfig({`, or failing that of the first `export default {` |
| PatchShapes.ServerPortReplacesValue | src/vite-patch.ts:135-141 | With a `port` in the first server block and digits after it, only that run of digits is replaced by the new port, and the action reports it |
| PatchShapes.ServerPortValueNotDigits | src/vite-patch.ts:135-141 | With a `port` whose value is not digits, the text is unchanged yet the action still says "replaced" |
| PatchShapes.ServerPortInjects | src/vite-patch.ts:145-152 | A server block without `port` gets `port: <port>,` right after its `{`, and nothing else changes |
| PatchShapes.ServerPortCreatesBlock | src/vite-patch.ts:155-161 | Without a server block, a block holding only the port line is created right after the `{` of the first `defineConfig({`, or failing that of the first `export default {` |
| PatchShapes.ServerPortUnchangedIff | src/vite-patch.ts:144-164 | Without a `port` in a server block, the text is unchanged exactly when there is no anchor, and then "unrecognized config format" is logged |
| PatchShapes.DevtoolsNotFound | src/vite-patch.ts:173-176 | No `devtools` anywhere: unchanged, logged as skipped |
| PatchShapes.DevtoolsReplacesValue | src/vite-patch.ts:179-186 | An existing `eventBusConfig` port inside `devtools(`: only its digits are replaced |
| PatchShapes.DevtoolsInjectsCall | src/vite-patch.ts:189-196 | The first `devtools()` becomes `devtools({ eventBusConfig: { port: P } })` as a whole, and nothing else changes |
| PatchShapes.DevtoolsAddsEntry | src/vite-patch.ts:199-206 | A `devtools({` gets ` eventBusConfig: { port: P },` right after its brace, and nothing else changes |
| PatchShapes.DevtoolsUnrecognized | src/vite-patch.ts:208-209 | `devtools` in no known shape: unchanged, logged as unrecognized |
| ServerPortProps.ServerPortSetsOrKeeps | src/vite-patch.ts:133-167 | `patchServerPort` either keeps the text or leaves the port set: the replaced expression matches, and its value spells the port |
| ServerPortProps.ServerPortIdempotent | src/vite-patch.ts:133-167 | Running `patchServerPort` twice with one port gives the text of one run |
| ServerPortProps.PortSetReadsBack | src/vite-patch.ts:137-138 | Once set, the digits of the matched value read back as the port |
| ServerPortProps.InjectSetsPort | src/vite-patch.ts:145-152 | Injecting the port line into a server block that had no `port` sets the port |
| ServerPortProps.ReplaceKeepsMatch | src/vite-patch.ts:136-139 | Replacing the digits keeps the match where it was, with the new digits as its value |
| DevtoolsProps.DevtoolsSetsOrKeeps | src/vite-patch.ts:171-210 | `patchDevtoolsPort` either keeps the text or leaves the event-bus port set to the port |
| DevtoolsProps.DevtoolsIdempotent | src/vite-patch.ts:171-210 | Running `patchDevtoolsPort` twice with one port gives the text of one run |
| DevtoolsProps.DevtoolsSetReadsBack | src/vite-patch.ts:181-182 | Once set, the digits of the matched value read back as the port |
| DevtoolsProps.CallSetsPort | src/vite-patch.ts:189-196 | Rewriting `devtools()` sets the port |
| DevtoolsProps.EntrySetsPort | src/vite-patch.ts:199-206 | Adding the entry after `devtools({` sets the port |
| ViteConfigProps.PatchesLogOnePerOption | src/vite-patch.ts:46-59 | Each sub-patch that runs appends exactly one action after those already logged |
| ViteConfigProps.NoOptionsNoChange | src/vite-patch.ts:61-63 | With no option set, nothing is written and the only action is "no changes needed" |
| ViteConfigProps.PatchedIff | src/vite-patch.ts:61-72 | `patched` exactly when the read succeeded, the text changed and the write succeeded; the file is written only when the text changed |
| ViteConfigProps.SingleOptionFixed | src/vite-patch.ts:46-59 | With one option set, the patched text is a fixed point of the patch |
| ViteConfigProps.SingleOptionRerun | src/vite-patch.ts:61-63 | With one option set, rerunning on what a run wrote patches nothing and writes nothing |
| ViteConfigProps.LegacyRerun | src/vite-patch.ts:243-252 | After a patched run of the legacy wrapper, a second run is not patched and says the domain is already present |
| ViteConfigProps.LegacyEmptyDomain | src/vite-patch.ts:47-49 | The legacy wrapper with an empty domain patches nothing |
| Config.LoadSaved | src/config.ts:76-84 | Loading the file written for a record gives that record back |
| Config.LoadKeys | src/config.ts:40-52 | Missing, unparseable and empty files all load as the defaults (5173, 3210, three copy patterns, no allocations); each of the seven keys takes the file's value when the file holds it and keeps its default when it does not |
| Config.Allocate | src/config.ts:91-92 | Both counters are exactly one larger and no other field changes |
| Config.AllocationsAt | src/config.ts:87-95 | The `i`-th of successive allocations hands out the starting counters plus `i` |
| Config.AllocationsIncrease | src/config.ts:87-95 | Successive allocations hand out strictly increasing, hence distinct, frontend ports and Convex ports |
| Config.ZdevConfig.constructor | src/config.ts:66-80 | The object holds the loaded record |
| Config.ZdevConfig.AllocatePorts | src/config.ts:87-95 | Returns the counters held on entry; the new record is `Allocate` of the old |
| Config.WorktreePathNames | src/config.ts:97-99 | A worktree path ends in the worktree's name, and different names give different paths |
| Config.SeedPathName | src/config.ts:101-103 | A seed path's file name is `<project>.zip` |
| ConfigCommand.ConfigCmd | src/commands/config.ts:10-105 | The method's new record, outcome and save flag are those of the function `Command` |
| ConfigCommand.KeyValueFirstEquals | src/commands/config.ts:15-16 | `--set` splits at the first `=` only; the value keeps every later `=` |
| ConfigCommand.KeyValueNoEquals | src/commands/config.ts:15-24 | `--set` without `=` has an empty value, which prints usage and changes nothing |
| ConfigCommand.SetTakesPrecedence | src/commands/config.ts:13-43 | With `--set`, every other option is ignored |
| ConfigCommand.SetOnlySettable | src/commands/config.ts:27-41 | `--set` with a non-empty value sets `devDomain`, `dockerHostIp` or `traefikConfigDir` to it, reports the key and value, and saves; an empty value is a usage error and any other key is unknown, both leaving the record unchanged and unsaved |
| ConfigCommand.ListReadOnly | src/commands/config.ts:45-72 | `--list`, or neither `--add` nor `--remove`, changes nothing, even with `--add` |
| ConfigCommand.AddIdempotent | src/commands/config.ts:74-87 | `--add p` leaves `p` in the list, appended only when absent (a missing list starts empty), so it creates no duplicate and a second add changes nothing |
| ConfigCommand.RemoveFirst | src/commands/config.ts:89-104 | `--remove p` takes out the first `p` only and keeps the order of the rest; without a list or without `p` nothing changes |
| ConfigCommand.AddThenRemove | src/commands/config.ts:74-104 | Removing a pattern just added to a list that lacked it restores the list |
| ConfigCommand.ChangeIsSaved | src/commands/config.ts:28-100 | Whenever the record changes, the command saves it |
| ConfigCommand.IndexOf | src/commands/config.ts:95 | `indexOf`: the position of the first occurrence, or none when absent |
| SmartTitle.GenerateSmartTitle | src/commands/pr.ts:69-128 | The loop's title is the function `SmartTitle`, with the two sets as the gathered contributions |
| SmartTitle.IgnoredFile | src/commands/pr.ts:74 | A file without a `.ts`, `.tsx`, `.js`, `.jsx`, `.css` or `.scss` ending contributes nothing |
| SmartTitle.ComponentFile | src/commands/pr.ts:76-80 | `components/<group>/<file>.<ext>` contributes the name of `<file>` as a component |
| SmartTitle.SingleComponentFile | src/commands/pr.ts:82-86 | `components/<file>.<ext>` contributes `<file>` as a component, unless the folder above also ends in `components` |
| SmartTitle.RouteFile | src/commands/pr.ts:88-95 | `<prefix>routes/<path>.<ext>`, with `routes/` first occurring after the prefix and no component expression matching, contributes `<path>`, nested folders included, with `[ ] $ _ .` as spaces, trimmed, unless that is empty or `index` |
| SmartTitle.NoComponentsFolder | src/commands/pr.ts:76-86 | Neither component expression matches a path in which `components/` does not occur |
| SmartTitle.FolderFile | src/commands/pr.ts:97-103 | Any other considered file contributes its parent folder as an area unless it is `src`, `web`, `app`, `lib` or `utils` |
| SmartTitle.CollectMembers | src/commands/pr.ts:70-104 | A name is in either set exactly when some changed file contributes it there |
| SmartTitle.CollectKeepsOrder | src/commands/pr.ts:70-71 | The sets keep first-seen order: what the first files gave stays in front, in order |
| SmartTitle.RepeatedFile | src/commands/pr.ts:70-71 | A file listed again changes nothing: each name is kept once |
| SmartTitle.ItemsOrigin | src/commands/pr.ts:106 | At most three items: the components first, then the areas, each contributed by some file |
| SmartTitle.NoItems | src/commands/pr.ts:106-108 | There is no item exactly when no file contributes |
| SmartTitle.ActionPerCommit | src/commands/pr.ts:108-117 | The action word read from the joined, lower-cased text is the one decided message by message with priority fix > add/new > refactor > improve/enhance > mobile/responsive, else `Update`; joining makes no keyword across two messages |
| SmartTitle.ItemsTitle | src/commands/pr.ts:108-118 | With items, the title is the action word, a space, and the items joined by `, ` |
| SmartTitle.FallbackTitle | src/commands/pr.ts:120-127 | Without items, the title is the first commit when its JavaScript length (UTF-16 code units) is below 72, else the feature name title-cased |
| Strings.Utf16LengthBasic | src/commands/pr.ts:120 | A message's JavaScript length equals its character count exactly when no character is above U+FFFF |
| SmartTitle.TitleCaseChars | src/commands/pr.ts:124-127 | Splitting at `-`/`_`, capitalising each word and joining with spaces is `TitleChars`: each separator becomes a space and the character after it, or the first, is upper-cased |
| AiOutput.TitleFoundIff | src/commands/pr.ts:53-58 | The output parses exactly when it holds `TITLE:` followed somewhere by a character other than a line terminator; otherwise the result is null |
| AiOutput.TitleCaptureIff | src/commands/pr.ts:53 | A title match starts at `p` exactly when `TITLE:` is there and a later non-line-terminator can start the group |
| AiOutput.NoBodyLabel | src/commands/pr.ts:62 | Without `BODY:`, the body is empty |
| AiOutput.StripQuotesWrapped | src/commands/pr.ts:61 | One quote is removed from each end, whichever the two are, and no more |
| AiOutput.StripQuotesPlain | src/commands/pr.ts:61 | A title without quotes at its ends is kept |
| AiOutput.StripQuotesLone | src/commands/pr.ts:61 | A title that is one quote becomes empty |
| AiOutput.ParseFormatted | src/commands/pr.ts:52-63 | Output in the requested `TITLE:`/`BODY:` format, with white space around it, parses back to its title and body |
| AiOutput.NoResultWithoutOutput | src/commands/pr.ts:17-58 | Without `claude`, a failed run or empty output there is no result |
| PrBody.AppendCommitLines | src/commands/pr.ts:271-273 | The `forEach` appends one bullet line per commit, in order |
| PrBody.BuildRawBody | src/commands/pr.ts:256-280 | The body built section by section with `+=` is `RawBody` |
| PrBody.BuildBody | src/commands/pr.ts:256-285 | The body sent to `gh pr create` is `Body`: the sections, then the footer rule as corrected under Findings |
| PrBody.CommitListed | src/commands/pr.ts:271-273 | Each commit has its own bullet line, after those of earlier commits |
| PrBody.RawBodyHasAiBody | src/commands/pr.ts:267-268 | An AI body appears under Changes |
| PrBody.RawBodyListsCommits | src/commands/pr.ts:269-275 | Without an AI body, every commit appears as its own bullet line, in order |
| PrBody.RawBodyHasPreview | src/commands/pr.ts:259-264 | A preview address appears in the body; an allocation's public URL takes precedence |
| PrBody.BodyHasFooter | src/commands/pr.ts:283-285 | The body always carries the footer's text; unless it already had it, the body is trimmed and the footer appended |
| PrBody.FooterAddedTwice | src/commands/pr.ts:283-285 | The rule as written is not idempotent: a body holding the footer gets a second one |
| PrBody.AddFooterIdempotent | src/commands/pr.ts:283-285 | The corrected rule always leaves the footer's text, and a second application changes nothing |
| Utils.GetRepoName | src/utils.ts:42-51 | The name from the trimmed origin URL when the command succeeds and the URL yields one, else the path's base name |
| Utils.RepoNameFromUrl | src/utils.ts:47-48 | A name, when there is one, is non-empty and holds no `/` |
| Utils.RepoNameIsMatch | src/utils.ts:47-48 | No name exactly when `/\/([^\/]+?)(\.git)?$/` does not match; otherwise the name is the group of the leftmost match, as short as the lazy `+?` allows |
| Utils.RepoNameGit | src/utils.ts:46-48 | A URL ending in `/<name>.git` gives `<name>`: one `.git` is stripped |
| Utils.RepoNamePlain | src/utils.ts:46-48 | A URL ending in `/<name>` without `.git` gives `<name>` |
| Utils.RepoNameFallback | src/utils.ts:49-50 | A URL ending in `/` or without `/` gives no name, so the base name is used |
| Utils.ListWorktrees | src/utils.ts:94-111 | The loop returns `[]` when git fails, else the paths of the `worktree ` lines of the split output |
| Utils.RemovePrefixAtStart | src/utils.ts:106 | On a line that starts with `worktree `, replacing its first occurrence leaves the rest of the line |
| Utils.WorktreePathsMembers | src/utils.ts:101-110 | A path is listed exactly when some line is `worktree ` followed by it |
| Utils.WorktreePathsConcat | src/utils.ts:104-108 | The paths of two runs of lines follow each other: the order of lines is kept |
| Utils.PorcelainRoundTrip | src/utils.ts:94-111 | On the porcelain output of some worktrees, the listed paths are theirs, in order |
| Utils.TraefikAddRoute | src/utils.ts:115-144 | The file is `<traefikConfigDir>/<name>.yml`, and the result is `true` exactly when the write succeeds |
| Utils.RouteRouter | src/utils.ts:120-129 | The YAML names the router after the route, with rule ``Host(`<name>.<devDomain>`)`` and the service of that name |
| Utils.RouteService | src/utils.ts:131-135 | The YAML declares the service under the route's name with url `http://<dockerHostIp>:<port>` |
| Utils.ServerUrlPort | src/utils.ts:135 | The digits after the last `:` of that url read back as the port |
| Utils.GetTraefikStatus | src/utils.ts:160-172 | A base URL exactly when running; the dev domain is always returned |
| Utils.TraefikRunning | src/utils.ts:165-169 | A successful curl printing `200` with any white space around it means running, with base URL `https://*.<devDomain>` |
| Utils.TraefikNotRunning | src/utils.ts:165 | A failed curl or any other status means not running and no base URL |
| Utils.DropTrailingDot | src/utils.ts:200 | One trailing `.` is removed, no more; a text without one is kept |
| Utils.GetTailscaleStatus | src/utils.ts:191-208 | A base URL only when running |
| Utils.TailscaleUrl | src/utils.ts:199-203 | DNS name `<host>.` gives base URL `https://<host>` |
| Utils.TailscaleNotRunning | src/utils.ts:194-207 | Running exactly when the command succeeded and its output parsed |
| Start.DetectWebDir | src/commands/start.ts:34-52 | The loop's result is `WebDir`: it stops at the first common directory with a `package.json` |
| Start.WebDirChoice | src/commands/start.ts:36-51 | The result is the first of web, frontend, app, client, packages/web, apps/web with a `package.json`; without one, `.` when the worktree has one, else `web` |
| Start.FirstIsUnique | src/commands/start.ts:38-43 | The first directory with a `package.json` is the one chosen |
| Start.WebPathHasPackage | src/commands/start.ts:112-113 | The web path (the worktree for `.`, else the worktree joined with the directory) holds a `package.json` exactly when the detection did not fall back to `web` or `web` has one |
| Start.ChoosePorts | src/commands/start.ts:171-173 | The method's ports and new record are those of `StartPorts` |
| Start.ExplicitPort | src/commands/start.ts:171-172 | An explicit port changes no counter; the Convex port is that port plus 100 exactly for a Convex project, else 0 |
| Start.AllocatedIgnoresConvex | src/commands/start.ts:173 | Without an explicit port the Convex flag makes no difference: a project without Convex still takes a Convex port |
| Start.StartsAllocate | src/commands/start.ts:171-173 | Successive starts without a port hand out the successive allocations |
| Start.ViteConfigPath | src/commands/start.ts:197-200 | `vite.config.ts` when it exists, else `vite.config.js`; none exactly when neither exists |
| Start.LegacyPatchInserts | src/commands/start.ts:209-213 | The replacement inserts the server block right after the first `defineConfig({` and keeps everything else |
| Start.LegacyPatchChanges | src/commands/start.ts:207-209 | The text changes exactly when `allowedHosts` is absent and `defineConfig({` present |
| Start.LegacyPatchIdempotent | src/commands/start.ts:207-213 | A second run changes nothing |
| Start.LegacyPatchFile | src/commands/start.ts:202-214 | A write happens exactly when there is a readable file and the patch changes it, and it writes the patched text |

## Left out

- Reading and writing files, `existsSync`, and running `git`, `gh`, `curl`, `tailscale`, `claude`, `bunx` or any other process. Their results are parameters.
- `traefikRemoveRoute`, `tailscaleServe`, `tailscaleRemove`, `killProcess`, `run` and `runBackground`. These are process and file effects with no logic of their own.
- The orchestration commands (`create`, `init`, `seed`, `list`, `stop`, `clean`, the CLI wiring in `src/index.ts`), console output, and the `setTimeout` waits in `start`. They are I/O around the modelled rules.
- `dist/index.js`. It is a generated bundle whose copies of the source have drifted; the model follows `src`.
- JSON parsing and stringifying. `loadConfig` takes the parse outcome (missing, unparseable, or the keys present), and `getTailscaleStatus` takes the parsed `Self.DNSName`.
- Config.LoadConfig: a parsed file may hold keys of the wrong type or keys the record does not know; the model takes each known key as present with the right type, or absent.
- Ports are `nat`, and 0 stands for an absent option. Negative, fractional and NaN ports, and the JavaScript number range, are not modelled.
- `path.join` and `path.resolve` are modelled as joining with `/`, without normalising `..`, `.` or repeated separators.
- `toLowerCase`/`toUpperCase` map ASCII letters only.
- VitePatch.ViteConfig: being a fixed point is proved only with one option set (`ViteConfigProps.SingleOptionFixed`, `SingleOptionRerun`). With several options it fails in general. Take `defineConfig({ server: { } })`, dev domain `port:1` and server port 7. The first run inserts `allowedHosts: [".port:1"],`, and the port patch then rewrites the `port:1` inside it to `port:7`. A second run finds no `.port:1` and adds the domain again.
- Config.LoadConfig: for a missing or unparseable file, `loadConfig` returns the shared `DEFAULT_CONFIG` object itself. A parsed file gives a shallow copy that still shares the default `copyPatterns` list and `allocations` map when the file leaves those keys out. A caller that mutates the result therefore changes the defaults of later loads in the same process. The model returns values and has no such sharing.
- VitePatch.PatchAllowedHosts: the replacement strings are inserted literally. A dev domain containing `$&`, `$1` or another `$` pattern would be expanded by `String.prototype.replace`, and the model does not expand it.
- The regular expressions are modelled one by one as hand-written matchers; no general regex engine is built.
- The rest of `start`: worktree creation, Convex detection, the dev servers and Traefik registration. These are process effects.

## Findings

| source | as written | input that shows it | evidently intended | confidence | as-written member | corrected member |
|---|---|---|---|---|---|---|
| src/commands/pr.ts:283-285 | The footer is appended unless the body contains `Created with zdev`, but the footer it appends reads `Created with [zdev](…)`, which never contains that marker | A `--body` that already ends with the footer (for example one copied from an earlier PR) gets a second footer | Appending the footer is idempotent: a body that already carries the footer's text is left alone | not executed | PrBody.FooterAddedTwice | PrBody.AddFooterIdempotent |
