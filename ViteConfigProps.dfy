/** Properties of `patchViteConfig` and its legacy wrapper `patchViteAllowedHosts`. */
module ViteConfigProps {
  import opened Wrappers
  import opened VitePatch
  import opened ServerPortProps
  import opened DevtoolsProps
  import opened AllowedHostsProps

  /** How many of the three options are set. */
  function SetCount(opts: Options): (n: nat)
    ensures n <= 3
  {
    (if opts.devDomain != [] then 1 else 0) +
    (if opts.serverPort != 0 then 1 else 0) +
    (if opts.devtoolsPort != 0 then 1 else 0)
  }

  /** Every sub-patch that runs logs exactly one action, after those already logged. */
  lemma PatchesLogOnePerOption(o: Outcome, opts: Options)
    ensures var r := PatchesAfter(o, opts);
      |r.actions| == |o.actions| + SetCount(opts) && r.actions[..|o.actions|] == o.actions
  {
    var r := PatchesAfter(o, opts);
    assert r.actions[..|o.actions|] == o.actions;
  }

  /** With no option set nothing changes and the only action is "no changes needed". */
  lemma NoOptionsNoChange(s: string, writeOk: bool)
    ensures ViteConfig(Some(s), Options([], 0, 0), writeOk) == Report(PatchResult(false, ["no changes needed"]), None)
  {
    PatchesLogOnePerOption(Outcome(s, []), Options([], 0, 0));
  }

  /**
   * The patch reports success exactly when the file was read, the text
   * changed, and the write succeeded; the file is written only when the text
   * changed, and then with the patched text.
   */
  lemma PatchedIff(file: Option<string>, opts: Options, writeOk: bool)
    ensures var r := ViteConfig(file, opts, writeOk);
      (r.result.patched <==> file.Some? && writeOk && Patches(file.value, opts).text != file.value) &&
      (r.written.Some? <==> file.Some? && Patches(file.value, opts).text != file.value) &&
      (r.written.Some? ==> r.written.value == Patches(file.value, opts).text)
  {
  }

  /** Exactly one option is set. */
  predicate OnlyOne(opts: Options)
  {
    SetCount(opts) == 1
  }

  /** With one option set, the patched text is a fixed point of the patch. */
  lemma SingleOptionFixed(s: string, opts: Options)
    requires OnlyOne(opts)
    ensures var t := Patches(s, opts).text; Patches(t, opts).text == t
  {
    if opts.devDomain != [] {
      AllowedHostsIdempotent(s, opts.devDomain);
    } else if opts.serverPort != 0 {
      ServerPortIdempotent(s, opts.serverPort);
    } else {
      DevtoolsIdempotent(s, opts.devtoolsPort);
    }
  }

  /**
   * With one option set, patching the text a successful run wrote reports
   * nothing to do: a second run is not patched and writes nothing.
   */
  lemma SingleOptionRerun(s: string, opts: Options, writeOk: bool)
    requires OnlyOne(opts)
    requires ViteConfig(Some(s), opts, true).result.patched
    ensures var t := ViteConfig(Some(s), opts, true).written.value;
      !ViteConfig(Some(t), opts, writeOk).result.patched && ViteConfig(Some(t), opts, writeOk).written.None?
  {
    SingleOptionFixed(s, opts);
  }

  /**
   * The legacy wrapper: after a run that patched the file, a second run with
   * the same domain is not patched, and its reason is that the domain is
   * already present.
   */
  lemma LegacyRerun(s: string, devDomain: string, writeOk: bool)
    requires ViteAllowedHosts(Some(s), devDomain, true).patched
    ensures var t := Patches(s, Options(devDomain, 0, 0)).text;
      ViteAllowedHosts(Some(t), devDomain, writeOk) == LegacyResult(false, "allowedHosts: domain already present")
  {
    AllowedHostsIdempotent(s, devDomain);
  }

  /** The legacy wrapper with an empty domain patches nothing. */
  lemma LegacyEmptyDomain(s: string, writeOk: bool)
    ensures ViteAllowedHosts(Some(s), [], writeOk) == LegacyResult(false, "no changes needed")
  {
    NoOptionsNoChange(s, writeOk);
  }
}
