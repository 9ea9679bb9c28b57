/**
 * `zdev config`: `--set key=value` for the three settable keys, `--list`,
 * and `--add`/`--remove` on the list of file patterns copied into new
 * worktrees. The console output is left out; what the command did is its
 * `Outcome`, and `saved` says whether it wrote the config back.
 */
module ConfigCommand {
  import opened Wrappers
  import opened Strings
  import opened Config

  /** The command's options (`setting` is `--set`); an option not given is the empty string (or `false`). */
  datatype ConfigOptions = ConfigOptions(add: string, remove: string, list: bool, setting: string)

  /** What the command did. */
  datatype Outcome =
    | Usage
    | SetKey(key: string, value: string)
    | UnknownKey(key: string)
    | Listed
    | AlreadyExists
    | Added
    | NotFound
    | Removed

  /** The record after the command, what it did, and whether it saved. */
  datatype CmdResult = CmdResult(config: ConfigData, outcome: Outcome, saved: bool)

  /** The key and the value of `--set`: split at every `=`, the first piece is the key, the rest joined again. */
  function KeyValue(s: string): (string, string)
  {
    var parts := Split(s, '=');
    (parts[0], Join(parts[1..], "="))
  }

  /** `--set` splits at the first `=` only: the value keeps every later `=`. */
  lemma KeyValueFirstEquals(key: string, value: string)
    requires '=' !in key
    ensures KeyValue(key + "=" + value) == (key, value)
  {
    SplitAcross(key, '=', value);
    SplitNone(key, '=');
    JoinSplit(value, '=');
    assert Split(key + "=" + value, '=')[1..] == Split(value, '=');
  }

  /** `--set` without any `=` has an empty value. */
  lemma KeyValueNoEquals(s: string)
    requires '=' !in s
    ensures KeyValue(s) == (s, "")
  {
    SplitNone(s, '=');
  }

  /** The keys `--set` may change. */
  predicate Settable(key: string)
  {
    key == "devDomain" || key == "dockerHostIp" || key == "traefikConfigDir"
  }

  /** The position of the first occurrence of `x` in `ps`: `indexOf`. */
  function IndexOf(ps: seq<string>, x: string): (r: Option<nat>)
    ensures r.Some? ==> r.value < |ps| && ps[r.value] == x && x !in ps[..r.value]
    ensures r.None? ==> x !in ps
  {
    if |ps| == 0 then None
    else if ps[0] == x then Some(0)
    else
      match IndexOf(ps[1..], x)
      case Some(i) =>
        assert ps[..i + 1] == [ps[0]] + ps[1..][..i];
        Some(i + 1)
      case None =>
        assert ps == [ps[0]] + ps[1..];
        None
  }

  /** `configCmd` as a function of the record loaded and the options. */
  function Command(c: ConfigData, o: ConfigOptions): CmdResult
  {
    if o.setting != [] then
      var (key, value) := KeyValue(o.setting);
      if value == [] then CmdResult(c, Usage, false)
      else if key == "devDomain" then CmdResult(c.(devDomain := value), SetKey(key, value), true)
      else if key == "dockerHostIp" then CmdResult(c.(dockerHostIp := value), SetKey(key, value), true)
      else if key == "traefikConfigDir" then CmdResult(c.(traefikConfigDir := value), SetKey(key, value), true)
      else CmdResult(c, UnknownKey(key), false)
    else if o.list || (o.add == [] && o.remove == []) then CmdResult(c, Listed, false)
    else if o.add != [] then
      var ps := if c.copyPatterns.Some? then c.copyPatterns.value else [];
      if o.add in ps then CmdResult(c.(copyPatterns := Some(ps)), AlreadyExists, false)
      else CmdResult(c.(copyPatterns := Some(ps + [o.add])), Added, true)
    else
      match c.copyPatterns
      case None => CmdResult(c, NotFound, false)
      case Some(ps) =>
        match IndexOf(ps, o.remove)
        case None => CmdResult(c, NotFound, false)
        case Some(i) => CmdResult(c.(copyPatterns := Some(ps[..i] + ps[i + 1..])), Removed, true)
  }

  /** `configCmd`, on the loaded configuration object. */
  method ConfigCmd(config: ZdevConfig, options: ConfigOptions) returns (outcome: Outcome, saved: bool)
    modifies config
    ensures CmdResult(config.Data(), outcome, saved) == Command(old(config.Data()), options)
  {
    saved := false;
    if options.setting != [] {
      var parts := Split(options.setting, '=');
      var key := parts[0];
      var value := Join(parts[1..], "=");
      if value == [] {
        return Usage, false;
      }
      if key == "devDomain" {
        config.devDomain := value;
        saved := true;
        outcome := SetKey(key, value);
      } else if key == "dockerHostIp" {
        config.dockerHostIp := value;
        saved := true;
        outcome := SetKey(key, value);
      } else if key == "traefikConfigDir" {
        config.traefikConfigDir := value;
        saved := true;
        outcome := SetKey(key, value);
      } else {
        outcome := UnknownKey(key);
      }
      return;
    }
    if options.list || (options.add == [] && options.remove == []) {
      return Listed, false;
    }
    if options.add != [] {
      if config.copyPatterns.None? {
        config.copyPatterns := Some([]);
      }
      if options.add in config.copyPatterns.value {
        outcome := AlreadyExists;
      } else {
        config.copyPatterns := Some(config.copyPatterns.value + [options.add]);
        saved := true;
        outcome := Added;
      }
      return;
    }
    if config.copyPatterns.None? {
      return NotFound, false;
    }
    var index := IndexOf(config.copyPatterns.value, options.remove);
    if index.None? {
      outcome := NotFound;
    } else {
      var ps := config.copyPatterns.value;
      config.copyPatterns := Some(ps[..index.value] + ps[index.value + 1..]);
      saved := true;
      outcome := Removed;
    }
  }

  // ---------------------------------------------------------------------------
  // Properties

  /** With `--set` given, every other option is ignored. */
  lemma SetTakesPrecedence(c: ConfigData, o: ConfigOptions)
    requires o.setting != []
    ensures Command(c, o) == Command(c, ConfigOptions([], [], false, o.setting))
  {
  }

  /**
   * `--set` changes at most the one settable key it names, to a non-empty
   * value; an empty value or any other key leaves the record unchanged.
   */
  lemma SetOnlySettable(c: ConfigData, o: ConfigOptions)
    requires o.setting != []
    ensures var r, (key, value) := Command(c, o), KeyValue(o.setting);
      (value == [] ==> r == CmdResult(c, Usage, false)) &&
      (value != [] && !Settable(key) ==> r == CmdResult(c, UnknownKey(key), false)) &&
      (r.config != c ==> Settable(key) && value != [] && r.saved) &&
      r.config.(devDomain := c.devDomain, dockerHostIp := c.dockerHostIp, traefikConfigDir := c.traefikConfigDir) == c &&
      (key == "devDomain" && value != [] ==> r == CmdResult(c.(devDomain := value), SetKey(key, value), true)) &&
      (key == "dockerHostIp" && value != [] ==> r == CmdResult(c.(dockerHostIp := value), SetKey(key, value), true)) &&
      (key == "traefikConfigDir" && value != [] ==> r == CmdResult(c.(traefikConfigDir := value), SetKey(key, value), true))
  {
  }

  /** `--list`, or neither `--add` nor `--remove`, changes nothing, even with `--add` given. */
  lemma ListReadOnly(c: ConfigData, o: ConfigOptions)
    requires o.setting == [] && (o.list || (o.add == [] && o.remove == []))
    ensures Command(c, o) == CmdResult(c, Listed, false)
  {
  }

  /**
   * `--add p` leaves `p` in the list, appended only when it was absent, so it
   * creates no duplicate, and adding it again changes nothing.
   */
  lemma AddIdempotent(c: ConfigData, p: string)
    requires p != []
    ensures var ps := if c.copyPatterns.Some? then c.copyPatterns.value else [];
      var r := Command(c, ConfigOptions(p, [], false, []));
      r.config.copyPatterns.Some? && p in r.config.copyPatterns.value &&
      r.config.copyPatterns.value == (if p in ps then ps else ps + [p]) &&
      (NoDuplicates(ps) ==> NoDuplicates(r.config.copyPatterns.value)) &&
      Command(r.config, ConfigOptions(p, [], false, [])).config == r.config
  {
    var ps := if c.copyPatterns.Some? then c.copyPatterns.value else [];
    var qs := Command(c, ConfigOptions(p, [], false, [])).config.copyPatterns.value;
    assert p in qs by {
      if p !in ps {
        assert qs[|ps|] == p;
      }
    }
  }

  /**
   * `--remove p` takes out the first `p` only and keeps the rest in order;
   * without a list, or without `p` in it, nothing changes.
   */
  lemma RemoveFirst(c: ConfigData, p: string)
    requires p != []
    ensures var r := Command(c, ConfigOptions([], p, false, []));
      (c.copyPatterns.None? || p !in c.copyPatterns.value ==> r == CmdResult(c, NotFound, false)) &&
      (c.copyPatterns.Some? && p in c.copyPatterns.value ==>
        exists i ::
          0 <= i < |c.copyPatterns.value| && c.copyPatterns.value[i] == p && p !in c.copyPatterns.value[..i] &&
          r.config == c.(copyPatterns := Some(c.copyPatterns.value[..i] + c.copyPatterns.value[i + 1..])) &&
          multiset(r.config.copyPatterns.value) + multiset{p} == multiset(c.copyPatterns.value))
  {
    if c.copyPatterns.Some? && p in c.copyPatterns.value {
      var ps := c.copyPatterns.value;
      var i := IndexOf(ps, p).value;
      RemoveAt(ps, i);
      var r := Command(c, ConfigOptions([], p, false, []));
      assert r.config == c.(copyPatterns := Some(ps[..i] + ps[i + 1..]));
    }
  }

  /** Taking out the element at `i` takes exactly that one out of the multiset. */
  lemma RemoveAt(ps: seq<string>, i: nat)
    requires i < |ps|
    ensures multiset(ps[..i] + ps[i + 1..]) + multiset{ps[i]} == multiset(ps)
  {
    assert ps == ps[..i] + [ps[i]] + ps[i + 1..];
  }

  /** Removing a pattern just added to a list that lacked it restores the list. */
  lemma AddThenRemove(c: ConfigData, p: string)
    requires p != [] && c.copyPatterns.Some? && p !in c.copyPatterns.value
    ensures var added := Command(c, ConfigOptions(p, [], false, [])).config;
      Command(added, ConfigOptions([], p, false, [])).config == c
  {
    var ps := c.copyPatterns.value;
    var qs := ps + [p];
    IndexOfEnd(ps, p);
    assert qs[..|ps|] + qs[|ps| + 1..] == ps;
  }

  /** The first `p` in a list that gains `p` at its end is that last one. */
  lemma IndexOfEnd(ps: seq<string>, p: string)
    requires p !in ps
    ensures IndexOf(ps + [p], p) == Some(|ps|)
  {
    var r := IndexOf(ps + [p], p);
    assert (ps + [p])[|ps|] == p;
    assert r.Some?;
    assert (ps + [p])[..r.value] == ps[..r.value] || r.value == |ps|;
  }

  /** Whenever the record changes, the command saves it. */
  lemma ChangeIsSaved(c: ConfigData, o: ConfigOptions)
    ensures Command(c, o).config != c ==> Command(c, o).saved
  {
  }
}
