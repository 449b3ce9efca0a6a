/**
 * Start-up of the service (main.go): the key/value argument parser that
 * chooses the two configuration paths, and the loading step that merges the
 * user configuration only when it could be read.
 */
module Cli {
  import opened Basics
  import Config

  const DefaultConfigPath := "config.tomlz"
  const DefaultUserConfigPath := "config_user.toml"

  /** Why the process ended with status 0 while parsing its arguments. */
  datatype ExitReason = Help | Version | UnknownKey

  /**
   * What parsing the arguments leads to: carry on with the two paths, end the
   * process with status 0, or a Go index-out-of-range panic (status 2) when a
   * path key is the last argument.
   */
  datatype ParseOutcome =
    | Continue(configPath: string, userConfigPath: string)
    | Exit(reason: ExitReason)
    | IndexOutOfRange

  predicate IsDefaultKey(k: string) { k == "-d" || k == "--default" }
  predicate IsConfigKey(k: string) { k == "-c" || k == "--config" }
  predicate IsPathKey(k: string) { IsDefaultKey(k) || IsConfigKey(k) }

  function ExitReasonOf(k: string): ExitReason {
    if k == "-h" || k == "--help" then Help
    else if k == "-v" || k == "--version" then Version
    else UnknownKey
  }

  /**
   * Parsing of the arguments still to read, `rest`, when the two paths are
   * currently `cfg` and `user`: arguments are read in key/value pairs.
   */
  function ParseFrom(rest: seq<string>, cfg: string, user: string): (r: ParseOutcome)
    ensures r.Continue? ==> r.configPath == cfg || r.configPath in rest
    ensures r.Continue? ==> r.userConfigPath == user || r.userConfigPath in rest
    ensures r.Exit? ==> exists i :: 0 <= i < |rest| && !IsPathKey(rest[i]) && r.reason == ExitReasonOf(rest[i])
    ensures r == IndexOutOfRange ==> |rest| % 2 == 1
    decreases |rest|
  {
    if rest == [] then Continue(cfg, user)
    else if IsPathKey(rest[0]) && |rest| < 2 then IndexOutOfRange
    else if IsPathKey(rest[0]) then
      assert forall i :: 0 <= i < |rest| - 2 ==> rest[2..][i] == rest[i + 2];
      if IsDefaultKey(rest[0]) then ParseFrom(rest[2..], rest[1], user)
      else ParseFrom(rest[2..], cfg, rest[1])
    else Exit(ExitReasonOf(rest[0]))
  }

  /** `args` is the argument list without the program name (Go's `os.Args[1:]`). */
  function ParseArgs(args: seq<string>): (r: ParseOutcome)
    ensures r.Continue? ==> r.configPath == DefaultConfigPath || r.configPath in args
    ensures r.Continue? ==> r.userConfigPath == DefaultUserConfigPath || r.userConfigPath in args
  {
    ParseFrom(args, DefaultConfigPath, DefaultUserConfigPath)
  }

  /** Parsing continues only over an even-length list whose keys are all path keys. */
  lemma {:induction false} ContinueReadsPairs(rest: seq<string>, cfg: string, user: string)
    requires ParseFrom(rest, cfg, user).Continue?
    ensures |rest| % 2 == 0
    ensures forall i :: 0 <= i < |rest| && i % 2 == 0 ==> IsPathKey(rest[i])
  {
    if rest != [] {
      var r := if IsDefaultKey(rest[0]) then rest[1] else cfg;
      var s := if IsConfigKey(rest[0]) && !IsDefaultKey(rest[0]) then rest[1] else user;
      ContinueReadsPairs(rest[2..], r, s);
      forall i | 0 <= i < |rest| && i % 2 == 0
        ensures IsPathKey(rest[i])
      {
        if i >= 2 {
          assert rest[i] == rest[2..][i - 2];
        }
      }
    }
  }

  /** Conversely, an even-length list whose every key position holds a path key parses to `Continue`. */
  lemma {:induction false} PairsContinue(rest: seq<string>, cfg: string, user: string)
    requires |rest| % 2 == 0
    requires forall i :: 0 <= i < |rest| && i % 2 == 0 ==> IsPathKey(rest[i])
    ensures ParseFrom(rest, cfg, user).Continue?
  {
    if rest != [] {
      assert IsPathKey(rest[0]);
      var r := if IsDefaultKey(rest[0]) then rest[1] else cfg;
      var s := if IsDefaultKey(rest[0]) then user else rest[1];
      forall i | 0 <= i < |rest[2..]| && i % 2 == 0
        ensures IsPathKey(rest[2..][i])
      {
        assert rest[2..][i] == rest[i + 2];
      }
      PairsContinue(rest[2..], r, s);
    }
  }

  /** Appending `-d v` (or `--default v`) after a list that parses sets the default-config path to `v`. */
  lemma {:induction false} LastDefaultWins(pre: seq<string>, k: string, v: string, cfg: string, user: string)
    requires ParseFrom(pre, cfg, user).Continue?
    requires IsDefaultKey(k)
    ensures ParseFrom(pre + [k, v], cfg, user)
         == Continue(v, ParseFrom(pre, cfg, user).userConfigPath)
  {
    if pre != [] {
      var r := if IsDefaultKey(pre[0]) then pre[1] else cfg;
      var s := if IsConfigKey(pre[0]) && !IsDefaultKey(pre[0]) then pre[1] else user;
      assert (pre + [k, v])[2..] == pre[2..] + [k, v];
      LastDefaultWins(pre[2..], k, v, r, s);
    } else {
      assert ([] + [k, v])[2..] == [];
    }
  }

  /** Appending `-c v` (or `--config v`) after a list that parses sets the user-config path to `v`. */
  lemma {:induction false} LastConfigWins(pre: seq<string>, k: string, v: string, cfg: string, user: string)
    requires ParseFrom(pre, cfg, user).Continue?
    requires IsConfigKey(k)
    ensures ParseFrom(pre + [k, v], cfg, user)
         == Continue(ParseFrom(pre, cfg, user).configPath, v)
  {
    if pre != [] {
      var r := if IsDefaultKey(pre[0]) then pre[1] else cfg;
      var s := if IsConfigKey(pre[0]) && !IsDefaultKey(pre[0]) then pre[1] else user;
      assert (pre + [k, v])[2..] == pre[2..] + [k, v];
      LastConfigWins(pre[2..], k, v, r, s);
    } else {
      assert ([] + [k, v])[2..] == [];
    }
  }

  /**
   * A key other than a path key, reached in key position, ends the process
   * with status 0 whatever follows it; a path key reached as the last
   * argument reads past the end of the list.
   */
  lemma {:induction false} KeyPositionOutcome(pre: seq<string>, k: string, tail: seq<string>, cfg: string, user: string)
    requires ParseFrom(pre, cfg, user).Continue?
    ensures !IsPathKey(k) ==> ParseFrom(pre + [k] + tail, cfg, user) == Exit(ExitReasonOf(k))
    ensures IsPathKey(k) ==> ParseFrom(pre + [k], cfg, user) == IndexOutOfRange
  {
    if pre != [] {
      var r := if IsDefaultKey(pre[0]) then pre[1] else cfg;
      var s := if IsConfigKey(pre[0]) && !IsDefaultKey(pre[0]) then pre[1] else user;
      assert (pre + [k] + tail)[2..] == pre[2..] + [k] + tail;
      assert (pre + [k])[2..] == pre[2..] + [k];
      KeyPositionOutcome(pre[2..], k, tail, r, s);
    } else {
      assert [] + [k] + tail == [k] + tail;
    }
  }

  /** With no arguments the two default paths are kept. */
  lemma NoArgumentsKeepDefaults()
    ensures ParseArgs([]) == Continue("config.tomlz", "config_user.toml")
  {
  }

  /** The token after a path key is its value even when it looks like a key itself. */
  lemma ValueTakenVerbatim(v: string, rest: seq<string>)
    ensures ParseArgs(["-d", v] + rest) == ParseFrom(rest, v, DefaultUserConfigPath)
    ensures ParseArgs(["-c", v] + rest) == ParseFrom(rest, DefaultConfigPath, v)
  {
    assert (["-d", v] + rest)[2..] == rest;
    assert (["-c", v] + rest)[2..] == rest;
  }

  /** The outcome of `loadConfig` (main.go), which runs `argParse` first. */
  datatype LoadOutcome =
    | Loaded
    | Exited(reason: ExitReason)
    | Panicked
    | Fatal(path: string)

  /** The configuration `loadConfig` leaves when both reads are done: merged only if the user file was read. */
  function LoadedConfig(defaults: Config.ConfigData, user: Option<Config.UserConfig>): (r: Config.ConfigData)
    ensures user.None? ==> r == defaults
    ensures user.Some? ==> Config.TakesUserFields(r, user.value) && Config.KeepsOwnFields(r, defaults)
  {
    match user
    case None => defaults
    case Some(u) => Config.Merged(defaults, u)
  }

  /**
   * The package globals of main.go: the two configuration paths and the
   * configuration they lead to. File reading is given as two functions from a
   * path to the value read from it, or `None` when reading fails.
   */
  class Process {
    var configPath: string
    var userConfigPath: string
    const config: Config.Config

    constructor ()
      ensures configPath == DefaultConfigPath && userConfigPath == DefaultUserConfigPath
      ensures fresh(config) && config.Data() == Config.ZeroConfig
    {
      configPath := DefaultConfigPath;
      userConfigPath := DefaultUserConfigPath;
      config := new Config.Config(Config.ZeroConfig);
    }

    /** `argParse`: reads `args` in key/value pairs, reassigning the path globals. */
    method ArgParse(args: seq<string>) returns (r: ParseOutcome)
      modifies this
      ensures r == ParseFrom(args, old(configPath), old(userConfigPath))
      ensures r.Continue? ==> configPath == r.configPath && userConfigPath == r.userConfigPath
    {
      var i := 0;
      while i < |args|
        invariant 0 <= i <= |args|
        invariant ParseFrom(args[i..], configPath, userConfigPath)
               == ParseFrom(args, old(configPath), old(userConfigPath))
      {
        var key := args[i];
        assert args[i..][0] == key;
        if IsDefaultKey(key) {
          if i + 1 >= |args| {
            return IndexOutOfRange;
          }
          assert args[i..][2..] == args[i + 2..];
          configPath := args[i + 1];
        } else if IsConfigKey(key) {
          if i + 1 >= |args| {
            return IndexOutOfRange;
          }
          assert args[i..][2..] == args[i + 2..];
          userConfigPath := args[i + 1];
        } else {
          return Exit(ExitReasonOf(key));
        }
        i := i + 2;
      }
      assert args[i..] == [];
      r := Continue(configPath, userConfigPath);
    }

    /**
     * `loadConfig`: parse the arguments, read the default configuration
     * (fatal when that fails), then merge the user configuration only when it
     * could be read.
     */
    method LoadConfig(
      args: seq<string>,
      readConf: string -> Option<Config.ConfigData>,
      readUserConf: string -> Option<Config.UserConfig>)
      returns (r: LoadOutcome)
      modifies this, config
      ensures var p := ParseFrom(args, old(configPath), old(userConfigPath));
        match p
        case Exit(reason) => r == Exited(reason)
        case IndexOutOfRange => r == Panicked
        case Continue(cfgPath, userPath) =>
          && configPath == cfgPath && userConfigPath == userPath
          && (readConf(cfgPath).None? ==> r == Fatal(cfgPath))
          && (readConf(cfgPath).Some? ==>
                r == Loaded && config.Data() == LoadedConfig(readConf(cfgPath).value, readUserConf(userPath)))
    {
      var p := ArgParse(args);
      match p {
        case Exit(reason) => return Exited(reason);
        case IndexOutOfRange => return Panicked;
        case Continue(_, _) =>
      }
      var conf := readConf(configPath);
      if conf.None? {
        return Fatal(configPath);
      }
      config.server, config.log, config.mqtt := conf.value.server, conf.value.log, conf.value.mqtt;
      var user := readUserConf(userConfigPath);
      if user.Some? {
        config.MergeUserConfig(user.value);
      }
      r := Loaded;
    }
  }
}
