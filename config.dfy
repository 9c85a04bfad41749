/** Configuration in src/lib.rs: `Args` (the two switches, started from the
    environment and then turned on by flag tokens) and `Config::build`
    (the two positional arguments plus the switches). The process
    environment is replaced by `envSet`: whether `env::var("IGNORE_CASE")`
    succeeds, i.e. the variable is present with a valid Unicode value. */
module Configuration {

  const IGNORE_CASE_FLAG: string := "--ignore-case"
  const SAVE_OUTPUT_FLAG: string := "--save-output"
  const NOT_ENOUGH_ARGUMENTS: string := "not enough arguments"

  /** Rust's `Result`. */
  datatype Result<T, E> = Ok(value: T) | Err(error: E)

  /** The values of the two switches of `Args`. */
  datatype Flags = Flags(ignoreCase: bool, saveOutput: bool)

  /** What one token does to the switches: a flag token turns its switch on,
      any other token changes nothing. */
  function Step(flags: Flags, arg: string): Flags {
    if arg == IGNORE_CASE_FLAG then flags.(ignoreCase := true)
    else if arg == SAVE_OUTPUT_FLAG then flags.(saveOutput := true)
    else flags
  }

  /** The switches after the tokens of `args` are taken in order. */
  function Scan(flags: Flags, args: seq<string>): Flags
    decreases |args|
  {
    if args == [] then flags else Step(Scan(flags, args[..|args| - 1]), args[|args| - 1])
  }

  /** A switch ends up on exactly when it started on or its flag occurs among
      the tokens: flags only ever turn switches on. */
  lemma {:induction false} ScanSwitchesOn(flags: Flags, args: seq<string>)
    ensures Scan(flags, args) ==
      Flags(flags.ignoreCase || IGNORE_CASE_FLAG in args, flags.saveOutput || SAVE_OUTPUT_FLAG in args)
    decreases |args|
  {
    if args != [] {
      var init := args[..|args| - 1];
      ScanSwitchesOn(flags, init);
      assert args == init + [args[|args| - 1]];
    }
  }

  /** Only which tokens occur matters, not their order or how often they occur. */
  lemma ScanIgnoresOrder(flags: Flags, args: seq<string>, args': seq<string>)
    requires forall arg :: arg in args <==> arg in args'
    ensures Scan(flags, args) == Scan(flags, args')
  {
    ScanSwitchesOn(flags, args);
    ScanSwitchesOn(flags, args');
  }

  /** A token that is neither flag can be dropped from anywhere. */
  lemma ScanIgnoresOtherTokens(flags: Flags, before: seq<string>, arg: string, after: seq<string>)
    requires arg != IGNORE_CASE_FLAG && arg != SAVE_OUTPUT_FLAG
    ensures Scan(flags, before + [arg] + after) == Scan(flags, before + after)
  {
    ScanSwitchesOn(flags, before + [arg] + after);
    ScanSwitchesOn(flags, before + after);
    assert forall x :: x in before + [arg] + after <==> x in before + after || x == arg;
  }

  /** The value of a built `Config`. */
  datatype Settings = Settings(query: string, filePath: string, ignoreCase: bool, saveOutput: bool)

  /** What `Config::build` produces from the argument vector (program name
      first) and `envSet`, whether `IGNORE_CASE` holds a Unicode value.
      Every token, the program name and both positionals included, is
      scanned for flags. */
  function Resolve(args: seq<string>, envSet: bool): Result<Settings, string> {
    if |args| < 3 then Err(NOT_ENOUGH_ARGUMENTS)
    else
      var flags := Scan(Flags(envSet, false), args);
      Ok(Settings(args[1], args[2], flags.ignoreCase, flags.saveOutput))
  }

  /** Case-insensitivity is on exactly when the environment or the flag asks
      for it; saving is on exactly when its flag is given. */
  lemma ResolvePrecedence(args: seq<string>, envSet: bool)
    requires |args| >= 3
    ensures Resolve(args, envSet).Ok?
    ensures Resolve(args, envSet).value.ignoreCase == (envSet || IGNORE_CASE_FLAG in args)
    ensures Resolve(args, envSet).value.saveOutput == (SAVE_OUTPUT_FLAG in args)
  {
    ScanSwitchesOn(Flags(envSet, false), args);
  }

  /** No argument vector turns case-insensitivity off once `envSet` holds. */
  lemma EnvironmentCannotBeOverridden(args: seq<string>)
    requires |args| >= 3
    ensures Resolve(args, true).value.ignoreCase
  {
    ScanSwitchesOn(Flags(true, false), args);
  }

  /** A query spelled "--ignore-case" is taken as the query and also turns
      case-insensitivity on, because the positionals are scanned as well. */
  lemma QueryLikeFlagTurnsOnIgnoreCase(args: seq<string>)
    requires |args| >= 3 && args[1] == IGNORE_CASE_FLAG
    ensures Resolve(args, false).value.query == IGNORE_CASE_FLAG
    ensures Resolve(args, false).value.ignoreCase
  {
    ScanSwitchesOn(Flags(false, false), args);
  }

  /** `Args`: the two switches, updated in place by `config_args`. */
  class Args {
    var ignoreCase: bool
    var saveOutput: bool

    function Value(): Flags
      reads this
    {
      Flags(ignoreCase, saveOutput)
    }

    /** `Args::new`: case-insensitivity starts from whether `IGNORE_CASE` is
        present with a valid Unicode value; saving starts off. */
    constructor (envSet: bool)
      ensures ignoreCase == envSet && !saveOutput
    {
      ignoreCase := envSet;
      saveOutput := false;
    }

    /** `Args::config_args`: every token is looked at; a flag turns its switch
        on and the loop moves on, any other token is ignored. */
    method ConfigArgs(args: seq<string>)
      modifies this
      ensures Value() == Scan(old(Value()), args)
      ensures ignoreCase == (old(ignoreCase) || IGNORE_CASE_FLAG in args)
      ensures saveOutput == (old(saveOutput) || SAVE_OUTPUT_FLAG in args)
    {
      for i := 0 to |args|
        invariant Value() == Scan(old(Value()), args[..i])
      {
        assert args[..i + 1][..i] == args[..i];
        var arg := args[i];
        if arg == IGNORE_CASE_FLAG {
          ignoreCase := true;
          continue;
        }
        if arg == SAVE_OUTPUT_FLAG {
          saveOutput := true;
          continue;
        }
      }
      assert args[..|args|] == args;
      ScanSwitchesOn(old(Value()), args);
    }
  }

  /** `Config`: the query, the file path and the switches. */
  class Config {
    const query: string
    const filePath: string
    const args: Args

    function Value(): Settings
      reads this, args
    {
      Settings(query, filePath, args.ignoreCase, args.saveOutput)
    }

    constructor (query: string, filePath: string, args: Args)
      ensures this.query == query && this.filePath == filePath && this.args == args
    {
      this.query := query;
      this.filePath := filePath;
      this.args := args;
    }

    /** `Config::build`: fewer than three tokens is an error; otherwise the
        second and third tokens are the query and the file path, and the
        switches come from `envSet` and a scan of all the tokens. */
    static method Build(args: seq<string>, envSet: bool) returns (r: Result<Config, string>)
      ensures r.Err? <==> |args| < 3
      ensures r.Err? ==> r.error == NOT_ENOUGH_ARGUMENTS
      ensures r.Ok? ==> r.value.query == args[1] && r.value.filePath == args[2]
      ensures r.Ok? ==> r.value.args.ignoreCase == (envSet || IGNORE_CASE_FLAG in args)
      ensures r.Ok? ==> r.value.args.saveOutput == (SAVE_OUTPUT_FLAG in args)
      ensures r.Ok? ==> Resolve(args, envSet) == Ok(r.value.Value())
    {
      if |args| < 3 {
        return Err(NOT_ENOUGH_ARGUMENTS);
      }
      var query := args[1];
      var filePath := args[2];
      var cliArgs := new Args(envSet);
      cliArgs.ConfigArgs(args);
      var config := new Config(query, filePath, cliArgs);
      return Ok(config);
    }
  }
}
