/** The `DotEnv` extension object and the host application whose
    configuration mapping it updates in place. The file system is not
    modelled: a `.env` file is given as its lines, or `None` when it does
    not exist. */
module FlaskDotEnv {
  import opened Values
  import opened EnvLine
  import opened ConfigPasses

  /** The host application; only its configuration mapping matters here.
      The mapping is owned by the application and shared by reference. */
  class App {
    var config: Config

    constructor (config: Config)
      ensures this.config == config
    {
      this.config := config;
    }
  }

  class DotEnv {
    var app: App?
    var verboseMode: bool

    /** `DotEnv(app)`: binds the application and, when there is one, loads
        the default `.env` file into it (`envFile` is that file's lines, or
        `None` when it does not exist). */
    constructor (app: App?, envFile: Option<seq<string>>, isFloat: string -> bool)
      modifies app
      ensures this.app == app && !verboseMode
      ensures app != null ==>
                app.config == if envFile.None? then old(app.config)
                              else LoadLines(old(app.config), envFile.value, isFloat)
    {
      this.app := app;
      this.verboseMode := false;
      new;
      if app != null {
        InitApp(app, envFile, false, isFloat);
      }
    }

    /** `init_app`: keeps an application bound earlier, records the verbosity,
        and loads the `.env` file into the bound application's
        configuration; a missing file leaves it unchanged (the source only
        warns). */
    method InitApp(app: App, envFile: Option<seq<string>>, verboseMode: bool, isFloat: string -> bool)
      modifies this, if this.app == null then app else this.app
      ensures this.app == if old(this.app) == null then app else old(this.app)
      ensures this.verboseMode == verboseMode
      ensures var target := this.app;
              target.config == if envFile.None? then old(target.config)
                               else LoadLines(old(target.config), envFile.value, isFloat)
    {
      if this.app == null {
        this.app := app;
      }
      this.verboseMode := verboseMode;
      if envFile.Some? {
        ImportVars(envFile.value, isFloat);
      }
    }

    /** `__import_vars`: every line in file order; an accepted line writes
        its key, overwriting any existing entry. */
    method ImportVars(lines: seq<string>, isFloat: string -> bool)
      requires app != null
      modifies app
      ensures app.config == LoadLines(old(app.config), lines, isFloat)
    {
      var i := 0;
      while i < |lines|
        invariant 0 <= i <= |lines|
        invariant app.config == LoadLines(old(app.config), lines[..i], isFloat)
      {
        var entry := ParseLine(lines[i]);
        ImportEntry(entry, isFloat);
        LoadLinesStep(old(app.config), lines, i, isFloat);
        i := i + 1;
      }
      assert lines[..|lines|] == lines;
    }

    /** The effect of one parsed line in `__import_vars`: a skipped line
        (the `continue` and the caught `ValueError`) changes nothing, an
        accepted one sets `config[key]` to the classified value. */
    method ImportEntry(entry: Option<(string, string)>, isFloat: string -> bool)
      requires app != null
      modifies app
      ensures app.config == Assign(old(app.config), entry, Classifier(isFloat))
    {
      if entry.Some? {
        var (key, val) := entry.value;
        app.config := app.config[key := StringOrNumeric(val, isFloat)];
      }
    }

    /** `eval`: for each `(key, type)` pair whose key is present, the value is
        replaced by its literal parse when that parse succeeds and has the
        requested type; otherwise it is left alone. A parse that fails with
        `ValueError` or `SyntaxError` is the `None` of `literalEval`; one
        that raises anything else (a `TypeError` for the unhashable key in
        `{[]: 1}`, say) escapes `eval` in the source and is not modelled. */
    method Eval<T>(keys: seq<(string, T)>, literalEval: string -> Option<Value>,
                   isInstance: (Value, T) -> bool)
      requires app != null
      modifies app
      ensures app.config == CastAll(old(app.config), keys, literalEval, isInstance)
    {
      var i := 0;
      while i < |keys|
        invariant 0 <= i <= |keys|
        invariant app.config == CastAll(old(app.config), keys[..i], literalEval, isInstance)
      {
        var (k, ty) := keys[i];
        if k in app.config {
          var current := app.config[k];
          if current.Str? {
            var parsed := literalEval(current.s);
            if parsed.Some? && isInstance(parsed.value, ty) {
              app.config := app.config[k := parsed.value];
            }
          }
        }
        assert keys[..i + 1][..i] == keys[..i];
        i := i + 1;
      }
      assert keys[..|keys|] == keys;
    }

    /** `alias`: for each `(source, target)` pair in order,
        `config[target] = config[source]`. A missing source raises
        `KeyError`: the call returns that key, and the pairs before it stay
        applied. */
    method Alias(maps: seq<(string, string)>) returns (missing: Option<string>)
      requires app != null
      modifies app
      ensures app.config == AliasAll(old(app.config), maps).config
      ensures missing == AliasAll(old(app.config), maps).missing
    {
      var i := 0;
      while i < |maps|
        invariant 0 <= i <= |maps|
        invariant AliasAll(old(app.config), maps[..i]) == AliasOutcome(app.config, None)
      {
        var (k, v) := maps[i];
        assert maps[..i + 1][..i] == maps[..i];
        if k !in app.config {
          AliasStopsAt(old(app.config), maps, i);
          return Some(k);
        }
        app.config := app.config[v := app.config[k]];
        i := i + 1;
      }
      assert maps[..|maps|] == maps;
      missing := None;
    }
  }
}
