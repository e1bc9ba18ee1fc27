# Flask-DotEnv in Dafny

A model of Flask-DotEnv (`flask_dotenv.py`). This Flask extension reads a
`.env` file into the configuration mapping of a Flask application. It has
three passes, and each one updates that mapping in place:

- **Load** (`DotEnv.__import_vars`): reads each line of the file.
  - It removes the indentation and one leading `export`.
  - It skips comment lines and lines without `=`.
  - It splits the line at the first `=`, then cuts the value at the first
    `#` and removes one outer quote at each end.
  - It classifies the value with `string_or_numeric` (integer, then float,
    then the text itself) and stores it under the key. A later line for the
    same key overwrites an earlier one.
- **Cast** (`DotEnv.eval`): for each present key, the value is replaced by
  its literal parse (`ast.literal_eval`), but only when that parse succeeds
  and has the requested type.
- **Alias** (`DotEnv.alias`): for each pair `(k, v)`, the pass sets
  `config[v] = config[k]`. A missing `k` raises `KeyError`.

The project is made up of these modules:

- `Text` (`text.dfy`): Python's whitespace, `lstrip`/`rstrip`/`strip`,
  first-occurrence search and `replace(pat, rep, 1)`.
- `Values` (`values.dfy`): configuration values, `int()` on strings and
  `string_or_numeric`.
- `EnvLine` (`env_line.dfy`): the per-line parser, as pure functions. It
  includes a round trip with a line format `[export ]KEY=VALUE[ #comment]`.
- `ConfigPasses` (`config_passes.dfy`): each of the three passes as a
  function of the mapping before the pass, with lemmas about it. Examples
  are last write wins, idempotence, keys that are not touched, and where an
  alias stops.
- `FlaskDotEnv` (`flask_dotenv.dfy`): the classes `App` (the host
  application and its `config` field) and `DotEnv` (fields `app` and
  `verboseMode`).
  - Its methods `ImportVars`, `Eval` and `Alias` are loops that update
    `app.config` in place.
  - Each method is proved to compute exactly the matching `ConfigPasses`
    function.
- `Scenarios` (`scenarios.dfy`): concrete lines and mappings worked through
  the model.

Some parts of the program are passed in as parameters:

- Python's float syntax is the predicate `isFloat`. A float keeps the text
  it was read from.
- `ast.literal_eval` is the function `literalEval`. It returns `None` where
  Python raises `ValueError` or `SyntaxError`.
- `isinstance` is the predicate `isInstance`.
- The `.env` file is given as its lines, or as `None` when it does not
  exist.

Three details of the code decide how some lines and calls come out:

- **Alias direction.** In `alias`, the key of each pair is the existing
  entry and the value is the new name (`self.app.config[v] =
  self.app.config[k]`), as the docstring example at `flask_dotenv.py:111-114`
  shows. So `{"NEW": "OLD"}` with only `OLD` present raises `KeyError` for
  `NEW`. `Scenarios.AliasSample` shows both directions.
- **Quote removal.** The regular expression removes a leading quote and a
  trailing quote independently of each other, so `"abc'` and `'abc` both
  lose their quotes.
- **Whitespace after `=`.** Without a `#`, the value is never stripped
  itself. Only the right end is trimmed, by the whole-line `strip`.
  Whitespace after `=` survives and then shields a quote from removal
  (`Scenarios.SpaceBeforeQuote`).

## Model

| member | source | states |
|---|---|---|
| Text.LStrip | flask_dotenv.py:54 | `lstrip` removes only whitespace, all of it up to the first other character; the rest is a suffix of the input |
| Text.RStrip | flask_dotenv.py:59 | `rstrip` removes only whitespace, all of it back to the last other character; the rest is a prefix of the input |
| Text.Strip | flask_dotenv.py:59-62 | `strip` leaves a text that neither starts nor ends with whitespace and is no longer than the input |
| Text.StripPadded | flask_dotenv.py:59-62 | `strip` of whitespace + a trimmed text + whitespace is exactly that text |
| Text.StripSpaceSuffix | flask_dotenv.py:59 | whitespace appended to a text does not change its `strip` |
| Text.NonSpaceInStrip | flask_dotenv.py:59-61 | a non-whitespace character (`=`, `#`) occurs in the stripped text exactly when it occurs in the original |
| Text.IndexOf | flask_dotenv.py:59-62 | the position of the first occurrence of a character, or the length when it does not occur; no earlier occurrence exists |
| Values.ParseIntDecimal | flask_dotenv.py:16 | `int()` reads back the decimal spelling of every integer (no digit limit is modelled), surrounded by whitespace (the `str.isspace` set, see "## Left out") |
| Values.ParseIntDigits | flask_dotenv.py:16 | `int()` of ASCII digits with an optional `+` or `-` and surrounding whitespace is the number the digits denote, negated for `-` (leading zeros allowed: `007`, `+5`, `-0`) |
| Values.StringOrNumeric | flask_dotenv.py:14-23 | the result is an integer exactly when integer parsing succeeds, and then it is the parsed integer; a float exactly when that fails and the float recogniser accepts, and then it keeps the input text; otherwise the input text unchanged |
| Values.ClassifyDecimal | flask_dotenv.py:14-17 | a decimal integer is classified as that integer whatever the float recogniser says (integer takes precedence) |
| Values.ClassifyDigits | flask_dotenv.py:14-17 | every optionally signed digit string is classified as the integer it denotes, whatever the float recogniser says |
| Values.ClassifyNonInteger | flask_dotenv.py:18-23 | text holding a character no integer literal can hold is a float if float syntax accepts it, else the text itself |
| Text.ReplaceFirstAt | flask_dotenv.py:56 | `replace(pat, rep, 1)` replaces exactly the first occurrence of `pat` and keeps the text on both sides of it |
| Text.ReplaceFirstAbsent | flask_dotenv.py:56 | `replace(pat, rep, 1)` leaves a text without `pat` unchanged |
| EnvLine.AfterExportReplace | flask_dotenv.py:54-56 | the model's export step is `lstrip()` followed, on a line starting with `export`, by `replace('export', '', 1)` |
| EnvLine.AfterExportExported | flask_dotenv.py:54-56 | an indented line starting with `export` loses the indentation and those six letters only, whatever follows (one removal, as a prefix) |
| EnvLine.AfterExportPlain | flask_dotenv.py:54-56 | an indented `key=rest` whose key does not start with `export` loses only its indentation |
| EnvLine.SplitAtEquals | flask_dotenv.py:59 | no split exactly when there is no `=`; otherwise the text is key + `=` + rest with no `=` in the key (first `=`) |
| EnvLine.CutComment | flask_dotenv.py:61-62 | the value never holds `#` afterwards, and a value without `#` is left untouched |
| EnvLine.CutCommentAt | flask_dotenv.py:61-62 | a value with a `#` becomes the stripped text before its first `#` |
| EnvLine.StripQuotesWrapped | flask_dotenv.py:76-77 | an optional quote, a middle part and an optional quote lose exactly the outer quotes: independently, unmatched, inner quotes kept |
| EnvLine.ParseLineSkips | flask_dotenv.py:54-59 | a line is skipped exactly when, after `lstrip` and one `export` removal, it starts with `#` or holds no `=` |
| EnvLine.ParseLineShape | flask_dotenv.py:59-62 | an accepted key is stripped and holds no `=`; an accepted value holds no `#` |
| EnvLine.ParseEntryLine | flask_dotenv.py:54-62 | `[indent][export<sep>]key=value[#comment]` gives back the key and the value: everything after the first `=` (it may hold `=`), stripped when a comment follows and only right-stripped otherwise, outer quotes removed |
| EnvLine.ParseLineTrailingSpace | flask_dotenv.py:51-59 | trailing whitespace (the line terminator that file iteration keeps) never changes what a line assigns |
| ConfigPasses.LoadLinesAt | flask_dotenv.py:51-78 | after loading, a key holds the classified value of the last line assigning it; a key no line assigns keeps its old entry or stays absent |
| ConfigPasses.LoadIdempotent | flask_dotenv.py:51-78 | loading the same lines twice leaves the mapping as loading them once |
| ConfigPasses.LoadLinesAppend | flask_dotenv.py:51-78 | loading two files one after the other is loading their concatenation |
| ConfigPasses.LoadLinesSnoc | flask_dotenv.py:51-78 | one more line applies its own entry to the mapping loaded so far (file order) |
| ConfigPasses.LoadSkippedLines | flask_dotenv.py:57-58 | a file of skipped lines (comments, blanks, lines without `=`) leaves the mapping unchanged |
| ConfigPasses.LiteralCast | flask_dotenv.py:89-104 | a value changes only when it is a string whose literal parse succeeds with the requested type, and then becomes the parse; non-strings never change |
| ConfigPasses.CastAllKeys | flask_dotenv.py:87-97 | `eval` neither adds nor removes keys |
| ConfigPasses.CastAllAt | flask_dotenv.py:87-97 | a present key named in the type map ends up as the cast of its old value |
| ConfigPasses.CastAllOthers | flask_dotenv.py:87-97 | a key the type map does not name keeps its entry |
| ConfigPasses.AliasStopsAt | flask_dotenv.py:116-121 | the first pair with a missing source ends the pass with that key reported, and the pairs before it stay applied |
| ConfigPasses.AliasOthersUnchanged | flask_dotenv.py:116-121 | a key that is no pair's target keeps its entry or stays absent, whether or not the pass fails |
| ConfigPasses.AliasFromSources | flask_dotenv.py:116-121 | with every source present and no source also a target, the pass succeeds and each target holds the value of the source of the last pair naming it |
| FlaskDotEnv.DotEnv.constructor | flask_dotenv.py:29-33 | binds the application, clears verbose mode, and when there is an application loads the default file into it (nothing when the file is missing) |
| FlaskDotEnv.DotEnv.InitApp | flask_dotenv.py:35-46 | keeps an application bound earlier, sets verbose mode, and loads the file into the bound application's config; a missing file leaves the config unchanged |
| FlaskDotEnv.DotEnv.ImportVars | flask_dotenv.py:48-78 | the loop leaves `app.config` equal to `LoadLines` of the old config and the lines |
| FlaskDotEnv.DotEnv.ImportEntry | flask_dotenv.py:63-78 | a skipped line changes nothing; an accepted one sets its key to the classified value |
| FlaskDotEnv.DotEnv.Eval | flask_dotenv.py:80-104 | the loop leaves `app.config` equal to `CastAll` of the old config and the type map |
| FlaskDotEnv.DotEnv.Alias | flask_dotenv.py:106-121 | the loop leaves `app.config` and the reported missing key equal to `AliasAll` of the old config and the pairs |
| Scenarios.ExportWithTrailingComment | flask_dotenv.py:54-62 | `export D=foo # trailing` assigns `D` the text `foo` |
| Scenarios.ExportWithoutSeparator | flask_dotenv.py:55-60 | `exportFOO=1` assigns key `FOO` |
| Scenarios.QuotedValue | flask_dotenv.py:76-77 | `E="quoted"` assigns the text `quoted` |
| Scenarios.SpaceBeforeQuote | flask_dotenv.py:59-62 | `G= 'x'` assigns ` 'x`: the space after `=` stays and shields the opening quote |
| Scenarios.CommentAndBlankLines | flask_dotenv.py:57-59 | a comment line and a blank line assign nothing |
| Scenarios.LoadSample | flask_dotenv.py:48-78 | `A=1`, `B=2.5`, `C=hello`, a comment and a blank line give exactly `{A: 1, B: 2.5, C: "hello"}` |
| Scenarios.CastSample | flask_dotenv.py:87-104 | `"[1, 2, 3]"` cast to a list type becomes the list; text that is not literal syntax stays |
| Scenarios.AliasSample | flask_dotenv.py:116-121 | `{"OLD": "NEW"}` copies `OLD` to `NEW`; `{"NEW": "OLD"}` fails on the missing `NEW` and changes nothing |

## Left out

- File access is not modelled: `os.getcwd`, `os.path.join`, `os.path.exists` and `open`. The file is given as its lines, or as `None` when it does not exist.
- `warnings.warn` and every verbose or failure `print` are not modelled. They only write messages. `verboseMode` is stored but affects nothing else.
- Float parsing is not modelled, because it is floating-point arithmetic. The predicate `isFloat` stands for Python's float syntax. `Float` keeps the literal text, so `2.5` and `2.50` are different values in the model.
- Values.ParseInt: it does not model `int()` accepting underscores between digits or non-ASCII decimal digits. It accepts only an optional sign and ASCII digits, with surrounding whitespace. That whitespace is the whole `str.isspace` set, so the model also skips U+001C to U+001F (the information separators), which `int()` does not skip; such a value would be an integer in the model and text in Python. Nor does it model the limit of 4300 digits that `int()` enforces on strings in CPython 3.11 and later (and in the 3.7.14, 3.8.14, 3.9.14 and 3.10.7 security releases): there a longer digit string raises `ValueError`, and `string_or_numeric` then falls through to `float()`, while the model reads it as an integer. The model follows Python versions without that limit.
- `ast.literal_eval` and `isinstance` are parameters of `Eval`, because they are library code.
  - Failures other than `ValueError` and `SyntaxError` are not modelled: they escape `eval` in the source. Examples are the `TypeError` that `literal_eval("{[]: 1}")` raises for its unhashable key, a `TypeError` from a bad type argument to `isinstance`, `MemoryError` and `RecursionError`.
  - Literal kinds without a constructor of their own in `Value` (bytes, complex numbers, `Ellipsis`) are the single constructor `Other`, which keeps their `repr`.
  - A non-string value is never cast, because `literal_eval` raises `ValueError` on it.
- The `callable(val)` guard is not modelled. `val` is always a string there, so the guard always lets the assignment through.
- The Flask application object is not modelled beyond its `config` mapping.
- FlaskDotEnv.DotEnv.ImportVars, FlaskDotEnv.DotEnv.Eval, FlaskDotEnv.DotEnv.Alias: these require a bound application. In the source, an unbound application raises `AttributeError` only where `self.app.config` is first touched: at the first accepted line of the file, or at the first pair given to `eval` or `alias`. With nothing to do (a file of comment, blank or `=`-less lines, an empty `keys` or `maps`) it returns normally.
- The dictionaries passed to `eval` and `alias` are sequences of pairs, in their iteration order. `ConfigPasses.CastAllAt` states distinct keys as a precondition.
- Whitespace is the character set of `str.isspace`, as listed in `Text.IsSpace`. Case folding and normalisation play no part and are not modelled.
- Exceptions raised while reading lines, such as decoding errors, are not modelled.
