/** The three passes over the configuration mapping, as functions of the
    mapping before the pass: loading the lines of a `.env` file
    (`__import_vars`), casting values to literal types (`eval`) and copying
    values to alias keys (`alias`). The methods of `FlaskDotEnv.DotEnv` are
    proved to compute exactly these. */
module ConfigPasses {
  import opened Values
  import opened EnvLine

  type Config = map<string, Value>

  // ---------------------------------------------------------------------
  // Loading

  /** `[f(x) for x in s]`. */
  function MapSeq<A, B>(f: A -> B, s: seq<A>): (r: seq<B>)
    ensures |r| == |s|
  {
    if s == [] then [] else MapSeq(f, s[..|s| - 1]) + [f(s[|s| - 1])]
  }

  lemma {:induction false} MapSeqAppend<A, B>(f: A -> B, first: seq<A>, second: seq<A>)
    ensures MapSeq(f, first + second) == MapSeq(f, first) + MapSeq(f, second)
  {
    if second == [] {
      assert first + second == first;
    } else {
      var n := |second|;
      var all := first + second;
      var front := second[..n - 1];
      assert all[..|all| - 1] == first + front;
      assert all[|all| - 1] == second[n - 1];
      MapSeqAppend(f, first, front);
    }
  }

  /** What each line of the file assigns, in file order (`None` for a
      skipped line). */
  function Entries(lines: seq<string>): seq<Option<(string, string)>> {
    MapSeq(ParseLine, lines)
  }

  /** `string_or_numeric` with the float recogniser fixed. */
  function Classifier(isFloat: string -> bool): string -> Value {
    v => StringOrNumeric(v, isFloat)
  }

  /** The effect of one entry: an assignment sets its key to the classified
      value, overwriting any previous entry; a skipped line changes nothing. */
  function Assign(c: Config, entry: Option<(string, string)>, classify: string -> Value): Config {
    match entry
    case None => c
    case Some((key, val)) => c[key := classify(val)]
  }

  /** The entries applied one after another. */
  function AssignAll(c: Config, es: seq<Option<(string, string)>>, classify: string -> Value): Config {
    if es == [] then c
    else Assign(AssignAll(c, es[..|es| - 1], classify), es[|es| - 1], classify)
  }

  /** The mapping after loading `lines` into `c`. */
  function LoadLines(c: Config, lines: seq<string>, isFloat: string -> bool): Config {
    AssignAll(c, Entries(lines), Classifier(isFloat))
  }

  /** The value text of the last entry that assigns `key`. */
  function LastValue(es: seq<Option<(string, string)>>, key: string): Option<string> {
    if es == [] then None
    else match es[|es| - 1]
      case Some((k, v)) => if k == key then Some(v) else LastValue(es[..|es| - 1], key)
      case None => LastValue(es[..|es| - 1], key)
  }

  /** The value text of the last line of `lines` that assigns `key`. */
  function LastAssigned(lines: seq<string>, key: string): Option<string> {
    LastValue(Entries(lines), key)
  }

  lemma {:induction false} AssignAllAt(c: Config, es: seq<Option<(string, string)>>, key: string,
                                       classify: string -> Value)
    ensures key in AssignAll(c, es, classify) <==> key in c || LastValue(es, key).Some?
    ensures LastValue(es, key).Some? ==>
              AssignAll(c, es, classify)[key] == classify(LastValue(es, key).value)
    ensures LastValue(es, key).None? && key in c ==> AssignAll(c, es, classify)[key] == c[key]
  {
    if es != [] {
      AssignAllAt(c, es[..|es| - 1], key, classify);
    }
  }

  /** Last write wins: after loading, a key holds the classified value of
      the last line that assigns it, and a key no line assigns keeps its
      old entry (or stays absent). */
  lemma LoadLinesAt(c: Config, lines: seq<string>, key: string, isFloat: string -> bool)
    ensures key in LoadLines(c, lines, isFloat) <==> key in c || LastAssigned(lines, key).Some?
    ensures LastAssigned(lines, key).Some? ==>
              LoadLines(c, lines, isFloat)[key] == StringOrNumeric(LastAssigned(lines, key).value, isFloat)
    ensures LastAssigned(lines, key).None? && key in c ==> LoadLines(c, lines, isFloat)[key] == c[key]
  {
    AssignAllAt(c, Entries(lines), key, Classifier(isFloat));
  }

  /** Applying the same entries a second time changes nothing. */
  lemma AssignAllIdempotent(c: Config, es: seq<Option<(string, string)>>, classify: string -> Value)
    ensures AssignAll(AssignAll(c, es, classify), es, classify) == AssignAll(c, es, classify)
  {
    var once := AssignAll(c, es, classify);
    var twice := AssignAll(once, es, classify);
    forall key | true
      ensures (key in twice <==> key in once) && (key in once ==> twice[key] == once[key])
    {
      AssignAllAt(c, es, key, classify);
      AssignAllAt(once, es, key, classify);
    }
  }

  /** Loading the same lines a second time leaves the mapping as the first
      load left it. */
  lemma LoadIdempotent(c: Config, lines: seq<string>, isFloat: string -> bool)
    ensures LoadLines(LoadLines(c, lines, isFloat), lines, isFloat) == LoadLines(c, lines, isFloat)
  {
    AssignAllIdempotent(c, Entries(lines), Classifier(isFloat));
  }

  lemma {:induction false} AssignAllAppend(c: Config, first: seq<Option<(string, string)>>,
                                           second: seq<Option<(string, string)>>, classify: string -> Value)
    ensures AssignAll(c, first + second, classify) == AssignAll(AssignAll(c, first, classify), second, classify)
  {
    if second == [] {
      assert first + second == first;
    } else {
      var n := |second|;
      var all := first + second;
      var front := second[..n - 1];
      assert all[..|all| - 1] == first + front;
      assert all[|all| - 1] == second[n - 1];
      AssignAllAppend(c, first, front, classify);
    }
  }

  /** Loading one file after another is loading them concatenated. */
  lemma LoadLinesAppend(c: Config, first: seq<string>, second: seq<string>, isFloat: string -> bool)
    ensures LoadLines(c, first + second, isFloat) == LoadLines(LoadLines(c, first, isFloat), second, isFloat)
  {
    MapSeqAppend(ParseLine, first, second);
    AssignAllAppend(c, Entries(first), Entries(second), Classifier(isFloat));
  }

  lemma MapSeqSnoc<A, B>(f: A -> B, s: seq<A>, x: A)
    ensures MapSeq(f, s + [x]) == MapSeq(f, s) + [f(x)]
  {
    assert (s + [x])[..|s|] == s;
  }

  lemma AssignAllSnoc(c: Config, es: seq<Option<(string, string)>>, e: Option<(string, string)>,
                      classify: string -> Value)
    ensures AssignAll(c, es + [e], classify) == Assign(AssignAll(c, es, classify), e, classify)
  {
    assert (es + [e])[..|es|] == es;
  }

  /** Loading one more line applies that line's entry to the mapping loaded
      so far. */
  lemma LoadLinesSnoc(c: Config, lines: seq<string>, line: string, isFloat: string -> bool)
    ensures LoadLines(c, lines + [line], isFloat)
            == Assign(LoadLines(c, lines, isFloat), ParseLine(line), Classifier(isFloat))
  {
    MapSeqSnoc(ParseLine, lines, line);
    AssignAllSnoc(c, Entries(lines), ParseLine(line), Classifier(isFloat));
  }

  /** The loading of a prefix of `lines`, one line further. */
  lemma LoadLinesStep(c: Config, lines: seq<string>, i: nat, isFloat: string -> bool)
    requires i < |lines|
    ensures LoadLines(c, lines[..i + 1], isFloat)
            == Assign(LoadLines(c, lines[..i], isFloat), ParseLine(lines[i]), Classifier(isFloat))
  {
    assert lines[..i + 1] == lines[..i] + [lines[i]];
    LoadLinesSnoc(c, lines[..i], lines[i], isFloat);
  }

  lemma {:induction false} AssignAllSkipped(c: Config, es: seq<Option<(string, string)>>,
                                            classify: string -> Value)
    requires forall i :: 0 <= i < |es| ==> es[i].None?
    ensures AssignAll(c, es, classify) == c
  {
    if es != [] {
      var front := es[..|es| - 1];
      assert forall i :: 0 <= i < |front| ==> front[i] == es[i];
      AssignAllSkipped(c, front, classify);
    }
  }

  lemma {:induction false} MapSeqAt<A, B>(f: A -> B, s: seq<A>, i: nat)
    requires i < |s|
    ensures MapSeq(f, s)[i] == f(s[i])
  {
    if i < |s| - 1 {
      MapSeqAt(f, s[..|s| - 1], i);
    }
  }

  /** A file whose every line is skipped (comments, blank lines, lines
      without `=`) leaves the mapping unchanged. */
  lemma LoadSkippedLines(c: Config, lines: seq<string>, isFloat: string -> bool)
    requires forall i :: 0 <= i < |lines| ==> ParseLine(lines[i]).None?
    ensures LoadLines(c, lines, isFloat) == c
  {
    var es := Entries(lines);
    forall i | 0 <= i < |es| ensures es[i].None? {
      MapSeqAt(ParseLine, lines, i);
    }
    AssignAllSkipped(c, es, Classifier(isFloat));
  }

  // ---------------------------------------------------------------------
  // Casting

  /** The value after `eval` casts it to type `ty`: `literalEval` stands for
      `ast.literal_eval` on a string (`None` when it raises `ValueError` or
      `SyntaxError`) and `isInstance` for `isinstance`. `literal_eval`
      raises `ValueError` on anything that is not a string, so only strings
      are ever cast. */
  function LiteralCast<T>(v: Value, ty: T, literalEval: string -> Option<Value>,
                          isInstance: (Value, T) -> bool): (r: Value)
    ensures !v.Str? ==> r == v
    ensures r != v ==> v.Str? && literalEval(v.s) == Some(r) && isInstance(r, ty)
    ensures v.Str? && literalEval(v.s).Some? && isInstance(literalEval(v.s).value, ty)
            ==> r == literalEval(v.s).value
  {
    match v
    case Str(s) =>
      (match literalEval(s)
       case Some(parsed) => if isInstance(parsed, ty) then parsed else v
       case None => v)
    case _ => v
  }

  /** One `(key, type)` pair of `eval`: a key absent from the mapping is
      ignored. */
  function CastKey<T>(c: Config, key: string, ty: T, literalEval: string -> Option<Value>,
                      isInstance: (Value, T) -> bool): Config
  {
    if key in c then c[key := LiteralCast(c[key], ty, literalEval, isInstance)] else c
  }

  function CastAll<T>(c: Config, keys: seq<(string, T)>, literalEval: string -> Option<Value>,
                      isInstance: (Value, T) -> bool): Config
  {
    if keys == [] then c
    else
      var (k, ty) := keys[|keys| - 1];
      CastKey(CastAll(c, keys[..|keys| - 1], literalEval, isInstance), k, ty, literalEval, isInstance)
  }

  /** The keys of a dictionary are distinct. */
  predicate DistinctKeys<T>(pairs: seq<(string, T)>) {
    forall i, j :: 0 <= i < j < |pairs| ==> pairs[i].0 != pairs[j].0
  }

  /** `eval` neither adds nor removes keys. */
  lemma {:induction false} CastAllKeys<T>(c: Config, keys: seq<(string, T)>, literalEval: string -> Option<Value>,
                                          isInstance: (Value, T) -> bool)
    ensures CastAll(c, keys, literalEval, isInstance).Keys == c.Keys
  {
    if keys != [] {
      CastAllKeys(c, keys[..|keys| - 1], literalEval, isInstance);
    }
  }

  /** A present key named in the type map ends up as its cast value: the
      parsed literal when parsing succeeds with the requested type, the
      old value otherwise. */
  lemma {:induction false} CastAllAt<T>(c: Config, keys: seq<(string, T)>, i: nat,
                                        literalEval: string -> Option<Value>, isInstance: (Value, T) -> bool)
    requires DistinctKeys(keys)
    requires i < |keys| && keys[i].0 in c
    ensures keys[i].0 in CastAll(c, keys, literalEval, isInstance)
    ensures CastAll(c, keys, literalEval, isInstance)[keys[i].0]
            == LiteralCast(c[keys[i].0], keys[i].1, literalEval, isInstance)
  {
    var n := |keys|;
    var front := keys[..n - 1];
    CastAllKeys(c, front, literalEval, isInstance);
    if i == n - 1 {
      CastAllOthers(c, front, keys[i].0, literalEval, isInstance);
    } else {
      assert front[i] == keys[i];
      assert DistinctKeys(front);
      CastAllAt(c, front, i, literalEval, isInstance);
      assert keys[n - 1].0 != keys[i].0;
    }
  }

  /** A key the type map does not name keeps its entry. */
  lemma {:induction false} CastAllOthers<T>(c: Config, keys: seq<(string, T)>, key: string,
                                            literalEval: string -> Option<Value>, isInstance: (Value, T) -> bool)
    requires forall i :: 0 <= i < |keys| ==> keys[i].0 != key
    ensures key in c ==> key in CastAll(c, keys, literalEval, isInstance)
                         && CastAll(c, keys, literalEval, isInstance)[key] == c[key]
  {
    if keys != [] {
      var n := |keys|;
      CastAllKeys(c, keys[..n - 1], literalEval, isInstance);
      CastAllOthers(c, keys[..n - 1], key, literalEval, isInstance);
      assert keys[n - 1].0 != key;
    }
  }

  // ---------------------------------------------------------------------
  // Aliasing

  /** The mapping an `alias` call leaves behind, and the key whose lookup
      raised `KeyError`, if any. */
  datatype AliasOutcome = AliasOutcome(config: Config, missing: Option<string>)

  /** One pair `(source, target)`: `config[target] = config[source]`. */
  function AliasPair(c: Config, source: string, target: string): AliasOutcome {
    if source in c then AliasOutcome(c[target := c[source]], None)
    else AliasOutcome(c, Some(source))
  }

  /** The pairs applied in order; the first missing source stops the pass
      and the pairs before it stay applied. */
  function AliasAll(c: Config, maps: seq<(string, string)>): AliasOutcome {
    if maps == [] then AliasOutcome(c, None)
    else
      var before := AliasAll(c, maps[..|maps| - 1]);
      if before.missing.Some? then before
      else AliasPair(before.config, maps[|maps| - 1].0, maps[|maps| - 1].1)
  }

  /** A failing pair ends the pass: the call reports its source key, and the
      mapping is the one the pairs before it produced. */
  lemma {:induction false} AliasStopsAt(c: Config, maps: seq<(string, string)>, i: nat)
    requires i < |maps|
    requires AliasAll(c, maps[..i]).missing.None?
    requires maps[i].0 !in AliasAll(c, maps[..i]).config
    ensures AliasAll(c, maps) == AliasOutcome(AliasAll(c, maps[..i]).config, Some(maps[i].0))
  {
    var n := |maps|;
    if i == n - 1 {
      assert maps[..n - 1] == maps[..i];
    } else {
      assert maps[..n - 1][..i] == maps[..i];
      assert maps[..n - 1][i] == maps[i];
      AliasStopsAt(c, maps[..n - 1], i);
    }
  }

  /** A key that is no pair's target keeps its entry (or stays absent),
      whether or not the pass fails. */
  lemma {:induction false} AliasOthersUnchanged(c: Config, maps: seq<(string, string)>, key: string)
    requires forall i :: 0 <= i < |maps| ==> maps[i].1 != key
    ensures key in AliasAll(c, maps).config <==> key in c
    ensures key in c ==> AliasAll(c, maps).config[key] == c[key]
  {
    if maps != [] {
      var n := |maps|;
      AliasOthersUnchanged(c, maps[..n - 1], key);
      assert maps[n - 1].1 != key;
    }
  }

  /** The source of the last pair whose target is `key`. */
  function LastSource(maps: seq<(string, string)>, key: string): Option<string> {
    if maps == [] then None
    else if maps[|maps| - 1].1 == key then Some(maps[|maps| - 1].0)
    else LastSource(maps[..|maps| - 1], key)
  }

  /** When every source is present and no pair writes a key that some pair
      reads, the pass succeeds and each target holds the value of the
      source of the last pair naming it. */
  lemma {:induction false} AliasFromSources(c: Config, maps: seq<(string, string)>, key: string)
    requires forall i :: 0 <= i < |maps| ==> maps[i].0 in c
    requires forall i, j :: 0 <= i < |maps| && 0 <= j < |maps| ==> maps[i].0 != maps[j].1
    ensures AliasAll(c, maps).missing.None?
    ensures key in AliasAll(c, maps).config <==> key in c || LastSource(maps, key).Some?
    ensures LastSource(maps, key).Some? ==>
              LastSource(maps, key).value in c
              && AliasAll(c, maps).config[key] == c[LastSource(maps, key).value]
    ensures LastSource(maps, key).None? && key in c ==> AliasAll(c, maps).config[key] == c[key]
  {
    if maps != [] {
      var n := |maps|;
      var front := maps[..n - 1];
      assert forall i :: 0 <= i < |front| ==> front[i] == maps[i];
      AliasFromSources(c, front, key);
      var (source, target) := maps[n - 1];
      AliasFromSources(c, front, source);
      assert LastSource(front, source).None? by {
        LastSourceIsTarget(front, source);
      }
    }
  }

  lemma {:induction false} LastSourceIsTarget(maps: seq<(string, string)>, key: string)
    requires forall i :: 0 <= i < |maps| ==> maps[i].1 != key
    ensures LastSource(maps, key).None?
  {
    if maps != [] {
      LastSourceIsTarget(maps[..|maps| - 1], key);
    }
  }
}
