/** Concrete `.env` lines and configuration mappings, worked through the
    model: what the loader, the cast pass and the alias pass do to them. */
module Scenarios {
  import opened Text
  import opened Values
  import opened EnvLine
  import opened ConfigPasses

  // ---------------------------------------------------------------------
  // Single lines

  /** `export D=foo # trailing` assigns `D` the text `foo`: the `export`
      token, the comment and the space before it are all gone. */
  lemma ExportWithTrailingComment()
    ensures ParseLine("export D=foo # trailing") == Some(("D", "foo"))
  {
    CommentedEntry("export D=foo # trailing", "export ", Some(" "), "D", "foo", " ", " trailing");
  }

  /** `export` is removed as a bare prefix: `exportFOO=1` assigns `FOO`. */
  lemma ExportWithoutSeparator()
    ensures ParseLine("exportFOO=1") == Some(("FOO", "1"))
  {
    PlainEntry("exportFOO=1", "export", Some(""), "FOO", "1");
  }

  /** `E="quoted"` assigns the text between the quotes. */
  lemma QuotedValue()
    ensures ParseLine("E=\"quoted\"") == Some(("E", "quoted"))
  {
    QuotedEntry("E=\"quoted\"", "E", "quoted", '"');
  }

  /** Whitespace after `=` survives when the line has no comment; the quote
      behind it is then not at the start of the value and stays, while the
      closing quote goes. */
  lemma SpaceBeforeQuote()
    ensures ParseLine("G= 'x'") == Some(("G", " 'x"))
  {
    UnquotedEntry("G= 'x'", "G", " 'x", "'");
  }

  /** A comment line and a blank line assign nothing. */
  lemma CommentAndBlankLines()
    ensures ParseLine("#comment") == None
    ensures ParseLine("") == None
  {
    CommentLine("#comment", "", "comment");
    NoEqualsLine("");
  }

  // Each concrete line above is an instance of one of the shapes below,
  // which are proved for all texts of that shape.

  /** `[export<sep>]key=value<pad>#comment` with an unquoted, trimmed value. */
  lemma CommentedEntry(line: string, head: string, exportSep: Option<string>, key: string,
                       value: string, pad: string, comment: string)
    requires head == ExportPrefix(exportSep)
    requires line == head + key + "=" + value + pad + "#" + comment
    requires exportSep.Some? ==> AllSpace(exportSep.value)
    requires KeyOk(key, exportSep) && '#' !in value && Trimmed(value) && AllSpace(pad)
    requires value == [] || (!IsQuote(value[0]) && !IsQuote(value[|value| - 1]))
    ensures ParseLine(line) == Some((key, value))
  {
    assert '#' !in value + pad;
    CommentedLine(line, head, exportSep, key, value + pad, comment);
    ParseEntryLine("", exportSep, key, value + pad, Some(comment));
    PaddedUnquoted(value, pad);
  }

  lemma CommentedLine(line: string, head: string, exportSep: Option<string>, key: string,
                      value: string, comment: string)
    requires head == ExportPrefix(exportSep)
    requires line == head + key + "=" + value + "#" + comment
    ensures EntryLine("", exportSep, key, value, Some(comment)) == line
  {
    var body := EntryBody(key, value, Some(comment));
    assert body == key + "=" + value + ("#" + comment);
    assert EntryLine("", exportSep, key, value, Some(comment)) == "" + head + body;
    assert "" + head + body == head + body;
    SplitConcat(head, key, value, comment);
  }

  /** Regrouping the concatenation of a commented line; stated apart so that
      the solver meets it without the definitions above in scope. */
  lemma SplitConcat(head: string, key: string, value: string, comment: string)
    ensures head + (key + "=" + value + ("#" + comment)) == head + key + "=" + value + "#" + comment
  {
  }

  lemma PaddedUnquoted(value: string, pad: string)
    requires Trimmed(value) && AllSpace(pad)
    requires value == [] || (!IsQuote(value[0]) && !IsQuote(value[|value| - 1]))
    ensures StripQuotes(Strip(value + pad)) == value
  {
    var t := value + pad;
    assert "" + value + pad == t;
    StripPadded("", value, pad);
    assert Strip(t) == value;
    Unquoted(value);
  }

  /** `[export<sep>]key=value` with an unquoted value that does not end in
      whitespace. */
  lemma PlainEntry(line: string, head: string, exportSep: Option<string>, key: string, value: string)
    requires head == ExportPrefix(exportSep)
    requires line == head + key + "=" + value
    requires exportSep.Some? ==> AllSpace(exportSep.value)
    requires KeyOk(key, exportSep) && '#' !in value
    requires value == [] || (!IsQuote(value[0]) && !IsQuote(value[|value| - 1]) && !IsSpace(value[|value| - 1]))
    ensures ParseLine(line) == Some((key, value))
  {
    assert EntryLine("", exportSep, key, value, None) == line;
    ParseEntryLine("", exportSep, key, value, None);
    RStripPadded(value, "");
    assert value + "" == value;
    Unquoted(value);
  }

  /** `key=<q>mid<q>` for a quote character `q`. */
  lemma QuotedEntry(line: string, key: string, mid: string, q: char)
    requires line == key + "=" + [q] + mid + [q]
    requires KeyOk(key, None) && '#' !in mid && IsQuote(q)
    ensures ParseLine(line) == Some((key, mid))
  {
    var value := [q] + mid + [q];
    assert line == key + "=" + value;
    assert '#' !in value;
    UncommentedEntry(line, key, value);
    StripQuotesWrapped([q], mid, [q]);
  }

  /** `key=mid<trail>` where `mid` does not start with a quote and `trail`
      is a single quote character. */
  lemma UnquotedEntry(line: string, key: string, mid: string, trail: string)
    requires line == key + "=" + mid + trail
    requires |trail| == 1 && IsQuote(trail[0])
    requires KeyOk(key, None) && '#' !in mid && mid != [] && !IsQuote(mid[0])
    ensures ParseLine(line) == Some((key, mid))
  {
    var value := mid + trail;
    assert line == key + "=" + value;
    TrailingQuote(mid, trail);
    UncommentedEntry(line, key, value);
  }

  lemma TrailingQuote(mid: string, trail: string)
    requires |trail| == 1 && IsQuote(trail[0])
    requires '#' !in mid && mid != [] && !IsQuote(mid[0])
    ensures '#' !in mid + trail && !IsSpace((mid + trail)[|mid + trail| - 1])
    ensures StripQuotes(mid + trail) == mid
  {
    var value := mid + trail;
    assert value[|value| - 1] == trail[0];
    StripQuotesWrapped([], mid, trail);
    assert [] + mid + trail == value;
  }

  lemma UncommentedEntry(line: string, key: string, value: string)
    requires line == key + "=" + value
    requires KeyOk(key, None) && '#' !in value
    requires value == [] || !IsSpace(value[|value| - 1])
    ensures ParseLine(line) == Some((key, StripQuotes(value)))
  {
    assert EntryLine("", None, key, value, None) == line;
    ParseEntryLine("", None, key, value, None);
    RStripPadded(value, "");
    assert value + "" == value;
  }

  lemma Unquoted(value: string)
    requires value == [] || (!IsQuote(value[0]) && !IsQuote(value[|value| - 1]))
    ensures StripQuotes(value) == value
  {
    StripQuotesWrapped([], value, []);
    assert [] + value + [] == value;
  }

  /** `<indent>#comment`. */
  lemma CommentLine(line: string, indent: string, comment: string)
    requires line == indent + "#" + comment
    requires AllSpace(indent)
    ensures ParseLine(line) == None
  {
    var body := "#" + comment;
    assert line == indent + body;
    LStripPadded(indent, body);
    assert AfterExport(line) == body;
    assert body[..1] == "#";
    ParseLineSkips(line);
  }

  /** A line without `=`. */
  lemma NoEqualsLine(line: string)
    requires '=' !in line
    ensures ParseLine(line) == None
  {
    var l := LStrip(line);
    assert '=' !in AfterExport(line) by {
      assert '=' !in l;
    }
    ParseLineSkips(line);
  }

  // ---------------------------------------------------------------------
  // A whole file

  /** `A=1`, `B=2.5`, `C=hello`, a comment and a blank line, loaded into an
      empty mapping, give exactly `A: 1`, `B: 2.5` and `C: "hello"`. */
  lemma LoadSample(isFloat: string -> bool)
    requires isFloat("2.5") && !isFloat("hello")
    ensures LoadLines(map[], ["A=1", "B=2.5", "C=hello", "#comment", ""], isFloat)
            == map["A" := Int(1), "B" := Float("2.5"), "C" := Str("hello")]
  {
    SampleEntries();
    SampleClasses(isFloat);
    AssignThreeSkipTwo(map[], "A", "1", "B", "2.5", "C", "hello", Classifier(isFloat));
  }

  lemma SampleEntries()
    ensures Entries(["A=1", "B=2.5", "C=hello", "#comment", ""])
            == [Some(("A", "1")), Some(("B", "2.5")), Some(("C", "hello")), None, None]
  {
    SampleA();
    SampleB();
    SampleC();
    CommentAndBlankLines();
    MapSeqFive(ParseLine, "A=1", "B=2.5", "C=hello", "#comment", "");
  }

  lemma SampleA() ensures ParseLine("A=1") == Some(("A", "1")) {
    PlainEntry("A=1", "", None, "A", "1");
  }

  lemma SampleB() ensures ParseLine("B=2.5") == Some(("B", "2.5")) {
    PlainEntry("B=2.5", "", None, "B", "2.5");
  }

  lemma SampleC() ensures ParseLine("C=hello") == Some(("C", "hello")) {
    PlainEntry("C=hello", "", None, "C", "hello");
  }

  lemma SampleClasses(isFloat: string -> bool)
    requires isFloat("2.5") && !isFloat("hello")
    ensures StringOrNumeric("1", isFloat) == Int(1)
    ensures StringOrNumeric("2.5", isFloat) == Float("2.5")
    ensures StringOrNumeric("hello", isFloat) == Str("hello")
  {
    SampleOne(isFloat);
    SampleTwoFive(isFloat);
    SampleHello(isFloat);
  }

  lemma SampleTwoFive(isFloat: string -> bool)
    ensures StringOrNumeric("2.5", isFloat) == if isFloat("2.5") then Float("2.5") else Str("2.5")
  {
    ClassifyNonInteger("2.5", 1, isFloat);
  }

  lemma SampleHello(isFloat: string -> bool)
    ensures StringOrNumeric("hello", isFloat) == if isFloat("hello") then Float("hello") else Str("hello")
  {
    ClassifyNonInteger("hello", 0, isFloat);
  }

  lemma SampleOne(isFloat: string -> bool)
    ensures StringOrNumeric("1", isFloat) == Int(1)
  {
    ClassifyDecimal("", 1, "", isFloat);
    assert "" + DecimalString(1) + "" == "1";
  }

  lemma MapSeqFive<A, B>(f: A -> B, a1: A, a2: A, a3: A, a4: A, a5: A)
    ensures MapSeq(f, [a1, a2, a3, a4, a5]) == [f(a1), f(a2), f(a3), f(a4), f(a5)]
  {
    assert [] + [a1] == [a1];
    MapSeqSnoc(f, [], a1);
    assert [a1] + [a2] == [a1, a2];
    MapSeqSnoc(f, [a1], a2);
    assert [a1, a2] + [a3] == [a1, a2, a3];
    MapSeqSnoc(f, [a1, a2], a3);
    assert [a1, a2, a3] + [a4] == [a1, a2, a3, a4];
    MapSeqSnoc(f, [a1, a2, a3], a4);
    assert [a1, a2, a3, a4] + [a5] == [a1, a2, a3, a4, a5];
    MapSeqSnoc(f, [a1, a2, a3, a4], a5);
  }

  lemma AssignThreeSkipTwo(c: Config, k1: string, v1: string, k2: string, v2: string,
                           k3: string, v3: string, classify: string -> Value)
    ensures AssignAll(c, [Some((k1, v1)), Some((k2, v2)), Some((k3, v3)), None, None], classify)
            == c[k1 := classify(v1)][k2 := classify(v2)][k3 := classify(v3)]
  {
    var e1, e2, e3 := Some((k1, v1)), Some((k2, v2)), Some((k3, v3));
    assert [] + [e1] == [e1];
    AssignAllSnoc(c, [], e1, classify);
    assert [e1] + [e2] == [e1, e2];
    AssignAllSnoc(c, [e1], e2, classify);
    assert [e1, e2] + [e3] == [e1, e2, e3];
    AssignAllSnoc(c, [e1, e2], e3, classify);
    assert [e1, e2, e3] + [None] == [e1, e2, e3, None];
    AssignAllSnoc(c, [e1, e2, e3], None, classify);
    assert [e1, e2, e3, None] + [None] == [e1, e2, e3, None, None];
    AssignAllSnoc(c, [e1, e2, e3, None], None, classify);
  }

  // ---------------------------------------------------------------------
  // Casting and aliasing

  /** Casting `F` to a list type replaces the string `[1, 2, 3]` by the
      list it denotes; a string that is not literal syntax stays. */
  lemma CastSample<T>(list: T, literalEval: string -> Option<Value>, isInstance: (Value, T) -> bool)
    requires literalEval("[1, 2, 3]") == Some(List([Int(1), Int(2), Int(3)]))
    requires isInstance(List([Int(1), Int(2), Int(3)]), list)
    requires literalEval("not a literal").None?
    ensures CastAll(map["F" := Str("[1, 2, 3]")], [("F", list)], literalEval, isInstance)
            == map["F" := List([Int(1), Int(2), Int(3)])]
    ensures CastAll(map["F" := Str("not a literal")], [("F", list)], literalEval, isInstance)
            == map["F" := Str("not a literal")]
  {
    assert [("F", list)][..0] == [];
  }

  /** In `alias`, the key of each pair is the existing entry and the value
      is the name it is copied to; naming the new key first fails on it. */
  lemma AliasSample()
    ensures AliasAll(map["OLD" := Int(5)], [("OLD", "NEW")])
            == AliasOutcome(map["OLD" := Int(5), "NEW" := Int(5)], None)
    ensures AliasAll(map["OLD" := Int(5)], [("NEW", "OLD")])
            == AliasOutcome(map["OLD" := Int(5)], Some("NEW"))
  {
    assert [("OLD", "NEW")][..0] == [];
    assert [("NEW", "OLD")][..0] == [];
  }
}
