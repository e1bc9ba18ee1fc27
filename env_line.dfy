/** The per-line steps of the `.env` loader (`DotEnv.__import_vars`): from
    one line of the file to the key and the value text it assigns, or to
    nothing when the line is skipped. */
module EnvLine {
  import opened Text
  import opened Values

  /** The line after `lstrip()` and after one leading `export` is removed
      (`replace('export', '', 1)` on a line that starts with `export`
      removes exactly that prefix). */
  function AfterExport(line: string): string {
    var l := LStrip(line);
    if StartsWith(l, "export") then l[6..] else l
  }

  /** `AfterExport` is the source's own sequence of steps: `lstrip()`, then
      `replace('export', '', 1)` when the result starts with `export`. */
  lemma AfterExportReplace(line: string)
    ensures AfterExport(line) ==
              var l := LStrip(line);
              if StartsWith(l, "export") then ReplaceFirst(l, "export", "") else l
  {
    var l := LStrip(line);
    if StartsWith(l, "export") {
      ReplaceFirstAt(l, "export", "", 0);
      assert l[..0] + "" == [];
    }
  }

  predicate IsQuote(c: char) { c == '"' || c == '\'' }

  /** `re.sub(r"\A[\"']|[\"']\Z", "", val)`: at most one quote is removed at
      the very start and at most one at the very end, independently of each
      other; a lone quote character is removed once. */
  function StripQuotes(v: string): (r: string)
    ensures |v| - 2 <= |r| <= |v|
  {
    var w := if |v| > 0 && IsQuote(v[0]) then v[1..] else v;
    if |w| > 0 && IsQuote(w[|w| - 1]) then w[..|w| - 1] else w
  }

  /** `line.strip().split('=', 1)` unpacked into `key, val`: the text before
      the first `=` and the text after it, or `None` when there is no `=`. */
  function SplitAtEquals(t: string): (r: Option<(string, string)>)
    ensures r.None? <==> '=' !in t
    ensures r.Some? ==> t == r.value.0 + "=" + r.value.1 && '=' !in r.value.0
  {
    var eq := IndexOf(t, '=');
    if eq == |t| then None
    else
      assert t == t[..eq] + "=" + t[eq + 1..];
      Some((t[..eq], t[eq + 1..]))
  }

  /** `val.split('#')[0].strip()` when `#` is in `val`, and `val` otherwise. */
  function CutComment(raw: string): (r: string)
    ensures '#' !in r
    ensures '#' !in raw ==> r == raw
  {
    var hash := IndexOf(raw, '#');
    if hash < |raw| then
      NonSpaceInStrip(raw[..hash], '#');
      Strip(raw[..hash])
    else raw
  }

  /** The key and the quote-stripped value text that a line assigns, or
      `None` for a line the loader skips (a comment line, or one without
      `=`, which makes the tuple unpacking raise `ValueError`). */
  function ParseLine(line: string): Option<(string, string)> {
    var l := AfterExport(line);
    if StartsWith(l, "#") then None else SplitEntry(Strip(l))
  }

  /** `key, val = t.split('=', 1)` followed by the clean-up of `key` and
      `val`, on the stripped line `t`. */
  function SplitEntry(t: string): Option<(string, string)> {
    match SplitAtEquals(t)
    case None => None
    case Some((key, raw)) => Some((Strip(key), StripQuotes(CutComment(raw))))
  }

  // ---------------------------------------------------------------------
  // Skipped lines

  /** A line is skipped exactly when, after the leading whitespace and one
      leading `export` are removed, it starts with `#` or has no `=`. */
  lemma ParseLineSkips(line: string)
    ensures ParseLine(line).None? <==>
            StartsWith(AfterExport(line), "#") || '=' !in AfterExport(line)
  {
    var l := AfterExport(line);
    if !StartsWith(l, "#") {
      assert ParseLine(line) == SplitEntry(Strip(l));
      NonSpaceInStrip(l, '=');
      SplitEntryNone(Strip(l));
    }
  }

  lemma SplitEntryNone(t: string)
    ensures SplitEntry(t).None? <==> '=' !in t
  {
  }

  /** Trailing whitespace, such as the line terminator that iterating over
      a file leaves on each line, does not change what a line assigns. */
  lemma ParseLineTrailingSpace(line: string, pad: string)
    requires AllSpace(pad)
    ensures ParseLine(line + pad) == ParseLine(line)
  {
    AfterExportAppend(line, pad);
    if AllSpace(line) {
      SameAfterExport(line + pad, line);
    } else {
      PaddedAfterExport(line, pad, AfterExport(line));
    }
  }

  lemma SameAfterExport(a: string, b: string)
    requires AfterExport(a) == AfterExport(b)
    ensures ParseLine(a) == ParseLine(b)
  {
  }

  lemma PaddedAfterExport(line: string, pad: string, y: string)
    requires AllSpace(pad)
    requires AfterExport(line) == y && AfterExport(line + pad) == y + pad
    ensures ParseLine(line + pad) == ParseLine(line)
  {
    PaddedRest(y, pad);
  }

  lemma PaddedRest(y: string, pad: string)
    requires AllSpace(pad)
    ensures StartsWith(y + pad, "#") <==> StartsWith(y, "#")
    ensures Strip(y + pad) == Strip(y)
  {
    assert forall i :: 0 <= i < |"#"| ==> !IsSpace("#"[i]);
    PrefixPadded(y, pad, "#");
    StripSpaceSuffix(y, pad);
  }

  lemma AfterExportAppend(line: string, pad: string)
    requires AllSpace(pad)
    ensures AllSpace(line) ==> AfterExport(line + pad) == [] && AfterExport(line) == []
    ensures !AllSpace(line) ==> AfterExport(line + pad) == AfterExport(line) + pad
  {
    if AllSpace(line) {
      AfterExportBlank(line, pad);
    } else {
      LStripAppend(line, pad);
      ExportPadded(LStrip(line), pad);
    }
  }

  lemma AfterExportBlank(line: string, pad: string)
    requires AllSpace(line) && AllSpace(pad)
    ensures AfterExport(line + pad) == [] && AfterExport(line) == []
  {
    assert AllSpace(line + pad);
    LStripPadded(line + pad, []);
    LStripPadded(line, []);
    assert line + pad + [] == line + pad && line + [] == line;
  }

  lemma ExportPadded(x: string, pad: string)
    requires AllSpace(pad)
    ensures StartsWith(x + pad, "export") <==> StartsWith(x, "export")
    ensures StartsWith(x, "export") ==> (x + pad)[6..] == x[6..] + pad
  {
    assert forall i :: 0 <= i < |"export"| ==> !IsSpace("export"[i]);
    PrefixPadded(x, pad, "export");
  }

  /** Appending whitespace to a text neither creates nor destroys a prefix
      made of characters that are not whitespace. */
  lemma PrefixPadded(x: string, pad: string, p: string)
    requires AllSpace(pad)
    requires forall i :: 0 <= i < |p| ==> !IsSpace(p[i])
    ensures StartsWith(x + pad, p) <==> StartsWith(x, p)
  {
    var t := x + pad;
    assert |p| <= |x| ==> t[..|p|] == x[..|p|];
    if |x| < |p| <= |t| {
      assert t[..|p|][|x|] == pad[0];
    }
  }

  /** The key of an accepted line is stripped and holds no `=`, since the
      line is split on its first `=`; the value text never holds `#`, since
      it is cut at the first `#` when it has one. */
  lemma ParseLineShape(line: string)
    requires ParseLine(line).Some?
    ensures Trimmed(ParseLine(line).value.0)
    ensures '=' !in ParseLine(line).value.0
    ensures '#' !in ParseLine(line).value.1
  {
    SplitEntryShape(Strip(AfterExport(line)));
  }

  lemma SplitEntryShape(t: string)
    requires SplitEntry(t).Some?
    ensures Trimmed(SplitEntry(t).value.0)
    ensures '=' !in SplitEntry(t).value.0
    ensures '#' !in SplitEntry(t).value.1
  {
    var sp := SplitAtEquals(t);
    EntryShape(sp.value.0, sp.value.1);
  }

  lemma EntryShape(key: string, raw: string)
    requires '=' !in key
    ensures Trimmed(Strip(key)) && '=' !in Strip(key)
    ensures '#' !in StripQuotes(CutComment(raw))
  {
    NonSpaceInStrip(key, '=');
    StripQuotesKeeps(CutComment(raw), '#');
  }

  lemma StripQuotesKeeps(v: string, c: char)
    requires c !in v
    ensures c !in StripQuotes(v)
  {
    var w := if |v| > 0 && IsQuote(v[0]) then v[1..] else v;
    assert c !in w;
  }

  // ---------------------------------------------------------------------
  // Quote stripping

  /** A value made of an optional quote, a middle part and an optional
      quote loses exactly the outer quotes: the two need not match and
      need not both be present, and quotes inside the middle part stay. */
  lemma StripQuotesWrapped(lead: string, mid: string, trail: string)
    requires lead == [] || (|lead| == 1 && IsQuote(lead[0]))
    requires trail == [] || (|trail| == 1 && IsQuote(trail[0]))
    requires lead == [] && mid != [] ==> !IsQuote(mid[0])
    requires trail == [] && mid != [] ==> !IsQuote(mid[|mid| - 1])
    ensures StripQuotes(lead + mid + trail) == mid
  {
    var v := lead + mid + trail;
    var w := if |v| > 0 && IsQuote(v[0]) then v[1..] else v;
    if lead != [] {
      assert w == mid + trail;
    } else if mid != [] {
      assert w == mid + trail;
    } else {
      assert w == [];
    }
  }

  // ---------------------------------------------------------------------
  // Round trip with the line format `[export ]KEY=VALUE[ #comment]`

  /** A `.env` line: indentation, an optional `export` followed by a
      separator, then `key=value` and an optional `#` comment. */
  function EntryLine(indent: string, exportSep: Option<string>, key: string,
                     value: string, comment: Option<string>): string
  {
    indent + ExportPrefix(exportSep) + EntryBody(key, value, comment)
  }

  function ExportPrefix(exportSep: Option<string>): string {
    match exportSep
    case Some(sep) => "export" + sep
    case None => ""
  }

  function EntryBody(key: string, value: string, comment: Option<string>): string {
    key + "=" + value + CommentSuffix(comment)
  }

  function CommentSuffix(comment: Option<string>): string {
    match comment
    case Some(c) => "#" + c
    case None => ""
  }

  /** A key the loader reads back verbatim: stripped, without `=`, not
      starting with `#`, and not itself starting with `export` when no
      `export` prefix precedes it. */
  predicate KeyOk(key: string, exportSep: Option<string>) {
    Trimmed(key) && '=' !in key && !StartsWith(key, "#")
    && (exportSep.None? ==> !StartsWith(key, "export"))
  }

  /** Parsing an entry line gives back its key and its value: the value is
      everything after the first `=` (so it may hold `=`), cut before the
      comment and then stripped when there is a comment, and only
      right-stripped otherwise; the outer quotes are removed last. */
  lemma ParseEntryLine(indent: string, exportSep: Option<string>, key: string,
                       value: string, comment: Option<string>)
    requires AllSpace(indent)
    requires exportSep.Some? ==> AllSpace(exportSep.value)
    requires KeyOk(key, exportSep)
    requires '#' !in value
    ensures ParseLine(EntryLine(indent, exportSep, key, value, comment))
            == Some((key, StripQuotes(if comment.Some? then Strip(value) else RStrip(value))))
  {
    var line := EntryLine(indent, exportSep, key, value, comment);
    var sep := EntryAfterExport(indent, exportSep, key, value, comment);
    NotCommentLine(sep, key, value, comment);
    var cut := StripEntry(sep, key, value, comment);
    ParseLineFromParts(line, key, cut);
    StripTrimmed(key);
    var expected := if comment.Some? then Strip(value) else RStrip(value);
    assert CutComment(cut) == expected by {
      if comment.Some? {
        CutCommentAt(value, RStrip(comment.value));
      }
    }
  }

  /** After `lstrip` and the removal of `export`, an entry line is the
      separator that followed `export` (if any) and then `key=value...`. */
  lemma EntryAfterExport(indent: string, exportSep: Option<string>, key: string,
                         value: string, comment: Option<string>) returns (sep: string)
    requires AllSpace(indent)
    requires exportSep.Some? ==> AllSpace(exportSep.value)
    requires KeyOk(key, exportSep)
    ensures AllSpace(sep)
    ensures AfterExport(EntryLine(indent, exportSep, key, value, comment))
            == sep + EntryBody(key, value, comment)
  {
    var body := EntryBody(key, value, comment);
    if exportSep.Some? {
      sep := exportSep.value;
      ExportedEntryAfterExport(indent, sep, body);
    } else {
      sep := "";
      PlainEntryAfterExport(indent, key, value, comment);
      assert sep + body == body;
    }
  }

  lemma ExportedEntryAfterExport(indent: string, sep: string, body: string)
    requires AllSpace(indent)
    ensures AfterExport(indent + ExportPrefix(Some(sep)) + body) == sep + body
  {
    assert indent + ExportPrefix(Some(sep)) + body == indent + "export" + (sep + body);
    AfterExportExported(indent, sep + body);
  }

  lemma PlainEntryAfterExport(indent: string, key: string, value: string, comment: Option<string>)
    requires AllSpace(indent)
    requires KeyOk(key, None)
    ensures AfterExport(EntryLine(indent, None, key, value, comment)) == EntryBody(key, value, comment)
  {
    var body := EntryBody(key, value, comment);
    assert EntryLine(indent, None, key, value, comment) == indent + body;
    assert body == key + "=" + (value + CommentSuffix(comment));
    AfterExportPlain(indent, key, value + CommentSuffix(comment));
  }

  /** A whitespace separator followed by `key=...`, where the key does not
      start with `#`, is not a comment line. */
  lemma NotCommentLine(sep: string, key: string, value: string, comment: Option<string>)
    requires AllSpace(sep)
    requires Trimmed(key) && !StartsWith(key, "#")
    ensures !StartsWith(sep + EntryBody(key, value, comment), "#")
  {
    var body := EntryBody(key, value, comment);
    var l := sep + body;
    assert body[0] != '#' && !IsSpace(body[0]) by {
      if key != [] { assert body[0] == key[0]; assert key[..1] == [key[0]]; }
    }
    if sep != [] {
      assert l[0] == sep[0];
    } else {
      assert l == body;
    }
  }

  /** Stripping a whitespace separator followed by `key=value[#comment]`
      leaves `key=` and the right-stripped tail. */
  lemma StripEntry(sep: string, key: string, value: string, comment: Option<string>)
    returns (cut: string)
    requires AllSpace(sep)
    requires Trimmed(key)
    ensures cut == if comment.Some? then value + "#" + RStrip(comment.value) else RStrip(value)
    ensures Strip(sep + EntryBody(key, value, comment)) == key + "=" + cut
  {
    var body := EntryBody(key, value, comment);
    assert !IsSpace(body[0]) by {
      if key != [] { assert body[0] == key[0]; }
    }
    LStripPadded(sep, body);
    if comment.Some? {
      cut := value + "#" + RStrip(comment.value);
      StripCommentedTail(key, value, comment.value);
    } else {
      cut := RStrip(value);
      StripPlainTail(key, value);
    }
  }

  /** A line that is not a comment and whose stripped text is `key=raw`,
      with no `=` in `key`, assigns the stripped key the processed `raw`. */
  lemma ParseLineFromParts(line: string, key: string, raw: string)
    requires !StartsWith(AfterExport(line), "#")
    requires Strip(AfterExport(line)) == key + "=" + raw
    requires '=' !in key
    ensures ParseLine(line) == Some((Strip(key), StripQuotes(CutComment(raw))))
  {
    SplitAtEqualsOf(key, raw);
  }

  lemma SplitAtEqualsOf(key: string, raw: string)
    requires '=' !in key
    ensures SplitAtEquals(key + "=" + raw) == Some((key, raw))
  {
    var t := key + "=" + raw;
    IndexOfConcat(key, '=', raw);
    assert t[..|key|] == key;
    assert t[|key| + 1..] == raw;
  }

  /** An indented line that starts with `export` loses the indentation and
      those six letters, and nothing else. */
  lemma AfterExportExported(indent: string, rest: string)
    requires AllSpace(indent)
    ensures AfterExport(indent + "export" + rest) == rest
  {
    var ex := "export" + rest;
    assert indent + "export" + rest == indent + ex;
    assert ex[0] == 'e';
    LStripPadded(indent, ex);
    assert ex[..6] == "export";
    assert ex[6..] == rest;
  }

  /** An indented `key=rest` whose key does not start with `export` loses
      only the indentation. */
  lemma AfterExportPlain(indent: string, key: string, rest: string)
    requires AllSpace(indent)
    requires KeyOk(key, None)
    ensures AfterExport(indent + (key + "=" + rest)) == key + "=" + rest
  {
    var body := key + "=" + rest;
    PlainBodyStart(key, rest);
    LStripPadded(indent, body);
  }

  lemma PlainBodyStart(key: string, rest: string)
    requires KeyOk(key, None)
    ensures !IsSpace((key + "=" + rest)[0])
    ensures !StartsWith(key + "=" + rest, "export")
  {
    var body := key + "=" + rest;
    assert body[|key|] == '=';
    if key != [] { assert body[0] == key[0]; }
    EqualsBlocksPrefix(key, rest, "export");
  }

  /** A prefix without `=` that the key does not start with is not a prefix
      of `key=rest` either. */
  lemma EqualsBlocksPrefix(key: string, rest: string, p: string)
    requires '=' !in p && !StartsWith(key, p)
    ensures !StartsWith(key + "=" + rest, p)
  {
    var body := key + "=" + rest;
    assert |key| >= |p| && |body| >= |p| ==> key[..|p|] == body[..|p|];
    assert body[|key|] == '=';
    if |key| < |p| && |p| <= |body| {
      assert body[..|p|][|key|] == '=';
    }
  }

  /** `rstrip` of `key=value#comment` only touches the comment. */
  lemma StripCommentedTail(key: string, value: string, c: string)
    ensures RStrip(EntryBody(key, value, Some(c))) == key + "=" + (value + "#" + RStrip(c))
  {
    var a := key + "=" + value;
    CommentedBody(key, value, c, c);
    RStripAfter(a, '#', c);
    CommentedBody(key, value, c, RStrip(c));
  }

  /** The two groupings of a commented body; stated apart so that the
      solver meets them without the definitions above in scope. */
  lemma CommentedBody(key: string, value: string, c: string, d: string)
    ensures EntryBody(key, value, Some(c)) == (key + "=" + value) + ['#'] + c
    ensures (key + "=" + value) + ['#'] + d == key + "=" + (value + "#" + d)
  {
  }

  /** `rstrip` of `key=value` only touches the value. */
  lemma StripPlainTail(key: string, value: string)
    ensures RStrip(EntryBody(key, value, None)) == key + "=" + RStrip(value)
  {
    assert EntryBody(key, value, None) == key + ['='] + value;
    RStripAfter(key, '=', value);
  }

  lemma CutCommentAt(value: string, rest: string)
    requires '#' !in value
    ensures CutComment(value + "#" + rest) == Strip(value)
  {
    IndexOfConcat(value, '#', rest);
    assert (value + "#" + rest)[..|value|] == value;
  }
}
