/** Generated Pydantic schemas: where a document type's schema lives, which
    class `load_schema` looks for in it, and how the per-page schemas an LLM
    writes are assembled into one module with a top-level class. The LLM
    and the execution of the schema module are parameters. */
module SchemaHelper {
  import opened Wrappers
  import opened Text
  import opened Sorting

  const SchemaDir := "schemas"

  /** `os.path.join(SCHEMA_DIR, f"{document_type}.py")`: an absolute second
      component replaces the directory. */
  function SchemaPath(documentType: string): string
  {
    var file := documentType + ".py";
    if StartsWith(file, "/") then file else SchemaDir + "/" + file
  }

  // ---------------------------------------------------------------------------
  // Class names

  /** `s.replace(a, b)` for one character replaced by another. */
  function Subst(s: string, a: char, b: char): (r: string)
    ensures |r| == |s|
    ensures forall i | 0 <= i < |s| :: r[i] == if s[i] == a then b else s[i]
  {
    seq(|s|, i requires 0 <= i < |s| => if s[i] == a then b else s[i])
  }

  /** `s.replace(c, "")` for one character. */
  function Drop(s: string, c: char): (r: string)
    ensures forall i | 0 <= i < |r| :: r[i] != c
    ensures |r| <= |s|
  {
    if s == [] then [] else (if s[0] == c then [] else [s[0]]) + Drop(s[1..], c)
  }

  /** `str.title()` from a position whose preceding character is (or is
      not) a letter: a letter after a letter is lowered, any other letter
      raised. */
  function TitleFrom(s: string, afterLetter: bool): (r: string)
    ensures |r| == |s|
    ensures forall i | 0 <= i < |s| :: !IsLetter(s[i]) ==> r[i] == s[i]
    ensures forall i | 0 <= i < |s| :: IsLetter(s[i]) ==> IsLetter(r[i])
  {
    if s == [] then []
    else [if afterLetter then LowerChar(s[0]) else UpperChar(s[0])] + TitleFrom(s[1..], IsLetter(s[0]))
  }

  function Title(s: string): string
  {
    TitleFrom(s, false)
  }

  /** `str.capitalize()`: the first character raised, the rest lowered. */
  function Capitalize(s: string): (r: string)
    ensures |r| == |s|
    ensures forall i | 0 <= i < |s| :: !IsLetter(s[i]) ==> r[i] == s[i]
    ensures s != [] && IsLetter(s[0]) ==> IsUpper(r[0]) && LowerChar(r[0]) == LowerChar(s[0])
    ensures forall i | 1 <= i < |s| :: IsLetter(s[i]) ==> IsLower(r[i]) && UpperChar(r[i]) == UpperChar(s[i])
  {
    if s == [] then [] else [UpperChar(s[0])] + Lower(s[1..])
  }

  /** The class `load_schema` looks for:
      `document_type.replace("_", " ").title().replace(" ", "")`. */
  function ClassName(documentType: string): string
  {
    Drop(Title(Subst(documentType, '_', ' ')), ' ')
  }

  /** A snake-case word: non-empty, lower-case ASCII letters only. */
  predicate LowerWord(w: string)
  {
    w != [] && forall i | 0 <= i < |w| :: IsLower(w[i])
  }

  /** A lower-case word with its first letter raised. */
  function CapWord(w: string): string
  {
    if w == [] then [] else [UpperChar(w[0])] + w[1..]
  }

  function CapWords(ws: seq<string>): (r: seq<string>)
    ensures |r| == |ws| && forall i | 0 <= i < |ws| :: r[i] == CapWord(ws[i])
  {
    if ws == [] then [] else [CapWord(ws[0])] + CapWords(ws[1..])
  }

  function Concat(ws: seq<string>): string
  {
    if ws == [] then [] else ws[0] + Concat(ws[1..])
  }

  /** `load_schema` turns a snake-case document type into the CamelCase
      class name: "inspection_form" becomes "InspectionForm". */
  lemma ClassNameCamel(ws: seq<string>)
    requires ws != [] && forall i | 0 <= i < |ws| :: LowerWord(ws[i])
    ensures ClassName(Join(ws, "_")) == Concat(CapWords(ws))
  {
    var caps := CapWords(ws);
    assert Subst(Join(ws, "_"), '_', ' ') == Join(ws, " ") by { SubstJoin(ws); }
    assert Title(Join(ws, " ")) == Join(caps, " ") by { TitleJoin(ws); }
    assert Drop(Join(caps, " "), ' ') == Concat(caps) by {
      CapWordsNoSpace(ws);
      DropJoin(caps);
    }
  }

  lemma CapWordsNoSpace(ws: seq<string>)
    requires forall i | 0 <= i < |ws| :: LowerWord(ws[i])
    ensures forall i | 0 <= i < |CapWords(ws)| :: forall k | 0 <= k < |CapWords(ws)[i]| :: CapWords(ws)[i][k] != ' '
  {
    forall i | 0 <= i < |CapWords(ws)|
      ensures forall k | 0 <= k < |CapWords(ws)[i]| :: CapWords(ws)[i][k] != ' '
    {
      var w := ws[i];
      forall k | 0 <= k < |CapWord(w)| ensures CapWord(w)[k] != ' ' {
        if k > 0 { assert CapWord(w)[k] == w[k]; }
      }
    }
  }

  lemma ClassNameSample()
    ensures ClassName("inspection_form") == "InspectionForm"
  {
    var ws := ["inspection", "form"];
    SampleWords();
    ClassNameCamel(ws);
    SampleCaps();
  }

  lemma SampleWords()
    ensures Join(["inspection", "form"], "_") == "inspection_form"
    ensures forall i | 0 <= i < 2 :: LowerWord(["inspection", "form"][i])
  {
    assert LowerWord("inspection") && LowerWord("form");
  }

  lemma SampleCaps()
    ensures Concat(CapWords(["inspection", "form"])) == "InspectionForm"
  {
    assert CapWord("inspection") == "Inspection";
    assert CapWord("form") == "Form";
    assert CapWords(["inspection", "form"]) == ["Inspection", "Form"];
    assert Concat(["Form"]) == "Form" + [];
    assert Concat(["Inspection", "Form"]) == "Inspection" + Concat(["Form"]);
  }

  lemma {:induction false} SubstJoin(ws: seq<string>)
    requires forall i | 0 <= i < |ws| :: LowerWord(ws[i])
    ensures Subst(Join(ws, "_"), '_', ' ') == Join(ws, " ")
  {
    if |ws| == 1 {
      assert Subst(ws[0], '_', ' ') == ws[0];
    } else if |ws| > 1 {
      SubstJoin(ws[1..]);
      var rest := Join(ws[1..], "_");
      assert Subst(ws[0] + "_" + rest, '_', ' ') == Subst(ws[0], '_', ' ') + " " + Subst(rest, '_', ' ');
      assert Subst(ws[0], '_', ' ') == ws[0];
    }
  }

  lemma {:induction false} TitleFromAppend(a: string, b: string, f: bool)
    ensures TitleFrom(a + b, f) == TitleFrom(a, f) + TitleFrom(b, if a == [] then f else IsLetter(a[|a| - 1]))
  {
    if a != [] {
      var c := if f then LowerChar(a[0]) else UpperChar(a[0]);
      var g := IsLetter(a[0]);
      var g' := if a[1..] == [] then g else IsLetter(a[|a| - 1]);
      assert (a + b)[0] == a[0] && (a + b)[1..] == a[1..] + b;
      TitleCons(a + b, f);
      TitleCons(a, f);
      assert a[1..] != [] ==> a[1..][|a[1..]| - 1] == a[|a| - 1];
      TitleFromAppend(a[1..], b, g);
      AppendAssoc([c], TitleFrom(a[1..], g), TitleFrom(b, g'));
    } else {
      assert a + b == b;
    }
  }

  lemma TitleCons(s: string, f: bool)
    requires s != []
    ensures TitleFrom(s, f) == [if f then LowerChar(s[0]) else UpperChar(s[0])] + TitleFrom(s[1..], IsLetter(s[0]))
  {
  }

  lemma AppendAssoc(p: string, x: string, y: string)
    ensures p + (x + y) == (p + x) + y
  {
  }

  lemma {:induction false} TitleLowerTail(w: string)
    requires forall i | 0 <= i < |w| :: IsLower(w[i])
    ensures TitleFrom(w, true) == w
  {
    if w != [] {
      TitleLowerTail(w[1..]);
      assert w == [w[0]] + w[1..];
    }
  }

  lemma TitleWord(w: string)
    requires LowerWord(w)
    ensures TitleFrom(w, false) == CapWord(w)
    ensures IsLetter(w[|w| - 1])
  {
    TitleLowerTail(w[1..]);
  }

  lemma {:induction false} TitleJoin(ws: seq<string>)
    requires ws != [] && forall i | 0 <= i < |ws| :: LowerWord(ws[i])
    ensures TitleFrom(Join(ws, " "), false) == Join(CapWords(ws), " ")
  {
    TitleWord(ws[0]);
    if |ws| > 1 {
      TitleJoin(ws[1..]);
      TitleJoinStep(ws[0], Join(ws[1..], " "));
      assert CapWords(ws)[1..] == CapWords(ws[1..]);
    }
  }

  lemma TitleJoinStep(w: string, rest: string)
    requires LowerWord(w)
    ensures TitleFrom(w + " " + rest, false) == CapWord(w) + " " + TitleFrom(rest, false)
  {
    var tail := " " + rest;
    var t := TitleFrom(rest, false);
    TitleWordThen(w, tail);
    TitleBlank(rest);
    assert w + " " + rest == w + tail;
    assert CapWord(w) + " " + t == CapWord(w) + (" " + t);
  }

  lemma TitleWordThen(w: string, tail: string)
    requires LowerWord(w)
    ensures TitleFrom(w + tail, false) == CapWord(w) + TitleFrom(tail, true)
  {
    TitleWord(w);
    TitleFromAppend(w, tail, false);
  }

  lemma TitleBlank(rest: string)
    ensures TitleFrom(" " + rest, true) == " " + TitleFrom(rest, false)
  {
    assert (" " + rest)[1..] == rest;
  }

  lemma {:induction false} DropAppend(a: string, b: string, c: char)
    ensures Drop(a + b, c) == Drop(a, c) + Drop(b, c)
  {
    if a != [] {
      var h := if a[0] == c then [] else [a[0]];
      assert (a + b)[0] == a[0] && (a + b)[1..] == a[1..] + b;
      DropCons(a + b, c);
      DropCons(a, c);
      DropAppend(a[1..], b, c);
      AppendAssoc(h, Drop(a[1..], c), Drop(b, c));
    } else {
      assert a + b == b;
    }
  }

  lemma DropCons(s: string, c: char)
    requires s != []
    ensures Drop(s, c) == (if s[0] == c then [] else [s[0]]) + Drop(s[1..], c)
  {
  }

  lemma {:induction false} DropNone(a: string, c: char)
    requires forall i | 0 <= i < |a| :: a[i] != c
    ensures Drop(a, c) == a
  {
    if a != [] {
      DropNone(a[1..], c);
      assert a == [a[0]] + a[1..];
    }
  }

  lemma {:induction false} DropJoin(ws: seq<string>)
    requires forall i | 0 <= i < |ws| :: forall k | 0 <= k < |ws[i]| :: ws[i][k] != ' '
    ensures Drop(Join(ws, " "), ' ') == Concat(ws)
  {
    if |ws| == 1 {
      DropNone(ws[0], ' ');
      assert Concat(ws) == ws[0] + [];
    } else if |ws| > 1 {
      DropJoin(ws[1..]);
      var rest := Join(ws[1..], " ");
      DropAppend(ws[0] + " ", rest, ' ');
      DropAppend(ws[0], " ", ' ');
      DropNone(ws[0], ' ');
    }
  }

  /** The class name holds neither '_' nor ' '. */
  lemma {:induction false} ClassNameHasNoUnderscore(documentType: string)
    ensures forall i | 0 <= i < |ClassName(documentType)| ::
      ClassName(documentType)[i] != '_' && ClassName(documentType)[i] != ' '
  {
    var t := Title(Subst(documentType, '_', ' '));
    forall i | 0 <= i < |t| ensures t[i] != '_' {
      assert Subst(documentType, '_', ' ')[i] != '_';
    }
    DropKeeps(t, ' ', '_');
  }

  lemma {:induction false} DropKeeps(s: string, c: char, d: char)
    requires forall i | 0 <= i < |s| :: s[i] != d
    ensures forall i | 0 <= i < |Drop(s, c)| :: Drop(s, c)[i] != d
  {
    if s != [] {
      DropKeeps(s[1..], c, d);
    }
  }

  /** The top-level class `create_top_level_class` writes is named with
      `capitalize()`, which keeps underscores: for a document type with an
      underscore it is never the class `load_schema` looks for. */
  lemma TopLevelNameDiffers(documentType: string)
    requires exists i | 0 <= i < |documentType| :: documentType[i] == '_'
    ensures Capitalize(documentType) != ClassName(documentType)
  {
    var i :| 0 <= i < |documentType| && documentType[i] == '_';
    assert Capitalize(documentType)[i] == '_';
    ClassNameHasNoUnderscore(documentType);
  }

  // ---------------------------------------------------------------------------
  // load_schema

  /** An attribute of the executed schema module: a class, or any other
      value with its Python truth value. */
  datatype Attr = ClassObj(name: string) | OtherValue(truthy: bool)

  predicate Truthy(a: Attr)
  {
    a.ClassObj? || a.truthy
  }

  /** `load_schema(document_type)`, given the schema files that exist and
      the attributes executing each one defines: `None` without a file,
      ValueError when the expected class is missing or falsy. */
  function LoadSchema(documentType: string, files: set<string>, exec: string -> map<string, Attr>): (r: Result<Option<Attr>>)
    ensures r == Ok(None) <==> SchemaPath(documentType) !in files
    ensures r.Err? ==> r.error == ValueError
    ensures r.Ok? && r.value.Some? ==>
      var m := exec(SchemaPath(documentType));
      ClassName(documentType) in m && r.value.value == m[ClassName(documentType)] && Truthy(r.value.value)
    ensures SchemaPath(documentType) in files ==>
      (r.Err? <==> var m := exec(SchemaPath(documentType));
        ClassName(documentType) !in m || !Truthy(m[ClassName(documentType)]))
  {
    var path := SchemaPath(documentType);
    if path !in files then Ok(None)
    else
      var m := exec(path);
      var name := ClassName(documentType);
      if name in m && Truthy(m[name]) then Ok(Some(m[name])) else Err(ValueError)
  }

  // ---------------------------------------------------------------------------
  // generate_schema_with_gpt: cleaning and the import filter

  /** The characters `str.splitlines` breaks at ("\r\n" counts as one break). */
  const LineBreaks: set<char> := {
    '\n', '\r', '\U{000B}', '\U{000C}', '\U{001C}', '\U{001D}', '\U{001E}',
    '\U{0085}', '\U{2028}', '\U{2029}'
  }

  /** The index of the first line break of `s`, or `|s|`. */
  function LineEnd(s: string): (k: nat)
    ensures k <= |s|
    ensures forall i | 0 <= i < k :: s[i] !in LineBreaks
    ensures k < |s| ==> s[k] in LineBreaks
  {
    if s == [] || s[0] in LineBreaks then 0 else 1 + LineEnd(s[1..])
  }

  /** `s.splitlines()`: the lines without their breaks; no final empty line. */
  function SplitLines(s: string): (r: seq<string>)
    ensures forall j | 0 <= j < |r| :: forall i | 0 <= i < |r[j]| :: r[j][i] !in LineBreaks
    ensures r == [] <==> s == []
    decreases |s|, 1
  {
    if s == [] then [] else LinesFrom(s, LineEnd(s))
  }

  /** The lines of `s` once its first line is known to end at `k`. */
  function LinesFrom(s: string, k: nat): (r: seq<string>)
    requires k <= |s| && forall i | 0 <= i < k :: s[i] !in LineBreaks
    ensures forall j | 0 <= j < |r| :: forall i | 0 <= i < |r[j]| :: r[j][i] !in LineBreaks
    ensures r != [] && r[0] == s[..k]
    decreases |s|, 0
  {
    if k == |s| then [s] else [s[..k]] + SplitLines(s[k + BreakWidth(s, k)..])
  }

  /** The width of the line break at `k`: "\r\n" counts as one break. */
  function BreakWidth(s: string, k: nat): (w: nat)
    requires k < |s|
    ensures 1 <= w <= 2 && k + w <= |s|
  {
    if s[k] == '\r' && k + 1 < |s| && s[k + 1] == '\n' then 2 else 1
  }

  /** On text whose only line break is '\n' and which does not end with one,
      joining the lines with "\n" gives the text back. */
  lemma {:induction false} SplitLinesJoin(s: string)
    requires NewlinesOnly(s)
    requires s == [] || s[|s| - 1] != '\n'
    ensures Join(SplitLines(s), "\n") == s
    decreases |s|
  {
    if s != [] {
      var k := LineEnd(s);
      if k < |s| {
        NewlineAt(s, k);
        var rest := s[k + 1..];
        SplitLinesAtNewline(s, k);
        SplitLinesJoin(rest);
        JoinCons(s[..k], SplitLines(rest), "\n");
      } else {
        assert SplitLines(s) == LinesFrom(s, k) == [s];
      }
    }
  }

  /** Every line break of `s` is '\n'. */
  predicate NewlinesOnly(s: string)
  {
    forall i | 0 <= i < |s| :: s[i] in LineBreaks ==> s[i] == '\n'
  }

  /** A line break of newline-only text that does not end in one is a '\n'
      with text on both sides; the text after it is newline-only too. */
  lemma NewlineAt(s: string, k: nat)
    requires NewlinesOnly(s) && k < |s| && s[k] in LineBreaks && s[|s| - 1] != '\n'
    ensures k + 1 < |s| && s[k] == '\n'
    ensures s == s[..k] + "\n" + s[k + 1..]
    ensures NewlinesOnly(s[k + 1..]) && s[k + 1..][|s[k + 1..]| - 1] != '\n'
  {
    var rest := s[k + 1..];
    assert s == s[..k] + [s[k]] + rest;
    forall i | 0 <= i < |rest| && rest[i] in LineBreaks
      ensures rest[i] == '\n'
    {
      assert rest[i] == s[k + 1 + i];
    }
  }

  lemma SplitLinesAtNewline(s: string, k: nat)
    requires k == LineEnd(s) && k + 1 < |s| && s[k] == '\n'
    ensures SplitLines(s) == [s[..k]] + SplitLines(s[k + 1..])
  {
    assert SplitLines(s) == LinesFrom(s, k);
    assert BreakWidth(s, k) == 1;
  }

  lemma JoinCons(x: string, xs: seq<string>, sep: string)
    requires xs != []
    ensures Join([x] + xs, sep) == x + sep + Join(xs, sep)
  {
    assert ([x] + xs)[1..] == xs;
  }

  predicate IsImport(line: string)
  {
    StartsWith(line, "from") || StartsWith(line, "import")
  }

  /** A page's schema as kept: the LLM reply stripped of whitespace, then of
      backquotes at both ends. */
  function CleanPage(reply: string): string
  {
    StripChars(Strip(reply), {'`'})
  }

  /** The schemas of the pages whose request did not raise, in page order. */
  function Pages(replies: seq<Option<string>>): (r: seq<string>)
    ensures |r| <= |replies|
  {
    if replies == [] then []
    else
      var last := replies[|replies| - 1];
      Pages(replies[..|replies| - 1]) + (if last.Some? then [CleanPage(last.value)] else [])
  }

  /** The import lines of some pages. */
  function ImportsOf(pages: seq<string>): set<string>
  {
    if pages == [] then {}
    else
      ImportsOf(pages[..|pages| - 1]) + LineImports(pages[|pages| - 1])
  }

  /** Only lines starting with "from" or "import" are collected, and every
      such line of every page is. */
  lemma ImportsOfExactly(pages: seq<string>, l: string)
    ensures l in ImportsOf(pages) <==>
      IsImport(l) && exists j | 0 <= j < |pages| :: l in SplitLines(pages[j])
  {
    if l in ImportsOf(pages) {
      var j := ImportsOfSound(pages, l);
    }
    if IsImport(l) && exists j | 0 <= j < |pages| :: l in SplitLines(pages[j]) {
      var j :| 0 <= j < |pages| && l in SplitLines(pages[j]);
      ImportsOfComplete(pages, j, l);
    }
  }

  lemma {:induction false} ImportsOfSound(pages: seq<string>, l: string) returns (j: nat)
    requires l in ImportsOf(pages)
    ensures IsImport(l) && j < |pages| && l in SplitLines(pages[j])
  {
    var n := |pages| - 1;
    if l in ImportsOf(pages[..n]) {
      j := ImportsOfSound(pages[..n], l);
      assert pages[..n][j] == pages[j];
    } else {
      j := n;
    }
  }

  lemma {:induction false} ImportsOfComplete(pages: seq<string>, j: nat, l: string)
    requires j < |pages| && IsImport(l) && l in SplitLines(pages[j])
    ensures l in ImportsOf(pages)
  {
    var n := |pages| - 1;
    if j < n {
      assert pages[..n][j] == pages[j];
      ImportsOfComplete(pages[..n], j, l);
    }
  }

  /** The import lines of one page. */
  function LineImports(page: string): set<string>
  {
    set l | l in SplitLines(page) && IsImport(l)
  }

  /** The line loop: `imports` with the import lines of one page added. */
  method AddImports(imports: set<string>, schemaCode: string) returns (found: set<string>)
    ensures found == imports + LineImports(schemaCode)
  {
    var lines := SplitLines(schemaCode);
    found := imports;
    var j := 0;
    while j < |lines|
      invariant 0 <= j <= |lines|
      invariant found == imports + set l | l in lines[..j] && IsImport(l)
    {
      assert forall l :: l in lines[..j + 1] <==> l in lines[..j] || l == lines[j];
      if IsImport(lines[j]) {
        found := found + {lines[j]};
      }
      j := j + 1;
    }
    assert lines[..j] == lines;
  }

  lemma PagesStep(replies: seq<Option<string>>, idx: nat)
    requires idx < |replies|
    ensures Pages(replies[..idx + 1]) ==
      Pages(replies[..idx]) + (if replies[idx].Some? then [CleanPage(replies[idx].value)] else [])
  {
    assert replies[..idx + 1][..idx] == replies[..idx];
  }

  lemma ImportsStep(pages: seq<string>, page: string)
    ensures ImportsOf(pages + [page]) == ImportsOf(pages) + LineImports(page)
  {
    assert (pages + [page])[..|pages|] == pages;
  }

  /** The page loop of `generate_schema_with_gpt`: `replies[i]` is the LLM's
      answer for page `i + 1`, or `None` where the request raised and the
      page was skipped. */
  method GatherPages(replies: seq<Option<string>>) returns (pageSchemas: seq<string>, imports: set<string>)
    ensures pageSchemas == Pages(replies)
    ensures imports == ImportsOf(pageSchemas)
  {
    pageSchemas := [];
    imports := {};
    var idx := 0;
    while idx < |replies|
      invariant 0 <= idx <= |replies|
      invariant pageSchemas == Pages(replies[..idx])
      invariant imports == ImportsOf(pageSchemas)
    {
      ghost var pages0, imports0 := pageSchemas, imports;
      if replies[idx].Some? {
        var schemaCode := CleanPage(replies[idx].value);
        imports := AddImports(imports, schemaCode);
        pageSchemas := pageSchemas + [schemaCode];
      }
      GatherPagesNext(replies, idx, pages0, imports0, pageSchemas, imports);
      idx := idx + 1;
    }
    assert replies[..idx] == replies;
  }

  /** One turn of the page loop keeps its invariant. */
  lemma GatherPagesNext(replies: seq<Option<string>>, idx: nat, pages: seq<string>, imports: set<string>,
                        pages': seq<string>, imports': set<string>)
    requires idx < |replies| && pages == Pages(replies[..idx]) && imports == ImportsOf(pages)
    requires replies[idx].Some? ==>
      var code := CleanPage(replies[idx].value);
      pages' == pages + [code] && imports' == imports + LineImports(code)
    requires replies[idx].None? ==> pages' == pages && imports' == imports
    ensures pages' == Pages(replies[..idx + 1]) && imports' == ImportsOf(pages')
  {
    PagesStep(replies, idx);
    if replies[idx].Some? {
      ImportsStep(pages, CleanPage(replies[idx].value));
    }
  }

  /** Where the schema of page `i` (from 0) ends up in the page list: one
      plus the number of earlier pages that did not fail. */
  function Position(replies: seq<Option<string>>, i: nat): nat
    requires i <= |replies|
  {
    |Pages(replies[..i])| + 1
  }

  /** The LLM is asked, for page `i` (from 0), for a class named
      `<Capitalized>Page<i + 1>`; the top-level class refers to the schema at
      position `k` of the page list as `<Capitalized>Page<k>`. Once a page
      has failed, every later page is referred to under a lower number than
      the one its class was requested with. */
  lemma {:induction false} FailedPageShiftsNames(documentType: string, replies: seq<Option<string>>, j: nat, i: nat)
    requires j < i < |replies| && replies[j].None?
    ensures Position(replies, i) < i + 1
    ensures PageClass(Capitalize(documentType), Position(replies, i)) != PageClass(Capitalize(documentType), i + 1)
  {
    PagesShrink(replies[..i], j);
    assert replies[..i][j] == replies[j];
    PageClassInjective(Capitalize(documentType), Position(replies, i), i + 1);
  }

  /** A failed page makes the list of kept pages shorter than the replies. */
  lemma PagesShrink(replies: seq<Option<string>>, j: nat)
    requires j < |replies| && replies[j].None?
    ensures |Pages(replies)| < |replies|
  {
    PagesCount(replies);
    AnsweredBelow(replies, j);
  }

  /** The number of pages whose request did not raise. */
  function Answered(replies: seq<Option<string>>): nat
  {
    if replies == [] then 0
    else Answered(replies[..|replies| - 1]) + (if replies[|replies| - 1].Some? then 1 else 0)
  }

  lemma {:induction false} PagesCount(replies: seq<Option<string>>)
    ensures |Pages(replies)| == Answered(replies)
  {
    if replies != [] {
      PagesCount(replies[..|replies| - 1]);
    }
  }

  lemma {:induction false} AnsweredBelow(replies: seq<Option<string>>, j: nat)
    requires j < |replies| && replies[j].None?
    ensures Answered(replies) < |replies|
  {
    var n := |replies| - 1;
    AnsweredAtMost(replies[..n]);
    if j < n {
      assert replies[..n][j] == replies[j];
      AnsweredBelow(replies[..n], j);
    }
  }

  lemma {:induction false} AnsweredAtMost(replies: seq<Option<string>>)
    ensures Answered(replies) <= |replies|
  {
    if replies != [] {
      AnsweredAtMost(replies[..|replies| - 1]);
    }
  }

  // ---------------------------------------------------------------------------
  // create_top_level_class

  function PageClass(cap: string, k: nat): string
  {
    cap + "Page" + Show(k)
  }

  lemma PageClassInjective(cap: string, a: nat, b: nat)
    requires a != b
    ensures PageClass(cap, a) != PageClass(cap, b)
  {
    if PageClass(cap, a) == PageClass(cap, b) {
      var p := cap + "Page";
      assert PageClass(cap, a)[|p|..] == Show(a);
      assert PageClass(cap, b)[|p|..] == Show(b);
      ParseShowBare(a);
      ParseShowBare(b);
    }
  }

  const FieldHead := "    page_"
  const FieldType := ": Optional["
  const FieldTail := "] = None\n"

  /** The field for the `k`-th page schema. */
  function PageField(cap: string, k: nat): string
  {
    FieldHead + Show(k) + FieldType + PageClass(cap, k) + FieldTail
  }

  /** The fields for pages 1 to `n`, in order. */
  function PageFields(cap: string, n: nat): string
  {
    if n == 0 then "" else PageFields(cap, n - 1) + PageField(cap, n)
  }

  /** Every page from 1 to `n` has its field. */
  lemma {:induction false} PageFieldsHaveEach(cap: string, n: nat, k: nat)
    requires 1 <= k <= n
    ensures Contains(PageFields(cap, n), PageField(cap, k))
  {
    var prev := PageFields(cap, n - 1);
    assert PageFields(cap, n) == prev + PageField(cap, n);
    if k == n {
      ContainsSuffix(prev, PageField(cap, k));
    } else {
      PageFieldsHaveEach(cap, n - 1, k);
      ContainsExtended(prev, PageField(cap, n), PageField(cap, k));
    }
  }

  function TopLevelClass(documentType: string, n: nat): string
  {
    "class " + Capitalize(documentType) + "(BaseModel):\n" + PageFields(Capitalize(documentType), n)
  }

  /** The two replacements that end `create_top_level_class`. */
  function Scrub(s: string): string
  {
    ReplaceAll(ReplaceAll(s, "python\n", ""), "python", "")
  }

  /** Imports, a blank line, the page schemas separated by blank lines, a
      blank line, then the top-level class; scrubbed of "python". */
  function Assemble(importsSection: string, documentType: string, pageSchemas: seq<string>): string
  {
    Scrub(importsSection + "\n\n" + Join(pageSchemas, "\n\n") + "\n\n" + TopLevelClass(documentType, |pageSchemas|))
  }

  /** `sorted` of a set of strings, as a property of the list. */
  ghost predicate SortedListOf(xs: seq<string>, s: set<string>)
  {
    SortedBy(xs, Id) && |xs| == |s| && forall x :: x in xs <==> x in s
  }

  lemma FieldsStep(head: string, cap: string, i: nat)
    requires i >= 1
    ensures head + PageFields(cap, i - 1) + PageField(cap, i) == head + PageFields(cap, i)
  {
  }

  /** Every sorted listing of the imports is the same list. */
  lemma ImportsOrderFixed(order: seq<string>, imports: set<string>)
    requires SortedListOf(order, imports)
    ensures forall other | SortedListOf(other, imports) :: Join(other, "\n") == Join(order, "\n")
  {
    forall other | SortedListOf(other, imports) ensures Join(other, "\n") == Join(order, "\n") {
      SortedUnique(order, other, imports);
    }
  }

  /** `create_top_level_class`: the imports de-duplicated, sorted and joined
      by newlines, then the layout above. */
  method CreateTopLevelClass(documentType: string, pageSchemas: seq<string>, imports: set<string>)
    returns (combined: string)
    ensures exists order :: SortedListOf(order, imports)
    ensures forall order | SortedListOf(order, imports) ::
      combined == Assemble(Join(order, "\n"), documentType, pageSchemas)
  {
    var order := SortSet(imports, Id);
    assert SortedListOf(order, imports);
    var importsSection := Join(order, "\n");
    var cap := Capitalize(documentType);
    var head := "class " + cap + "(BaseModel):\n";
    var topLevelClass := head;
    var idx := 1;
    while idx <= |pageSchemas|
      invariant 1 <= idx <= |pageSchemas| + 1
      invariant topLevelClass == head + PageFields(cap, idx - 1)
    {
      FieldsStep(head, cap, idx);
      topLevelClass := topLevelClass + PageField(cap, idx);
      idx := idx + 1;
    }
    assert topLevelClass == TopLevelClass(documentType, |pageSchemas|);
    combined := importsSection + "\n\n" + Join(pageSchemas, "\n\n") + "\n\n" + topLevelClass;
    combined := ReplaceAll(ReplaceAll(combined, "python\n", ""), "python", "");
    assert combined == Assemble(importsSection, documentType, pageSchemas);
    ImportsOrderFixed(order, imports);
  }
}
