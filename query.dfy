/** The query engine (lookup.go:155-182): every key is looked up in every file of the
    requested table, blocks are printed as they are found, and the keys found nowhere
    are listed at the end. */
module Query {
  import opened Console
  import opened Discovery
  import opened Matcher
  import opened Strings

  /** The rows matching `key` in the given files, file by file in list order. */
  function KeyMatches(key: string, files: seq<string>, contents: map<string, CsvFile>): (ms: seq<Match>)
    ensures WellFormed(ms)
  {
    if files == [] then []
    else KeyMatches(key, files[..|files| - 1], contents) + FileMatches(key, Open(contents, files[|files| - 1]))
  }

  /** Every block of the run: key by key in request order, then file by file. */
  function AllMatches(keys: seq<string>, files: seq<string>, contents: map<string, CsvFile>): (ms: seq<Match>)
    ensures WellFormed(ms)
  {
    if keys == [] then []
    else AllMatches(keys[..|keys| - 1], files, contents) + KeyMatches(keys[|keys| - 1], files, contents)
  }

  /** The keys that matched in no file, in request order. */
  function Missing(keys: seq<string>, files: seq<string>, contents: map<string, CsvFile>): seq<string> {
    if keys == [] then []
    else
      Missing(keys[..|keys| - 1], files, contents) +
      (if KeyMatches(keys[|keys| - 1], files, contents) == [] then [keys[|keys| - 1]] else [])
  }

  /** One "Not found" line per missing key; none of them is blank. */
  function NotFoundLines(missing: seq<string>): (lines: seq<string>)
    ensures |lines| == |missing|
    ensures forall i :: 0 <= i < |lines| ==> lines[i] != ""
  {
    seq(|missing|, i requires 0 <= i < |missing| => "Not found: " + missing[i])
  }

  /** Everything `lookup` prints for a table whose index entry is `files`. */
  function Report(kind: string, keys: seq<string>, files: seq<string>, contents: map<string, CsvFile>): seq<string> {
    var ms := AllMatches(keys, files, contents);
    var missing := Missing(keys, files, contents);
    (if |files| == 0 then ["No such lookup table: " + kind] else []) +
    Blocks(ms, false) +
    (if |missing| > 0 then (if ms != [] then [""] else []) + NotFoundLines(missing) else [])
  }

  /** One more file: its blocks follow those of the files before it. */
  lemma FileStep(key: string, files: seq<string>, j: nat, contents: map<string, CsvFile>, sep: bool)
    requires j < |files|
    ensures KeyMatches(key, files[..j + 1], contents) ==
      KeyMatches(key, files[..j], contents) + FileMatches(key, Open(contents, files[j]))
    ensures Blocks(KeyMatches(key, files[..j + 1], contents), sep) ==
      Blocks(KeyMatches(key, files[..j], contents), sep) +
      Blocks(FileMatches(key, Open(contents, files[j])), sep || KeyMatches(key, files[..j], contents) != [])
  {
    assert files[..j + 1][..j] == files[..j];
    BlocksAppend(KeyMatches(key, files[..j], contents), FileMatches(key, Open(contents, files[j])), sep);
  }

  /** The file loop of `lookup` for one key: `keyFound` says whether some file
      matched, and `anyKeyFound` is threaded through the matcher. */
  method LookupKeyInFiles(key: string, csvFiles: seq<string>, contents: map<string, CsvFile>,
                          anyKeyFoundBefore: bool, out: Stdout)
    returns (keyFound: bool, anyKeyFound: bool)
    modifies out
    ensures keyFound == (KeyMatches(key, csvFiles, contents) != [])
    ensures anyKeyFound == (anyKeyFoundBefore || keyFound)
    ensures out.lines == old(out.lines) + Blocks(KeyMatches(key, csvFiles, contents), anyKeyFoundBefore)
  {
    keyFound := false;
    anyKeyFound := anyKeyFoundBefore;
    for j := 0 to |csvFiles|
      invariant keyFound == (KeyMatches(key, csvFiles[..j], contents) != [])
      invariant anyKeyFound == (anyKeyFoundBefore || keyFound)
      invariant out.lines == old(out.lines) + Blocks(KeyMatches(key, csvFiles[..j], contents), anyKeyFoundBefore)
    {
      FileStep(key, csvFiles, j, contents, anyKeyFoundBefore);
      ghost var printed := Blocks(KeyMatches(key, csvFiles[..j], contents), anyKeyFoundBefore);
      ghost var more := Blocks(FileMatches(key, Open(contents, csvFiles[j])), anyKeyFound);
      var found := LookupKeyInFile(key, csvFiles[j], contents, anyKeyFound, out);
      ConcatAssoc(old(out.lines), printed, more);
      if found {
        keyFound := true;
        anyKeyFound := true;
      }
    }
    assert csvFiles[..|csvFiles|] == csvFiles;
  }

  /** The closing lines of `lookup`: a blank line if some block was printed, then one
      "Not found" line per missing key. */
  method PrintMissing(missing: seq<string>, anyKeyFound: bool, out: Stdout)
    modifies out
    ensures out.lines == old(out.lines) +
      if |missing| > 0 then (if anyKeyFound then [""] else []) + NotFoundLines(missing) else []
  {
    if |missing| > 0 {
      if anyKeyFound {
        out.Println("");
      }
      ghost var tail := out.lines;
      for k := 0 to |missing|
        invariant out.lines == tail + NotFoundLines(missing[..k])
      {
        out.Println("Not found: " + missing[k]);
        assert NotFoundLines(missing[..k + 1]) == NotFoundLines(missing[..k]) + ["Not found: " + missing[k]];
      }
      assert missing[..|missing|] == missing;
    }
  }

  /** One more key: its blocks follow those of the keys before it, separated from them
      when any was printed, and it is missing when it matches nowhere. */
  lemma KeyStep(keys: seq<string>, i: nat, files: seq<string>, contents: map<string, CsvFile>)
    requires i < |keys|
    ensures AllMatches(keys[..i + 1], files, contents) ==
      AllMatches(keys[..i], files, contents) + KeyMatches(keys[i], files, contents)
    ensures Missing(keys[..i + 1], files, contents) ==
      Missing(keys[..i], files, contents) + (if KeyMatches(keys[i], files, contents) == [] then [keys[i]] else [])
    ensures Blocks(AllMatches(keys[..i + 1], files, contents), false) ==
      Blocks(AllMatches(keys[..i], files, contents), false) +
      Blocks(KeyMatches(keys[i], files, contents), AllMatches(keys[..i], files, contents) != [])
  {
    assert keys[..i + 1][..i] == keys[..i];
    BlocksAppend(AllMatches(keys[..i], files, contents), KeyMatches(keys[i], files, contents), false);
  }

  /** The key loop of `lookup`: the blocks of every key in request order, and the
      keys that matched nowhere. */
  method LookupKeys(keys: seq<string>, csvFiles: seq<string>, contents: map<string, CsvFile>, out: Stdout)
    returns (missing: seq<string>, anyKeyFound: bool)
    modifies out
    ensures missing == Missing(keys, csvFiles, contents)
    ensures anyKeyFound == (AllMatches(keys, csvFiles, contents) != [])
    ensures out.lines == old(out.lines) + Blocks(AllMatches(keys, csvFiles, contents), false)
  {
    anyKeyFound := false;
    missing := [];
    for i := 0 to |keys|
      invariant missing == Missing(keys[..i], csvFiles, contents)
      invariant anyKeyFound == (AllMatches(keys[..i], csvFiles, contents) != [])
      invariant out.lines == old(out.lines) + Blocks(AllMatches(keys[..i], csvFiles, contents), false)
    {
      var key := keys[i];
      KeyStep(keys, i, csvFiles, contents);
      ghost var printed := Blocks(AllMatches(keys[..i], csvFiles, contents), false);
      ghost var more := Blocks(KeyMatches(key, csvFiles, contents), anyKeyFound);
      var keyFound;
      keyFound, anyKeyFound := LookupKeyInFiles(key, csvFiles, contents, anyKeyFound, out);
      ConcatAssoc(old(out.lines), printed, more);
      if !keyFound {
        missing := missing + [key];
      }
    }
    assert keys[..|keys|] == keys;
  }

  /** `lookup(kind, keys)`, with the index built from the default search path of the
      user whose home directory is `home`. */
  method Lookup(kind: string, keys: seq<string>, home: string, fs: map<string, Listing>,
                contents: map<string, CsvFile>, out: Stdout)
    modifies out
    ensures out.lines == old(out.lines) + Report(kind, keys, Get(Tables(SearchPath(home), fs), kind), contents)
  {
    var tables := GetAllTables(SearchPath(home), fs);
    var csvFiles := Get(tables, kind);
    ghost var top: seq<string> := if |csvFiles| == 0 then ["No such lookup table: " + kind] else [];
    if |csvFiles| == 0 {
      out.Println("No such lookup table: " + kind);
    }
    assert out.lines == old(out.lines) + top;
    var missing, anyKeyFound := LookupKeys(keys, csvFiles, contents, out);
    ghost var body := Blocks(AllMatches(keys, csvFiles, contents), false);
    PrintMissing(missing, anyKeyFound, out);
    ghost var tail := if |missing| > 0 then (if anyKeyFound then [""] else []) + NotFoundLines(missing) else [];
    assert out.lines == ((old(out.lines) + top) + body) + tail;
    ConcatRegroupLeft(old(out.lines), top, body, tail);
    assert Report(kind, keys, csvFiles, contents) == (top + body) + tail;
  }

  // ---------------------------------------------------------------------------
  // Properties of the report.

  /** A key is found exactly when some file of the table has a matching row for it. */
  lemma KeyFound(key: string, files: seq<string>, contents: map<string, CsvFile>)
    ensures KeyMatches(key, files, contents) != [] <==>
      exists j :: 0 <= j < |files| && FileMatches(key, Open(contents, files[j])) != []
  {
    if KeyMatches(key, files, contents) != [] {
      var j := FoundIn(key, files, contents);
    }
    forall j | 0 <= j < |files| && FileMatches(key, Open(contents, files[j])) != []
      ensures KeyMatches(key, files, contents) != []
    {
      FoundFrom(key, files, contents, j);
    }
  }

  /** A found key names a file where it matched. */
  lemma {:induction false} FoundIn(key: string, files: seq<string>, contents: map<string, CsvFile>)
    returns (j: nat)
    requires KeyMatches(key, files, contents) != []
    ensures j < |files| && FileMatches(key, Open(contents, files[j])) != []
    decreases |files|
  {
    var init := files[..|files| - 1];
    if KeyMatches(key, init, contents) != [] {
      j := FoundIn(key, init, contents);
      assert files[j] == init[j];
    } else {
      j := |files| - 1;
    }
  }

  /** A key that matches in one file of the table is found. */
  lemma {:induction false} FoundFrom(key: string, files: seq<string>, contents: map<string, CsvFile>, j: nat)
    requires j < |files| && FileMatches(key, Open(contents, files[j])) != []
    ensures KeyMatches(key, files, contents) != []
    decreases |files|
  {
    var init := files[..|files| - 1];
    if j < |init| {
      assert init[j] == files[j];
      FoundFrom(key, init, contents, j);
    }
  }

  /** The missing list holds exactly the requested keys that matched nowhere. */
  lemma {:induction false} MissingExact(keys: seq<string>, files: seq<string>, contents: map<string, CsvFile>, k: string)
    ensures k in Missing(keys, files, contents) <==> k in keys && KeyMatches(k, files, contents) == []
    decreases |keys|
  {
    if keys != [] {
      var init := keys[..|keys| - 1];
      MissingExact(init, files, contents, k);
      assert keys == init + [keys[|keys| - 1]];
    }
  }

  /** Keys are handled in request order: the blocks and the missing keys of a longer
      request extend those of its prefix. */
  lemma {:induction false} RequestOrder(a: seq<string>, b: seq<string>, files: seq<string>, contents: map<string, CsvFile>)
    ensures AllMatches(a + b, files, contents) == AllMatches(a, files, contents) + AllMatches(b, files, contents)
    ensures Missing(a + b, files, contents) == Missing(a, files, contents) + Missing(b, files, contents)
    decreases |b|
  {
    if b == [] {
      assert a + b == a;
    } else {
      var init := b[..|b| - 1];
      var last := b[|b| - 1];
      assert (a + b)[..|a + b| - 1] == a + init;
      assert (a + b)[|a + b| - 1] == last;
      RequestOrder(a, init, files, contents);
      ConcatAssoc(AllMatches(a, files, contents), AllMatches(init, files, contents), KeyMatches(last, files, contents));
      var gone: seq<string> := if KeyMatches(last, files, contents) == [] then [last] else [];
      ConcatAssoc(Missing(a, files, contents), Missing(init, files, contents), gone);
    }
  }

  lemma {:induction false} NothingMatchesWithoutFiles(keys: seq<string>, contents: map<string, CsvFile>)
    ensures AllMatches(keys, [], contents) == []
    ensures Missing(keys, [], contents) == keys
    decreases |keys|
  {
    if keys != [] {
      NothingMatchesWithoutFiles(keys[..|keys| - 1], contents);
    }
  }

  /** A table without files: the "No such lookup table" line, then every key as
      not found, with no blank line in between. */
  lemma NoSuchTable(kind: string, keys: seq<string>, contents: map<string, CsvFile>)
    ensures Report(kind, keys, [], contents) == ["No such lookup table: " + kind] + NotFoundLines(keys)
  {
    NothingMatchesWithoutFiles(keys, contents);
    if keys == [] {
      assert NotFoundLines(keys) == [];
    }
  }

  /** The report in its three parts: the missing-table line, the blocks, and the
      closing "Not found" lines with their separator. */
  lemma ReportParts(kind: string, keys: seq<string>, files: seq<string>, contents: map<string, CsvFile>)
    returns (top: seq<string>, bottom: seq<string>)
    ensures Report(kind, keys, files, contents) == (top + Blocks(AllMatches(keys, files, contents), false)) + bottom
    ensures top == if |files| == 0 then ["No such lookup table: " + kind] else []
    ensures var missing := Missing(keys, files, contents);
            bottom == if |missing| > 0 then (if AllMatches(keys, files, contents) != [] then [""] else []) + NotFoundLines(missing) else []
  {
    var ms := AllMatches(keys, files, contents);
    var missing := Missing(keys, files, contents);
    top := if |files| == 0 then ["No such lookup table: " + kind] else [];
    bottom := if |missing| > 0 then (if ms != [] then [""] else []) + NotFoundLines(missing) else [];
  }

  /** The requested table name is used as given while the index keys are lower-case,
      so a request with an upper-case letter always reports a missing table. */
  lemma UpperCaseTableName(kind: string, keys: seq<string>, home: string, fs: map<string, Listing>,
                           contents: map<string, CsvFile>)
    requires Lower(kind) != kind
    ensures Get(Tables(SearchPath(home), fs), kind) == []
    ensures var r := Report(kind, keys, Get(Tables(SearchPath(home), fs), kind), contents);
            r != [] && r[0] == "No such lookup table: " + kind
  {
    if kind in Tables(SearchPath(home), fs) {
      TablesKeysLowerCase(SearchPath(home), fs, kind);
    }
    var top, bottom := ReportParts(kind, keys, [], contents);
    FirstOfConcat(top, Blocks(AllMatches(keys, [], contents), false));
    FirstOfConcat(top + Blocks(AllMatches(keys, [], contents), false), bottom);
  }

  /** Every report neither starts nor ends with a blank line. */
  lemma ReportEnds(kind: string, keys: seq<string>, files: seq<string>, contents: map<string, CsvFile>)
    ensures var r := Report(kind, keys, files, contents); r != [] ==> r[0] != "" && r[|r| - 1] != ""
  {
    var ms := AllMatches(keys, files, contents);
    var missing := Missing(keys, files, contents);
    var top, bottom := ReportParts(kind, keys, files, contents);
    var body := Blocks(ms, false);
    if top != [] {
      assert top[0][0] == 'N';
    }
    if ms != [] {
      BlocksStart(ms, false);
      BlockHasNoBlank(ms[0]);
      BlocksEnd(ms, false);
    }
    if |missing| > 0 {
      var nf := NotFoundLines(missing);
      LastOfConcat(if ms != [] then [""] else [], nf);
      if ms == [] {
        assert bottom == nf;
      }
    }
    EndsNotBlank(top, body, bottom);
  }

  /** Three runs of lines, each starting and ending with a non-blank line (the last
      one may start with a blank when something comes before it). */
  lemma EndsNotBlank(top: seq<string>, body: seq<string>, bottom: seq<string>)
    requires top != [] ==> top[0] != "" && top[|top| - 1] != ""
    requires body != [] ==> body[0] != "" && body[|body| - 1] != ""
    requires bottom != [] ==> bottom[|bottom| - 1] != ""
    requires bottom != [] && top == [] && body == [] ==> bottom[0] != ""
    ensures var r := (top + body) + bottom; r != [] ==> r[0] != "" && r[|r| - 1] != ""
  {
    var r := (top + body) + bottom;
    if bottom != [] {
      LastOfConcat(top + body, bottom);
    } else if body != [] {
      LastOfConcat(top, body);
      assert r == top + body;
    } else {
      assert r == top;
    }
    if top != [] {
      FirstOfConcat(top, body);
      FirstOfConcat(top + body, bottom);
    } else if body != [] {
      assert top + body == body;
      FirstOfConcat(body, bottom);
    } else {
      assert r == bottom;
    }
  }

  /** The blank lines of every report are exactly one between consecutive blocks, plus
      one before the "Not found" lines when some block was printed. */
  lemma ReportBlanks(kind: string, keys: seq<string>, files: seq<string>, contents: map<string, CsvFile>)
    ensures var ms := AllMatches(keys, files, contents);
            var missing := Missing(keys, files, contents);
            Blanks(Report(kind, keys, files, contents)) ==
              (if ms == [] then 0 else |ms| - 1) + (if ms != [] && missing != [] then 1 else 0)
  {
    var ms := AllMatches(keys, files, contents);
    var missing := Missing(keys, files, contents);
    var top, bottom := ReportParts(kind, keys, files, contents);
    var blocks := Blocks(ms, false);
    BlocksBlanks(ms, false);
    TopBlanks(kind, |files|);
    BottomBlanks(ms != [], missing);
    BlanksConcat(top, blocks);
    BlanksConcat(top + blocks, bottom);
  }

  lemma TopBlanks(kind: string, count: nat)
    ensures Blanks(if count == 0 then ["No such lookup table: " + kind] else []) == 0
  {
    var top := if count == 0 then ["No such lookup table: " + kind] else [];
    assert forall i :: 0 <= i < |top| ==> top[i] != "" by {
      if count == 0 {
        assert top[0][0] == 'N';
      }
    }
    NoBlankLines(top);
  }

  lemma BottomBlanks(printed: bool, missing: seq<string>)
    ensures Blanks(if |missing| > 0 then (if printed then [""] else []) + NotFoundLines(missing) else []) ==
            if printed && missing != [] then 1 else 0
  {
    if |missing| > 0 {
      var gap: seq<string> := if printed then [""] else [];
      OneBlank();
      NoBlankLines(NotFoundLines(missing));
      BlanksConcat(gap, NotFoundLines(missing));
    }
  }

  // ---------------------------------------------------------------------------
  // Worked examples.

  const ColorsFile: CsvFile := Opened([["name", "hex"], ["red", "#ff0000"], ["crimson", "#dc143c"]], Eof)

  const RedMatch: Match := Match(["name", "hex"], ["red", "#ff0000"])

  /** In the colors table, "red" matches the `red` row (a whole field) and no other. */
  lemma ColorsRed()
    ensures FileMatches("red", ColorsFile) == [RedMatch]
  {
    var rs := ColorsFile.records;
    assert FirstMisfit(rs, 1) == 3;
    SingleWord("red", "red");
    SingleWord("red", "crimson");
    SingleWord("red", "#dc143c");
    assert RowMatches("red", rs[1]) by { assert FieldMatches("red", rs[1][0]); }
    assert !RowMatches("red", rs[2]);
    assert Matches("red", rs, 2) == [RedMatch];
  }

  /** In the colors table, "crim" matches nothing: it is only part of "crimson". */
  lemma ColorsCrim()
    ensures FileMatches("crim", ColorsFile) == []
  {
    var rs := ColorsFile.records;
    assert FirstMisfit(rs, 1) == 3;
    SingleWord("crim", "red");
    SingleWord("crim", "#ff0000");
    SingleWord("crim", "crimson");
    SingleWord("crim", "#dc143c");
    assert !RowMatches("crim", rs[1]);
    assert !RowMatches("crim", rs[2]);
    assert Matches("crim", rs, 2) == [];
  }

  /** The `red` block: the values start in one column, after the longest title. */
  lemma RedBlock()
    ensures Block(RedMatch) == ["name: red", "hex:  #ff0000"]
  {
    assert MaxLen(["name", "hex"]) == 4 by {
      assert ["name", "hex"][..1] == ["name"];
    }
    assert Spaces(0) == "" && Spaces(1) == " ";
    assert FieldLine("name", 4, "red") == "name:" + " " + "red";
    assert "name:" + " " + "red" == "name: red";
    assert FieldLine("hex", 4, "#ff0000") == "hex:" + " " + " " + "#ff0000";
    assert "hex:" + " " + " " + "#ff0000" == "hex:  #ff0000";
  }

  /** `lookup colors red crim`: the `red` row with aligned values, a blank line, and
      "crim" as not found. */
  lemma ColorsExample()
    ensures Report("colors", ["red", "crim"], ["/t/colors.csv"], map["/t/colors.csv" := ColorsFile])
         == ["name: red", "hex:  #ff0000", "", "Not found: crim"]
  {
    var files := ["/t/colors.csv"];
    var contents := map["/t/colors.csv" := ColorsFile];
    ColorsRun();
    RedBlocks();
    CrimNotFound();
    var top, bottom := ReportParts("colors", ["red", "crim"], files, contents);
    assert top == [];
    assert bottom == [""] + ["Not found: crim"];
    FourLines(top, "name: red", "hex:  #ff0000", "Not found: crim");
  }

  lemma FourLines(top: seq<string>, a: string, b: string, d: string)
    requires top == []
    ensures (top + [a, b]) + ([""] + [d]) == [a, b, "", d]
  {
  }

  lemma RedBlocks()
    ensures Blocks([RedMatch], false) == ["name: red", "hex:  #ff0000"]
  {
    RedBlock();
    assert [RedMatch][..0] == [];
    assert Blocks([RedMatch], false) == [] + [] + Block(RedMatch);
  }

  lemma CrimNotFound()
    ensures NotFoundLines(["crim"]) == ["Not found: crim"]
  {
    NotFoundOne("crim", "Not found: crim");
  }

  /** The matches and the missing keys of `lookup colors red crim`. */
  lemma ColorsRun()
    ensures var files := ["/t/colors.csv"];
            var contents := map["/t/colors.csv" := ColorsFile];
            AllMatches(["red", "crim"], files, contents) == [RedMatch] &&
            Missing(["red", "crim"], files, contents) == ["crim"]
  {
    var files := ["/t/colors.csv"];
    var contents := map["/t/colors.csv" := ColorsFile];
    assert Open(contents, files[0]) == ColorsFile;
    ColorsRed();
    ColorsCrim();
    assert files[..0] == [];
    assert KeyMatches("red", files, contents) == [RedMatch];
    assert KeyMatches("crim", files, contents) == [];
    assert ["red", "crim"][..1] == ["red"];
    assert ["red"][..0] == [];
    assert AllMatches(["red"], files, contents) == [RedMatch];
    assert Missing(["red"], files, contents) == [];
  }

  lemma NotFoundOne(key: string, line: string)
    requires "Not found: " + key == line
    ensures NotFoundLines([key]) == [line]
  {
    assert NotFoundLines([key])[0] == line;
  }

  /** `lookup ghosts anything` for a table that does not exist. */
  lemma GhostsExample(contents: map<string, CsvFile>)
    ensures Report("ghosts", ["anything"], [], contents)
         == ["No such lookup table: ghosts", "Not found: anything"]
  {
    NoSuchTable("ghosts", ["anything"], contents);
    NotFoundOne("anything", "Not found: anything");
    assert "No such lookup table: " + "ghosts" == "No such lookup table: ghosts";
    assert ["No such lookup table: " + "ghosts"] + NotFoundLines(["anything"]) == ["No such lookup table: ghosts", "Not found: anything"];
  }
}
