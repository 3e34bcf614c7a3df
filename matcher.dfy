/** The record matcher and formatter (lookup.go:27-35, lookup.go:101-153): reading one
    table file row by row, matching each data row against a key, and printing every
    matching row as aligned `title: value` lines. */
module Matcher {
  import opened Strings
  import opened Console

  /** One record as `encoding/csv` returns it; the reader never yields a record with
      no fields (a blank line is skipped). */
  type Record = r: seq<string> | |r| > 0 witness [""]

  /** How the lexed input of a file ends: cleanly, or with a read error such as a
      quoting error. */
  datatype End = Eof | ReadFailure

  /** A table file as `os.Open` and `encoding/csv` see it: it cannot be opened, or it
      holds the records lexed before `end`. */
  datatype CsvFile = Unopenable | Opened(records: seq<Record>, end: End)

  /** The result of one `reader.Read()` call. */
  datatype ReadResult = Row(fields: Record) | AtEof | Failed

  /** A matching data row together with the header of its file. */
  datatype Match = Match(titles: Record, fields: Record)

  /** `os.Open`: a path that names no readable file cannot be opened. */
  function Open(files: map<string, CsvFile>, path: string): CsvFile {
    if path in files then files[path] else Unopenable
  }

  /** The `i`-th call of `reader.Read()`. The first record fixes the number of fields;
      a later record with a different number is a read error (`csv.ErrFieldCount`). */
  function Read(f: CsvFile, i: nat): ReadResult
    requires f.Opened? && i <= |f.records|
  {
    if i < |f.records| then
      if i > 0 && |f.records[i]| != |f.records[0]| then Failed else Row(f.records[i])
    else if f.end == Eof then AtEof
    else Failed
  }

  /** The index of the first record from `from` on whose width differs from the
      header's, or the number of records when there is none. */
  function FirstMisfit(rs: seq<Record>, from: nat): (n: nat)
    requires 1 <= from <= |rs|
    ensures from <= n <= |rs|
    ensures forall j :: from <= j < n ==> |rs[j]| == |rs[0]|
    ensures n < |rs| ==> |rs[n]| != |rs[0]|
    decreases |rs| - from
  {
    if from == |rs| || |rs[from]| != |rs[0]| then from else FirstMisfit(rs, from + 1)
  }

  /** Reading stops at the end of the records or at the first record whose width
      differs from the header's. */
  lemma ReadStops(f: CsvFile, i: nat)
    requires f.Opened? && i <= |f.records| && (i > 0 ==> i <= FirstMisfit(f.records, 1))
    requires !Read(f, i).Row?
    ensures i == 0 ==> f.records == []
    ensures i > 0 ==> i == FirstMisfit(f.records, 1)
  {
  }

  // ---------------------------------------------------------------------------
  // Matching.

  function Padded(s: string): string {
    " " + s + " "
  }

  /** A field matches when its padded, lower-cased form contains the padded,
      lower-cased key: the key must stand as whole words inside the field. */
  predicate FieldMatches(key: string, field: string) {
    Contains(Lower(Padded(field)), Padded(Lower(key)))
  }

  predicate RowMatches(key: string, row: seq<string>) {
    exists k :: 0 <= k < |row| && FieldMatches(key, row[k])
  }

  lemma LowerPadded(s: string)
    ensures Lower(Padded(s)) == Padded(Lower(s))
  {
    LowerConcat(" " + s, " ");
    LowerConcat(" ", s);
  }

  /** A key that stands in a field delimited by spaces or by the field's ends matches,
      whatever the case of either. */
  lemma WordMatch(key: string, pre: string, word: string, post: string)
    requires Lower(word) == Lower(key)
    requires pre == [] || pre[|pre| - 1] == ' '
    requires post == [] || post[0] == ' '
    ensures FieldMatches(key, pre + word + post)
  {
    var field := pre + word + post;
    var lk := Lower(key);
    LowerConcat(pre + word, post);
    LowerConcat(pre, word);
    assert Lower(field) == (Lower(pre) + lk) + Lower(post);
    var front := if pre == [] then [] else " " + Lower(pre[..|pre| - 1]);
    var back := if post == [] then [] else Lower(post[1..]) + " ";
    if pre != [] {
      assert pre == pre[..|pre| - 1] + " ";
      LowerConcat(pre[..|pre| - 1], " ");
    }
    if post != [] {
      assert post == " " + post[1..];
      LowerConcat(" ", post[1..]);
    }
    assert " " + Lower(pre) == front + " ";
    assert Lower(post) + " " == " " + back;
    LowerPadded(field);
    var h := Lower(Padded(field));
    assert h == (" " + ((Lower(pre) + lk) + Lower(post))) + " ";
    StringRegroup(" ", Lower(pre), lk, Lower(post), " ");
    assert h == ((front + " ") + lk) + (" " + back);
    StringRegroup(front, " ", lk, " ", back);
    assert h == (front + ((" " + lk) + " ")) + back;
    assert OccursAt(h, Padded(lk), |front|);
  }

  lemma StringRegroup(s: string, p: string, k: string, q: string, t: string)
    ensures (s + ((p + k) + q)) + t == ((s + p) + k) + (q + t)
    ensures ((s + p) + k) + (q + t) == (s + ((p + k) + q)) + t
  {
  }

  /** For a key and a field that are single words, matching is case-insensitive
      equality: a key never matches a mere part of a word. */
  lemma SingleWord(key: string, field: string)
    requires forall i :: 0 <= i < |key| ==> key[i] != ' '
    requires forall i :: 0 <= i < |field| ==> field[i] != ' '
    ensures FieldMatches(key, field) <==> Lower(field) == Lower(key)
  {
    LowerPadded(field);
    var h := Padded(Lower(field));
    var n := Padded(Lower(key));
    if Lower(field) == Lower(key) {
      WordMatch(key, [], field, []);
      assert [] + field + [] == field;
    }
    if FieldMatches(key, field) {
      var i :| 0 <= i <= |h| - |n| && OccursAt(h, n, i);
      assert forall j :: 0 < j < |h| - 1 ==> h[j] == Lower(field)[j - 1] != ' ' by {
        forall j | 0 < j < |h| - 1 ensures h[j] == Lower(field)[j - 1] != ' ' {
          LowerSpace(field, j - 1);
        }
      }
      assert h[i] == n[0] == ' ';
      assert i == 0;
      assert h[|n| - 1] == n[|n| - 1] == ' ';
      assert |n| == |h|;
      assert h == n;
      assert Lower(field) == h[1..|h| - 1] == n[1..|n| - 1] == Lower(key);
    }
  }

  /** A part of a word is not a match: key "an" does not match field "banana". */
  lemma PartOfWordDoesNotMatch()
    ensures !FieldMatches("an", "banana")
  {
    SingleWord("an", "banana");
  }

  /** A multi-word key matches a phrase inside a longer field, in any case. */
  lemma PhraseMatches()
    ensures FieldMatches("new york", "Flights to New York daily")
  {
    assert "Flights to New York daily" == "Flights to " + "New York" + " daily";
    WordMatch("new york", "Flights to ", "New York", " daily");
  }

  // ---------------------------------------------------------------------------
  // What one file contributes.

  predicate WellFormed(ms: seq<Match>) {
    forall i :: 0 <= i < |ms| ==> |ms[i].fields| == |ms[i].titles|
  }

  /** The matching data rows among records `1 .. n-1`, in file order. */
  function Matches(key: string, rs: seq<Record>, n: nat): (ms: seq<Match>)
    requires |rs| > 0 && 1 <= n <= FirstMisfit(rs, 1)
    ensures WellFormed(ms)
  {
    if n == 1 then []
    else Matches(key, rs, n - 1) + (if RowMatches(key, rs[n - 1]) then [Match(rs[0], rs[n - 1])] else [])
  }

  /** The rows of a file that match `key`: the header is never a candidate, and reading
      stops at the first record whose width differs from the header's. */
  function FileMatches(key: string, f: CsvFile): (ms: seq<Match>)
    ensures WellFormed(ms)
  {
    if f.Unopenable? || |f.records| == 0 then []
    else Matches(key, f.records, FirstMisfit(f.records, 1))
  }

  /** The rows reported for a file are exactly its well-formed data rows before the
      first misfit that match the key, each paired with the header. */
  lemma {:induction false} MatchesExact(key: string, rs: seq<Record>, n: nat, m: Match)
    requires |rs| > 0 && 1 <= n <= FirstMisfit(rs, 1)
    ensures m in Matches(key, rs, n) <==>
      exists j :: 1 <= j < n && m == Match(rs[0], rs[j]) && RowMatches(key, rs[j])
    decreases n
  {
    if n > 1 {
      MatchesExact(key, rs, n - 1, m);
    }
  }

  lemma FileMatchesExact(key: string, f: CsvFile, m: Match)
    ensures m in FileMatches(key, f) <==>
      f.Opened? && |f.records| > 0 &&
      exists j :: 1 <= j < FirstMisfit(f.records, 1) &&
        m == Match(f.records[0], f.records[j]) && RowMatches(key, f.records[j])
  {
    if f.Opened? && |f.records| > 0 {
      MatchesExact(key, f.records, FirstMisfit(f.records, 1), m);
    }
  }

  // ---------------------------------------------------------------------------
  // Formatting.

  /** `maxStringLen` as a value: the length of the longest string, 0 for none. */
  function MaxLen(ss: seq<string>): (m: nat)
    ensures forall i :: 0 <= i < |ss| ==> |ss[i]| <= m
    ensures |ss| == 0 ==> m == 0
    ensures |ss| > 0 ==> exists i :: 0 <= i < |ss| && |ss[i]| == m
  {
    if |ss| == 0 then 0
    else
      var m := MaxLen(ss[..|ss| - 1]);
      if m < |ss[|ss| - 1]| then |ss[|ss| - 1]| else m
  }

  /** `maxStringLen(strings)`. */
  method MaxStringLen(ss: seq<string>) returns (maxlen: nat)
    ensures maxlen == MaxLen(ss)
  {
    maxlen := 0;
    for i := 0 to |ss|
      invariant maxlen == MaxLen(ss[..i])
    {
      assert ss[..i + 1][..i] == ss[..i];
      if maxlen < |ss[i]| {
        maxlen := |ss[i]|;
      }
    }
    assert ss[..|ss|] == ss;
  }

  /** One printed line: the title, a colon, padding up to `width`, a space and the
      value, so that the value starts at column `width + 2` whatever the title. */
  function FieldLine(title: string, width: nat, field: string): (line: string)
    requires |title| <= width
    ensures |line| == width + 2 + |field|
    ensures line[..|title|] == title && line[|title|] == ':'
    ensures forall j :: |title| < j < width + 2 ==> line[j] == ' '
    ensures line[width + 2..] == field
  {
    title + ":" + Spaces(width - |title|) + " " + field
  }

  /** The lines printed for one matching row: one per header column, in header order. */
  function Block(m: Match): (lines: seq<string>)
    requires |m.fields| == |m.titles|
    ensures |lines| == |m.titles|
    ensures forall i :: 0 <= i < |lines| ==>
              |m.titles[i]| <= MaxLen(m.titles) && |lines[i]| == MaxLen(m.titles) + 2 + |m.fields[i]| &&
              lines[i][..|m.titles[i]|] == m.titles[i] && lines[i][|m.titles[i]|] == ':' &&
              (forall j :: |m.titles[i]| < j < MaxLen(m.titles) + 2 ==> lines[i][j] == ' ') &&
              lines[i][MaxLen(m.titles) + 2..] == m.fields[i]
  {
    seq(|m.titles|, i requires 0 <= i < |m.titles| => FieldLine(m.titles[i], MaxLen(m.titles), m.fields[i]))
  }

  /** The lines printed for a run of matching rows; a blank line precedes a block
      when `sep` holds (something was printed before) or it is not the first. */
  function Blocks(ms: seq<Match>, sep: bool): seq<string>
    requires WellFormed(ms)
  {
    if ms == [] then []
    else Blocks(ms[..|ms| - 1], sep) + (if sep || |ms| > 1 then [""] else []) + Block(ms[|ms| - 1])
  }

  /** Printing two runs one after the other is printing their concatenation. */
  lemma {:induction false} BlocksAppend(a: seq<Match>, b: seq<Match>, sep: bool)
    requires WellFormed(a) && WellFormed(b)
    ensures WellFormed(a + b)
    ensures Blocks(a + b, sep) == Blocks(a, sep) + Blocks(b, sep || a != [])
    decreases |b|
  {
    if b == [] {
      assert a + b == a;
    } else {
      var init := b[..|b| - 1];
      var last := b[|b| - 1];
      assert (a + b)[..|a + b| - 1] == a + init;
      assert (a + b)[|a + b| - 1] == last;
      BlocksAppend(a, init, sep);
      var gap: seq<string> := if sep || |a + b| > 1 then [""] else [];
      assert gap == if (sep || a != []) || |b| > 1 then [""] else [];
      ConcatRegroupLeft(Blocks(a, sep), Blocks(init, sep || a != []), gap, Block(last));
    }
  }

  /** Printing one more row after a run: a separator, then its block. */
  lemma BlocksSnoc(ms: seq<Match>, m: Match, sep: bool)
    requires WellFormed(ms) && |m.fields| == |m.titles|
    ensures WellFormed(ms + [m])
    ensures Blocks(ms + [m], sep) == Blocks(ms, sep) + (if sep || ms != [] then [""] else []) + Block(m)
  {
    assert (ms + [m])[..|ms|] == ms;
  }

  lemma ConcatAssoc<T>(a: seq<T>, b: seq<T>, c: seq<T>)
    ensures (a + b) + c == a + (b + c)
  {
  }

  lemma LastOfConcat(a: seq<string>, b: seq<string>)
    requires b != []
    ensures (a + b)[|a + b| - 1] == b[|b| - 1]
  {
  }

  lemma FirstOfConcat(a: seq<string>, b: seq<string>)
    requires a != []
    ensures (a + b)[0] == a[0]
  {
  }

  lemma ConcatRegroupLeft(a: seq<string>, b: seq<string>, c: seq<string>, d: seq<string>)
    ensures ((a + b) + c) + d == a + ((b + c) + d)
  {
  }

  /** The number of blank lines. */
  function Blanks(lines: seq<string>): nat {
    if lines == [] then 0 else Blanks(lines[..|lines| - 1]) + (if lines[|lines| - 1] == "" then 1 else 0)
  }

  lemma {:induction false} BlanksConcat(a: seq<string>, b: seq<string>)
    ensures Blanks(a + b) == Blanks(a) + Blanks(b)
    decreases |b|
  {
    if b == [] {
      assert a + b == a;
    } else {
      assert (a + b)[..|a + b| - 1] == a + b[..|b| - 1];
      BlanksConcat(a, b[..|b| - 1]);
    }
  }

  lemma {:induction false} NoBlankLines(lines: seq<string>)
    requires forall i :: 0 <= i < |lines| ==> lines[i] != ""
    ensures Blanks(lines) == 0
    decreases |lines|
  {
    if lines != [] {
      NoBlankLines(lines[..|lines| - 1]);
    }
  }

  /** Every line of a block holds its title's colon, so none is blank. */
  lemma BlockHasNoBlank(m: Match)
    requires |m.fields| == |m.titles|
    ensures forall i :: 0 <= i < |Block(m)| ==> Block(m)[i] != ""
    ensures Blanks(Block(m)) == 0
  {
    forall i | 0 <= i < |Block(m)| ensures Block(m)[i] != "" {
      assert Block(m)[i][|m.titles[i]|] == ':';
    }
    NoBlankLines(Block(m));
  }

  /** Blank lines appear only as separators: none before the first block unless `sep`,
      and exactly one between consecutive blocks. */
  lemma {:induction false} BlocksBlanks(ms: seq<Match>, sep: bool)
    requires WellFormed(ms)
    ensures Blanks(Blocks(ms, sep)) == if ms == [] then 0 else if sep then |ms| else |ms| - 1
    decreases |ms|
  {
    if ms != [] {
      var init := ms[..|ms| - 1];
      var last := ms[|ms| - 1];
      BlocksBlanks(init, sep);
      BlockHasNoBlank(last);
      var gap := if sep || |ms| > 1 then [""] else [];
      assert Blocks(ms, sep) == Blocks(init, sep) + gap + Block(last);
      assert Blanks(gap) == if sep || |ms| > 1 then 1 else 0 by {
        if gap != [] {
          OneBlank();
        }
      }
      BlanksConcat(Blocks(init, sep), gap);
      BlanksConcat(Blocks(init, sep) + gap, Block(last));
    }
  }

  lemma OneBlank()
    ensures Blanks([""]) == 1
  {
    assert [""][..0] == [];
  }

  /** Without `sep` the output starts with the first row's first field line. */
  lemma {:induction false} BlocksStart(ms: seq<Match>, sep: bool)
    requires WellFormed(ms) && ms != []
    ensures Blocks(ms, sep) != []
    ensures Blocks(ms, sep)[0] == if sep then "" else Block(ms[0])[0]
    decreases |ms|
  {
    if |ms| > 1 {
      BlocksStart(ms[..|ms| - 1], sep);
    }
  }

  /** The output of a run of blocks ends with a field line, never a blank one. */
  lemma BlocksEnd(ms: seq<Match>, sep: bool)
    requires WellFormed(ms) && ms != []
    ensures Blocks(ms, sep) != [] && Blocks(ms, sep)[|Blocks(ms, sep)| - 1] != ""
  {
    var last := ms[|ms| - 1];
    BlockHasNoBlank(last);
    assert Blocks(ms, sep)[|Blocks(ms, sep)| - 1] == Block(last)[|Block(last)| - 1];
  }

  // ---------------------------------------------------------------------------
  // The matcher itself.

  /** The field loop of `lookupKeyInFile`: whether some field of the record matches. */
  method RecordMatches(key: string, record: seq<string>) returns (recordMatches: bool)
    ensures recordMatches == RowMatches(key, record)
  {
    var lowKey := Padded(Lower(key));
    recordMatches := false;
    for j := 0 to |record|
      invariant recordMatches == exists k :: 0 <= k < j && FieldMatches(key, record[k])
    {
      var lowField := Lower(Padded(record[j]));
      if Contains(lowField, lowKey) {
        recordMatches := true;
      }
    }
  }

  /** The printing loop of `lookupKeyInFile`: one line per header column. */
  method PrintRecord(fieldTitles: Record, maxTitleLen: nat, record: Record, out: Stdout)
    requires |record| == |fieldTitles| && maxTitleLen == MaxLen(fieldTitles)
    modifies out
    ensures out.lines == old(out.lines) + Block(Match(fieldTitles, record))
  {
    ghost var block := Block(Match(fieldTitles, record));
    for t := 0 to |fieldTitles|
      invariant out.lines == old(out.lines) + block[..t]
    {
      var title := fieldTitles[t];
      var field := record[t];
      var gap := maxTitleLen - |title|;
      out.Println(title + ":" + Spaces(gap) + " " + field);
      assert block[t] == title + ":" + Spaces(gap) + " " + field;
      assert block[..t + 1] == block[..t] + [block[t]];
    }
    assert block[..|fieldTitles|] == block;
  }

  /** A data row of `lookupKeyInFile`: when it matches, a blank line if something was
      printed before, then its block. */
  method EmitIfMatches(key: string, fieldTitles: Record, maxTitleLen: nat, record: Record, printedBefore: bool, out: Stdout)
    returns (recordMatches: bool)
    requires |record| == |fieldTitles| && maxTitleLen == MaxLen(fieldTitles)
    modifies out
    ensures recordMatches == RowMatches(key, record)
    ensures out.lines == old(out.lines) +
      if recordMatches then (if printedBefore then [""] else []) + Block(Match(fieldTitles, record)) else []
  {
    recordMatches := RecordMatches(key, record);
    if recordMatches {
      ghost var gap: seq<string> := if printedBefore then [""] else [];
      if printedBefore {
        out.Println("");
      }
      assert out.lines == old(out.lines) + gap;
      PrintRecord(fieldTitles, maxTitleLen, record, out);
      ConcatAssoc(old(out.lines), gap, Block(Match(fieldTitles, record)));
    }
  }

  /** One more data row: when it matches, its pair is reported after the earlier ones,
      and its block is printed after theirs, separated when anything came before. */
  lemma MatchesStep(key: string, rs: seq<Record>, n: nat, sep: bool)
    requires |rs| > 0 && 1 <= n < FirstMisfit(rs, 1)
    ensures Matches(key, rs, n + 1) ==
      Matches(key, rs, n) + (if RowMatches(key, rs[n]) then [Match(rs[0], rs[n])] else [])
    ensures Blocks(Matches(key, rs, n + 1), sep) ==
      Blocks(Matches(key, rs, n), sep) +
      (if RowMatches(key, rs[n])
       then (if sep || Matches(key, rs, n) != [] then [""] else []) + Block(Match(rs[0], rs[n]))
       else [])
  {
    var earlier := Matches(key, rs, n);
    if RowMatches(key, rs[n]) {
      var m := Match(rs[0], rs[n]);
      BlocksSnoc(earlier, m, sep);
      ConcatAssoc(Blocks(earlier, sep), if sep || earlier != [] then [""] else [], Block(m));
    } else {
      assert earlier + [] == earlier;
    }
  }

  /** Data row `n` of a file whose earlier rows have been handled: `base` is what was
      printed before the file, and the output grows from the blocks of the earlier rows
      to the blocks of the rows up to `n`. */
  method ProcessRow(key: string, rs: seq<Record>, n: nat, maxTitleLen: nat, anyKeyFound: bool, printedBefore: bool,
                    ghost base: seq<string>, out: Stdout)
    returns (recordMatches: bool)
    requires |rs| > 0 && 1 <= n < FirstMisfit(rs, 1) && maxTitleLen == MaxLen(rs[0])
    requires printedBefore == (anyKeyFound || Matches(key, rs, n) != [])
    requires out.lines == base + Blocks(Matches(key, rs, n), anyKeyFound)
    modifies out
    ensures recordMatches == RowMatches(key, rs[n])
    ensures Matches(key, rs, n + 1) != [] <==> Matches(key, rs, n) != [] || recordMatches
    ensures out.lines == base + Blocks(Matches(key, rs, n + 1), anyKeyFound)
  {
    MatchesStep(key, rs, n, anyKeyFound);
    ghost var printed := Blocks(Matches(key, rs, n), anyKeyFound);
    ghost var emitted := if RowMatches(key, rs[n])
      then (if printedBefore then [""] else []) + Block(Match(rs[0], rs[n])) else [];
    recordMatches := EmitIfMatches(key, rs[0], maxTitleLen, rs[n], printedBefore, out);
    ConcatAssoc(base, printed, emitted);
  }

  /** `lookupKeyInFile(key, csvFile, anyKeyFound)`: prints the block of every matching
      row of the file, a blank line before each block when something was already
      printed, and reports whether it printed any block. */
  method LookupKeyInFile(key: string, csvFile: string, files: map<string, CsvFile>, anyKeyFound: bool, out: Stdout)
    returns (found: bool)
    modifies out
    ensures found == (FileMatches(key, Open(files, csvFile)) != [])
    ensures out.lines == old(out.lines) + Blocks(FileMatches(key, Open(files, csvFile)), anyKeyFound)
  {
    var file := Open(files, csvFile);
    if file.Unopenable? {
      return false;
    }
    var rs := file.records;
    found := false;
    var fieldTitles: seq<string> := [];
    var maxTitleLen := 0;
    var printedBefore := anyKeyFound;
    var i := 0;
    ghost var ms: seq<Match> := [];
    while true
      invariant 0 <= i <= |rs|
      invariant i == 0 <==> fieldTitles == []
      invariant i > 0 ==> fieldTitles == rs[0] && maxTitleLen == MaxLen(fieldTitles) && i <= FirstMisfit(rs, 1)
      invariant i > 0 ==> ms == Matches(key, rs, i)
      invariant i == 0 ==> ms == []
      invariant WellFormed(ms)
      invariant found == (ms != [])
      invariant printedBefore == (anyKeyFound || found)
      invariant out.lines == old(out.lines) + Blocks(ms, anyKeyFound)
      decreases |rs| - i
    {
      var r := Read(file, i);
      if r.AtEof? {
        ReadStops(file, i);
        break;
      }
      if r.Failed? {
        // reported on standard error
        ReadStops(file, i);
        break;
      }
      assert i < |rs| && r.fields == rs[i];
      assert i > 0 ==> i < FirstMisfit(rs, 1);
      var record := r.fields;
      i := i + 1;
      if |fieldTitles| == 0 {
        fieldTitles := record;
        maxTitleLen := MaxStringLen(fieldTitles);
        assert Matches(key, rs, i) == [];
        continue;
      }
      var recordMatches := ProcessRow(key, rs, i - 1, maxTitleLen, anyKeyFound, printedBefore, old(out.lines), out);
      ms := Matches(key, rs, i);
      if recordMatches {
        found := true;
        printedBefore := true;
      }
    }
  }
}
