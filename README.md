# lookup: a Dafny model

`lookup` is a small command-line tool that searches personal lookup tables. A table is
a `.csv` file. Its first row holds the field titles and every other row is a record.
`lookup TABLE KEY...` finds every file of the table `TABLE` in the search directories
(`~/.lookup`, then `/usr/local/share/lookup`). It prints every record in which some
field holds a key as a whole word or phrase, ignoring case. Each record is printed as
aligned `title: value` lines. The keys found nowhere are listed at the end.
`lookup complete arg N WORDS...` prints the shell completion candidates for word `N`.
For the table-name slot these are the known table names, in sorted order.

The model covers the core of `lookup.go`:

- `strings.dfy` (module `Strings`): the parts of Go's `strings` package the tool uses,
  and Go's string order.
- `console.dfy` (module `Console`): standard output as a class whose `lines` field
  `Println` appends to.
- `discovery.dfy` (module `Discovery`): `getDefaultPath`, `getAllTablesInDir` and
  `getAllTables`.
  - The file system is an input value. A search directory is looked up in a map from
    path to `Listing`. A listing is a tree of named entries whose symbolic links have
    already been followed, so each entry is `Regular`, `Directory`, `Other` or
    `BrokenLink`.
  - The table index is a class (`TableIndex`) whose `tables` map the recursive walk
    updates in place, as the Go map is. Each method is proved against pure functions:
    - `Walk`: the hits of one directory, in listing order;
    - `AppendAll`: storing hits in the index;
    - `Tables`: the whole index.
  - Lemmas then state what the index holds:
    - every stored path is a visible, regular `.csv` file within the depth bound
      (`TablesSound`);
    - every such file is stored (`TablesComplete`);
    - lists keep search-path and listing order (`AppendAllGet`, `TablesExtend`).
- `matcher.dfy` (module `Matcher`): `maxStringLen` and `lookupKeyInFile`.
  - A file is the sequence of records the CSV reader lexes and the way its input
    ends.
  - The reader's field-count rule is modelled: the first record fixes the width, and
    a later record of another width is a read error. The matcher's loop stops at the
    first read error.
  - The method prints to a `Stdout` and is proved against `FileMatches` (which rows
    are reported) and `Blocks` (the lines they produce).
- `query.dfy` (module `Query`): `lookup`. Its loops are proved against `Report`, every
  line `lookup` prints for a request. Lemmas state:
  - which keys are reported missing;
  - request order;
  - the blank-line layout;
  - two worked examples.
- `completion.dfy` (module `Completion`): the `arg` branch of `complete`, including
  `strconv.Atoi` on a 64-bit platform and `sort.Strings`.

The same ordering, case and matching edge cases as the Go code are kept:

- hidden names are skipped before anything else;
- links are followed with `os.Stat`, and a broken one is skipped;
- only regular files count, and the extension test is on the lower-cased name;
- a directory is entered only while the depth is below 5;
- a blank line is printed before a block whenever a block was printed before it,
  including within the same file; the "No such lookup table" line is never followed
  by one.

Three behaviours of `lookup.go` that a user might not expect are kept as the code has
them:

- A record whose field count differs from the header's ends the reading of that file
  (`lookup.go:120-123` breaks out of the loop); the rows after it are not searched.
  `FileMatches` therefore reports only rows before the first misfit.
- The requested table name is used as typed (`lookup.go:156`), while index keys are
  lower-cased (`lookup.go:79-84`). A table name with an upper-case letter therefore
  finds no table (`Query.UpperCaseTableName`).
- Each title is padded to the longest one and followed by a single space, so the
  colors example prints `name: red` / `hex:  #ff0000` (`Query.ColorsExample`).

## Model

| member | source | states |
|---|---|---|
| Strings.LowerChar | lookup.go:79 | definition: ASCII lower-casing of one character, the letters `A`-`Z` mapped to `a`-`z` |
| Strings.Lower | lookup.go:79 | lower-casing keeps the length and maps every character through ASCII `LowerChar` |
| Strings.LowerSpace | lookup.go:131 | lower-casing neither creates nor removes a space at any position |
| Strings.LowerConcat | lookup.go:131 | lower-casing distributes over concatenation, so padding before or after lower-casing agrees |
| Strings.LowerIdempotent | lookup.go:79 | lower-casing a lower-cased string changes nothing |
| Strings.LowerPrefix | lookup.go:79-81 | a prefix of a lower-cased name (such as a table stem) is itself lower-case |
| Strings.HasPrefix | lookup.go:68 | definition: `strings.HasPrefix` |
| Strings.HasSuffix | lookup.go:80 | definition: `strings.HasSuffix` |
| Strings.Contains | lookup.go:132 | definition: `strings.Contains`, the needle occurring at some offset of the haystack |
| Strings.Spaces | lookup.go:145 | `strings.Repeat(" ", n)` has length n and holds only spaces |
| Strings.Below | lookup.go:232 | definition: the order `sort.Strings` sorts by, as `<=`: lexicographic by character, a prefix before any longer string |
| Strings.BelowTotal | lookup.go:232 | Go's string order relates every two strings one way or the other |
| Strings.BelowAntisymmetric | lookup.go:232 | strings ordered both ways are equal |
| Strings.BelowTransitive | lookup.go:232 | the string order is transitive |
| Discovery.SearchPath | lookup.go:49-51 | definition: `getDefaultPath`, the user's `~/.lookup` followed by the system directory |
| Discovery.Join | lookup.go:71 | definition: `path.Join(dir, name)` as `dir + "/" + name` |
| Discovery.Hidden | lookup.go:68 | definition: a name starting with "." |
| Discovery.IsTableFile | lookup.go:79-80 | definition: a name whose lower-cased form ends in ".csv" |
| Discovery.RootListing | lookup.go:59-65 | definition: a search directory the file system does not hold reads as unreadable, and lists nothing |
| Discovery.Get | lookup.go:82 | definition: a map index that yields the empty list for a missing key |
| Discovery.Add | lookup.go:82-84 | definition: one hit's path appended to the list under its stem |
| Discovery.AppendAll | lookup.go:82-84 | definition: a sequence of hits stored one after the other |
| Console.Stdout.Println | lookup.go:138 | printing a line appends exactly that line to standard output |
| Discovery.Stem | lookup.go:79-81 | the stem followed by ".csv" is the lower-cased file name, and the stem is four characters shorter than the name |
| Discovery.EntryHits | lookup.go:67-88 | definition: what one listing entry contributes to the index, in lookup.go's order of tests |
| Discovery.Walk | lookup.go:66-89 | definition: the hits of the first n entries of a listing, in listing order |
| Discovery.WalkAll | lookup.go:58-90 | definition: the hits of a whole listing; an unreadable directory has none |
| Discovery.SearchHits | lookup.go:94-97 | definition: the hits of the search directories, in search-path order |
| Discovery.Tables | lookup.go:92-99 | definition: the index `getAllTables` returns, the hits stored into an empty map |
| Discovery.UserTablesFirst | lookup.go:49-51 | under every key, the paths found under the user's `~/.lookup` come before those found under the system directory |
| Discovery.TableIndex.AddTablesInDir | lookup.go:58-90 | walking a directory appends its hits, in listing order and depth-first, to the old index (`AppendAll(old(tables), WalkAll(...))`) |
| Discovery.TableIndex.AddEntry | lookup.go:67-88 | one entry of the directory loop stores exactly what it contributes: its path under its stem for a visible regular `.csv` file, the nested walk for a directory below depth 5, nothing otherwise |
| Discovery.WalkStep | lookup.go:66-89 | storing the hits of the first i+1 entries is storing those of the first i, then those of entry i |
| Discovery.GetAllTables | lookup.go:92-99 | the index built over the search path is `Tables(dirs, fs)`, starting from an empty map |
| Discovery.AppendAllConcat | lookup.go:82-84 | storing two runs of hits is storing the first, then the second |
| Discovery.AppendAllNested | lookup.go:86-87 | the hits of a subdirectory store the same keys and paths in the shared index whether or not the subdirectory's name is recorded in their steps |
| Discovery.AppendAllGet | lookup.go:82-84 | after storing hits, a key's list is its old list followed by the paths of its hits in order, and a key is present iff it was before or some hit has it |
| Discovery.NestedWellFound | lookup.go:86-87 | a file found in a subdirectory within the deeper bound is also found from the parent, one name longer |
| Discovery.WalkSound | lookup.go:66-88 | every hit of a walk names a visible, regular `.csv` entry reached through directories, within the depth bound, stored under its stem with its joined path |
| Discovery.EntrySound | lookup.go:67-88 | every hit that one entry contributes has the properties `WalkSound` states |
| Discovery.WalkPrefix | lookup.go:66-89 | the hits of the first m entries are a prefix of those of the first n entries when m <= n |
| Discovery.WalkComplete | lookup.go:66-88 | every visible `.csv` file reachable within the depth bound is among the hits of the walk |
| Discovery.NestedHit | lookup.go:86-87 | a hit found in a subdirectory is among the parent's hits, with the subdirectory's name in front of its steps |
| Discovery.EntryInWalk | lookup.go:66-89 | a hit of any entry is a hit of the walk of the whole directory |
| Discovery.TablesGet | lookup.go:92-99 | the index maps each key to the paths of that key's hits in search order, and holds a key iff its list is non-empty |
| Discovery.TablesExtend | lookup.go:94-97 | searching one more directory only appends that directory's paths to each list |
| Discovery.PathsOfSound | lookup.go:82-84 | every path in a key's list comes from a hit with that key and path |
| Discovery.PathsOfComplete | lookup.go:82-84 | every hit's path is in its key's list |
| Discovery.SearchHitsFrom | lookup.go:94-97 | every hit of the search comes from the walk of one search directory |
| Discovery.SearchHitsInclude | lookup.go:94-97 | every hit of each search directory's walk is a hit of the search |
| Discovery.TablesSound | lookup.go:58-99 | every stored path was found in some search directory by visible names within the depth bound and is a regular file whose lower-cased name is the key plus ".csv" |
| Discovery.TablesComplete | lookup.go:58-99 | every regular `.csv` file reachable by visible names within the depth bound is stored under its stem |
| Discovery.TablesKeysLowerCase | lookup.go:79-84 | every key of the index is lower-case |
| Matcher.FirstMisfit | lookup.go:116-123 | the position of the first record whose width differs from the header's: every record before it has the header's width and the one at it does not |
| Matcher.Open | lookup.go:106-109 | definition: a path the file map does not hold cannot be opened |
| Matcher.Read | lookup.go:116-123 | definition: the record at a position, end of input, or a read error for a record whose width differs from the first record's |
| Matcher.ReadStops | lookup.go:115-123 | the read loop ends only at the end of the records, or at the first record whose width differs from the header's |
| Matcher.LowerPadded | lookup.go:105 | lower-casing a padded string is padding its lower-cased form |
| Matcher.Padded | lookup.go:105 | definition: a string with one space added at each end, as done to the key and to each field |
| Matcher.FieldMatches | lookup.go:131-132 | definition: the padded, lower-cased field contains the padded, lower-cased key |
| Matcher.RowMatches | lookup.go:129-135 | definition: some field of the row matches the key |
| Matcher.WordMatch | lookup.go:129-135 | a key that equals, ignoring case, a word delimited by spaces or the field's ends matches the field |
| Matcher.SingleWord | lookup.go:129-135 | for a single-word key and field, matching is exactly case-insensitive equality |
| Matcher.PartOfWordDoesNotMatch | lookup.go:102-105 | the key "an" does not match the field "banana" |
| Matcher.PhraseMatches | lookup.go:102-105 | a multi-word key matches a phrase inside a longer field in another case |
| Matcher.Matches | lookup.go:129-150 | the matching data rows before position n, each paired with the header, all of the header's width |
| Matcher.FileMatches | lookup.go:106-128 | a file's reported rows all have the header's width; a file that cannot be opened reports none |
| Matcher.MatchesExact | lookup.go:115-135 | a pair is reported iff it is a data row before n that matches the key, with the header |
| Matcher.FileMatchesExact | lookup.go:101-153 | a file reports exactly its matching data rows before the first misfit, and nothing if it cannot be opened or is empty |
| Matcher.MaxLen | lookup.go:27-35 | no string is longer than the result, some string is as long when there is one, and it is 0 for none |
| Matcher.MaxStringLen | lookup.go:27-35 | the loop returns `MaxLen` |
| Matcher.FieldLine | lookup.go:141-146 | the line is the title, a colon, spaces up to column width+2, and the value |
| Matcher.Block | lookup.go:140-147 | a matching row prints one line per header column, in header order; each is its title, a colon, spaces up to column `MaxLen(titles) + 2`, then its value, so every value starts at the same column |
| Matcher.Blocks | lookup.go:136-150 | definition: the lines printed for a run of matching rows, with a blank line before every block but the first, and before the first too when `sep` says a block was printed earlier |
| Matcher.BlocksAppend | lookup.go:136-150 | the output for two runs of rows is the first's followed by the second's, with a separator before the second when anything came before |
| Matcher.BlocksSnoc | lookup.go:136-150 | one more matching row adds a blank line when anything was printed before, then its block |
| Matcher.BlockHasNoBlank | lookup.go:144-146 | no line of a block is blank |
| Matcher.BlocksBlanks | lookup.go:137-139 | the blank lines are one between consecutive blocks, plus one before the first when something was printed earlier |
| Matcher.BlocksStart | lookup.go:137-146 | the output starts with a blank line iff something was printed earlier, and otherwise with the first block's first line |
| Matcher.BlocksEnd | lookup.go:140-147 | the output of a non-empty run of blocks ends with a field line |
| Matcher.RecordMatches | lookup.go:129-135 | the field loop returns whether some field matches the key |
| Matcher.PrintRecord | lookup.go:140-147 | the print loop appends exactly the row's block |
| Matcher.EmitIfMatches | lookup.go:129-150 | a matching row gets its separator and block; any other row prints nothing |
| Matcher.MatchesStep | lookup.go:129-150 | one more data row adds its pair, and its separator and block, exactly when it matches |
| Matcher.ProcessRow | lookup.go:129-150 | one data row of the loop returns whether it matched, and the output grows to the blocks of all rows so far |
| Matcher.LookupKeyInFile | lookup.go:101-153 | returns whether the file has a matching row, and prints exactly `Blocks(FileMatches(...), anyKeyFound)` |
| Query.KeyMatches | lookup.go:163-168 | the rows one key reports across the table's files, all of the header's width |
| Query.AllMatches | lookup.go:161-173 | the rows of the whole request, key by key, all of the header's width |
| Query.Missing | lookup.go:161-173 | definition: the requested keys that no file reports a row for, in request order |
| Query.Report | lookup.go:155-182 | definition: every line `lookup` prints, the missing-table line, the blocks and the "Not found" lines |
| Query.NotFoundLines | lookup.go:178-180 | one non-blank "Not found" line per missing key |
| Query.FileStep | lookup.go:164-169 | one more file appends its rows to the key's, and its blocks to the output, separated when anything came before |
| Query.KeyStep | lookup.go:162-173 | one more key appends its rows to the request's, and its name to the missing list exactly when no file reports a row for it |
| Query.LookupKeyInFiles | lookup.go:163-168 | the file loop for one key reports whether it was found, keeps `anyKeyFound` up to date, and prints exactly that key's blocks |
| Query.LookupKeys | lookup.go:161-173 | the key loop collects exactly the missing keys and prints every block of the request |
| Query.PrintMissing | lookup.go:174-181 | the closing lines: a blank line when some block was printed, then one "Not found" line per missing key |
| Query.Lookup | lookup.go:155-182 | `lookup` prints exactly `Report` for the files the index holds under the requested name |
| Query.KeyFound | lookup.go:163-171 | a key is found iff some file of the table reports a row for it |
| Query.FoundIn | lookup.go:163-169 | a found key names a file of the table that reports a row for it |
| Query.FoundFrom | lookup.go:163-169 | a key with a matching row in any one file of the table is found |
| Query.MissingExact | lookup.go:170-172 | a key is listed as missing iff it was requested and no file reports a row for it |
| Query.RequestOrder | lookup.go:161-173 | the blocks and missing keys of a concatenated request are those of its parts, in order |
| Query.NothingMatchesWithoutFiles | lookup.go:156-172 | with no files, nothing is found and every key is missing |
| Query.NoSuchTable | lookup.go:156-180 | for an unknown table, the report is the "No such lookup table" line followed by every key as not found |
| Query.UpperCaseTableName | lookup.go:156-158 | a requested name with an upper-case letter is never in the index, so the report starts with "No such lookup table" |
| Query.ReportEnds | lookup.go:136-181 | a report neither starts nor ends with a blank line |
| Query.ReportBlanks | lookup.go:136-181 | a report's blank lines are one between consecutive blocks plus one before the "Not found" lines when some block was printed |
| Query.ColorsRed | lookup.go:129-135 | in the colors table "red" matches only the `red` row |
| Query.ColorsCrim | lookup.go:129-135 | in the colors table "crim" matches nothing, though it starts "crimson" |
| Query.RedBlock | lookup.go:140-147 | the `red` row prints as `name: red` and `hex:  #ff0000` |
| Query.RedBlocks | lookup.go:136-147 | the `red` row alone, printed with nothing before it, gives exactly those two lines and no blank line |
| Query.ColorsExample | lookup.go:155-182 | `lookup colors red crim` prints the `red` block, a blank line and "Not found: crim" |
| Query.ColorsRun | lookup.go:161-173 | for `lookup colors red crim`, only the `red` row is reported, and "crim" is the one missing key |
| Query.GhostsExample | lookup.go:155-182 | `lookup ghosts anything` prints "No such lookup table: ghosts" and "Not found: anything" |
| Completion.Atoi | lookup.go:212-215 | a parsed index fits a 64-bit `int` and its text ends with a digit |
| Completion.DecimalNat | lookup.go:212-215 | the decimal form of a natural number is a non-empty string of digits |
| Completion.DecimalNatValue | lookup.go:212-215 | the digits of a number's decimal form have that number as their value |
| Completion.AtoiDecimal | lookup.go:212-215 | Atoi reads back every 64-bit `int` written in decimal |
| Completion.AtoiOutOfRange | lookup.go:212-215 | Atoi rejects every integer outside the 64-bit range written in decimal |
| Completion.AtoiSyntax | lookup.go:212-215 | what Atoi accepts is an optional sign followed only by digits, and a lone sign is rejected |
| Completion.CheckArgs | lookup.go:208-225 | a missing index is a usage error, non-numeric text an Atoi error, and a number is accepted iff it is between 1 and the number of arguments after "arg" |
| Completion.AcceptedIndexes | lookup.go:216-225 | with the shell's words after the index, the accepted indexes are 1 to one past the last word; lower is "too low", higher is "too high" |
| Completion.Insert | lookup.go:232 | inserting adds exactly one occurrence of the element |
| Completion.InsertSorted | lookup.go:232 | inserting into a sorted sequence keeps it sorted |
| Completion.SortStrings | lookup.go:232 | `sort.Strings` returns a sorted permutation of its input |
| Completion.SortedUnique | lookup.go:232 | two sorted sequences with the same elements are equal, so the printed order does not depend on map iteration order |
| Completion.LeastExists | lookup.go:232 | every non-empty set of names has a least element |
| Completion.SortedElements | lookup.go:226-232 | the elements of a set in ascending order, each once |
| Completion.CollectKeys | lookup.go:227-230 | the map loop gathers every table name exactly once |
| Completion.Candidates | lookup.go:226-232 | definition: the sorted table names for word 1, nothing for any other word |
| Completion.CandidateLines | lookup.go:233-234 | each candidate is printed followed by a single space, one per line |
| Completion.PrintCandidates | lookup.go:233-234 | the print loop appends exactly the candidate lines, in order |
| Completion.CompleteArg | lookup.go:208-235 | returns the argument check; on failure nothing is printed; otherwise the lines are the candidates of `Candidates` in order |
| Completion.TableNameCandidates | lookup.go:226-232 | the table-name candidates are sorted, without repeats, and include a name iff it is a table of the index |

## Left out

- I/O is replaced by input values.
  - `ioutil.ReadDir` and `os.Stat` are replaced by the `Listing` tree, taken in the
    order `ReadDir` returns (sorted by name).
  - `os.Open` plus the CSV reader are replaced by a map from path to `CsvFile`.
  - `user.Current()` is replaced by a `home` parameter (`getHome`, lookup.go:37-43).
    Its failure through `log.Fatal` is not modelled.
- Diagnostics written to standard error are not modelled:
  - the `log.Println` for an unreadable directory (lookup.go:61-63);
  - the CSV error message (lookup.go:121).
  Only their effect on standard output and on the index is kept.
- The CSV lexer itself (quoting, line endings, blank-line skipping) is not modelled.
  A file is the sequence of records it yields and whether its input ended cleanly.
  Only the field-count rule is modelled, because `lookup.go` depends on it.
- `path.Join` is modelled as `dir + "/" + name`. Path cleaning (doubled slashes, `..`)
  is not modelled.
- `Stdout.lines` holds one element per `Println` call. A CSV field or a requested key
  that contains a newline makes the real output longer than that. The blank-line and
  first/last-line properties (`Matcher.BlockHasNoBlank`, `Matcher.BlocksBlanks`,
  `Query.ReportEnds`, `Query.ReportBlanks`) count `Println` calls, not terminal lines,
  so they assume no field or key holds a newline.
- Lengths are counted in characters, where Go counts bytes; the two agree on ASCII
  titles. `strings.ToLower` is modelled on ASCII letters only.
- Symbolic-link cycles are not modelled: a `Listing` is a finite
  tree, and the depth bound of 5 is kept.
- The process-level parts of `lookup.go` are not modelled, because they are
  command-line plumbing:
  - `main`'s argument dispatch (lookup.go:241-251);
  - `usage` and `compUsage`;
  - the `script` branch of `complete`, which prints a fixed shell snippet;
  - `log.Fatal`'s exit. It appears as the `Fatal` results of `CheckArgs`, with nothing
    printed.
- `getPath` is modelled as always returning the default path (lookup.go:53-56).
  The environment variable it mentions is not implemented there either.
