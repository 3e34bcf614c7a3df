/** Table discovery (lookup.go:45-99): walking the search directories and building
    the index from lower-cased table stem to the paths of its `.csv` files.

    The file system is an input value: a search directory is looked up in a map from
    path to listing (a directory that is absent does not exist), and a listing is a tree
    whose entries have their symbolic links already resolved. */
module Discovery {
  import opened Strings

  const CsvExt: string := ".csv"
  const SystemPath: string := "/usr/local/share/lookup"
  /** A directory is descended into only while the current depth is below this. */
  const MaxDepth: int := 5

  /** What `ioutil.ReadDir` gives for a directory: an error (the directory is missing
      or unreadable) or its entries in listing order. */
  datatype Listing = Unreadable | Listed(entries: seq<Entry>)

  datatype Entry = Entry(name: string, kind: Kind)

  /** The kind of an entry after `os.Stat` has followed a symbolic link; a link whose
      target cannot be reached is `BrokenLink`, a device, socket or pipe is `Other`. */
  datatype Kind = Regular | Directory(listing: Listing) | Other | BrokenLink

  function Entries(l: Listing): seq<Entry> {
    match l
    case Unreadable => []
    case Listed(es) => es
  }

  /** `path.Join(dir, name)`. */
  function Join(dir: string, name: string): string {
    dir + "/" + name
  }

  /** `getDefaultPath`: the user's own tables, then the system-wide ones. */
  function SearchPath(home: string): seq<string> {
    [Join(home, ".lookup"), SystemPath]
  }

  predicate Hidden(name: string) {
    HasPrefix(name, ".")
  }

  predicate IsTableFile(name: string) {
    HasSuffix(Lower(name), CsvExt)
  }

  /** The table name a file contributes to: its lower-cased name without the extension. */
  function Stem(name: string): (stem: string)
    requires IsTableFile(name)
    ensures Lower(name) == stem + CsvExt
    ensures |stem| + |CsvExt| == |name|
  {
    var low := Lower(name);
    assert low == low[..|low| - |CsvExt|] + low[|low| - |CsvExt|..];
    low[..|low| - |CsvExt|]
  }

  /** A table file found by the walk: the key it is stored under, the path stored, and
      the names of the entries leading from the search directory to it. */
  datatype Hit = Hit(stem: string, path: string, steps: seq<string>)

  /** The hits of a subdirectory, seen from its parent. */
  function Nested(name: string, hs: seq<Hit>): (r: seq<Hit>)
    ensures |r| == |hs|
    ensures forall i :: 0 <= i < |hs| ==> r[i] == hs[i].(steps := [name] + hs[i].steps)
  {
    seq(|hs|, i requires 0 <= i < |hs| => hs[i].(steps := [name] + hs[i].steps))
  }

  /** What entry `i` of a listing, visited at `depth`, contributes. */
  function EntryHits(dir: string, l: Listing, depth: int, i: nat): seq<Hit>
    requires i < |Entries(l)|
    decreases l, 0
  {
    var e := l.entries[i];
    if Hidden(e.name) then []
    else
      match e.kind
      case Regular =>
        if IsTableFile(e.name) then [Hit(Stem(e.name), Join(dir, e.name), [e.name])] else []
      case Directory(sub) =>
        if depth < MaxDepth then Nested(e.name, Walk(Join(dir, e.name), sub, depth + 1, |Entries(sub)|))
        else []
      case Other => []
      case BrokenLink => []
  }

  /** The hits of the first `n` entries of a listing, in listing order. */
  function Walk(dir: string, l: Listing, depth: int, n: nat): seq<Hit>
    requires n <= |Entries(l)|
    decreases l, n
  {
    if n == 0 then [] else Walk(dir, l, depth, n - 1) + EntryHits(dir, l, depth, n - 1)
  }

  function WalkAll(dir: string, l: Listing, depth: int): seq<Hit> {
    Walk(dir, l, depth, |Entries(l)|)
  }

  function Get(tables: map<string, seq<string>>, key: string): seq<string> {
    if key in tables then tables[key] else []
  }

  /** Storing one hit: its path is appended to the list under its stem. */
  function Add(tables: map<string, seq<string>>, h: Hit): map<string, seq<string>> {
    tables[h.stem := Get(tables, h.stem) + [h.path]]
  }

  function AppendAll(tables: map<string, seq<string>>, hs: seq<Hit>): map<string, seq<string>> {
    if hs == [] then tables else Add(AppendAll(tables, hs[..|hs| - 1]), hs[|hs| - 1])
  }

  /** The paths of the hits stored under `key`, in walk order. */
  function PathsOf(hs: seq<Hit>, key: string): seq<string> {
    if hs == [] then []
    else PathsOf(hs[..|hs| - 1], key) + (if hs[|hs| - 1].stem == key then [hs[|hs| - 1].path] else [])
  }

  /** A search directory as the walk sees it; a missing one lists nothing. */
  function RootListing(fs: map<string, Listing>, dir: string): Listing {
    if dir in fs then fs[dir] else Unreadable
  }

  /** The hits of all search directories, in search-path order. */
  function SearchHits(dirs: seq<string>, fs: map<string, Listing>): seq<Hit> {
    if dirs == [] then []
    else SearchHits(dirs[..|dirs| - 1], fs) + WalkAll(dirs[|dirs| - 1], RootListing(fs, dirs[|dirs| - 1]), 1)
  }

  /** The index `getAllTables` builds over the given search directories. */
  function Tables(dirs: seq<string>, fs: map<string, Listing>): map<string, seq<string>> {
    AppendAll(map[], SearchHits(dirs, fs))
  }

  /** The table map that `getAllTablesInDir` fills in place. */
  class TableIndex {
    var tables: map<string, seq<string>>

    constructor ()
      ensures tables == map[]
    {
      tables := map[];
    }

    /** `getAllTablesInDir(tables, dir, depth)` on the listing of `dir`. */
    method AddTablesInDir(dir: string, l: Listing, depth: int)
      modifies this
      ensures tables == AppendAll(old(tables), WalkAll(dir, l, depth))
      decreases l, 1
    {
      if l.Unreadable? {
        return;
      }
      var es := l.entries;
      var i := 0;
      while i < |es|
        invariant 0 <= i <= |es|
        invariant tables == AppendAll(old(tables), Walk(dir, l, depth, i))
      {
        AddEntry(dir, l, depth, i);
        WalkStep(old(tables), dir, l, depth, i);
        i := i + 1;
      }
    }

    /** One turn of the loop in `getAllTablesInDir`: entry `i` of the listing of `dir`. */
    method AddEntry(dir: string, l: Listing, depth: int, i: nat)
      requires i < |Entries(l)|
      modifies this
      ensures tables == AppendAll(old(tables), EntryHits(dir, l, depth, i))
      decreases l, 0
    {
      ghost var hits := EntryHits(dir, l, depth, i);
      var e := l.entries[i];
      if Hidden(e.name) {
        assert hits == [];
        return;
      }
      var fullPath := Join(dir, e.name);
      match e.kind {
        case Regular =>
          if IsTableFile(e.name) {
            var lowStem := Stem(e.name);
            var list := Get(tables, lowStem);
            list := list + [fullPath];
            tables := tables[lowStem := list];
            assert hits == [Hit(lowStem, fullPath, [e.name])];
            assert tables == Add(AppendAll(old(tables), []), Hit(lowStem, fullPath, [e.name]));
          } else {
            assert hits == [];
          }
        case Directory(sub) =>
          if depth < MaxDepth {
            AddTablesInDir(fullPath, sub, depth + 1);
            assert hits == Nested(e.name, WalkAll(fullPath, sub, depth + 1));
            AppendAllNested(old(tables), e.name, WalkAll(fullPath, sub, depth + 1));
          } else {
            assert hits == [];
          }
        case Other =>
          assert hits == [];
        case BrokenLink =>
          assert hits == [];
      }
    }
  }

  /** Walking one more entry stores that entry's hits after those of the entries before. */
  lemma WalkStep(t: map<string, seq<string>>, dir: string, l: Listing, depth: int, i: nat)
    requires i < |Entries(l)|
    ensures AppendAll(t, Walk(dir, l, depth, i + 1)) ==
      AppendAll(AppendAll(t, Walk(dir, l, depth, i)), EntryHits(dir, l, depth, i))
  {
    AppendAllConcat(t, Walk(dir, l, depth, i), EntryHits(dir, l, depth, i));
  }

  /** `getAllTables`: every search directory is walked from depth 1, in order. */
  method GetAllTables(dirs: seq<string>, fs: map<string, Listing>) returns (tables: map<string, seq<string>>)
    ensures tables == Tables(dirs, fs)
  {
    var index := new TableIndex();
    for i := 0 to |dirs|
      invariant index.tables == AppendAll(map[], SearchHits(dirs[..i], fs))
    {
      assert dirs[..i + 1][..i] == dirs[..i];
      index.AddTablesInDir(dirs[i], RootListing(fs, dirs[i]), 1);
      AppendAllConcat(map[], SearchHits(dirs[..i], fs), WalkAll(dirs[i], RootListing(fs, dirs[i]), 1));
    }
    assert dirs[..|dirs|] == dirs;
    tables := index.tables;
  }

  // ---------------------------------------------------------------------------
  // The index only ever grows at the end of a list.

  lemma {:induction false} AppendAllConcat(t: map<string, seq<string>>, a: seq<Hit>, b: seq<Hit>)
    ensures AppendAll(t, a + b) == AppendAll(AppendAll(t, a), b)
    decreases |b|
  {
    if b == [] {
      assert a + b == a;
    } else {
      AppendAllConcat(t, a, b[..|b| - 1]);
      assert (a + b)[..|a + b| - 1] == a + b[..|b| - 1];
    }
  }

  lemma {:induction false} AppendAllNested(t: map<string, seq<string>>, name: string, hs: seq<Hit>)
    ensures AppendAll(t, Nested(name, hs)) == AppendAll(t, hs)
    decreases |hs|
  {
    if hs != [] {
      assert Nested(name, hs)[..|hs| - 1] == Nested(name, hs[..|hs| - 1]);
      AppendAllNested(t, name, hs[..|hs| - 1]);
    }
  }

  /** After storing a sequence of hits, the list under every key is the old list
      followed by the paths of that key's hits, in order: nothing is removed or
      reordered. A key is present exactly when it was before or some hit has it. */
  lemma {:induction false} AppendAllGet(t: map<string, seq<string>>, hs: seq<Hit>, key: string)
    ensures Get(AppendAll(t, hs), key) == Get(t, key) + PathsOf(hs, key)
    ensures key in AppendAll(t, hs) <==> key in t || PathsOf(hs, key) != []
    decreases |hs|
  {
    if hs != [] {
      AppendAllGet(t, hs[..|hs| - 1], key);
    }
  }

  // ---------------------------------------------------------------------------
  // What the walk finds.

  /** Following the entry names `steps` from listing `l` leads through directories to
      a regular file. */
  ghost predicate Reaches(l: Listing, steps: seq<string>)
    decreases l
  {
    l.Listed? && |steps| > 0 &&
    exists i :: 0 <= i < |l.entries| && l.entries[i].name == steps[0] &&
      if |steps| == 1 then l.entries[i].kind.Regular?
      else l.entries[i].kind.Directory? && Reaches(l.entries[i].kind.listing, steps[1..])
  }

  /** The path `dir/steps[0]/.../steps[n-1]`. */
  function JoinAll(dir: string, steps: seq<string>): string
    decreases |steps|
  {
    if steps == [] then dir else JoinAll(Join(dir, steps[0]), steps[1..])
  }

  /** How many entry names a path found from `depth` may have: the file itself plus
      one name per directory entered while the depth was below `MaxDepth`. */
  function Bound(depth: int): nat {
    if depth < MaxDepth then MaxDepth + 1 - depth else 1
  }

  predicate NoneHidden(steps: seq<string>) {
    forall i :: 0 <= i < |steps| ==> !Hidden(steps[i])
  }

  /** Everything the index promises about one stored path. */
  ghost predicate WellFound(dir: string, l: Listing, depth: int, h: Hit) {
    1 <= |h.steps| <= Bound(depth) &&
    h.path == JoinAll(dir, h.steps) &&
    NoneHidden(h.steps) &&
    IsTableFile(h.steps[|h.steps| - 1]) &&
    Lower(h.steps[|h.steps| - 1]) == h.stem + CsvExt &&
    Reaches(l, h.steps)
  }

  lemma NestedWellFound(dir: string, l: Listing, depth: int, i: nat, h: Hit)
    requires i < |Entries(l)| && l.entries[i].kind.Directory? && !Hidden(l.entries[i].name)
    requires depth < MaxDepth
    requires WellFound(Join(dir, l.entries[i].name), l.entries[i].kind.listing, depth + 1, h)
    ensures WellFound(dir, l, depth, h.(steps := [l.entries[i].name] + h.steps))
  {
    var name := l.entries[i].name;
    var s := [name] + h.steps;
    assert s[1..] == h.steps && s[0] == name;
    assert |s| <= Bound(depth);
    assert JoinAll(dir, s) == h.path;
    assert NoneHidden(s) by {
      forall j | 0 <= j < |s| ensures !Hidden(s[j]) {
        if j > 0 {
          assert s[j] == h.steps[j - 1];
        }
      }
    }
    assert s[|s| - 1] == h.steps[|h.steps| - 1];
    assert Reaches(l, s) by {
      assert l.entries[i].name == s[0] && Reaches(l.entries[i].kind.listing, s[1..]);
    }
  }

  /** Soundness of the walk: every hit names, by a path of at most `Bound(depth)`
      non-hidden entry names, a regular file whose lower-cased name is the stem the hit
      is stored under followed by ".csv". */
  lemma {:induction false} WalkSound(dir: string, l: Listing, depth: int, n: nat)
    requires n <= |Entries(l)|
    ensures forall h :: h in Walk(dir, l, depth, n) ==> WellFound(dir, l, depth, h)
    decreases l, n
  {
    if n > 0 {
      WalkSound(dir, l, depth, n - 1);
      EntrySound(dir, l, depth, n - 1);
      forall h | h in Walk(dir, l, depth, n) ensures WellFound(dir, l, depth, h) {
        assert h in Walk(dir, l, depth, n - 1) || h in EntryHits(dir, l, depth, n - 1);
      }
    }
  }

  /** What one entry contributes is sound. */
  lemma {:induction false} EntrySound(dir: string, l: Listing, depth: int, i: nat)
    requires i < |Entries(l)|
    ensures forall h :: h in EntryHits(dir, l, depth, i) ==> WellFound(dir, l, depth, h)
    decreases l, i
  {
    var e := l.entries[i];
    if !Hidden(e.name) {
      match e.kind
      case Regular =>
        if IsTableFile(e.name) {
          var h := Hit(Stem(e.name), Join(dir, e.name), [e.name]);
          assert JoinAll(Join(dir, e.name), []) == Join(dir, e.name);
          assert l.entries[i].name == h.steps[0];
          assert WellFound(dir, l, depth, h);
        }
      case Directory(sub) =>
        if depth < MaxDepth {
          var inner := WalkAll(Join(dir, e.name), sub, depth + 1);
          WalkSound(Join(dir, e.name), sub, depth + 1, |Entries(sub)|);
          forall h | h in Nested(e.name, inner)
            ensures WellFound(dir, l, depth, h)
          {
            var k :| 0 <= k < |inner| && Nested(e.name, inner)[k] == h;
            NestedWellFound(dir, l, depth, i, inner[k]);
          }
        }
      case Other =>
      case BrokenLink =>
    }
  }

  /** The hits of a prefix of the listing are a prefix of the hits of the whole. */
  lemma {:induction false} WalkPrefix(dir: string, l: Listing, depth: int, m: nat, n: nat)
    requires m <= n <= |Entries(l)|
    ensures |Walk(dir, l, depth, m)| <= |Walk(dir, l, depth, n)|
    ensures Walk(dir, l, depth, n)[..|Walk(dir, l, depth, m)|] == Walk(dir, l, depth, m)
    decreases n
  {
    if m < n {
      WalkPrefix(dir, l, depth, m, n - 1);
    }
  }

  /** Completeness of the walk: every regular table file reachable by non-hidden names
      within the depth bound is found, under the path those names spell. */
  lemma {:induction false} WalkComplete(dir: string, l: Listing, depth: int, steps: seq<string>)
    requires Reaches(l, steps) && NoneHidden(steps) && |steps| <= Bound(depth)
    requires IsTableFile(steps[|steps| - 1])
    ensures exists h :: h in WalkAll(dir, l, depth) && h.steps == steps
    decreases l
  {
    var i :| 0 <= i < |l.entries| && l.entries[i].name == steps[0] &&
      if |steps| == 1 then l.entries[i].kind.Regular?
      else l.entries[i].kind.Directory? && Reaches(l.entries[i].kind.listing, steps[1..]);
    var e := l.entries[i];
    assert !Hidden(steps[0]);
    var h: Hit;
    if |steps| == 1 {
      h := Hit(Stem(e.name), Join(dir, e.name), [e.name]);
      assert EntryHits(dir, l, depth, i) == [h];
    } else {
      var sub := e.kind.listing;
      assert depth < MaxDepth;
      assert NoneHidden(steps[1..]) by {
        forall j | 0 <= j < |steps[1..]| ensures !Hidden(steps[1..][j]) {
          assert steps[1..][j] == steps[j + 1];
        }
      }
      assert steps[1..][|steps[1..]| - 1] == steps[|steps| - 1];
      WalkComplete(Join(dir, e.name), sub, depth + 1, steps[1..]);
      var inner := WalkAll(Join(dir, e.name), sub, depth + 1);
      assert steps == [e.name] + steps[1..];
      h := NestedHit(e.name, inner, steps[1..]);
      assert EntryHits(dir, l, depth, i) == Nested(e.name, inner);
    }
    EntryInWalk(dir, l, depth, i, h);
  }

  /** A hit of a subdirectory reappears in its parent, one name longer. */
  lemma NestedHit(name: string, inner: seq<Hit>, steps: seq<string>) returns (h: Hit)
    requires exists g :: g in inner && g.steps == steps
    ensures h in Nested(name, inner) && h.steps == [name] + steps
  {
    var g :| g in inner && g.steps == steps;
    var k :| 0 <= k < |inner| && inner[k] == g;
    h := Nested(name, inner)[k];
  }

  /** What an entry contributes is part of the whole walk of its listing. */
  lemma EntryInWalk(dir: string, l: Listing, depth: int, i: nat, h: Hit)
    requires i < |Entries(l)| && h in EntryHits(dir, l, depth, i)
    ensures h in WalkAll(dir, l, depth)
  {
    assert h in Walk(dir, l, depth, i + 1);
    WalkPrefix(dir, l, depth, i + 1, |Entries(l)|);
  }

  // ---------------------------------------------------------------------------
  // The whole index.

  /** The list stored under `key` is the paths of that key's hits, in search-path order
      and, within one directory, in listing order. */
  lemma TablesGet(dirs: seq<string>, fs: map<string, Listing>, key: string)
    ensures Get(Tables(dirs, fs), key) == PathsOf(SearchHits(dirs, fs), key)
    ensures key in Tables(dirs, fs) <==> Get(Tables(dirs, fs), key) != []
  {
    AppendAllGet(map[], SearchHits(dirs, fs), key);
  }

  /** Searching one more directory only appends its files to the lists. */
  lemma TablesExtend(dirs: seq<string>, dir: string, fs: map<string, Listing>, key: string)
    ensures Get(Tables(dirs + [dir], fs), key)
         == Get(Tables(dirs, fs), key) + PathsOf(WalkAll(dir, RootListing(fs, dir), 1), key)
  {
    assert (dirs + [dir])[..|dirs + [dir]| - 1] == dirs;
    AppendAllConcat(map[], SearchHits(dirs, fs), WalkAll(dir, RootListing(fs, dir), 1));
    AppendAllGet(AppendAll(map[], SearchHits(dirs, fs)), WalkAll(dir, RootListing(fs, dir), 1), key);
  }

  /** The default search path lists the user's tables before the system-wide ones:
      under every key, the paths found under `~/.lookup` come first. */
  lemma UserTablesFirst(home: string, fs: map<string, Listing>, key: string)
    ensures Get(Tables(SearchPath(home), fs), key)
         == Get(Tables([Join(home, ".lookup")], fs), key) + Get(Tables([SystemPath], fs), key)
  {
    var user := Join(home, ".lookup");
    assert SearchPath(home) == [user] + [SystemPath];
    TablesExtend([user], SystemPath, fs, key);
    TablesExtend([], SystemPath, fs, key);
    assert [] + [SystemPath] == [SystemPath];
  }

  lemma {:induction false} PathsOfSound(hs: seq<Hit>, key: string, p: string)
    requires p in PathsOf(hs, key)
    ensures exists h :: h in hs && h.stem == key && h.path == p
    decreases |hs|
  {
    if p in PathsOf(hs[..|hs| - 1], key) {
      PathsOfSound(hs[..|hs| - 1], key, p);
      var h :| h in hs[..|hs| - 1] && h.stem == key && h.path == p;
      assert h in hs;
    } else {
      assert hs[|hs| - 1] in hs;
    }
  }

  lemma {:induction false} PathsOfComplete(hs: seq<Hit>, h: Hit)
    requires h in hs
    ensures h.path in PathsOf(hs, h.stem)
    decreases |hs|
  {
    if h != hs[|hs| - 1] {
      var k :| 0 <= k < |hs| && hs[k] == h;
      assert hs[..|hs| - 1][k] == h;
      PathsOfComplete(hs[..|hs| - 1], h);
    }
  }

  lemma {:induction false} SearchHitsFrom(dirs: seq<string>, fs: map<string, Listing>, h: Hit)
    requires h in SearchHits(dirs, fs)
    ensures exists j :: 0 <= j < |dirs| && h in WalkAll(dirs[j], RootListing(fs, dirs[j]), 1)
    decreases |dirs|
  {
    var last := WalkAll(dirs[|dirs| - 1], RootListing(fs, dirs[|dirs| - 1]), 1);
    if h !in last {
      SearchHitsFrom(dirs[..|dirs| - 1], fs, h);
      var j :| 0 <= j < |dirs| - 1 && h in WalkAll(dirs[..|dirs| - 1][j], RootListing(fs, dirs[..|dirs| - 1][j]), 1);
      assert dirs[..|dirs| - 1][j] == dirs[j];
    }
  }

  lemma {:induction false} SearchHitsInclude(dirs: seq<string>, fs: map<string, Listing>, j: nat, h: Hit)
    requires j < |dirs| && h in WalkAll(dirs[j], RootListing(fs, dirs[j]), 1)
    ensures h in SearchHits(dirs, fs)
    decreases |dirs|
  {
    if j < |dirs| - 1 {
      assert dirs[..|dirs| - 1][j] == dirs[j];
      SearchHitsInclude(dirs[..|dirs| - 1], fs, j, h);
    }
  }

  /** Every path stored under `key` was found in one of the search directories by
      non-hidden names, within the depth bound, and names a regular file whose
      lower-cased name is `key + ".csv"`. */
  lemma TablesSound(dirs: seq<string>, fs: map<string, Listing>, key: string, p: string)
    requires p in Get(Tables(dirs, fs), key)
    ensures exists j: int, h: Hit ::
              0 <= j < |dirs| && h.path == p && h.stem == key && WellFound(dirs[j], RootListing(fs, dirs[j]), 1, h)
  {
    TablesGet(dirs, fs, key);
    PathsOfSound(SearchHits(dirs, fs), key, p);
    var h :| h in SearchHits(dirs, fs) && h.stem == key && h.path == p;
    SearchHitsFrom(dirs, fs, h);
    var j :| 0 <= j < |dirs| && h in WalkAll(dirs[j], RootListing(fs, dirs[j]), 1);
    WalkSound(dirs[j], RootListing(fs, dirs[j]), 1, |Entries(RootListing(fs, dirs[j]))|);
  }

  /** Every regular `.csv` file reachable from a search directory by at most
      `Bound(1)` non-hidden names is stored, under its stem. */
  lemma TablesComplete(dirs: seq<string>, fs: map<string, Listing>, j: nat, steps: seq<string>)
    requires j < |dirs|
    requires Reaches(RootListing(fs, dirs[j]), steps) && NoneHidden(steps) && |steps| <= Bound(1)
    requires IsTableFile(steps[|steps| - 1])
    ensures JoinAll(dirs[j], steps) in Get(Tables(dirs, fs), Stem(steps[|steps| - 1]))
  {
    var l := RootListing(fs, dirs[j]);
    WalkComplete(dirs[j], l, 1, steps);
    var h :| h in WalkAll(dirs[j], l, 1) && h.steps == steps;
    WalkSound(dirs[j], l, 1, |Entries(l)|);
    assert Lower(steps[|steps| - 1]) == h.stem + CsvExt;
    assert h.stem == Stem(steps[|steps| - 1]);
    SearchHitsInclude(dirs, fs, j, h);
    PathsOfComplete(SearchHits(dirs, fs), h);
    TablesGet(dirs, fs, h.stem);
  }

  /** Every key of the index is already lower-case: a table stored under a key with an
      upper-case letter is never found, and `lookup` uses the requested table name as
      given, so asking for it with an upper-case letter finds no table. */
  lemma TablesKeysLowerCase(dirs: seq<string>, fs: map<string, Listing>, key: string)
    requires key in Tables(dirs, fs)
    ensures Lower(key) == key
  {
    TablesGet(dirs, fs, key);
    var ps := Get(Tables(dirs, fs), key);
    TablesSound(dirs, fs, key, ps[0]);
    var j: int, h: Hit :| 0 <= j < |dirs| && h.path == ps[0] && h.stem == key && WellFound(dirs[j], RootListing(fs, dirs[j]), 1, h);
    LowerPrefix(h.steps[|h.steps| - 1], key, CsvExt);
  }
}
