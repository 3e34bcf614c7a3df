/** Shell completion of arguments (the `arg` branch of `complete`, lookup.go:208-235):
    for the first word after `lookup` the candidates are the table names, in sorted
    order, each printed followed by a space; for any later word there are none. */
module Completion {
  import opened Strings
  import opened Console
  import opened Discovery

  // ---------------------------------------------------------------------------
  // `strconv.Atoi`.

  const MinInt: int := -0x8000_0000_0000_0000
  const MaxInt: int := 0x7fff_ffff_ffff_ffff

  datatype Option<T> = None | Some(value: T)

  predicate IsDigit(c: char) {
    '0' <= c <= '9'
  }

  predicate AllDigits(s: string) {
    forall i :: 0 <= i < |s| ==> IsDigit(s[i])
  }

  /** The value of a string of decimal digits, most significant first. */
  function DigitsValue(s: string): (n: nat)
    requires AllDigits(s)
  {
    if s == [] then 0 else DigitsValue(s[..|s| - 1]) * 10 + (s[|s| - 1] as int - '0' as int)
  }

  /** `strconv.Atoi` on a 64-bit platform: an optional sign, then at least one decimal
      digit, and a value that fits in an `int`; anything else is an error (`None`). */
  function Atoi(s: string): (r: Option<int>)
    ensures r.Some? ==> MinInt <= r.value <= MaxInt
    ensures r.Some? ==> s != [] && IsDigit(s[|s| - 1])
  {
    var negative := |s| > 0 && s[0] == '-';
    var digits := if |s| > 0 && (s[0] == '-' || s[0] == '+') then s[1..] else s;
    if digits == [] || !AllDigits(digits) then None
    else
      var n: int := if negative then -(DigitsValue(digits) as int) else DigitsValue(digits);
      if MinInt <= n <= MaxInt then Some(n) else None
  }

  /** The decimal form of a natural number, without leading zeros. */
  function DecimalNat(n: nat): (s: string)
    ensures s != [] && AllDigits(s)
    decreases n
  {
    var d := ['0' + (n % 10) as char];
    if n < 10 then d else DecimalNat(n / 10) + d
  }

  /** The decimal form of an integer, with a `-` when it is negative. */
  function Decimal(n: int): string {
    if n < 0 then "-" + DecimalNat(-n) else DecimalNat(n)
  }

  lemma {:induction false} DecimalNatValue(n: nat)
    ensures DigitsValue(DecimalNat(n)) == n
    decreases n
  {
    var d := ['0' + (n % 10) as char];
    if n >= 10 {
      DecimalNatValue(n / 10);
      var s := DecimalNat(n / 10) + d;
      assert s[..|s| - 1] == DecimalNat(n / 10);
    }
  }

  /** Atoi reads back every `int` written in decimal. */
  lemma AtoiDecimal(n: int)
    requires MinInt <= n <= MaxInt
    ensures Atoi(Decimal(n)) == Some(n)
  {
    if n < 0 {
      DecimalNatValue(-n);
      assert ("-" + DecimalNat(-n))[1..] == DecimalNat(-n);
    } else {
      DecimalNatValue(n);
    }
  }

  /** Atoi rejects every `int` out of range written in decimal. */
  lemma AtoiOutOfRange(n: int)
    requires n < MinInt || MaxInt < n
    ensures Atoi(Decimal(n)) == None
  {
    if n < 0 {
      DecimalNatValue(-n);
      assert ("-" + DecimalNat(-n))[1..] == DecimalNat(-n);
    } else {
      DecimalNatValue(n);
    }
  }

  /** What Atoi accepts: an optional sign and then nothing but digits. */
  lemma AtoiSyntax(s: string)
    requires Atoi(s).Some?
    ensures |s| > 0 && (IsDigit(s[0]) || s[0] == '-' || s[0] == '+')
    ensures forall i :: 0 < i < |s| ==> IsDigit(s[i])
    ensures |s| == 1 ==> IsDigit(s[0])
  {
    if s[0] == '-' || s[0] == '+' {
      assert forall i :: 0 < i < |s| ==> s[i] == s[1..][i - 1];
    }
  }

  // ---------------------------------------------------------------------------
  // Checking the arguments.

  /** Why `complete arg` stops before printing anything (through `log.Fatal`). */
  datatype ArgFailure = Usage | AtoiError | IndexTooLow | IndexTooHigh

  datatype ArgCheck = Fatal(failure: ArgFailure) | Accepted(argi: int)

  /** The checks of `complete arg`, in lookup.go's order, on the arguments that follow
      "arg": the index of the word being completed, then the words of the command line
      as the shell splits them. The word list is rebuilt with a placeholder in front of
      those words, and an index one past its end gets an empty word appended before the
      range check. */
  function CheckArgs(rest: seq<string>): (c: ArgCheck)
    ensures c == Fatal(Usage) <==> rest == []
    ensures c == Fatal(AtoiError) <==> rest != [] && Atoi(rest[0]) == None
    ensures c.Accepted? ==> rest != [] && Atoi(rest[0]) == Some(c.argi)
    ensures rest != [] && Atoi(rest[0]).Some? ==>
              (c.Accepted? <==> 1 <= Atoi(rest[0]).value <= |rest|)
  {
    if rest == [] then Fatal(Usage)
    else
      match Atoi(rest[0])
      case None => Fatal(AtoiError)
      case Some(argi) =>
        var args := [""] + rest[1..];
        if argi < 1 then Fatal(IndexTooLow)
        else
          var args' := if argi == |args| then args + [""] else args;
          if argi >= |args'| then Fatal(IndexTooHigh) else Accepted(argi)
  }

  /** With the index written in decimal in front of the shell's words, the accepted
      indexes are exactly the positions of those words after the first, plus the one
      just past them. */
  lemma AcceptedIndexes(words: seq<string>, argi: int)
    requires MinInt <= argi <= MaxInt
    ensures CheckArgs([Decimal(argi)] + words) == Accepted(argi) <==> 1 <= argi <= |words| + 1
    ensures argi < 1 ==> CheckArgs([Decimal(argi)] + words) == Fatal(IndexTooLow)
    ensures argi > |words| + 1 ==> CheckArgs([Decimal(argi)] + words) == Fatal(IndexTooHigh)
  {
    AtoiDecimal(argi);
    assert ([Decimal(argi)] + words)[0] == Decimal(argi);
    assert ([Decimal(argi)] + words)[1..] == words;
  }

  // ---------------------------------------------------------------------------
  // Sorting, as `sort.Strings` does.

  predicate Sorted(s: seq<string>) {
    forall i, j :: 0 <= i < j < |s| ==> Below(s[i], s[j])
  }

  /** `s` with `x` placed before the first element it is below. */
  function Insert(s: seq<string>, x: string): (r: seq<string>)
    ensures multiset(r) == multiset(s) + multiset{x}
    ensures |r| == |s| + 1
  {
    if s == [] then [x]
    else if Below(x, s[0]) then [x] + s
    else
      assert s == [s[0]] + s[1..];
      [s[0]] + Insert(s[1..], x)
  }

  /** An element below every element of a sorted sequence can be put in front of it. */
  lemma ConsSorted(x: string, t: seq<string>)
    requires Sorted(t)
    requires forall i :: 0 <= i < |t| ==> Below(x, t[i])
    ensures Sorted([x] + t)
  {
    var r := [x] + t;
    forall i, j | 0 <= i < j < |r| ensures Below(r[i], r[j]) {
      assert r[j] == t[j - 1];
      if i > 0 {
        assert r[i] == t[i - 1];
      }
    }
  }

  /** Every element of a multiset-equal sequence is one of the originals. */
  lemma BelowEach(y: string, t: seq<string>, s: seq<string>, x: string)
    requires multiset(t) == multiset(s) + multiset{x}
    requires Below(y, x)
    requires forall k :: 0 <= k < |s| ==> Below(y, s[k])
    ensures forall i :: 0 <= i < |t| ==> Below(y, t[i])
  {
    forall i | 0 <= i < |t| ensures Below(y, t[i]) {
      assert t[i] in multiset(t);
      if t[i] != x {
        assert t[i] in multiset(s);
        var k :| 0 <= k < |s| && s[k] == t[i];
      }
    }
  }

  lemma {:induction false} InsertSorted(s: seq<string>, x: string)
    requires Sorted(s)
    ensures Sorted(Insert(s, x))
    decreases |s|
  {
    if s == [] {
    } else if Below(x, s[0]) {
      forall i | 0 <= i < |s| ensures Below(x, s[i]) {
        if i > 0 {
          BelowTransitive(x, s[0], s[i]);
        }
      }
      ConsSorted(x, s);
    } else {
      var tail := s[1..];
      assert Sorted(tail) by {
        forall i, j | 0 <= i < j < |tail| ensures Below(tail[i], tail[j]) {
          assert tail[i] == s[i + 1] && tail[j] == s[j + 1];
        }
      }
      InsertSorted(tail, x);
      BelowTotal(x, s[0]);
      forall k | 0 <= k < |tail| ensures Below(s[0], tail[k]) {
        assert tail[k] == s[k + 1];
      }
      BelowEach(s[0], Insert(tail, x), tail, x);
      ConsSorted(s[0], Insert(tail, x));
    }
  }

  /** Go's `sort.Strings`: sorts the slice by `<`. */
  method SortStrings(s: seq<string>) returns (r: seq<string>)
    ensures Sorted(r)
    ensures multiset(r) == multiset(s)
  {
    r := [];
    for i := 0 to |s|
      invariant Sorted(r)
      invariant multiset(r) == multiset(s[..i])
    {
      InsertSorted(r, s[i]);
      assert s[..i + 1] == s[..i] + [s[i]];
      r := Insert(r, s[i]);
    }
    assert s[..|s|] == s;
  }

  /** The first element of a sorted sequence is below each of its elements. */
  lemma SortedFirst(s: seq<string>, x: string)
    requires Sorted(s) && x in multiset(s)
    ensures s != [] && Below(s[0], x)
  {
    var i :| 0 <= i < |s| && s[i] == x;
    if i == 0 {
      BelowTotal(x, x);
    }
  }

  lemma TailMultiset(s: seq<string>)
    requires s != []
    ensures multiset(s[1..]) == multiset(s) - multiset{s[0]}
  {
    assert s == [s[0]] + s[1..];
  }

  /** Ordered sequences with the same elements are equal: the sorted order of a
      collection does not depend on the order it was gathered in. */
  lemma {:induction false} SortedUnique(a: seq<string>, b: seq<string>)
    requires Sorted(a) && Sorted(b) && multiset(a) == multiset(b)
    ensures a == b
    decreases |a|
  {
    if a == [] {
      assert |b| == |multiset(b)| == 0;
    } else {
      assert a[0] in multiset(b);
      SortedFirst(b, a[0]);
      assert b[0] in multiset(a);
      SortedFirst(a, b[0]);
      BelowAntisymmetric(a[0], b[0]);
      TailMultiset(a);
      TailMultiset(b);
      SortedUnique(a[1..], b[1..]);
      assert a == [a[0]] + a[1..] && b == [b[0]] + b[1..];
    }
  }

  /** Every non-empty set of strings has a least element. */
  lemma {:induction false} LeastExists(s: set<string>)
    requires s != {}
    ensures exists x :: x in s && forall y :: y in s ==> Below(x, y)
    decreases |s|
  {
    var z :| z in s;
    BelowTotal(z, z);
    if s == {z} {
      forall y | y in s ensures Below(z, y) {
        assert y == z;
      }
    } else {
      LeastExists(s - {z});
      var x :| x in s - {z} && forall y :: y in s - {z} ==> Below(x, y);
      BelowTotal(x, z);
      if Below(x, z) {
        forall y | y in s ensures Below(x, y) {
          if y != z {
            assert y in s - {z};
          }
        }
        assert x in s;
      } else {
        forall y | y in s ensures Below(z, y) {
          if y != z {
            assert y in s - {z};
            BelowTransitive(z, x, y);
          }
        }
      }
    }
  }

  lemma SetMinus(s: set<string>, x: string)
    requires x in s
    ensures multiset(s) == multiset{x} + multiset(s - {x})
  {
    assert s == {x} + (s - {x});
  }

  /** The elements of a set in ascending order. */
  ghost function SortedElements(s: set<string>): (r: seq<string>)
    ensures Sorted(r)
    ensures multiset(r) == multiset(s)
    decreases |s|
  {
    if s == {} then []
    else
      LeastExists(s);
      var x :| x in s && forall y :: y in s ==> Below(x, y);
      var t := SortedElements(s - {x});
      assert forall i :: 0 <= i < |t| ==> t[i] in multiset(s - {x});
      ConsSorted(x, t);
      SetMinus(s, x);
      [x] + t
  }

  // ---------------------------------------------------------------------------
  // The candidates.

  /** `range` over the index: every table name once, in an order Go leaves open. */
  method CollectKeys(tables: map<string, seq<string>>) returns (ks: seq<string>)
    ensures multiset(ks) == multiset(tables.Keys)
  {
    ks := [];
    var left := tables.Keys;
    while left != {}
      invariant left <= tables.Keys
      invariant multiset(ks) + multiset(left) == multiset(tables.Keys)
      decreases |left|
    {
      var kind :| kind in left;
      ks := ks + [kind];
      SetMinus(left, kind);
      left := left - {kind};
    }
  }

  /** The candidates for word `argi`: the sorted table names for the first word,
      nothing for any other. */
  ghost function Candidates(argi: int, tables: map<string, seq<string>>): seq<string> {
    if argi == 1 then SortedElements(tables.Keys) else []
  }

  /** The lines printed for the candidates: each followed by a space. */
  function CandidateLines(comps: seq<string>): (lines: seq<string>)
    ensures |lines| == |comps|
    ensures forall i :: 0 <= i < |comps| ==>
              |lines[i]| == |comps[i]| + 1 && lines[i][..|comps[i]|] == comps[i] && lines[i][|comps[i]|] == ' '
  {
    seq(|comps|, i requires 0 <= i < |comps| => comps[i] + " ")
  }

  /** `complete arg ...` on the arguments after "arg", with the index built from the
      default search path of the user whose home directory is `home`. On failure
      nothing reaches standard output. */
  method CompleteArg(rest: seq<string>, home: string, fs: map<string, Listing>, out: Stdout)
    returns (c: ArgCheck)
    modifies out
    ensures c == CheckArgs(rest)
    ensures out.lines == old(out.lines) +
      if c.Accepted? then CandidateLines(Candidates(c.argi, Tables(SearchPath(home), fs))) else []
  {
    c := CheckArgs(rest);
    if c.Fatal? {
      return;
    }
    var comps: seq<string> := [];
    ghost var tables := Tables(SearchPath(home), fs);
    if c.argi == 1 {
      var all := GetAllTables(SearchPath(home), fs);
      comps := CollectKeys(all);
    }
    comps := SortStrings(comps);
    SortedUnique(comps, Candidates(c.argi, tables));
    PrintCandidates(comps, out);
  }

  /** Prints each candidate on a line of its own, followed by a space. */
  method PrintCandidates(comps: seq<string>, out: Stdout)
    modifies out
    ensures out.lines == old(out.lines) + CandidateLines(comps)
  {
    for k := 0 to |comps|
      invariant out.lines == old(out.lines) + CandidateLines(comps[..k])
    {
      out.Println(comps[k] + " ");
      assert CandidateLines(comps[..k + 1]) == CandidateLines(comps[..k]) + [comps[k] + " "];
    }
    assert comps[..|comps|] == comps;
  }

  /** An element that occurs at two positions is counted at least twice. */
  lemma CountTwice(s: seq<string>, i: nat, j: nat)
    requires i < j < |s|
    ensures multiset(s)[s[i]] >= 1 + (if s[i] == s[j] then 1 else 0)
  {
    assert s == s[..j] + [s[j]] + s[j + 1..];
    assert s[..j][i] == s[i];
  }

  /** Completing the table name lists every table exactly once, in ascending order. */
  lemma TableNameCandidates(home: string, fs: map<string, Listing>, kind: string)
    ensures var comps := Candidates(1, Tables(SearchPath(home), fs));
            Sorted(comps) && (kind in comps <==> kind in Tables(SearchPath(home), fs)) &&
            forall i, j :: 0 <= i < j < |comps| ==> comps[i] != comps[j]
  {
    var keys := Tables(SearchPath(home), fs).Keys;
    var comps := Candidates(1, Tables(SearchPath(home), fs));
    assert kind in multiset(comps) <==> kind in multiset(keys);
    forall i, j | 0 <= i < j < |comps| ensures comps[i] != comps[j] {
      CountTwice(comps, i, j);
      assert multiset(keys)[comps[i]] <= 1;
    }
  }
}
