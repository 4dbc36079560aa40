/** Python string operations the core relies on: `str.split()`, `re.split` on a
    character class with `+`, `str.lower()`, substring tests, `str.join` and
    order-preserving de-duplication. */
module Text {

  /** The characters Python's `str.isspace()` accepts, which `str.split()` with
      no argument breaks on: tab to carriage return, the four separators U+001C
      to U+001F, space, U+0085, no-break space, and the Unicode space and
      separator characters. */
  predicate IsSpace(c: char) {
    ('\t' <= c <= '\r') || ('\U{1C}' <= c <= ' ') || c == '\U{85}' || c == '\U{A0}' || c == '\U{1680}' ||
    ('\U{2000}' <= c <= '\U{200A}') || c == '\U{2028}' || c == '\U{2029}' || c == '\U{202F}' ||
    c == '\U{205F}' || c == '\U{3000}'
  }

  predicate IsDigit(c: char) {
    '0' <= c <= '9'
  }

  /** `str.lower()` on the ASCII capitals and the Russian capitals А..Я and Ё;
      any other character is unchanged. */
  function LowerChar(c: char): (r: char)
    ensures 'A' <= c <= 'Z' ==> r as int == c as int + 32
    ensures 'a' <= c <= 'z' ==> r == c
  {
    if 'A' <= c <= 'Z' then (c as int + 32) as char
    else if 'А' <= c <= 'Я' then (c as int + 32) as char
    else if c == 'Ё' then 'ё'
    else c
  }

  function Lower(s: string): (r: string)
    ensures |r| == |s|
    ensures forall i :: 0 <= i < |s| ==> r[i] == LowerChar(s[i])
  {
    if s == [] then [] else [LowerChar(s[0])] + Lower(s[1..])
  }

  predicate IsPrefix(p: string, s: string) {
    |p| <= |s| && s[..|p|] == p
  }

  /** Python's `sub in s`. */
  predicate Contains(s: string, sub: string)
    decreases |s|
  {
    IsPrefix(sub, s) || (s != [] && Contains(s[1..], sub))
  }

  predicate EndsWith(s: string, suffix: string) {
    |suffix| <= |s| && s[|s| - |suffix|..] == suffix
  }

  /** `sep.join(parts)`. */
  function Join(sep: string, parts: seq<string>): string {
    if parts == [] then ""
    else if |parts| == 1 then parts[0]
    else parts[0] + sep + Join(sep, parts[1..])
  }

  /** Decimal rendering of a natural number, as `str(n)` or an f-string prints it. */
  function NatToString(n: nat): (r: string)
    ensures |r| >= 1
    ensures forall i :: 0 <= i < |r| ==> IsDigit(r[i])
  {
    if n < 10 then [DigitChar(n)] else NatToString(n / 10) + [DigitChar(n % 10)]
  }

  function DigitChar(d: nat): (c: char)
    requires d < 10
    ensures IsDigit(c)
  {
    ('0' as int + d) as char
  }

  /** Index of the first character satisfying `p` at or after `i`, or `|s|`. */
  function FirstFrom(s: string, i: nat, p: char -> bool): (k: nat)
    requires i <= |s|
    ensures i <= k <= |s|
    ensures k < |s| ==> p(s[k])
    ensures forall j :: i <= j < k ==> !p(s[j])
    decreases |s| - i
  {
    if i == |s| || p(s[i]) then i else FirstFrom(s, i + 1, p)
  }

  /** `re.split("[D]+", s)` where `D` is the character class `p`: the pieces between
      maximal runs of delimiter characters, empty pieces included. */
  function SplitRuns(s: string, p: char -> bool): (pieces: seq<string>)
    ensures |pieces| >= 1
    decreases |s|
  {
    var k := FirstFrom(s, 0, p);
    if k == |s| then [s]
    else
      var e := FirstFrom(s, k, c => !p(c));
      [s[..k]] + SplitRuns(s[e..], p)
  }

  lemma {:induction false} SplitRunsPiecesHaveNoDelimiter(s: string, p: char -> bool)
    ensures forall i, j :: 0 <= i < |SplitRuns(s, p)| && 0 <= j < |SplitRuns(s, p)[i]| ==> !p(SplitRuns(s, p)[i][j])
    decreases |s|
  {
    var k := FirstFrom(s, 0, p);
    if k < |s| {
      var e := FirstFrom(s, k, c => !p(c));
      SplitRunsPiecesHaveNoDelimiter(s[e..], p);
    }
  }

  /** The characters of `s` that are not delimiters, in order. */
  function Kept(s: string, p: char -> bool): string {
    if s == [] then [] else (if p(s[0]) then [] else [s[0]]) + Kept(s[1..], p)
  }

  function Concat(pieces: seq<string>): string {
    if pieces == [] then [] else pieces[0] + Concat(pieces[1..])
  }

  lemma {:induction false} KeptAppend(a: string, b: string, p: char -> bool)
    ensures Kept(a + b, p) == Kept(a, p) + Kept(b, p)
  {
    if a != [] {
      assert (a + b)[1..] == a[1..] + b;
      KeptAppend(a[1..], b, p);
    } else {
      assert a + b == b;
    }
  }

  lemma {:induction false} KeptRange(s: string, i: nat, j: nat, p: char -> bool, keep: bool)
    requires i <= j <= |s|
    requires forall m :: i <= m < j ==> p(s[m]) == !keep
    ensures Kept(s[i..j], p) == if keep then s[i..j] else []
    decreases j - i
  {
    if i < j {
      assert s[i..j] == [s[i]] + s[i + 1..j];
      assert s[i..j][1..] == s[i + 1..j];
      KeptRange(s, i + 1, j, p, keep);
    }
  }

  /** Splitting loses exactly the delimiter characters: the pieces, concatenated in
      order, give the input with its delimiters removed. */
  lemma {:induction false} SplitRunsConcat(s: string, p: char -> bool)
    ensures Concat(SplitRuns(s, p)) == Kept(s, p)
    decreases |s|
  {
    var k := FirstFrom(s, 0, p);
    if k == |s| {
      KeptRange(s, 0, |s|, p, true);
      assert s[0..|s|] == s;
    } else {
      var e := FirstFrom(s, k, c => !p(c));
      var rest := SplitRuns(s[e..], p);
      SplitRunsConcat(s[e..], p);
      KeptRange(s, 0, k, p, true);
      KeptRange(s, k, e, p, false);
      KeptSplit(s, k, e, p);
      assert SplitRuns(s, p) == [s[..k]] + rest;
      ConcatCons(s[..k], rest);
    }
  }

  lemma {:induction false} KeptSplit(s: string, k: nat, e: nat, p: char -> bool)
    requires k <= e <= |s|
    ensures Kept(s, p) == Kept(s[0..k], p) + Kept(s[k..e], p) + Kept(s[e..], p)
  {
    var a, b, c := s[0..k], s[k..e], s[e..];
    assert s == a + b + c;
    KeptAppend(a + b, c, p);
    KeptAppend(a, b, p);
  }

  lemma ConcatCons(x: string, rest: seq<string>)
    ensures Concat([x] + rest) == x + Concat(rest)
  {
    assert ([x] + rest)[1..] == rest;
  }

  function NonEmpty(pieces: seq<string>): (r: seq<string>)
    ensures |r| <= |pieces|
    ensures forall i :: 0 <= i < |r| ==> r[i] != [] && r[i] in pieces
  {
    if pieces == [] then []
    else (if pieces[0] == [] then [] else [pieces[0]]) + NonEmpty(pieces[1..])
  }

  lemma {:induction false} NonEmptyConcat(pieces: seq<string>)
    ensures Concat(NonEmpty(pieces)) == Concat(pieces)
  {
    if pieces != [] {
      NonEmptyConcat(pieces[1..]);
      var rest := NonEmpty(pieces[1..]);
      if pieces[0] == [] {
        assert NonEmpty(pieces) == rest;
      } else {
        assert NonEmpty(pieces) == [pieces[0]] + rest;
        assert NonEmpty(pieces)[1..] == rest;
      }
    }
  }

  /** Python's `str.split()` with no argument. */
  function Words(s: string): seq<string> {
    NonEmpty(SplitRuns(s, IsSpace))
  }

  /** Every word is non-empty and free of whitespace, and the words, concatenated,
      are exactly the non-whitespace characters of the text. */
  lemma WordsCharacterized(s: string)
    ensures forall i :: 0 <= i < |Words(s)| ==> Words(s)[i] != []
    ensures forall i, j :: 0 <= i < |Words(s)| && 0 <= j < |Words(s)[i]| ==> !IsSpace(Words(s)[i][j])
    ensures Concat(Words(s)) == Kept(s, IsSpace)
  {
    SplitRunsPiecesHaveNoDelimiter(s, IsSpace);
    SplitRunsConcat(s, IsSpace);
    NonEmptyConcat(SplitRuns(s, IsSpace));
  }

  /** `[x for x in s if p(x)]`. */
  function Filter<T(!new)>(s: seq<T>, p: T -> bool): (r: seq<T>)
    ensures |r| <= |s|
    ensures forall x :: x in r <==> x in s && p(x)
  {
    if s == [] then [] else Filter(s[..|s| - 1], p) + (if p(s[|s| - 1]) then [s[|s| - 1]] else [])
  }

  /** `sum(1 for x in s if p(x))`. */
  function CountWhere<T(!new)>(s: seq<T>, p: T -> bool): (n: nat)
    ensures n <= |s|
  {
    |Filter(s, p)|
  }

  /** Order-preserving de-duplication: the first occurrence of each element survives. */
  function Dedup<T(==, !new)>(s: seq<T>): (r: seq<T>)
    ensures forall x :: x in r <==> x in s
  {
    if s == [] then []
    else
      var d := Dedup(s[..|s| - 1]);
      if s[|s| - 1] in d then d else d + [s[|s| - 1]]
  }

  predicate Distinct<T(==)>(s: seq<T>) {
    forall i, j :: 0 <= i < j < |s| ==> s[i] != s[j]
  }

  lemma {:induction false} DedupDistinct<T(!new)>(s: seq<T>)
    ensures Distinct(Dedup(s))
  {
    if s != [] {
      DedupDistinct(s[..|s| - 1]);
    }
  }

  lemma DistinctAppend<T>(s: seq<T>, x: T)
    requires Distinct(s) && x !in s
    ensures Distinct(s + [x])
  {
    var t := s + [x];
    forall i, j | 0 <= i < j < |t| ensures t[i] != t[j] {
      if j == |s| {
        assert t[i] == s[i];
      }
    }
  }

  /** On a list without repetitions de-duplication changes nothing. */
  lemma {:induction false} DedupOfDistinct<T(!new)>(s: seq<T>)
    requires Distinct(s)
    ensures Dedup(s) == s
  {
    if s != [] {
      var init := s[..|s| - 1];
      assert Distinct(init);
      DedupOfDistinct(init);
      assert s[|s| - 1] !in init;
      assert init + [s[|s| - 1]] == s;
    }
  }

  /** The first occurrence of an element in a sequence. */
  function FirstIndex<T(==)>(s: seq<T>, x: T): (k: nat)
    requires x in s
    ensures k < |s| && s[k] == x
    ensures forall j :: 0 <= j < k ==> s[j] != x
  {
    if s[0] == x then 0 else 1 + FirstIndex(s[1..], x)
  }

  /** Survivors keep the order of their first occurrences in the input. */
  lemma {:induction false} DedupKeepsFirstOccurrenceOrder<T(!new)>(s: seq<T>, i: nat, j: nat)
    requires i < j < |Dedup(s)|
    ensures FirstIndex(s, Dedup(s)[i]) < FirstIndex(s, Dedup(s)[j])
  {
    var init := s[..|s| - 1];
    var d := Dedup(init);
    PrefixFirstIndex(s, Dedup(s)[i]);
    if j < |d| {
      assert Dedup(s)[i] == d[i] && Dedup(s)[j] == d[j];
      DedupKeepsFirstOccurrenceOrder(init, i, j);
      PrefixFirstIndex(s, d[j]);
    } else {
      assert Dedup(s)[j] == s[|s| - 1] && s[|s| - 1] !in init;
      assert FirstIndex(s, s[|s| - 1]) == |s| - 1;
    }
  }

  lemma {:induction false} PrefixFirstIndex<T>(s: seq<T>, x: T)
    requires s != [] && x in s[..|s| - 1]
    ensures FirstIndex(s, x) == FirstIndex(s[..|s| - 1], x)
  {
    if s[0] != x {
      assert s[1..][..|s[1..]| - 1] == s[..|s| - 1][1..];
      PrefixFirstIndex(s[1..], x);
    }
  }
}
