/** String helpers with the meaning the Python string methods used by the
    pipeline give them: decimal numerals, `int()` on a token, `str.strip`,
    `str.split(sep)`, `str.replace`, `str.lower`, substring search and the
    maximal digit runs a `(\d+)` pattern extracts. Only ASCII digits,
    ASCII letters and ASCII white space are modelled. */
module Text {
  import opened Wrappers

  predicate IsDigit(c: char) { '0' <= c <= '9' }

  predicate AllDigits(s: string) { forall i | 0 <= i < |s| :: IsDigit(s[i]) }

  predicate NoDigits(s: string) { forall i | 0 <= i < |s| :: !IsDigit(s[i]) }

  /** The characters Python's `str.strip()` and `int()` skip (ASCII part). */
  predicate IsSpace(c: char) {
    c == ' ' || (9 <= c as int <= 13) || (28 <= c as int <= 31)
  }

  function DigitValue(c: char): (d: nat)
    requires IsDigit(c)
    ensures d < 10
  {
    c as int - '0' as int
  }

  function DigitChar(d: nat): (c: char)
    requires d < 10
    ensures IsDigit(c) && DigitValue(c) == d
  {
    (d + '0' as int) as char
  }

  // ---------------------------------------------------------------------------
  // Decimal numerals

  /** Value of a numeral, most significant digit first. */
  function NumeralValue(ds: string): nat
    requires AllDigits(ds)
    decreases |ds|
  {
    if ds == [] then 0 else 10 * NumeralValue(ds[..|ds| - 1]) + DigitValue(ds[|ds| - 1])
  }

  /** The numeral Python's `str(n)` writes for a natural number. */
  function ShowNat(n: nat): (s: string)
    ensures |s| > 0 && AllDigits(s)
  {
    if n < 10 then [DigitChar(n)] else ShowNat(n / 10) + [DigitChar(n % 10)]
  }

  function ShowInt(n: int): (s: string)
    ensures |s| > 0 && !IsSpace(s[0]) && !IsSpace(s[|s| - 1])
  {
    if n < 0 then "-" + ShowNat(-n) else ShowNat(n)
  }

  /** Reading back the numeral of `n` gives `n`. */
  lemma {:induction false} NumeralValueOfShowNat(n: nat)
    ensures NumeralValue(ShowNat(n)) == n
  {
    if n >= 10 {
      var s := ShowNat(n);
      assert s[..|s| - 1] == ShowNat(n / 10);
      NumeralValueOfShowNat(n / 10);
    }
  }

  // ---------------------------------------------------------------------------
  // str.strip()

  function TrimStart(s: string): (r: string)
    ensures |r| <= |s| && r == s[|s| - |r|..]
    ensures r == [] || !IsSpace(r[0])
    ensures forall i | 0 <= i < |s| - |r| :: IsSpace(s[i])
    decreases |s|
  {
    if s != [] && IsSpace(s[0]) then TrimStart(s[1..]) else s
  }

  function TrimEnd(s: string): (r: string)
    ensures |r| <= |s| && r == s[..|r|]
    ensures r == [] || !IsSpace(r[|r| - 1])
    ensures forall i | |r| <= i < |s| :: IsSpace(s[i])
    decreases |s|
  {
    if s != [] && IsSpace(s[|s| - 1]) then TrimEnd(s[..|s| - 1]) else s
  }

  function Strip(s: string): string
  {
    TrimEnd(TrimStart(s))
  }

  /** Stripping keeps a string that has no surrounding white space, and
      removes any white space wrapped around it. */
  lemma StripSurrounded(pre: string, s: string, post: string)
    requires forall i | 0 <= i < |pre| :: IsSpace(pre[i])
    requires forall i | 0 <= i < |post| :: IsSpace(post[i])
    requires s != [] && !IsSpace(s[0]) && !IsSpace(s[|s| - 1])
    ensures Strip(pre + s + post) == s
  {
    assert pre + s + post == pre + (s + post);
    StripStartSpaces(pre, s + post);
    assert TrimStart(pre + s + post) == s + post;
    StripEndSpaces(s, post);
  }

  lemma {:induction false} StripStartSpaces(pre: string, s: string)
    requires forall i | 0 <= i < |pre| :: IsSpace(pre[i])
    requires s != [] && !IsSpace(s[0])
    ensures TrimStart(pre + s) == s
    decreases |pre|
  {
    if pre != [] {
      assert (pre + s)[1..] == pre[1..] + s;
      StripStartSpaces(pre[1..], s);
    }
  }

  lemma {:induction false} StripEndSpaces(s: string, post: string)
    requires forall i | 0 <= i < |post| :: IsSpace(post[i])
    requires s != [] && !IsSpace(s[|s| - 1])
    ensures TrimEnd(s + post) == s
    decreases |post|
  {
    if post == [] {
      assert s + post == s;
    } else {
      assert (s + post)[..|s + post| - 1] == s + post[..|post| - 1];
      StripEndSpaces(s, post[..|post| - 1]);
    }
  }

  // ---------------------------------------------------------------------------
  // int(token)

  /** Decimal digits with single underscores between them, as `int()`
      accepts them: "1_000" reads as 1000, "_1", "1_" and "1__0" do not
      read. */
  predicate IsGroupedNumeral(s: string) {
    && |s| > 0 && IsDigit(s[0]) && IsDigit(s[|s| - 1])
    && (forall i | 0 <= i < |s| :: IsDigit(s[i]) || s[i] == '_')
    && !Contains(s, "__")
  }

  /** Dropping the underscores of a grouped numeral leaves its digits. */
  lemma UngroupedDigits(s: string)
    requires IsGroupedNumeral(s)
    ensures |RemoveChar(s, '_')| > 0 && AllDigits(RemoveChar(s, '_'))
  {
    var r := RemoveChar(s, '_');
    RemoveCharCounts(s, '_');
    forall i | 0 <= i < |r|
      ensures IsDigit(r[i])
    {
      assert r[i] in multiset(r);
      assert r[i] in s;
    }
    assert s[0] in multiset(s);
    assert multiset(r)[s[0]] > 0;
  }

  /** The value of a grouped numeral: its digits without the underscores. */
  function GroupedValue(s: string): nat
    requires IsGroupedNumeral(s)
  {
    UngroupedDigits(s);
    NumeralValue(RemoveChar(s, '_'))
  }

  /** A plain numeral is a grouped one with the same value. */
  lemma PlainNumeralIsGrouped(s: string)
    requires |s| > 0 && AllDigits(s)
    ensures IsGroupedNumeral(s) && GroupedValue(s) == NumeralValue(s)
  {
    NoDoubleUnderscore(s);
    NoUnderscore(s);
  }

  lemma NoDoubleUnderscore(s: string)
    requires AllDigits(s)
    ensures !Contains(s, "__")
  {
    forall i: nat | i <= |s|
      ensures !OccursAt(s, "__", i)
    {
      if i + 2 <= |s| {
        assert s[i..i + 2][0] == s[i];
      }
    }
  }

  lemma NoUnderscore(s: string)
    requires AllDigits(s)
    ensures '_' !in s
  {
  }

  /** A token `int()` accepts once stripped: an optional sign, then a
      grouped numeral. */
  predicate IsIntLiteral(u: string) {
    || IsGroupedNumeral(u)
    || (|u| > 1 && (u[0] == '-' || u[0] == '+') && IsGroupedNumeral(u[1..]))
  }

  /** Python's `int(token)`: `None` stands for the `ValueError` it raises. */
  function ParseInt(token: string): (r: Option<int>)
    ensures r.Some? <==> IsIntLiteral(Strip(token))
  {
    var u := Strip(token);
    if IsGroupedNumeral(u) then Some(GroupedValue(u))
    else if |u| > 1 && u[0] == '-' && IsGroupedNumeral(u[1..]) then Some(0 - GroupedValue(u[1..]) as int)
    else if |u| > 1 && u[0] == '+' && IsGroupedNumeral(u[1..]) then Some(GroupedValue(u[1..]))
    else None
  }

  /** `int()` of a stripped token that is a grouped numeral. */
  lemma ParseIntUnsigned(token: string)
    requires IsGroupedNumeral(Strip(token))
    ensures ParseInt(token) == Some(GroupedValue(Strip(token)))
  {
  }

  /** `int()` of a stripped token that is a minus sign and a grouped numeral. */
  lemma ParseIntNegative(token: string, d: string)
    requires Strip(token) == "-" + d && IsGroupedNumeral(d)
    ensures ParseInt(token) == Some(0 - GroupedValue(d))
  {
    var u := Strip(token);
    assert u[0] == '-' && u[1..] == d;
    assert !IsGroupedNumeral(u) by {
      assert !IsDigit(u[0]);
    }
  }

  /** An underscore between two numerals is skipped: "1_000" reads as 1000. */
  lemma ParseIntUnderscores(x: string, y: string)
    requires |x| > 0 && AllDigits(x) && |y| > 0 && AllDigits(y)
    ensures ParseInt(x + "_" + y) == Some(NumeralValue(x + y))
  {
    var g := x + "_" + y;
    GroupedPair(x, y);
    NoUnderscore(x);
    NoUnderscore(y);
    UngroupedPair(x, y);
    StripSurrounded([], g, []);
    assert [] + g + [] == g;
    ParseIntUnsigned(g);
  }

  lemma GroupedPair(x: string, y: string)
    requires |x| > 0 && AllDigits(x) && |y| > 0 && AllDigits(y)
    ensures IsGroupedNumeral(x + "_" + y)
  {
    var g := x + "_" + y;
    assert g[|x|] == '_';
    forall i | 0 <= i < |g|
      ensures IsDigit(g[i]) || g[i] == '_'
    {
      if i < |x| {
        assert g[i] == x[i];
      } else if i > |x| {
        assert g[i] == y[i - |x| - 1];
      }
    }
    forall i: nat | i <= |g|
      ensures !OccursAt(g, "__", i)
    {
      if i + 2 <= |g| {
        assert g[i..i + 2][0] == g[i] && g[i..i + 2][1] == g[i + 1];
        if i < |x| {
          assert g[i] == x[i];
        } else {
          assert g[i + 1] == y[i - |x|];
        }
      }
    }
    assert g[0] == x[0];
    assert g[|g| - 1] == y[|y| - 1];
  }

  lemma UngroupedPair(x: string, y: string)
    requires '_' !in x && '_' !in y
    ensures RemoveChar(x + "_" + y, '_') == x + y
  {
    RemoveCharAppend(x, "_" + y, '_');
    assert x + "_" + y == x + ("_" + y);
    RemoveCharAppend("_", y, '_');
    RemoveOnlyChar('_');
    assert [] + y == y;
  }

  lemma RemoveOnlyChar(c: char)
    ensures RemoveChar([c], c) == []
  {
    assert [c][1..] == [];
  }

  /** `RemoveChar` works piece by piece. */
  lemma {:induction false} RemoveCharAppend(a: string, b: string, c: char)
    ensures RemoveChar(a + b, c) == RemoveChar(a, c) + RemoveChar(b, c)
    decreases |a|
  {
    if a == [] {
      assert a + b == b;
    } else {
      var s := a + b;
      assert s[0] == a[0];
      assert s[1..] == a[1..] + b;
      RemoveCharAppend(a[1..], b, c);
      var head := if a[0] == c then [] else [a[0]];
      calc {
        RemoveChar(s, c);
        head + RemoveChar(a[1..] + b, c);
        head + (RemoveChar(a[1..], c) + RemoveChar(b, c));
        (head + RemoveChar(a[1..], c)) + RemoveChar(b, c);
      }
    }
  }

  /** Underscores doubled, leading or trailing are refused. */
  lemma ParseIntMisplacedUnderscores()
    ensures ParseInt("1__0") == None && ParseInt("_10") == None && ParseInt("10_") == None
  {
    assert "1__0"[1..3] == "__";
    assert OccursAt("1__0", "__", 1);
    RefusedToken("1__0");
    RefusedToken("_10");
    RefusedToken("10_");
  }

  /** A token without surrounding white space that is not a literal. */
  lemma RefusedToken(t: string)
    requires |t| > 0 && !IsSpace(t[0]) && !IsSpace(t[|t| - 1])
    requires !IsIntLiteral(t)
    ensures ParseInt(t) == None
  {
    StripSurrounded([], t, []);
    assert [] + t + [] == t;
  }

  /** `int(str(n)) == n` once the surrounding white space is stripped. */
  lemma ParseIntOfStrippedShowInt(token: string, n: int)
    requires Strip(token) == ShowInt(n)
    ensures ParseInt(token) == Some(n)
  {
    if n < 0 {
      ParseIntOfStrippedMinus(token, -n);
    } else {
      NumeralValueOfShowNat(n);
      PlainNumeralIsGrouped(ShowNat(n));
      ParseIntUnsigned(token);
    }
  }

  lemma ParseIntOfStrippedMinus(token: string, m: nat)
    requires Strip(token) == "-" + ShowNat(m)
    ensures ParseInt(token) == Some(-(m as int))
  {
    NumeralValueOfShowNat(m);
    ParseIntMinusNumeral(token, ShowNat(m), m);
  }

  lemma ParseIntMinusNumeral(token: string, d: string, m: nat)
    requires Strip(token) == "-" + d
    requires |d| > 0 && AllDigits(d) && NumeralValue(d) == m
    ensures ParseInt(token) == Some(-(m as int))
  {
    PlainNumeralIsGrouped(d);
    assert GroupedValue(d) == m;
    assert ParseInt(token) == Some(0 - GroupedValue(d)) by {
      ParseIntNegative(token, d);
    }
  }

  /** `int()` refuses any token holding a character that is neither white
      space, a digit, an underscore nor a sign: "1x", "-x" and "abc" fail. */
  lemma ParseIntRefusesStrayChar(token: string, i: nat)
    requires i < |token|
    requires !IsSpace(token[i]) && !IsDigit(token[i])
    requires token[i] != '_' && token[i] != '+' && token[i] != '-'
    ensures ParseInt(token).None?
  {
    var a := TrimStart(token);
    var u := TrimEnd(a);
    var j := i - (|token| - |a|);
    assert 0 <= j < |u| && u[j] == token[i] by {
      assert a[j] == token[i];
    }
    assert !IsGroupedNumeral(u);
    if |u| > 1 && j > 0 {
      assert u[1..][j - 1] == u[j];
    }
  }

  /** `int(str(n)) == n`, also with white space around the numeral. */
  lemma ParseIntShowInt(pre: string, n: int, post: string)
    requires forall i | 0 <= i < |pre| :: IsSpace(pre[i])
    requires forall i | 0 <= i < |post| :: IsSpace(post[i])
    ensures ParseInt(pre + ShowInt(n) + post) == Some(n)
  {
    StripSurrounded(pre, ShowInt(n), post);
    ParseIntOfStrippedShowInt(pre + ShowInt(n) + post, n);
  }

  /** `int(str(n)) == n`. */
  lemma ParseIntOfShowInt(n: int)
    ensures ParseInt(ShowInt(n)) == Some(n)
  {
    var s := ShowInt(n);
    assert TrimStart(s) == s;
    assert TrimEnd(s) == s;
    ParseIntOfStrippedShowInt(s, n);
  }

  // ---------------------------------------------------------------------------
  // Substrings and str.split(sep)

  predicate OccursAt(s: string, sub: string, i: nat) {
    i + |sub| <= |s| && s[i..i + |sub|] == sub
  }

  /** Python's `sub in s`. */
  predicate Contains(s: string, sub: string) {
    exists i: nat | i <= |s| :: OccursAt(s, sub, i)
  }

  /** Index of the leftmost occurrence of `sub` in `s` at or after `from`. */
  function FindFrom(s: string, sub: string, from: nat): (r: Option<nat>)
    requires |sub| > 0
    ensures r.Some? ==> from <= r.value && OccursAt(s, sub, r.value)
    ensures forall j: nat | from <= j && (r.None? || j < r.value) :: !OccursAt(s, sub, j)
    decreases |s| - from
  {
    if from + |sub| > |s| then None
    else if s[from..from + |sub|] == sub then Some(from)
    else FindFrom(s, sub, from + 1)
  }

  function Join(parts: seq<string>, sep: string): string
  {
    if |parts| <= 1 then (if parts == [] then "" else parts[0])
    else parts[0] + sep + Join(parts[1..], sep)
  }

  /** Python's `s.split(sep)`: cut at every leftmost non-overlapping
      occurrence of `sep`. The pieces put back together with `sep` give `s`,
      no piece holds `sep`, and no occurrence of `sep` starts inside a piece
      and runs into the separator after it, so each cut is the leftmost
      one. */
  function Split(s: string, sep: string): (parts: seq<string>)
    requires |sep| > 0
    ensures |parts| >= 1
    ensures Join(parts, sep) == s
    ensures forall k | 0 <= k < |parts| :: !Contains(parts[k], sep)
    ensures forall k | 0 <= k < |parts| - 1 :: !Contains(parts[k] + sep[..|sep| - 1], sep)
    decreases |s|
  {
    match FindFrom(s, sep, 0)
    case None => [s]
    case Some(k) =>
      var rest := Split(s[k + |sep|..], sep);
      NoOccurrenceBefore(s, sep, k);
      NoOccurrenceReachingCut(s, sep, k);
      assert s == s[..k] + sep + s[k + |sep|..];
      [s[..k]] + rest
  }

  /** Before the leftmost occurrence at `k`, no occurrence starts, so none
      lies within the text up to the last character of that occurrence. */
  lemma NoOccurrenceReachingCut(s: string, sep: string, k: nat)
    requires |sep| > 0 && OccursAt(s, sep, k)
    requires forall j: nat | j < k :: !OccursAt(s, sep, j)
    ensures !Contains(s[..k] + sep[..|sep| - 1], sep)
  {
    var t := s[..k] + sep[..|sep| - 1];
    assert t == s[..k + |sep| - 1];
    forall j: nat | j <= |t|
      ensures !OccursAt(t, sep, j)
    {
      if j + |sep| <= |t| {
        assert t[j..j + |sep|] == s[j..j + |sep|];
        assert j < k && !OccursAt(s, sep, j);
      }
    }
  }

  /** A separator that overlaps itself is cut at its leftmost occurrence:
      `" - - ".split(" - ")` is `["", "- "]`. */
  lemma SplitOverlappingSeparator()
    ensures Split(" - - ", " - ") == ["", "- "]
  {
    var s, sep := " - - ", " - ";
    assert OccursAt(s, sep, 0);
    assert FindFrom(s, sep, 0) == Some(0);
    assert s[3..] == "- ";
    assert FindFrom("- ", sep, 0) == None;
  }

  lemma NoOccurrenceBefore(s: string, sep: string, k: nat)
    requires |sep| > 0 && k <= |s|
    requires forall j: nat | j < k :: !OccursAt(s, sep, j)
    ensures !Contains(s[..k], sep)
  {
    forall j: nat | OccursAt(s[..k], sep, j)
      ensures false
    {
      assert s[..k][j..j + |sep|] == s[j..j + |sep|];
      assert OccursAt(s, sep, j);
    }
  }

  /** When the first character of `sep` does not occur in `x`, splitting
      `x + sep + rest` cuts right after `x`. */
  lemma {:induction false} SplitAfterPrefix(x: string, sep: string, rest: string)
    requires |sep| > 0 && sep[0] !in x
    ensures Split(x + sep + rest, sep) == [x] + Split(rest, sep)
  {
    var s := x + sep + rest;
    assert OccursAt(s, sep, |x|) by { assert s[|x|..|x| + |sep|] == sep; }
    forall j: nat | j < |x| ensures !OccursAt(s, sep, j) {
      assert s[j] == x[j];
    }
    assert FindFrom(s, sep, 0) == Some(|x|);
    assert s[..|x|] == x;
    assert s[|x| + |sep|..] == rest;
  }

  /** A string without the first character of `sep` is not split. */
  lemma {:induction false} SplitWithoutSeparator(y: string, sep: string)
    requires |sep| > 0 && sep[0] !in y
    ensures Split(y, sep) == [y]
  {
    var f := FindFrom(y, sep, 0);
    if f.Some? {
      assert false;
    }
  }

  /** Splitting `x + sep + y` where neither side holds the first character
      of `sep` gives exactly the two sides. */
  lemma SplitAroundSeparator(x: string, sep: string, y: string)
    requires |sep| > 0 && sep[0] !in x && sep[0] !in y
    ensures Split(x + sep + y, sep) == [x, y]
  {
    SplitAfterPrefix(x, sep, y);
    SplitWithoutSeparator(y, sep);
  }

  // ---------------------------------------------------------------------------
  // str.replace and str.lower

  /** `s.replace(c, "")` for a one-character `c`: every `c` goes and the
      other characters stay, in order. */
  function RemoveChar(s: string, c: char): (r: string)
    ensures c !in r
    ensures c !in s ==> r == s
  {
    if s == [] then [] else (if s[0] == c then [] else [s[0]]) + RemoveChar(s[1..], c)
  }

  /** Only `c` goes: every other character keeps its count. */
  lemma {:induction false} RemoveCharCounts(s: string, c: char)
    ensures multiset(RemoveChar(s, c)) == multiset(s)[c := 0]
  {
    if s != [] {
      assert s == [s[0]] + s[1..];
      RemoveCharCounts(s[1..], c);
    }
  }

  function ReplaceChar(s: string, a: char, b: char): string
  {
    seq(|s|, i requires 0 <= i < |s| => if s[i] == a then b else s[i])
  }

  function LowerChar(c: char): char
  {
    if 'A' <= c <= 'Z' then (c as int + 32) as char else c
  }

  function Lower(s: string): string
  {
    seq(|s|, i requires 0 <= i < |s| => LowerChar(s[i]))
  }

  // ---------------------------------------------------------------------------
  // Maximal digit runs: what `str.extractall(r"(\d+)")` extracts

  function DigitPrefixLength(s: string): (n: nat)
    ensures n <= |s| && AllDigits(s[..n])
    ensures n < |s| ==> !IsDigit(s[n])
    decreases |s|
  {
    if s != [] && IsDigit(s[0]) then 1 + DigitPrefixLength(s[1..]) else 0
  }

  /** The maximal runs of digits of `s`, left to right. */
  function DigitRuns(s: string): (runs: seq<string>)
    ensures forall k | 0 <= k < |runs| :: |runs[k]| > 0 && AllDigits(runs[k])
    decreases |s|
  {
    if s == [] then []
    else if !IsDigit(s[0]) then DigitRuns(s[1..])
    else
      var n := DigitPrefixLength(s);
      [s[..n]] + DigitRuns(s[n..])
  }

  lemma {:induction false} DigitRunsSkip(p: string, s: string)
    requires NoDigits(p)
    ensures DigitRuns(p + s) == DigitRuns(s)
    decreases |p|
  {
    if p != [] {
      assert (p + s)[1..] == p[1..] + s;
      DigitRunsSkip(p[1..], s);
    } else {
      assert p + s == s;
    }
  }

  lemma {:induction false} DigitPrefixOf(d: string, s: string)
    requires AllDigits(d)
    requires s == [] || !IsDigit(s[0])
    ensures DigitPrefixLength(d + s) == |d|
    decreases |d|
  {
    if d != [] {
      assert (d + s)[1..] == d[1..] + s;
      DigitPrefixOf(d[1..], s);
    } else {
      assert d + s == s;
    }
  }

  lemma DigitRunsTake(d: string, s: string)
    requires |d| > 0 && AllDigits(d)
    requires s == [] || !IsDigit(s[0])
    ensures DigitRuns(d + s) == [d] + DigitRuns(s)
  {
    DigitPrefixOf(d, s);
    assert (d + s)[..|d|] == d;
    assert (d + s)[|d|..] == s;
  }

  /** Past a run of digits cut short by a non-digit, appending text does
      not change the run. */
  lemma {:induction false} DigitPrefixLengthAppend(x: string, y: string)
    requires DigitPrefixLength(x) < |x|
    ensures DigitPrefixLength(x + y) == DigitPrefixLength(x)
    decreases |x|
  {
    if IsDigit(x[0]) {
      assert (x + y)[1..] == x[1..] + y;
      DigitPrefixLengthAppend(x[1..], y);
    }
  }

  /** The runs of two texts put together are the runs of each, in order,
      when no digit run spans the seam: the runs are maximal. */
  lemma {:induction false} DigitRunsAppend(x: string, y: string)
    requires x == [] || y == [] || !IsDigit(x[|x| - 1]) || !IsDigit(y[0])
    ensures DigitRuns(x + y) == DigitRuns(x) + DigitRuns(y)
    decreases |x|
  {
    if x == [] {
      assert x + y == y;
    } else if !IsDigit(x[0]) {
      DigitRunsAppend(x[1..], y);
      DigitRunsAppendSkip(x, y);
    } else {
      var n := DigitPrefixLength(x);
      if x[n..] != [] {
        assert x[n..][|x[n..]| - 1] == x[|x| - 1];
      }
      DigitRunsAppend(x[n..], y);
      DigitRunsAppendRun(x, y);
    }
  }

  /** The step of `DigitRunsAppend` past a leading non-digit. */
  lemma DigitRunsAppendSkip(x: string, y: string)
    requires x != [] && !IsDigit(x[0])
    requires DigitRuns(x[1..] + y) == DigitRuns(x[1..]) + DigitRuns(y)
    ensures DigitRuns(x + y) == DigitRuns(x) + DigitRuns(y)
  {
    var s := x + y;
    assert s[0] == x[0];
    assert s[1..] == x[1..] + y;
  }

  /** The step of `DigitRunsAppend` past a leading run of digits. */
  lemma DigitRunsAppendRun(x: string, y: string)
    requires x != [] && IsDigit(x[0])
    requires y == [] || !IsDigit(x[|x| - 1]) || !IsDigit(y[0])
    requires var n := DigitPrefixLength(x);
             DigitRuns(x[n..] + y) == DigitRuns(x[n..]) + DigitRuns(y)
    ensures DigitRuns(x + y) == DigitRuns(x) + DigitRuns(y)
  {
    var n := DigitPrefixLength(x);
    assert DigitRuns(x + y) == [x[..n]] + DigitRuns(x[n..] + y) by {
      DigitPrefixAcrossSeam(x, y);
      AppendCut(x, y, n);
    }
    assert DigitRuns(x) == [x[..n]] + DigitRuns(x[n..]);
    AppendAssoc([x[..n]], DigitRuns(x[n..]), DigitRuns(y));
  }

  lemma AppendAssoc<T>(a: seq<T>, b: seq<T>, c: seq<T>)
    ensures a + (b + c) == (a + b) + c
  {
  }

  /** Cutting `x + y` inside `x`. */
  lemma AppendCut<T>(x: seq<T>, y: seq<T>, n: nat)
    requires n <= |x|
    ensures (x + y)[..n] == x[..n] && (x + y)[n..] == x[n..] + y
  {
  }

  /** The leading run of `x` is also that of `x + y` when no run spans the
      seam. */
  lemma DigitPrefixAcrossSeam(x: string, y: string)
    requires x != [] && (y == [] || !IsDigit(x[|x| - 1]) || !IsDigit(y[0]))
    ensures DigitPrefixLength(x + y) == DigitPrefixLength(x)
  {
    var n := DigitPrefixLength(x);
    if n < |x| {
      DigitPrefixLengthAppend(x, y);
    } else {
      assert x[..n] == x;
      assert IsDigit(x[|x| - 1]);
      DigitPrefixOf(x, y);
    }
  }

  /** A text holding two numerals separated by non-digits yields exactly
      those two runs. */
  lemma DigitRunsOfTwoNumerals(p: string, sa: string, q: string, sb: string, r: string)
    requires |sa| > 0 && AllDigits(sa) && |sb| > 0 && AllDigits(sb)
    requires NoDigits(p) && NoDigits(q) && NoDigits(r) && |q| > 0
    ensures DigitRuns(p + sa + q + sb + r) == [sa, sb]
  {
    var whole := sa + (q + (sb + r));
    TwoRunsFromFirst(sa, q, sb, r);
    SeqAssoc(p, sa, q, sb, r);
    DigitRunsSkip(p, whole);
  }

  lemma TwoRunsFromFirst(sa: string, q: string, sb: string, r: string)
    requires |sa| > 0 && AllDigits(sa) && |sb| > 0 && AllDigits(sb)
    requires NoDigits(q) && NoDigits(r) && |q| > 0
    ensures DigitRuns(sa + (q + (sb + r))) == [sa, sb]
  {
    SkipThenOneRun(q, sb, r);
    var mid := q + (sb + r);
    assert mid[0] == q[0];
    DigitRunsTake(sa, mid);
  }

  lemma SkipThenOneRun(q: string, sb: string, r: string)
    requires |sb| > 0 && AllDigits(sb)
    requires NoDigits(q) && NoDigits(r)
    ensures DigitRuns(q + (sb + r)) == [sb]
  {
    OneRun(sb, r);
    DigitRunsSkip(q, sb + r);
  }

  lemma OneRun(sb: string, r: string)
    requires |sb| > 0 && AllDigits(sb) && NoDigits(r)
    ensures DigitRuns(sb + r) == [sb]
  {
    DigitRunsTake(sb, r);
    DigitRunsSkip(r, []);
    assert r + [] == r;
  }

  lemma SeqAssoc(p: string, a: string, q: string, b: string, r: string)
    ensures p + a + q + b + r == p + (a + (q + (b + r)))
  {
    calc {
      p + a + q + b + r;
      (p + a + q + b) + r;
      { assert p + a + q + b == (p + a + q) + b; }
      ((p + a + q) + b) + r;
      (p + a + q) + (b + r);
      { assert p + a + q == p + (a + q); }
      (p + (a + q)) + (b + r);
      p + ((a + q) + (b + r));
      p + (a + (q + (b + r)));
    }
  }

  /** A text holding one numeral among non-digits yields that one run. */
  lemma DigitRunsOfOneNumeral(p: string, sa: string, r: string)
    requires |sa| > 0 && AllDigits(sa)
    requires NoDigits(p) && NoDigits(r)
    ensures DigitRuns(p + sa + r) == [sa]
  {
    assert p + sa + r == p + (sa + r);
    SkipThenOneRun(p, sa, r);
  }
}
