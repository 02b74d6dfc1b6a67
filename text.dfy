/** The Python string operations the shop relies on, over `string == seq<char>`:
    `str.isspace`, `str.strip`, `in` on strings, `str.replace`, `str.lower` on ASCII,
    `str(int)` and `int(str)`. */
module Text {
  import opened Wrappers

  /** Python's `str.isspace()`, which is also what `\s` and a bare `strip()` match. */
  predicate IsSpace(c: char) {
    ('\t' <= c <= '\r') || ('\U{1C}' <= c <= ' ') || c == '\U{85}' || c == '\U{A0}' ||
    c == '\U{1680}' || ('\U{2000}' <= c <= '\U{200A}') || c == '\U{2028}' || c == '\U{2029}' ||
    c == '\U{202F}' || c == '\U{205F}' || c == '\U{3000}'
  }

  predicate IsAscii(c: char) { c < '\U{80}' }

  predicate IsDigit(c: char) { '0' <= c <= '9' }

  predicate IsDigitOrUnderscore(c: char) { IsDigit(c) || c == '_' }

  /** Every character of `s` satisfies `ok`. */
  predicate AllChars(s: string, ok: char -> bool) {
    forall i :: 0 <= i < |s| ==> ok(s[i])
  }

  function DigitChar(d: nat): (c: char)
    requires d < 10
    ensures IsDigit(c) && (c as int) - ('0' as int) == d
  {
    (('0' as int) + d) as char
  }

  // ---------------------------------------------------------------------------
  // str(n) for integers

  /** Decimal digits of `n`, most significant first, no leading zeros. */
  function NatToString(n: nat): (s: string)
    ensures |s| >= 1 && AllChars(s, IsDigit)
    ensures n >= 10 ==> |s| >= 2
    decreases n
  {
    if n < 10 then [DigitChar(n)] else NatToString(n / 10) + [DigitChar(n % 10)]
  }

  /** Python's `str(i)` for an `int`. */
  function IntToString(i: int): string {
    if i < 0 then "-" + NatToString(-i) else NatToString(i)
  }

  // ---------------------------------------------------------------------------
  // int(s)

  /** The value of a run of digits and underscores, underscores ignored. */
  function DigitsValue(t: string): nat
    requires AllChars(t, IsDigitOrUnderscore)
    decreases |t|
  {
    if t == [] then 0
    else
      var last := t[|t| - 1];
      if last == '_' then DigitsValue(t[..|t| - 1])
      else 10 * DigitsValue(t[..|t| - 1]) + ((last as int) - ('0' as int))
  }

  /** The digit part Python's `int()` accepts: digits, where a single `_` may
      separate two digits. */
  predicate WellFormedDigits(t: string) {
    && |t| > 0
    && AllChars(t, IsDigitOrUnderscore)
    && IsDigit(t[0]) && IsDigit(t[|t| - 1])
    && NoAdjacent(t, '_')
  }

  /** Python's `int(s)` for a `str` in base 10: surrounding whitespace, an optional
      sign, then well-formed digits; `None` where Python raises `ValueError`. */
  function ParseInt(s: string): Option<int> {
    ParseStripped(Strip(s, IsSpace))
  }

  /** `int()` of text with no surrounding whitespace. */
  function ParseStripped(t: string): Option<int> {
    if |t| > 0 && (t[0] == '+' || t[0] == '-') then
      var digits := t[1..];
      if WellFormedDigits(digits) then
        var v: int := DigitsValue(digits);
        Some(if t[0] == '-' then -v else v)
      else None
    else if WellFormedDigits(t) then Some(DigitsValue(t))
    else None
  }

  lemma {:induction false} DigitsValueOfNat(n: nat)
    ensures AllChars(NatToString(n), IsDigitOrUnderscore)
    ensures DigitsValue(NatToString(n)) == n
    decreases n
  {
    var s := NatToString(n);
    if n >= 10 {
      DigitsValueOfNat(n / 10);
      assert s[..|s| - 1] == NatToString(n / 10);
    }
  }

  /** A string without `c` does not contain any pattern that starts with `c`. */
  lemma {:induction false} NoCharNoPattern(s: string, p: string)
    requires |p| > 0 && forall i :: 0 <= i < |s| ==> s[i] != p[0]
    ensures !Contains(s, p)
    decreases |s|
  {
    if s != [] {
      assert s[0] != p[0];
      forall i | 0 <= i < |s[1..]| ensures s[1..][i] != p[0] {
        assert s[1..][i] == s[i + 1];
      }
      NoCharNoPattern(s[1..], p);
    }
  }

  /** Text that neither starts nor ends with whitespace is parsed as it stands. */
  lemma ParseUnpadded(s: string)
    requires s == [] || (!IsSpace(s[0]) && !IsSpace(s[|s| - 1]))
    ensures ParseInt(s) == ParseStripped(s)
  {
    StripUntouched(s, IsSpace);
  }

  /** Well-formed digits parse to their value. */
  lemma ParseDigits(digits: string)
    requires WellFormedDigits(digits)
    ensures var r := ParseInt(digits); r.Some? && r.value == DigitsValue(digits)
  {
    assert IsDigit(digits[0]) && IsDigit(digits[|digits| - 1]);
    ParseUnpadded(digits);
  }

  /** Well-formed digits after a minus sign parse to the negated value. */
  lemma ParseNegatedDigits(digits: string)
    requires WellFormedDigits(digits)
    ensures var r := ParseInt("-" + digits); r.Some? && r.value == 0 - DigitsValue(digits)
  {
    var s := "-" + digits;
    assert ParseInt(s) == ParseStripped(s) by {
      assert s[|s| - 1] == digits[|digits| - 1];
      ParseUnpadded(s);
    }
    assert s[1..] == digits;
  }

  /** The decimal digits of `n` are well formed and have the value `n`. */
  lemma NatToStringWellFormed(n: nat)
    ensures WellFormedDigits(NatToString(n)) && DigitsValue(NatToString(n)) == n
  {
    var digits := NatToString(n);
    DigitsValueOfNat(n);
    assert IsDigit(digits[0]) && IsDigit(digits[|digits| - 1]);
    assert forall i :: 0 <= i < |digits| ==> digits[i] != '_';
  }

  /** A printed integer is a sign and digits, with no `_` in it. */
  lemma IntToStringHasNoUnderscore(i: int)
    ensures '_' !in IntToString(i)
  {
    var d := IntToString(i);
    var digits := NatToString(if i < 0 then -i else i);
    assert AllChars(digits, IsDigit);
    forall k | 0 <= k < |d| ensures d[k] != '_' {
      if i < 0 {
        assert d[k] == '-' || d[k] == digits[k - 1];
      }
    }
  }

  /** `int(str(i)) == i`: printing an integer and parsing it back is the identity. */
  lemma ParseIntRoundTrip(i: int)
    ensures ParseInt(IntToString(i)) == Some(i)
  {
    var n: nat := if i < 0 then -i else i;
    var digits := NatToString(n);
    NatToStringWellFormed(n);
    if i < 0 {
      assert IntToString(i) == "-" + digits;
      ParseNegatedDigits(digits);
      assert ParseInt("-" + digits) == Some(i);
    } else {
      assert IntToString(i) == digits;
      ParseDigits(digits);
      assert ParseInt(digits) == Some(i);
    }
  }

  // ---------------------------------------------------------------------------
  // strip

  function TrimStart(s: string, drop: char -> bool): (r: string)
    ensures |r| <= |s| && r == s[|s| - |r|..]
    ensures r == [] || !drop(r[0])
    decreases |s|
  {
    if s != [] && drop(s[0]) then TrimStart(s[1..], drop) else s
  }

  function TrimEnd(s: string, drop: char -> bool): (r: string)
    ensures |r| <= |s| && r == s[..|r|]
    ensures r == [] || !drop(r[|r| - 1])
    decreases |s|
  {
    if s != [] && drop(s[|s| - 1]) then TrimEnd(s[..|s| - 1], drop) else s
  }

  /** Python's `s.strip(chars)`: the longest slice of `s` that neither starts nor
      ends with a character `drop` accepts. */
  function Strip(s: string, drop: char -> bool): (r: string)
    ensures r == [] || (!drop(r[0]) && !drop(r[|r| - 1]))
    ensures var k := |s| - |TrimStart(s, drop)|; k + |r| <= |s| && r == s[k..k + |r|]
  {
    var t := TrimStart(s, drop);
    var r := TrimEnd(t, drop);
    SliceOfSuffix(s, |s| - |t|, |r|);
    assert r != [] ==> r[0] == t[0];
    r
  }

  lemma SliceOfSuffix(s: string, k: nat, n: nat)
    requires k + n <= |s|
    ensures s[k..][..n] == s[k..k + n]
  {
  }

  /** Stripping a string whose ends are already kept changes nothing. */
  lemma StripUntouched(s: string, drop: char -> bool)
    requires s == [] || (!drop(s[0]) && !drop(s[|s| - 1]))
    ensures Strip(s, drop) == s
  {
  }

  /** Nothing but whitespace strips to the empty string. */
  lemma {:induction false} StripAllDropped(s: string, drop: char -> bool)
    requires AllChars(s, drop)
    ensures Strip(s, drop) == []
    decreases |s|
  {
    if s != [] {
      StripAllDropped(s[1..], drop);
    }
  }

  // ---------------------------------------------------------------------------
  // substring test

  /** Python's `p in s` for strings. */
  predicate Contains(s: string, p: string)
    decreases |s|
  {
    p <= s || (|s| > 0 && Contains(s[1..], p))
  }

  /** No two adjacent copies of `c`. */
  predicate NoAdjacent(s: string, c: char) {
    forall i :: 0 <= i < |s| - 1 ==> !(s[i] == c && s[i + 1] == c)
  }

  /** `NoAdjacent` is exactly Python's `c + c not in s`. */
  lemma {:induction false} NoAdjacentContains(s: string, c: char)
    ensures NoAdjacent(s, c) <==> !Contains(s, [c, c])
    decreases |s|
  {
    if s != [] {
      NoAdjacentContains(s[1..], c);
      assert NoAdjacent(s, c) <==>
        !(|s| >= 2 && s[0] == c && s[1] == c) && NoAdjacent(s[1..], c);
      assert ([c, c] <= s) <==> (|s| >= 2 && s[0] == c && s[1] == c);
    }
  }

  /** A pattern found in a prefix is found in the whole string. */
  lemma {:induction false} ContainsInPrefix(s: string, k: nat, p: string)
    requires k <= |s| && Contains(s[..k], p)
    ensures Contains(s, p)
    decreases |s|
  {
    if !(p <= s[..k]) {
      assert s[..k][1..] == s[1..][..k - 1];
      ContainsInPrefix(s[1..], k - 1, p);
    }
  }

  /** A pattern found in a slice is found in the whole string. */
  lemma {:induction false} ContainsInSlice(s: string, i: nat, j: nat, p: string)
    requires i <= j <= |s| && Contains(s[i..j], p)
    ensures Contains(s, p)
    decreases i
  {
    if i == 0 {
      ContainsInPrefix(s, j, p);
    } else {
      assert s[i..j] == s[1..][i - 1..j - 1];
      ContainsInSlice(s[1..], i - 1, j - 1, p);
    }
  }

  // ---------------------------------------------------------------------------
  // lower

  /** `str.lower()` on one ASCII character. */
  function LowerChar(c: char): char {
    if 'A' <= c <= 'Z' then ((c as int) + 32) as char else c
  }

  /** `str.lower()` of a string whose letters are ASCII (the shop only lowers such
      strings, and SQLite's `lower()` only folds ASCII). */
  function LowerAscii(s: string): (r: string)
    ensures |r| == |s| && forall i :: 0 <= i < |s| ==> r[i] == LowerChar(s[i])
  {
    seq(|s|, i requires 0 <= i < |s| => LowerChar(s[i]))
  }

  /** Text without capitals is its own lower case. */
  lemma LowerAsciiNoCapitals(s: string)
    requires forall i :: 0 <= i < |s| ==> !('A' <= s[i] <= 'Z')
    ensures LowerAscii(s) == s
  {
    var r := LowerAscii(s);
    forall i | 0 <= i < |s| ensures r[i] == s[i] {
      assert LowerChar(s[i]) == s[i];
    }
  }

  // ---------------------------------------------------------------------------
  // replace

  /** Python's `s.replace(pat, rep)`: every occurrence of `pat`, scanning left to
      right without overlaps, is replaced by `rep`. */
  function Replace(s: string, pat: string, rep: string): string
    requires pat != []
    decreases |s|
  {
    if |s| < |pat| then s
    else if pat <= s then rep + Replace(s[|pat|..], pat, rep)
    else [s[0]] + Replace(s[1..], pat, rep)
  }

  /** Text with no occurrence of `pat` is returned unchanged. */
  lemma {:induction false} ReplaceAbsent(s: string, pat: string, rep: string)
    requires pat != [] && !Contains(s, pat)
    ensures Replace(s, pat, rep) == s
    decreases |s|
  {
    if |s| >= |pat| {
      ReplaceAbsent(s[1..], pat, rep);
    }
  }

  /** `str.replace` of a single character distributes over concatenation. */
  lemma {:induction false} ReplaceCharAppend(a: string, b: string, k: char, v: string)
    ensures Replace(a + b, [k], v) == Replace(a, [k], v) + Replace(b, [k], v)
    decreases |a|
  {
    if a == [] {
      assert a + b == b;
    } else {
      assert (a + b)[0] == a[0];
      assert (a + b)[1..] == a[1..] + b;
      ReplaceCharAppend(a[1..], b, k, v);
    }
  }

  /** Replacing a one-character pattern in a one-character text. */
  lemma ReplaceOneChar(c: char, k: char, v: string)
    ensures Replace([c], [k], v) == if c == k then v else [c]
  {
    assert [c][1..] == [];
    assert [k] <= [c] <==> [k][0] == [c][0];
  }

  // ---------------------------------------------------------------------------
  // rfind, split and join on a one-character separator

  /** Python's `s.rfind(c, 0, n)`: the index of the last `c` before `n`, or -1. */
  function RFindBefore(s: string, c: char, n: nat): (r: int)
    requires n <= |s|
    ensures -1 <= r < n
    ensures r >= 0 ==> s[r] == c
    decreases n
  {
    if n == 0 then -1
    else if s[n - 1] == c then n - 1
    else RFindBefore(s, c, n - 1)
  }

  /** Python's `s.rfind(c)`: the index of the last `c`, or -1. */
  function RFind(s: string, c: char): (r: int)
    ensures -1 <= r < |s|
    ensures r >= 0 ==> s[r] == c
  {
    RFindBefore(s, c, |s|)
  }

  /** No `c` lies between the one `RFindBefore` finds and `n`. */
  lemma {:induction false} RFindBeforeIsLast(s: string, c: char, n: nat)
    requires n <= |s|
    ensures forall i :: RFindBefore(s, c, n) < i < n ==> s[i] != c
    decreases n
  {
    if n > 0 && s[n - 1] != c {
      RFindBeforeIsLast(s, c, n - 1);
    }
  }

  /** `RFindBefore` is the only index below `n` holding `c` with no `c` after it below
      `n` (or -1 when there is none). */
  lemma RFindBeforeUnique(s: string, c: char, n: nat, m: int)
    requires n <= |s| && -1 <= m < n && (m >= 0 ==> s[m] == c)
    requires forall i :: m < i < n ==> s[i] != c
    ensures RFindBefore(s, c, n) == m
  {
    RFindBeforeIsLast(s, c, n);
  }

  /** Two texts that agree below `n` have the same last `c` below `n`. */
  lemma {:induction false} RFindBeforeAgree(s: string, t: string, c: char, n: nat)
    requires n <= |s| && n <= |t| && forall i :: 0 <= i < n ==> s[i] == t[i]
    ensures RFindBefore(s, c, n) == RFindBefore(t, c, n)
    decreases n
  {
    if n > 0 {
      RFindBeforeAgree(s, t, c, n - 1);
    }
  }

  /** Searching a suffix finds the same last occurrence, shifted, if it lies in the
      suffix. */
  lemma RFindSuffix(s: string, k: nat, c: char)
    requires k <= |s|
    ensures RFind(s[k..], c) == if RFind(s, c) >= k then RFind(s, c) - k else -1
  {
    var r := RFind(s, c);
    RFindBeforeIsLast(s, c, |s|);
    var m := if r >= k then r - k else -1;
    forall i | m < i < |s| - k ensures s[k..][i] != c {
      assert s[k..][i] == s[k + i];
    }
    RFindBeforeUnique(s[k..], c, |s| - k, m);
  }

  /** Text without `c` has no last `c`. */
  lemma RFindAbsent(s: string, c: char)
    requires c !in s
    ensures RFind(s, c) == -1
  {
    forall i | -1 < i < |s| ensures s[i] != c {
      assert s[i] in s;
    }
    RFindBeforeUnique(s, c, |s|, -1);
  }

  /** The separator just before a separator-free tail is the last one. */
  lemma RFindBeforeTail(a: string, c: char, b: string)
    requires c !in b
    ensures RFind(a + [c] + b, c) == |a|
  {
    var s := a + [c] + b;
    forall i | |a| < i < |s| ensures s[i] != c {
      assert s[i] == b[i - |a| - 1];
      assert b[i - |a| - 1] in b;
    }
    RFindBeforeUnique(s, c, |s|, |a|);
  }

  /** Python's `s[..n].split(sep)` for a one-character separator: the pieces between
      separators, at least one. */
  function SplitBefore(s: string, sep: char, n: nat): (parts: seq<string>)
    requires n <= |s|
    ensures |parts| >= 1
    decreases n
  {
    var j := RFindBefore(s, sep, n);
    if j < 0 then [s[..n]] else SplitBefore(s, sep, j) + [s[j + 1..n]]
  }

  /** Python's `s.split(sep)` for a one-character separator. */
  function Split(s: string, sep: char): (parts: seq<string>)
    ensures |parts| >= 1
  {
    SplitBefore(s, sep, |s|)
  }

  /** Python's `sep.join(parts)`. */
  function Join(parts: seq<string>, sep: char): string
    requires |parts| >= 1
    decreases |parts|
  {
    if |parts| == 1 then parts[0]
    else Join(parts[..|parts| - 1], sep) + [sep] + parts[|parts| - 1]
  }

  /** One step of `SplitBefore`, with the last separator below `n` given as `j`. */
  lemma SplitStep(s: string, sep: char, n: nat, j: int)
    requires n <= |s| && j == RFindBefore(s, sep, n)
    ensures j < 0 ==> SplitBefore(s, sep, n) == [s[..n]]
    ensures j >= 0 ==> SplitBefore(s, sep, n) == SplitBefore(s, sep, j) + [s[j + 1..n]]
  {
  }

  /** One step of `SplitBefore` where there is a separator below `n`, at `j`. */
  lemma SplitStepFound(s: string, sep: char, n: nat, j: int)
    requires n <= |s| && j == RFindBefore(s, sep, n) && j >= 0
    ensures SplitBefore(s, sep, n) == SplitBefore(s, sep, j) + [s[j + 1..n]]
  {
  }

  /** The last piece is everything after the last separator. */
  lemma SplitLastPiece(s: string, sep: char, n: nat, j: int)
    requires n <= |s| && j == RFindBefore(s, sep, n)
    ensures var parts := SplitBefore(s, sep, n); parts[|parts| - 1] == s[j + 1..n]
  {
    SplitStep(s, sep, n, j);
  }

  /** There is more than one piece exactly when there is a separator. */
  lemma SplitCount(s: string, sep: char, j: int)
    requires j == RFind(s, sep)
    ensures |Split(s, sep)| > 1 <==> j >= 0
  {
    SplitStep(s, sep, |s|, j);
  }

  /** Two texts that agree below `n` split alike there. */
  lemma {:induction false} SplitBeforeAgree(s: string, t: string, sep: char, n: nat)
    requires n <= |s| && n <= |t| && forall i :: 0 <= i < n ==> s[i] == t[i]
    ensures SplitBefore(s, sep, n) == SplitBefore(t, sep, n)
    decreases n
  {
    var j := RFindBefore(s, sep, n);
    RFindBeforeAgree(s, t, sep, n);
    SplitStep(s, sep, n, j);
    SplitStep(t, sep, n, j);
    assert s[..n] == t[..n];
    if j >= 0 {
      SplitBeforeAgree(s, t, sep, j);
      assert s[j + 1..n] == t[j + 1..n];
    }
  }

  /** Joining one more piece appends the separator and that piece. */
  lemma JoinSnoc(parts: seq<string>, sep: char, x: string)
    requires |parts| >= 1
    ensures Join(parts + [x], sep) == Join(parts, sep) + [sep] + x
  {
    assert (parts + [x])[..|parts|] == parts;
  }

  /** Joining the pieces below `n` gives back the text below `n`. */
  lemma {:induction false} JoinSplitBefore(s: string, sep: char, n: nat)
    requires n <= |s|
    ensures Join(SplitBefore(s, sep, n), sep) == s[..n]
    decreases n
  {
    var j := RFindBefore(s, sep, n);
    SplitStep(s, sep, n, j);
    if j >= 0 {
      JoinSplitBefore(s, sep, j);
      JoinSnoc(SplitBefore(s, sep, j), sep, s[j + 1..n]);
      assert s[..j] + [sep] + s[j + 1..n] == s[..n];
    }
  }

  /** Splitting and joining again gives back the text. */
  lemma JoinSplit(s: string, sep: char)
    ensures Join(Split(s, sep), sep) == s
  {
    JoinSplitBefore(s, sep, |s|);
  }

  /** A separator followed by a separator-free tail ends the split with that tail. */
  lemma SplitAroundLast(a: string, sep: char, b: string)
    requires sep !in b
    ensures Split(a + [sep] + b, sep) == Split(a, sep) + [b]
  {
    var s := a + [sep] + b;
    RFindBeforeTail(a, sep, b);
    SplitStep(s, sep, |s|, |a|);
    SplitBeforeAgree(s, a, sep, |a|);
    assert s[|a| + 1..|s|] == b;
  }

  /** Joining separator-free pieces and splitting again gives back the pieces. */
  lemma {:induction false} SplitJoin(parts: seq<string>, sep: char)
    requires |parts| >= 1 && forall k :: 0 <= k < |parts| ==> sep !in parts[k]
    ensures Split(Join(parts, sep), sep) == parts
    decreases |parts|
  {
    var last := parts[|parts| - 1];
    if |parts| == 1 {
      RFindAbsent(last, sep);
      SplitStep(last, sep, |last|, -1);
      assert last[..|last|] == last;
      assert parts == [last];
    } else {
      var init := parts[..|parts| - 1];
      SplitJoin(init, sep);
      SplitAroundLast(Join(init, sep), sep, last);
      assert init + [last] == parts;
    }
  }

  /** Replacing the last piece below `n` and joining keeps everything up to the last
      separator, at `j`. */
  lemma ReplaceLastPieceBefore(s: string, sep: char, n: nat, x: string, j: int)
    requires n <= |s| && j == RFindBefore(s, sep, n)
    ensures var parts := SplitBefore(s, sep, n); Join(parts[|parts| - 1 := x], sep) == s[..j + 1] + x
  {
    SplitStep(s, sep, n, j);
    if j >= 0 {
      var init := SplitBefore(s, sep, j);
      UpdateLast(init, s[j + 1..n], x);
      JoinSplitBefore(s, sep, j);
      JoinSnoc(init, sep, x);
      ThroughIndex(s, j);
    }
  }

  /** Updating the element just appended. */
  lemma UpdateLast<T>(a: seq<T>, y: T, x: T)
    ensures (a + [y])[|a| := x] == a + [x]
  {
  }

  /** The prefix through index `j`. */
  lemma ThroughIndex(s: string, j: nat)
    requires j < |s|
    ensures s[..j + 1] == s[..j] + [s[j]]
  {
  }

  /** Replacing the last piece of a split and joining keeps everything up to the last
      separator, at `j`. */
  lemma ReplaceLastPiece(s: string, sep: char, x: string, j: int)
    requires j == RFind(s, sep)
    ensures var parts := Split(s, sep); Join(parts[|parts| - 1 := x], sep) == s[..j + 1] + x
  {
    ReplaceLastPieceBefore(s, sep, |s|, x, j);
  }

  /** Appending `t` to the next-to-last piece of a split puts `t` just before the last
      separator, at `j`. */
  lemma AppendToNextToLastPiece(s: string, sep: char, t: string, j: int)
    requires j == RFind(s, sep) && j >= 0
    ensures var parts := Split(s, sep);
            Join(parts[|parts| - 2 := parts[|parts| - 2] + t], sep) == s[..j] + t + s[j..]
  {
    SplitStepFound(s, sep, |s|, j);
    JoinExtendedBeforeLast(Split(s, sep), SplitBefore(s, sep, j), s[j + 1..|s|], sep, t);
    JoinExtendedLast(s, sep, t, j);
  }

  /** Extending the piece before the last one, which is `tail`, leaves `tail` behind
      the last separator. */
  lemma JoinExtendedBeforeLast(parts: seq<string>, init: seq<string>, tail: string, sep: char, t: string)
    requires |init| >= 1 && parts == init + [tail]
    ensures Join(parts[|parts| - 2 := parts[|parts| - 2] + t], sep) ==
            Join(init[|init| - 1 := init[|init| - 1] + t], sep) + [sep] + tail
  {
    var x := init[|init| - 1] + t;
    UpdateBeforeLast(init, tail, |init| - 1, x);
    JoinSnoc(init[|init| - 1 := x], sep, tail);
  }

  /** Extending the last piece below the last separator `j` and joining puts `t` just
      before that separator. */
  lemma JoinExtendedLast(s: string, sep: char, t: string, j: int)
    requires j == RFind(s, sep) && j >= 0
    ensures var init := SplitBefore(s, sep, j);
            Join(init[|init| - 1 := init[|init| - 1] + t], sep) + [sep] + s[j + 1..|s|] ==
            s[..j] + t + s[j..]
  {
    var i := RFindBefore(s, sep, j);
    SplitLastPiece(s, sep, j, i);
    ReplaceLastPieceBefore(s, sep, j, s[i + 1..j] + t, i);
    InsertBeforeSeparator(s, sep, t, i, j);
  }

  /** Updating an element before the one just appended. */
  lemma UpdateBeforeLast<T>(a: seq<T>, y: T, i: nat, x: T)
    requires i < |a|
    ensures (a + [y])[i := x] == a[i := x] + [y]
  {
  }

  /** Text through the separator before `i`, the piece up to `j`, `t`, the separator
      at `j` and the rest. */
  lemma InsertBeforeSeparator(s: string, sep: char, t: string, i: int, j: int)
    requires -1 <= i < j < |s| && s[j] == sep
    ensures s[..i + 1] + (s[i + 1..j] + t) + [sep] + s[j + 1..|s|] == s[..j] + t + s[j..]
  {
    assert s[..i + 1] + s[i + 1..j] == s[..j];
    assert s[j..] == [sep] + s[j + 1..|s|];
  }
}
