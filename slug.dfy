/** URL slugs: `transliterate`, which turns a Russian name into a lower-case Latin
    slug, and `generate_slug`, which appends `-1`, `-2`, ... until the slug is free. */
module Slug {
  import opened Wrappers
  import opened Seqs
  import opened Text

  // ---------------------------------------------------------------------------
  // The Cyrillic-to-Latin table

  /** The hard and soft signs. */
  predicate IsSign(c: char) { c == 'ъ' || c == 'ь' || c == 'Ъ' || c == 'Ь' }

  /** Each entry maps a non-ASCII character to ASCII text, and a sign to nothing. */
  predicate WellShaped(table: seq<(char, string)>) {
    forall i :: 0 <= i < |table| ==> EntryShaped(table[i])
  }

  predicate EntryShaped(e: (char, string)) {
    !IsAscii(e.0) && AllChars(e.1, IsAscii) && (IsSign(e.0) ==> e.1 == [])
  }

  lemma WellShapedAppend(a: seq<(char, string)>, b: seq<(char, string)>)
    requires WellShaped(a) && WellShaped(b)
    ensures WellShaped(a + b)
  {
    forall i | 0 <= i < |a + b| ensures EntryShaped((a + b)[i]) {
      if i >= |a| {
        assert (a + b)[i] == b[i - |a|];
      }
    }
  }

  // The transliteration dictionary, one function per line of the Python literal:
  // lower-case letters first, then capitals.

  function Lower1(): (t: seq<(char, string)>)
    ensures WellShaped(t)
  {
    [('а', "a"), ('б', "b"), ('в', "v"), ('г', "g"), ('д', "d"), ('е', "e"), ('ё', "yo")]
  }
  function Lower2(): (t: seq<(char, string)>)
    ensures WellShaped(t)
  {
    [('ж', "zh"), ('з', "z"), ('и', "i"), ('й', "y"), ('к', "k"), ('л', "l"), ('м', "m")]
  }
  function Lower3(): (t: seq<(char, string)>)
    ensures WellShaped(t)
  {
    [('н', "n"), ('о', "o"), ('п', "p"), ('р', "r"), ('с', "s"), ('т', "t"), ('у', "u")]
  }
  function Lower4(): (t: seq<(char, string)>)
    ensures WellShaped(t)
  {
    [('ф', "f"), ('х', "h"), ('ц', "ts"), ('ч', "ch"), ('ш', "sh"), ('щ', "sch")]
  }
  function Lower5(): (t: seq<(char, string)>)
    ensures WellShaped(t)
  {
    [('ъ', ""), ('ы', "y"), ('ь', ""), ('э', "e"), ('ю', "yu"), ('я', "ya")]
  }
  function Upper1(): (t: seq<(char, string)>)
    ensures WellShaped(t)
  {
    [('А', "A"), ('Б', "B"), ('В', "V"), ('Г', "G"), ('Д', "D"), ('Е', "E"), ('Ё', "Yo")]
  }
  function Upper2(): (t: seq<(char, string)>)
    ensures WellShaped(t)
  {
    [('Ж', "Zh"), ('З', "Z"), ('И', "I"), ('Й', "Y"), ('К', "K"), ('Л', "L"), ('М', "M")]
  }
  function Upper3(): (t: seq<(char, string)>)
    ensures WellShaped(t)
  {
    [('Н', "N"), ('О', "O"), ('П', "P"), ('Р', "R"), ('С', "S"), ('Т', "T"), ('У', "U")]
  }
  function Upper4(): (t: seq<(char, string)>)
    ensures WellShaped(t)
  {
    [('Ф', "F"), ('Х', "H"), ('Ц', "Ts"), ('Ч', "Ch"), ('Ш', "Sh"), ('Щ', "Sch")]
  }
  function Upper5(): (t: seq<(char, string)>)
    ensures WellShaped(t)
  {
    [('Ъ', ""), ('Ы', "Y"), ('Ь', ""), ('Э', "E"), ('Ю', "Yu"), ('Я', "Ya")]
  }
  /** The whole dictionary, in the order Python iterates it. */
  const Table: seq<(char, string)> :=
    Lower1() + Lower2() + Lower3() + Lower4() + Lower5() + Upper1() + Upper2() + Upper3() + Upper4() + Upper5()
  /** The table maps Cyrillic letters to ASCII text, so no replacement can create a
      key that a later replacement would rewrite. */
  lemma TableShape()
    ensures WellShaped(Table)
  {
    WellShapedAppend(Lower1(), Lower2());
    WellShapedAppend(Lower1() + Lower2(), Lower3());
    WellShapedAppend(Lower1() + Lower2() + Lower3(), Lower4());
    WellShapedAppend(Lower1() + Lower2() + Lower3() + Lower4(), Lower5());
    WellShapedAppend(Lower1() + Lower2() + Lower3() + Lower4() + Lower5(), Upper1());
    WellShapedAppend(Lower1() + Lower2() + Lower3() + Lower4() + Lower5() + Upper1(), Upper2());
    WellShapedAppend(Lower1() + Lower2() + Lower3() + Lower4() + Lower5() + Upper1() + Upper2(), Upper3());
    WellShapedAppend(Lower1() + Lower2() + Lower3() + Lower4() + Lower5() + Upper1() + Upper2() + Upper3(), Upper4());
    WellShapedAppend(Lower1() + Lower2() + Lower3() + Lower4() + Lower5() + Upper1() + Upper2() + Upper3() + Upper4(), Upper5());
  }

  /** The replacement `table` gives for `c`, if any (the first entry with key `c`). */
  function Lookup(table: seq<(char, string)>, c: char): (r: Option<string>)
    ensures r.None? <==> forall i :: 0 <= i < |table| ==> table[i].0 != c
    ensures r.Some? ==> exists i :: 0 <= i < |table| && table[i] == (c, r.value)
    decreases |table|
  {
    if table == [] then None
    else if table[0].0 == c then Some(table[0].1)
    else
      var r := Lookup(table[1..], c);
      assert forall i :: 1 <= i < |table| ==> table[i] == table[1..][i - 1];
      r
  }

  /** What `table` turns the single character `c` into. */
  function Image(table: seq<(char, string)>, c: char): string {
    match Lookup(table, c)
    case Some(v) => v
    case None => [c]
  }

  /** Every character of `s` replaced by its image under `table`. */
  function MapWith(s: string, table: seq<(char, string)>): string
    decreases |s|
  {
    if s == [] then [] else Image(table, s[0]) + MapWith(s[1..], table)
  }

  /** The character-by-character reading of the dictionary. */
  function MapChars(s: string): string {
    MapWith(s, Table)
  }

  /** Mapping characters distributes over concatenation. */
  lemma {:induction false} MapWithAppend(a: string, b: string, table: seq<(char, string)>)
    ensures MapWith(a + b, table) == MapWith(a, table) + MapWith(b, table)
    decreases |a|
  {
    if a == [] {
      assert a + b == b;
    } else {
      assert (a + b)[0] == a[0];
      assert (a + b)[1..] == a[1..] + b;
      MapWithAppend(a[1..], b, table);
    }
  }

  /** An entry appended to a table only matters for characters it did not cover yet. */
  lemma {:induction false} LookupAppend(table: seq<(char, string)>, k: char, v: string, c: char)
    ensures Lookup(table + [(k, v)], c) ==
              if Lookup(table, c).Some? then Lookup(table, c)
              else if c == k then Some(v) else None
    decreases |table|
  {
    if table != [] {
      assert (table + [(k, v)])[1..] == table[1..] + [(k, v)];
      LookupAppend(table[1..], k, v, c);
    }
  }

  /** One more `str.replace` with a non-ASCII key, applied to text already mapped
      through an ASCII-valued table, maps through the extended table. */
  lemma {:induction false} ReplaceExtendsTable(s: string, table: seq<(char, string)>, k: char, v: string)
    requires !IsAscii(k) && WellShaped(table)
    ensures Replace(MapWith(s, table), [k], v) == MapWith(s, table + [(k, v)])
    decreases |s|
  {
    if s != [] {
      var c := s[0];
      ReplaceCharAppend(Image(table, c), MapWith(s[1..], table), k, v);
      ReplaceExtendsTable(s[1..], table, k, v);
      LookupAppend(table, k, v, c);
      match Lookup(table, c)
      case Some(w) =>
        assert AllChars(w, IsAscii);
        NoCharNoPattern(w, [k]);
        ReplaceAbsent(w, [k], v);
      case None =>
        ReplaceOneChar(c, k, v);
    }
  }

  /** The loop of `transliterate` over the dictionary: one `str.replace` per entry.
      Because keys are Cyrillic and values ASCII, it computes the per-character map. */
  method ApplyTable(text: string) returns (r: string)
    ensures r == MapChars(text)
  {
    TableShape();
    r := text;
    assert MapWith(text, []) == text by { MapWithEmptyTable(text); }
    var i := 0;
    while i < |Table|
      invariant 0 <= i <= |Table|
      invariant r == MapWith(text, Table[..i])
    {
      assert WellShaped(Table[..i]);
      ReplaceExtendsTable(text, Table[..i], Table[i].0, Table[i].1);
      r := Replace(r, [Table[i].0], Table[i].1);
      assert Table[..i + 1] == Table[..i] + [Table[i]];
      i := i + 1;
    }
    assert Table[..|Table|] == Table;
  }

  lemma {:induction false} MapWithEmptyTable(s: string)
    ensures MapWith(s, []) == s
    decreases |s|
  {
    if s != [] {
      MapWithEmptyTable(s[1..]);
    }
  }

  /** ASCII text passes through the dictionary unchanged. */
  lemma {:induction false} MapCharsAscii(s: string)
    requires AllChars(s, IsAscii)
    ensures MapChars(s) == s
    decreases |s|
  {
    if s != [] {
      TableShape();
      assert Lookup(Table, s[0]).None?;
      MapCharsAscii(s[1..]);
    }
  }

  /** The table sends the hard and soft signs to the empty string. */
  lemma SignImage(c: char)
    requires IsSign(c)
    ensures Image(Table, c) == []
  {
    TableShape();
    var i := if c == 'ъ' then 27 else if c == 'ь' then 29 else if c == 'Ъ' then 60 else 62;
    assert Table[i].0 == c;
  }

  /** The hard and soft signs `ъ`, `ь`, `Ъ`, `Ь` vanish wherever they stand. */
  lemma SignsVanish(a: string, c: char, b: string)
    requires IsSign(c)
    ensures MapChars(a + [c] + b) == MapChars(a) + MapChars(b)
  {
    assert MapWith([c], Table) == [] by {
      SignImage(c);
      assert [c][1..] == [];
    }
    MapWithAppend(a, [c], Table);
    MapWithAppend(a + [c], b, Table);
  }

  // ---------------------------------------------------------------------------
  // The regular-expression chain

  predicate IsHyphen(c: char) { c == '-' }

  /** `re.sub(p + '+', '-', s)`: every maximal run of characters `p` accepts becomes a
      single `-`. `inRun` says the previous character was in a run. */
  function CollapseRuns(s: string, p: char -> bool, inRun: bool): string
    decreases |s|
  {
    if s == [] then []
    else if p(s[0]) then
      (if inRun then [] else ['-']) + CollapseRuns(s[1..], p, true)
    else [s[0]] + CollapseRuns(s[1..], p, false)
  }

  /** Characters of the class `[a-zA-Z0-9\-_]`. */
  predicate IsAllowed(c: char) {
    ('a' <= c <= 'z') || ('A' <= c <= 'Z') || IsDigit(c) || c == '-' || c == '_'
  }

  /** Characters a finished slug is made of. */
  predicate IsSlugChar(c: char) {
    ('a' <= c <= 'z') || IsDigit(c) || c == '-' || c == '_'
  }

  /** The regular-expression chain after the table: whitespace runs to `-`, drop
      every other character outside `[a-zA-Z0-9\-_]`, squeeze hyphens, strip them
      from both ends, lower-case, and fall back to `"item"` when nothing is left. */
  function Normalize(s: string): string {
    var spaced := CollapseRuns(s, IsSpace, false);
    var kept := Filter(spaced, IsAllowed);
    var squeezed := CollapseRuns(kept, IsHyphen, false);
    var lowered := LowerAscii(Strip(squeezed, IsHyphen));
    if lowered == [] then "item" else lowered
  }

  /** What `transliterate(text)` returns. */
  function Transliteration(text: string): string {
    if text == [] then [] else Normalize(MapChars(text))
  }

  /** `transliterate`: the table loop followed by the normalisation chain. */
  method Transliterate(text: string) returns (slug: string)
    ensures slug == Transliteration(text)
  {
    if text == [] {
      return "";
    }
    var mapped := ApplyTable(text);
    slug := Normalize(mapped);
  }

  // ---------------------------------------------------------------------------
  // Facts about the chain

  /** A run of `p`-characters, followed by text that does not continue the run,
      becomes exactly one `-`. */
  lemma RunBecomesOneHyphen(run: string, rest: string, p: char -> bool)
    requires |run| > 0 && AllChars(run, p)
    requires rest == [] || !p(rest[0])
    ensures CollapseRuns(run + rest, p, false) == ['-'] + CollapseRuns(rest, p, false)
  {
    assert (run + rest)[1..] == run[1..] + rest;
    InsideRun(run[1..], rest, p);
  }

  lemma {:induction false} InsideRun(run: string, rest: string, p: char -> bool)
    requires AllChars(run, p)
    requires rest == [] || !p(rest[0])
    ensures CollapseRuns(run + rest, p, true) == CollapseRuns(rest, p, false)
    decreases |run|
  {
    if run == [] {
      assert run + rest == rest;
    } else {
      assert (run + rest)[0] == run[0];
      assert (run + rest)[1..] == run[1..] + rest;
      InsideRun(run[1..], rest, p);
    }
  }

  /** Collapsing runs keeps a character class that includes `-`. */
  lemma {:induction false} CollapseKeeps(s: string, p: char -> bool, inRun: bool, ok: char -> bool)
    requires AllChars(s, ok) && ok('-')
    ensures AllChars(CollapseRuns(s, p, inRun), ok)
    decreases |s|
  {
    if s != [] {
      CollapseKeeps(s[1..], p, p(s[0]), ok);
    }
  }

  /** Text without `p`-characters is left as it is. */
  lemma {:induction false} CollapseNothing(s: string, p: char -> bool, inRun: bool)
    requires forall i :: 0 <= i < |s| ==> !p(s[i])
    ensures CollapseRuns(s, p, inRun) == s
    decreases |s|
  {
    if s != [] {
      CollapseNothing(s[1..], p, false);
    }
  }

  /** Squeezing hyphens leaves no two adjacent, and none at the front after a run. */
  lemma {:induction false} SqueezeNoDouble(s: string, inRun: bool)
    ensures var r := CollapseRuns(s, IsHyphen, inRun);
            NoAdjacent(r, '-') && (inRun ==> r == [] || r[0] != '-')
    decreases |s|
  {
    if s != [] {
      SqueezeNoDouble(s[1..], IsHyphen(s[0]));
    }
  }

  /** Text without adjacent hyphens is already squeezed. */
  lemma {:induction false} SqueezeIdentity(s: string, inRun: bool)
    requires NoAdjacent(s, '-') && (inRun ==> s == [] || s[0] != '-')
    ensures CollapseRuns(s, IsHyphen, inRun) == s
    decreases |s|
  {
    if s != [] {
      SqueezeIdentity(s[1..], IsHyphen(s[0]));
    }
  }

  /** A well-formed slug: non-empty, lower-case ASCII letters, digits, `-` and `_`
      only, no `--`, and no `-` at either end. */
  predicate IsSlug(s: string) {
    && |s| > 0
    && AllChars(s, IsSlugChar)
    && !Contains(s, "--")
    && s[0] != '-' && s[|s| - 1] != '-'
  }

  /** Text of allowed characters without `--`, as the squeeze leaves it. */
  predicate Squeezed(s: string) {
    AllChars(s, IsAllowed) && NoAdjacent(s, '-')
  }

  /** Dropping disallowed characters and squeezing hyphens yields squeezed text. */
  lemma SqueezeShape(spaced: string)
    ensures Squeezed(CollapseRuns(Filter(spaced, IsAllowed), IsHyphen, false))
  {
    var kept := Filter(spaced, IsAllowed);
    assert AllChars(kept, IsAllowed) by {
      forall i | 0 <= i < |kept| ensures IsAllowed(kept[i]) {
        assert kept[i] in kept;
      }
    }
    CollapseKeeps(kept, IsHyphen, false, IsAllowed);
    SqueezeNoDouble(kept, false);
  }

  /** Stripping hyphens keeps text squeezed and leaves no hyphen at either end. */
  lemma StripShape(squeezed: string)
    requires Squeezed(squeezed)
    ensures var r := Strip(squeezed, IsHyphen);
            Squeezed(r) && (r == [] || (r[0] != '-' && r[|r| - 1] != '-'))
  {
    var r := Strip(squeezed, IsHyphen);
    var k := |squeezed| - |TrimStart(squeezed, IsHyphen)|;
    assert r == squeezed[k..k + |r|];
  }

  /** Lower-casing squeezed text with no hyphen at either end gives a slug. */
  lemma LowerShape(t: string)
    requires Squeezed(t) && t != [] && t[0] != '-' && t[|t| - 1] != '-'
    ensures IsSlug(LowerAscii(t))
  {
    var r := LowerAscii(t);
    assert AllChars(r, IsSlugChar);
    assert NoAdjacent(r, '-');
    NoAdjacentContains(r, '-');
  }

  /** Whatever it is given, the chain yields a well-formed slug. */
  lemma NormalizeIsSlug(s: string)
    ensures IsSlug(Normalize(s))
  {
    var squeezed := CollapseRuns(Filter(CollapseRuns(s, IsSpace, false), IsAllowed), IsHyphen, false);
    SqueezeShape(CollapseRuns(s, IsSpace, false));
    var stripped := Strip(squeezed, IsHyphen);
    StripShape(squeezed);
    if stripped == [] {
      assert Normalize(s) == "item";
      assert IsSlug("item") by {
        NoAdjacentContains("item", '-');
      }
    } else {
      LowerShape(stripped);
    }
  }

  /** The chain leaves a well-formed slug as it is. */
  lemma NormalizeSlug(t: string)
    requires IsSlug(t)
    ensures Normalize(t) == t
  {
    SlugKeepsSpacing(t);
    SlugKeepsCharacters(t);
    SlugKeepsHyphens(t);
    SlugKeepsEnds(t);
    SlugKeepsCase(t);
  }

  lemma SlugKeepsSpacing(t: string)
    requires IsSlug(t)
    ensures CollapseRuns(t, IsSpace, false) == t
  {
    CollapseNothing(t, IsSpace, false);
  }

  lemma SlugKeepsCharacters(t: string)
    requires IsSlug(t)
    ensures Filter(t, IsAllowed) == t
  {
    FilterAllKept(t, IsAllowed);
  }

  lemma SlugKeepsHyphens(t: string)
    requires IsSlug(t)
    ensures CollapseRuns(t, IsHyphen, false) == t
  {
    NoAdjacentContains(t, '-');
    SqueezeIdentity(t, false);
  }

  lemma SlugKeepsEnds(t: string)
    requires IsSlug(t)
    ensures Strip(t, IsHyphen) == t
  {
    StripUntouched(t, IsHyphen);
  }

  lemma SlugKeepsCase(t: string)
    requires IsSlug(t)
    ensures LowerAscii(t) == t
  {
    LowerAsciiNoCapitals(t);
  }

  /** `transliterate` of `""` is `""`; of anything else a well-formed slug, which is
      `"item"` when nothing survives the chain. */
  lemma TransliterationShape(text: string)
    ensures text == [] ==> Transliteration(text) == []
    ensures text != [] ==> IsSlug(Transliteration(text))
  {
    if text != [] {
      NormalizeIsSlug(MapChars(text));
    }
  }

  /** `transliterate` is idempotent on non-empty input. */
  lemma TransliterationIdempotent(text: string)
    requires text != []
    ensures Transliteration(Transliteration(text)) == Transliteration(text)
  {
    var t := Transliteration(text);
    TransliterationShape(text);
    assert AllChars(t, IsAscii);
    MapCharsAscii(t);
    NormalizeSlug(t);
  }

  // ---------------------------------------------------------------------------
  // generate_slug

  /** The `k`-th candidate: the base itself, then `base-1`, `base-2`, ... */
  function Suffixed(base: string, k: nat): string {
    if k == 0 then base else base + "-" + NatToString(k)
  }

  /** Different counters give different candidates. */
  lemma SuffixedInjective(base: string, j: nat, k: nat)
    requires Suffixed(base, j) == Suffixed(base, k)
    ensures j == k
  {
    if j != 0 && k != 0 {
      var n := |base| + 1;
      assert NatToString(j) == Suffixed(base, j)[n..];
      assert NatToString(k) == Suffixed(base, k)[n..];
      DigitsValueOfNat(j);
      DigitsValueOfNat(k);
    }
  }

  /** The first `n` candidates. */
  ghost function Candidates(base: string, n: nat): set<string> {
    if n == 0 then {} else Candidates(base, n - 1) + {Suffixed(base, n - 1)}
  }

  /** A later candidate is none of the first `n`. */
  lemma {:induction false} NotCandidate(base: string, n: nat, k: nat)
    requires n <= k
    ensures Suffixed(base, k) !in Candidates(base, n)
    decreases n
  {
    if n > 0 {
      NotCandidate(base, n - 1, k);
      if Suffixed(base, k) == Suffixed(base, n - 1) {
        SuffixedInjective(base, k, n - 1);
      }
    }
  }

  /** The first `n` candidates are `n` different strings. */
  lemma {:induction false} CandidatesCard(base: string, n: nat)
    ensures |Candidates(base, n)| == n
    decreases n
  {
    if n > 0 {
      CandidatesCard(base, n - 1);
      NotCandidate(base, n - 1, n - 1);
    }
  }

  /** When each of the first `n` candidates is taken, all of them are in `existing`. */
  lemma {:induction false} CandidatesTaken(base: string, existing: seq<string>, n: nat)
    requires forall j :: 0 <= j < n ==> Suffixed(base, j) in existing
    ensures forall x :: x in Candidates(base, n) ==> x in existing
    decreases n
  {
    if n > 0 {
      CandidatesTaken(base, existing, n - 1);
    }
  }

  /** At most `|existing|` candidates can all be taken. */
  lemma TakenCandidatesBound(base: string, existing: seq<string>, n: nat)
    requires forall j :: 0 <= j < n ==> Suffixed(base, j) in existing
    ensures n <= |existing|
  {
    CandidatesCard(base, n);
    CandidatesTaken(base, existing, n);
    SubsetOfSeqCard(Candidates(base, n), existing);
  }

  /** `generate_slug`: the base slug when there is nothing to avoid; otherwise the
      first candidate not in `existing`. */
  method GenerateSlug(text: string, existing: seq<string>) returns (slug: string)
    ensures existing == [] ==> slug == Transliteration(text)
    ensures existing != [] ==> slug !in existing
    ensures Transliteration(text) !in existing ==> slug == Transliteration(text)
    ensures exists k :: 0 <= k <= |existing| && slug == Suffixed(Transliteration(text), k) &&
                        forall j :: 0 <= j < k ==> Suffixed(Transliteration(text), j) in existing
  {
    var base := Transliterate(text);
    if existing == [] {
      assert base == Suffixed(base, 0);
      return base;
    }
    var counter := 1;
    slug := base;
    while slug in existing
      invariant 1 <= counter <= |existing| + 1
      invariant slug == Suffixed(base, counter - 1)
      invariant forall j :: 0 <= j < counter - 1 ==> Suffixed(base, j) in existing
      decreases |existing| + 1 - counter
    {
      TakenCandidatesBound(base, existing, counter);
      slug := base + "-" + IntToString(counter);
      counter := counter + 1;
    }
  }
}
