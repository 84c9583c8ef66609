/** The dialect rewriter `optimize_sql`: five textual rewrites applied in a
    fixed order to the generated SQL. Each regular expression is modelled by
    its matcher (the length of its match at a position of the string) and
    each rewrite by `re.sub` / `re.search` over it. Matching is
    case-sensitive and has no word boundaries. */
module SqlOptimizer {
  import opened Wrappers
  import opened PyStr
  import opened PyRe

  /** The two groups of `(\w+)\.(\w+)`. */
  datatype DottedName = DottedName(table: string, column: string)

  /** The text a `DottedName` was matched from. */
  function Dotted(d: DottedName): string {
    d.table + "." + d.column
  }

  /** A non-empty run of word characters: what `\w+` matches. */
  predicate IsWord(s: string) {
    |s| > 0 && AllIn(s, Word)
  }

  // ---------------------------------------------------------------------
  // (\w+)\.(\w+)

  /** `(\w+)\.(\w+)` matched at position `i` of `s`. */
  function DottedAt(s: string, i: nat): (r: Option<DottedName>)
    ensures r.Some? ==> IsWord(r.value.table) && IsWord(r.value.column)
    ensures r.Some? ==> LitAt(s, i, Dotted(r.value))
    ensures r.Some? ==> i + |Dotted(r.value)| == |s| || !IsWordChar(s[i + |Dotted(r.value)|])
  {
    var w1 := RunAt(s, i, Word);
    if w1 > 0 && i + w1 < |s| && s[i + w1] == '.' then
      var w2 := RunAt(s, i + w1 + 1, Word);
      if w2 > 0 then
        DottedParts(s, i, w1, w2);
        Some(DottedName(s[i..i + w1], s[i + w1 + 1..i + w1 + 1 + w2]))
      else None
    else None
  }

  lemma DottedParts(s: string, i: nat, w1: nat, w2: nat)
    requires w1 == RunAt(s, i, Word) > 0 && i + w1 < |s| && s[i + w1] == '.'
    requires w2 == RunAt(s, i + w1 + 1, Word) > 0
    ensures var d := DottedName(s[i..i + w1], s[i + w1 + 1..i + w1 + 1 + w2]);
      IsWord(d.table) && IsWord(d.column) && LitAt(s, i, Dotted(d)) &&
      (i + |Dotted(d)| == |s| || !IsWordChar(s[i + |Dotted(d)|]))
  {
    var j := i + w1 + 1;
    RunAtSlice(s, i, Word);
    RunAtSlice(s, j, Word);
    var t := s[i..i + w1] + "." + s[j..j + w2];
    forall k | 0 <= k < |t| ensures t[k] == s[i + k] {
      if k < w1 {
        assert t[k] == s[i..i + w1][k];
      } else if k > w1 {
        assert t[k] == s[j..j + w2][k - w1 - 1];
      }
    }
    assert s[i..j + w2] == t;
  }

  function DottedLen(s: string, i: nat): nat {
    match DottedAt(s, i)
    case Some(d) => |Dotted(d)|
    case None => 0
  }

  /** A word, a dot and a word that is not continued is one dotted match. */
  lemma DottedAtIndex(s: string, i: nat, w1: nat, w2: nat)
    requires 0 < w1 && 0 < w2 && i + w1 + 1 + w2 <= |s| && s[i + w1] == '.'
    requires forall k :: i <= k < i + w1 ==> IsWordChar(s[k])
    requires forall k :: i + w1 + 1 <= k < i + w1 + 1 + w2 ==> IsWordChar(s[k])
    requires i + w1 + 1 + w2 == |s| || !IsWordChar(s[i + w1 + 1 + w2])
    ensures DottedAt(s, i) == Some(DottedName(s[i..i + w1], s[i + w1 + 1..i + w1 + 1 + w2]))
  {
    RunAtIs(s, i, w1, Word);
    RunAtIs(s, i + w1 + 1, w2, Word);
  }

  // ---------------------------------------------------------------------
  // Step 1: STRFTIME\("%Y",\s*(\w+)\.(\w+)\)

  const StrftimeHead: string := "STRFTIME(\"%Y\","

  /** A match: its length and its two groups. */
  datatype Found = Found(len: nat, name: DottedName)

  /** The layout of a match `f` at `i`: the head, whitespace over
      `[i + |StrftimeHead|, m)`, the dotted name `f.name` at `m` and a `)`
      that ends the match. */
  predicate StrftimeLayout(s: string, i: nat, m: nat, f: Found) {
    LitAt(s, i, StrftimeHead) && i + |StrftimeHead| <= m <= |s| &&
    AllIn(s[i + |StrftimeHead|..m], Space) && DottedAt(s, m) == Some(f.name) &&
    m + |Dotted(f.name)| < |s| && s[m + |Dotted(f.name)|] == ')' &&
    f.len == m + |Dotted(f.name)| + 1 - i
  }

  /** `STRFTIME\("%Y",\s*(\w+)\.(\w+)\)` matched at position `i` of `s`. */
  function StrftimeAt(s: string, i: nat): (r: Option<Found>)
    ensures r.Some? ==> 0 < r.value.len && i + r.value.len <= |s| && LitAt(s, i, StrftimeHead)
    ensures r.Some? ==> IsWord(r.value.name.table) && IsWord(r.value.name.column)
  {
    if !LitAt(s, i, StrftimeHead) then None
    else StrftimeArgs(s, i, i + |StrftimeHead| + RunAt(s, i + |StrftimeHead|, Space))
  }

  /** Every match has the layout of the pattern, with the groups it reports. */
  lemma StrftimeAtLayout(s: string, i: nat)
    requires StrftimeAt(s, i).Some?
    ensures exists m :: StrftimeLayout(s, i, m, StrftimeAt(s, i).value)
  {
    var m := i + |StrftimeHead| + RunAt(s, i + |StrftimeHead|, Space);
    StrftimeArgsLayout(s, i, m);
  }

  lemma StrftimeArgsLayout(s: string, i: nat, m: nat)
    requires LitAt(s, i, StrftimeHead) && m == i + |StrftimeHead| + RunAt(s, i + |StrftimeHead|, Space)
    ensures StrftimeArgs(s, i, m).Some? ==> StrftimeLayout(s, i, m, StrftimeArgs(s, i, m).value)
  {
    RunAtSlice(s, i + |StrftimeHead|, Space);
  }

  /** The rest of a match whose argument starts at `a`: a dotted name and `)`. */
  function StrftimeArgs(s: string, i: nat, a: nat): (r: Option<Found>)
    requires i < a
    ensures r.Some? ==> 0 < r.value.len && i + r.value.len <= |s|
    ensures r.Some? ==> IsWord(r.value.name.table) && IsWord(r.value.name.column)
  {
    match DottedAt(s, a)
    case None => None
    case Some(d) =>
      var e := a + |Dotted(d)|;
      if e < |s| && s[e] == ')' then Some(Found(e + 1 - i, d)) else None
  }

  function StrftimeLen(s: string, i: nat): nat {
    match StrftimeAt(s, i)
    case Some(f) => f.len
    case None => 0
  }

  /** The head, whitespace over `[i + |StrftimeHead|, m)`, a dotted name at
      `m` and `)` form one match whose groups are that name. */
  lemma StrftimeAtIndex(s: string, i: nat, m: nat, d: DottedName)
    requires LitAt(s, i, StrftimeHead) && i + |StrftimeHead| <= m <= |s|
    requires AllIn(s[i + |StrftimeHead|..m], Space)
    requires DottedAt(s, m) == Some(d)
    requires m + |Dotted(d)| < |s| && s[m + |Dotted(d)|] == ')'
    ensures StrftimeAt(s, i) == Some(Found(m + |Dotted(d)| + 1 - i, d))
  {
    DottedStartsWithWord(s, m, d);
    WordNotSpace(s[m]);
    RunAtOfSlice(s, i + |StrftimeHead|, m, Space);
    StrftimeArgsAt(s, i, m, d);
    StrftimeAtOfRun(s, i, m);
  }

  lemma StrftimeAtOfRun(s: string, i: nat, m: nat)
    requires LitAt(s, i, StrftimeHead) && i + |StrftimeHead| <= m
    requires RunAt(s, i + |StrftimeHead|, Space) == m - (i + |StrftimeHead|)
    ensures StrftimeAt(s, i) == StrftimeArgs(s, i, m)
  {
  }

  lemma StrftimeArgsAt(s: string, i: nat, m: nat, d: DottedName)
    requires i < m && DottedAt(s, m) == Some(d)
    requires m + |Dotted(d)| < |s| && s[m + |Dotted(d)|] == ')'
    ensures StrftimeArgs(s, i, m) == Some(Found(m + |Dotted(d)| + 1 - i, d))
  {
  }

  /** An occurrence of `t.c` starts with a word character. */
  lemma DottedStartsWithWord(s: string, a: nat, d: DottedName)
    requires IsWord(d.table) && LitAt(s, a, Dotted(d))
    ensures a < |s| && IsWordChar(s[a])
  {
    CharOfOccurrence(s, Dotted(d), a, 0);
    AllInIndex(d.table, Word);
    assert Dotted(d)[0] == d.table[0];
  }

  lemma WordNotSpace(c: char)
    requires IsWordChar(c)
    ensures !In(c, Space)
  {
  }

  /** The replacement as the code intends it: `DATE_TRUNC('YEAR', t.c)`. */
  function DateTrunc(d: DottedName): string {
    "DATE_TRUNC('YEAR', " + Dotted(d) + ")"
  }

  /** The replacement the raw template `r'DATE_TRUNC(\'YEAR\', \1.\2)'`
      actually produces: `re` keeps an escape of a non-letter such as `\'`
      as written, backslash included. */
  function DateTruncAsWritten(d: DottedName): string {
    "DATE_TRUNC(\\'YEAR\\', " + Dotted(d) + ")"
  }

  /** The text put in place of the match at `i` (only asked where there is one). */
  function StrftimeReplacement(s: string, i: nat): string {
    match StrftimeAt(s, i)
    case Some(f) => DateTrunc(f.name)
    case None => ""
  }

  function StrftimeReplacementAsWritten(s: string, i: nat): string {
    match StrftimeAt(s, i)
    case Some(f) => DateTruncAsWritten(f.name)
    case None => ""
  }

  /** A match needs a double quote, so text without one has no match: the
      single-quoted `STRFTIME('%Y', t.c)` is never rewritten. */
  lemma NoDoubleQuoteNoMatch(s: string)
    requires '"' !in s
    ensures forall i :: 0 <= i < |s| ==> !MatchesAt(StrftimeLen, s, i)
  {
    forall i | 0 <= i < |s| ensures !MatchesAt(StrftimeLen, s, i) {
      CharOfOccurrence(s, StrftimeHead, i, 9);
    }
  }

  /** Step 1, as intended: every `STRFTIME("%Y", t.c)` becomes `DATE_TRUNC('YEAR', t.c)`. */
  function ReplaceStrftime(s: string): (r: string)
    ensures '"' !in s ==> r == s
  {
    if '"' !in s then
      NoDoubleQuoteNoMatch(s);
      SubNoMatch(s, StrftimeLen, StrftimeReplacement);
      Sub(s, StrftimeLen, StrftimeReplacement)
    else Sub(s, StrftimeLen, StrftimeReplacement)
  }

  /** Step 1 as written in the source (both copies). */
  function ReplaceStrftimeAsWritten(s: string): (r: string)
    ensures '"' !in s ==> r == s
  {
    if '"' !in s then
      NoDoubleQuoteNoMatch(s);
      SubNoMatch(s, StrftimeLen, StrftimeReplacementAsWritten);
      Sub(s, StrftimeLen, StrftimeReplacementAsWritten)
    else Sub(s, StrftimeLen, StrftimeReplacementAsWritten)
  }

  // ---------------------------------------------------------------------
  // Step 2: AS\s+\w+, upper-cased

  /** The layout of an `AS` match of length `n` at `i`: `AS`, whitespace
      over `[i + 2, q)` and a word over `[q, i + n)` that is not continued. */
  predicate AsLayout(s: string, i: nat, q: nat, n: nat) {
    LitAt(s, i, "AS") && i + 2 < q < i + n <= |s| &&
    AllIn(s[i + 2..q], Space) && AllIn(s[q..i + n], Word) &&
    (i + n == |s| || !IsWordChar(s[i + n]))
  }

  /** `AS\s+\w+` matched at position `i` of `s`. */
  function AsLen(s: string, i: nat): (n: nat)
    ensures n > 0 ==> i + n <= |s| && LitAt(s, i, "AS")
  {
    if !LitAt(s, i, "AS") then 0
    else
      var a := RunAt(s, i + 2, Space);
      if a == 0 then 0
      else
        var w := RunAt(s, i + 2 + a, Word);
        if w == 0 then 0 else 2 + a + w
  }

  /** Every match has the layout of the pattern. */
  lemma AsLenLayout(s: string, i: nat)
    requires AsLen(s, i) > 0
    ensures exists q :: AsLayout(s, i, q, AsLen(s, i))
  {
    var q := i + 2 + RunAt(s, i + 2, Space);
    RunAtSlice(s, i + 2, Space);
    RunAtSlice(s, q, Word);
    assert AsLayout(s, i, q, AsLen(s, i));
  }

  /** `AS`, whitespace over `[i + 2, q)` and a word over `[q, r)` that is
      not continued form one match, ending at `r`. */
  lemma AsLenIndex(s: string, i: nat, q: nat, r: nat)
    requires LitAt(s, i, "AS") && i + 2 < q < r <= |s|
    requires AllIn(s[i + 2..q], Space) && AllIn(s[q..r], Word)
    requires r == |s| || !IsWordChar(s[r])
    ensures AsLen(s, i) == r - i
  {
    SpacedRunRuns(s, i + 2, q, r, Word);
    AsLenOfRuns(s, i, q, r);
  }

  lemma AsLenOfRuns(s: string, i: nat, q: nat, r: nat)
    requires LitAt(s, i, "AS") && i + 2 < q < r
    requires RunAt(s, i + 2, Space) == q - (i + 2) && RunAt(s, q, Word) == r - q
    ensures AsLen(s, i) == r - i
  {
  }

  /** `m.group().upper()` for the match at `i`. */
  function UpperMatch(s: string, i: nat): string {
    if i + AsLen(s, i) <= |s| then Upper(s[i..i + AsLen(s, i)]) else ""
  }

  /** Step 2 of `optimize_sql`: the text of every `AS` match is upper-cased.
      Only the case of letters changes, and without `AS` nothing does. */
  function UpperAliases(s: string): (r: string)
    ensures CaseOnly(r, s)
    ensures !Contains(s, "AS") ==> r == s
  {
    forall k | 0 <= k < |s| && MatchesAt(AsLen, s, k)
      ensures CaseOnly(UpperMatch(s, k), s[k..k + AsLen(s, k)])
    {
      UpperIsCaseOnly(s[k..k + AsLen(s, k)]);
    }
    SubFromCaseOnly(s, AsLen, UpperMatch, 0);
    assert s[0..] == s;
    forall k | 0 <= k < |s| ensures MatchesAt(AsLen, s, k) ==> Contains(s, "AS") {
      if MatchesAt(AsLen, s, k) {
        assert LitAt(s, k, "AS");
      }
    }
    if !Contains(s, "AS") then
      SubNoMatch(s, AsLen, UpperMatch);
      Sub(s, AsLen, UpperMatch)
    else Sub(s, AsLen, UpperMatch)
  }

  lemma UpperIsCaseOnly(t: string)
    ensures CaseOnly(Upper(t), t)
  {
  }

  /** Upper-casing a match keeps its length. */
  lemma UpperMatchKeepsLength(s: string)
    ensures KeepsLength(s, AsLen, UpperMatch)
  {
  }

  /** A character that lies inside no `AS` match keeps its case: a
      lower-case `as x` stays as it is wherever else `AS` occurs. */
  lemma UpperAliasesKeeps(s: string, k: nat)
    requires k < |s|
    requires forall j :: 0 <= j <= k && MatchesAt(AsLen, s, j) ==> j + AsLen(s, j) <= k
    ensures UpperAliases(s)[k] == s[k]
  {
    UpperMatchKeepsLength(s);
    SubKeeps(s, AsLen, UpperMatch, k);
  }

  /** Every match the scan reaches, in particular the leftmost one, is
      upper-cased in place. */
  lemma UpperAliasesAt(s: string, i: nat)
    requires MatchesAt(AsLen, s, i)
    requires forall j :: 0 <= j < i && MatchesAt(AsLen, s, j) ==> j + AsLen(s, j) <= i
    ensures UpperAliases(s)[i..i + AsLen(s, i)] == Upper(s[i..i + AsLen(s, i)])
  {
    UpperMatchKeepsLength(s);
    SubReplacesAt(s, AsLen, UpperMatch, i);
  }

  // ---------------------------------------------------------------------
  // Step 3: ORDER BY\s+\w+\s*(ASC|DESC)?, deleted

  /** `\s+` followed by a run of `cls` (`\s+\w+`, `\s+\d+`) at `p`: the
      length of both runs, or 0 when either is empty. */
  function SpacedRun(s: string, p: nat, cls: CharClass): (n: nat)
    ensures n > 0 ==> p + n <= |s|
  {
    var a := RunAt(s, p, Space);
    var w := RunAt(s, p + a, cls);
    if a == 0 || w == 0 then 0 else a + w
  }

  /** A `SpacedRun` match as slices: whitespace over `[p, q)` and a run of
      `cls` over `[q, p + n)` that is not continued. */
  lemma SpacedRunLayout(s: string, p: nat, q: nat, e: nat, cls: CharClass)
    requires q == p + RunAt(s, p, Space) && e == p + SpacedRun(s, p, cls) && e > p
    ensures p < q < e <= |s| && AllIn(s[p..q], Space) && AllIn(s[q..e], cls)
    ensures e == |s| || !In(s[e], cls)
  {
    RunAtSlice(s, p, Space);
    RunAtSlice(s, q, cls);
  }

  /** Whitespace over `[p, q)` and a run of `cls` over `[q, r)` that is not
      continued form one match. */
  lemma SpacedRunIndex(s: string, p: nat, q: nat, r: nat, cls: CharClass)
    requires cls != Space && p < q < r <= |s|
    requires AllIn(s[p..q], Space) && AllIn(s[q..r], cls)
    requires r == |s| || !In(s[r], cls)
    ensures SpacedRun(s, p, cls) == r - p
  {
    SpacedRunRuns(s, p, q, r, cls);
    SpacedRunOfRuns(s, p, q, r, cls);
  }

  lemma SpacedRunRuns(s: string, p: nat, q: nat, r: nat, cls: CharClass)
    requires cls != Space && p <= q < r <= |s|
    requires AllIn(s[p..q], Space) && AllIn(s[q..r], cls)
    requires r == |s| || !In(s[r], cls)
    ensures RunAt(s, p, Space) == q - p && RunAt(s, q, cls) == r - q
  {
    var c := s[q..r][0];
    ClassNotSpace(c, cls);
    RunAtOfSlice(s, p, q, Space);
    RunAtOfSlice(s, q, r, cls);
  }

  lemma SpacedRunOfRuns(s: string, p: nat, q: nat, r: nat, cls: CharClass)
    requires p < q < r && RunAt(s, p, Space) == q - p && RunAt(s, q, cls) == r - q
    ensures SpacedRun(s, p, cls) == r - p
  {
  }

  lemma SpaceNotWord(c: char)
    requires In(c, Space)
    ensures !In(c, Word)
  {
  }

  lemma ClassNotSpace(c: char, cls: CharClass)
    requires cls != Space && In(c, cls)
    ensures !In(c, Space)
  {
  }

  /** The layout of an `ORDER BY` match of length `n` at `i`: `ORDER BY`,
      whitespace over `[i + 8, q)`, a word over `[q, r)` that is not
      continued, whitespace over `[r, e)` that is not continued, and then
      `ASC`, `DESC` or nothing up to `i + n`. */
  predicate OrderByLayout(s: string, i: nat, q: nat, r: nat, e: nat, n: nat) {
    LitAt(s, i, "ORDER BY") && i + 8 < q < r <= e <= |s| &&
    AllIn(s[i + 8..q], Space) && AllIn(s[q..r], Word) && AllIn(s[r..e], Space) &&
    (r == |s| || !IsWordChar(s[r])) && (e == |s| || !IsSpaceChar(s[e])) &&
    i + n == e + (if LitAt(s, e, "ASC") then 3 else if LitAt(s, e, "DESC") then 4 else 0)
  }

  /** `ORDER BY\s+\w+\s*(ASC|DESC)?` matched at position `i` of `s`. */
  function OrderByLen(s: string, i: nat): (n: nat)
    ensures n > 0 ==> i + n <= |s| && LitAt(s, i, "ORDER BY")
  {
    if !LitAt(s, i, "ORDER BY") then 0
    else
      var m := SpacedRun(s, i + 8, Word);
      if m == 0 then 0
      else
        var b := RunAt(s, i + 8 + m, Space);
        var k := i + 8 + m + b;
        var dir := if LitAt(s, k, "ASC") then 3 else if LitAt(s, k, "DESC") then 4 else 0;
        8 + m + b + dir
  }

  /** Every match has the layout of the pattern. */
  lemma OrderByLenLayout(s: string, i: nat)
    requires OrderByLen(s, i) > 0
    ensures exists q, r, e :: OrderByLayout(s, i, q, r, e, OrderByLen(s, i))
  {
    var r := i + 8 + SpacedRun(s, i + 8, Word);
    var e := r + RunAt(s, r, Space);
    OrderByShape(s, i, i + 8 + RunAt(s, i + 8, Space), r, e, OrderByLen(s, i));
  }

  lemma OrderByShape(s: string, i: nat, q: nat, r: nat, e: nat, n: nat)
    requires LitAt(s, i, "ORDER BY") && SpacedRun(s, i + 8, Word) > 0
    requires q == i + 8 + RunAt(s, i + 8, Space) && r == i + 8 + SpacedRun(s, i + 8, Word)
    requires e == r + RunAt(s, r, Space)
    requires n == e - i + (if LitAt(s, e, "ASC") then 3 else if LitAt(s, e, "DESC") then 4 else 0)
    ensures OrderByLayout(s, i, q, r, e, n)
  {
    SpacedRunLayout(s, i + 8, q, r, Word);
    RunAtSlice(s, r, Space);
    OrderByOfParts(s, i, q, r, e, n);
  }

  lemma OrderByOfParts(s: string, i: nat, q: nat, r: nat, e: nat, n: nat)
    requires LitAt(s, i, "ORDER BY") && i + 8 < q < r <= e <= |s|
    requires AllIn(s[i + 8..q], Space) && AllIn(s[q..r], Word) && AllIn(s[r..e], Space)
    requires (r == |s| || !IsWordChar(s[r])) && (e == |s| || !IsSpaceChar(s[e]))
    requires n == e - i + (if LitAt(s, e, "ASC") then 3 else if LitAt(s, e, "DESC") then 4 else 0)
    ensures OrderByLayout(s, i, q, r, e, n)
  {
  }

  /** `ORDER BY`, whitespace over `[i + 8, q)`, a word over `[q, r)` that is
      not continued and whitespace over `[r, e)` form one match; an `ASC`
      or `DESC` at `e` belongs to it. */
  lemma OrderByLenIndex(s: string, i: nat, q: nat, r: nat, e: nat)
    requires LitAt(s, i, "ORDER BY") && i + 8 < q < r <= e <= |s|
    requires AllIn(s[i + 8..q], Space) && AllIn(s[q..r], Word) && AllIn(s[r..e], Space)
    requires e == |s| || !IsSpaceChar(s[e])
    requires e == r ==> r == |s| || !IsWordChar(s[r])
    ensures OrderByLen(s, i) == e - i + (if LitAt(s, e, "ASC") then 3 else if LitAt(s, e, "DESC") then 4 else 0)
  {
    OrderByRuns(s, i, q, r, e);
    OrderByLenOfRuns(s, i, r, e);
  }

  lemma OrderByRuns(s: string, i: nat, q: nat, r: nat, e: nat)
    requires i + 8 < q < r <= e <= |s|
    requires AllIn(s[i + 8..q], Space) && AllIn(s[q..r], Word) && AllIn(s[r..e], Space)
    requires e == |s| || !IsSpaceChar(s[e])
    requires e == r ==> r == |s| || !IsWordChar(s[r])
    ensures SpacedRun(s, i + 8, Word) == r - (i + 8) && RunAt(s, r, Space) == e - r
  {
    if r < e {
      assert s[r] == s[r..e][0];
      SpaceNotWord(s[r]);
    }
    SpacedRunIndex(s, i + 8, q, r, Word);
    RunAtOfSlice(s, r, e, Space);
  }

  /** The length of an `ORDER BY` match from the runs that make it up. */
  lemma OrderByLenOfRuns(s: string, i: nat, r: nat, e: nat)
    requires LitAt(s, i, "ORDER BY") && i + 8 < r <= e
    requires SpacedRun(s, i + 8, Word) == r - (i + 8) && RunAt(s, r, Space) == e - r
    ensures OrderByLen(s, i) == e - i + (if LitAt(s, e, "ASC") then 3 else if LitAt(s, e, "DESC") then 4 else 0)
  {
  }

  /** Step 3 of `optimize_sql`: when `ORDER BY` occurs, every match is
      deleted. Text is only ever removed, and the `in` test in front of the
      substitution does not change the outcome. */
  function DropOrderBy(s: string): (r: string)
    ensures IsSubsequence(r, s)
    ensures r == Sub(s, OrderByLen, Erase)
  {
    forall k | 0 <= k < |s| ensures MatchesAt(OrderByLen, s, k) ==> Contains(s, "ORDER BY") {
      if MatchesAt(OrderByLen, s, k) {
        assert LitAt(s, k, "ORDER BY");
      }
    }
    SubEraseIsSubsequence(s, OrderByLen, 0);
    assert s[0..] == s;
    if Contains(s, "ORDER BY") then Sub(s, OrderByLen, Erase)
    else
      SubNoMatch(s, OrderByLen, Erase);
      SubsequenceRefl(s);
      s
  }

  // ---------------------------------------------------------------------
  // Step 4: LIMIT\s+\d+\s+OFFSET\s+\d+, deleted

  /** The layout of a `LIMIT … OFFSET …` match of length `n` at `i`:
      `LIMIT`, whitespace over `[i + 5, p)`, digits over `[p, q)` and the
      `OFFSET` tail from `q` on. */
  predicate LimitOffsetLayout(s: string, i: nat, p: nat, q: nat, o: nat, r: nat, n: nat) {
    LitAt(s, i, "LIMIT") && i + 5 < p < q < i + n <= |s| &&
    AllIn(s[i + 5..p], Space) && AllIn(s[p..q], Digit) &&
    OffsetLayout(s, q, o, r, i + n - q)
  }

  /** The layout of an `OFFSET` tail of length `n` at `p`: whitespace over
      `[p, o)`, `OFFSET` at `o`, whitespace over `[o + 6, r)` and digits
      over `[r, p + n)` that are not continued. */
  predicate OffsetLayout(s: string, p: nat, o: nat, r: nat, n: nat) {
    p < o && LitAt(s, o, "OFFSET") && o + 6 < r < p + n <= |s| &&
    AllIn(s[p..o], Space) && AllIn(s[o + 6..r], Space) && AllIn(s[r..p + n], Digit) &&
    (p + n == |s| || !IsDigitChar(s[p + n]))
  }

  /** `LIMIT\s+\d+\s+OFFSET\s+\d+` matched at position `i` of `s`. */
  function LimitOffsetLen(s: string, i: nat): (n: nat)
    ensures n > 0 ==> i + n <= |s| && LitAt(s, i, "LIMIT") && Contains(s, "OFFSET")
  {
    if !LitAt(s, i, "LIMIT") then 0
    else
      var m := SpacedRun(s, i + 5, Digit);
      var t := OffsetLen(s, i + 5 + m);
      if m == 0 || t == 0 then 0 else 5 + m + t
  }

  /** Every match has the layout of the pattern. */
  lemma LimitOffsetLenLayout(s: string, i: nat)
    requires LimitOffsetLen(s, i) > 0
    ensures exists p, q, o, r :: LimitOffsetLayout(s, i, p, q, o, r, LimitOffsetLen(s, i))
  {
    LimitOffsetLenParts(s, i);
    var q := i + 5 + SpacedRun(s, i + 5, Digit);
    var o := q + RunAt(s, q, Space);
    LimitOffsetShape(s, i, i + 5 + RunAt(s, i + 5, Space), q, o, o + 6 + RunAt(s, o + 6, Space), LimitOffsetLen(s, i));
  }

  lemma LimitOffsetLenParts(s: string, i: nat)
    requires LimitOffsetLen(s, i) > 0
    ensures LitAt(s, i, "LIMIT") && SpacedRun(s, i + 5, Digit) > 0
    ensures var q := i + 5 + SpacedRun(s, i + 5, Digit);
      OffsetLen(s, q) > 0 && LimitOffsetLen(s, i) == q - i + OffsetLen(s, q)
  {
  }

  lemma LimitOffsetShape(s: string, i: nat, p: nat, q: nat, o: nat, r: nat, n: nat)
    requires LitAt(s, i, "LIMIT") && SpacedRun(s, i + 5, Digit) > 0
    requires p == i + 5 + RunAt(s, i + 5, Space) && q == i + 5 + SpacedRun(s, i + 5, Digit)
    requires OffsetLen(s, q) > 0 && o == q + RunAt(s, q, Space) && r == o + 6 + RunAt(s, o + 6, Space)
    requires n == q - i + OffsetLen(s, q)
    ensures LimitOffsetLayout(s, i, p, q, o, r, n)
    ensures exists p, q, o, r :: LimitOffsetLayout(s, i, p, q, o, r, n)
  {
    OffsetLenParts(s, q);
    OffsetShape(s, q, o, r, OffsetLen(s, q));
    SpacedRunLayout(s, i + 5, p, q, Digit);
    LimitOffsetOfParts(s, i, p, q, o, r, n);
  }

  lemma LimitOffsetOfParts(s: string, i: nat, p: nat, q: nat, o: nat, r: nat, n: nat)
    requires LitAt(s, i, "LIMIT") && i + 5 < p < q <= |s|
    requires AllIn(s[i + 5..p], Space) && AllIn(s[p..q], Digit)
    requires q < i + n && OffsetLayout(s, q, o, r, i + n - q)
    ensures LimitOffsetLayout(s, i, p, q, o, r, n)
  {
  }

  /** The rest of a match after `LIMIT\s+\d+`, at `p`: `\s+OFFSET\s+\d+`. */
  function OffsetLen(s: string, p: nat): (n: nat)
    ensures n > 0 ==> p + n <= |s| && Contains(s, "OFFSET")
  {
    var b := RunAt(s, p, Space);
    if b == 0 || !LitAt(s, p + b, "OFFSET") then 0
    else
      var k := SpacedRun(s, p + b + 6, Digit);
      if k == 0 then 0
      else
        assert p + b <= |s| && LitAt(s, p + b, "OFFSET");
        b + 6 + k
  }

  /** Every match has the layout of the pattern. */
  lemma OffsetLenLayout(s: string, p: nat)
    requires OffsetLen(s, p) > 0
    ensures exists o, r :: OffsetLayout(s, p, o, r, OffsetLen(s, p))
  {
    OffsetLenParts(s, p);
    var o := p + RunAt(s, p, Space);
    OffsetShape(s, p, o, o + 6 + RunAt(s, o + 6, Space), OffsetLen(s, p));
  }

  lemma OffsetLenParts(s: string, p: nat)
    requires OffsetLen(s, p) > 0
    ensures var o := p + RunAt(s, p, Space);
      o > p && LitAt(s, o, "OFFSET") && SpacedRun(s, o + 6, Digit) > 0 &&
      OffsetLen(s, p) == o - p + 6 + SpacedRun(s, o + 6, Digit)
  {
  }

  lemma OffsetShape(s: string, p: nat, o: nat, r: nat, n: nat)
    requires o == p + RunAt(s, p, Space) && o > p && LitAt(s, o, "OFFSET")
    requires r == o + 6 + RunAt(s, o + 6, Space) && n == o - p + 6 + SpacedRun(s, o + 6, Digit) && n > o - p + 6
    ensures OffsetLayout(s, p, o, r, n)
  {
    RunAtSlice(s, p, Space);
    SpacedRunLayout(s, o + 6, r, p + n, Digit);
  }

  /** `LIMIT`, whitespace over `[i + 5, p)`, digits over `[p, q)`,
      whitespace over `[q, o)`, `OFFSET` at `o`, whitespace over `[o + 6, r)`
      and digits over `[r, t)` that are not continued form one match. */
  lemma LimitOffsetLenIndex(s: string, i: nat, p: nat, q: nat, o: nat, r: nat, t: nat)
    requires LitAt(s, i, "LIMIT") && i + 5 < p < q < o && LitAt(s, o, "OFFSET") && o + 6 < r < t <= |s|
    requires AllIn(s[i + 5..p], Space) && AllIn(s[p..q], Digit) && AllIn(s[q..o], Space)
    requires AllIn(s[o + 6..r], Space) && AllIn(s[r..t], Digit)
    requires t == |s| || !IsDigitChar(s[t])
    ensures LimitOffsetLen(s, i) == t - i
  {
    LimitHalfRuns(s, i, p, q, o);
    OffsetHalfRuns(s, q, o, r, t);
    LimitOffsetLenOfRuns(s, i, q, t);
  }

  lemma LimitHalfRuns(s: string, i: nat, p: nat, q: nat, o: nat)
    requires i + 5 < p < q < o && LitAt(s, o, "OFFSET")
    requires AllIn(s[i + 5..p], Space) && AllIn(s[p..q], Digit) && AllIn(s[q..o], Space)
    ensures SpacedRun(s, i + 5, Digit) == q - (i + 5) && RunAt(s, q, Space) == o - q
  {
    assert In(s[q..o][0], Space);
    CharOfOccurrence(s, "OFFSET", o, 0);
    SpacedRunIndex(s, i + 5, p, q, Digit);
    RunAtOfSlice(s, q, o, Space);
  }

  lemma OffsetHalfRuns(s: string, q: nat, o: nat, r: nat, t: nat)
    requires q < o && RunAt(s, q, Space) == o - q && LitAt(s, o, "OFFSET") && o + 6 < r < t <= |s|
    requires AllIn(s[o + 6..r], Space) && AllIn(s[r..t], Digit)
    requires t == |s| || !IsDigitChar(s[t])
    ensures OffsetLen(s, q) == t - q
  {
    SpacedRunIndex(s, o + 6, r, t, Digit);
    OffsetLenOfRuns(s, q, o, t);
  }

  /** The length of a `LIMIT … OFFSET …` match from its two halves. */
  lemma LimitOffsetLenOfRuns(s: string, i: nat, q: nat, t: nat)
    requires LitAt(s, i, "LIMIT") && i + 5 < q < t
    requires SpacedRun(s, i + 5, Digit) == q - (i + 5) && OffsetLen(s, q) == t - q
    ensures LimitOffsetLen(s, i) == t - i
  {
  }

  lemma OffsetLenOfRuns(s: string, q: nat, o: nat, t: nat)
    requires q < o && RunAt(s, q, Space) == o - q && LitAt(s, o, "OFFSET")
    requires o + 6 < t && SpacedRun(s, o + 6, Digit) == t - (o + 6)
    ensures OffsetLen(s, q) == t - q
  {
    assert q + RunAt(s, q, Space) == o;
  }

  /** Step 4 of `optimize_sql`: when both `LIMIT` and `OFFSET` occur, every
      match is deleted. Text is only ever removed, and the `in` tests in
      front of the substitution do not change the outcome. */
  function DropLimitOffset(s: string): (r: string)
    ensures IsSubsequence(r, s)
    ensures r == Sub(s, LimitOffsetLen, Erase)
  {
    forall k | 0 <= k < |s|
      ensures MatchesAt(LimitOffsetLen, s, k) ==> Contains(s, "LIMIT") && Contains(s, "OFFSET")
    {
      if MatchesAt(LimitOffsetLen, s, k) {
        assert LitAt(s, k, "LIMIT");
      }
    }
    SubEraseIsSubsequence(s, LimitOffsetLen, 0);
    assert s[0..] == s;
    if Contains(s, "LIMIT") && Contains(s, "OFFSET") then Sub(s, LimitOffsetLen, Erase)
    else
      SubNoMatch(s, LimitOffsetLen, Erase);
      SubsequenceRefl(s);
      s
  }

  // ---------------------------------------------------------------------
  // Step 5: ORDER BY on the first dotted name, after a GROUP BY

  /** The clause appended for the dotted name `d`. */
  function OrderByClause(d: DottedName): string {
    "\nORDER BY " + Dotted(d)
  }

  /** `d` is the dotted name `re.search` finds: the match at `i`, with no
      match to its left. */
  predicate FirstDotted(s: string, i: nat, d: DottedName) {
    DottedAt(s, i) == Some(d) && forall k :: 0 <= k < i ==> DottedAt(s, k).None?
  }

  /** A dotted match is non-empty, so the matcher matches exactly where
      `DottedAt` finds a name. */
  lemma DottedMatch(s: string, i: nat)
    ensures MatchesAt(DottedLen, s, i) <==> DottedAt(s, i).Some?
  {
  }

  /** Step 5 of `optimize_sql`: with `GROUP BY` and no `ORDER BY`, the first
      `table.column` found anywhere in the query is appended as the sort key;
      otherwise the query is returned as it is. */
  function AppendOrderBy(s: string): (r: string)
    ensures r != s <==> Contains(s, "GROUP BY") && !Contains(s, "ORDER BY") &&
                        exists i :: 0 <= i < |s| && DottedAt(s, i).Some?
    ensures r != s ==> exists i, d :: 0 <= i < |s| && FirstDotted(s, i, d) && r == s + OrderByClause(d)
  {
    if Contains(s, "GROUP BY") && !Contains(s, "ORDER BY") then
      match Search(s, DottedLen)
      case Some(i) =>
        DottedMatch(s, i);
        var d := DottedAt(s, i).value;
        forall k | 0 <= k < i ensures DottedAt(s, k).None? {
          DottedMatch(s, k);
        }
        assert FirstDotted(s, i, d);
        assert |s + OrderByClause(d)| > |s|;
        s + OrderByClause(d)
      case None =>
        forall k | 0 <= k < |s| ensures DottedAt(s, k).None? {
          DottedMatch(s, k);
        }
        s
    else s
  }

  // ---------------------------------------------------------------------
  // The whole rewriter

  /** `optimize_sql(sql_query)` with the STRFTIME replacement as intended. */
  function OptimizeSql(s: string): string {
    AppendOrderBy(DropLimitOffset(DropOrderBy(UpperAliases(ReplaceStrftime(s)))))
  }

  /** `optimize_sql(sql_query)` as written in the source. */
  function OptimizeSqlAsWritten(s: string): string {
    AppendOrderBy(DropLimitOffset(DropOrderBy(UpperAliases(ReplaceStrftimeAsWritten(s)))))
  }

  // ---------------------------------------------------------------------
  // Properties

  /** A word has no character outside the word class. */
  lemma WordLacks(t: string, c: char)
    requires IsWord(t) && !IsWordChar(c)
    ensures c !in t
  {
    AllInIndex(t, Word);
  }

  /** As intended, step 1 never introduces a backslash. */
  lemma ReplaceStrftimeNoBackslash(s: string)
    ensures '\\' !in s ==> '\\' !in ReplaceStrftime(s)
  {
    if '\\' !in s {
      forall k | 0 <= k < |s| && MatchesAt(StrftimeLen, s, k)
        ensures '\\' !in StrftimeReplacement(s, k)
      {
        var f := StrftimeAt(s, k).value;
        WordLacks(f.name.table, '\\');
        WordLacks(f.name.column, '\\');
      }
      SubFromAvoids(s, StrftimeLen, StrftimeReplacement, 0, '\\');
    }
  }

  /** As written, step 1 puts a backslash into the query wherever it
      rewrites a STRFTIME call. */
  lemma ReplaceStrftimeAsWrittenBackslash(s: string)
    ensures Search(s, StrftimeLen).Some? ==> '\\' in ReplaceStrftimeAsWritten(s)
  {
    if Search(s, StrftimeLen).Some? {
      var i := Search(s, StrftimeLen).value;
      var head := StrftimeReplacementAsWritten(s, i);
      var rest := SubFrom(s, StrftimeLen, StrftimeReplacementAsWritten, i + StrftimeLen(s, i));
      SubAtFirstMatch(s, StrftimeLen, StrftimeReplacementAsWritten, i);
      assert head[11] == '\\';
      assert (s[..i] + head + rest)[i + 11] == head[11];
    }
  }

  /** The two versions of step 1 differ on every query that has a STRFTIME
      call to rewrite and no backslash of its own. */
  lemma StrftimeVersionsDiffer(s: string)
    requires '\\' !in s && Search(s, StrftimeLen).Some?
    ensures ReplaceStrftimeAsWritten(s) != ReplaceStrftime(s)
  {
    ReplaceStrftimeNoBackslash(s);
    ReplaceStrftimeAsWrittenBackslash(s);
  }

  /** A query that already has an `ORDER BY` is left alone by step 5. */
  lemma AppendOrderByKeeps(r: string)
    requires Contains(r, "ORDER BY")
    ensures AppendOrderBy(r) == r
  {
  }

  lemma ClauseHasOrderBy(s: string, d: DottedName)
    ensures Contains(s + OrderByClause(d), "ORDER BY")
  {
    var r := s + OrderByClause(d);
    assert r[|s| + 1..|s| + 9] == "ORDER BY";
    assert LitAt(r, |s| + 1, "ORDER BY");
  }

  /** Once step 5 has appended its clause the query has an `ORDER BY`, so a
      second application changes nothing. */
  lemma AppendOrderByIdempotent(s: string)
    ensures AppendOrderBy(AppendOrderBy(s)) == AppendOrderBy(s)
  {
    var r := AppendOrderBy(s);
    if r != s {
      var i, d :| 0 <= i < |s| && FirstDotted(s, i, d) && r == s + OrderByClause(d);
      ClauseHasOrderBy(s, d);
      AppendOrderByKeeps(r);
    }
  }

  /** Without a double quote in the query the two versions of the rewriter agree. */
  lemma OptimizeSqlVersionsAgree(s: string)
    ensures '"' !in s ==> OptimizeSqlAsWritten(s) == OptimizeSql(s)
  {
  }
}
