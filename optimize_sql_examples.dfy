/** `optimize_sql` on particular queries: what each rewrite does to them,
    including the behaviours the patterns give that a reader might not
    expect. */
module SqlOptimizerExamples {
  import opened Wrappers
  import opened PyStr
  import opened PyRe
  import opened SqlOptimizer

  // ---------------------------------------------------------------------
  // Step 1 on a whole STRFTIME call

  /** `STRFTIME("%Y",`, the whitespace `sp`, the dotted name `d` and `)`. */
  function StrftimeCall(sp: string, d: DottedName): string {
    StrftimeHead + sp + Dotted(d) + ")"
  }

  lemma StrftimeCallParts(sp: string, d: DottedName)
    ensures var s := StrftimeCall(sp, d); var a := |StrftimeHead| + |sp|;
      |StrftimeHead| == 14 && s[9] == '"' &&
      LitAt(s, 0, StrftimeHead) && LitAt(s, |StrftimeHead|, sp) && LitAt(s, a, Dotted(d)) &&
      |s| == a + |Dotted(d)| + 1 && s[|s| - 1] == ')'
  {
    var s := StrftimeCall(sp, d);
    var h := |StrftimeHead|;
    var a := h + |sp|;
    assert s[0..h] == StrftimeHead;
    assert s[h..a] == sp;
    assert s[a..a + |Dotted(d)|] == Dotted(d);
  }

  /** A dotted name at `a` of `s` that is not continued is what `(\w+)\.(\w+)`
      matches there. */
  lemma DottedAtName(s: string, a: nat, d: DottedName)
    requires IsWord(d.table) && IsWord(d.column) && LitAt(s, a, Dotted(d))
    requires a + |Dotted(d)| == |s| || !IsWordChar(s[a + |Dotted(d)|])
    ensures DottedAt(s, a) == Some(d) && IsWordChar(s[a])
  {
    var t, c := d.table, d.column;
    DottedNameChars(s, a, d);
    DottedAtIndex(s, a, |t|, |c|);
  }

  /** The characters of an occurrence of `t.c`, one part at a time. */
  lemma DottedNameChars(s: string, a: nat, d: DottedName)
    requires IsWord(d.table) && IsWord(d.column) && LitAt(s, a, Dotted(d))
    requires a + |Dotted(d)| == |s| || !IsWordChar(s[a + |Dotted(d)|])
    ensures var t, c := d.table, d.column; var e := a + |t| + 1;
      0 < |t| && 0 < |c| && e + |c| <= |s| && s[a + |t|] == '.' &&
      (forall k :: a <= k < a + |t| ==> IsWordChar(s[k])) &&
      (forall k :: e <= k < e + |c| ==> IsWordChar(s[k])) &&
      (e + |c| == |s| || !IsWordChar(s[e + |c|])) &&
      DottedName(s[a..a + |t|], s[e..e + |c|]) == d
  {
    var t, c := d.table, d.column;
    LitAtSplit(s, a, t + ".", c);
    LitAtSplit(s, a, t, ".");
    CharOfOccurrence(s, ".", a + |t|, 0);
    WordRunAt(s, a, t);
    WordRunAt(s, a + |t| + 1, c);
  }

  /** The whole call is one match, with `d` as its groups. */
  lemma StrftimeCallMatch(sp: string, d: DottedName)
    requires AllIn(sp, Space) && IsWord(d.table) && IsWord(d.column)
    ensures StrftimeAt(StrftimeCall(sp, d), 0) == Some(Found(|StrftimeCall(sp, d)|, d))
  {
    StrftimeCallParts(sp, d);
    StrftimeMatchOf(StrftimeCall(sp, d), sp, d);
  }

  /** A text made of `STRFTIME("%Y",`, whitespace, a dotted name and `)` is
      one match. */
  lemma StrftimeMatchOf(s: string, sp: string, d: DottedName)
    requires AllIn(sp, Space) && IsWord(d.table) && IsWord(d.column)
    requires LitAt(s, 0, StrftimeHead) && LitAt(s, |StrftimeHead|, sp)
    requires LitAt(s, |StrftimeHead| + |sp|, Dotted(d))
    requires |s| == |StrftimeHead| + |sp| + |Dotted(d)| + 1 && s[|s| - 1] == ')'
    ensures StrftimeAt(s, 0) == Some(Found(|s|, d))
  {
    StrftimeSpaceRun(s, sp, d);
    StrftimeArgsOf(s, sp, d);
    StrftimeAtIs(s, |sp|, Found(|s|, d));
  }

  /** The whitespace after the head stops where the dotted name starts. */
  lemma StrftimeSpaceRun(s: string, sp: string, d: DottedName)
    requires AllIn(sp, Space) && IsWord(d.table) && IsWord(d.column)
    requires LitAt(s, |StrftimeHead|, sp) && LitAt(s, |StrftimeHead| + |sp|, Dotted(d))
    requires |s| == |StrftimeHead| + |sp| + |Dotted(d)| + 1 && s[|s| - 1] == ')'
    ensures RunAt(s, |StrftimeHead|, Space) == |sp|
  {
    var a := |StrftimeHead| + |sp|;
    DottedStartsWithWord(s, a, d);
    WordNotSpace(s[a]);
    SpaceRunAt(s, |StrftimeHead|, sp);
  }

  /** After the whitespace come the dotted name and `)`, which end the text. */
  lemma StrftimeArgsOf(s: string, sp: string, d: DottedName)
    requires IsWord(d.table) && IsWord(d.column)
    requires LitAt(s, |StrftimeHead| + |sp|, Dotted(d))
    requires |s| == |StrftimeHead| + |sp| + |Dotted(d)| + 1 && s[|s| - 1] == ')'
    ensures StrftimeArgs(s, 0, |StrftimeHead| + |sp|) == Some(Found(|s|, d))
  {
    var m := |StrftimeHead| + |sp|;
    DottedAtName(s, 0 + m, d);
    StrftimeArgsIs(s, 0, m, d);
  }

  /** A match from its head, the length of the whitespace run after it and
      what follows. */
  lemma StrftimeAtIs(s: string, n: nat, f: Found)
    requires LitAt(s, 0, StrftimeHead) && RunAt(s, |StrftimeHead|, Space) == n
    requires StrftimeArgs(s, 0, |StrftimeHead| + n) == Some(f)
    ensures StrftimeAt(s, 0) == Some(f)
  {
    StrftimeAtHead(s, n);
  }

  lemma StrftimeAtHead(s: string, n: nat)
    requires LitAt(s, 0, StrftimeHead) && RunAt(s, |StrftimeHead|, Space) == n
    ensures StrftimeAt(s, 0) == StrftimeArgs(s, 0, |StrftimeHead| + n)
  {
  }

  lemma StrftimeArgsIs(s: string, i: nat, m: nat, d: DottedName)
    requires 0 < m && DottedAt(s, i + m) == Some(d)
    requires i + m + |Dotted(d)| < |s| && s[i + m + |Dotted(d)|] == ')'
    ensures StrftimeArgs(s, i, i + m) == Some(Found(m + |Dotted(d)| + 1, d))
  {
  }

  /** Step 1 replaces a whole call by `DATE_TRUNC('YEAR', t.c)` as intended,
      and by `DATE_TRUNC(\'YEAR\', t.c)` as written. */
  lemma StrftimeCallReplaced(sp: string, d: DottedName)
    requires AllIn(sp, Space) && IsWord(d.table) && IsWord(d.column)
    ensures ReplaceStrftime(StrftimeCall(sp, d)) == DateTrunc(d)
    ensures ReplaceStrftimeAsWritten(StrftimeCall(sp, d)) == DateTruncAsWritten(d)
  {
    var s := StrftimeCall(sp, d);
    StrftimeCallParts(sp, d);
    StrftimeCallMatch(sp, d);
    assert '"' in s;
    SubOneMatch(s, StrftimeLen, StrftimeReplacement, 0);
    SubOneMatch(s, StrftimeLen, StrftimeReplacementAsWritten, 0);
    assert s[..0] == [] && s[|s|..] == [];
  }

  /** None of the letters `S`, `B`, `L` and `G` occurs in `y`. */
  predicate Lacks(y: string) {
    forall k :: 0 <= k < |y| ==> y[k] != 'S' && y[k] != 'B' && y[k] != 'L' && y[k] != 'G'
  }

  lemma LacksConcat(a: string, b: string)
    requires Lacks(a) && Lacks(b)
    ensures Lacks(a + b)
  {
    forall k | |a| <= k < |a + b| ensures (a + b)[k] == b[k - |a|] {
    }
  }

  lemma DateTruncLacks(d: DottedName)
    requires Lacks(d.table) && Lacks(d.column)
    ensures Lacks(DateTrunc(d)) && Lacks(DateTruncAsWritten(d))
  {
    LacksConcat(d.table, ".");
    LacksConcat(d.table + ".", d.column);
    LacksConcat("DATE_TRUNC('YEAR', ", Dotted(d));
    LacksConcat("DATE_TRUNC('YEAR', " + Dotted(d), ")");
    LacksConcat("DATE_TRUNC(\\'YEAR\\', ", Dotted(d));
    LacksConcat("DATE_TRUNC(\\'YEAR\\', " + Dotted(d), ")");
  }

  /** A query that is one call `STRFTIME("%Y", t.c)` comes out of
      `optimize_sql` as `DATE_TRUNC('YEAR', t.c)` as intended, and with a
      backslash before each of its quotes as written (when the names hold
      none of `S`, `B`, `L` and `G`, so that steps 2 to 5 have nothing to do). */
  lemma StrftimeRewritten(sp: string, d: DottedName)
    requires AllIn(sp, Space) && IsWord(d.table) && IsWord(d.column)
    requires Lacks(d.table) && Lacks(d.column)
    ensures OptimizeSql(StrftimeCall(sp, d)) == DateTrunc(d)
    ensures OptimizeSqlAsWritten(StrftimeCall(sp, d)) == DateTruncAsWritten(d)
  {
    StrftimeCallReplaced(sp, d);
    DateTruncLacks(d);
    UntouchedAfterStep1(DateTrunc(d));
    UntouchedAfterStep1(DateTruncAsWritten(d));
  }

  /** A query with none of the letters `S`, `B`, `L` and `G` is left alone
      by steps 2 to 5. */
  lemma UntouchedAfterStep1(y: string)
    requires Lacks(y)
    ensures AppendOrderBy(DropLimitOffset(DropOrderBy(UpperAliases(y)))) == y
  {
    MissingCharNotContained(y, "AS", 'S');
    MissingCharNotContained(y, "ORDER BY", 'B');
    MissingCharNotContained(y, "LIMIT", 'L');
    MissingCharNotContained(y, "GROUP BY", 'G');
  }

  /** With no double quote, no `AS`, no `ORDER BY`, not both `LIMIT` and
      `OFFSET`, and no `GROUP BY`, the query comes back unchanged. */
  lemma OptimizeSqlIdentity(s: string)
    requires '"' !in s && !Contains(s, "AS") && !Contains(s, "ORDER BY")
    requires !Contains(s, "LIMIT") || !Contains(s, "OFFSET")
    requires !Contains(s, "GROUP BY")
    ensures OptimizeSql(s) == s
  {
    KeepsWithoutLimitOffset(s);
  }

  /** Without both `LIMIT` and `OFFSET` step 4 changes nothing. */
  lemma KeepsWithoutLimitOffset(s: string)
    requires !Contains(s, "LIMIT") || !Contains(s, "OFFSET")
    ensures DropLimitOffset(s) == s
  {
    forall k | 0 <= k < |s| ensures !MatchesAt(LimitOffsetLen, s, k) {
    }
    SubNoMatch(s, LimitOffsetLen, Erase);
  }

  const LimitOnly: string := "SELECT a LIMIT 5"

  /** A lone `LIMIT` is kept. */
  lemma LoneLimitKept()
    ensures DropLimitOffset(LimitOnly) == LimitOnly
  {
    MissingCharNotContained(LimitOnly, "OFFSET", 'F');
    KeepsWithoutLimitOffset(LimitOnly);
  }

  const LimitOffset: string := "LIMIT 5 OFFSET 10"

  lemma LimitOffsetMatch()
    ensures LimitOffsetLen(LimitOffset, 0) == |LimitOffset|
  {
    var s := LimitOffset;
    assert s[0..5] == "LIMIT";
    assert s[8..14] == "OFFSET";
    LimitRuns();
    OffsetRuns();
  }

  lemma LimitRuns()
    ensures RunAt(LimitOffset, 5, Space) == 1 && RunAt(LimitOffset, 6, Digit) == 1
    ensures RunAt(LimitOffset, 7, Space) == 1
  {
    RunAtIs(LimitOffset, 5, 1, Space);
    RunAtIs(LimitOffset, 6, 1, Digit);
    RunAtIs(LimitOffset, 7, 1, Space);
  }

  lemma OffsetRuns()
    ensures RunAt(LimitOffset, 14, Space) == 1 && RunAt(LimitOffset, 15, Digit) == 2
  {
    RunAtIs(LimitOffset, 14, 1, Space);
    RunAtIs(LimitOffset, 15, 2, Digit);
  }

  /** `LIMIT 5 OFFSET 10` is deleted whole. */
  lemma LimitOffsetDropped()
    ensures DropLimitOffset(LimitOffset) == ""
  {
    LimitOffsetMatch();
    SubAtFirstMatch(LimitOffset, LimitOffsetLen, Erase, 0);
  }

  /** `AS` at `i`, then the whitespace `sp` and the word `w`, which ends the
      text: one `AS` match. */
  lemma AsMatchAt(s: string, i: nat, sp: string, w: string)
    requires LitAt(s, i, "AS") && LitAt(s, i + 2, sp) && LitAt(s, i + 2 + |sp|, w)
    requires |sp| > 0 && AllIn(sp, Space) && IsWord(w) && |s| == i + 2 + |sp| + |w|
    ensures AsLen(s, i) == |s| - i
  {
    var j := i + 2;
    WordRunAt(s, j + |sp|, w);
    WordNotSpace(s[j + |sp|]);
    SpaceRunAt(s, j, sp);
  }

  lemma LitAtPrefix(s: string, i: nat, k: nat, p: string)
    requires k + |p| <= i <= |s|
    ensures LitAt(s, k, p) ==> LitAt(s[..i], k, p)
  {
    if LitAt(s, k, p) {
      assert s[..i][k..k + |p|] == s[k..k + |p|];
    }
  }

  /** No `AS` match starts before `i` when the text before `i` has no `AS`
      and `A` is at `i`. */
  lemma NoAsBefore(s: string, i: nat)
    requires i < |s| && s[i] == 'A' && !Contains(s[..i], "AS")
    ensures forall k :: 0 <= k < i ==> !MatchesAt(AsLen, s, k)
  {
    forall k | 0 <= k < i ensures !MatchesAt(AsLen, s, k) {
      CharOfOccurrence(s, "AS", k, 1);
      if k + 2 <= i {
        LitAtPrefix(s, i, k, "AS");
      }
    }
  }

  lemma FourParts(p: string, x: string, y: string, z: string)
    ensures var s := p + x + y + z;
      s[..|p|] == p && s[|p|..] == x + y + z && LitAt(s, |p|, x) && LitAt(s, |p| + |x|, y) && LitAt(s, |p| + |x| + |y|, z)
  {
    var s := p + x + y + z;
    assert s[..|p|] == p;
    assert s[|p|..] == x + y + z;
    assert s[|p|..|p| + |x|] == x;
    assert s[|p| + |x|..|p| + |x| + |y|] == y;
    assert s[|p| + |x| + |y|..|p| + |x| + |y| + |z|] == z;
  }

  /** In `p + "AS" + sp + w`, the first `AS` match is the one after `p`,
      and it runs to the end. */
  lemma AsTailMatch(p: string, sp: string, w: string)
    requires !Contains(p, "AS") && |sp| > 0 && AllIn(sp, Space) && IsWord(w)
    ensures var s := p + "AS" + sp + w;
      s[..|p|] == p && s[|p|..] == "AS" + sp + w &&
      MatchesAt(AsLen, s, |p|) && |p| + AsLen(s, |p|) == |s| &&
      (forall k :: 0 <= k < |p| ==> !MatchesAt(AsLen, s, k))
  {
    var s := p + "AS" + sp + w;
    var i := |p|;
    FourParts(p, "AS", sp, w);
    CharOfOccurrence(s, "AS", i, 0);
    AsMatchAt(s, i, sp, w);
    NoAsBefore(s, i);
  }

  /** Step 2 has no word boundary before `AS`: `AS`, whitespace and a word
      at the end of the query are upper-cased even when the `AS` ends a
      longer word (`CANVAS x` becomes `CANVAS X`). */
  lemma AsInsideWordUpperCased(p: string, sp: string, w: string)
    requires !Contains(p, "AS") && |sp| > 0 && AllIn(sp, Space) && IsWord(w)
    ensures UpperAliases(p + "AS" + sp + w) == p + Upper("AS" + sp + w)
  {
    var s := p + "AS" + sp + w;
    AsTailMatch(p, sp, w);
    UpperAliasesLastMatch(s, |p|);
  }

  /** A first match that runs to the end of the string is the only text
      step 2 upper-cases. */
  lemma UpperAliasesLastMatch(s: string, i: nat)
    requires MatchesAt(AsLen, s, i) && i + AsLen(s, i) == |s|
    requires forall k :: 0 <= k < i ==> !MatchesAt(AsLen, s, k)
    ensures UpperAliases(s) == s[..i] + Upper(s[i..])
  {
    SubAtFirstMatch(s, AsLen, UpperMatch, i);
    assert s[i..i + AsLen(s, i)] == s[i..];
    assert SubFrom(s, AsLen, UpperMatch, |s|) == [];
  }

  // ---------------------------------------------------------------------
  // Step 5 on particular queries

  /** No dotted name starts before `q` when the character before `q` is not
      a word character and no dot comes before `q`. */
  lemma NoDottedBefore(s: string, q: nat, k: nat)
    requires k < q <= |s| && !IsWordChar(s[q - 1]) && '.' !in s[..q]
    ensures DottedAt(s, k).None?
  {
    RunAtStopsAt(s, k, q - 1, Word);
    var w := RunAt(s, k, Word);
    if w > 0 {
      assert s[..q][k + w] == s[k + w];
    }
  }

  /** Step 5 appends the clause for the first dotted name. */
  lemma AppendOrderByAt(s: string, q: nat, d: DottedName)
    requires Contains(s, "GROUP BY") && !Contains(s, "ORDER BY")
    requires q < |s| && DottedAt(s, q) == Some(d)
    requires forall k :: 0 <= k < q ==> DottedAt(s, k).None?
    ensures AppendOrderBy(s) == s + OrderByClause(d)
  {
    var r := AppendOrderBy(s);
    assert r != s;
    var i, e :| 0 <= i < |s| && FirstDotted(s, i, e) && r == s + OrderByClause(e);
    assert i == q;
  }

  /** Steps 3 and 4 leave alone a query without `D` or without `I`: it has
      neither `ORDER BY` nor `LIMIT`. */
  lemma KeepsWithoutDI(s: string)
    requires 'D' !in s && 'I' !in s
    ensures DropLimitOffset(DropOrderBy(s)) == s
  {
    MissingCharNotContained(s, "ORDER BY", 'D');
    MissingCharNotContained(s, "LIMIT", 'I');
    KeepsWithoutLimitOffset(s);
  }

  /** None of `"`, `S`, `D` and `I` occurs in `s`. */
  predicate Plain(s: string) {
    forall k :: 0 <= k < |s| ==> s[k] != '"' && s[k] != 'S' && s[k] != 'D' && s[k] != 'I'
  }

  lemma PlainConcat(a: string, b: string)
    requires Plain(a) && Plain(b)
    ensures Plain(a + b)
  {
    forall k | |a| <= k < |a + b| ensures (a + b)[k] == b[k - |a|] {
    }
  }

  /** A grouped query without `"`, `S`, `D` and `I` passes steps 1 to 4
      unchanged and gets the sort key of its first dotted name. */
  lemma PlainGroupedOptimized(s: string, q: nat, d: DottedName)
    requires Plain(s) && Contains(s, "GROUP BY")
    requires q < |s| && DottedAt(s, q) == Some(d)
    requires forall k :: 0 <= k < q ==> DottedAt(s, k).None?
    ensures AppendOrderBy(s) == s + OrderByClause(d)
    ensures OptimizeSql(s) == s + OrderByClause(d)
  {
    MissingCharNotContained(s, "AS", 'S');
    KeepsWithoutDI(s);
    MissingCharNotContained(s, "ORDER BY", 'D');
    AppendOrderByAt(s, q, d);
  }

  // ---------------------------------------------------------------------
  // Step 3 on a dotted sort key

  /** A word at `i` of `s` that is not continued is the run `\w+` matches. */
  lemma WordRunAt(s: string, i: nat, t: string)
    requires IsWord(t) && LitAt(s, i, t)
    requires i + |t| == |s| || !IsWordChar(s[i + |t|])
    ensures RunAt(s, i, Word) == |t|
    ensures forall k :: i <= k < i + |t| ==> IsWordChar(s[k])
  {
    AllInIndex(t, Word);
    forall k | i <= k < i + |t| ensures IsWordChar(s[k]) {
      CharOfOccurrence(s, t, i, k - i);
    }
    RunAtIs(s, i, |t|, Word);
  }

  /** After `ORDER BY ` and a table name, `\w+` stops at the dot: the match
      is `ORDER BY` and the table name, nothing more. */
  lemma OrderByStopsAtDot(s: string, i: nat, t: string)
    requires IsWord(t) && LitAt(s, i, "ORDER BY") && i + 9 + |t| < |s|
    requires s[i + 8] == ' ' && LitAt(s, i + 9, t) && s[i + 9 + |t|] == '.'
    ensures OrderByLen(s, i) == 9 + |t|
  {
    SortKeyRuns(s, i, t);
    var e := i + 9 + |t|;
    NoDirectionAtDot(s, e);
    assert SpacedRun(s, i + 8, Word) == 1 + |t|;
    OrderByLenOfRuns(s, i, e, e);
  }

  lemma SortKeyRuns(s: string, i: nat, t: string)
    requires IsWord(t) && i + 9 + |t| < |s|
    requires s[i + 8] == ' ' && LitAt(s, i + 9, t) && s[i + 9 + |t|] == '.'
    ensures RunAt(s, i + 8, Space) == 1 && RunAt(s, i + 9, Word) == |t| && RunAt(s, i + 9 + |t|, Space) == 0
  {
    WordRunAt(s, i + 9, t);
    WordNotSpace(s[i + 9]);
    RunAtIs(s, i + 8, 1, Space);
    RunAtIs(s, i + 9 + |t|, 0, Space);
  }

  lemma NoDirectionAtDot(s: string, e: nat)
    requires e < |s| && s[e] == '.'
    ensures !LitAt(s, e, "ASC") && !LitAt(s, e, "DESC")
  {
    CharOfOccurrence(s, "ASC", e, 0);
    CharOfOccurrence(s, "DESC", e, 0);
  }

  /** Whitespace at `i` of `s` that is not continued is the run `\s*` matches. */
  lemma SpaceRunAt(s: string, i: nat, sp: string)
    requires AllIn(sp, Space) && LitAt(s, i, sp)
    requires i + |sp| == |s| || !In(s[i + |sp|], Space)
    ensures RunAt(s, i, Space) == |sp|
  {
    AllInIndex(sp, Space);
    forall k | i <= k < i + |sp| ensures In(s[k], Space) {
      CharOfOccurrence(s, sp, i, k - i);
    }
    RunAtIs(s, i, |sp|, Space);
  }

  /** An `ORDER BY` match has `D` two characters after its start. */
  lemma NoOrderByWithoutD(s: string, j: nat)
    requires forall m :: 0 <= m < j + 2 && m < |s| ==> s[m] != 'D'
    ensures forall k :: 0 <= k < j ==> !MatchesAt(OrderByLen, s, k)
  {
    forall k | 0 <= k < j ensures !MatchesAt(OrderByLen, s, k) {
      CharOfOccurrence(s, "ORDER BY", k, 2);
    }
  }

  /** A match inside a suffix is a match of the suffix. */
  lemma LitAtSuffix(s: string, j: nat, k: nat, p: string)
    requires j <= k <= |s|
    ensures LitAt(s, k, p) ==> LitAt(s[j..], k - j, p)
  {
    if LitAt(s, k, p) {
      assert s[j..][k - j..k - j + |p|] == s[k..k + |p|];
    }
  }

  lemma NoOrderByAfter(s: string, j: nat)
    requires j <= |s| && !Contains(s[j..], "ORDER BY")
    ensures forall k :: j <= k < |s| ==> !MatchesAt(OrderByLen, s, k)
  {
    forall k | j <= k < |s| ensures !MatchesAt(OrderByLen, s, k) {
      LitAtSuffix(s, j, k, "ORDER BY");
    }
  }

  lemma SortKeyParts(x: string, t: string, y: string)
    ensures var s := x + "ORDER BY " + t + y;
      s[..|x|] == x && s[|x| + 9 + |t|..] == y && LitAt(s, |x|, "ORDER BY") &&
      s[|x| + 8] == ' ' && LitAt(s, |x| + 9, t)
  {
    var s := x + "ORDER BY " + t + y;
    assert s[|x|..|x| + 8] == "ORDER BY";
    assert s[|x| + 9..|x| + 9 + |t|] == t;
  }

  /** Step 3 on a query with a dotted sort key `ORDER BY t.c`: `\w+` stops at
      the dot, so only `ORDER BY ` and the table name are deleted and the
      `.c` stays, with whatever follows it (`ORDER BY t.a DESC` becomes
      `.a DESC`). */
  lemma DropOrderByDotted(x: string, t: string, y: string)
    requires 'D' !in x && IsWord(t) && |y| > 0 && y[0] == '.' && !Contains(y, "ORDER BY")
    ensures DropOrderBy(x + "ORDER BY " + t + y) == x + y
  {
    var s := x + "ORDER BY " + t + y;
    var i := |x|;
    var j := i + 9 + |t|;
    SortKeyParts(x, t, y);
    OrderByStopsAtDot(s, i, t);
    forall m | 0 <= m < i ensures s[m] != 'D' {
      assert s[..i][m] == s[m];
    }
    CharOfOccurrence(s, "ORDER BY", i, 0);
    CharOfOccurrence(s, "ORDER BY", i, 1);
    NoOrderByWithoutD(s, i);
    NoOrderByAfter(s, j);
    SubOneMatch(s, OrderByLen, Erase, i);
    assert s[..i] + Erase(s, i) + s[j..] == x + y;
  }

  // ---------------------------------------------------------------------
  // A grouped query, optimised twice

  /** `GROUP BY t.c` for the dotted name `d`. */
  function GroupQuery(d: DottedName): string {
    "GROUP BY " + Dotted(d)
  }

  /** A dotted name whose parts hold none of `"`, `S`, `D` and `I`. */
  predicate PlainName(d: DottedName) {
    IsWord(d.table) && IsWord(d.column) && Plain(d.table) && Plain(d.column)
  }

  lemma GroupParts(d: DottedName, rest: string)
    ensures var s := GroupQuery(d) + rest;
      LitAt(s, 0, "GROUP BY") && s[8] == ' ' && '.' !in s[..9] && LitAt(s, 9, Dotted(d)) &&
      |s| == |GroupQuery(d)| + |rest| && |GroupQuery(d)| == 9 + |Dotted(d)| &&
      s[|GroupQuery(d)|..] == rest
  {
    var s := GroupQuery(d) + rest;
    assert s[..9] == "GROUP BY ";
    assert s[0..8] == "GROUP BY";
    assert s[9..9 + |Dotted(d)|] == Dotted(d);
  }

  /** In `GROUP BY t.c` followed by anything that does not continue the
      column name, the first dotted name is `t.c`, at position 9. */
  lemma GroupFirstDotted(d: DottedName, rest: string)
    requires PlainName(d) && (rest == [] || !IsWordChar(rest[0]))
    ensures var s := GroupQuery(d) + rest;
      Contains(s, "GROUP BY") && 9 < |s| && DottedAt(s, 9) == Some(d) &&
      forall k :: 0 <= k < 9 ==> DottedAt(s, k).None?
  {
    var s := GroupQuery(d) + rest;
    GroupParts(d, rest);
    var e := 9 + |Dotted(d)|;
    assert e == |s| || s[e] == rest[0];
    DottedAtName(s, 9, d);
    forall k | 0 <= k < 9 ensures DottedAt(s, k).None? {
      NoDottedBefore(s, 9, k);
    }
  }

  lemma GroupQueryPlain(d: DottedName)
    requires PlainName(d)
    ensures Plain(GroupQuery(d)) && Plain(GroupQuery(d) + "\n")
    ensures Plain(GroupQuery(d) + "\n" + "." + d.column)
  {
    var g := GroupQuery(d);
    PlainConcat("GROUP BY " + d.table, ".");
    PlainConcat("GROUP BY ", d.table);
    PlainConcat("GROUP BY " + d.table + ".", d.column);
    PlainConcat(g, "\n");
    PlainConcat(g + "\n", ".");
    PlainConcat(g + "\n" + ".", d.column);
  }

  /** The first pass appends `ORDER BY t.c`. */
  lemma GroupQueryOptimized(d: DottedName)
    requires PlainName(d)
    ensures OptimizeSql(GroupQuery(d)) == GroupQuery(d) + OrderByClause(d)
  {
    var s := GroupQuery(d);
    GroupQueryPlain(d);
    GroupFirstDotted(d, "");
    assert s + "" == s;
    PlainGroupedOptimized(s, 9, d);
  }

  /** What the second pass's step 3 leaves of the first pass's output. */
  function GroupTail(d: DottedName): string {
    GroupQuery(d) + "\n" + "." + d.column
  }

  lemma OptimizedParts(d: DottedName)
    ensures GroupQuery(d) + OrderByClause(d) ==
            (GroupQuery(d) + "\n") + "ORDER BY " + d.table + ("." + d.column)
    ensures GroupTail(d) == (GroupQuery(d) + "\n") + ("." + d.column)
    ensures GroupTail(d) == GroupQuery(d) + ("\n" + "." + d.column)
  {
  }

  /** Neither `"` nor `S` occurs in `s`. */
  predicate NoQuoteOrS(s: string) {
    forall k :: 0 <= k < |s| ==> s[k] != '"' && s[k] != 'S'
  }

  lemma NoQuoteOrSConcat(a: string, b: string)
    requires NoQuoteOrS(a) && NoQuoteOrS(b)
    ensures NoQuoteOrS(a + b)
  {
    forall k | |a| <= k < |a + b| ensures (a + b)[k] == b[k - |a|] {
    }
  }

  /** Steps 1 and 2 leave the first pass's output alone: it has no `"` and
      no `S`. */
  lemma SecondPassStart(d: DottedName)
    requires PlainName(d)
    ensures UpperAliases(ReplaceStrftime(GroupQuery(d) + OrderByClause(d))) == GroupQuery(d) + OrderByClause(d)
  {
    var s := GroupQuery(d) + OrderByClause(d);
    GroupQueryPlain(d);
    NoQuoteOrSConcat("\nORDER BY " + d.table, ".");
    NoQuoteOrSConcat("\nORDER BY ", d.table);
    NoQuoteOrSConcat("\nORDER BY " + d.table + ".", d.column);
    NoQuoteOrSConcat(GroupQuery(d), OrderByClause(d));
    assert '"' !in s;
    MissingCharNotContained(s, "AS", 'S');
  }

  /** Step 3 of the second pass deletes `ORDER BY t` and keeps `.c`. */
  lemma SecondPassDrop(d: DottedName)
    requires PlainName(d)
    ensures DropOrderBy(GroupQuery(d) + OrderByClause(d)) == GroupTail(d)
  {
    var x := GroupQuery(d) + "\n";
    var y := "." + d.column;
    OptimizedParts(d);
    GroupQueryPlain(d);
    assert 'D' !in x;
    assert 'D' !in y;
    MissingCharNotContained(y, "ORDER BY", 'D');
    DropOrderByDotted(x, d.table, y);
  }

  /** Steps 4 and 5 of the second pass append the clause again. */
  lemma SecondPassEnd(d: DottedName)
    requires PlainName(d)
    ensures AppendOrderBy(DropLimitOffset(GroupTail(d))) == GroupTail(d) + OrderByClause(d)
  {
    var u := GroupTail(d);
    GroupQueryPlain(d);
    MissingCharNotContained(u, "LIMIT", 'I');
    KeepsWithoutLimitOffset(u);
    OptimizedParts(d);
    GroupFirstDotted(d, "\n" + "." + d.column);
    PlainGroupedOptimized(u, 9, d);
  }

  /** The second pass deletes `ORDER BY t` and keeps `.c`, then appends
      the clause again. */
  lemma SecondPass(d: DottedName)
    requires PlainName(d)
    ensures OptimizeSql(GroupQuery(d) + OrderByClause(d)) == GroupTail(d) + OrderByClause(d)
  {
    SecondPassStart(d);
    SecondPassDrop(d);
    SecondPassEnd(d);
  }

  /** `optimize_sql` is not idempotent: for every grouped query on a plain
      dotted name, a second pass deletes `ORDER BY t` from the clause the
      first pass added, leaves `.c` behind, and appends the clause again. */
  lemma OptimizeSqlNotIdempotent(d: DottedName)
    requires PlainName(d)
    ensures OptimizeSql(OptimizeSql(GroupQuery(d))) == GroupTail(d) + OrderByClause(d)
    ensures OptimizeSql(OptimizeSql(GroupQuery(d))) != OptimizeSql(GroupQuery(d))
  {
    GroupQueryOptimized(d);
    SecondPass(d);
    assert |GroupTail(d) + OrderByClause(d)| != |GroupQuery(d) + OrderByClause(d)|;
  }

  // ---------------------------------------------------------------------
  // Steps 2 and 5 on one query

  /** `… AS alias GROUP BY t.c`: a select list `p` ending in an alias, then
      the grouping. */
  function AliasedGroupQuery(p: string, sp: string, w: string, d: DottedName): string {
    p + "AS" + sp + w + " " + GroupQuery(d)
  }

  /** Step 2 upper-cases the alias and nothing else. */
  lemma AliasUpperCased(p: string, sp: string, w: string, d: DottedName)
    requires !Contains(p, "AS") && |sp| > 0 && AllIn(sp, Space) && IsWord(w) && PlainName(d)
    ensures UpperAliases(AliasedGroupQuery(p, sp, w, d)) == AliasedGroupQuery(p, sp, Upper(w), d)
  {
    var g := " " + GroupQuery(d);
    GroupQueryPlain(d);
    MissingCharNotContained(g, "AS", 'S');
    UpperAliasesAlias(p, sp, w, g);
    UpperAlias(sp, w);
    AliasedAssoc(p, sp, w, d);
    AliasedAssoc(p, sp, Upper(w), d);
  }

  lemma AliasedAssoc(p: string, sp: string, x: string, d: DottedName)
    ensures AliasedGroupQuery(p, sp, x, d) == p + "AS" + sp + x + (" " + GroupQuery(d))
    ensures AliasedGroupQuery(p, sp, x, d) == p + ("AS" + sp + x) + (" " + GroupQuery(d))
  {
  }

  /** Step 2 on `p AS alias g`, with no `AS` in `p` or `g`. */
  lemma UpperAliasesAlias(p: string, sp: string, w: string, g: string)
    requires !Contains(p, "AS") && |sp| > 0 && AllIn(sp, Space) && IsWord(w)
    requires |g| > 0 && !IsWordChar(g[0]) && !Contains(g, "AS")
    ensures UpperAliases(p + "AS" + sp + w + g) == p + Upper("AS" + sp + w) + g
  {
    var s := p + "AS" + sp + w + g;
    AliasedParts(p, sp, w, g);
    AliasOnlyMatch(s, p, sp, w, g);
    UpperAliasesOneMatch(s, |p|, |p| + 2 + |sp| + |w|);
  }

  /** With a single `AS` match, over `[i, e)`, step 2 upper-cases just that. */
  lemma UpperAliasesOneMatch(s: string, i: nat, e: nat)
    requires MatchesAt(AsLen, s, i) && i + AsLen(s, i) == e
    requires forall k :: 0 <= k < i ==> !MatchesAt(AsLen, s, k)
    requires forall k :: e <= k < |s| ==> !MatchesAt(AsLen, s, k)
    ensures UpperAliases(s) == s[..i] + Upper(s[i..e]) + s[e..]
  {
    SubOneMatch(s, AsLen, UpperMatch, i);
    assert UpperMatch(s, i) == Upper(s[i..e]);
  }

  /** The alias is the only `AS` match. */
  lemma AliasOnlyMatch(s: string, p: string, sp: string, w: string, g: string)
    requires s == p + "AS" + sp + w + g && !Contains(p, "AS") && |sp| > 0 && AllIn(sp, Space) && IsWord(w)
    requires |g| > 0 && !IsWordChar(g[0]) && !Contains(g, "AS")
    ensures var i := |p|; var e := i + 2 + |sp| + |w|;
      MatchesAt(AsLen, s, i) && i + AsLen(s, i) == e &&
      (forall k :: 0 <= k < i ==> !MatchesAt(AsLen, s, k)) &&
      (forall k :: e <= k < |s| ==> !MatchesAt(AsLen, s, k))
  {
    AliasMatches(p, sp, w, g);
    AliasNoOtherMatch(p, sp, w, g);
  }

  lemma AliasMatches(p: string, sp: string, w: string, g: string)
    requires |sp| > 0 && AllIn(sp, Space) && IsWord(w) && |g| > 0 && !IsWordChar(g[0])
    ensures var s := p + "AS" + sp + w + g; var i := |p|;
      MatchesAt(AsLen, s, i) && i + AsLen(s, i) == i + 2 + |sp| + |w|
  {
    var s := p + "AS" + sp + w + g;
    var i := |p|;
    var q := i + 2 + |sp|;
    AliasedParts(p, sp, w, g);
    assert s[i + 2..q] == sp;
    assert s[q..q + |w|] == w;
    AliasAt(s, i, q, q + |w|);
  }

  lemma AliasNoOtherMatch(p: string, sp: string, w: string, g: string)
    requires !Contains(p, "AS") && !Contains(g, "AS")
    ensures var s := p + "AS" + sp + w + g; var e := |p| + 2 + |sp| + |w|;
      (forall k :: 0 <= k < |p| ==> !MatchesAt(AsLen, s, k)) &&
      (forall k :: e <= k < |s| ==> !MatchesAt(AsLen, s, k))
  {
    var s := p + "AS" + sp + w + g;
    AliasedParts(p, sp, w, g);
    CharOfOccurrence(s, "AS", |p|, 0);
    NoAsBefore(s, |p|);
    NoAsAfter(s, |p| + 2 + |sp| + |w|);
  }

  /** `AS`, whitespace over `[i + 2, q)` and a word over `[q, e)` followed
      by a non-word character: one match, ending at `e`. */
  lemma AliasAt(s: string, i: nat, q: nat, e: nat)
    requires LitAt(s, i, "AS") && i + 2 < q < e < |s|
    requires AllIn(s[i + 2..q], Space) && AllIn(s[q..e], Word) && !IsWordChar(s[e])
    ensures MatchesAt(AsLen, s, i) && i + AsLen(s, i) == e
  {
    AsLenIndex(s, i, q, e);
  }

  lemma AliasedParts(p: string, sp: string, w: string, g: string)
    ensures var s := p + "AS" + sp + w + g; var i := |p|; var q := i + 2 + |sp|; var e := q + |w|;
      s[..i] == p && LitAt(s, i, "AS") && s[i + 2..q] == sp && s[q..e] == w && s[e..] == g &&
      s[i..e] == "AS" + sp + w && (|g| > 0 ==> e < |s| && s[e] == g[0])
  {
    var s := p + "AS" + sp + w + g;
    var i := |p|;
    var q := i + 2 + |sp|;
    var e := q + |w|;
    assert s[..i] == p;
    assert s[i..i + 2] == "AS";
    assert s[i + 2..q] == sp;
    assert s[q..e] == w;
    assert s[e..] == g;
    assert s[i..e] == "AS" + sp + w;
    if |g| > 0 {
      assert s[e] == s[e..][0];
    }
  }

  lemma NoAsAfter(s: string, j: nat)
    requires j <= |s| && !Contains(s[j..], "AS")
    ensures forall k :: j <= k < |s| ==> !MatchesAt(AsLen, s, k)
  {
    forall k | j <= k < |s| ensures !MatchesAt(AsLen, s, k) {
      LitAtSuffix(s, j, k, "AS");
    }
  }

  /** Upper-casing `AS`, whitespace and a word changes only the word. */
  lemma UpperAlias(sp: string, w: string)
    requires AllIn(sp, Space)
    ensures Upper("AS" + sp + w) == "AS" + sp + Upper(w)
  {
    AllInIndex(sp, Space);
    var a, b := Upper("AS" + sp + w), "AS" + sp + Upper(w);
    forall k | 0 <= k < |a| ensures a[k] == b[k] {
      if 2 <= k < 2 + |sp| {
        assert ("AS" + sp + w)[k] == sp[k - 2];
      }
    }
  }

  /** A grouped query whose text before `GROUP BY` has no dot and no `D`
      gets the grouping name as its sort key. */
  lemma GroupedAfter(pre: string, d: DottedName)
    requires '.' !in pre && 'D' !in pre && PlainName(d)
    ensures AppendOrderBy(pre + GroupQuery(d)) == pre + GroupQuery(d) + OrderByClause(d)
  {
    var u := pre + GroupQuery(d);
    var q := |pre| + 9;
    GroupQueryPlain(d);
    assert u[|pre|..|pre| + 8] == "GROUP BY";
    assert LitAt(u, |pre|, "GROUP BY");
    MissingCharNotContained(u, "ORDER BY", 'D');
    assert u[q..] == Dotted(d);
    DottedAtName(u, q, d);
    assert u[..q] == pre + "GROUP BY ";
    forall k | 0 <= k < q ensures DottedAt(u, k).None? {
      NoDottedBefore(u, q, k);
    }
    AppendOrderByAt(u, q, d);
  }

  /** The characters the rewriter looks for, in the two queries. */
  lemma AliasedChars(p: string, sp: string, w: string, d: DottedName)
    requires '"' !in p && '.' !in p && 'D' !in p && 'I' !in p
    requires AllIn(sp, Space) && IsWord(w) && 'D' !in Upper(w) && 'I' !in Upper(w)
    requires PlainName(d)
    ensures '"' !in AliasedGroupQuery(p, sp, w, d)
    ensures var pre := p + "AS" + sp + Upper(w) + " ";
      '.' !in pre && 'D' !in pre && 'I' !in pre && 'D' !in GroupQuery(d) && 'I' !in GroupQuery(d)
  {
    GroupQueryPlain(d);
    AllInIndex(sp, Space);
    AllInIndex(w, Word);
    AllInIndex(Upper(w), Word);
  }

  /** Steps 2 and 5 on one query: the alias after `AS` is upper-cased and
      the grouping name is appended as the sort key. */
  lemma AliasedGroupOptimized(p: string, sp: string, w: string, d: DottedName)
    requires '"' !in p && '.' !in p && 'D' !in p && 'I' !in p && !Contains(p, "AS")
    requires |sp| > 0 && AllIn(sp, Space)
    requires IsWord(w) && 'D' !in Upper(w) && 'I' !in Upper(w)
    requires PlainName(d)
    ensures OptimizeSql(AliasedGroupQuery(p, sp, w, d)) ==
            AliasedGroupQuery(p, sp, Upper(w), d) + OrderByClause(d)
  {
    var pre := p + "AS" + sp + Upper(w) + " ";
    var u := pre + GroupQuery(d);
    AliasedChars(p, sp, w, d);
    AliasUpperCased(p, sp, w, d);
    assert AliasedGroupQuery(p, sp, Upper(w), d) == u;
    KeepsWithoutDI(u);
    GroupedAfter(pre, d);
  }

  const AliasedExample: string := "SELECT a FROM t AS x GROUP BY t.a"

  /** `SELECT a FROM t AS x GROUP BY t.a` gets its alias upper-cased and
      `ORDER BY t.a` appended. */
  lemma AliasedExampleOptimized()
    ensures OptimizeSql(AliasedExample) == "SELECT a FROM t AS X GROUP BY t.a" + "\nORDER BY t.a"
  {
    var p, d := "SELECT a FROM t ", DottedName("t", "a");
    AliasedExampleParts();
    AliasedExampleFits();
    AliasedGroupOptimized(p, " ", "x", d);
  }

  lemma AliasedExampleFits()
    ensures var p := "SELECT a FROM t ";
      '"' !in p && '.' !in p && 'D' !in p && 'I' !in p && !Contains(p, "AS")
    ensures AllIn(" ", Space) && IsWord("x") && 'D' !in Upper("x") && 'I' !in Upper("x")
    ensures PlainName(DottedName("t", "a"))
  {
    AliasedExampleSelect();
    assert Upper("x") == "X";
  }

  lemma AliasedExampleSelect()
    ensures var p := "SELECT a FROM t ";
      '"' !in p && '.' !in p && 'D' !in p && 'I' !in p && !Contains(p, "AS")
  {
    MissingCharNotContained("SELECT a FROM t ", "AS", 'A');
  }

  lemma AliasedExampleParts()
    ensures AliasedGroupQuery("SELECT a FROM t ", " ", "x", DottedName("t", "a")) == AliasedExample
    ensures AliasedGroupQuery("SELECT a FROM t ", " ", Upper("x"), DottedName("t", "a")) ==
            "SELECT a FROM t AS X GROUP BY t.a"
    ensures OrderByClause(DottedName("t", "a")) == "\nORDER BY t.a"
  {
    assert Upper("x") == "X";
  }
}
