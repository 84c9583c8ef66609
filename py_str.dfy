/** Python `str` operations used by the application, over `seq<char>`:
    character classes, `in`, `startswith`, `upper`, `strip`, `split`, `join`
    and `replace(pattern, "")`. */
module PyStr {

  /** The character classes of Python's `re`: `\w`, `\d` and `\s`.
      Word and digit characters are taken over ASCII; whitespace is
      Python's full `str.isspace` set, which is also what `strip()` removes. */
  datatype CharClass = Word | Digit | Space

  predicate IsWordChar(c: char) {
    ('a' <= c <= 'z') || ('A' <= c <= 'Z') || ('0' <= c <= '9') || c == '_'
  }

  predicate IsDigitChar(c: char) {
    '0' <= c <= '9'
  }

  predicate IsSpaceChar(c: char) {
    c == ' ' || ('\t' <= c <= '\r') || ('\U{1C}' <= c <= '\U{1F}') ||
    c == '\U{85}' || c == '\U{A0}' || c == '\U{1680}' ||
    ('\U{2000}' <= c <= '\U{200A}') || c == '\U{2028}' || c == '\U{2029}' ||
    c == '\U{202F}' || c == '\U{205F}' || c == '\U{3000}'
  }

  predicate In(c: char, cls: CharClass) {
    match cls
    case Word => IsWordChar(c)
    case Digit => IsDigitChar(c)
    case Space => IsSpaceChar(c)
  }

  /** Every character of `s` is in the class. */
  predicate AllIn(s: string, cls: CharClass)
    decreases |s|
  {
    s == [] || (In(s[0], cls) && AllIn(s[1..], cls))
  }

  /** Every character of `s` over `[p, q)` is in the class. */
  predicate AllInRange(s: string, p: nat, q: nat, cls: CharClass) {
    p <= q <= |s| && AllIn(s[p..q], cls)
  }

  lemma {:induction false} AllInIndex(s: string, cls: CharClass)
    ensures AllIn(s, cls) <==> forall k :: 0 <= k < |s| ==> In(s[k], cls)
    decreases |s|
  {
    if s != [] {
      AllInIndex(s[1..], cls);
      if forall k :: 0 <= k < |s| ==> In(s[k], cls) {
        forall k | 0 <= k < |s[1..]| ensures In(s[1..][k], cls) {
          assert s[1..][k] == s[k + 1];
        }
      }
      if AllIn(s, cls) {
        forall k | 0 < k < |s| ensures In(s[k], cls) {
          assert s[k] == s[1..][k - 1];
        }
      }
    }
  }

  lemma {:induction false} AllInConcat(a: string, b: string, cls: CharClass)
    ensures AllIn(a + b, cls) <==> AllIn(a, cls) && AllIn(b, cls)
    decreases |a|
  {
    if a == [] {
      assert a + b == b;
    } else {
      assert (a + b)[0] == a[0];
      assert (a + b)[1..] == a[1..] + b;
      AllInConcat(a[1..], b, cls);
    }
  }

  /** Length of the longest prefix of `s` made of `cls` characters: what a
      greedy `\w+`, `\d+` or `\s*` consumes. */
  function Run(s: string, cls: CharClass): (n: nat)
    ensures n <= |s|
    ensures n == |s| || !In(s[n], cls)
    decreases |s|
  {
    if |s| > 0 && In(s[0], cls) then 1 + Run(s[1..], cls) else 0
  }

  /** The run itself is made of `cls` characters. */
  lemma {:induction false} RunAllIn(s: string, cls: CharClass)
    ensures AllIn(s[..Run(s, cls)], cls)
    decreases |s|
  {
    var n := Run(s, cls);
    if n > 0 {
      RunAllIn(s[1..], cls);
      assert s[..n][1..] == s[1..][..n - 1];
    }
  }

  /** Length of the longest suffix of `s` made of `cls` characters. */
  function TrailingRun(s: string, cls: CharClass): (n: nat)
    ensures n <= |s|
    ensures n == |s| || !In(s[|s| - n - 1], cls)
    decreases |s|
  {
    if |s| > 0 && In(s[|s| - 1], cls) then 1 + TrailingRun(s[..|s| - 1], cls) else 0
  }

  /** The trailing run itself is made of `cls` characters. */
  lemma TrailingRunAllIn(s: string, cls: CharClass)
    ensures AllIn(s[|s| - TrailingRun(s, cls)..], cls)
  {
    var n := TrailingRun(s, cls);
    TrailingRunIndex(s, cls);
    var q := s[|s| - n..];
    forall k | 0 <= k < |q| ensures In(q[k], cls) {
      assert q[k] == s[|s| - n + k];
    }
    AllInIndex(q, cls);
  }

  lemma {:induction false} TrailingRunIndex(s: string, cls: CharClass)
    ensures forall k :: |s| - TrailingRun(s, cls) <= k < |s| ==> In(s[k], cls)
    decreases |s|
  {
    if |s| > 0 && In(s[|s| - 1], cls) {
      var p := s[..|s| - 1];
      TrailingRunIndex(p, cls);
      forall k | |s| - TrailingRun(s, cls) <= k < |s| - 1 ensures In(s[k], cls) {
        assert s[k] == p[k];
      }
    }
  }

  /** Length of the run of `cls` characters starting at position `i`. */
  function RunAt(s: string, i: nat, cls: CharClass): (n: nat)
    ensures n > 0 ==> i + n <= |s|
    ensures i + n >= |s| || !In(s[i + n], cls)
    decreases |s| - i
  {
    if i < |s| && In(s[i], cls) then 1 + RunAt(s, i + 1, cls) else 0
  }

  /** Every character of the run is in the class. */
  lemma {:induction false} RunAtAllIn(s: string, i: nat, cls: CharClass)
    ensures forall k :: i <= k < i + RunAt(s, i, cls) ==> In(s[k], cls)
    decreases |s| - i
  {
    if i < |s| && In(s[i], cls) {
      RunAtAllIn(s, i + 1, cls);
    }
  }

  /** A run is exactly `n` long when the `n` characters from `i` are in the
      class and the next one, if any, is not. */
  lemma {:induction false} RunAtIs(s: string, i: nat, n: nat, cls: CharClass)
    requires i + n <= |s|
    requires forall k :: i <= k < i + n ==> In(s[k], cls)
    requires i + n == |s| || !In(s[i + n], cls)
    ensures RunAt(s, i, cls) == n
    decreases n
  {
    if n > 0 {
      RunAtIs(s, i + 1, n - 1, cls);
    }
  }

  /** A run ends no later than the first character outside the class. */
  lemma {:induction false} RunAtStopsAt(s: string, i: nat, k: nat, cls: CharClass)
    requires i <= k < |s| && !In(s[k], cls)
    ensures i + RunAt(s, i, cls) <= k
    decreases k - i
  {
    if i < k && In(s[i], cls) {
      RunAtStopsAt(s, i + 1, k, cls);
    }
  }

  /** The run starting at `i`, as a slice, is made of `cls` characters. */
  lemma RunAtSlice(s: string, i: nat, cls: CharClass)
    requires i <= |s|
    ensures AllIn(s[i..i + RunAt(s, i, cls)], cls)
  {
    RunAtAllIn(s, i, cls);
    AllInSlice(s, i, i + RunAt(s, i, cls), cls);
  }

  /** A slice wholly in the class and not continued is the run there. */
  lemma RunAtOfSlice(s: string, p: nat, q: nat, cls: CharClass)
    requires p <= q <= |s| && AllIn(s[p..q], cls)
    requires q == |s| || !In(s[q], cls)
    ensures RunAt(s, p, cls) == q - p
  {
    AllInIndex(s[p..q], cls);
    forall k | p <= k < q ensures In(s[k], cls) {
      assert s[k] == s[p..q][k - p];
    }
    RunAtIs(s, p, q - p, cls);
  }

  /** A slice whose characters are all in the class. */
  lemma AllInSlice(s: string, i: nat, j: nat, cls: CharClass)
    requires i <= j <= |s|
    requires forall k :: i <= k < j ==> In(s[k], cls)
    ensures AllIn(s[i..j], cls)
  {
    var t := s[i..j];
    forall k | 0 <= k < |t| ensures In(t[k], cls) {
      assert t[k] == s[i + k];
    }
    AllInIndex(t, cls);
  }

  /** `s.startswith(p)` */
  predicate StartsWith(s: string, p: string) {
    |p| <= |s| && s[..|p|] == p
  }

  /** `p` occurs in `s` at position `i`. */
  predicate LitAt(s: string, i: nat, p: string) {
    i + |p| <= |s| && s[i..i + |p|] == p
  }

  /** Python's `p in s` for strings. */
  predicate Contains(s: string, p: string) {
    exists i :: 0 <= i <= |s| && LitAt(s, i, p)
  }

  /** Where `p` occurs at `i`, the characters of `s` from `i` on are those of `p`. */
  lemma CharOfOccurrence(s: string, p: string, i: nat, k: nat)
    requires k < |p|
    ensures LitAt(s, i, p) ==> s[i + k] == p[k]
  {
    if LitAt(s, i, p) {
      assert s[i..i + |p|][k] == s[i + k];
    }
  }

  /** An occurrence in a suffix is an occurrence in the whole string. */
  lemma ContainsSuffix(s: string, p: string, j: nat)
    requires j <= |s|
    ensures Contains(s[j..], p) ==> Contains(s, p)
  {
    if Contains(s[j..], p) {
      var i :| 0 <= i <= |s[j..]| && LitAt(s[j..], i, p);
      assert s[j..][i..i + |p|] == s[j + i..j + i + |p|];
      assert LitAt(s, j + i, p);
    }
  }

  /** An occurrence in an infix is an occurrence in the whole string. */
  lemma LitAtInfix(s: string, a: nat, b: nat, j: nat, p: string)
    requires a <= b <= |s|
    ensures LitAt(s[a..b], j, p) ==> LitAt(s, a + j, p)
  {
    if LitAt(s[a..b], j, p) {
      var u := s[a..b][j..j + |p|];
      var v := s[a + j..a + j + |p|];
      forall m | 0 <= m < |p| ensures u[m] == v[m] {
      }
      assert u == v;
    }
  }

  /** An occurrence of `x + y` is an occurrence of `x` followed by one of `y`. */
  lemma LitAtSplit(s: string, a: nat, x: string, y: string)
    requires LitAt(s, a, x + y)
    ensures LitAt(s, a, x) && LitAt(s, a + |x|, y)
  {
    var u := s[a..a + |x| + |y|];
    assert (x + y)[..|x|] == x && (x + y)[|x|..] == y;
    assert s[a..a + |x|] == u[..|x|];
    assert s[a + |x|..a + |x| + |y|] == u[|x|..];
  }

  /** A string lacking one of the characters of `p` does not contain `p`. */
  lemma MissingCharNotContained(s: string, p: string, c: char)
    requires c in p && c !in s
    ensures !Contains(s, p)
  {
  }

  function UpperChar(c: char): char {
    if 'a' <= c <= 'z' then (c as int - 32) as char else c
  }

  /** `s.upper()` over ASCII letters. */
  function Upper(s: string): (r: string)
    ensures |r| == |s|
    ensures forall k :: 0 <= k < |s| ==> r[k] == UpperChar(s[k])
  {
    seq(|s|, k requires 0 <= k < |s| => UpperChar(s[k]))
  }

  /** What `upper()` does to ASCII text: no lower-case letter is left, a
      lower-case letter becomes the capital at the same place of the
      alphabet, every other character is kept, and a second call changes
      nothing. */
  lemma UpperMeaning(s: string)
    ensures |Upper(s)| == |s|
    ensures forall k :: 0 <= k < |s| ==> !('a' <= Upper(s)[k] <= 'z')
    ensures forall k :: 0 <= k < |s| && 'a' <= s[k] <= 'z' ==>
      'A' <= Upper(s)[k] <= 'Z' && Upper(s)[k] as int - 'A' as int == s[k] as int - 'a' as int
    ensures forall k :: 0 <= k < |s| && !('a' <= s[k] <= 'z') ==> Upper(s)[k] == s[k]
    ensures Upper(Upper(s)) == Upper(s)
  {
  }

  /** `r` is `t` with some of its letters upper-cased. */
  predicate CaseOnly(r: string, t: string) {
    |r| == |t| && forall k :: 0 <= k < |r| ==> r[k] == t[k] || r[k] == UpperChar(t[k])
  }

  lemma CaseOnlyConcat(r1: string, t1: string, r2: string, t2: string)
    requires CaseOnly(r1, t1) && CaseOnly(r2, t2)
    ensures CaseOnly(r1 + r2, t1 + t2)
  {
    var r, t := r1 + r2, t1 + t2;
    forall k | 0 <= k < |r| ensures r[k] == t[k] || r[k] == UpperChar(t[k]) {
      if k < |r1| {
        assert r[k] == r1[k] && t[k] == t1[k];
      } else {
        assert r[k] == r2[k - |r1|] && t[k] == t2[k - |r1|];
      }
    }
  }

  /** `s.strip()`: drops leading and trailing whitespace. The result is the
      infix of `s` that starts where the leading whitespace ends, has only
      whitespace after it, and neither starts nor ends with whitespace. */
  function Strip(s: string): (r: string)
    ensures Run(s, Space) + |r| <= |s| && r == s[Run(s, Space)..Run(s, Space) + |r|]
    ensures AllIn(s[..Run(s, Space)], Space) && AllIn(s[Run(s, Space) + |r|..], Space)
    ensures r == [] || (!IsSpaceChar(r[0]) && !IsSpaceChar(r[|r| - 1]))
  {
    var a := Run(s, Space);
    var b := TrailingRun(s[a..], Space);
    StripWitness(s, a, b, s[a..|s| - b]);
    s[a..|s| - b]
  }

  lemma StripWitness(s: string, a: nat, b: nat, r: string)
    requires a == Run(s, Space) && b == TrailingRun(s[a..], Space)
    requires a <= |s| - b && r == s[a..|s| - b]
    ensures a + |r| <= |s| && r == s[a..a + |r|]
    ensures AllIn(s[..a], Space) && AllIn(s[a + |r|..], Space)
    ensures r == [] || (!IsSpaceChar(r[0]) && !IsSpaceChar(r[|r| - 1]))
  {
    StripSides(s, a, b, r);
    StripEnds(s, a, b, r);
  }

  lemma StripSides(s: string, a: nat, b: nat, r: string)
    requires a == Run(s, Space) && b == TrailingRun(s[a..], Space)
    requires a <= |s| - b && r == s[a..|s| - b]
    ensures AllIn(s[..a], Space) && AllIn(s[a + |r|..], Space)
  {
    var t := s[a..];
    RunAllIn(s, Space);
    TrailingRunAllIn(t, Space);
    assert s[a + |r|..] == t[|t| - b..];
  }

  lemma StripEnds(s: string, a: nat, b: nat, r: string)
    requires a == Run(s, Space) && b == TrailingRun(s[a..], Space)
    requires a <= |s| - b && r == s[a..|s| - b]
    ensures r == [] || (!IsSpaceChar(r[0]) && !IsSpaceChar(r[|r| - 1]))
  {
    if r != [] {
      var t := s[a..];
      assert r[0] == s[a];
      assert !In(t[|t| - b - 1], Space);
      assert r[|r| - 1] == t[|t| - b - 1];
    }
  }

  /** Stripping is idempotent. */
  /** Whitespace around a text that neither starts nor ends with whitespace
      is exactly what `strip` removes. */
  lemma StripSurrounded(a: string, x: string, b: string)
    requires AllIn(a, Space) && AllIn(b, Space)
    requires x == [] || (!IsSpaceChar(x[0]) && !IsSpaceChar(x[|x| - 1]))
    ensures Strip(a + x + b) == x
  {
    if x == [] {
      StripSpacesOnly(a, b);
    } else {
      StripAroundText(a, x, b);
    }
  }

  lemma StripAroundText(a: string, x: string, b: string)
    requires AllIn(a, Space) && AllIn(b, Space)
    requires |x| > 0 && !IsSpaceChar(x[0]) && !IsSpaceChar(x[|x| - 1])
    ensures Strip(a + x + b) == x
  {
    var s := a + x + b;
    assert s == a + (x + b);
    LeadingSpaces(a, x + b);
    assert s[|a|..] == x + b;
    TrailingSpaces(x, b);
    StripOfRuns(s, |a|, |b|);
    assert s[|a|..|s| - |b|] == x;
  }

  lemma StripSpacesOnly(a: string, b: string)
    requires AllIn(a, Space) && AllIn(b, Space)
    ensures Strip(a + [] + b) == []
  {
    AllInConcat(a, b, Space);
    assert a + [] + b == a + b;
    StripAllSpace(a + b);
  }

  lemma StripAllSpace(s: string)
    requires AllIn(s, Space)
    ensures Strip(s) == []
  {
    AllInIndex(s, Space);
    RunIs(s, |s|, Space);
    assert s[|s|..] == [];
  }

  lemma LeadingSpaces(a: string, t: string)
    requires AllIn(a, Space) && |t| > 0 && !IsSpaceChar(t[0])
    ensures Run(a + t, Space) == |a|
  {
    var s := a + t;
    AllInIndex(a, Space);
    forall k | 0 <= k < |a| ensures In(s[k], Space) { assert s[k] == a[k]; }
    assert s[|a|] == t[0];
    RunIs(s, |a|, Space);
  }

  lemma TrailingSpaces(x: string, b: string)
    requires AllIn(b, Space) && |x| > 0 && !IsSpaceChar(x[|x| - 1])
    ensures TrailingRun(x + b, Space) == |b|
  {
    var t := x + b;
    AllInIndex(b, Space);
    forall k | |t| - |b| <= k < |t| ensures In(t[k], Space) { assert t[k] == b[k - |x|]; }
    assert t[|t| - |b| - 1] == x[|x| - 1];
    TrailingRunIs(t, |b|, Space);
  }

  lemma StripOfRuns(s: string, a: nat, b: nat)
    requires a <= |s| && Run(s, Space) == a && TrailingRun(s[a..], Space) == b
    ensures a <= |s| - b && Strip(s) == s[a..|s| - b]
  {
  }

  /** A prefix wholly in the class and not continued is the run. */
  lemma {:induction false} RunIs(s: string, n: nat, cls: CharClass)
    requires n <= |s|
    requires forall k :: 0 <= k < n ==> In(s[k], cls)
    requires n == |s| || !In(s[n], cls)
    ensures Run(s, cls) == n
    decreases n
  {
    if n > 0 {
      assert forall k :: 0 <= k < n - 1 ==> s[1..][k] == s[k + 1];
      RunIs(s[1..], n - 1, cls);
    }
  }

  /** A suffix wholly in the class and not continued is the trailing run. */
  lemma {:induction false} TrailingRunIs(s: string, n: nat, cls: CharClass)
    requires n <= |s|
    requires forall k :: |s| - n <= k < |s| ==> In(s[k], cls)
    requires n == |s| || !In(s[|s| - n - 1], cls)
    ensures TrailingRun(s, cls) == n
    decreases n
  {
    if n > 0 {
      var t := s[..|s| - 1];
      assert forall k :: |t| - (n - 1) <= k < |t| ==> t[k] == s[k];
      TrailingRunIs(t, n - 1, cls);
    }
  }

  lemma StripIdempotent(s: string)
    ensures Strip(Strip(s)) == Strip(s)
  {
    var r := Strip(s);
    assert Run(r, Space) == 0;
    assert r[0..] == r;
    assert TrailingRun(r, Space) == 0;
    assert r[0..|r|] == r;
  }

  /** `a` is obtained from `b` by deleting elements. */
  predicate IsSubsequence<T(==)>(a: seq<T>, b: seq<T>)
    decreases |b|
  {
    a == [] ||
    (b != [] && ((a[0] == b[0] && IsSubsequence(a[1..], b[1..])) || IsSubsequence(a, b[1..])))
  }

  lemma {:induction false} SubsequenceRefl<T>(a: seq<T>)
    ensures IsSubsequence(a, a)
    decreases |a|
  {
    if a != [] {
      SubsequenceRefl(a[1..]);
    }
  }

  lemma {:induction false} SubsequenceOfSuffix<T>(a: seq<T>, b: seq<T>, n: nat)
    requires n <= |b| && IsSubsequence(a, b[n..])
    ensures IsSubsequence(a, b)
    decreases n
  {
    if n > 0 {
      assert b[1..][n - 1..] == b[n..];
      SubsequenceOfSuffix(a, b[1..], n - 1);
    }
  }

  /** `sep.join(parts)` */
  function Join(parts: seq<string>, sep: string): string
    decreases |parts|
  {
    if |parts| == 0 then ""
    else if |parts| == 1 then parts[0]
    else parts[0] + sep + Join(parts[1..], sep)
  }

  /** `s.split(sep)` for a one-character separator: the pieces between
      separators, the first piece being the text before the first one. */
  function Split(s: string, sep: char): (parts: seq<string>)
    ensures |parts| >= 1
    ensures forall k :: 0 <= k < |parts| ==> sep !in parts[k]
    ensures Join(parts, [sep]) == s
    ensures StartsWith(s, parts[0]) && (|parts[0]| == |s| || s[|parts[0]|] == sep)
    decreases |s|
  {
    if s == [] then [""]
    else
      var rest := Split(s[1..], sep);
      if s[0] == sep then [""] + rest
      else [[s[0]] + rest[0]] + rest[1..]
  }

  /** Splitting `x + t` where `x` has no separator glues `x` to the first piece. */
  lemma {:induction false} SplitPrefix(x: string, t: string, sep: char)
    requires sep !in x
    ensures Split(x + t, sep) == [x + Split(t, sep)[0]] + Split(t, sep)[1..]
    decreases |x|
  {
    if x == [] {
      assert x + t == t;
      assert x + Split(t, sep)[0] == Split(t, sep)[0];
    } else {
      var parts := Split(t, sep);
      assert (x + t)[0] == x[0] && x[0] != sep;
      assert (x + t)[1..] == x[1..] + t;
      var rest := Split(x[1..] + t, sep);
      SplitPrefix(x[1..], t, sep);
      assert rest[0] == x[1..] + parts[0] && rest[1..] == parts[1..];
      assert Split(x + t, sep) == [[x[0]] + rest[0]] + rest[1..];
      assert [x[0]] + (x[1..] + parts[0]) == x + parts[0];
    }
  }

  /** Round trip: splitting a joined list of separator-free pieces gives the pieces back. */
  lemma {:induction false} SplitJoin(parts: seq<string>, sep: char)
    requires |parts| >= 1
    requires forall k :: 0 <= k < |parts| ==> sep !in parts[k]
    ensures Split(Join(parts, [sep]), sep) == parts
    decreases |parts|
  {
    if |parts| == 1 {
      SplitPrefix(parts[0], "", sep);
      assert parts[0] + "" == parts[0];
    } else {
      var tail := Join(parts[1..], [sep]);
      SplitJoin(parts[1..], sep);
      assert Join(parts, [sep]) == parts[0] + ([sep] + tail);
      SplitPrefix(parts[0], [sep] + tail, sep);
      assert ([sep] + tail)[1..] == tail;
      assert Split([sep] + tail, sep) == [""] + parts[1..];
      assert parts[0] + "" == parts[0];
    }
  }

  /** `s.replace(pat, "")`: deletes the occurrences of `pat` found scanning
      left to right without overlap. */
  function RemoveAll(s: string, pat: string): (r: string)
    requires |pat| > 0
    ensures |r| <= |s|
    ensures IsSubsequence(r, s)
    ensures !Contains(s, pat) ==> r == s
    decreases |s|
  {
    if |s| == 0 then s
    else if StartsWith(s, pat) then
      assert LitAt(s, 0, pat);
      var rest := RemoveAll(s[|pat|..], pat);
      SubsequenceOfSuffix(rest, s, |pat|);
      rest
    else
      ContainsSuffix(s, pat, 1);
      var rest := RemoveAll(s[1..], pat);
      assert ([s[0]] + rest)[1..] == rest;
      [s[0]] + rest
  }

  /** Only characters of `pat` are deleted: every other character occurs in
      the result exactly as often as in `s`. */
  lemma {:induction false} RemoveAllKeepsOthers(s: string, pat: string, c: char)
    requires |pat| > 0 && c !in pat
    ensures multiset(RemoveAll(s, pat))[c] == multiset(s)[c]
    decreases |s|
  {
    if |s| > 0 {
      if StartsWith(s, pat) {
        RemoveAllKeepsOthers(s[|pat|..], pat, c);
        assert s == pat + s[|pat|..];
        assert multiset(s) == multiset(pat) + multiset(s[|pat|..]);
      } else {
        RemoveAllKeepsOthers(s[1..], pat, c);
        assert s == [s[0]] + s[1..];
        assert multiset(s) == multiset([s[0]]) + multiset(s[1..]);
      }
    }
  }

  /** The text before the first occurrence of `pat` is copied unchanged. */
  lemma {:induction false} RemoveAllCopies(s: string, pat: string, j: nat)
    requires |pat| > 0 && j <= |s|
    requires forall k :: 0 <= k < j ==> !LitAt(s, k, pat)
    ensures RemoveAll(s, pat) == s[..j] + RemoveAll(s[j..], pat)
    decreases j
  {
    if j == 0 {
      assert s[..0] == [] && s[0..] == s;
    } else {
      var t := s[1..];
      assert !LitAt(s, 0, pat);
      RemoveAllStep(s, pat);
      NoMatchInTail(s, pat, j);
      RemoveAllCopies(t, pat, j - 1);
      TailSlices(s, j);
      ConsAssoc(s[0], t[..j - 1], RemoveAll(s[j..], pat));
    }
  }

  /** At the first occurrence of `pat`, at `j`, the text before it is copied,
      the occurrence itself is deleted and the scan resumes right after it:
      together with the case without an occurrence this determines
      `replace(pat, "")` on every string. */
  lemma RemoveAllAt(s: string, pat: string, j: nat)
    requires |pat| > 0 && LitAt(s, j, pat)
    requires forall k :: 0 <= k < j ==> !LitAt(s, k, pat)
    ensures RemoveAll(s, pat) == s[..j] + RemoveAll(s[j + |pat|..], pat)
  {
    RemoveAllCopies(s, pat, j);
    var t := s[j..];
    assert t[..|pat|] == s[j..j + |pat|];
    assert t[|pat|..] == s[j + |pat|..];
  }

  lemma TailSlices(s: string, j: nat)
    requires 0 < j <= |s|
    ensures s[1..][j - 1..] == s[j..] && [s[0]] + s[1..][..j - 1] == s[..j]
  {
  }

  lemma ConsAssoc(c: char, a: string, b: string)
    ensures [c] + (a + b) == ([c] + a) + b
  {
  }

  lemma NoMatchInTail(s: string, pat: string, j: nat)
    requires 0 < j <= |s|
    requires forall k :: 0 <= k < j ==> !LitAt(s, k, pat)
    ensures forall k :: 0 <= k < j - 1 ==> !LitAt(s[1..], k, pat)
  {
    forall k | 0 <= k < j - 1 ensures !LitAt(s[1..], k, pat) {
      LitAtTail(s, k, pat);
    }
  }

  /** Where `pat` does not start the text, its first character is copied. */
  lemma RemoveAllStep(s: string, pat: string)
    requires |pat| > 0 && |s| > 0 && !LitAt(s, 0, pat)
    ensures RemoveAll(s, pat) == [s[0]] + RemoveAll(s[1..], pat)
  {
    if |pat| <= |s| {
      assert s[0..|pat|] == s[..|pat|];
    }
  }

  lemma LitAtTail(s: string, k: nat, p: string)
    requires |s| > 0
    ensures LitAt(s[1..], k, p) ==> LitAt(s, k + 1, p)
  {
    if LitAt(s[1..], k, p) {
      assert s[1..][k..k + |p|] == s[k + 1..k + 1 + |p|];
    }
  }
}
