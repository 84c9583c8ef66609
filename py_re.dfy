/** Python's `re.sub` and `re.search` for the patterns of the application,
    none of which can match the empty string. A pattern is given by the
    length of its match at a position of a string, 0 meaning no match there;
    backtracking does not arise because every pattern used is a chain of
    literals and runs of disjoint character classes. */
module PyRe {
  import opened Wrappers
  import opened PyStr

  /** `at(s, i)`: length of the match starting at position `i` of `s`. */
  type Matcher = (string, nat) -> nat

  /** `repl(s, i)`: the text that replaces the match starting at `i`; like
      Python's match object it sees the whole string and the match position. */
  type Replacer = (string, nat) -> string

  /** The pattern matches at position `i` of `s`. */
  predicate MatchesAt(at: Matcher, s: string, i: nat) {
    0 < at(s, i) && i + at(s, i) <= |s|
  }

  /** `re.sub(pattern, repl, s)`: scanning left to right, a match is replaced
      and scanning resumes after it; elsewhere one character is copied and
      scanning moves on by one. */
  function Sub(s: string, at: Matcher, repl: Replacer): string {
    SubFrom(s, at, repl, 0)
  }

  /** The part of `re.sub` that starts scanning at position `i`. */
  function SubFrom(s: string, at: Matcher, repl: Replacer, i: nat): string
    decreases |s| - i
  {
    if i >= |s| then []
    else if MatchesAt(at, s, i) then repl(s, i) + SubFrom(s, at, repl, i + at(s, i))
    else [s[i]] + SubFrom(s, at, repl, i + 1)
  }

  /** The replacement that deletes the match (`re.sub(p, '', s)`). */
  function Erase(s: string, i: nat): string {
    ""
  }

  /** A stretch in which no match starts is copied unchanged. */
  lemma {:induction false} SubFromCopies(s: string, at: Matcher, repl: Replacer, i: nat, j: nat)
    requires i <= j <= |s|
    requires forall k :: i <= k < j ==> !MatchesAt(at, s, k)
    ensures SubFrom(s, at, repl, i) == s[i..j] + SubFrom(s, at, repl, j)
    decreases j - i
  {
    if i < j {
      var rest := SubFrom(s, at, repl, j);
      assert SubFrom(s, at, repl, i) == [s[i]] + SubFrom(s, at, repl, i + 1);
      SubFromCopies(s, at, repl, i + 1, j);
      assert s[i..j] == [s[i]] + s[i + 1..j];
      assert [s[i]] + (s[i + 1..j] + rest) == s[i..j] + rest;
    }
  }

  /** Where the pattern matches nowhere, `re.sub` returns its input. */
  lemma SubNoMatch(s: string, at: Matcher, repl: Replacer)
    requires forall k :: 0 <= k < |s| ==> !MatchesAt(at, s, k)
    ensures Sub(s, at, repl) == s
  {
    SubFromCopies(s, at, repl, 0, |s|);
    assert s[0..|s|] == s;
  }

  /** Up to and including the leftmost match, `re.sub` copies the text
      before the match and then puts in its replacement. */
  lemma SubAtFirstMatch(s: string, at: Matcher, repl: Replacer, i: nat)
    requires MatchesAt(at, s, i)
    requires forall k :: 0 <= k < i ==> !MatchesAt(at, s, k)
    ensures Sub(s, at, repl) == s[..i] + repl(s, i) + SubFrom(s, at, repl, i + at(s, i))
  {
    SubFromCopies(s, at, repl, 0, i);
    assert s[0..i] == s[..i];
  }

  /** With a single match, `re.sub` replaces it and copies the rest. */
  lemma SubOneMatch(s: string, at: Matcher, repl: Replacer, i: nat)
    requires MatchesAt(at, s, i)
    requires forall k :: 0 <= k < i ==> !MatchesAt(at, s, k)
    requires forall k :: i + at(s, i) <= k < |s| ==> !MatchesAt(at, s, k)
    ensures Sub(s, at, repl) == s[..i] + repl(s, i) + s[i + at(s, i)..]
  {
    SubAtFirstMatch(s, at, repl, i);
    SubFromCopies(s, at, repl, i + at(s, i), |s|);
    assert s[i + at(s, i)..|s|] + [] == s[i + at(s, i)..];
  }

  /** Every replacement is as long as the match it replaces. */
  predicate KeepsLength(s: string, at: Matcher, repl: Replacer) {
    forall j :: 0 <= j < |s| && MatchesAt(at, s, j) ==> |repl(s, j)| == at(s, j)
  }

  /** With such replacements the result is as long as the input. */
  lemma {:induction false} SubFromLength(s: string, at: Matcher, repl: Replacer, i: nat)
    requires i <= |s| && KeepsLength(s, at, repl)
    ensures |SubFrom(s, at, repl, i)| == |s| - i
    decreases |s| - i
  {
    if i < |s| {
      if MatchesAt(at, s, i) {
        SubFromLength(s, at, repl, i + at(s, i));
      } else {
        SubFromLength(s, at, repl, i + 1);
      }
    }
  }

  /** The scan from `i` reaches `p` when no match starting in between runs
      past `p`; what it produces from `p` on then sits at the same offset as
      `p` does in the input. */
  lemma {:induction false} SubFromReaches(s: string, at: Matcher, repl: Replacer, i: nat, p: nat)
    requires i <= p <= |s| && KeepsLength(s, at, repl)
    requires forall j :: i <= j < p && MatchesAt(at, s, j) ==> j + at(s, j) <= p
    ensures p - i <= |SubFrom(s, at, repl, i)|
    ensures SubFrom(s, at, repl, i)[p - i..] == SubFrom(s, at, repl, p)
    decreases p - i
  {
    if i < p {
      var j := if MatchesAt(at, s, i) then i + at(s, i) else i + 1;
      var head := if MatchesAt(at, s, i) then repl(s, i) else [s[i]];
      SubFromReaches(s, at, repl, j, p);
      assert |head| == j - i;
      assert SubFrom(s, at, repl, i) == head + SubFrom(s, at, repl, j);
      assert (head + SubFrom(s, at, repl, j))[p - i..] == SubFrom(s, at, repl, j)[p - j..];
    } else {
      assert SubFrom(s, at, repl, i)[0..] == SubFrom(s, at, repl, i);
    }
  }

  /** A character inside no match is copied to the same position. */
  lemma SubKeeps(s: string, at: Matcher, repl: Replacer, k: nat)
    requires k < |s| && KeepsLength(s, at, repl)
    requires forall j :: 0 <= j <= k && MatchesAt(at, s, j) ==> j + at(s, j) <= k
    ensures |Sub(s, at, repl)| == |s| && Sub(s, at, repl)[k] == s[k]
  {
    SubFromLength(s, at, repl, 0);
    SubFromReaches(s, at, repl, 0, k);
    assert !MatchesAt(at, s, k);
    assert SubFrom(s, at, repl, k)[0] == s[k];
  }

  /** A match the scan reaches is replaced in place. */
  lemma SubReplacesAt(s: string, at: Matcher, repl: Replacer, i: nat)
    requires MatchesAt(at, s, i) && KeepsLength(s, at, repl)
    requires forall j :: 0 <= j < i && MatchesAt(at, s, j) ==> j + at(s, j) <= i
    ensures |Sub(s, at, repl)| == |s| && Sub(s, at, repl)[i..i + at(s, i)] == repl(s, i)
  {
    SubFromLength(s, at, repl, 0);
    SubFromReaches(s, at, repl, 0, i);
    var r := SubFrom(s, at, repl, i);
    assert r == repl(s, i) + SubFrom(s, at, repl, i + at(s, i));
    assert Sub(s, at, repl)[i..i + at(s, i)] == r[..at(s, i)];
  }

  /** A character that is neither in the input nor in any replacement is
      not in the result. */
  lemma {:induction false} SubFromAvoids(s: string, at: Matcher, repl: Replacer, i: nat, c: char)
    requires c !in s
    requires forall k :: i <= k < |s| && MatchesAt(at, s, k) ==> c !in repl(s, k)
    ensures c !in SubFrom(s, at, repl, i)
    decreases |s| - i
  {
    if i < |s| {
      if MatchesAt(at, s, i) {
        SubFromAvoids(s, at, repl, i + at(s, i), c);
      } else {
        SubFromAvoids(s, at, repl, i + 1, c);
      }
    }
  }

  /** A replacement that only upper-cases letters of the match gives a
      result that only upper-cases letters of the input. */
  lemma {:induction false} SubFromCaseOnly(s: string, at: Matcher, repl: Replacer, i: nat)
    requires i <= |s|
    requires forall k :: i <= k < |s| && MatchesAt(at, s, k) ==> CaseOnly(repl(s, k), s[k..k + at(s, k)])
    ensures CaseOnly(SubFrom(s, at, repl, i), s[i..])
    decreases |s| - i
  {
    if i < |s| {
      var j := if MatchesAt(at, s, i) then i + at(s, i) else i + 1;
      var head := if MatchesAt(at, s, i) then repl(s, i) else [s[i]];
      SubFromCaseOnly(s, at, repl, j);
      assert s[i..j] == [s[i]] || MatchesAt(at, s, i);
      assert s[i..] == s[i..j] + s[j..];
      CaseOnlyConcat(head, s[i..j], SubFrom(s, at, repl, j), s[j..]);
    }
  }

  /** Deleting matches leaves a subsequence of the input: nothing is added or reordered. */
  lemma {:induction false} SubEraseIsSubsequence(s: string, at: Matcher, i: nat)
    requires i <= |s|
    ensures IsSubsequence(SubFrom(s, at, Erase, i), s[i..])
    decreases |s| - i
  {
    if i < |s| {
      if MatchesAt(at, s, i) {
        var j := i + at(s, i);
        SubEraseIsSubsequence(s, at, j);
        assert "" + SubFrom(s, at, Erase, j) == SubFrom(s, at, Erase, j);
        assert s[i..][j - i..] == s[j..];
        SubsequenceOfSuffix(SubFrom(s, at, Erase, i), s[i..], j - i);
      } else {
        SubEraseIsSubsequence(s, at, i + 1);
        assert s[i..][1..] == s[i + 1..];
      }
    }
  }

  /** `re.search(pattern, s)`: the leftmost position at which the pattern matches. */
  function Search(s: string, at: Matcher): (r: Option<nat>)
    ensures r.Some? ==> MatchesAt(at, s, r.value)
    ensures r.Some? ==> forall k :: 0 <= k < r.value ==> !MatchesAt(at, s, k)
    ensures r.None? ==> forall k :: 0 <= k < |s| ==> !MatchesAt(at, s, k)
  {
    SearchFrom(s, at, 0)
  }

  function SearchFrom(s: string, at: Matcher, i: nat): (r: Option<nat>)
    requires forall k :: 0 <= k < i ==> !MatchesAt(at, s, k)
    ensures r.Some? ==> i <= r.value && MatchesAt(at, s, r.value)
    ensures r.Some? ==> forall k :: 0 <= k < r.value ==> !MatchesAt(at, s, k)
    ensures r.None? ==> forall k :: 0 <= k < |s| ==> !MatchesAt(at, s, k)
    decreases |s| - i
  {
    if i >= |s| then None
    else if MatchesAt(at, s, i) then Some(i)
    else SearchFrom(s, at, i + 1)
  }
}
