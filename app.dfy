/** The parts of the Streamlit page that compute something: cleaning the
    optimised query before it is run, and renaming repeated result columns
    before the rows become a table. */
module App {
  import opened PyStr

  // ---------------------------------------------------------------------
  // Code fences

  const Fence: string := "```"
  const SqlFence: string := "```sql"

  /** `q.replace("```sql", "").replace("```", "").strip()`: no code fence
      is left in the result. */
  function StripFences(q: string): (r: string)
    ensures !Contains(r, Fence)
  {
    var t := RemoveAll(RemoveAll(q, SqlFence), Fence);
    NoFenceLeft(RemoveAll(q, SqlFence));
    StripContains(t, Fence);
    Strip(t)
  }

  /** An occurrence in `[c] + r` is at the front or is an occurrence in `r`. */
  lemma ConsContains(c: char, r: string, p: string)
    ensures Contains([c] + r, p) ==> LitAt([c] + r, 0, p) || Contains(r, p)
  {
    var s := [c] + r;
    if Contains(s, p) && !LitAt(s, 0, p) {
      var i :| 0 <= i <= |s| && LitAt(s, i, p);
      forall m | 0 <= m < |p| ensures r[i - 1 + m] == p[m] {
        CharOfOccurrence(s, p, i, m);
        assert s[i + m] == r[i - 1 + m];
      }
      assert r[i - 1..i - 1 + |p|] == p;
      assert LitAt(r, i - 1, p);
    }
  }

  /** Deleting the fences from a string that does not start with two
      backticks gives a string that does not start with two backticks. */
  lemma NoDoubleBacktickStart(t: string)
    requires !StartsWith(t, "``")
    ensures !StartsWith(RemoveAll(t, Fence), "``")
  {
    if |t| > 0 {
      CharOfOccurrence(t, Fence, 0, 1);
      CharOfOccurrence(t, Fence, 0, 0);
      var r := RemoveAll(t, Fence);
      assert r == [t[0]] + RemoveAll(t[1..], Fence);
      if t[0] == '`' && |t| > 1 {
        assert t[1] != '`';
        CharOfOccurrence(t[1..], Fence, 0, 0);
        assert RemoveAll(t[1..], Fence) == [t[1]] + RemoveAll(t[2..], Fence) by {
          assert t[1..][1..] == t[2..];
        }
        CharOfOccurrence(r, "``", 0, 1);
      } else {
        CharOfOccurrence(r, "``", 0, 0);
      }
    }
  }

  /** After `replace("```", "")` no fence is left: what the deletion leaves
      of a run of backticks is at most two of them, and runs are kept apart
      by characters that are not deleted. */
  lemma {:induction false} NoFenceLeft(s: string)
    ensures !Contains(RemoveAll(s, Fence), Fence)
    decreases |s|
  {
    if |s| > 0 {
      if StartsWith(s, Fence) {
        NoFenceLeft(s[|Fence|..]);
      } else {
        var rest := RemoveAll(s[1..], Fence);
        NoFenceLeft(s[1..]);
        assert RemoveAll(s, Fence) == [s[0]] + rest;
        if s[0] == '`' {
          CharOfOccurrence(s, Fence, 0, 1);
          CharOfOccurrence(s, Fence, 0, 2);
          CharOfOccurrence(s[1..], "``", 0, 0);
          CharOfOccurrence(s[1..], "``", 0, 1);
          NoDoubleBacktickStart(s[1..]);
        }
        NoFenceCons(s[0], rest);
      }
    }
  }

  /** A character put in front of a fence-free string makes a fence only
      when it is a backtick and the string starts with two. */
  lemma NoFenceCons(c: char, rest: string)
    requires !Contains(rest, Fence)
    requires c == '`' ==> !StartsWith(rest, "``")
    ensures !Contains([c] + rest, Fence)
  {
    var s := [c] + rest;
    ConsContains(c, rest, Fence);
    CharOfOccurrence(s, Fence, 0, 0);
    FenceAtFront(c, rest);
  }

  lemma FenceAtFront(c: char, rest: string)
    ensures LitAt([c] + rest, 0, Fence) ==> StartsWith(rest, "``")
  {
    var s := [c] + rest;
    if LitAt(s, 0, Fence) {
      assert s[1..3] == rest[..2];
    }
  }

  /** What `strip` keeps is an infix, so it contains nothing its input does not. */
  lemma StripContains(s: string, p: string)
    ensures Contains(Strip(s), p) ==> Contains(s, p)
  {
    var r := Strip(s);
    if Contains(r, p) {
      var i := Run(s, Space);
      var j :| 0 <= j <= |r| && LitAt(r, j, p);
      LitAtInfix(s, i, i + |r|, j, p);
    }
  }

  lemma StripHasNoNewChar(s: string, c: char)
    ensures c in Strip(s) ==> c in s
  {
    var r := Strip(s);
    if c in r {
      var i := Run(s, Space);
      var k :| 0 <= k < |r| && r[k] == c;
      assert s[i + k] == c;
    }
  }

  /** The two `replace` calls delete nothing but fence characters: every
      character outside "```sql" occurs as often as in the query. */
  lemma FenceDeletionKeepsOthers(q: string, c: char)
    requires c !in SqlFence
    ensures multiset(RemoveAll(RemoveAll(q, SqlFence), Fence))[c] == multiset(q)[c]
  {
    assert SqlFence[0] == '`';
    RemoveAllKeepsOthers(q, SqlFence, c);
    RemoveAllKeepsOthers(RemoveAll(q, SqlFence), Fence, c);
  }

  /** The usual fenced answer, "```sql" + b + "```" with no backtick in
      the body `b`, comes out as the stripped body: the opening fence and
      the closing one are deleted and nothing else is. */
  lemma StripFencedBody(b: string)
    requires '`' !in b
    ensures StripFences(SqlFence + b + Fence) == Strip(b)
  {
    var q := SqlFence + b + Fence;
    assert q == SqlFence + (b + Fence);
    RemoveAllAt(q, SqlFence, 0);
    assert q[|SqlFence|..] == b + Fence;
    NoSqlFenceInBody(b);
    BodyThenFence(b);
  }

  /** The typical model answer loses its fences and the surrounding line
      breaks, and keeps every letter of the query. */
  lemma FencedAnswerExample()
    ensures StripFences("```sql\nselect sales\n```") == "select sales"
  {
    var q, b, x := "```sql\nselect sales\n```", "\nselect sales\n", "select sales";
    FencedAnswerParts(q, b, x);
    StripFencedBody(b);
    StripSurrounded("\n", x, "\n");
  }

  lemma FencedAnswerParts(q: string, b: string, x: string)
    requires q == "```sql\nselect sales\n```" && b == "\nselect sales\n" && x == "select sales"
    ensures q == SqlFence + b + Fence && '`' !in b && b == "\n" + x + "\n"
    ensures AllIn("\n", Space) && !IsSpaceChar(x[0]) && !IsSpaceChar(x[|x| - 1])
  {
  }

  /** No "```sql" occurs in b + "```" when `b` has no backtick. */
  lemma NoSqlFenceInBody(b: string)
    requires '`' !in b
    ensures RemoveAll(b + Fence, SqlFence) == b + Fence
  {
    var t := b + Fence;
    forall k | 0 <= k <= |t| ensures !LitAt(t, k, SqlFence) {
      CharOfOccurrence(t, SqlFence, k, 0);
      if k < |b| {
        assert t[k] == b[k];
      }
    }
  }

  /** Deleting fences from b + "```" leaves `b` when `b` has no backtick. */
  lemma BodyThenFence(b: string)
    requires '`' !in b
    ensures RemoveAll(b + Fence, Fence) == b
  {
    var t := b + Fence;
    forall k | 0 <= k < |b| ensures !LitAt(t, k, Fence) {
      CharOfOccurrence(t, Fence, k, 0);
      assert t[k] == b[k];
    }
    assert t[|b|..|b| + |Fence|] == Fence;
    RemoveAllAt(t, Fence, |b|);
    assert t[..|b|] == b;
    assert t[|b| + |Fence|..] == [];
  }

  // ---------------------------------------------------------------------
  // Comment lines

  /** The test of the list comprehension: the stripped line does not start
      with `--` and the line holds neither `/*` nor `*/`. */
  predicate KeepLine(line: string) {
    !StartsWith(Strip(line), "--") && !Contains(line, "/*") && !Contains(line, "*/")
  }

  /** `[line for line in lines if KeepLine(line)]`: the lines that pass, in
      their order, each as often as it occurs. */
  function FilterLines(lines: seq<string>): (kept: seq<string>)
    ensures IsSubsequence(kept, lines)
    ensures forall k :: 0 <= k < |kept| ==> KeepLine(kept[k])
    ensures forall line :: multiset(kept)[line] == if KeepLine(line) then multiset(lines)[line] else 0
    decreases |lines|
  {
    if lines == [] then []
    else
      var rest := FilterLines(lines[1..]);
      assert lines == [lines[0]] + lines[1..];
      assert multiset(lines) == multiset([lines[0]]) + multiset(lines[1..]);
      if KeepLine(lines[0]) then
        assert ([lines[0]] + rest)[1..] == rest;
        assert multiset([lines[0]] + rest) == multiset([lines[0]]) + multiset(rest);
        [lines[0]] + rest
      else
        rest
  }

  /** The query with its comment lines dropped and its ends stripped. */
  function DropComments(q: string): string {
    Strip(Join(FilterLines(Split(q, '\n')), "\n"))
  }

  // ---------------------------------------------------------------------
  // One statement

  /** Only the first statement is run: with a `;` in the query, the text
      before the first `;`, stripped; without one, the query itself. */
  function FirstStatement(q: string): (r: string)
    ensures ';' !in r
    ensures ';' !in q ==> r == q
    ensures ';' in q ==> exists n :: 0 <= n < |q| && q[n] == ';' && ';' !in q[..n] && r == Strip(q[..n])
  {
    if ';' in q then
      var first := Split(q, ';')[0];
      StripHasNoNewChar(first, ';');
      assert ';' !in first;
      assert q[..|first|] == first;
      Strip(first)
    else q
  }

  /** Line 96 to 109: the text that is sent to the warehouse. It never holds
      a `;`. */
  function CleanQuery(q: string): (r: string)
    ensures ';' !in r
  {
    FirstStatement(DropComments(StripFences(q)))
  }

  // ---------------------------------------------------------------------
  // Duplicate columns

  const DupSuffix: string := "_dup"

  /** The names the loop gives to `cols` when `seen` holds the names met
      so far: a name already seen gets `_dup` added, any other is kept and
      becomes seen. */
  function RenamedFrom(cols: seq<string>, seen: set<string>): (r: seq<string>)
    ensures |r| == |cols|
    decreases |cols|
  {
    if cols == [] then []
    else
      var name := if cols[0] in seen then cols[0] + DupSuffix else cols[0];
      [name] + RenamedFrom(cols[1..], seen + {cols[0]})
  }

  /** The name given at position `k`: renamed exactly when the name was seen
      before the loop or occurs earlier in the list. */
  lemma {:induction false} RenamedFromAt(cols: seq<string>, seen: set<string>, k: nat)
    requires k < |cols|
    ensures RenamedFrom(cols, seen)[k] ==
      if cols[k] in seen || cols[k] in cols[..k] then cols[k] + DupSuffix else cols[k]
    decreases k
  {
    if k > 0 {
      RenamedFromAt(cols[1..], seen + {cols[0]}, k - 1);
      assert cols[1..][k - 1] == cols[k];
      assert cols[..k] == [cols[0]] + cols[1..][..k - 1];
    }
  }

  /** The names the whole loop produces, starting from an empty seen-set. */
  function Renamed(cols: seq<string>): seq<string> {
    RenamedFrom(cols, {})
  }

  /** Line 122 to 129: the loop with its list and seen-set. */
  method RenameDuplicates(cols: seq<string>) returns (unique: seq<string>)
    ensures unique == Renamed(cols)
  {
    unique := [];
    var seen: set<string> := {};
    for i := 0 to |cols|
      invariant unique + RenamedFrom(cols[i..], seen) == Renamed(cols)
    {
      var col := cols[i];
      assert cols[i..][1..] == cols[i + 1..];
      if col in seen {
        assert seen + {col} == seen;
        unique := unique + [col + DupSuffix];
      } else {
        unique := unique + [col];
        seen := seen + {col};
      }
    }
    assert cols[|cols|..] == [];
  }

  /** A column is renamed exactly when its name occurs earlier in the list. */
  lemma RenamedIff(cols: seq<string>, k: nat)
    requires k < |cols|
    ensures Renamed(cols)[k] == cols[k] <==> cols[k] !in cols[..k]
    ensures Renamed(cols)[k] != cols[k] <==> Renamed(cols)[k] == cols[k] + DupSuffix
  {
    RenamedFromAt(cols, {}, k);
    if cols[k] in cols[..k] {
      assert |cols[k] + DupSuffix| > |cols[k]|;
    }
  }

  /** Some position holds the first occurrence of the name at `k`. */
  lemma {:induction false} FirstOccurrence(cols: seq<string>, k: nat)
    requires k < |cols|
    ensures exists j :: 0 <= j <= k && cols[j] == cols[k] && cols[j] !in cols[..j]
    decreases k
  {
    if cols[k] in cols[..k] {
      var j :| 0 <= j < k && cols[..k][j] == cols[k];
      FirstOccurrence(cols, j);
    } else {
      assert cols[k] !in cols[..k];
    }
  }

  /** Every original name is still there, at its first occurrence. */
  lemma RenamedKeepsEveryName(cols: seq<string>)
    ensures forall c :: c in cols ==> c in Renamed(cols)
  {
    forall c | c in cols ensures c in Renamed(cols) {
      var k :| 0 <= k < |cols| && cols[k] == c;
      FirstOccurrence(cols, k);
      var j :| 0 <= j <= k && cols[j] == cols[k] && cols[j] !in cols[..j];
      RenamedFromAt(cols, {}, j);
      assert Renamed(cols)[j] == c;
    }
  }

  /** A list without repeated names is left as it is. */
  lemma RenamedDistinct(cols: seq<string>)
    requires forall i, j :: 0 <= i < j < |cols| ==> cols[i] != cols[j]
    ensures Renamed(cols) == cols
  {
    forall k | 0 <= k < |cols| ensures Renamed(cols)[k] == cols[k] {
      RenamedFromAt(cols, {}, k);
      assert cols[k] !in cols[..k];
    }
  }

  /** The seen-set holds original names only, so a third `a` gets the same
      new name as the second and the result still has a repeat. */
  lemma RenamedNotUnique()
    ensures Renamed(["a", "a", "a"]) == ["a", "a_dup", "a_dup"]
  {
    var cols := ["a", "a", "a"];
    RenamedFromAt(cols, {}, 0);
    RenamedFromAt(cols, {}, 1);
    RenamedFromAt(cols, {}, 2);
    assert cols[1] in cols[..1];
    assert cols[2] in cols[..2];
    assert "a" + DupSuffix == "a_dup";
    var r := Renamed(cols);
    assert |r| == 3 && r[0] == "a" && r[1] == "a_dup" && r[2] == "a_dup";
  }

  /** The sum of the lengths of the names. */
  function TotalLength(names: seq<string>): nat
    decreases |names|
  {
    if names == [] then 0 else |names[0]| + TotalLength(names[1..])
  }

  lemma {:induction false} NameWithinTotal(names: seq<string>, x: string)
    requires x in names
    ensures |x| <= TotalLength(names)
    decreases |names|
  {
    if names[0] != x {
      assert x in names[1..];
      NameWithinTotal(names[1..], x);
    }
  }

  /** The renaming the loop is meant to do: a name already given out gets
      `_dup` added until it is new. No two columns then share a name, each
      new name starts with the original, and a list without repeats is left
      as it is. */
  method RenameUnique(cols: seq<string>) returns (unique: seq<string>)
    ensures |unique| == |cols|
    ensures forall i, j :: 0 <= i < j < |unique| ==> unique[i] != unique[j]
    ensures forall k :: 0 <= k < |cols| ==> StartsWith(unique[k], cols[k])
    ensures (forall i, j :: 0 <= i < j < |cols| ==> cols[i] != cols[j]) ==> unique == cols
  {
    unique := [];
    for i := 0 to |cols|
      invariant |unique| == i
      invariant forall a, b :: 0 <= a < b < i ==> unique[a] != unique[b]
      invariant forall k :: 0 <= k < i ==> StartsWith(unique[k], cols[k])
      invariant (forall a, b :: 0 <= a < b < |cols| ==> cols[a] != cols[b]) ==> unique == cols[..i]
    {
      var name := cols[i];
      while name in unique
        invariant StartsWith(name, cols[i])
        invariant name != cols[i] ==> cols[i] in unique
        decreases TotalLength(unique) + 1 - |name|
      {
        NameWithinTotal(unique, name);
        assert (name + DupSuffix)[..|cols[i]|] == name[..|cols[i]|];
        name := name + DupSuffix;
      }
      unique := unique + [name];
    }
  }
}
