/** `generate_sql`: the prompt built from the schema and the question, and
    what is made of the model's answer. The API key and the language model
    are parameters. */
module TextToSql {
  import opened Wrappers
  import opened PyStr
  import opened SqlRunner

  /** `", ".join([col for col, _ in columns])`: the names, types dropped. */
  function ColumnNames(cols: seq<Column>): (names: seq<string>)
    ensures |names| == |cols|
    ensures forall k :: 0 <= k < |cols| ==> names[k] == cols[k].name
  {
    seq(|cols|, k requires 0 <= k < |cols| => cols[k].name)
  }

  /** `f"Table: {table}, Columns: {...}"` */
  function SchemaLine(table: string, cols: seq<Column>): string {
    "Table: " + table + ", Columns: " + Join(ColumnNames(cols), ", ")
  }

  /** One line per table, in the dictionary's order. */
  function SchemaLines(s: Schema): (lines: seq<string>)
    requires IsDict(s)
    ensures |lines| == |s.order|
    ensures forall k :: 0 <= k < |s.order| ==> lines[k] == SchemaLine(s.order[k], s.columns[s.order[k]])
  {
    seq(|s.order|, k requires 0 <= k < |s.order| => SchemaLine(s.order[k], s.columns[s.order[k]]))
  }

  /** `schema_prompt`: the lines joined by newlines. */
  function SchemaPrompt(s: Schema): string
    requires IsDict(s)
  {
    Join(SchemaLines(s), "\n")
  }

  /** No table or column name has a newline in it. */
  predicate SingleLineNames(s: Schema)
    requires IsDict(s)
  {
    (forall k :: 0 <= k < |s.order| ==> '\n' !in s.order[k]) &&
    (forall k, j :: 0 <= k < |s.order| && 0 <= j < |s.columns[s.order[k]]| ==>
       '\n' !in s.columns[s.order[k]][j].name)
  }

  /** A name list without newlines joins into a line without newlines. */
  lemma {:induction false} JoinNoNewline(parts: seq<string>)
    requires forall j :: 0 <= j < |parts| ==> '\n' !in parts[j]
    ensures '\n' !in Join(parts, ", ")
    decreases |parts|
  {
    if |parts| > 1 {
      JoinNoNewline(parts[1..]);
    }
  }

  /** Reading the schema prompt back line by line gives one line per table,
      in order, when the names are single-line and there is a table. */
  lemma SchemaPromptLines(s: Schema)
    requires IsDict(s) && SingleLineNames(s) && |s.order| >= 1
    ensures Split(SchemaPrompt(s), '\n') == SchemaLines(s)
  {
    var lines := SchemaLines(s);
    forall k | 0 <= k < |lines| ensures '\n' !in lines[k] {
      var cols := s.columns[s.order[k]];
      JoinNoNewline(ColumnNames(cols));
    }
    SplitJoin(lines, '\n');
  }

  const PromptHead: string := "\n    Here is the schema information for the database:\n    "
  const PromptMid: string := "\n\n    Convert this natural language query into an optimized SQL query:\n    "
  const PromptTail: string := "\n    "

  /** The f-string of lines 28 to 34. */
  function Prompt(nl: string, schemaPrompt: string): string {
    PromptHead + schemaPrompt + PromptMid + nl + PromptTail
  }

  /** The schema prompt and the question are in the prompt verbatim, at
      fixed places. */
  lemma PromptHolds(nl: string, schemaPrompt: string)
    ensures LitAt(Prompt(nl, schemaPrompt), |PromptHead|, schemaPrompt)
    ensures LitAt(Prompt(nl, schemaPrompt), |PromptHead| + |schemaPrompt| + |PromptMid|, nl)
  {
    PartsAt(PromptHead, schemaPrompt, PromptMid, nl, PromptTail);
  }

  lemma PartsAt(h: string, x: string, m: string, y: string, t: string)
    ensures LitAt(h + x + m + y + t, |h|, x)
    ensures LitAt(h + x + m + y + t, |h| + |x| + |m|, y)
  {
    var p := h + x + m + y + t;
    assert p[|h|..|h| + |x|] == x;
    assert p[|h| + |x| + |m|..|h| + |x| + |m| + |y|] == y;
  }

  /** `generate_sql(nl_query, schema_info)`: `apiKey` is `GEMINI_API_KEY`
      and `llm` the model's answer to a prompt (`None` when the call raises
      or gives no response). Without a non-empty key nothing is asked; an
      empty answer gives `None`; otherwise the answer is returned as it is. */
  function GenerateSql(nl: string, s: Schema, apiKey: Option<string>, llm: string -> Option<string>): (r: Option<string>)
    requires IsDict(s)
    ensures apiKey.None? || apiKey.value == "" ==> r.None?
    ensures r.Some? ==> r.value != "" && llm(Prompt(nl, SchemaPrompt(s))) == r
    ensures (apiKey.Some? && apiKey.value != "" && llm(Prompt(nl, SchemaPrompt(s))).Some? &&
             llm(Prompt(nl, SchemaPrompt(s))).value != "") ==> r.Some?
  {
    if apiKey.None? || apiKey.value == "" then None
    else
      match llm(Prompt(nl, SchemaPrompt(s)))
      case None => None
      case Some(text) => if text == "" then None else Some(text)
  }

  /** An empty schema gives an empty schema prompt. */
  lemma EmptySchemaPrompt()
    ensures SchemaPrompt(EmptySchema) == ""
  {
  }
}
