/**
 * Schema extraction: the three header rows of a sheet (property name, type keyword,
 * comment) become one row descriptor per usable column, and comments are re-flowed
 * into documentation-comment lines.
 */
module Schema {
  import opened Wrappers
  import opened Text

  /** A sheet as the spreadsheet reader delivers it: a column count and rows of cell texts. */
  datatype DataTable = DataTable(columnCount: nat, rows: seq<seq<string>>)

  /** Every row has one cell per column, as in a DataTable. */
  predicate WellFormed(table: DataTable) {
    forall r :: 0 <= r < |table.rows| ==> |table.rows[r]| == table.columnCount
  }

  /** DataTableRowInfo: one column descriptor of the generated row type. */
  datatype RowInfo = RowInfo(propertyName: string, typeName: string, comments: string)

  /** The exceptions of the core that reach the per-file handler of the import loop. */
  datatype ImportError =
    | HeaderRowsMissing   // a header row the schema reads does not exist
    | RowIndexOutOfRange  // a data row before the first row of the sheet is read

  // ---------------------------------------------------------------------------
  // Comment re-flow: Regex("\r*\n").Replace(comments, newLine + "\t\t/// ")
  // ---------------------------------------------------------------------------

  /** The text put in place of each line break of a comment. */
  function CommentLineBreak(newLine: string): string {
    newLine + "\t\t/// "
  }

  /** The number of carriage returns s starts with. */
  function LeadingCRs(s: string): (n: nat)
    ensures n <= |s|
    ensures forall k :: 0 <= k < n ==> s[k] == '\r'
    ensures n < |s| ==> s[n] != '\r'
  {
    if |s| > 0 && s[0] == '\r' then 1 + LeadingCRs(s[1..]) else 0
  }

  /**
   * The length of the match of the regular expression \r*\n at the start of s, if any.
   * The greedy \r* takes every leading carriage return; giving some back cannot help,
   * since the character after them would then be a carriage return, not a line feed.
   */
  function LineBreakMatch(s: string): (m: Option<nat>)
    ensures m.Some? ==> 1 <= m.value <= |s| && s[m.value - 1] == '\n'
    ensures '\n' !in s ==> m.None?
  {
    var n := LeadingCRs(s);
    if n < |s| && s[n] == '\n' then Some(n + 1) else None
  }

  /**
   * A match is a run of carriage returns and one line feed at the very start of the text,
   * and every such run is the match.
   */
  lemma LineBreakMatchSpec(s: string)
    ensures LineBreakMatch(s).Some? ==> AllCRs(s[..LineBreakMatch(s).value - 1])
    ensures forall e :: 0 <= e < |s| && s[e] == '\n' && AllCRs(s[..e]) ==> LineBreakMatch(s) == Some(e + 1)
  {
    var n := LeadingCRs(s);
    if n < |s| && s[n] == '\n' {
      forall k | 0 <= k < n ensures s[..n][k] == '\r' { assert s[..n][k] == s[k]; }
    }
    forall e | 0 <= e < |s| && s[e] == '\n' && AllCRs(s[..e])
      ensures n == e
    {
    }
  }

  /**
   * Regex.Replace as the regular-expression engine performs it: try a match at the
   * current position; on success emit rep and continue after the match, otherwise
   * copy one character and try again at the next position.
   */
  function ReplaceLineBreaks(s: string, rep: string): string
    decreases |s|
  {
    if s == [] then []
    else match LineBreakMatch(s)
      case Some(n) => rep + ReplaceLineBreaks(s[n..], rep)
      case None => [s[0]] + ReplaceLineBreaks(s[1..], rep)
  }

  /** s without the carriage returns it ends with. */
  function TrimTrailingCRs(s: string): string
    decreases |s|
  {
    if |s| > 0 && s[|s| - 1] == '\r' then TrimTrailingCRs(s[..|s| - 1]) else s
  }

  /**
   * Reference definition of the re-flow, line by line: the text is cut at each line
   * feed; every line but the last loses its trailing carriage returns, and the lines
   * are joined with rep. A carriage return that no line feed follows is kept.
   */
  function ReflowByLines(s: string, rep: string): string
    decreases |s|
  {
    var i := IndexOf(s, "\n");
    if i == -1 then s else TrimTrailingCRs(s[..i]) + rep + ReflowByLines(s[i + 1..], rep)
  }

  predicate AllCRs(s: string) {
    forall k :: 0 <= k < |s| ==> s[k] == '\r'
  }

  lemma {:induction false} TrimTrailingCRsOfCRs(s: string)
    requires AllCRs(s)
    ensures TrimTrailingCRs(s) == []
    decreases |s|
  {
    if |s| > 0 {
      TrimTrailingCRsOfCRs(s[..|s| - 1]);
    }
  }

  lemma {:induction false} TrimTrailingCRsCons(c: char, s: string)
    requires !(c == '\r' && AllCRs(s))
    ensures TrimTrailingCRs([c] + s) == [c] + TrimTrailingCRs(s)
    decreases |s|
  {
    if |s| > 0 && s[|s| - 1] == '\r' {
      assert ([c] + s)[..|s|] == [c] + s[..|s| - 1];
      TrimTrailingCRsCons(c, s[..|s| - 1]);
    }
  }

  /** Text without line feeds passes through the regex replacement unchanged. */
  lemma {:induction false} ReplaceLineBreaksWithoutLF(s: string, rep: string)
    ensures '\n' !in s ==> ReplaceLineBreaks(s, rep) == s
    decreases |s|
  {
    if s != [] && '\n' !in s {
      ReplaceLineBreaksWithoutLF(s[1..], rep);
    }
  }

  /** The first line of text, its line feed, and the rest: the line loses its trailing CRs. */
  lemma {:induction false} ReplaceLineBreaksFirstLine(line: string, rest: string, rep: string)
    requires '\n' !in line
    ensures ReplaceLineBreaks(line + "\n" + rest, rep) == TrimTrailingCRs(line) + rep + ReplaceLineBreaks(rest, rep)
    decreases |line|
  {
    var s := line + "\n" + rest;
    if AllCRs(line) {
      CRLineBreak(line, rest, rep);
    } else {
      NoMatchBeforeOtherChar(line, rest);
      ReplaceLineBreaksCopy(s, rep);
      var tail := ReplaceLineBreaks(rest, rep);
      assert s[1..] == line[1..] + "\n" + rest;
      ReplaceLineBreaksFirstLine(line[1..], rest, rep);
      assert TrimTrailingCRs(line) == [line[0]] + TrimTrailingCRs(line[1..]) by {
        assert line == [line[0]] + line[1..];
        assert !(line[0] == '\r' && AllCRs(line[1..]));
        TrimTrailingCRsCons(line[0], line[1..]);
      }
      SeqAssoc(line[0], TrimTrailingCRs(line[1..]), rep, tail);
    }
  }

  /** A line of carriage returns only, with its line feed, is one match. */
  lemma CRLineBreak(line: string, rest: string, rep: string)
    requires AllCRs(line)
    ensures ReplaceLineBreaks(line + "\n" + rest, rep) == TrimTrailingCRs(line) + rep + ReplaceLineBreaks(rest, rep)
  {
    var s := line + "\n" + rest;
    assert s[|line|] == '\n';
    assert LeadingCRs(s) == |line|;
    assert s[|line| + 1..] == rest;
    TrimTrailingCRsOfCRs(line);
  }

  /** A line holding something other than a carriage return before its line feed: no match yet. */
  lemma NoMatchBeforeOtherChar(line: string, rest: string)
    requires '\n' !in line && !AllCRs(line)
    ensures LineBreakMatch(line + "\n" + rest).None?
  {
    var s := line + "\n" + rest;
    var n := LeadingCRs(s);
    var k :| 0 <= k < |line| && line[k] != '\r';
    assert s[k] == line[k];
    assert n <= k;
    assert s[n] == line[n];
  }

  /** Where no match starts, the first character is copied. */
  lemma ReplaceLineBreaksCopy(s: string, rep: string)
    requires s != [] && LineBreakMatch(s).None?
    ensures ReplaceLineBreaks(s, rep) == [s[0]] + ReplaceLineBreaks(s[1..], rep)
  {
  }

  /** The regex replacement and the line-by-line definition agree on every input. */
  lemma {:induction false} ReplaceLineBreaksIsReflowByLines(s: string, rep: string)
    ensures ReplaceLineBreaks(s, rep) == ReflowByLines(s, rep)
    decreases |s|
  {
    var i := IndexOf(s, "\n");
    if i == -1 {
      forall k | 0 <= k < |s|
        ensures s[k] != '\n'
      {
        assert !OccursAt(s, "\n", k);
        assert s[k..k + 1] == [s[k]];
      }
      ReplaceLineBreaksWithoutLF(s, rep);
    } else {
      assert s[i..i + 1] == "\n";
      forall k | 0 <= k < i
        ensures s[..i][k] != '\n'
      {
        assert !OccursAt(s, "\n", k);
        assert s[k..k + 1] == [s[k]];
      }
      assert s == s[..i] + "\n" + s[i + 1..];
      ReplaceLineBreaksFirstLine(s[..i], s[i + 1..], rep);
      ReplaceLineBreaksIsReflowByLines(s[i + 1..], rep);
    }
  }

  /**
   * FormatCommentsString: an empty comment is returned as it is; otherwise every run
   * of carriage returns ending in a line feed becomes one CommentLineBreak.
   */
  function FormatComments(comments: string, newLine: string): (r: string)
    ensures r == ReflowByLines(comments, CommentLineBreak(newLine))
    ensures '\n' !in comments ==> r == comments
  {
    if comments == [] then comments
    else
      ReplaceLineBreaksIsReflowByLines(comments, CommentLineBreak(newLine));
      ReplaceLineBreaksWithoutLF(comments, CommentLineBreak(newLine));
      ReplaceLineBreaks(comments, CommentLineBreak(newLine))
  }

  // ---------------------------------------------------------------------------
  // Schema extraction: GenerateDataTableRowInfos
  // ---------------------------------------------------------------------------

  /** The header rows a schema over the first n columns reads exist and have those cells. */
  predicate HasHeader(table: DataTable, n: nat) {
    n == 0 || (|table.rows| >= 3 && n <= |table.rows[0]| && n <= |table.rows[1]| && n <= |table.rows[2]|)
  }

  /** Column c has a non-blank property name (row 0) and a non-blank type keyword (row 1). */
  predicate IsSchemaColumn(table: DataTable, c: nat)
    requires HasHeader(table, c + 1)
  {
    Trim(table.rows[0][c]) != "" && Trim(table.rows[1][c]) != ""
  }

  /** The descriptor column c yields: trimmed name and type, trimmed and re-flowed comment. */
  function ColumnInfo(table: DataTable, c: nat, newLine: string): RowInfo
    requires HasHeader(table, c + 1)
  {
    RowInfo(Trim(table.rows[0][c]), Trim(table.rows[1][c]), FormatComments(Trim(table.rows[2][c]), newLine))
  }

  /** Which of the first n columns are schema columns. */
  function SchemaMask(table: DataTable, n: nat): (mask: seq<bool>)
    requires HasHeader(table, n)
    ensures |mask| == n
  {
    seq(n, c requires 0 <= c < n => IsSchemaColumn(table, c))
  }

  /** The indices at which mask holds, in increasing order. */
  function Selected(mask: seq<bool>): seq<nat>
    decreases |mask|
  {
    if mask == [] then []
    else Selected(mask[..|mask| - 1]) + (if mask[|mask| - 1] then [|mask| - 1] else [])
  }

  /** Selected keeps exactly the indices at which mask holds, in increasing order. */
  lemma {:induction false} SelectedIsFilter(mask: seq<bool>)
    ensures |Selected(mask)| <= |mask|
    ensures forall k :: 0 <= k < |Selected(mask)| ==> Selected(mask)[k] < |mask|
    ensures forall k, l :: 0 <= k < l < |Selected(mask)| ==> Selected(mask)[k] < Selected(mask)[l]
    ensures forall c :: 0 <= c < |mask| ==> (c in Selected(mask) <==> mask[c])
    decreases |mask|
  {
    if mask != [] {
      var n := |mask|;
      var front := mask[..n - 1];
      SelectedIsFilter(front);
      var before := Selected(front);
      var last := if mask[n - 1] then [n - 1] else [];
      assert Selected(mask) == before + last;
      forall c | 0 <= c < n
        ensures c in before + last <==> mask[c]
      {
        if c == n - 1 {
          assert c !in before;
        } else {
          assert front[c] == mask[c];
          assert c !in last;
        }
      }
    }
  }

  /** The schema columns among the first n, in increasing order. */
  function SchemaColumns(table: DataTable, n: nat): seq<nat>
    requires HasHeader(table, n)
  {
    Selected(SchemaMask(table, n))
  }

  /** The descriptors of the schema columns among the first n, in column order. */
  function SchemaOf(table: DataTable, n: nat, newLine: string): (schema: seq<RowInfo>)
    requires HasHeader(table, n)
  {
    var columns := SchemaColumns(table, n);
    SelectedIsFilter(SchemaMask(table, n));
    seq(|columns|, k requires 0 <= k < |columns| => ColumnInfo(table, columns[k], newLine))
  }

  /**
   * The schema columns are exactly the columns whose trimmed name and type are both
   * non-empty, in increasing column order; there are at most n of them.
   */
  lemma SchemaColumnsAreFilter(table: DataTable, n: nat)
    requires HasHeader(table, n)
    ensures |SchemaColumns(table, n)| <= n
    ensures forall k :: 0 <= k < |SchemaColumns(table, n)| ==> SchemaColumns(table, n)[k] < n
    ensures forall k, l :: 0 <= k < l < |SchemaColumns(table, n)| ==> SchemaColumns(table, n)[k] < SchemaColumns(table, n)[l]
    ensures forall c :: 0 <= c < n ==> (c in SchemaColumns(table, n) <==> IsSchemaColumn(table, c))
  {
    SelectedIsFilter(SchemaMask(table, n));
  }

  /** Taking one more column extends the schema by that column's descriptor, if it has one. */
  lemma SchemaOfNext(table: DataTable, n: nat, newLine: string)
    requires HasHeader(table, n + 1)
    ensures SchemaOf(table, n + 1, newLine) == SchemaOf(table, n, newLine)
      + (if IsSchemaColumn(table, n) then [ColumnInfo(table, n, newLine)] else [])
  {
    var mask := SchemaMask(table, n + 1);
    assert mask[..n] == SchemaMask(table, n);
    SelectedIsFilter(mask);
    SelectedIsFilter(mask[..n]);
  }

  /**
   * In a strictly increasing sequence of indices, the entry at position k is at least k,
   * and equals k exactly when every index up to k occurs.
   */
  lemma {:induction false} IncreasingIndices(s: seq<nat>, k: nat)
    requires forall a, b :: 0 <= a < b < |s| ==> s[a] < s[b]
    requires k < |s|
    ensures s[k] >= k
    ensures s[k] == k <==> forall c :: 0 <= c <= k ==> c in s
  {
    if k == 0 {
      if 0 in s {
        var p :| 0 <= p < |s| && s[p] == 0;
      }
    } else {
      IncreasingIndices(s, k - 1);
      assert s[k - 1] < s[k];
      if forall c :: 0 <= c <= k ==> c in s {
        assert s[k - 1] == k - 1;
        assert k in s;
        var p :| 0 <= p < |s| && s[p] == k;
      }
      if s[k] == k {
        assert s[k - 1] == k - 1;
        forall c | 0 <= c <= k
          ensures c in s
        {
          if c == k { assert s[k] == c; } else { assert c <= k - 1; }
        }
      }
    }
  }

  /**
   * The column behind schema entry k is never to its left, and it is column k itself
   * exactly when columns 0 to k are all schema columns. Row materialisation reads cell k
   * for entry k, so once a column has been skipped, the entries after it read cells of
   * other columns.
   */
  lemma SchemaColumnAlignment(table: DataTable, n: nat, k: nat)
    requires HasHeader(table, n)
    requires k < |SchemaColumns(table, n)|
    ensures k < n
    ensures SchemaColumns(table, n)[k] >= k
    ensures SchemaColumns(table, n)[k] == k <==> forall c :: 0 <= c <= k ==> IsSchemaColumn(table, c)
  {
    var columns := SchemaColumns(table, n);
    SchemaColumnsAreFilter(table, n);
    IncreasingIndices(columns, k);
    assert k < n by { assert columns[k] < n; }
    if forall c :: 0 <= c <= k ==> IsSchemaColumn(table, c) {
      forall c | 0 <= c <= k
        ensures c in columns
      {
        assert IsSchemaColumn(table, c);
      }
    }
    if forall c :: 0 <= c <= k ==> c in columns {
      forall c | 0 <= c <= k
        ensures IsSchemaColumn(table, c)
      {
        assert c in columns;
      }
    }
  }

  /** Every descriptor of the schema has a non-blank name and type, and they are trimmed. */
  lemma SchemaEntriesAreTrimmed(table: DataTable, n: nat, newLine: string)
    requires HasHeader(table, n)
    ensures forall k :: 0 <= k < |SchemaOf(table, n, newLine)| ==>
      var info := SchemaOf(table, n, newLine)[k];
      info.propertyName != "" && info.typeName != ""
      && Trim(info.propertyName) == info.propertyName && Trim(info.typeName) == info.typeName
  {
    var columns := SchemaColumns(table, n);
    SchemaColumnsAreFilter(table, n);
    forall k | 0 <= k < |columns|
      ensures Trim(Trim(table.rows[0][columns[k]])) == Trim(table.rows[0][columns[k]])
      ensures Trim(Trim(table.rows[1][columns[k]])) == Trim(table.rows[1][columns[k]])
      ensures IsSchemaColumn(table, columns[k])
    {
      TrimIsIdempotent(table.rows[0][columns[k]]);
      TrimIsIdempotent(table.rows[1][columns[k]]);
    }
  }

  /**
   * GenerateDataTableRowInfos. Reading row 0, 1 or 2 of a sheet that lacks it throws,
   * which the per-file handler of the import loop catches; that is HeaderRowsMissing.
   */
  method GenerateDataTableRowInfos(table: DataTable, newLine: string) returns (result: Result<seq<RowInfo>, ImportError>)
    requires WellFormed(table)
    ensures result.Failure? <==> table.columnCount > 0 && |table.rows| < 3
    ensures result.Success? ==> result.value == SchemaOf(table, table.columnCount, newLine)
  {
    var columnCount := table.columnCount;
    if columnCount > 0 && |table.rows| < 3 {
      return Failure(HeaderRowsMissing);
    }
    assert HasHeader(table, columnCount);
    var infos: seq<RowInfo> := [];
    for i := 0 to columnCount
      invariant infos == SchemaOf(table, i, newLine)
    {
      assert HasHeader(table, i + 1);
      SchemaOfNext(table, i, newLine);
      var propertyName := Trim(table.rows[0][i]);
      var typeName := Trim(table.rows[1][i]);
      var comments := Trim(table.rows[2][i]);
      if propertyName != "" && typeName != "" {
        infos := infos + [RowInfo(propertyName, typeName, FormatComments(comments, newLine))];
      }
    }
    return Success(infos);
  }
}
