/**
 * The translation prompt `nl_to_sql` sends to the language model: a fixed
 * template with the average expression, the schema description and the
 * user's question spliced in verbatim. The question is neither escaped nor
 * validated. The model call itself is not part of this model.
 */
module Prompt {
  import opened Text
  import opened Wrappers
  import opened Introspection
  import opened AvgExpression

  /** The template up to the indented average formula. */
  const PromptOpening: string :=
    "\nYou are an assistant that converts natural language to SQL.\n\n"
    + "IMPORTANT:\n"
    + "- Enclose all table and column names in double quotes (e.g., \"City\", \"State\", \"home_value_index\").\n"
    + "- Match the exact casing from the schema.\n"
    + "- Only return a valid SQL query, with no explanations or formatting like markdown.\n\n"
    + "Context:\n"
    + "- The table is time-series: each row is a region (like a city), and each column, excluding "
    + "\"RegionID\", \"City\", \"State\", is a date (e.g. \"2023-09-30\", \"2023-10-31\", etc.) "
    + "representing a home value.\n"
    + "- To calculate the average for a single city across time, use this formula:\n\n    "

  const SchemaHeading: string := "\n\nHere is the database schema:\n"
  const QuestionGap: string := "\n\n"
  const QuestionLead: string := "User question: \""
  const PromptClosing: string := "\nOnly output valid SQL.\n"

  /** The line that carries the user's question, in double quotes and unescaped. */
  function QuestionLine(question: string): string {
    QuestionLead + question + "\""
  }

  /** Fixed text around three holes, the shape of the template. */
  function Splice(opening: string, a: string, heading: string, s: string, gap: string, line: string, closing: string): string {
    opening + a + heading + s + gap + line + closing
  }

  /** The prompt text for a given average expression, schema description and question. */
  function PromptText(avgExpr: string, schema: string, question: string): string {
    Splice(PromptOpening, avgExpr, SchemaHeading, schema, QuestionGap, QuestionLine(question), PromptClosing)
  }

  /** Where the holes of the template sit, whatever its fixed text. */
  lemma SpliceOffsets(opening: string, a: string, heading: string, s: string, gap: string, line: string, closing: string)
    ensures OccursAt(a, Splice(opening, a, heading, s, gap, line, closing), |opening|)
    ensures OccursAt(s, Splice(opening, a, heading, s, gap, line, closing), |opening| + |a| + |heading|)
    ensures OccursAt(line, Splice(opening, a, heading, s, gap, line, closing),
                     |opening| + |a| + |heading| + |s| + |gap|)
  {
    var p := Splice(opening, a, heading, s, gap, line, closing);
    var i := |opening| + |a| + |heading|;
    var j := i + |s| + |gap|;
    assert p[|opening|..|opening| + |a|] == a;
    assert p[i..i + |s|] == s;
    assert p[j..j + |line|] == line;
  }

  /**
   * The average expression, the schema description and the quoted question
   * all appear verbatim in the prompt, at fixed offsets from its start.
   */
  lemma PromptCarriesInputs(avgExpr: string, schema: string, question: string)
    ensures OccursAt(avgExpr, PromptText(avgExpr, schema, question), |PromptOpening|)
    ensures OccursAt(schema, PromptText(avgExpr, schema, question),
                     |PromptOpening| + |avgExpr| + |SchemaHeading|)
    ensures OccursAt(QuestionLine(question), PromptText(avgExpr, schema, question),
                     |PromptOpening| + |avgExpr| + |SchemaHeading| + |schema| + |QuestionGap|)
  {
    SpliceOffsets(PromptOpening, avgExpr, SchemaHeading, schema, QuestionGap, QuestionLine(question), PromptClosing);
  }

  /** A line spliced after the second hole can carry a copy of the gap and the line's own lead. */
  lemma SpliceUnescaped(opening: string, a: string, heading: string, s: string, gap: string,
                        lead: string, t: string, u: string, closing: string)
    ensures Splice(opening, a, heading, s, gap, lead + (t + (gap + lead) + u) + "\"", closing)
         == Splice(opening, a, heading, s + (gap + lead) + t, gap, lead + u + "\"", closing)
  {
  }

  /**
   * Nothing marks where the schema ends and the question begins: a question
   * that contains the question heading yields the same prompt as a different
   * schema with a shorter question.
   */
  lemma PromptQuestionUnescaped(avgExpr: string, schema: string, t: string, u: string)
    ensures PromptText(avgExpr, schema, t + (QuestionGap + QuestionLead) + u)
         == PromptText(avgExpr, schema + (QuestionGap + QuestionLead) + t, u)
  {
    SpliceUnescaped(PromptOpening, avgExpr, SchemaHeading, schema, QuestionGap, QuestionLead, t, u, PromptClosing);
  }

  /** The prompt `nl_to_sql` builds as written, for the catalog rows of `home_value_index`. */
  function SourcePrompt(homeValueColumns: seq<Column>, schema: string, question: string): string {
    PromptText(AvgExpr(TimeColumns(homeValueColumns)), schema, question)
  }

  /**
   * As written, a `home_value_index` without date-named columns puts a
   * division by zero into the prompt.
   */
  lemma SourcePromptDividesByZero(homeValueColumns: seq<Column>, schema: string, question: string)
    requires forall i :: 0 <= i < |homeValueColumns| ==> !HasDatePrefix(homeValueColumns[i].0)
    ensures OccursAt("(ROUND(()::numeric / 0, 2)) AS avg_home_value",
                     SourcePrompt(homeValueColumns, schema, question), |PromptOpening|)
  {
    NoTimeColumnsIff(homeValueColumns);
    AvgExprNoColumns();
    PromptCarriesInputs(AvgExpr([]), schema, question);
  }

  /**
   * The corrected prompt builder: fails when `home_value_index` has no
   * date-named column, and otherwise builds the same prompt as the source.
   */
  function NlToSqlPrompt(homeValueColumns: seq<Column>, schema: string, question: string): (r: Result<string, AvgError>)
    ensures r.Err? <==> forall i :: 0 <= i < |homeValueColumns| ==> !HasDatePrefix(homeValueColumns[i].0)
    ensures r.Ok? ==> r.value == SourcePrompt(homeValueColumns, schema, question)
  {
    NoTimeColumnsIff(homeValueColumns);
    match CheckedAvgExpr(TimeColumns(homeValueColumns))
    case Err(e) => Err(e)
    case Ok(avgExpr) => Ok(PromptText(avgExpr, schema, question))
  }
}
