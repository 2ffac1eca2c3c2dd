/**
 * The "average across all time columns" SQL fragment that `nl_to_sql` builds
 * from the time columns of `home_value_index`:
 *   (ROUND((<t1> + <t2> + ...)::numeric / <n>, 2)) AS avg_home_value
 * where each term is the column qualified by the table, both in double quotes.
 */
module AvgExpression {
  import opened Text
  import opened Wrappers

  const HomeValueTable: string := "home_value_index"

  const AvgHead: string := "(ROUND(("
  const AvgDivide: string := ")::numeric / "
  /** Rounding to two places and the alias of the result column. */
  const AvgTail: string := ", 2)) AS avg_home_value"
  const TermSeparator: string := " + "

  /** `"table"."column"`; quotes inside either name are not escaped. */
  function QualifiedColumn(table: string, column: string): string {
    "\"" + table + "\".\"" + column + "\""
  }

  /** One qualified term per column, in column order. */
  function SumTerms(table: string, columns: seq<string>): seq<string> {
    seq(|columns|, i requires 0 <= i < |columns| => QualifiedColumn(table, columns[i]))
  }

  /** `col_expr`: the qualified terms joined by " + ". */
  function SumExpr(columns: seq<string>): string {
    Join(SumTerms(HomeValueTable, columns), TermSeparator)
  }

  /**
   * `avg_expr` as written: the divisor is `len(time_cols)` printed in decimal,
   * with no guard for an empty list of time columns.
   */
  function AvgExpr(columns: seq<string>): string {
    AvgHead + SumExpr(columns) + AvgDivide + NatToDecimal(|columns|) + AvgTail
  }

  /** The sum grows at its right end, one separator and one term per added column. */
  lemma SumExprAppend(columns: seq<string>, c: string)
    requires |columns| > 0
    ensures SumExpr(columns + [c]) == SumExpr(columns) + TermSeparator + QualifiedColumn(HomeValueTable, c)
  {
    assert SumTerms(HomeValueTable, columns + [c])
        == SumTerms(HomeValueTable, columns) + [QualifiedColumn(HomeValueTable, c)];
    JoinAppend(SumTerms(HomeValueTable, columns), QualifiedColumn(HomeValueTable, c), TermSeparator);
  }

  /**
   * When no column name contains '+', the sum has exactly `n - 1` plus signs:
   * one per separator between the `n` terms.
   */
  lemma SumExprSeparatorCount(columns: seq<string>)
    requires |columns| > 0
    requires forall i :: 0 <= i < |columns| ==> '+' !in columns[i]
    ensures CountChar(SumExpr(columns), '+') == |columns| - 1
  {
    var terms := SumTerms(HomeValueTable, columns);
    NoPlusInTable();
    forall i | 0 <= i < |terms|
      ensures '+' !in terms[i]
    {
      QualifiedColumnAvoids(HomeValueTable, columns[i], '+');
    }
    CountInPartsAbsent(terms, '+');
    JoinCountChar(terms, TermSeparator, '+');
    SeparatorHasOnePlus();
  }

  lemma NoPlusInTable()
    ensures '+' !in HomeValueTable
  {
  }

  lemma SeparatorHasOnePlus()
    ensures CountChar(TermSeparator, '+') == 1
  {
    assert TermSeparator == [' '] + ['+'] + [' '];
    CountCharConcat([' '] + ['+'], [' '], '+');
    CountCharConcat([' '], ['+'], '+');
  }

  /** A character other than the quote and the dot occurs in a qualified term only through the names. */
  lemma QualifiedColumnAvoids(table: string, column: string, c: char)
    requires c != '"' && c != '.' && c !in table && c !in column
    ensures c !in QualifiedColumn(table, column)
  {
  }

  /** A piece of the sum between two plus signs, without the blank on either side. */
  function TermOfPiece(piece: string): string {
    RemoveSuffix(RemovePrefix(piece, " "), " ")
  }

  /** Reads a sum expression back as its terms: split on '+', blanks around each term removed. */
  function SumTermsOf(sum: string): seq<string> {
    var pieces := SplitOn(sum, '+');
    seq(|pieces|, i requires 0 <= i < |pieces| => TermOfPiece(pieces[i]))
  }

  lemma TermOfPieceOf(lead: string, term: string, trail: string)
    requires lead == "" || lead == " "
    requires trail == "" || trail == " "
    requires |term| > 0 && term[0] == '"' && term[|term| - 1] == '"'
    ensures TermOfPiece(lead + term + trail) == term
  {
    var piece := lead + term + trail;
    assert piece == lead + (term + trail);
    if lead == " " {
      RemovePrefixOf(" ", term + trail);
    } else {
      assert !StartsWith(piece, " ") by { assert piece[0] == '"'; }
    }
    if trail == " " {
      RemoveSuffixOf(term, " ");
    } else {
      assert !EndsWith(term, " ") by { assert term[|term| - 1] == '"'; }
    }
  }

  /** The text of a term that sits between `"home_value_index"."` and the closing quote. */
  function ColumnOfTerm(term: string): Option<string> {
    Between(term, "\"" + HomeValueTable + "\".\"", "\"")
  }

  lemma QualifiedColumnReadBack(column: string)
    ensures ColumnOfTerm(QualifiedColumn(HomeValueTable, column)) == Some(column)
  {
    var head := "\"" + HomeValueTable + "\".\"";
    assert QualifiedColumn(HomeValueTable, column) == head + column + "\"";
    BetweenOf(head, column, "\"");
  }

  /**
   * The sum reads back as one term per time column, in input order, each
   * `"home_value_index"."c"` naming its column, when no name contains '+'.
   */
  lemma SumExprReadBack(columns: seq<string>)
    requires |columns| > 0
    requires forall i :: 0 <= i < |columns| ==> '+' !in columns[i]
    ensures |SumTermsOf(SumExpr(columns))| == |columns|
    ensures forall i :: 0 <= i < |columns| ==>
              SumTermsOf(SumExpr(columns))[i] == QualifiedColumn(HomeValueTable, columns[i])
              && ColumnOfTerm(SumTermsOf(SumExpr(columns))[i]) == Some(columns[i])
  {
    var terms := SumTerms(HomeValueTable, columns);
    SumExprSplit(columns);
    var pieces := SplitOn(SumExpr(columns), '+');
    var back := SumTermsOf(SumExpr(columns));
    forall i | 0 <= i < |columns|
      ensures back[i] == terms[i] && ColumnOfTerm(back[i]) == Some(columns[i])
    {
      var lead := if i > 0 then " " else "";
      var trail := if i < |columns| - 1 then " " else "";
      PaddedPiece(terms, i);
      QualifiedColumnQuoted(HomeValueTable, columns[i]);
      TermOfPieceOf(lead, terms[i], trail);
      QualifiedColumnReadBack(columns[i]);
    }
  }

  /** The i-th piece: the i-th term with a blank on each side that has a neighbour. */
  lemma PaddedPiece(terms: seq<string>, i: int)
    requires 0 <= i < |terms|
    ensures SplitPieces(PadInner(terms, " "), " ")[i]
            == (if i > 0 then " " else "") + terms[i] + (if i < |terms| - 1 then " " else "")
  {
  }

  lemma QualifiedColumnQuoted(table: string, column: string)
    ensures var q := QualifiedColumn(table, column); |q| > 0 && q[0] == '"' && q[|q| - 1] == '"'
  {
  }

  /** Splitting the sum on '+' leaves each term with the blanks of its neighbouring separators. */
  lemma SumExprSplit(columns: seq<string>)
    requires |columns| > 0
    requires forall i :: 0 <= i < |columns| ==> '+' !in columns[i]
    ensures SplitOn(SumExpr(columns), '+') == SplitPieces(PadInner(SumTerms(HomeValueTable, columns), " "), " ")
  {
    var terms := SumTerms(HomeValueTable, columns);
    var padded := PadInner(terms, " ");
    assert TermSeparator == " " + (['+'] + " ");
    JoinRegroup(terms, " ", ['+'] + " ");
    NoPlusInTable();
    forall i | 0 <= i < |padded|
      ensures '+' !in padded[i]
    {
      QualifiedColumnAvoids(HomeValueTable, columns[i], '+');
    }
    SplitJoin(padded, '+', " ");
  }

  /** The text strictly between a given head and tail, if `e` has both. */
  function Between(e: string, head: string, tail: string): (r: Option<string>)
    ensures r.Some? ==> e == head + r.value + tail
  {
    if |head| + |tail| <= |e| && StartsWith(e, head) && EndsWith(e, tail) then
      var mid := e[|head|..|e| - |tail|];
      assert e == e[..|head|] + mid + e[|e| - |tail|..];
      Some(mid)
    else None
  }

  lemma BetweenOf(head: string, x: string, tail: string)
    ensures Between(head + x + tail, head, tail) == Some(x)
  {
    var e := head + x + tail;
    assert e[..|head|] == head;
    assert e[|e| - |tail|..] == tail;
    assert e[|head|..|e| - |tail|] == x;
  }

  /** Splits `<sum>)::numeric / <digits>` into the sum text and the divisor's value. */
  function SplitDivisor(mid: string): Option<(string, nat)> {
    var k := TrailingDigits(mid);
    var rest := mid[..|mid| - k];
    if k == 0 || !EndsWith(rest, AvgDivide) then None
    else Some((rest[..|rest| - |AvgDivide|], DecimalValue(mid[|mid| - k..])))
  }

  lemma SplitDivisorOf(sum: string, n: nat)
    ensures SplitDivisor(sum + AvgDivide + NatToDecimal(n)) == Some((sum, n))
  {
    var digits := NatToDecimal(n);
    var front := sum + AvgDivide;
    var mid := front + digits;
    assert front[|front| - 1] == AvgDivide[|AvgDivide| - 1] == ' ';
    TrailingDigitsAfter(front, digits);
    assert mid[..|mid| - |digits|] == front;
    assert mid[|mid| - |digits|..] == digits;
    assert front[|front| - |AvgDivide|..] == AvgDivide;
    assert front[..|front| - |AvgDivide|] == sum;
    DecimalOfNat(n);
  }

  /**
   * Reads an average expression back: its sum expression and its divisor,
   * provided the text has the fixed head, `)::numeric / `, a decimal
   * divisor and the fixed tail (two decimal places, alias avg_home_value).
   */
  function ParseAvgExpr(e: string): Option<(string, nat)> {
    match Between(e, AvgHead, AvgTail)
    case None => None
    case Some(mid) => SplitDivisor(mid)
  }

  /**
   * The expression divides exactly the sum of the time columns by their
   * number, printed in decimal, rounds to two places and is aliased
   * avg_home_value -- for every list of time columns, the empty one included.
   */
  lemma AvgExprRoundTrip(columns: seq<string>)
    ensures ParseAvgExpr(AvgExpr(columns)) == Some((SumExpr(columns), |columns|))
  {
    var sum := SumExpr(columns);
    var digits := NatToDecimal(|columns|);
    assert AvgExpr(columns) == AvgHead + (sum + AvgDivide + digits) + AvgTail;
    BetweenOf(AvgHead, sum + AvgDivide + digits, AvgTail);
    SplitDivisorOf(sum, |columns|);
  }

  lemma ZeroDivisorHead()
    ensures AvgHead + AvgDivide == "(ROUND(()::numeric / "
  {
  }

  lemma ZeroDivisorTail()
    ensures "0" + AvgTail == "0, 2)) AS avg_home_value"
  {
  }

  /** With no time columns the code as written divides by zero. */
  lemma AvgExprNoColumns()
    ensures AvgExpr([]) == "(ROUND(()::numeric / 0, 2)) AS avg_home_value"
  {
    var none: seq<string> := [];
    assert SumExpr(none) == "";
    assert NatToDecimal(0) == "0";
    assert AvgExpr(none) == (AvgHead + AvgDivide) + ("0" + AvgTail);
    ZeroDivisorHead();
    ZeroDivisorTail();
  }

  datatype AvgError = NoTimeColumns

  /**
   * The corrected builder: refuses an empty list of time columns instead of
   * emitting a division by zero, and otherwise agrees with `AvgExpr`.
   */
  function CheckedAvgExpr(columns: seq<string>): (r: Result<string, AvgError>)
    ensures r.Err? <==> |columns| == 0
    ensures r.Ok? ==> r.value == AvgExpr(columns)
    ensures r.Ok? ==> exists n: nat :: n >= 1 && ParseAvgExpr(r.value) == Some((SumExpr(columns), n))
  {
    if |columns| == 0 then Err(NoTimeColumns)
    else
      AvgExprRoundTrip(columns);
      Ok(AvgExpr(columns))
  }
}
