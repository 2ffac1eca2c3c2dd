/**
 * What happens to the language model's reply before it is handed to the
 * database driver. `nl_to_sql` returns the reply stripped of surrounding whitespace; the
 * NL-to-SQL query mode then also removes one leading "```sql" fence and one
 * trailing "```" fence and strips again. The Create, Update and Delete modes
 * hand the stripped reply over as it is.
 */
module SqlCleanup {
  import opened Text

  const FenceOpen: string := "```sql"
  const FenceClose: string := "```"

  /** `code.strip().removeprefix("```sql").removesuffix("```").strip()` */
  function CleanSql(code: string): (r: string)
    ensures Trimmed(r)
  {
    Strip(RemoveSuffix(RemovePrefix(Strip(code), FenceOpen), FenceClose))
  }

  /** The cleaned statement is one contiguous piece of the reply. */
  lemma CleanSqlIsInfix(code: string)
    ensures IsInfix(CleanSql(code), code)
  {
    var t := Strip(code);
    var u := RemovePrefix(t, FenceOpen);
    var v := RemoveSuffix(u, FenceClose);
    InfixOf(t, code, LeadingSpaces(code));
    RemovePrefixOccurs(t, FenceOpen);
    InfixOf(u, t, |t| - |u|);
    RemoveSuffixOccurs(u, FenceClose);
    InfixOf(v, u, 0);
    InfixOf(Strip(v), v, LeadingSpaces(v));
    InfixTrans(u, t, code);
    InfixTrans(v, u, code);
    InfixTrans(Strip(v), v, code);
  }

  /**
   * A reply wrapped in one fence pair, with any whitespace around it, comes
   * out as the stripped text between the fences; fences inside stay.
   */
  lemma CleanSqlFenced(lead: string, body: string, trail: string)
    requires AllSpace(lead) && AllSpace(trail)
    ensures CleanSql(lead + FenceOpen + body + FenceClose + trail) == Strip(body)
  {
    AsciiSpace('`');
    UnwrapPadded(lead, FenceOpen, body, FenceClose, trail);
  }

  /** The cleanup steps, for any opening and closing marker that start and end with a non-space. */
  lemma UnwrapPadded(lead: string, open: string, body: string, close: string, trail: string)
    requires AllSpace(lead) && AllSpace(trail)
    requires |open| > 0 && !IsSpace(open[0]) && |close| > 0 && !IsSpace(close[|close| - 1])
    ensures Strip(RemoveSuffix(RemovePrefix(Strip(lead + open + body + close + trail), open), close))
            == Strip(body)
  {
    var core := open + (body + close);
    assert core[0] == open[0] && core[|core| - 1] == close[|close| - 1];
    assert lead + open + body + close + trail == lead + core + trail;
    StripPadded(lead, core, trail);
    RemovePrefixOf(open, body + close);
    RemoveSuffixOf(body, close);
  }

  /** A reply with neither fence is only stripped. */
  lemma CleanSqlUnfenced(code: string)
    requires !StartsWith(Strip(code), FenceOpen) && !EndsWith(Strip(code), FenceClose)
    ensures CleanSql(code) == Strip(code)
  {
    StripIdempotent(code);
  }

  /** Stripping the reply first, as `nl_to_sql` does, changes nothing. */
  lemma CleanSqlAfterStrip(code: string)
    ensures CleanSql(Strip(code)) == CleanSql(code)
  {
    StripIdempotent(code);
  }

  /** A reply that is exactly one fence pair around a body comes out as the stripped body. */
  lemma CleanSqlFencedBare(body: string)
    ensures CleanSql(FenceOpen + body + FenceClose) == Strip(body)
  {
    assert "" + FenceOpen + body + FenceClose + "" == FenceOpen + body + FenceClose;
    CleanSqlFenced("", body, "");
  }

  lemma SelectOneFenced()
    ensures "```sql\nSELECT 1\n```" == FenceOpen + "\nSELECT 1\n" + FenceClose
  {
  }

  lemma SelectOneStripped()
    ensures Strip("\nSELECT 1\n") == "SELECT 1"
  {
    AsciiSpace('\n');
    AsciiSpace('S');
    AsciiSpace('1');
    assert "\nSELECT 1\n" == "\n" + "SELECT 1" + "\n";
    StripPadded("\n", "SELECT 1", "\n");
  }

  lemma CleanSqlExample()
    ensures CleanSql("```sql\nSELECT 1\n```") == "SELECT 1"
  {
    SelectOneFenced();
    SelectOneStripped();
    CleanSqlFencedBare("\nSELECT 1\n");
  }

  lemma UpperCaseFenceUnstripped()
    ensures Strip("```SQL\nSELECT 1\n```") == "```SQL\nSELECT 1\n```"
  {
    AsciiSpace('`');
    StripTrimmed("```SQL\nSELECT 1\n```");
  }

  lemma UpperCaseFenceKept()
    ensures RemovePrefix("```SQL\nSELECT 1\n```", FenceOpen) == "```SQL\nSELECT 1\n```"
  {
    var code := "```SQL\nSELECT 1\n```";
    assert code[..|FenceOpen|][3] == 'S' && FenceOpen[3] == 's';
  }

  lemma UpperCaseFenceClosed()
    ensures RemoveSuffix("```SQL\nSELECT 1\n```", FenceClose) == "```SQL\nSELECT 1\n"
    ensures Strip("```SQL\nSELECT 1\n") == "```SQL\nSELECT 1"
  {
    var code := "```SQL\nSELECT 1\n```";
    assert code[|code| - |FenceClose|..] == FenceClose;
    AsciiSpace('`');
    AsciiSpace('1');
    AsciiSpace('\n');
    var kept := "```SQL\nSELECT 1";
    assert kept + "\n" == "" + kept + "\n";
    StripPadded("", kept, "\n");
  }

  /** The fence match is case-sensitive: an upper-case opening fence stays. */
  lemma CleanSqlCaseSensitive()
    ensures CleanSql("```SQL\nSELECT 1\n```") == "```SQL\nSELECT 1"
  {
    UpperCaseFenceUnstripped();
    UpperCaseFenceKept();
    UpperCaseFenceClosed();
  }

  lemma DoubleFenceOuter()
    ensures "```sql```sql SELECT 1``````" == FenceOpen + "```sql SELECT 1```" + FenceClose
  {
  }

  lemma DoubleFenceInnerKept()
    ensures Strip("```sql SELECT 1```") == "```sql SELECT 1```"
  {
    AsciiSpace('`');
    StripTrimmed("```sql SELECT 1```");
  }

  lemma DoubleFenceInner()
    ensures "```sql SELECT 1```" == FenceOpen + " SELECT 1" + FenceClose
  {
  }

  lemma LeadingBlankStripped()
    ensures Strip(" SELECT 1") == "SELECT 1"
  {
    AsciiSpace(' ');
    AsciiSpace('S');
    AsciiSpace('1');
    assert " SELECT 1" == " " + "SELECT 1" + "";
    StripPadded(" ", "SELECT 1", "");
  }

  /**
   * Only one fence pair is removed, so cleaning twice can differ from
   * cleaning once.
   */
  lemma CleanSqlNotIdempotent()
    ensures CleanSql("```sql```sql SELECT 1``````") == "```sql SELECT 1```"
    ensures CleanSql(CleanSql("```sql```sql SELECT 1``````")) == "SELECT 1"
  {
    DoubleFenceOuter();
    DoubleFenceInnerKept();
    DoubleFenceInner();
    LeadingBlankStripped();
    CleanSqlFencedBare("```sql SELECT 1```");
    CleanSqlFencedBare(" SELECT 1");
  }

  /** The four modes that send a request to the language model. */
  datatype Intent = Query | Insert | Update | Delete

  /**
   * The statement a mode hands to the driver for a given model reply: every
   * mode strips the reply; only the query mode removes the fences. No mode
   * checks what kind of statement it is.
   */
  function ExecutedStatement(intent: Intent, reply: string): (sql: string)
    ensures Trimmed(sql)
  {
    var code := Strip(reply);
    if intent == Query then CleanSql(code) else code
  }

  /** In every mode the statement handed to the driver is a contiguous piece of the reply. */
  lemma ExecutedStatementIsInfix(intent: Intent, reply: string)
    ensures IsInfix(ExecutedStatement(intent, reply), reply)
  {
    var code := Strip(reply);
    assert OccursAt(code, reply, LeadingSpaces(reply));
    if intent == Query {
      CleanSqlIsInfix(code);
      var i :| OccursAt(CleanSql(code), code, i);
      OccursAtTrans(CleanSql(code), code, i, reply, LeadingSpaces(reply));
    }
  }

  /** A fenced reply is unwrapped in the query mode and handed over fenced in the others. */
  lemma FencedReplyByIntent(intent: Intent, body: string)
    ensures ExecutedStatement(intent, FenceOpen + body + FenceClose)
            == if intent == Query then Strip(body) else FenceOpen + body + FenceClose
  {
    var reply := FenceOpen + body + FenceClose;
    AsciiSpace('`');
    assert reply[0] == '`' && reply[|reply| - 1] == '`';
    StripTrimmed(reply);
    CleanSqlFencedBare(body);
  }

  /** Whatever statement the model returns unfenced is handed to the driver verbatim, in every mode. */
  lemma UnfencedReplyVerbatim(intent: Intent, reply: string)
    requires Trimmed(reply) && !StartsWith(reply, FenceOpen) && !EndsWith(reply, FenceClose)
    ensures ExecutedStatement(intent, reply) == reply
  {
    StripTrimmed(reply);
    CleanSqlUnfenced(reply);
  }
}
