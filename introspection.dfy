/**
 * Schema introspection, the pure part: `get_time_columns` keeps the names of
 * the `(column_name, data_type)` rows that `describe_table` returned whose name
 * begins with an ISO-8601-shaped date, recognised by `re.match(r"\d{4}-\d{2}-\d{2}", col)`.
 * The catalog rows are a parameter here instead of a database query.
 */
module Introspection {
  import opened Text

  /** One row of `describe_table`: (column_name, data_type). */
  type Column = (string, string)

  /** A regular-expression atom of the date pattern: `\d` or a literal character. */
  datatype Atom = AnyDigit | Literal(c: char)

  /** `\d{4}-\d{2}-\d{2}` with the counted repetitions written out. */
  const DatePattern: seq<Atom> :=
    [AnyDigit, AnyDigit, AnyDigit, AnyDigit, Literal('-'), AnyDigit, AnyDigit, Literal('-'), AnyDigit, AnyDigit]

  predicate AtomMatches(a: Atom, c: char) {
    match a
    case AnyDigit => IsDigit(c)
    case Literal(l) => c == l
  }

  /**
   * `re.match(p, s)` for a pattern of single-character atoms: the pattern must
   * match a prefix of `s`; whatever follows it is not looked at.
   */
  predicate MatchesAtStart(p: seq<Atom>, s: string)
    decreases p
  {
    p == [] || (|s| > 0 && AtomMatches(p[0], s[0]) && MatchesAtStart(p[1..], s[1..]))
  }

  /** Position `i` of a `DDDD-DD-DD` date: a hyphen at 4 and 7, a digit elsewhere. */
  predicate DateCharAt(name: string, i: nat)
    requires i < |name|
  {
    if i == 4 || i == 7 then name[i] == '-' else IsDigit(name[i])
  }

  /** A column name whose first ten characters are four digits, '-', two digits, '-', two digits. */
  predicate HasDatePrefix(name: string) {
    |name| >= 10 && forall i :: 0 <= i < 10 ==> DateCharAt(name, i)
  }

  /** Anchored matching is atom-by-atom agreement on the first `|p|` characters. */
  lemma {:induction false} MatchesAtStartIff(p: seq<Atom>, s: string)
    ensures MatchesAtStart(p, s) <==> |s| >= |p| && forall i :: 0 <= i < |p| ==> AtomMatches(p[i], s[i])
    decreases p
  {
    if p != [] && |s| > 0 {
      MatchesAtStartIff(p[1..], s[1..]);
      if |s| >= |p| && forall i :: 0 <= i < |p| ==> AtomMatches(p[i], s[i]) {
        forall i | 0 <= i < |p| - 1 ensures AtomMatches(p[1..][i], s[1..][i]) {
          assert p[1..][i] == p[i + 1] && s[1..][i] == s[i + 1];
        }
      }
      if MatchesAtStart(p, s) {
        forall i | 0 <= i < |p| ensures AtomMatches(p[i], s[i]) {
          if i > 0 {
            assert p[1..][i - 1] == p[i] && s[1..][i - 1] == s[i];
          }
        }
      }
    }
  }

  /** The regular expression accepts exactly the names with a date prefix, whatever follows it. */
  lemma DatePatternIff(name: string)
    ensures MatchesAtStart(DatePattern, name) <==> HasDatePrefix(name)
  {
    MatchesAtStartIff(DatePattern, name);
    assert |DatePattern| == 10;
    forall i | 0 <= i < 10 && i < |name|
      ensures AtomMatches(DatePattern[i], name[i]) <==> DateCharAt(name, i)
    {
      if i == 4 || i == 7 {
        assert DatePattern[i] == Literal('-');
      } else {
        assert DatePattern[i] == AnyDigit;
      }
    }
  }

  /**
   * `get_time_columns`: the names of the catalog rows accepted by the date
   * pattern (`HasDatePrefix`, which `DatePatternIff` shows to be the
   * pattern's language), in the order `describe_table` returned the rows. Every
   * name returned has a date prefix.
   */
  function TimeColumns(columns: seq<Column>): (r: seq<string>)
    ensures |r| <= |columns|
    ensures forall k :: 0 <= k < |r| ==> HasDatePrefix(r[k])
  {
    if |columns| == 0 then []
    else
      var name := columns[|columns| - 1].0;
      TimeColumns(columns[..|columns| - 1]) + (if HasDatePrefix(name) then [name] else [])
  }

  /**
   * The catalog positions `TimeColumns` keeps: strictly increasing, and a
   * position is kept exactly when the name there has a date prefix.
   */
  function KeptPositions(columns: seq<Column>): (idx: seq<nat>)
    ensures forall k :: 0 <= k < |idx| ==> idx[k] < |columns|
    ensures forall k, l :: 0 <= k < l < |idx| ==> idx[k] < idx[l]
    ensures forall i :: 0 <= i < |columns| ==> (i in idx <==> HasDatePrefix(columns[i].0))
  {
    if |columns| == 0 then []
    else
      var n := |columns| - 1;
      var init := columns[..n];
      var before := KeptPositions(init);
      assert forall i :: 0 <= i < n ==> columns[i] == init[i];
      before + (if HasDatePrefix(columns[n].0) then [n] else [])
  }

  /**
   * The filter is an order-preserving subsequence of the column names that
   * drops nothing with a date prefix: its k-th name is the name at the k-th
   * kept position.
   */
  lemma {:induction false} TimeColumnsAtKeptPositions(columns: seq<Column>)
    ensures |TimeColumns(columns)| == |KeptPositions(columns)|
    ensures forall k :: 0 <= k < |TimeColumns(columns)| ==>
              TimeColumns(columns)[k] == columns[KeptPositions(columns)[k]].0
  {
    if |columns| > 0 {
      var n := |columns| - 1;
      var init := columns[..n];
      TimeColumnsAtKeptPositions(init);
      assert forall i :: 0 <= i < n ==> columns[i] == init[i];
      var t, p := TimeColumns(init), KeptPositions(init);
      if HasDatePrefix(columns[n].0) {
        assert TimeColumns(columns) == t + [columns[n].0];
        assert KeptPositions(columns) == p + [n];
      } else {
        assert TimeColumns(columns) == t;
        assert KeptPositions(columns) == p;
      }
    }
  }

  /** The time columns are empty exactly when no catalog name has a date prefix. */
  lemma NoTimeColumnsIff(columns: seq<Column>)
    ensures TimeColumns(columns) == [] <==> forall i :: 0 <= i < |columns| ==> !HasDatePrefix(columns[i].0)
  {
    TimeColumnsAtKeptPositions(columns);
    var idx := KeptPositions(columns);
    if TimeColumns(columns) != [] {
      assert idx[0] in idx;
      assert HasDatePrefix(columns[idx[0]].0);
    } else {
      forall i | 0 <= i < |columns| ensures !HasDatePrefix(columns[i].0) {
        assert i !in idx;
      }
    }
  }

  /** The names of the catalog rows, in order. */
  function ColumnNames(columns: seq<Column>): seq<string> {
    seq(|columns|, i requires 0 <= i < |columns| => columns[i].0)
  }

  /** The declared data types play no part: equal names give equal time columns. */
  lemma {:induction false} TimeColumnsIgnoreTypes(c1: seq<Column>, c2: seq<Column>)
    requires ColumnNames(c1) == ColumnNames(c2)
    ensures TimeColumns(c1) == TimeColumns(c2)
  {
    if |c1| > 0 {
      var n := |c1| - 1;
      assert |c2| == |ColumnNames(c2)| == |ColumnNames(c1)| == |c1|;
      assert ColumnNames(c1[..n]) == ColumnNames(c2[..n]) by {
        forall i | 0 <= i < n
          ensures ColumnNames(c1[..n])[i] == ColumnNames(c2[..n])[i]
        {
          assert ColumnNames(c1)[i] == ColumnNames(c2)[i];
        }
      }
      assert c1[n].0 == ColumnNames(c1)[n] == ColumnNames(c2)[n] == c2[n].0;
      TimeColumnsIgnoreTypes(c1[..n], c2[..n]);
    }
  }

  /** Adding a catalog row at the end adds its name exactly when it has a date prefix. */
  lemma TimeColumnsSnoc(columns: seq<Column>, c: Column)
    ensures TimeColumns(columns + [c]) == TimeColumns(columns) + (if HasDatePrefix(c.0) then [c.0] else [])
  {
    assert (columns + [c])[..|columns|] == columns;
  }

  lemma RegionsNames()
    ensures !HasDatePrefix("RegionID") && !HasDatePrefix("City") && !HasDatePrefix("State")
    ensures HasDatePrefix("2024-01-31") && HasDatePrefix("2024-02-29")
  {
  }

  /** Three leading non-date columns followed by two date columns. */
  lemma ThreeKeysTwoDates(k1: Column, k2: Column, k3: Column, d1: Column, d2: Column)
    requires !HasDatePrefix(k1.0) && !HasDatePrefix(k2.0) && !HasDatePrefix(k3.0)
    requires HasDatePrefix(d1.0) && HasDatePrefix(d2.0)
    ensures TimeColumns([k1, k2, k3, d1, d2]) == [d1.0, d2.0]
  {
    var p1: seq<Column> := [k1];
    var p2 := p1 + [k2];
    var p3 := p2 + [k3];
    var p4 := p3 + [d1];
    var p5 := p4 + [d2];
    assert TimeColumns(p1) == [] by {
      TimeColumnsSnoc([], k1);
      assert [] + [k1] == p1;
    }
    TimeColumnsSnoc(p1, k2);
    TimeColumnsSnoc(p2, k3);
    TimeColumnsSnoc(p3, d1);
    TimeColumnsSnoc(p4, d2);
    assert p5 == [k1, k2, k3, d1, d2];
  }

  /** A wide table keyed by region: only the two date-named columns are time columns. */
  lemma RegionsExample()
    ensures TimeColumns([("RegionID", "integer"), ("City", "text"), ("State", "text"),
                         ("2024-01-31", "double precision"), ("2024-02-29", "double precision")])
            == ["2024-01-31", "2024-02-29"]
  {
    RegionsNames();
    ThreeKeysTwoDates(("RegionID", "integer"), ("City", "text"), ("State", "text"),
                      ("2024-01-31", "double precision"), ("2024-02-29", "double precision"));
  }
}
