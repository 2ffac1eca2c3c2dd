/**
 * The Python string operations the pipeline is built from, over `seq<char>`:
 * `str.isspace`, `str.strip`, `str.removeprefix`, `str.removesuffix`,
 * `sep.join(parts)`, `str.split(c)` (used only to state inverses),
 * and `str(n)` for a natural number.
 */
module Text {

  // ---------------------------------------------------------------------
  // Character classes
  // ---------------------------------------------------------------------

  /** The ASCII decimal digits (the model's reading of the regex class `\d`). */
  predicate IsDigit(c: char) {
    '0' <= c <= '9'
  }

  /**
   * The code-point ranges for which Python's `str.isspace()` holds; these are
   * the characters `str.strip()` without arguments removes.
   */
  const SpaceRanges: seq<(char, char)> := [
    ('\t', '\r'), ('\U{1C}', ' '), ('\U{85}', '\U{85}'), ('\U{A0}', '\U{A0}'),
    ('\U{1680}', '\U{1680}'), ('\U{2000}', '\U{200A}'), ('\U{2028}', '\U{2029}'),
    ('\U{202F}', '\U{202F}'), ('\U{205F}', '\U{205F}'), ('\U{3000}', '\U{3000}')
  ]

  predicate InRanges(c: char, ranges: seq<(char, char)>) {
    |ranges| > 0 && ((ranges[0].0 <= c <= ranges[0].1) || InRanges(c, ranges[1..]))
  }

  predicate IsSpace(c: char) {
    InRanges(c, SpaceRanges)
  }

  /** A character below every range listed is in none of them. */
  lemma {:induction false} InRangesBelow(c: char, ranges: seq<(char, char)>)
    requires forall k :: 0 <= k < |ranges| ==> c < ranges[k].0
    ensures !InRanges(c, ranges)
  {
    if |ranges| > 0 {
      InRangesBelow(c, ranges[1..]);
    }
  }

  /** Among ASCII characters, whitespace is `\t` to `\r` and `\x1c` to the blank. */
  lemma AsciiSpace(c: char)
    requires c < '\U{80}'
    ensures IsSpace(c) <==> ('\t' <= c <= '\r' || '\U{1C}' <= c <= ' ')
  {
    var rest := SpaceRanges[1..];
    assert InRanges(c, SpaceRanges) <==> ('\t' <= c <= '\r' || InRanges(c, rest));
    assert rest[1..] == SpaceRanges[2..];
    assert InRanges(c, rest) <==> ('\U{1C}' <= c <= ' ' || InRanges(c, rest[1..]));
    InRangesBelow(c, SpaceRanges[2..]);
  }

  predicate AllSpace(s: string) {
    forall i :: 0 <= i < |s| ==> IsSpace(s[i])
  }

  /** Neither end of `s` is whitespace. */
  predicate Trimmed(s: string) {
    |s| == 0 || (!IsSpace(s[0]) && !IsSpace(s[|s| - 1]))
  }

  // ---------------------------------------------------------------------
  // Substrings, prefixes, suffixes
  // ---------------------------------------------------------------------

  predicate StartsWith(s: string, p: string) {
    |p| <= |s| && s[..|p|] == p
  }

  predicate EndsWith(s: string, p: string) {
    |p| <= |s| && s[|s| - |p|..] == p
  }

  /** `r` occurs in `s` at offset `i`. */
  predicate OccursAt(r: string, s: string, i: int) {
    0 <= i <= |s| - |r| && s[i..i + |r|] == r
  }

  /** A piece of a piece of `t` is a piece of `t`, at the summed offset. */
  lemma OccursAtTrans(r: string, s: string, i: int, t: string, j: int)
    requires OccursAt(r, s, i) && OccursAt(s, t, j)
    ensures OccursAt(r, t, j + i)
  {
    forall k | 0 <= k < |r| ensures t[j + i + k] == r[k] {
      assert r[k] == s[i..i + |r|][k] == s[i + k];
      assert s[i + k] == t[j..j + |s|][i + k] == t[j + i + k];
    }
    assert t[j + i..j + i + |r|] == r;
  }

  /** `r` occurs in `s` as a contiguous substring. */
  ghost predicate IsInfix(r: string, s: string) {
    exists i :: OccursAt(r, s, i)
  }

  lemma InfixOf(r: string, s: string, i: int)
    requires OccursAt(r, s, i)
    ensures IsInfix(r, s)
  {
  }

  /** Being a contiguous piece is transitive. */
  lemma InfixTrans(r: string, s: string, t: string)
    requires IsInfix(r, s) && IsInfix(s, t)
    ensures IsInfix(r, t)
  {
    var i :| OccursAt(r, s, i);
    var j :| OccursAt(s, t, j);
    OccursAtTrans(r, s, i, t, j);
  }

  /** `r` sits in `s` at offset `i`, with only whitespace before and after it. */
  predicate PaddedAt(s: string, i: int, r: string) {
    0 <= i <= |s| - |r| && s[i..i + |r|] == r && AllSpace(s[..i]) && AllSpace(s[i + |r|..])
  }

  /** Python's `s.removeprefix(p)`. */
  function RemovePrefix(s: string, p: string): (r: string)
    ensures StartsWith(s, p) ==> s == p + r
    ensures !StartsWith(s, p) ==> r == s
  {
    if StartsWith(s, p) then s[|p|..] else s
  }

  /** Python's `s.removesuffix(p)`. */
  function RemoveSuffix(s: string, p: string): (r: string)
    ensures EndsWith(s, p) ==> s == r + p
    ensures !EndsWith(s, p) ==> r == s
  {
    if EndsWith(s, p) then s[..|s| - |p|] else s
  }

  lemma RemovePrefixOf(p: string, rest: string)
    ensures RemovePrefix(p + rest, p) == rest
  {
    assert (p + rest)[..|p|] == p;
  }

  lemma RemoveSuffixOf(rest: string, p: string)
    ensures RemoveSuffix(rest + p, p) == rest
  {
    assert (rest + p)[|rest|..] == p;
  }

  /** What `removeprefix` leaves is the tail of its input. */
  lemma RemovePrefixOccurs(s: string, p: string)
    ensures OccursAt(RemovePrefix(s, p), s, |s| - |RemovePrefix(s, p)|)
  {
  }

  /** What `removesuffix` leaves is the head of its input. */
  lemma RemoveSuffixOccurs(s: string, p: string)
    ensures OccursAt(RemoveSuffix(s, p), s, 0)
  {
  }

  // ---------------------------------------------------------------------
  // strip()
  // ---------------------------------------------------------------------

  /** The length of the longest all-whitespace prefix of `s`. */
  function LeadingSpaces(s: string): (n: nat)
    ensures n <= |s|
    ensures AllSpace(s[..n])
    ensures n < |s| ==> !IsSpace(s[n])
  {
    if |s| > 0 && IsSpace(s[0]) then
      var n := 1 + LeadingSpaces(s[1..]);
      assert s[..n] == [s[0]] + s[1..][..n - 1];
      n
    else 0
  }

  /** The length of the longest all-whitespace suffix of `s`. */
  function TrailingSpaces(s: string): (n: nat)
    ensures n <= |s|
    ensures AllSpace(s[|s| - n..])
    ensures n < |s| ==> !IsSpace(s[|s| - 1 - n])
  {
    if |s| > 0 && IsSpace(s[|s| - 1]) then
      var init := s[..|s| - 1];
      var n := 1 + TrailingSpaces(init);
      assert s[|s| - n..] == init[|init| - (n - 1)..] + [s[|s| - 1]];
      n
    else 0
  }

  /**
   * Python's `s.strip()`: `s` with its leading and trailing whitespace removed.
   * The result is the piece of `s` that starts after the leading whitespace,
   * and does not itself begin or end with whitespace.
   */
  function Strip(s: string): (r: string)
    ensures Trimmed(r)
    ensures OccursAt(r, s, LeadingSpaces(s))
  {
    var a := LeadingSpaces(s);
    var t := s[a..];
    var r := t[..|t| - TrailingSpaces(t)];
    assert s[a..a + |r|] == r;
    assert |r| > 0 ==> r[0] == s[a];
    r
  }

  /** Only whitespace lies around what `strip()` keeps. */
  lemma StripSpec(s: string)
    ensures PaddedAt(s, LeadingSpaces(s), Strip(s))
  {
    var a := LeadingSpaces(s);
    var t := s[a..];
    var b := TrailingSpaces(t);
    var r := Strip(s);
    assert r == t[..|t| - b];
    assert s[a + |r|..] == t[|t| - b..];
  }

  /** A prefix of whitespace followed by a non-space character (or the end) is the leading run. */
  lemma {:induction false} LeadingSpacesAt(s: string, i: nat)
    requires i <= |s| && AllSpace(s[..i]) && (i < |s| ==> !IsSpace(s[i]))
    ensures LeadingSpaces(s) == i
  {
    if i > 0 {
      assert s[..i][0] == s[0];
      assert s[1..][..i - 1] == s[1..i];
      assert forall k :: 0 <= k < i - 1 ==> s[1..i][k] == s[..i][k + 1];
      LeadingSpacesAt(s[1..], i - 1);
    }
  }

  /** A suffix of whitespace preceded by a non-space character (or the start) is the trailing run. */
  lemma {:induction false} TrailingSpacesAt(s: string, j: nat)
    requires j <= |s| && AllSpace(s[|s| - j..]) && (j < |s| ==> !IsSpace(s[|s| - 1 - j]))
    ensures TrailingSpaces(s) == j
  {
    if j > 0 {
      var init := s[..|s| - 1];
      assert s[|s| - j..][j - 1] == s[|s| - 1];
      var shorter, longer := init[|init| - (j - 1)..], s[|s| - j..];
      assert forall k :: 0 <= k < j - 1 ==> shorter[k] == longer[k];
      TrailingSpacesAt(init, j - 1);
    }
  }

  /** Stripping has exactly one answer: a core with non-space ends, padded by whitespace, is it. */
  lemma StripUnique(s: string, i: int, r: string)
    requires PaddedAt(s, i, r) && Trimmed(r)
    ensures Strip(s) == r
  {
    if |r| == 0 {
      assert s == s[..i] + s[i..];
      assert forall k :: 0 <= k < |s| ==> IsSpace(s[k]) by {
        forall k | 0 <= k < |s| ensures IsSpace(s[k]) {
          if k < i { assert s[..i][k] == s[k]; } else { assert s[i..][k - i] == s[k]; }
        }
      }
      assert s[..|s|] == s;
      LeadingSpacesAt(s, |s|);
    } else {
      assert s[i] == r[0];
      LeadingSpacesAt(s, i);
      var t := s[i..];
      var after := s[i + |r|..];
      assert t == r + after;
      assert t[|t| - |after|..] == after;
      assert t[|t| - 1 - |after|] == r[|r| - 1];
      TrailingSpacesAt(t, |after|);
      assert t[..|t| - |after|] == r;
    }
  }

  /** `strip()` is idempotent. */
  lemma StripIdempotent(s: string)
    ensures Strip(Strip(s)) == Strip(s)
  {
    var r := Strip(s);
    assert r[..0] == [] && r[|r|..] == [];
    StripUnique(r, 0, r);
  }

  /** A string without whitespace at its ends is left alone by `strip()`. */
  lemma StripTrimmed(s: string)
    requires Trimmed(s)
    ensures Strip(s) == s
  {
    assert s[..0] == [] && s[|s|..] == [];
    StripUnique(s, 0, s);
  }

  /** Stripping whitespace padding off a trimmed core gives back the core. */
  lemma StripPadded(lead: string, core: string, trail: string)
    requires AllSpace(lead) && AllSpace(trail) && Trimmed(core)
    ensures Strip(lead + core + trail) == core
  {
    var s := lead + core + trail;
    assert s[..|lead|] == lead;
    assert s[|lead|..|lead| + |core|] == core;
    assert s[|lead| + |core|..] == trail;
    StripUnique(s, |lead|, core);
  }

  // ---------------------------------------------------------------------
  // sep.join(parts)
  // ---------------------------------------------------------------------

  function TotalLength(parts: seq<string>): nat {
    if |parts| == 0 then 0 else |parts[0]| + TotalLength(parts[1..])
  }

  /**
   * Python's `sep.join(parts)`: the parts in order with `sep` between
   * neighbours and nowhere else. The empty list joins to "".
   */
  function Join(parts: seq<string>, sep: string): (r: string)
    ensures |parts| == 0 ==> r == ""
    ensures |parts| > 0 ==> StartsWith(r, parts[0])
  {
    if |parts| == 0 then ""
    else if |parts| == 1 then parts[0]
    else parts[0] + sep + Join(parts[1..], sep)
  }

  /** A join is as long as its parts together plus one separator between neighbours. */
  lemma {:induction false} JoinLength(parts: seq<string>, sep: string)
    requires |parts| > 0
    ensures |Join(parts, sep)| == TotalLength(parts) + (|parts| - 1) * |sep|
  {
    if |parts| > 1 {
      JoinLength(parts[1..], sep);
      MulSucc(|parts| - 2, |sep|);
    }
  }

  lemma MulSucc(k: int, x: int)
    ensures (k + 1) * x == k * x + x
  {
  }

  /** Appending a part adds one separator and the part at the end. */
  lemma {:induction false} JoinAppend(parts: seq<string>, p: string, sep: string)
    requires |parts| > 0
    ensures Join(parts + [p], sep) == Join(parts, sep) + sep + p
  {
    if |parts| > 1 {
      assert (parts + [p])[1..] == parts[1..] + [p];
      JoinAppend(parts[1..], p, sep);
    }
  }

  /** A character in neither the parts nor the separator is not in their join. */
  lemma {:induction false} JoinAbsent(parts: seq<string>, sep: string, c: char)
    requires forall i :: 0 <= i < |parts| ==> c !in parts[i]
    requires c !in sep
    ensures c !in Join(parts, sep)
  {
    if |parts| > 1 {
      assert forall i :: 0 <= i < |parts| - 1 ==> parts[1..][i] == parts[i + 1];
      JoinAbsent(parts[1..], sep, c);
    }
  }

  /** The position of the first `c` in `s`, or `|s|` when there is none. */
  function FirstIndex(s: string, c: char): (n: nat)
    ensures n <= |s|
    ensures n < |s| ==> s[n] == c
    ensures c !in s[..n]
  {
    if |s| == 0 || s[0] == c then 0
    else
      var n := 1 + FirstIndex(s[1..], c);
      assert s[..n] == [s[0]] + s[1..][..n - 1];
      n
  }

  /** The first `c` after a `c`-free prefix is where that prefix ends. */
  lemma {:induction false} FirstIndexAfter(a: string, b: string, c: char)
    requires c !in a && |b| > 0 && b[0] == c
    ensures FirstIndex(a + b, c) == |a|
  {
    if |a| == 0 {
      assert a + b == b;
    } else {
      assert (a + b)[0] == a[0] && a[0] != c;
      assert (a + b)[1..] == a[1..] + b;
      assert c !in a[1..] by {
        assert forall k :: 0 <= k < |a| - 1 ==> a[1..][k] == a[k + 1];
      }
      FirstIndexAfter(a[1..], b, c);
    }
  }

  /** The number of occurrences of `c` in `s`. */
  function CountChar(s: string, c: char): nat {
    if |s| == 0 then 0 else (if s[0] == c then 1 else 0) + CountChar(s[1..], c)
  }

  function CountInParts(parts: seq<string>, c: char): nat {
    if |parts| == 0 then 0 else CountChar(parts[0], c) + CountInParts(parts[1..], c)
  }

  lemma {:induction false} CountCharConcat(a: string, b: string, c: char)
    ensures CountChar(a + b, c) == CountChar(a, c) + CountChar(b, c)
  {
    if |a| > 0 {
      assert (a + b)[1..] == a[1..] + b;
      CountCharConcat(a[1..], b, c);
    } else {
      assert a + b == b;
    }
  }

  lemma {:induction false} CountCharAbsent(s: string, c: char)
    requires c !in s
    ensures CountChar(s, c) == 0
  {
    if |s| > 0 {
      assert c !in s[1..] by {
        assert forall k :: 0 <= k < |s| - 1 ==> s[1..][k] == s[k + 1];
      }
      CountCharAbsent(s[1..], c);
    }
  }

  lemma {:induction false} CountInPartsAbsent(parts: seq<string>, c: char)
    requires forall i :: 0 <= i < |parts| ==> c !in parts[i]
    ensures CountInParts(parts, c) == 0
  {
    if |parts| > 0 {
      CountCharAbsent(parts[0], c);
      assert forall i :: 0 <= i < |parts| - 1 ==> parts[1..][i] == parts[i + 1];
      CountInPartsAbsent(parts[1..], c);
    }
  }

  /**
   * A character occurs in a join as often as in the parts, plus once per
   * separator occurrence for each of the `|parts| - 1` separators.
   */
  lemma {:induction false} JoinCountChar(parts: seq<string>, sep: string, c: char)
    requires |parts| > 0
    ensures CountChar(Join(parts, sep), c) == CountInParts(parts, c) + (|parts| - 1) * CountChar(sep, c)
  {
    if |parts| == 1 {
      assert parts[1..] == [];
    } else {
      var rest := Join(parts[1..], sep);
      var k, x, y := |parts| - 2, CountChar(sep, c), CountInParts(parts[1..], c);
      JoinCountChar(parts[1..], sep, c);
      assert CountChar(rest, c) == y + k * x;
      assert Join(parts, sep) == (parts[0] + sep) + rest;
      CountCharConcat(parts[0], sep, c);
      CountCharConcat(parts[0] + sep, rest, c);
      assert CountInParts(parts, c) == CountChar(parts[0], c) + y;
      MulSucc(k, x);
    }
  }

  // ---------------------------------------------------------------------
  // s.split(c) -- the inverse of joining on a separator that begins with c
  // ---------------------------------------------------------------------

  /** Python's `s.split(c)` for a one-character separator: never empty. */
  function SplitOn(s: string, c: char): (r: seq<string>)
    ensures |r| >= 1
  {
    if |s| == 0 then [""]
    else
      var rest := SplitOn(s[1..], c);
      if s[0] == c then [""] + rest else [[s[0]] + rest[0]] + rest[1..]
  }

  /** Splitting text that opens with a `c`-free stretch glues that stretch to the first piece. */
  lemma {:induction false} SplitOnFreePrefix(a: string, t: string, c: char)
    requires c !in a
    ensures SplitOn(a + t, c) == [a + SplitOn(t, c)[0]] + SplitOn(t, c)[1..]
  {
    if |a| > 0 {
      assert (a + t)[1..] == a[1..] + t;
      SplitOnFreePrefix(a[1..], t, c);
      assert [a[0]] + (a[1..] + SplitOn(t, c)[0]) == a + SplitOn(t, c)[0];
    } else {
      assert a + t == t;
      assert a + SplitOn(t, c)[0] == SplitOn(t, c)[0];
      assert [SplitOn(t, c)[0]] + SplitOn(t, c)[1..] == SplitOn(t, c);
    }
  }

  /** A leading separator splits off an empty first piece. */
  lemma SplitOnLeading(s: string, c: char)
    ensures SplitOn([c] + s, c) == [""] + SplitOn(s, c)
  {
    assert ([c] + s)[1..] == s;
  }

  /** The pieces of `parts` joined by `sep`, as `split` on `sep`'s first character returns them. */
  function SplitPieces(parts: seq<string>, tail: string): seq<string>
    requires |parts| > 0
  {
    seq(|parts|, i requires 0 <= i < |parts| => if i == 0 then parts[0] else tail + parts[i])
  }

  /**
   * Splitting `Join(parts, [c] + tail)` on `c` gives back the parts, each one
   * after the first still carrying `tail`, provided `c` occurs in no part and
   * not in `tail`. With an empty `tail` this is the exact inverse of `join`.
   */
  lemma {:induction false} SplitJoin(parts: seq<string>, c: char, tail: string)
    requires |parts| > 0
    requires forall i :: 0 <= i < |parts| ==> c !in parts[i]
    requires c !in tail
    ensures SplitOn(Join(parts, [c] + tail), c) == SplitPieces(parts, tail)
  {
    var sep := [c] + tail;
    if |parts| == 1 {
      SplitOnFreePrefix(parts[0], "", c);
      assert parts[0] + "" == parts[0];
    } else {
      var rest := Join(parts[1..], sep);
      SplitJoin(parts[1..], c, tail);
      var after := SplitPieces(parts[1..], tail);
      // split([c] + tail + rest) == [""] + split(tail + rest)
      SplitOnFreePrefix(tail, rest, c);
      SplitOnFreePrefix(parts[0], [c] + (tail + rest), c);
      assert parts[0] + sep + rest == parts[0] + ([c] + (tail + rest));
      var pieces := SplitOn([c] + (tail + rest), c);
      SplitOnLeading(tail + rest, c);
      assert SplitOn(tail + rest, c) == [tail + after[0]] + after[1..];
      assert pieces[0] == "" && pieces[1..] == [tail + after[0]] + after[1..];
      assert parts[0] + pieces[0] == parts[0];
      assert SplitOn(Join(parts, sep), c) == [parts[0]] + ([tail + after[0]] + after[1..]);
      SplitPiecesCons(parts, tail);
    }
  }

  lemma SplitPiecesCons(parts: seq<string>, tail: string)
    requires |parts| > 1
    ensures SplitPieces(parts, tail)
            == [parts[0]] + ([tail + SplitPieces(parts[1..], tail)[0]] + SplitPieces(parts[1..], tail)[1..])
  {
    var whole, after := SplitPieces(parts, tail), SplitPieces(parts[1..], tail);
    var other := [parts[0]] + ([tail + after[0]] + after[1..]);
    assert |other| == |whole|;
    forall k | 0 <= k < |whole|
      ensures whole[k] == other[k]
    {
      if k > 1 {
        assert other[k] == after[k - 1];
      }
    }
  }

  /** With a one-character separator that occurs in no part, `split` is the exact inverse of `join`. */
  lemma SplitJoinSingle(parts: seq<string>, c: char)
    requires |parts| > 0
    requires forall i :: 0 <= i < |parts| ==> c !in parts[i]
    ensures SplitOn(Join(parts, [c]), c) == parts
  {
    var sep: string := [c] + "";
    assert sep == [c];
    SplitJoin(parts, c, "");
    var pieces := SplitPieces(parts, "");
    assert |pieces| == |parts|;
    forall k | 0 <= k < |parts|
      ensures pieces[k] == parts[k]
    {
      if k > 0 {
        assert pieces[k] == "" + parts[k];
      }
    }
    assert pieces == parts;
  }

  /** Every part but the last with `pad` appended. */
  function PadInner(parts: seq<string>, pad: string): seq<string> {
    seq(|parts|, i requires 0 <= i < |parts| => if i < |parts| - 1 then parts[i] + pad else parts[i])
  }

  lemma PadInnerTail(parts: seq<string>, pad: string)
    requires |parts| > 0
    ensures PadInner(parts, pad)[1..] == PadInner(parts[1..], pad)
  {
    var a, b := PadInner(parts, pad)[1..], PadInner(parts[1..], pad);
    forall k | 0 <= k < |b|
      ensures a[k] == b[k]
    {
      assert a[k] == PadInner(parts, pad)[k + 1];
    }
  }

  /**
   * Joining on `pad + sep` is joining on `sep` after padding every part but
   * the last, so a separator with the split character in its middle reduces
   * to one that begins with it.
   */
  lemma {:induction false} JoinRegroup(parts: seq<string>, pad: string, sep: string)
    requires |parts| > 0
    ensures Join(parts, pad + sep) == Join(PadInner(parts, pad), sep)
  {
    var padded := PadInner(parts, pad);
    if |parts| > 1 {
      JoinRegroup(parts[1..], pad, sep);
      PadInnerTail(parts, pad);
      assert padded[0] == parts[0] + pad;
      var rest := Join(parts[1..], pad + sep);
      assert Join(parts, pad + sep) == parts[0] + (pad + sep) + rest;
      assert Join(padded, sep) == (parts[0] + pad) + sep + rest;
    }
  }

  // ---------------------------------------------------------------------
  // str(n) for a natural number
  // ---------------------------------------------------------------------

  function DigitChar(d: nat): (c: char)
    requires d < 10
    ensures IsDigit(c)
  {
    (48 + d) as char
  }

  function DigitValue(c: char): (d: nat)
    requires IsDigit(c)
    ensures d < 10
  {
    (c as int) - 48
  }

  predicate AllDigits(s: string) {
    forall i :: 0 <= i < |s| ==> IsDigit(s[i])
  }

  /** A decimal numeral as `str(n)` prints one: digits only, no superfluous leading zero. */
  predicate IsCanonicalDecimal(s: string) {
    |s| >= 1 && AllDigits(s) && (s[0] == '0' ==> |s| == 1)
  }

  /** Python's `str(n)` for `n >= 0`. */
  function NatToDecimal(n: nat): (r: string)
    ensures IsCanonicalDecimal(r)
  {
    if n < 10 then [DigitChar(n)]
    else
      var r := NatToDecimal(n / 10) + [DigitChar(n % 10)];
      assert r[0] == NatToDecimal(n / 10)[0];
      r
  }

  /** The value of a digit string, read most significant digit first. */
  function DecimalValue(s: string): nat
    requires AllDigits(s)
  {
    if |s| == 0 then 0
    else DecimalValue(s[..|s| - 1]) * 10 + DigitValue(s[|s| - 1])
  }

  /** Reading back what `str(n)` printed gives `n`. */
  lemma {:induction false} DecimalOfNat(n: nat)
    ensures DecimalValue(NatToDecimal(n)) == n
  {
    var r := NatToDecimal(n);
    if n >= 10 {
      DecimalOfNat(n / 10);
      assert r[..|r| - 1] == NatToDecimal(n / 10);
    }
  }

  lemma {:induction false} DecimalValuePositive(s: string)
    requires |s| >= 1 && AllDigits(s) && s[0] != '0'
    ensures DecimalValue(s) >= 1
  {
    if |s| > 1 {
      DecimalValuePositive(s[..|s| - 1]);
    }
  }

  /** Every canonical numeral is what `str` prints for its value. */
  lemma {:induction false} NatOfDecimal(s: string)
    requires IsCanonicalDecimal(s)
    ensures NatToDecimal(DecimalValue(s)) == s
  {
    if |s| > 1 {
      var init := s[..|s| - 1];
      DecimalValuePositive(init);
      NatOfDecimal(init);
      var n := DecimalValue(s);
      assert n / 10 == DecimalValue(init) && n % 10 == DigitValue(s[|s| - 1]);
      assert n >= 10;
      assert DigitChar(n % 10) == s[|s| - 1];
      assert s == init + [s[|s| - 1]];
    } else {
      assert DigitChar(DigitValue(s[0])) == s[0];
    }
  }

  /** The length of the longest all-digit suffix of `s`. */
  function TrailingDigits(s: string): (n: nat)
    ensures n <= |s|
    ensures AllDigits(s[|s| - n..])
    ensures n < |s| ==> !IsDigit(s[|s| - 1 - n])
  {
    if |s| > 0 && IsDigit(s[|s| - 1]) then
      var init := s[..|s| - 1];
      var n := 1 + TrailingDigits(init);
      assert s[|s| - n..] == init[|init| - (n - 1)..] + [s[|s| - 1]];
      n
    else 0
  }

  /** A digit run after a non-digit is exactly the trailing digit run. */
  lemma {:induction false} TrailingDigitsAfter(head: string, digits: string)
    requires |head| > 0 && !IsDigit(head[|head| - 1]) && AllDigits(digits)
    ensures TrailingDigits(head + digits) == |digits|
  {
    var s := head + digits;
    if |digits| > 0 {
      assert s[..|s| - 1] == head + digits[..|digits| - 1];
      TrailingDigitsAfter(head, digits[..|digits| - 1]);
    } else {
      assert s == head;
    }
  }
}
