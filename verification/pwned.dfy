/**
 * The pure part of the breach-count lookup (app/api/pwned.api.ts): parsing
 * the range response and picking the count for the hash suffix. The HTTP
 * request itself is not part of this model; its body is the input `text`.
 */
module Pwned {
  import opened Text
  import opened Js

  /** One line of a range response: the hash suffix and its `parseInt` count. */
  datatype RangeResult = RangeResult(suffix: string, count: Num)

  /**
   * One kept line: the text before the first ':' trimmed, and `parseInt`
   * of the trimmed text between the first and second ':' ("0" when the
   * line has no ':').
   */
  function ParseLine(line: string): (r: RangeResult)
    ensures ':' !in r.suffix
    ensures |r.suffix| > 0 ==> !IsSpace(r.suffix[0]) && !IsSpace(r.suffix[|r.suffix| - 1])
    ensures |r.suffix| <= |line|
  {
    var fields := Split(line, ':');
    TrimLacks(fields[0], ':');
    var countText := if |fields| >= 2 then Trim(fields[1]) else "0";
    RangeResult(Trim(fields[0]), ParseInt(countText))
  }

  /** A line that `filter((line) => line.trim().length > 0)` drops. */
  predicate Blank(line: string) {
    |Trim(line)| == 0
  }

  /** `xs.filter(keep).map(f)`. */
  function FilterMap<T, U>(xs: seq<T>, keep: T -> bool, f: T -> U): (ys: seq<U>)
    ensures |ys| <= |xs|
  {
    if |xs| == 0 then []
    else (if keep(xs[0]) then [f(xs[0])] else []) + FilterMap(xs[1..], keep, f)
  }

  /** Every output has any property that the images of kept inputs share. */
  lemma {:induction false} FilterMapKeeps<T, U>(xs: seq<T>, keep: T -> bool, f: T -> U, good: U -> bool)
    requires forall x :: keep(x) ==> good(f(x))
    ensures forall k :: 0 <= k < |FilterMap(xs, keep, f)| ==> good(FilterMap(xs, keep, f)[k])
  {
    if |xs| > 0 {
      FilterMapKeeps(xs[1..], keep, f, good);
    }
  }

  /** Nothing kept, nothing produced. */
  lemma {:induction false} FilterMapNone<T, U>(xs: seq<T>, keep: T -> bool, f: T -> U)
    requires forall i :: 0 <= i < |xs| ==> !keep(xs[i])
    ensures FilterMap(xs, keep, f) == []
  {
    if |xs| > 0 {
      FilterMapNone(xs[1..], keep, f);
    }
  }

  /** Everything kept: one output per input, in place. */
  lemma {:induction false} FilterMapAll<T, U>(xs: seq<T>, keep: T -> bool, f: T -> U)
    requires forall i :: 0 <= i < |xs| ==> keep(xs[i])
    ensures |FilterMap(xs, keep, f)| == |xs|
    ensures forall i :: 0 <= i < |xs| ==> FilterMap(xs, keep, f)[i] == f(xs[i])
  {
    if |xs| > 0 {
      FilterMapAll(xs[1..], keep, f);
      assert forall i :: 1 <= i < |xs| ==> xs[1..][i - 1] == xs[i];
    }
  }

  lemma {:induction false} FilterMapAppend<T, U>(a: seq<T>, b: seq<T>, keep: T -> bool, f: T -> U)
    ensures FilterMap(a + b, keep, f) == FilterMap(a, keep, f) + FilterMap(b, keep, f)
  {
    if |a| > 0 {
      assert (a + b)[0] == a[0];
      assert (a + b)[1..] == a[1..] + b;
      FilterMapAppend(a[1..], b, keep, f);
    } else {
      assert a + b == b;
    }
  }

  predicate Kept(line: string) {
    !Blank(line)
  }

  /** Blank lines dropped, every other line parsed, in order. */
  function ParseLines(lines: seq<string>): (rs: seq<RangeResult>)
    ensures |rs| <= |lines|
  {
    FilterMap(lines, Kept, ParseLine)
  }

  /** A response of blank lines only gives no results. */
  lemma ParseLinesAllBlank(lines: seq<string>)
    requires forall i :: 0 <= i < |lines| ==> Blank(lines[i])
    ensures ParseLines(lines) == []
  {
    FilterMapNone(lines, Kept, ParseLine);
  }

  /** Without blank lines, each line gives exactly one result: its own parse, in the same position. */
  lemma ParseLinesNoBlank(lines: seq<string>)
    requires forall i :: 0 <= i < |lines| ==> !Blank(lines[i])
    ensures |ParseLines(lines)| == |lines|
    ensures forall i :: 0 <= i < |lines| ==> ParseLines(lines)[i] == ParseLine(lines[i])
  {
    FilterMapAll(lines, Kept, ParseLine);
  }

  /** No parsed suffix holds a ':', whatever the lines. */
  lemma ParseLinesSuffixes(lines: seq<string>)
    ensures forall k :: 0 <= k < |ParseLines(lines)| ==> ':' !in ParseLines(lines)[k].suffix
  {
    FilterMapKeeps(lines, Kept, ParseLine, (r: RangeResult) => ':' !in r.suffix);
  }

  /** A blank line gives no result and any other line gives its own parse. */
  lemma ParseLinesSingle(line: string)
    ensures ParseLines([line]) == if Blank(line) then [] else [ParseLine(line)]
  {
  }

  /** The parser works line by line: parsing a concatenation parses each part in turn. */
  lemma ParseLinesAppend(a: seq<string>, b: seq<string>)
    ensures ParseLines(a + b) == ParseLines(a) + ParseLines(b)
  {
    FilterMapAppend(a, b, Kept, ParseLine);
  }

  /**
   * `parseRangeResponse`: a body without a line break is one line, and
   * every result is a parsed line, so its suffix holds no ':'.
   */
  function ParseRangeResponse(text: string): (rs: seq<RangeResult>)
    ensures '\n' !in text ==> rs == if Blank(text) then [] else [ParseLine(text)]
    ensures forall k :: 0 <= k < |rs| ==> ':' !in rs[k].suffix
  {
    ParseLinesSuffixes(Split(text, '\n'));
    ParseLines(Split(text, '\n'))
  }

  /** The suffix comparison of `getPwnedCount`: equal after upper-casing. */
  predicate SameSuffix(a: string, b: string) {
    Upper(a) == Upper(b)
  }

  /**
   * `results.find(...)?.count ?? 0`: the count of the first result whose
   * suffix matches, else 0. A NaN count is returned as it is, since `??`
   * only replaces a missing match.
   */
  function FindCount(results: seq<RangeResult>, suffix: string): (n: Num)
    ensures (forall i :: 0 <= i < |results| ==> !SameSuffix(results[i].suffix, suffix)) ==> n == Int(0)
    ensures n == Int(0) || exists i :: 0 <= i < |results| && SameSuffix(results[i].suffix, suffix) && n == results[i].count
    ensures forall i :: 0 <= i < |results| ==>
      (SameSuffix(results[i].suffix, suffix) && forall j :: 0 <= j < i ==> !SameSuffix(results[j].suffix, suffix))
      ==> n == results[i].count
  {
    if |results| == 0 then Int(0)
    else if SameSuffix(results[0].suffix, suffix) then results[0].count
    else FindCount(results[1..], suffix)
  }

  /** `getPwnedCount` once the hash suffix is known and the response body has arrived. */
  function GetPwnedCount(text: string, hashSuffix: string): (n: Num)
    ensures n == Int(0) || exists r :: r in ParseRangeResponse(text) && SameSuffix(r.suffix, hashSuffix) && n == r.count
    ensures '\n' !in text && Blank(text) ==> n == Int(0)
  {
    FindCount(ParseRangeResponse(text), hashSuffix)
  }

  // ----- The response format, as the partner of the parser -----

  /** A suffix as the range API returns it: upper-case hex, non-empty. */
  predicate WellFormedSuffix(s: string) {
    |s| > 0 && forall i :: 0 <= i < |s| ==> ('0' <= s[i] <= '9') || ('A' <= s[i] <= 'F')
  }

  datatype RangeEntry = RangeEntry(suffix: string, count: nat)

  /** One response line, `SUFFIX:COUNT` with the CR of the API's CRLF line ends. */
  function FormatLine(e: RangeEntry): string {
    e.suffix + ":" + Decimal(e.count) + "\r"
  }

  function FormatLines(entries: seq<RangeEntry>): (lines: seq<string>)
    ensures |lines| == |entries|
    ensures forall i :: 0 <= i < |lines| ==> lines[i] == FormatLine(entries[i])
  {
    if |entries| == 0 then [] else [FormatLine(entries[0])] + FormatLines(entries[1..])
  }

  /** A range response body holding `entries`, one per line. */
  function FormatRange(entries: seq<RangeEntry>): string {
    Join(FormatLines(entries), "\n")
  }

  function Expected(entries: seq<RangeEntry>): (rs: seq<RangeResult>)
    ensures |rs| == |entries|
    ensures forall i :: 0 <= i < |rs| ==> rs[i] == RangeResult(entries[i].suffix, Int(entries[i].count))
  {
    if |entries| == 0 then [] else [RangeResult(entries[0].suffix, Int(entries[0].count))] + Expected(entries[1..])
  }

  lemma TrimDecimalCr(n: nat)
    ensures Trim(Decimal(n) + "\r") == Decimal(n)
  {
    var d := Decimal(n);
    var s := d + "\r";
    assert !IsSpace(s[0]) by { assert s[0] == d[0]; }
    assert TrimStart(s) == s;
    assert s[..|s| - 1] == d;
    assert TrimEnd(s) == TrimEnd(d);
    assert !IsSpace(d[|d| - 1]);
  }

  lemma DigitsLack(s: string, c: char)
    requires AllDigits(s) && !IsDigit(c)
    ensures c !in s
  {
    assert forall k :: 0 <= k < |s| ==> s[k] != c;
  }

  lemma SuffixLacks(s: string, c: char)
    requires WellFormedSuffix(s) && !('0' <= c <= '9') && !('A' <= c <= 'F')
    ensures c !in s
  {
    assert forall k :: 0 <= k < |s| ==> s[k] != c;
  }

  /** A formatted line has no line break, and splits on ':' into the suffix and the count text. */
  lemma FormatLineFields(e: RangeEntry)
    requires WellFormedSuffix(e.suffix)
    ensures '\n' !in FormatLine(e)
    ensures Split(FormatLine(e), ':') == [e.suffix, Decimal(e.count) + "\r"]
  {
    var d := Decimal(e.count);
    SuffixLacks(e.suffix, ':');
    SuffixLacks(e.suffix, '\n');
    DigitsLack(d, ':');
    DigitsLack(d, '\n');
    assert FormatLine(e) == Join([e.suffix, d + "\r"], ":");
    SplitJoin([e.suffix, d + "\r"], ':');
  }

  /** One formatted line is kept by the filter and parses back to its entry. */
  lemma ParseFormatLine(e: RangeEntry)
    requires WellFormedSuffix(e.suffix)
    ensures !Blank(FormatLine(e))
    ensures ParseLine(FormatLine(e)) == RangeResult(e.suffix, Int(e.count))
  {
    var line := FormatLine(e);
    FormatLineFields(e);
    TrimOfTrimmed(e.suffix);
    TrimDecimalCr(e.count);
    ParseIntRoundTrip(e.count);
    assert line[|e.suffix|] == ':';
    TrimKeepsNonSpace(line, |e.suffix|);
  }

  lemma {:induction false} ParseFormatLines(entries: seq<RangeEntry>)
    requires forall i :: 0 <= i < |entries| ==> WellFormedSuffix(entries[i].suffix)
    ensures ParseLines(FormatLines(entries)) == Expected(entries)
  {
    if |entries| > 0 {
      ParseFormatLine(entries[0]);
      assert FormatLines(entries)[1..] == FormatLines(entries[1..]);
      ParseFormatLines(entries[1..]);
    }
  }

  /** A formatted response parses back to exactly its entries, in order. */
  lemma ParseFormatRoundTrip(entries: seq<RangeEntry>)
    requires forall i :: 0 <= i < |entries| ==> WellFormedSuffix(entries[i].suffix)
    ensures ParseRangeResponse(FormatRange(entries)) == Expected(entries)
  {
    var lines := FormatLines(entries);
    if |entries| == 0 {
      assert Split("", '\n') == [""];
      assert Blank("");
    } else {
      forall i | 0 <= i < |lines|
        ensures '\n' !in lines[i]
      {
        FormatLineFields(entries[i]);
      }
      SplitJoin(lines, '\n');
      ParseFormatLines(entries);
    }
  }

  /**
   * Looking a suffix up in a formatted response gives the count of the
   * first entry with that suffix (compared case-insensitively), else 0.
   */
  lemma LookupFormatted(entries: seq<RangeEntry>, suffix: string, i: nat)
    requires forall k :: 0 <= k < |entries| ==> WellFormedSuffix(entries[k].suffix)
    requires i < |entries| && SameSuffix(entries[i].suffix, suffix)
    requires forall j :: 0 <= j < i ==> !SameSuffix(entries[j].suffix, suffix)
    ensures GetPwnedCount(FormatRange(entries), suffix) == Int(entries[i].count)
  {
    ParseFormatRoundTrip(entries);
  }

  lemma LookupFormattedMissing(entries: seq<RangeEntry>, suffix: string)
    requires forall k :: 0 <= k < |entries| ==> WellFormedSuffix(entries[k].suffix)
    requires forall j :: 0 <= j < |entries| ==> !SameSuffix(entries[j].suffix, suffix)
    ensures GetPwnedCount(FormatRange(entries), suffix) == Int(0)
  {
    ParseFormatRoundTrip(entries);
  }

  /** A line without ':' parses with count 0, and its whole trimmed text as the suffix. */
  lemma NoColonCountsZero(line: string)
    requires ':' !in line
    ensures ParseLine(line) == RangeResult(Trim(line), Int(0))
  {
    assert ParseInt("0") == Int(0) by { ParseIntRoundTrip(0); }
  }

  lemma NaNLineFields(suffix: string)
    requires WellFormedSuffix(suffix)
    ensures Split(suffix + ":x", ':') == [suffix, "x"]
  {
    SuffixLacks(suffix, ':');
    assert suffix + ":x" == Join([suffix, "x"], ":");
    SplitJoin([suffix, "x"], ':');
  }

  lemma XIsNotSpace()
    ensures !IsSpace('x')
  {
  }

  lemma XTrimmed()
    ensures Trim("x") == "x"
  {
    XIsNotSpace();
    TrimOfTrimmed("x");
  }

  lemma XIsNaN()
    ensures ParseInt("x") == NaN
  {
    XIsNotSpace();
    assert TrimStart("x") == "x";
    assert DigitPrefix("x") == "";
  }

  lemma ParseNaNLine(suffix: string)
    requires WellFormedSuffix(suffix)
    ensures ParseLine(suffix + ":x") == RangeResult(suffix, NaN)
  {
    NaNLineFields(suffix);
    TrimOfTrimmed(suffix);
    XTrimmed();
    XIsNaN();
  }

  lemma NaNLineKept(suffix: string)
    requires WellFormedSuffix(suffix)
    ensures !Blank(suffix + ":x")
    ensures Split(suffix + ":x", '\n') == [suffix + ":x"]
  {
    var line := suffix + ":x";
    assert line[|suffix|] == ':';
    TrimKeepsNonSpace(line, |suffix|);
    SuffixLacks(suffix, '\n');
    assert '\n' !in ":x";
  }

  /** A count field with no digits gives NaN, and the lookup hands that NaN back. */
  lemma NaNCountSurvives(suffix: string)
    requires WellFormedSuffix(suffix)
    ensures GetPwnedCount(suffix + ":x", suffix) == NaN
  {
    var line := suffix + ":x";
    ParseNaNLine(suffix);
    NaNLineKept(suffix);
    assert ParseLines([line]) == [ParseLine(line)] + ParseLines([]);
  }
}
