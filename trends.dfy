/**
 * The summary a recommended-hashtag cell shows: the title, how many people are
 * talking (from the two most recent history entries), and the chart series
 * (every history entry, oldest first).
 */
module HashtagTrend {
  import opened Wrappers

  /** Bounds of Swift's `Int` on a 64-bit platform. */
  const IntMin: int := -0x8000_0000_0000_0000
  const IntMax: int := 0x7FFF_FFFF_FFFF_FFFF

  /** One day of a hashtag's usage history; `day` is its date as a timestamp, `accounts` a decimal string. */
  datatype History = History(day: int, uses: string, accounts: string)

  /** A hashtag; `history` is absent when the server sends none. */
  datatype Tag = Tag(name: string, history: Option<seq<History>>)

  /** The cell's title: "# " followed by the tag's name. */
  function HashtagTitle(name: string): (t: string)
    ensures |t| == |name| + 2 && t[..2] == "# " && t[2..] == name
  {
    "# " + name
  }

  // ---------------------------------------------------------------------
  // Swift's Int(String)

  predicate IsDigit(c: char) {
    '0' <= c <= '9'
  }

  predicate AllDigits(s: string) {
    forall i :: 0 <= i < |s| ==> IsDigit(s[i])
  }

  /** The value of a string of decimal digits, most significant first. */
  function DigitsValue(s: string): nat
    requires AllDigits(s)
  {
    if s == [] then 0 else DigitsValue(s[..|s| - 1]) * 10 + (s[|s| - 1] as int - '0' as int)
  }

  /**
   * `Int(s)`: an optional '+' or '-', then one or more ASCII digits, and the
   * value must fit in `Int`; anything else gives nil.
   */
  function ParseInt(s: string): (r: Option<int>)
    ensures r.Some? ==> IntMin <= r.value <= IntMax
    ensures r.Some? ==> |s| > 0 && (IsDigit(s[0]) || (|s| > 1 && (s[0] == '+' || s[0] == '-')))
    ensures r.Some? ==> forall i :: 1 <= i < |s| ==> IsDigit(s[i])
  {
    var signed := |s| > 0 && (s[0] == '+' || s[0] == '-');
    var digits := if signed then s[1..] else s;
    if digits == [] || !AllDigits(digits) then None
    else
      var v: int := if signed && s[0] == '-' then 0 - DigitsValue(digits) as int else DigitsValue(digits) as int;
      if IntMin <= v <= IntMax then Some(v) else None
  }

  /** `String(n)` for a non-negative `n`: its decimal digits without leading zeros. */
  function Decimal(n: nat): (d: string)
    ensures |d| >= 1 && AllDigits(d)
    ensures |d| > 1 ==> d[0] != '0'
  {
    var last := ['0' + (n % 10) as char];
    if n < 10 then last else Decimal(n / 10) + last
  }

  lemma {:induction false} DecimalDigits(n: nat)
    ensures DigitsValue(Decimal(n)) == n
  {
    if n >= 10 {
      DecimalDigits(n / 10);
      var s := Decimal(n);
      assert s[..|s| - 1] == Decimal(n / 10);
    }
  }

  /**
   * Parsing the decimal rendering of a count gives the count back, with either
   * sign, as long as the signed value fits in `Int`; otherwise it gives nil.
   */
  lemma ParseDecimalRoundTrip(n: nat)
    ensures ParseInt(Decimal(n)) == if n <= IntMax then Some(n) else None
    ensures ParseInt("+" + Decimal(n)) == if n <= IntMax then Some(n) else None
    ensures ParseInt("-" + Decimal(n)) == if n <= IntMax + 1 then Some(-(n as int)) else None
  {
    DecimalDigits(n);
    assert ("+" + Decimal(n))[1..] == Decimal(n);
    assert ("-" + Decimal(n))[1..] == Decimal(n);
  }

  /** `Int.min` parses. */
  lemma ParseIntMin()
    ensures ParseInt("-" + Decimal(IntMax + 1)) == Some(IntMin)
  {
    ParseDecimalRoundTrip(IntMax + 1);
  }

  /** A leading zero does not change a string of digits' value. */
  lemma {:induction false} LeadingZeroValue(s: string)
    requires AllDigits(s)
    ensures AllDigits("0" + s) && DigitsValue("0" + s) == DigitsValue(s)
  {
    var z := "0" + s;
    if s == [] {
      assert z[..0] == [];
    } else {
      LeadingZeroValue(s[..|s| - 1]);
      assert z[..|z| - 1] == "0" + s[..|s| - 1];
    }
  }

  /** Leading zeros are accepted: "0" before a non-empty digit string parses to the same result. */
  lemma ParseLeadingZero(s: string)
    requires AllDigits(s) && s != []
    ensures ParseInt("0" + s) == ParseInt(s)
  {
    LeadingZeroValue(s);
  }

  // ---------------------------------------------------------------------
  // People talking

  /** An entry's `accounts` parsed, or 0 when it does not parse. */
  function AccountsOrZero(e: History): (v: int)
    ensures ParseInt(e.accounts).Some? ==> v == ParseInt(e.accounts).value
    ensures ParseInt(e.accounts).None? ==> v == 0
  {
    match ParseInt(e.accounts)
    case Some(v) => v
    case None => 0
  }

  /** `compactMap { Int($0.accounts) }`: the parsed counts, unparseable entries dropped. */
  function ParsedAccounts(hs: seq<History>): (vs: seq<int>)
    ensures |vs| <= |hs|
    ensures forall i :: 0 <= i < |hs| && ParseInt(hs[i].accounts).Some? ==> ParseInt(hs[i].accounts).value in vs
    ensures forall v :: v in vs ==> exists i :: 0 <= i < |hs| && ParseInt(hs[i].accounts) == Some(v)
  {
    if hs == [] then []
    else
      var head := match ParseInt(hs[0].accounts) case Some(v) => [v] case None => [];
      head + ParsedAccounts(hs[1..])
  }

  /** `reduce(0, +)`. */
  function Sum(xs: seq<int>): (total: int)
    ensures xs == [] ==> total == 0
    ensures (forall i :: 0 <= i < |xs| ==> xs[i] >= 0) ==> total >= 0
  {
    if xs == [] then 0 else xs[0] + Sum(xs[1..])
  }

  /** Each entry mapped to its parsed count, or to 0 (the chart's `map`). */
  function Points(hs: seq<History>): (ps: seq<int>)
    ensures |ps| == |hs|
    ensures forall i :: 0 <= i < |hs| ==> ps[i] == AccountsOrZero(hs[i])
  {
    if hs == [] then []
    else
      var rest := Points(hs[1..]);
      assert forall i :: 1 <= i < |hs| ==> rest[i - 1] == AccountsOrZero(hs[i]);
      [AccountsOrZero(hs[0])] + rest
  }

  /** Dropping the unparseable entries and counting them as 0 give the same total. */
  lemma {:induction false} SumParsedIsSumOfPoints(hs: seq<History>)
    ensures Sum(ParsedAccounts(hs)) == Sum(Points(hs))
  {
    if hs != [] {
      SumParsedIsSumOfPoints(hs[1..]);
      var head := match ParseInt(hs[0].accounts) case Some(v) => [v] case None => [];
      var rest := ParsedAccounts(hs[1..]);
      assert ParsedAccounts(hs) == head + rest;
      if head == [] {
        assert head + rest == rest;
      } else {
        assert (head + rest)[1..] == rest;
      }
    }
  }

  lemma SumOfPoints(hs: seq<History>)
    requires |hs| <= 2
    ensures Sum(Points(hs)) == (if |hs| > 0 then AccountsOrZero(hs[0]) else 0) + (if |hs| > 1 then AccountsOrZero(hs[1]) else 0)
  {
    if |hs| == 1 {
      assert Points(hs) == [AccountsOrZero(hs[0])];
      assert Points(hs)[1..] == [];
    } else if |hs| == 2 {
      assert Points(hs) == [AccountsOrZero(hs[0]), AccountsOrZero(hs[1])];
      assert Points(hs)[1..] == [AccountsOrZero(hs[1])];
      assert Points(hs)[1..][1..] == [];
    }
  }

  /** `history.prefix(2)`. */
  function RecentHistory(hs: seq<History>): (r: seq<History>)
    ensures |r| <= 2 && r <= hs
    ensures |hs| >= 2 ==> |r| == 2
    ensures |hs| < 2 ==> r == hs
  {
    hs[..if |hs| < 2 then |hs| else 2]
  }

  /**
   * The people-talking count: the sum of the parseable `accounts` of the first
   * two entries (at most), an unparseable entry adding nothing.
   */
  function PeopleCount(hs: seq<History>): (n: int)
    ensures n == (if |hs| > 0 then AccountsOrZero(hs[0]) else 0) + (if |hs| > 1 then AccountsOrZero(hs[1]) else 0)
    ensures hs == [] ==> n == 0
    ensures (forall i :: 0 <= i < |hs| ==> AccountsOrZero(hs[i]) >= 0) ==> n >= 0
  {
    var recent := RecentHistory(hs);
    SumParsedIsSumOfPoints(recent);
    SumOfPoints(recent);
    Sum(ParsedAccounts(recent))
  }

  // ---------------------------------------------------------------------
  // Chart series

  predicate SortedByDay(hs: seq<History>) {
    forall i, j :: 0 <= i < j < |hs| ==> hs[i].day <= hs[j].day
  }

  /** Inserts `e` before the first entry whose day is not earlier. */
  function InsertByDay(e: History, hs: seq<History>): (r: seq<History>)
    ensures |r| == |hs| + 1
  {
    if hs == [] || e.day <= hs[0].day then [e] + hs
    else [hs[0]] + InsertByDay(e, hs[1..])
  }

  /** Every entry after an insertion is no earlier than `e` or than the old first entry. */
  lemma {:induction false} InsertLowerBound(e: History, hs: seq<History>, b: int)
    requires e.day >= b && forall j :: 0 <= j < |hs| ==> hs[j].day >= b
    ensures forall j :: 0 <= j < |hs| + 1 ==> InsertByDay(e, hs)[j].day >= b
  {
    if hs != [] && e.day > hs[0].day {
      InsertLowerBound(e, hs[1..], b);
    }
  }

  /** Inserting into a day-ordered history keeps it ordered. */
  lemma {:induction false} InsertSorted(e: History, hs: seq<History>)
    requires SortedByDay(hs)
    ensures SortedByDay(InsertByDay(e, hs))
  {
    if hs != [] && e.day > hs[0].day {
      InsertSorted(e, hs[1..]);
      InsertLowerBound(e, hs[1..], hs[0].day);
      assert InsertByDay(e, hs) == [hs[0]] + InsertByDay(e, hs[1..]);
    }
  }

  /** Inserting adds exactly `e`. */
  lemma {:induction false} InsertPermutes(e: History, hs: seq<History>)
    ensures multiset(InsertByDay(e, hs)) == multiset(hs) + multiset{e}
  {
    if hs != [] && e.day > hs[0].day {
      InsertPermutes(e, hs[1..]);
      assert InsertByDay(e, hs) == [hs[0]] + InsertByDay(e, hs[1..]);
      assert hs == [hs[0]] + hs[1..];
    }
  }

  /** `sorted(by: { $0.day < $1.day })`: oldest first, latest last. */
  function SortByDay(hs: seq<History>): (r: seq<History>)
    ensures |r| == |hs|
    ensures SortedByDay(r)
    ensures multiset(r) == multiset(hs)
  {
    if hs == [] then []
    else
      var rest := SortByDay(hs[1..]);
      InsertSorted(hs[0], rest);
      InsertPermutes(hs[0], rest);
      assert hs == [hs[0]] + hs[1..];
      InsertByDay(hs[0], rest)
  }

  lemma PointsCons(x: History, rest: seq<History>)
    ensures Points([x] + rest) == [AccountsOrZero(x)] + Points(rest)
  {
    assert ([x] + rest)[1..] == rest;
  }

  /** Putting the same entry in front of two histories keeps a multiset relation between their points. */
  lemma PointsConsStep(x: History, rest: seq<History>, tail: seq<History>, p: int)
    requires multiset(Points(rest)) == multiset(Points(tail)) + multiset{p}
    ensures multiset(Points([x] + rest)) == multiset(Points([x] + tail)) + multiset{p}
  {
    PointsCons(x, rest);
    PointsCons(x, tail);
  }

  lemma {:induction false} PointsOfInsert(e: History, hs: seq<History>)
    ensures multiset(Points(InsertByDay(e, hs))) == multiset(Points(hs)) + multiset{AccountsOrZero(e)}
  {
    if hs == [] || e.day <= hs[0].day {
      calc {
        multiset(Points(InsertByDay(e, hs)));
        == { assert InsertByDay(e, hs) == [e] + hs; }
        multiset(Points([e] + hs));
        == { PointsCons(e, hs); }
        multiset([AccountsOrZero(e)] + Points(hs));
      }
    } else {
      var x, tail := hs[0], hs[1..];
      calc {
        multiset(Points(InsertByDay(e, hs)));
        == { assert InsertByDay(e, hs) == [x] + InsertByDay(e, tail); }
        multiset(Points([x] + InsertByDay(e, tail)));
        == { PointsOfInsert(e, tail); PointsConsStep(x, InsertByDay(e, tail), tail, AccountsOrZero(e)); }
        multiset(Points([x] + tail)) + multiset{AccountsOrZero(e)};
        == { assert hs == [x] + tail; }
        multiset(Points(hs)) + multiset{AccountsOrZero(e)};
      }
    }
  }

  /** Sorting only reorders the chart points. */
  lemma {:induction false} PointsOfSort(hs: seq<History>)
    ensures multiset(Points(SortByDay(hs))) == multiset(Points(hs))
  {
    if hs != [] {
      PointsOfSort(hs[1..]);
      PointsOfInsert(hs[0], SortByDay(hs[1..]));
    }
  }

  /**
   * `lineChartView.data`: every entry, in ascending order of day, as its parsed
   * `accounts` or 0.
   */
  function ChartSeries(hs: seq<History>): (r: seq<int>)
    ensures |r| == |hs|
    ensures multiset(r) == multiset(Points(hs))
    ensures forall k :: 0 <= k < |r| ==> r[k] == AccountsOrZero(SortByDay(hs)[k])
    ensures forall k :: 0 <= k < |r| && ParseInt(SortByDay(hs)[k].accounts).None? ==> r[k] == 0
  {
    PointsOfSort(hs);
    Points(SortByDay(hs))
  }

  /** The last chart point comes from an entry of the latest day. */
  lemma LatestLast(hs: seq<History>)
    requires hs != []
    ensures var sorted := SortByDay(hs);
            |sorted| == |hs| && forall i :: 0 <= i < |hs| ==> hs[i].day <= sorted[|hs| - 1].day
  {
    var sorted := SortByDay(hs);
    var n := |hs| - 1;
    forall i | 0 <= i < |hs|
      ensures hs[i].day <= sorted[n].day
    {
      assert hs[i] in multiset(sorted);
      var j :| 0 <= j < |sorted| && sorted[j] == hs[i];
      assert j < n ==> sorted[j].day <= sorted[n].day;
    }
  }

  // ---------------------------------------------------------------------
  // The cell

  /** What the people label shows: nothing, the empty string, or the sentence for a count. */
  datatype PeopleText = Blank | PeopleTalking(count: int)

  /** The labels and chart of a recommended-hashtag cell. */
  class RecommendTagCell {
    var hashtagTitle: Option<string>
    var peopleText: Option<PeopleText>
    var chartData: seq<int>

    constructor ()
      ensures hashtagTitle == None && peopleText == None && chartData == []
    {
      hashtagTitle := None;
      peopleText := None;
      chartData := [];
    }

    /**
     * `config(with:)`: sets the title; without history the people label is
     * blanked and the chart keeps its data; otherwise both are filled.
     */
    method Config(tag: Tag)
      modifies this
      ensures hashtagTitle == Some(HashtagTitle(tag.name))
      ensures tag.history.None? ==> peopleText == Some(Blank) && chartData == old(chartData)
      ensures tag.history.Some? ==>
                && peopleText == Some(PeopleTalking(PeopleCount(tag.history.value)))
                && chartData == ChartSeries(tag.history.value)
    {
      hashtagTitle := Some(HashtagTitle(tag.name));
      if tag.history.None? {
        peopleText := Some(Blank);
        return;
      }
      var history := tag.history.value;
      peopleText := Some(PeopleTalking(PeopleCount(history)));
      chartData := ChartSeries(history);
    }
  }
}
