/** `getWeatherIcon` of weather.js: the choice of icon for a WMO weather
    interpretation code (WMO code table 4677, WMO-No. 306) as returned by the
    forecast service. The icon is kept as a kind, not as its SVG markup.

    `WeatherIcon` follows the program's chain of tests in order. Its partner is
    `Lookup` over the table `WmoTable`, a first-match search over code ranges;
    `WeatherIconIsTableLookup` proves the two agree on every integer, and
    `LookupIgnoresOrder` shows that for pairwise disjoint ranges the order of
    the table (and so of the program's tests) makes no difference.
 */
module Weather {

  datatype Icon = Sun | Cloud | Rain | Snow | Thunderstorm

  /** Clear sky. */
  predicate IsClear(code: int) { code == 0 }
  /** Mainly clear, partly cloudy, overcast. */
  predicate IsCloudy(code: int) { 1 <= code <= 3 }
  /** Drizzle, rain and freezing rain (51-67) and rain showers (80-82). */
  predicate IsRainy(code: int) { 51 <= code <= 67 || 80 <= code <= 82 }
  /** Snow fall and snow grains (71-77) and snow showers (85-86). */
  predicate IsSnowy(code: int) { 71 <= code <= 77 || 85 <= code <= 86 }
  /** Thunderstorm, with or without hail (95-99). */
  predicate IsStormy(code: int) { 95 <= code <= 99 }

  /** `getWeatherIcon(code)`. Every integer code not covered by a test (fog 45 and
      48, negative codes, gaps between ranges) falls through to Cloud. */
  function WeatherIcon(code: int): (icon: Icon)
    ensures icon == Sun <==> IsClear(code)
    ensures IsCloudy(code) ==> icon == Cloud
    ensures icon == Rain <==> IsRainy(code)
    ensures icon == Snow <==> IsSnowy(code)
    ensures icon == Thunderstorm <==> IsStormy(code)
    ensures icon == Cloud <==> !(IsClear(code) || IsRainy(code) || IsSnowy(code) || IsStormy(code))
  {
    if code == 0 then Sun
    else if code >= 1 && code <= 3 then Cloud
    else if (code >= 51 && code <= 67) || (code >= 80 && code <= 82) then Rain
    else if (code >= 71 && code <= 77) || (code >= 85 && code <= 86) then Snow
    else if code >= 95 && code <= 99 then Thunderstorm
    else Cloud
  }

  /** An inclusive range of codes and the icon it selects. */
  datatype CodeRange = CodeRange(lo: int, hi: int, icon: Icon)
  {
    predicate Contains(code: int)
    {
      lo <= code <= hi
    }
  }

  /** The program's ranges, in the order it tests them. */
  const WmoTable: seq<CodeRange> := [
    CodeRange(0, 0, Sun),
    CodeRange(1, 3, Cloud),
    CodeRange(51, 67, Rain),
    CodeRange(80, 82, Rain),
    CodeRange(71, 77, Snow),
    CodeRange(85, 86, Snow),
    CodeRange(95, 99, Thunderstorm)
  ]

  /** The icon of the first range holding the code, or the default. */
  function Lookup(table: seq<CodeRange>, code: int, default: Icon): (icon: Icon)
    ensures (forall i :: 0 <= i < |table| ==> !table[i].Contains(code)) ==> icon == default
    ensures icon == default || exists i :: 0 <= i < |table| && table[i].Contains(code) && table[i].icon == icon
    decreases |table|
  {
    if |table| == 0 then default
    else if table[0].Contains(code) then table[0].icon
    else Lookup(table[1..], code, default)
  }

  ghost predicate PairwiseDisjoint(table: seq<CodeRange>)
  {
    forall i, j, code :: 0 <= i < j < |table| && table[i].Contains(code) ==> !table[j].Contains(code)
  }

  /** In a table of disjoint ranges, a code held by some range gets that
      range's icon, wherever the range sits. */
  lemma {:induction false} LookupFindsHoldingRange(table: seq<CodeRange>, code: int, default: Icon, k: int)
    requires PairwiseDisjoint(table)
    requires 0 <= k < |table| && table[k].Contains(code)
    ensures Lookup(table, code, default) == table[k].icon
    decreases |table|
  {
    if k > 0 {
      assert !table[0].Contains(code);
      var rest := table[1..];
      assert PairwiseDisjoint(rest) by {
        forall i, j, c | 0 <= i < j < |rest| && rest[i].Contains(c)
          ensures !rest[j].Contains(c)
        {
          assert rest[i] == table[i + 1] && rest[j] == table[j + 1];
        }
      }
      assert rest[k - 1] == table[k];
      LookupFindsHoldingRange(rest, code, default, k - 1);
    }
  }

  /** Reordering a table of disjoint ranges does not change any lookup: the
      order of the program's range tests is immaterial. */
  lemma LookupIgnoresOrder(t1: seq<CodeRange>, t2: seq<CodeRange>, code: int, default: Icon)
    requires PairwiseDisjoint(t1) && PairwiseDisjoint(t2)
    requires forall r :: r in t1 <==> r in t2
    ensures Lookup(t1, code, default) == Lookup(t2, code, default)
  {
    if k1 :| 0 <= k1 < |t1| && t1[k1].Contains(code) {
      assert t1[k1] in t2;
      var k2 :| 0 <= k2 < |t2| && t2[k2] == t1[k1];
      LookupFindsHoldingRange(t1, code, default, k1);
      LookupFindsHoldingRange(t2, code, default, k2);
    } else {
      forall k2 | 0 <= k2 < |t2|
        ensures !t2[k2].Contains(code)
      {
        assert t2[k2] in t1;
      }
    }
  }

  lemma WmoTableDisjoint()
    ensures PairwiseDisjoint(WmoTable)
  {
  }

  /** The chain of tests in `getWeatherIcon` is a first-match lookup in the
      range table with Cloud as the default. */
  lemma WeatherIconIsTableLookup(code: int)
    ensures WeatherIcon(code) == Lookup(WmoTable, code, Cloud)
  {
    WmoTableDisjoint();
    var t := WmoTable;
    if k :| 0 <= k < |t| && t[k].Contains(code) {
      LookupFindsHoldingRange(t, code, Cloud, k);
    }
  }

  /** The program's ranges with the tests taken in the opposite order. */
  const ReversedTable: seq<CodeRange> := [
    CodeRange(95, 99, Thunderstorm),
    CodeRange(85, 86, Snow),
    CodeRange(71, 77, Snow),
    CodeRange(80, 82, Rain),
    CodeRange(51, 67, Rain),
    CodeRange(1, 3, Cloud),
    CodeRange(0, 0, Sun)
  ]

  lemma ReversedTableDisjoint()
    ensures PairwiseDisjoint(ReversedTable)
  {
  }

  /** Testing thunderstorm, snow and rain in the reverse of the program's
      order picks the same icon for every code. */
  lemma WeatherIconReorderedTests(code: int)
    ensures WeatherIcon(code) == Lookup(ReversedTable, code, Cloud)
  {
    WmoTableDisjoint();
    ReversedTableDisjoint();
    assert forall r :: r in WmoTable <==> r in ReversedTable;
    WeatherIconIsTableLookup(code);
    LookupIgnoresOrder(WmoTable, ReversedTable, code, Cloud);
  }
}
