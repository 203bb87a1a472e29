/**
 * The click chart's data preparation (`processClickData`): every redirect
 * timestamp is turned into a bucket key for the selected detail level, the
 * keys are counted in a dictionary, and the distinct keys are sorted with the
 * default string sort to give the chart's labels and values.
 */
module ClickChart {
  import opened Wrappers
  import opened Strings

  // ---------------------------------------------------------------------------
  // Bucket keys
  // ---------------------------------------------------------------------------

  /** A redirect timestamp already decomposed into local calendar fields, as
      `getFullYear`, `getMonth` (0-11), `getDate`, `getHours` and `getMinutes`
      report them. */
  datatype LocalTime = LocalTime(year: nat, month: nat, day: nat, hour: nat, minute: nat)

  /** `H:MM`: the hour unpadded, the minute padded to two digits, no date: a
      colon, and neither the dash nor the space of the dated keys. */
  function MinuteKey(t: LocalTime): (k: string)
    ensures ':' in k && '-' !in k && ' ' !in k
  {
    var h, m := NatToString(t.hour), PadStart2(NatToString(t.minute));
    ParsePaddedMinute(t.minute);
    DigitsLackSeparator(h, ':');
    DigitsLackSeparator(m, ':');
    h + ":" + m
  }

  /** `Y-M-D` with the month counted from 1 and nothing padded: dashes, and no
      space or colon. */
  function DayKey(t: LocalTime): (k: string)
    ensures '-' in k && ':' !in k && ' ' !in k
  {
    var y, m, d := NatToString(t.year), NatToString(t.month + 1), NatToString(t.day);
    DigitsLackSeparator(y, '-');
    DigitsLackSeparator(m, '-');
    DigitsLackSeparator(d, '-');
    y + "-" + m + "-" + d
  }

  /** `Y-M-D H:00`: the day key, a space, the unpadded hour and `:00`. An hour
      key is its day key extended, so a day bucket splits into hour buckets. */
  function HourKey(t: LocalTime): (k: string)
    ensures |DayKey(t)| < |k| && k[..|DayKey(t)|] == DayKey(t) && k[|DayKey(t)|] == ' '
    ensures k[|k| - 3..] == ":00"
  {
    DayKey(t) + " " + NatToString(t.hour) + ":00"
  }

  /** The `switch (detailLevel)`: `"minute"`, `"hour"`, and `"day"` or anything else. */
  function BucketKey(t: LocalTime, detailLevel: string): string {
    if detailLevel == "minute" then MinuteKey(t)
    else if detailLevel == "hour" then HourKey(t)
    else DayKey(t)
  }

  /** The three formats never coincide, so a key shows which case of the
      `switch` made it. */
  lemma BucketKeyShowsLevel(t: LocalTime, detailLevel: string)
    ensures BucketKey(t, detailLevel) == MinuteKey(t) <==> detailLevel == "minute"
    ensures BucketKey(t, detailLevel) == HourKey(t) <==> detailLevel == "hour"
    ensures BucketKey(t, detailLevel) == DayKey(t) <==> detailLevel != "minute" && detailLevel != "hour"
  {
    assert '-' in HourKey(t) && ' ' in HourKey(t);
  }

  /** The key of every timestamp, position by position. */
  function MapKeys(data: seq<LocalTime>, keyOf: LocalTime -> string): (keys: seq<string>)
    ensures |keys| == |data|
    ensures forall i :: 0 <= i < |data| ==> keys[i] == keyOf(data[i])
  {
    seq(|data|, i requires 0 <= i < |data| => keyOf(data[i]))
  }

  function BucketKeys(data: seq<LocalTime>, detailLevel: string): (keys: seq<string>)
    ensures |keys| == |data|
    ensures forall i :: 0 <= i < |data| ==> keys[i] == BucketKey(data[i], detailLevel)
  {
    MapKeys(data, t => BucketKey(t, detailLevel))
  }

  lemma DayKeyInjective(t: LocalTime, u: LocalTime)
    ensures DayKey(t) == DayKey(u) <==> t.year == u.year && t.month == u.month && t.day == u.day
  {
    if DayKey(t) == DayKey(u) {
      SplitThreeFields(NatToString(t.year), NatToString(t.month + 1), NatToString(t.day),
                       NatToString(u.year), NatToString(u.month + 1), NatToString(u.day), '-');
      NatToStringInjective(t.year, u.year);
      NatToStringInjective(t.month + 1, u.month + 1);
      NatToStringInjective(t.day, u.day);
    }
  }

  /** Two timestamps share an hour bucket exactly when they agree on year, month, day and hour. */
  lemma HourBucketIff(t: LocalTime, u: LocalTime)
    ensures BucketKey(t, "hour") == BucketKey(u, "hour")
        <==> t.year == u.year && t.month == u.month && t.day == u.day && t.hour == u.hour
  {
    if HourKey(t) == HourKey(u) {
      var h, h' := NatToString(t.hour), NatToString(u.hour);
      assert HourKey(t) == DayKey(t) + [' '] + (h + [':'] + "00");
      assert HourKey(u) == DayKey(u) + [' '] + (h' + [':'] + "00");
      assert ' ' !in DayKey(t) && ' ' !in DayKey(u);
      SplitAtSeparator(DayKey(t), h + [':'] + "00", DayKey(u), h' + [':'] + "00", ' ');
      DigitsLackSeparator(h, ':');
      DigitsLackSeparator(h', ':');
      SplitAtSeparator(h, "00", h', "00", ':');
      DayKeyInjective(t, u);
      NatToStringInjective(t.hour, u.hour);
    }
  }

  /** Two timestamps share a day bucket exactly when they agree on year, month and day. */
  lemma DayBucketIff(t: LocalTime, u: LocalTime)
    ensures BucketKey(t, "day") == BucketKey(u, "day")
        <==> t.year == u.year && t.month == u.month && t.day == u.day
  {
    DayKeyInjective(t, u);
  }

  /** The minute key ignores the date: timestamps share a minute bucket exactly
      when they agree on hour and minute, whatever their days. */
  lemma MinuteBucketIff(t: LocalTime, u: LocalTime)
    ensures BucketKey(t, "minute") == BucketKey(u, "minute") <==> t.hour == u.hour && t.minute == u.minute
  {
    if MinuteKey(t) == MinuteKey(u) {
      var h, h' := NatToString(t.hour), NatToString(u.hour);
      var mm, mm' := PadStart2(NatToString(t.minute)), PadStart2(NatToString(u.minute));
      assert MinuteKey(t) == h + [':'] + mm && MinuteKey(u) == h' + [':'] + mm';
      DigitsLackSeparator(h, ':');
      DigitsLackSeparator(h', ':');
      SplitAtSeparator(h, mm, h', mm', ':');
      NatToStringInjective(t.hour, u.hour);
      ParsePaddedMinute(t.minute);
      ParsePaddedMinute(u.minute);
    }
  }

  /** Any detail level other than `"minute"` and `"hour"` buckets by day. */
  lemma UnknownLevelIsDay(data: seq<LocalTime>, detailLevel: string)
    requires detailLevel != "minute" && detailLevel != "hour"
    ensures BucketKeys(data, detailLevel) == BucketKeys(data, "day")
    ensures forall i :: 0 <= i < |data| ==> BucketKeys(data, detailLevel)[i] == DayKey(data[i])
  {
  }

  /** Same clock minute on two different days: one bucket, labelled `14:07`. */
  lemma MinuteKeyDropsDate()
    ensures BucketKey(LocalTime(2024, 0, 1, 14, 7), "minute") == "14:07"
    ensures BucketKey(LocalTime(2024, 0, 2, 14, 7), "minute") == "14:07"
  {
    assert NatToString(14) == "14" && PadStart2(NatToString(7)) == "07";
    assert "14" + ":" + "07" == "14:07";
  }

  /** Hours are not padded, so `10:15` sorts before `2:15` although 2:15 comes first in the day. */
  lemma MinuteLabelsNotChronological(year: nat, month: nat, day: nat)
    ensures MinuteKey(LocalTime(year, month, day, 10, 15)) == "10:15"
    ensures MinuteKey(LocalTime(year, month, day, 2, 15)) == "2:15"
    ensures LexLess(MinuteKey(LocalTime(year, month, day, 10, 15)), MinuteKey(LocalTime(year, month, day, 2, 15)))
  {
    assert NatToString(10) == "10";
    assert LexLess("10:15", "2:15");
  }

  /** Days are not padded either, so the 10th of a month sorts before the 9th. */
  lemma DayLabelsNotChronological()
    ensures DayKey(LocalTime(2024, 0, 10, 0, 0)) == "2024-1-10"
    ensures DayKey(LocalTime(2024, 0, 9, 0, 0)) == "2024-1-9"
    ensures LexLess(DayKey(LocalTime(2024, 0, 10, 0, 0)), DayKey(LocalTime(2024, 0, 9, 0, 0)))
  {
    DayKeyInJanuary2024(10, 0, 0);
    DayKeyInJanuary2024(9, 0, 0);
    assert NatToString(10) == "10" && NatToString(9) == "9";
    assert LexLess("10", "9");
    LexLessCommonPrefix("2024-1-", "10", "9");
  }

  // ---------------------------------------------------------------------------
  // The default string sort
  // ---------------------------------------------------------------------------

  predicate Sorted(s: seq<string>) {
    forall i, j :: 0 <= i < j < |s| ==> LexLessEq(s[i], s[j])
  }

  predicate StrictlySorted(s: seq<string>) {
    forall i, j :: 0 <= i < j < |s| ==> LexLess(s[i], s[j])
  }

  function Insert(x: string, s: seq<string>): (r: seq<string>)
    ensures multiset(r) == multiset(s) + multiset{x}
  {
    if s == [] then [x]
    else if LexLessEq(x, s[0]) then [x] + s
    else
      assert s == [s[0]] + s[1..];
      [s[0]] + Insert(x, s[1..])
  }

  lemma {:induction false} InsertSorted(x: string, s: seq<string>)
    requires Sorted(s)
    ensures Sorted(Insert(x, s))
  {
    if s == [] {
    } else if LexLessEq(x, s[0]) {
      forall j | 0 <= j < |s| ensures LexLessEq(x, s[j]) {
        if j > 0 {
          LexLessEqTransitive(x, s[0], s[j]);
        }
      }
    } else {
      var t := Insert(x, s[1..]);
      InsertSorted(x, s[1..]);
      NotLessIsLessEq(x, s[0]);
      forall e | e in multiset(t) ensures LexLessEq(s[0], e) {
        if e != x {
          assert e in s[1..];
        }
      }
      var r := [s[0]] + t;
      forall i, j | 0 <= i < j < |r| ensures LexLessEq(r[i], r[j]) {
        if i == 0 {
          assert r[j] in multiset(t);
        }
      }
    }
  }

  /** `Array.prototype.sort()` without a comparator: an ascending permutation under the string order. */
  function Sort(s: seq<string>): (r: seq<string>)
    ensures multiset(r) == multiset(s)
    ensures Sorted(r)
  {
    if s == [] then []
    else
      var t := Sort(s[1..]);
      InsertSorted(s[0], t);
      assert s == [s[0]] + s[1..];
      Insert(s[0], t)
  }

  /** An element occurring at two positions occurs twice in the multiset. */
  lemma SingleOccurrenceDistinct(s: seq<string>, i: nat, j: nat)
    requires i < j < |s|
    requires multiset(s)[s[j]] <= 1
    ensures s[i] != s[j]
  {
    assert s == s[..j] + [s[j]] + s[j + 1..];
    assert multiset(s)[s[j]] >= multiset(s[..j])[s[j]] + 1;
    assert s[i] in s[..j];
    assert multiset(s[..j])[s[i]] >= 1;
  }

  lemma SortedSingletonsStrict(s: seq<string>)
    requires Sorted(s)
    requires forall k :: multiset(s)[k] <= 1
    ensures StrictlySorted(s)
  {
    forall i, j | 0 <= i < j < |s| ensures LexLess(s[i], s[j]) {
      SingleOccurrenceDistinct(s, i, j);
    }
  }

  lemma HeadIsLeast(s: seq<string>, x: string)
    requires StrictlySorted(s) && x in s
    ensures LexLessEq(s[0], x)
  {
    var j :| 0 <= j < |s| && s[j] == x;
    assert j == 0 || LexLess(s[0], s[j]);
  }

  /** A strictly sorted sequence is determined by its set of elements. */
  lemma {:induction false} StrictlySortedUnique(a: seq<string>, b: seq<string>)
    requires StrictlySorted(a) && StrictlySorted(b)
    requires forall k :: k in a <==> k in b
    ensures a == b
    decreases |a|
  {
    assert |a| > 0 ==> a[0] in b;
    assert |b| > 0 ==> b[0] in a;
    if |a| > 0 && |b| > 0 {
      HeadIsLeast(b, a[0]);
      HeadIsLeast(a, b[0]);
      NotLessIsLessEq(a[0], b[0]);
      forall k ensures k in a[1..] <==> k in b[1..] {
        if k in a[1..] {
          LexLessIrreflexive(a[0]);
          assert k in a && k != a[0];
        }
        if k in b[1..] {
          LexLessIrreflexive(b[0]);
          assert k in b && k != b[0];
        }
      }
      StrictlySortedUnique(a[1..], b[1..]);
      assert a == [a[0]] + a[1..] && b == [b[0]] + b[1..];
    }
  }

  // ---------------------------------------------------------------------------
  // The series
  // ---------------------------------------------------------------------------

  /** What `processClickData` hands to the chart after the destructuring
      `const { labels, values } = ...`: `values` is absent (`undefined`) when
      the empty-input branch returned `{ labels: [], data: [] }`. */
  datatype ClickSeries = ClickSeries(labels: seq<string>, values: Option<seq<nat>>)

  /** `labels` are the distinct keys in ascending string order and each value
      is the number of timestamps carrying its label. */
  ghost predicate IsSeries(keys: seq<string>, labels: seq<string>, values: seq<nat>) {
    && StrictlySorted(labels)
    && (forall k :: k in labels <==> k in keys)
    && |values| == |labels|
    && (forall j :: 0 <= j < |labels| ==> values[j] == multiset(keys)[labels[j]])
  }

  /** `grouped` counts every key of `keys`, and `order` lists each of its keys once. */
  ghost predicate Grouped(keys: seq<string>, grouped: map<string, nat>, order: seq<string>) {
    && (forall k :: k in grouped <==> k in keys)
    && (forall k :: k in grouped ==> grouped[k] == multiset(keys)[k])
    && (forall k :: multiset(order)[k] == if k in grouped then 1 else 0)
  }

  /** One step of the `reduce`: `acc[key] = (acc[key] || 0) + 1`, where a key
      met for the first time joins the end of the insertion order. */
  function CountStep(grouped: map<string, nat>, order: seq<string>, key: string): (r: (map<string, nat>, seq<string>))
    ensures r.0.Keys == grouped.Keys + {key}
    ensures r.0[key] == (if key in grouped then grouped[key] else 0) + 1
    ensures forall k :: k in grouped && k != key ==> r.0[k] == grouped[k]
    ensures order <= r.1
    ensures multiset(r.1) == multiset(order) + (if key in grouped then multiset{} else multiset{key})
  {
    if key in grouped then (grouped[key := grouped[key] + 1], order)
    else (grouped[key := 1], order + [key])
  }

  /** A step keeps the dictionary and the insertion order true to the keys seen so far. */
  lemma GroupedStep(keys: seq<string>, i: nat, grouped: map<string, nat>, order: seq<string>)
    requires i < |keys| && Grouped(keys[..i], grouped, order)
    ensures var step := CountStep(grouped, order, keys[i]); Grouped(keys[..i + 1], step.0, step.1)
  {
    assert keys[..i + 1] == keys[..i] + [keys[i]];
    assert multiset(keys[..i + 1]) == multiset(keys[..i]) + multiset{keys[i]};
  }

  /** The `reduce` into a dictionary, for a pure key function: each key's count,
      and the dictionary's keys in insertion order (the order `Object.keys`
      lists them in). */
  method GroupCounts(data: seq<LocalTime>, keyOf: LocalTime -> string)
    returns (grouped: map<string, nat>, order: seq<string>)
    ensures forall k :: k in grouped <==> k in MapKeys(data, keyOf)
    ensures forall k :: k in grouped ==> grouped[k] == multiset(MapKeys(data, keyOf))[k]
    ensures forall k :: multiset(order)[k] == if k in grouped then 1 else 0
  {
    ghost var keys := MapKeys(data, keyOf);
    grouped, order := map[], [];
    var i := 0;
    while i < |data|
      invariant 0 <= i <= |data|
      invariant Grouped(keys[..i], grouped, order)
    {
      var key := keyOf(data[i]);
      GroupedStep(keys, i, grouped, order);
      var step := CountStep(grouped, order, key);
      grouped, order := step.0, step.1;
      i := i + 1;
    }
    assert keys[..i] == keys;
    assert Grouped(keys, grouped, order);
  }

  /** Sorting the dictionary's keys and reading off their counts gives the series. */
  lemma GroupsGiveSeries(keys: seq<string>, grouped: map<string, nat>, order: seq<string>,
                         labels: seq<string>, values: seq<nat>)
    requires forall k :: k in grouped <==> k in keys
    requires forall k :: k in grouped ==> grouped[k] == multiset(keys)[k]
    requires forall k :: multiset(order)[k] == if k in grouped then 1 else 0
    requires multiset(labels) == multiset(order) && Sorted(labels)
    requires |values| == |labels|
    requires forall j :: 0 <= j < |labels| ==> labels[j] in grouped && values[j] == grouped[labels[j]]
    ensures IsSeries(keys, labels, values)
  {
    SortedSingletonsStrict(labels);
  }

  /** The chart component: the clicks it was given and its `detailLevel` state. */
  class ClickChartView {
    const data: seq<LocalTime>
    var detailLevel: string

    /** `useState("hour")`: a new chart starts at hour granularity. */
    constructor(data: seq<LocalTime>)
      ensures this.data == data && detailLevel == "hour"
    {
      this.data := data;
      detailLevel := "hour";
    }

    /** `setDetailLevel`, run by the Day / Hour / Minute buttons. */
    method SetDetailLevel(level: string)
      modifies this
      ensures detailLevel == level
    {
      detailLevel := level;
    }

    /** `processClickData` followed by `const { labels, values } = ...`. */
    method ProcessClickData() returns (r: ClickSeries)
      ensures data == [] ==> r == ClickSeries([], None)
      ensures data != [] ==> r.values.Some? && IsSeries(BucketKeys(data, detailLevel), r.labels, r.values.value)
    {
      if |data| == 0 {
        return ClickSeries([], None);
      }
      var level := detailLevel;
      var grouped, order := GroupCounts(data, t => BucketKey(t, level));
      assert MapKeys(data, t => BucketKey(t, level)) == BucketKeys(data, detailLevel);
      var labels := Sort(order);
      assert forall j :: 0 <= j < |labels| ==> labels[j] in multiset(order);
      var values := seq(|labels|, j requires 0 <= j < |labels| => grouped[labels[j]]);
      GroupsGiveSeries(BucketKeys(data, detailLevel), grouped, order, labels, values);
      r := ClickSeries(labels, Some(values));
    }
  }

  // ---------------------------------------------------------------------------
  // Properties of the series
  // ---------------------------------------------------------------------------

  function Sum(s: seq<nat>): nat {
    if s == [] then 0 else s[0] + Sum(s[1..])
  }

  predicate Distinct(s: seq<string>) {
    forall i, j :: 0 <= i < j < |s| ==> s[i] != s[j]
  }

  /** Sum of the multiplicities in `m` of the given labels. */
  ghost function Tally(m: multiset<string>, labels: seq<string>): nat {
    if labels == [] then 0 else m[labels[0]] + Tally(m, labels[1..])
  }

  lemma {:induction false} SumIsTally(m: multiset<string>, labels: seq<string>, values: seq<nat>)
    requires |values| == |labels|
    requires forall j :: 0 <= j < |labels| ==> values[j] == m[labels[j]]
    ensures Sum(values) == Tally(m, labels)
  {
    if labels != [] {
      SumIsTally(m, labels[1..], values[1..]);
    }
  }

  lemma {:induction false} TallyAdd(m: multiset<string>, k: string, labels: seq<string>)
    requires Distinct(labels)
    ensures Tally(m + multiset{k}, labels) == Tally(m, labels) + (if k in labels then 1 else 0)
  {
    if labels != [] {
      TallyAdd(m, k, labels[1..]);
      assert k in labels <==> k == labels[0] || k in labels[1..];
      assert k == labels[0] ==> k !in labels[1..];
    }
  }

  lemma {:induction false} TallyOfKeys(keys: seq<string>, labels: seq<string>)
    requires Distinct(labels)
    requires forall i :: 0 <= i < |keys| ==> keys[i] in labels
    ensures Tally(multiset(keys), labels) == |keys|
    decreases |keys|
  {
    if keys == [] {
      TallyOfEmpty(labels);
    } else {
      var keys' := keys[..|keys| - 1];
      var k := keys[|keys| - 1];
      assert keys == keys' + [k];
      TallyOfKeys(keys', labels);
      TallyAdd(multiset(keys'), k, labels);
    }
  }

  lemma {:induction false} TallyOfEmpty(labels: seq<string>)
    ensures Tally(multiset{}, labels) == 0
  {
    if labels != [] {
      TallyOfEmpty(labels[1..]);
    }
  }

  /** No click is lost or counted twice, and every plotted bucket holds at least one click. */
  lemma SeriesSum(keys: seq<string>, labels: seq<string>, values: seq<nat>)
    requires IsSeries(keys, labels, values)
    ensures Sum(values) == |keys|
    ensures forall j :: 0 <= j < |values| ==> values[j] >= 1
  {
    forall i, j | 0 <= i < j < |labels| ensures labels[i] != labels[j] {
      LexLessIrreflexive(labels[i]);
    }
    SumIsTally(multiset(keys), labels, values);
    TallyOfKeys(keys, labels);
    forall j | 0 <= j < |values| ensures values[j] >= 1 {
      assert labels[j] in keys;
    }
  }

  lemma MapKeysAppend(a: seq<LocalTime>, b: seq<LocalTime>, keyOf: LocalTime -> string)
    ensures MapKeys(a + b, keyOf) == MapKeys(a, keyOf) + MapKeys(b, keyOf)
  {
  }

  /** Removing one position from a sequence removes one copy of its element. */
  lemma MultisetDrop<T>(s: seq<T>, idx: nat)
    requires idx < |s|
    ensures multiset(s) == multiset(s[..idx] + s[idx + 1..]) + multiset{s[idx]}
  {
    assert s == s[..idx] + [s[idx]] + s[idx + 1..];
  }

  /** Keying commutes with removing one position. */
  lemma MapKeysDrop(e: seq<LocalTime>, idx: nat, keyOf: LocalTime -> string)
    requires idx < |e|
    ensures MapKeys(e[..idx] + e[idx + 1..], keyOf) == MapKeys(e, keyOf)[..idx] + MapKeys(e, keyOf)[idx + 1..]
  {
    var ks := MapKeys(e, keyOf);
    var rest := e[..idx] + e[idx + 1..];
    assert forall i :: 0 <= i < |rest| ==> rest[i] == if i < idx then e[i] else e[i + 1];
  }

  /** The inductive step: the last timestamp of `d` is matched at position `idx` of `e`. */
  lemma MapKeysPermuteStep(d': seq<LocalTime>, e: seq<LocalTime>, idx: nat, keyOf: LocalTime -> string)
    requires idx < |e|
    requires multiset(MapKeys(d', keyOf)) == multiset(MapKeys(e[..idx] + e[idx + 1..], keyOf))
    ensures multiset(MapKeys(d' + [e[idx]], keyOf)) == multiset(MapKeys(e, keyOf))
  {
    MapKeysAppend(d', [e[idx]], keyOf);
    assert MapKeys([e[idx]], keyOf) == [keyOf(e[idx])];
    MapKeysDrop(e, idx, keyOf);
    MultisetDrop(MapKeys(e, keyOf), idx);
  }

  /** Reordering the timestamps reorders their keys. */
  lemma {:induction false} MapKeysPermute(d: seq<LocalTime>, e: seq<LocalTime>, keyOf: LocalTime -> string)
    requires multiset(d) == multiset(e)
    ensures multiset(MapKeys(d, keyOf)) == multiset(MapKeys(e, keyOf))
    decreases |d|
  {
    if d == [] {
      assert e == [];
    } else {
      var d', x := d[..|d| - 1], d[|d| - 1];
      assert d == d' + [x];
      assert x in multiset(e);
      var idx :| 0 <= idx < |e| && e[idx] == x;
      var rest := e[..idx] + e[idx + 1..];
      MultisetDrop(e, idx);
      assert multiset(d') == multiset(d) - multiset{x};
      MapKeysPermute(d', rest, keyOf);
      MapKeysPermuteStep(d', e, idx, keyOf);
    }
  }

  /** The series depends only on the multiset of timestamps, never on their order. */
  lemma SeriesPermutationInvariant(
    d: seq<LocalTime>, e: seq<LocalTime>, detailLevel: string,
    labels: seq<string>, values: seq<nat>, labels': seq<string>, values': seq<nat>)
    requires multiset(d) == multiset(e)
    requires IsSeries(BucketKeys(d, detailLevel), labels, values)
    requires IsSeries(BucketKeys(e, detailLevel), labels', values')
    ensures labels == labels' && values == values'
  {
    var keys, keys' := BucketKeys(d, detailLevel), BucketKeys(e, detailLevel);
    MapKeysPermute(d, e, t => BucketKey(t, detailLevel));
    forall k ensures k in labels <==> k in labels' {
      assert k in keys <==> k in multiset(keys);
      assert k in keys' <==> k in multiset(keys');
    }
    StrictlySortedUnique(labels, labels');
  }

  /** A series over exactly two distinct keys lists them in order with their counts. */
  lemma SeriesOfTwo(keys: seq<string>, labels: seq<string>, values: seq<nat>, a: string, b: string)
    requires IsSeries(keys, labels, values)
    requires LexLess(a, b)
    requires forall k :: k in keys <==> k == a || k == b
    ensures labels == [a, b] && values == [multiset(keys)[a], multiset(keys)[b]]
  {
    LexLessIrreflexive(a);
    StrictlySortedUnique(labels, [a, b]);
  }

  lemma DecimalExamples()
    ensures NatToString(1) == "1" && NatToString(5) == "5" && NatToString(6) == "6"
    ensures NatToString(2024) == "2024"
  {
    assert NatToString(20) == "20";
    assert NatToString(202) == "202";
  }

  /** Day keys of three clicks: two on January 5, 2024, one on January 6. */
  lemma DayKeysExample()
    ensures BucketKeys([LocalTime(2024, 0, 5, 10, 0), LocalTime(2024, 0, 5, 23, 50),
                        LocalTime(2024, 0, 6, 0, 5)], "day")
            == ["2024-1-5", "2024-1-5", "2024-1-6"]
  {
    DecimalExamples();
    assert DayKey(LocalTime(2024, 0, 5, 10, 0)) == "2024-1-5";
    assert DayKey(LocalTime(2024, 0, 5, 23, 50)) == "2024-1-5";
    assert DayKey(LocalTime(2024, 0, 6, 0, 5)) == "2024-1-6";
  }

  /** Day buckets of those three clicks: `[("2024-1-5", 2), ("2024-1-6", 1)]`. */
  lemma DaySeriesExample(labels: seq<string>, values: seq<nat>)
    requires IsSeries(BucketKeys([LocalTime(2024, 0, 5, 10, 0), LocalTime(2024, 0, 5, 23, 50),
                                  LocalTime(2024, 0, 6, 0, 5)], "day"), labels, values)
    ensures labels == ["2024-1-5", "2024-1-6"] && values == [2, 1]
  {
    DayKeysExample();
    assert LexLess("5", "6");
    LexLessCommonPrefix("2024-1-", "5", "6");
    TwoThenOneSeries("2024-1-5", "2024-1-6", labels, values);
  }

  /** An hour key depends on the date and the hour, not on the minute. */
  lemma HourKeyOnDate(year: nat, month: nat, day: nat, hour: nat, minute: nat)
    ensures HourKey(LocalTime(year, month, day, hour, minute))
         == DayKey(LocalTime(year, month, day, 0, 0)) + " " + NatToString(hour) + ":00"
  {
    DayKeyInjective(LocalTime(year, month, day, hour, minute), LocalTime(year, month, day, 0, 0));
  }

  /** Hour keys on any date: 9:15 and 9:59 share the `9:00` bucket, 10:00 has its own. */
  lemma HourKeysExample(year: nat, month: nat, day: nat)
    ensures var date := DayKey(LocalTime(year, month, day, 0, 0));
            BucketKeys([LocalTime(year, month, day, 9, 15), LocalTime(year, month, day, 9, 59),
                        LocalTime(year, month, day, 10, 0)], "hour")
            == [date + " 9:00", date + " 9:00", date + " 10:00"]
  {
    HourKeyOfNine(year, month, day, 15);
    HourKeyOfNine(year, month, day, 59);
    HourKeyOfTen(year, month, day, 0);
    HourKeysOfThree(LocalTime(year, month, day, 9, 15), LocalTime(year, month, day, 9, 59),
                    LocalTime(year, month, day, 10, 0));
  }

  /** Because hours are not padded, the 10 o'clock label on a date sorts before the 9 o'clock one. */
  lemma HourLabelsNotChronological(date: string)
    ensures LexLess(date + " 10:00", date + " 9:00")
  {
    assert LexLess(" 10:00", " 9:00");
    LexLessCommonPrefix(date, " 10:00", " 9:00");
  }

  /** The chart of those three clicks: the 10:00 bucket with one click is listed before the 9:00 bucket with two. */
  lemma HourSeriesExample(year: nat, month: nat, day: nat, labels: seq<string>, values: seq<nat>)
    requires IsSeries(BucketKeys([LocalTime(year, month, day, 9, 15), LocalTime(year, month, day, 9, 59),
                                  LocalTime(year, month, day, 10, 0)], "hour"), labels, values)
    ensures var date := DayKey(LocalTime(year, month, day, 0, 0));
            labels == [date + " 10:00", date + " 9:00"] && values == [1, 2]
  {
    var date := DayKey(LocalTime(year, month, day, 0, 0));
    HourKeysExample(year, month, day);
    HourLabelsNotChronological(date);
    TwoKeySeries(date + " 10:00", date + " 9:00", labels, values);
  }

  /** The series of keys `[b, b, a]` with `a` before `b`. */
  lemma TwoKeySeries(a: string, b: string, labels: seq<string>, values: seq<nat>)
    requires LexLess(a, b)
    requires IsSeries([b, b, a], labels, values)
    ensures labels == [a, b] && values == [1, 2]
  {
    LexLessIrreflexive(a);
    SeriesOfTwo([b, b, a], labels, values, a, b);
  }

  /** The series of keys `[a, a, b]` with `a` before `b`. */
  lemma TwoThenOneSeries(a: string, b: string, labels: seq<string>, values: seq<nat>)
    requires LexLess(a, b)
    requires IsSeries([a, a, b], labels, values)
    ensures labels == [a, b] && values == [2, 1]
  {
    LexLessIrreflexive(a);
    SeriesOfTwo([a, a, b], labels, values, a, b);
  }

  /** Minute buckets: 14:07 on two different days is one bucket with two clicks. */
  lemma MinuteSeriesExample(labels: seq<string>, values: seq<nat>)
    requires IsSeries(BucketKeys([LocalTime(2024, 0, 1, 14, 7), LocalTime(2024, 0, 2, 14, 7)], "minute"),
                      labels, values)
    ensures labels == ["14:07"] && values == [2]
  {
    MinuteKeysExample();
    OneKeySeries("14:07", labels, values);
  }

  /** The series of keys `[a, a]`. */
  lemma OneKeySeries(a: string, labels: seq<string>, values: seq<nat>)
    requires IsSeries([a, a], labels, values)
    ensures labels == [a] && values == [2]
  {
    StrictlySortedUnique(labels, [a]);
  }

  // ---------------------------------------------------------------------------
  // Helpers for the example lemmas: each states one small fact about concrete
  // keys, so that every example's proof stays small.
  // ---------------------------------------------------------------------------

  /** A January 2024 day key is the fixed date prefix and the unpadded day. */
  lemma DayKeyInJanuary2024(day: nat, hour: nat, minute: nat)
    ensures DayKey(LocalTime(2024, 0, day, hour, minute)) == "2024-1-" + NatToString(day)
  {
    DecimalExamples();
    assert "2024" + "-" + "1" + "-" == "2024-1-";
  }

  /** The 9 o'clock hour key on a date, whatever the minute. */
  lemma HourKeyOfNine(year: nat, month: nat, day: nat, minute: nat)
    ensures HourKey(LocalTime(year, month, day, 9, minute)) == DayKey(LocalTime(year, month, day, 0, 0)) + " 9:00"
  {
    var date := DayKey(LocalTime(year, month, day, 0, 0));
    HourKeyOnDate(year, month, day, 9, minute);
    assert NatToString(9) == "9";
    assert date + " " + "9" + ":00" == date + " 9:00";
  }

  /** The 10 o'clock hour key on a date, whatever the minute. */
  lemma HourKeyOfTen(year: nat, month: nat, day: nat, minute: nat)
    ensures HourKey(LocalTime(year, month, day, 10, minute)) == DayKey(LocalTime(year, month, day, 0, 0)) + " 10:00"
  {
    var date := DayKey(LocalTime(year, month, day, 0, 0));
    HourKeyOnDate(year, month, day, 10, minute);
    assert NatToString(10) == "10";
    assert date + " " + "10" + ":00" == date + " 10:00";
  }

  /** The `"hour"` keys of three timestamps are their hour keys. */
  lemma HourKeysOfThree(a: LocalTime, b: LocalTime, c: LocalTime)
    ensures BucketKeys([a, b, c], "hour") == [HourKey(a), HourKey(b), HourKey(c)]
  {
    BucketKeysOfThree(a, b, c, "hour");
    BucketKeyShowsLevel(a, "hour");
    BucketKeyShowsLevel(b, "hour");
    BucketKeyShowsLevel(c, "hour");
  }

  /** Keying a three-element list keys each element in place. */
  lemma MapKeysOfThree(a: LocalTime, b: LocalTime, c: LocalTime, keyOf: LocalTime -> string)
    ensures MapKeys([a, b, c], keyOf) == [keyOf(a), keyOf(b), keyOf(c)]
  {
    var d := [a, b, c];
    var ks := MapKeys(d, keyOf);
    assert ks[0] == keyOf(d[0]) && ks[1] == keyOf(d[1]) && ks[2] == keyOf(d[2]);
  }

  /** The keys of a three-element list, element by element. */
  lemma BucketKeysOfThree(a: LocalTime, b: LocalTime, c: LocalTime, detailLevel: string)
    ensures BucketKeys([a, b, c], detailLevel)
         == [BucketKey(a, detailLevel), BucketKey(b, detailLevel), BucketKey(c, detailLevel)]
  {
    var keyOf := t => BucketKey(t, detailLevel);
    MapKeysOfThree(a, b, c, keyOf);
    assert keyOf(a) == BucketKey(a, detailLevel) && keyOf(b) == BucketKey(b, detailLevel)
        && keyOf(c) == BucketKey(c, detailLevel);
  }

  /** Keying a two-element list keys each element in place. */
  lemma MapKeysOfTwo(a: LocalTime, b: LocalTime, keyOf: LocalTime -> string)
    ensures MapKeys([a, b], keyOf) == [keyOf(a), keyOf(b)]
  {
    var d := [a, b];
    var ks := MapKeys(d, keyOf);
    assert ks[0] == keyOf(d[0]) && ks[1] == keyOf(d[1]);
  }

  /** The keys of a two-element list, element by element. */
  lemma BucketKeysOfTwo(a: LocalTime, b: LocalTime, detailLevel: string)
    ensures BucketKeys([a, b], detailLevel) == [BucketKey(a, detailLevel), BucketKey(b, detailLevel)]
  {
    var keyOf := t => BucketKey(t, detailLevel);
    MapKeysOfTwo(a, b, keyOf);
    assert keyOf(a) == BucketKey(a, detailLevel) && keyOf(b) == BucketKey(b, detailLevel);
  }

  /** The `"minute"` keys of the two clicks at 14:07. */
  lemma MinuteKeysExample()
    ensures BucketKeys([LocalTime(2024, 0, 1, 14, 7), LocalTime(2024, 0, 2, 14, 7)], "minute") == ["14:07", "14:07"]
  {
    BucketKeysOfTwo(LocalTime(2024, 0, 1, 14, 7), LocalTime(2024, 0, 2, 14, 7), "minute");
    MinuteKeyDropsDate();
  }
}
