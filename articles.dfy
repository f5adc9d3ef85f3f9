/**
 * The article week window of index_article_window_1.0.js.
 *
 * Raw items carry a `week_start` text (`YYYY-MM-DD`) and a title. `normalizeItems` keeps the
 * items whose date parses, rewrites the date in its canonical form with its UTC timestamp, gives
 * untitled items a default title and sorts them by timestamp. `pickWindow` finds the anchor
 * week for this Monday and takes the week before it, the anchor and up to four weeks after it,
 * dropping repeated timestamps. `renderOptions` fills the `<select>` with one option per picked
 * item, selecting the ones whose timestamp is this Monday's.
 */
module Articles {
  import opened Js
  import opened Dates

  // ---------------------------------------------------------------------------------------------
  // Dates as text

  /**
   * `Number(s)` for the fields of a date text: a run of decimal digits, possibly with white
   * space around it, and the empty or blank text, which is 0. `None` stands for NaN.
   */
  function NumberOf(s: string): Option<nat> {
    var t := Trim(s);
    if AllDigits(t) then Some(DigitsValue(t)) else None
  }

  /** A run of digits reads as its value. */
  lemma NumberOfDigits(s: string)
    requires s != [] && AllDigits(s)
    ensures NumberOf(s) == Some(DigitsValue(s))
  {
    assert IsDigit(s[0]) && IsDigit(s[|s| - 1]);
    TrimIdentity(s);
  }

  /** The decimal form of a number reads back as the number. */
  lemma NumberOfNat(n: nat)
    ensures NumberOf(NatToString(n)) == Some(n)
  {
    NumberOfDigits(NatToString(n));
    DigitsValueOfNat(n);
  }

  /** The date three fields stand for: `null` when one is missing, zero or unreadable. */
  function FieldsDate(parts: seq<string>): (r: Option<Date>)
    ensures r.Some? ==> ValidDate(r.value) && r.value.year >= 100
  {
    if |parts| < 3 then None
    else
      var y, m, d := NumberOf(parts[0]), NumberOf(parts[1]), NumberOf(parts[2]);
      if y.None? || m.None? || d.None? || y.value == 0 || m.value == 0 || d.value == 0 then None
      else
        UtcYear(y.value, m.value, d.value);
        Some(Utc(y.value, m.value, d.value))
  }

  /**
   * `parseISODate(s)`: split `s || ''` at the hyphens and read the first three fields as numbers;
   * a missing, zero or unreadable field gives `null`, anything else `Date.UTC(y, m - 1, d)`.
   */
  function ParseISODate(s: Option<string>): Option<Date> {
    FieldsDate(Split(if s.Some? then s.value else "", '-'))
  }

  /** `fmtDate(d)`: the UTC year, then month and day padded to two digits, joined by hyphens. */
  function FmtDate(d: Date): string
    requires ValidDate(d)
  {
    IntToString(d.year) + "-" + Pad2(NatToString(d.month)) + "-" + Pad2(NatToString(d.day))
  }

  /** Three digit strings joined by hyphens split back into the three. */
  lemma ThreeFields(a: string, b: string, c: string)
    requires AllDigits(a) && AllDigits(b) && AllDigits(c)
    ensures Split(a + "-" + b + "-" + c, '-') == [a, b, c]
  {
    assert '-' !in a && '-' !in b && '-' !in c by {
      assert forall k :: 0 <= k < |a| ==> IsDigit(a[k]);
      assert forall k :: 0 <= k < |b| ==> IsDigit(b[k]);
      assert forall k :: 0 <= k < |c| ==> IsDigit(c[k]);
    }
    var parts := [a, b, c];
    assert parts[1..] == [b, c] && [b, c][1..] == [c];
    assert Join([b, c], ['-']) == b + "-" + c;
    assert Join(parts, ['-']) == a + "-" + (b + "-" + c);
    assert a + "-" + (b + "-" + c) == a + "-" + b + "-" + c;
    SplitJoin(parts, '-');
  }

  /** Three fields that read as numbers other than zero make the date `Date.UTC` makes of them. */
  lemma FieldsOf(s: string, a: string, b: string, c: string)
    requires Split(s, '-') == [a, b, c]
    requires NumberOf(a).Some? && NumberOf(b).Some? && NumberOf(c).Some?
    ensures ParseISODate(Some(s))
      == if NumberOf(a).value == 0 || NumberOf(b).value == 0 || NumberOf(c).value == 0 then None
         else Some(Utc(NumberOf(a).value, NumberOf(b).value, NumberOf(c).value))
  {
  }

  /**
   * Three numbers joined by hyphens parse as `Date.UTC` makes a date of them when none of them
   * is zero, and do not parse when one is.
   */
  lemma ParseNumbers(y: nat, m: nat, d: nat)
    ensures ParseISODate(Some(NatToString(y) + "-" + NatToString(m) + "-" + NatToString(d)))
      == if y == 0 || m == 0 || d == 0 then None else Some(Utc(y, m, d))
  {
    var ys, ms, ds := NatToString(y), NatToString(m), NatToString(d);
    ThreeFields(ys, ms, ds);
    NumberOfNat(y);
    NumberOfNat(m);
    NumberOfNat(d);
    FieldsOf(ys + "-" + ms + "-" + ds, ys, ms, ds);
  }

  /** A padded number reads back as the number. */
  lemma NumberOfPadded(n: nat)
    ensures NumberOf(Pad2(NatToString(n))) == Some(n)
  {
    PaddedReadsBack(n);
    NumberOfDigits(Pad2(NatToString(n)));
  }

  /** A date of year 100 or later survives formatting and parsing: `fmtDate` is canonical. */
  lemma FmtParseRoundTrip(d: Date)
    requires ValidDate(d) && d.year >= 100
    ensures ParseISODate(Some(FmtDate(d))) == Some(d)
  {
    var ys, ms, ds := NatToString(d.year), Pad2(NatToString(d.month)), Pad2(NatToString(d.day));
    PaddedReadsBack(d.month);
    PaddedReadsBack(d.day);
    NumberOfPadded(d.month);
    NumberOfPadded(d.day);
    NumberOfNat(d.year);
    ThreeFields(ys, ms, ds);
    FieldsOf(FmtDate(d), ys, ms, ds);
    UtcOfValid(d);
  }

  /** Whatever parses, formats to a text that parses to the same date. */
  lemma ParseCanonical(s: Option<string>)
    ensures var r := ParseISODate(s);
      r.Some? ==> ValidDate(r.value) && ParseISODate(Some(FmtDate(r.value))) == r
  {
    var r := ParseISODate(s);
    if r.Some? {
      FmtParseRoundTrip(r.value);
    }
  }

  // ---------------------------------------------------------------------------------------------
  // Items

  /** An entry of `__VT_ITEMS`: `week_start` and `title` (`None` when missing or null). */
  datatype RawItem = RawItem(weekStart: Option<string>, title: Option<string>)

  /** A normalised item: canonical `week_start`, its UTC timestamp in milliseconds, its title. */
  datatype Item = Item(weekStart: string, ts: int, title: string)

  const DefaultTitle := "Uten tittel"

  /** `String(it.title || 'Uten tittel')` */
  function TitleOf(t: Option<string>): string {
    if t.Some? && t.value != "" then t.value else DefaultTitle
  }

  /** The `map` step of `normalizeItems`; `None` is the `null` that `filter(Boolean)` drops. */
  function ToItem(raw: RawItem): Option<Item> {
    match ParseISODate(raw.weekStart)
    case None => None
    case Some(d) => Some(Item(FmtDate(d), DayNumber(d) * MsPerDay, TitleOf(raw.title)))
  }

  /** An item `normalizeItems` can produce: a titled canonical date and that date's timestamp. */
  predicate Canonical(it: Item) {
    var d := ParseISODate(Some(it.weekStart));
    && it.title != ""
    && d.Some?
    && it.weekStart == FmtDate(d.value)
    && it.ts == DayNumber(d.value) * MsPerDay
  }

  /** Every item the `map` step makes is canonical, and its date is the one the raw text gave. */
  lemma ToItemCanonical(raw: RawItem)
    ensures var it := ToItem(raw);
      && (it.Some? <==> ParseISODate(raw.weekStart).Some?)
      && (it.Some? ==> Canonical(it.value) && it.value.ts == DayNumber(ParseISODate(raw.weekStart).value) * MsPerDay)
  {
    var d := ParseISODate(raw.weekStart);
    if d.Some? {
      FmtParseRoundTrip(d.value);
    }
  }

  /** `raw.map(...).filter(Boolean)`: the raw items whose date parses, in their order. */
  function Parsed(raw: seq<RawItem>): seq<Item> {
    if raw == [] then []
    else
      Parsed(raw[..|raw| - 1]) + match ToItem(raw[|raw| - 1]) case Some(it) => [it] case None => []
  }

  /** One more raw item adds its item when its date parses. */
  lemma ParsedStep(raw: seq<RawItem>)
    requires raw != []
    ensures var last := ToItem(raw[|raw| - 1]);
      Parsed(raw) == Parsed(raw[..|raw| - 1]) + (if last.Some? then [last.value] else [])
  {
  }

  /** `Parsed` keeps at most one item for each raw item, and one for each when every date parses. */
  lemma {:induction false} ParsedLength(raw: seq<RawItem>)
    ensures |Parsed(raw)| <= |raw|
    ensures (forall k :: 0 <= k < |raw| ==> ToItem(raw[k]).Some?) ==> |Parsed(raw)| == |raw|
  {
    if raw != [] {
      var init := raw[..|raw| - 1];
      ParsedLength(init);
      ParsedStep(raw);
      if forall k :: 0 <= k < |raw| ==> ToItem(raw[k]).Some? {
        assert forall k :: 0 <= k < |init| ==> init[k] == raw[k];
      }
    }
  }

  /** Every item `Parsed` keeps is canonical. */
  lemma {:induction false} ParsedCanonical(raw: seq<RawItem>)
    ensures forall k :: 0 <= k < |Parsed(raw)| ==> Canonical(Parsed(raw)[k])
  {
    if raw != [] {
      var init := raw[..|raw| - 1];
      ParsedCanonical(init);
      ToItemCanonical(raw[|raw| - 1]);
      var p, p0 := Parsed(raw), Parsed(init);
      forall k | 0 <= k < |p|
        ensures Canonical(p[k])
      {
        if k < |p0| {
          assert p[k] == p0[k];
        }
      }
    }
  }

  predicate SortedByTs(s: seq<Item>) {
    forall i, j :: 0 <= i < j < |s| ==> s[i].ts <= s[j].ts
  }

  /** The items of `s` with timestamp `t`, in their order. */
  function WithTs(s: seq<Item>, t: int): seq<Item> {
    if s == [] then []
    else WithTs(s[..|s| - 1], t) + (if s[|s| - 1].ts == t then [s[|s| - 1]] else [])
  }

  /** Insert `x` after every item of `s` whose timestamp is not greater. */
  function Insert(x: Item, s: seq<Item>): seq<Item> {
    if s == [] then [x]
    else if s[0].ts <= x.ts then [s[0]] + Insert(x, s[1..])
    else [x] + s
  }

  /**
   * `arr.sort((a, b) => a.ts - b.ts)`: `Array.prototype.sort` is stable, so the result is the
   * items in timestamp order with equal timestamps in their original order.
   */
  function SortByTs(s: seq<Item>): seq<Item> {
    if s == [] then [] else Insert(s[|s| - 1], SortByTs(s[..|s| - 1]))
  }

  lemma {:induction false} WithTsAppend(a: seq<Item>, b: seq<Item>, t: int)
    ensures WithTs(a + b, t) == WithTs(a, t) + WithTs(b, t)
    decreases |b|
  {
    if b == [] {
      assert a + b == a;
    } else {
      var b' := b[..|b| - 1];
      WithTsAppend(a, b', t);
      assert (a + b)[..|a + b| - 1] == a + b';
    }
  }

  lemma {:induction false} NoneWithTs(s: seq<Item>, t: int)
    requires forall k :: 0 <= k < |s| ==> s[k].ts != t
    ensures WithTs(s, t) == []
  {
    if s != [] {
      NoneWithTs(s[..|s| - 1], t);
    }
  }

  lemma {:induction false} InsertMultiset(x: Item, s: seq<Item>)
    ensures multiset(Insert(x, s)) == multiset(s) + multiset{x}
    decreases |s|
  {
    if s != [] && s[0].ts <= x.ts {
      InsertMultiset(x, s[1..]);
      assert s == [s[0]] + s[1..];
    }
  }

  lemma {:induction false} InsertSorted(x: Item, s: seq<Item>)
    requires SortedByTs(s)
    ensures SortedByTs(Insert(x, s))
    ensures Insert(x, s)[0].ts == if s != [] && s[0].ts <= x.ts then s[0].ts else x.ts
    decreases |s|
  {
    if s != [] && s[0].ts <= x.ts {
      var rest := Insert(x, s[1..]);
      InsertSorted(x, s[1..]);
      assert s[0].ts <= rest[0].ts by {
        if |s| > 1 {
          assert s[0].ts <= s[1].ts;
        }
      }
      var r := [s[0]] + rest;
      forall i, j | 0 <= i < j < |r|
        ensures r[i].ts <= r[j].ts
      {
        if i > 0 {
          assert r[i] == rest[i - 1] && r[j] == rest[j - 1];
        } else {
          assert r[j] == rest[j - 1];
          assert rest[0].ts <= rest[j - 1].ts;
        }
      }
    }
  }

  lemma {:induction false} InsertWithTs(x: Item, s: seq<Item>, t: int)
    requires SortedByTs(s)
    ensures WithTs(Insert(x, s), t) == WithTs(s, t) + (if x.ts == t then [x] else [])
    decreases |s|
  {
    if s == [] {
      assert WithTs([x], t) == WithTs([], t) + (if x.ts == t then [x] else []);
    } else if s[0].ts <= x.ts {
      InsertWithTs(x, s[1..], t);
      assert s == [s[0]] + s[1..];
      WithTsAppend([s[0]], Insert(x, s[1..]), t);
      WithTsAppend([s[0]], s[1..], t);
    } else {
      WithTsAppend([x], s, t);
      if x.ts == t {
        NoneWithTs(s, t);
      }
    }
  }

  /** The sort orders by timestamp, keeps every item, and keeps items of equal timestamp in order. */
  lemma {:induction false} SortByTsSpec(s: seq<Item>)
    ensures SortedByTs(SortByTs(s))
    ensures multiset(SortByTs(s)) == multiset(s)
    ensures forall t :: WithTs(SortByTs(s), t) == WithTs(s, t)
  {
    if s != [] {
      var init, x := s[..|s| - 1], s[|s| - 1];
      SortByTsSpec(init);
      assert s == init + [x];
      InsertSorted(x, SortByTs(init));
      InsertMultiset(x, SortByTs(init));
      forall t
        ensures WithTs(SortByTs(s), t) == WithTs(s, t)
      {
        InsertWithTs(x, SortByTs(init), t);
      }
    }
  }

  /** `normalizeItems(raw)`; a missing `raw` is the empty sequence. */
  function NormalizeItems(raw: seq<RawItem>): seq<Item> {
    SortByTs(Parsed(raw))
  }

  /**
   * The normalised items are the parsable raw items as canonical items, sorted by timestamp,
   * with items of the same week in their raw order.
   */
  lemma NormalizeItemsSpec(raw: seq<RawItem>)
    ensures var items := NormalizeItems(raw);
      && SortedByTs(items)
      && multiset(items) == multiset(Parsed(raw))
      && (forall t :: WithTs(items, t) == WithTs(Parsed(raw), t))
      && (forall k :: 0 <= k < |items| ==> Canonical(items[k]))
  {
    SortByTsSpec(Parsed(raw));
    NormalizedCanonical(raw);
  }

  lemma NormalizedCanonical(raw: seq<RawItem>)
    ensures forall k :: 0 <= k < |NormalizeItems(raw)| ==> Canonical(NormalizeItems(raw)[k])
  {
    var p := Parsed(raw);
    ParsedCanonical(raw);
    SortByTsSpec(p);
    Permuted(p, SortByTs(p), Canonical);
  }

  /** A property of every item holds of every item of a permutation. */
  lemma Permuted(p: seq<Item>, q: seq<Item>, P: Item -> bool)
    requires multiset(p) == multiset(q)
    requires forall j :: 0 <= j < |p| ==> P(p[j])
    ensures forall k :: 0 <= k < |q| ==> P(q[k])
  {
    forall k | 0 <= k < |q|
      ensures P(q[k])
    {
      assert q[k] in multiset(p);
      var j :| 0 <= j < |p| && p[j] == q[k];
    }
  }

  // ---------------------------------------------------------------------------------------------
  // The window

  /** `items.findIndex(x => x.ts === mon)` */
  function FindTs(items: seq<Item>, mon: int): (k: int)
    ensures -1 <= k < |items|
    ensures k >= 0 ==> items[k].ts == mon && forall j :: 0 <= j < k ==> items[j].ts != mon
    ensures k == -1 ==> forall j :: 0 <= j < |items| ==> items[j].ts != mon
  {
    if items == [] then -1
    else if items[0].ts == mon then 0
    else
      var k := FindTs(items[1..], mon);
      if k == -1 then -1 else k + 1
  }

  /**
   * The `best` of the search loop after `n` items: the first of the items with the greatest
   * timestamp not after `mon`, or -1 when no item is that early.
   */
  function BestIndex(items: seq<Item>, mon: int, n: nat): (b: int)
    requires n <= |items|
    ensures -1 <= b < n
  {
    if n == 0 then -1
    else
      var b := BestIndex(items, mon, n - 1);
      if items[n - 1].ts <= mon && (b == -1 || items[n - 1].ts > items[b].ts) then n - 1 else b
  }

  /** What the search is for: `b` is the earliest item holding the latest week up to `mon`. */
  predicate IsBest(items: seq<Item>, mon: int, n: nat, b: int)
    requires n <= |items|
  {
    if b == -1 then forall j :: 0 <= j < n ==> items[j].ts > mon
    else
      && 0 <= b < n
      && items[b].ts <= mon
      && (forall j :: 0 <= j < n && items[j].ts <= mon ==> items[j].ts <= items[b].ts)
      && (forall j :: 0 <= j < b ==> items[j].ts != items[b].ts)
  }

  lemma {:induction false} BestIndexIsBest(items: seq<Item>, mon: int, n: nat)
    requires n <= |items|
    ensures IsBest(items, mon, n, BestIndex(items, mon, n))
  {
    if n > 0 {
      BestIndexIsBest(items, mon, n - 1);
    }
  }

  /** Only one index is the best one. */
  lemma BestUnique(items: seq<Item>, mon: int, n: nat, b: int, c: int)
    requires n <= |items|
    requires IsBest(items, mon, n, b) && IsBest(items, mon, n, c)
    ensures b == c
  {
    if b != -1 && c != -1 {
      assert items[b].ts == items[c].ts;
    }
  }

  /** The index `pickWindow` builds around: this Monday's item, else the best earlier one, else 0. */
  function Anchor(items: seq<Item>, mon: int): nat
    requires items != []
  {
    var f := FindTs(items, mon);
    if f != -1 then f
    else
      var b := BestIndex(items, mon, |items|);
      if b != -1 then b else 0
  }

  /** The set of timestamps of `s`. */
  function TsSet(s: seq<Item>): set<int> {
    set k | 0 <= k < |s| :: s[k].ts
  }

  /** The anchor is the first item of this Monday, or else the latest earlier week, or else the first item. */
  lemma AnchorSpec(items: seq<Item>, mon: int)
    requires items != []
    ensures var a := Anchor(items, mon);
      && a < |items|
      && (mon in TsSet(items) ==> items[a].ts == mon && forall j :: 0 <= j < a ==> items[j].ts != mon)
      && (mon !in TsSet(items) ==> IsBest(items, mon, |items|, a) || (a == 0 && IsBest(items, mon, |items|, -1)))
  {
    var f := FindTs(items, mon);
    BestIndexIsBest(items, mon, |items|);
    if mon in TsSet(items) {
      var k :| 0 <= k < |items| && items[k].ts == mon;
    } else {
      assert f == -1;
    }
  }

  /** The first index of the window: the anchor's previous item when there is one. */
  function WindowStart(idx: nat): nat {
    if idx >= 1 then idx - 1 else 0
  }

  /** The end of the window: four items past the anchor, or the end of the items. */
  function WindowEnd(n: nat, idx: nat): nat {
    if idx + 5 <= n then idx + 5 else n
  }

  /** The previous item when there is one, the anchor, and up to four items after it. */
  function Assembled(items: seq<Item>, idx: nat): seq<Item>
    requires idx < |items|
  {
    (if idx >= 1 then [items[idx - 1]] else []) + items[idx..WindowEnd(|items|, idx)]
  }

  /** The assembled items are the slice of one to six items of `items` around the anchor. */
  lemma AssembledSlice(items: seq<Item>, idx: nat)
    requires idx < |items|
    ensures var lo, hi := WindowStart(idx), WindowEnd(|items|, idx);
      && Assembled(items, idx) == items[lo..hi]
      && lo <= idx < hi && hi - lo <= 6
  {
  }

  /** `picked.filter(...)` with the `seen` set: the first item of each timestamp. */
  function Dedup(s: seq<Item>): seq<Item> {
    if s == [] then []
    else
      var d := Dedup(s[..|s| - 1]);
      if s[|s| - 1].ts in TsSet(d) then d else d + [s[|s| - 1]]
  }

  predicate DistinctTs(s: seq<Item>) {
    forall i, j :: 0 <= i < j < |s| ==> s[i].ts != s[j].ts
  }

  predicate IncreasingTs(s: seq<Item>) {
    forall i, j :: 0 <= i < j < |s| ==> s[i].ts < s[j].ts
  }

  lemma TsSetAppend(s: seq<Item>, x: Item)
    ensures TsSet(s + [x]) == TsSet(s) + {x.ts}
  {
    var r := s + [x];
    assert forall k :: 0 <= k < |s| ==> r[k] == s[k];
    assert r[|s|] == x;
  }

  /**
   * Removing repeats leaves distinct timestamps, the same set of them, only items of `s`, and
   * at most as many items (DedupKeepsFirst says which item of each timestamp is kept).
   */
  lemma {:induction false} DedupSpec(s: seq<Item>)
    ensures var d := Dedup(s);
      && DistinctTs(d)
      && TsSet(d) == TsSet(s)
      && |d| <= |s|
      && (forall k :: 0 <= k < |d| ==> d[k] in s)
  {
    if s != [] {
      var init, x := s[..|s| - 1], s[|s| - 1];
      DedupSpec(init);
      assert s == init + [x];
      TsSetAppend(init, x);
      var d0 := Dedup(init);
      if x.ts !in TsSet(d0) {
        TsSetAppend(d0, x);
        assert forall k :: 0 <= k < |d0| ==> d0[k].ts != x.ts;
      }
    }
  }

  /** Appending an item does not move the first occurrence of a timestamp already present. */
  lemma FindTsExtend(init: seq<Item>, x: Item, t: int)
    requires t in TsSet(init)
    ensures FindTs(init + [x], t) == FindTs(init, t) >= 0
  {
    var s := init + [x];
    var f := FindTs(init, t);
    assert s[f] == init[f];
  }

  /**
   * Which item survives, and in what order: every kept item is the first item of `s` with its
   * timestamp, and the kept items appear in the order of those first occurrences in `s`.
   */
  lemma {:induction false} DedupKeepsFirst(s: seq<Item>)
    ensures var d := Dedup(s);
      && (forall k :: 0 <= k < |d| ==> 0 <= FindTs(s, d[k].ts) && s[FindTs(s, d[k].ts)] == d[k])
      && (forall a, b :: 0 <= a < b < |d| ==> FindTs(s, d[a].ts) < FindTs(s, d[b].ts))
  {
    if s != [] {
      var init, x := s[..|s| - 1], s[|s| - 1];
      assert s == init + [x];
      DedupKeepsFirst(init);
      var d0 := Dedup(init);
      TsSetOfDedup(init);
      forall k | 0 <= k < |d0|
        ensures FindTs(s, d0[k].ts) == FindTs(init, d0[k].ts)
      {
        assert d0[k].ts in TsSet(d0);
        FindTsExtend(init, x, d0[k].ts);
      }
      if x.ts !in TsSet(d0) {
        FindTsNew(init, x);
        var d := d0 + [x];
        assert Dedup(s) == d;
        forall a, b | 0 <= a < b < |d| ensures FindTs(s, d[a].ts) < FindTs(s, d[b].ts) {
          assert d[a] == d0[a];
          if b < |d0| {
            assert d[b] == d0[b];
          }
        }
      }
    }
  }

  lemma TsSetOfDedup(s: seq<Item>)
    ensures TsSet(Dedup(s)) == TsSet(s)
  {
    DedupSpec(s);
  }

  /** A timestamp new to `init` first occurs at the appended item. */
  lemma FindTsNew(init: seq<Item>, x: Item)
    requires x.ts !in TsSet(init)
    ensures FindTs(init + [x], x.ts) == |init|
  {
    var s := init + [x];
    assert s[|init|] == x;
    var f := FindTs(s, x.ts);
    assert f != -1;
  }

  /** Removing repeats from sorted items leaves strictly increasing timestamps. */
  lemma {:induction false} DedupSorted(s: seq<Item>)
    requires SortedByTs(s)
    ensures IncreasingTs(Dedup(s))
  {
    if s != [] {
      var init, x := s[..|s| - 1], s[|s| - 1];
      DedupSorted(init);
      DedupSpec(init);
      var d0 := Dedup(init);
      if x.ts !in TsSet(d0) {
        var d := d0 + [x];
        assert forall k :: 0 <= k < |d0| ==> d0[k].ts != x.ts;
        forall i, j | 0 <= i < j < |d|
          ensures d[i].ts < d[j].ts
        {
          if j == |d0| {
            var p :| 0 <= p < |init| && init[p] == d0[i];
            assert s[p].ts <= s[|s| - 1].ts;
          }
        }
      }
    }
  }

  /** Items whose timestamps are already distinct come through unchanged. */
  lemma {:induction false} DedupDistinct(s: seq<Item>)
    requires DistinctTs(s)
    ensures Dedup(s) == s
  {
    if s != [] {
      var init := s[..|s| - 1];
      DedupDistinct(init);
      assert s[|s| - 1].ts !in TsSet(init);
    }
  }

  /** `pickWindow(items)` with `mon` this Monday's timestamp. */
  function Window(items: seq<Item>, mon: int): seq<Item> {
    if items == [] then [] else Dedup(Assembled(items, Anchor(items, mon)))
  }

  /**
   * The window holds one to six items of `items`, with distinct timestamps, among them the
   * anchor's week, and so this Monday's week whenever there is an item for it.
   */
  lemma WindowSpec(items: seq<Item>, mon: int)
    ensures var w := Window(items, mon);
      && |w| <= 6
      && DistinctTs(w)
      && (forall k :: 0 <= k < |w| ==> w[k] in items)
      && (items != [] ==> items[Anchor(items, mon)].ts in TsSet(w))
      && (mon in TsSet(items) ==> mon in TsSet(w))
  {
    if items != [] {
      var a := Anchor(items, mon);
      var s := Assembled(items, a);
      AnchorSpec(items, mon);
      AssembledSlice(items, a);
      DedupSpec(s);
      var lo := WindowStart(a);
      assert s[a - lo] == items[a];
      forall k | 0 <= k < |s|
        ensures s[k] in items
      {
        assert s[k] == items[lo + k];
      }
    }
  }

  /** A slice of sorted items is sorted. */
  lemma SliceSorted(items: seq<Item>, lo: nat, hi: nat)
    requires lo <= hi <= |items| && SortedByTs(items)
    ensures SortedByTs(items[lo..hi])
  {
    var s := items[lo..hi];
    forall i, j | 0 <= i < j < |s|
      ensures s[i].ts <= s[j].ts
    {
      assert s[i] == items[lo + i] && s[j] == items[lo + j];
    }
  }

  lemma AssembledSorted(items: seq<Item>, idx: nat)
    requires idx < |items| && SortedByTs(items)
    ensures SortedByTs(Assembled(items, idx))
  {
    AssembledSlice(items, idx);
    SliceSorted(items, WindowStart(idx), WindowEnd(|items|, idx));
  }

  /** For items sorted by timestamp the window's weeks increase. */
  lemma WindowSorted(items: seq<Item>, mon: int)
    requires SortedByTs(items)
    ensures IncreasingTs(Window(items, mon))
  {
    if items != [] {
      var a := Anchor(items, mon);
      AssembledSorted(items, a);
      DedupSorted(Assembled(items, a));
    }
  }

  /**
   * For weeks without repeats the window is exactly the week before the anchor, the anchor
   * week and the four weeks after it, as far as they exist.
   */
  lemma WindowOfDistinctWeeks(items: seq<Item>, mon: int)
    requires items != [] && DistinctTs(items)
    ensures var a := Anchor(items, mon);
      Window(items, mon) == items[WindowStart(a)..WindowEnd(|items|, a)]
  {
    var a := Anchor(items, mon);
    AssembledSlice(items, a);
    var lo := WindowStart(a);
    var s := Assembled(items, a);
    forall i, j | 0 <= i < j < |s|
      ensures s[i].ts != s[j].ts
    {
      assert s[i] == items[lo + i] && s[j] == items[lo + j];
    }
    DedupDistinct(s);
  }

  /** The anchor search of `pickWindow`: `findIndex`, then the loop over all items. */
  method FindAnchor(items: seq<Item>, mon: int) returns (idx: nat)
    requires items != []
    ensures idx == Anchor(items, mon)
  {
    var found := FindTs(items, mon);
    if found != -1 {
      return found;
    }
    var best, bestTs := -1, 0;
    var i := 0;
    while i < |items|
      invariant 0 <= i <= |items|
      invariant best == BestIndex(items, mon, i)
      invariant best != -1 ==> bestTs == items[best].ts
    {
      if items[i].ts <= mon && (best == -1 || items[i].ts > bestTs) {
        bestTs := items[i].ts;
        best := i;
      }
      i := i + 1;
    }
    idx := if best != -1 then best else 0;
  }

  /** The `picked` list: the previous item if any, the anchor, and the next four that exist. */
  method Assemble(items: seq<Item>, idx: nat) returns (picked: seq<Item>)
    requires idx < |items|
    ensures picked == Assembled(items, idx)
  {
    picked := [];
    if idx - 1 >= 0 {
      picked := picked + [items[idx - 1]];
    }
    var prev := picked;
    picked := picked + [items[idx]];
    assert items[idx..idx + 1] == [items[idx]];
    for k := 1 to 5
      invariant picked == prev + items[idx..if idx + k <= |items| then idx + k else |items|]
    {
      var j := idx + k;
      if j < |items| {
        picked := picked + [items[j]];
      }
    }
  }

  /** The `seen`-set filter: keep an item only when its timestamp has not been seen. */
  method DedupByTs(picked: seq<Item>) returns (kept: seq<Item>)
    ensures kept == Dedup(picked)
  {
    var seen: set<int> := {};
    kept := [];
    var i := 0;
    while i < |picked|
      invariant 0 <= i <= |picked|
      invariant kept == Dedup(picked[..i]) && seen == TsSet(kept)
    {
      var it := picked[i];
      assert picked[..i + 1][..i] == picked[..i];
      if it.ts !in seen {
        TsSetAppend(kept, it);
        seen := seen + {it.ts};
        kept := kept + [it];
      }
      i := i + 1;
    }
    assert picked[..|picked|] == picked;
  }

  /** `pickWindow(items)`, with `mon` the timestamp `mondayOfToday()` gives. */
  method PickWindow(items: seq<Item>, mon: int) returns (picked: seq<Item>)
    ensures picked == Window(items, mon)
  {
    if |items| == 0 {
      return [];
    }
    var idx := FindAnchor(items, mon);
    var assembled := Assemble(items, idx);
    picked := DedupByTs(assembled);
  }

  // ---------------------------------------------------------------------------------------------
  // The select element

  /** An `<option>`: its value, its text and whether the script marked it selected. */
  datatype Opt = Opt(value: string, text: string, selected: bool)

  /** The option `renderOptions` makes for an item. */
  function OptionFor(it: Item, currentTs: int): Opt {
    Opt(it.weekStart, it.title, it.ts == currentTs)
  }

  /** The options made for `items`, in their order. */
  function ItemOptions(items: seq<Item>, currentTs: int): seq<Opt> {
    seq(|items|, k requires 0 <= k < |items| => OptionFor(items[k], currentTs))
  }

  /** `Array.from(sel.options).find(o => !o.value)`: the first option without a value. */
  function Placeholder(options: seq<Opt>): (r: Option<Opt>)
    ensures r.Some? ==> r.value in options && r.value.value == ""
    ensures r.None? ==> forall k :: 0 <= k < |options| ==> options[k].value != ""
  {
    if options == [] then None
    else if options[0].value == "" then Some(options[0])
    else Placeholder(options[1..])
  }

  /** The options after `renderOptions`: the placeholder if there was one, then one per item. */
  function Rendered(options: seq<Opt>, items: seq<Item>, currentTs: int): seq<Opt> {
    (match Placeholder(options) case Some(p) => [p] case None => []) + ItemOptions(items, currentTs)
  }

  /**
   * The item options stand for the items in order, and exactly those whose timestamp is
   * `currentTs` are selected: with distinct timestamps at most one is, and one is when some
   * item has that timestamp.
   */
  lemma ItemOptionsSpec(items: seq<Item>, currentTs: int)
    ensures var opts := ItemOptions(items, currentTs);
      && |opts| == |items|
      && (forall k :: 0 <= k < |items| ==>
            opts[k].value == items[k].weekStart && opts[k].text == items[k].title
            && (opts[k].selected <==> items[k].ts == currentTs))
      && (DistinctTs(items) ==> forall i, j :: 0 <= i < j < |opts| ==> !(opts[i].selected && opts[j].selected))
      && (currentTs in TsSet(items) ==> exists k :: 0 <= k < |opts| && opts[k].selected)
  {
    var opts := ItemOptions(items, currentTs);
    if currentTs in TsSet(items) {
      var k :| 0 <= k < |items| && items[k].ts == currentTs;
      assert opts[k].selected;
    }
  }

  /** `renderOptions` keeps the first option without a value in front of the item options. */
  lemma RenderedSpec(options: seq<Opt>, items: seq<Item>, currentTs: int)
    ensures var r := Rendered(options, items, currentTs);
      && (Placeholder(options).Some? ==> r[0] == Placeholder(options).value && r[1..] == ItemOptions(items, currentTs))
      && (Placeholder(options).None? ==> r == ItemOptions(items, currentTs))
  {
  }

  /** The `<select>` the script fills, and the `change` events it has dispatched. */
  class Select {
    var options: seq<Opt>
    var changeEvents: nat

    constructor(options: seq<Opt>)
      ensures this.options == options && changeEvents == 0
    {
      this.options := options;
      changeEvents := 0;
    }

    /**
     * `renderOptions(sel, items, currentTs)`: clear the options but keep the placeholder, add one
     * option per item, selecting those of `currentTs`, and dispatch `change`.
     */
    method RenderOptions(items: seq<Item>, currentTs: int)
      modifies this
      ensures options == Rendered(old(options), items, currentTs)
      ensures changeEvents == old(changeEvents) + 1
    {
      var placeholder := Placeholder(options);
      options := [];
      if placeholder.Some? {
        options := options + [placeholder.value];
      }
      var head := options;
      for k := 0 to |items|
        invariant options == head + ItemOptions(items[..k], currentTs)
        invariant changeEvents == old(changeEvents)
      {
        var opt := Opt(items[k].weekStart, items[k].title, false);
        if items[k].ts == currentTs {
          opt := opt.(selected := true);
        }
        assert ItemOptions(items[..k + 1], currentTs) == ItemOptions(items[..k], currentTs) + [opt];
        options := options + [opt];
      }
      assert items[..|items|] == items;
      changeEvents := changeEvents + 1;
    }
  }

  /**
   * `init()` once the items are loaded: for any raw items and today's date, the select shows at
   * most six of the normalised weeks in increasing order, selects at most one of them, and
   * selects this Monday's week whenever the items hold it.
   */
  lemma InitSelectsThisWeek(raw: seq<RawItem>, today: Date)
    requires ValidDate(today) && today.year >= 0
    ensures var items := NormalizeItems(raw);
      var mon := MondayOfToday(today);
      var w := Window(items, mon);
      var opts := ItemOptions(w, mon);
      && |w| <= 6
      && IncreasingTs(w)
      && (forall i, j :: 0 <= i < j < |opts| ==> !(opts[i].selected && opts[j].selected))
      && (mon in TsSet(items) ==> exists k :: 0 <= k < |opts| && opts[k].selected)
  {
    var items := NormalizeItems(raw);
    var mon := MondayOfToday(today);
    NormalizeItemsSpec(raw);
    WindowSpec(items, mon);
    WindowSorted(items, mon);
    ItemOptionsSpec(Window(items, mon), mon);
  }
}
