/**
 * Paragraph labels as the message line shows them.
 *
 * `rangeLabel` exists in two dialects: the vt addons (1.54, 1.57, 1.58) spell a set that is not a
 * run with `+` between the numbers, the index addons (index-addon.js, -3, -5) always fall back to
 * an en-dash span from the least to the greatest. Both first turn their input into the ascending
 * list of its distinct values (`[...new Set(nums)].sort((a,b)=>a-b)`). The 1.30/1.31 overlay builds
 * its label from a `{from, to}` range with an ASCII hyphen and appends modifiers with
 * `joinModifiers`.
 */
module Labels {
  import opened Js
  import opened Groups

  predicate StrictlyIncreasing(s: seq<int>) {
    forall i, j :: 0 <= i < j < |s| ==> s[i] < s[j]
  }

  /** Insert x into an ascending list of distinct values, keeping it so. */
  function Insert(x: int, s: seq<int>): (r: seq<int>)
    requires StrictlyIncreasing(s)
    ensures StrictlyIncreasing(r)
    ensures forall y :: y in r <==> y == x || y in s
  {
    if s == [] then [x]
    else if x < s[0] then [x] + s
    else if x == s[0] then s
    else
      var rest := Insert(x, s[1..]);
      assert s == [s[0]] + s[1..];
      assert forall y :: y in rest ==> y > s[0];
      assert forall j :: 0 <= j < |rest| ==> rest[j] in rest;
      [s[0]] + rest
  }

  /** `[...new Set(nums)].sort((a, b) => a - b)`: the distinct values of nums, ascending. */
  function SortedSet(nums: seq<int>): (s: seq<int>)
    ensures StrictlyIncreasing(s)
    ensures forall x :: x in s <==> x in nums
  {
    if nums == [] then []
    else Insert(nums[|nums| - 1], SortedSet(nums[..|nums| - 1]))
  }

  lemma TailOfIncreasing(a: seq<int>)
    requires StrictlyIncreasing(a) && a != []
    ensures forall x :: x in a[1..] <==> x in a && x != a[0]
  {
    assert forall x :: x in a[1..] ==> x > a[0];
    assert forall x :: x in a && x != a[0] ==> x in a[1..];
  }

  lemma NonEmptyHasFirst(s: seq<int>)
    ensures s != [] ==> s[0] in s
  {
  }

  /** An ascending list of distinct values is determined by its elements. */
  lemma {:induction false} IncreasingUnique(a: seq<int>, b: seq<int>)
    requires StrictlyIncreasing(a) && StrictlyIncreasing(b)
    requires forall x :: x in a <==> x in b
    ensures a == b
  {
    NonEmptyHasFirst(a);
    NonEmptyHasFirst(b);
    if a != [] && b != [] {
      assert a[0] in b && b[0] in a;
      assert a[0] == b[0] by {
        assert forall x :: x in a ==> a[0] <= x;
        assert forall x :: x in b ==> b[0] <= x;
      }
      TailOfIncreasing(a);
      TailOfIncreasing(b);
      IncreasingUnique(a[1..], b[1..]);
      assert a == [a[0]] + a[1..] && b == [b[0]] + b[1..];
    }
  }

  /** What the label shows depends only on the set of numbers: not on their order, nor on repeats. */
  lemma SortedSetCanonical(xs: seq<int>, ys: seq<int>)
    requires forall x :: x in xs <==> x in ys
    ensures SortedSet(xs) == SortedSet(ys)
  {
    IncreasingUnique(SortedSet(xs), SortedSet(ys));
  }

  /** `sorted.every((v, i) => i === 0 || v === sorted[i - 1] + 1)` */
  predicate Contiguous(s: seq<int>) {
    forall i :: 0 < i < |s| ==> s[i] == s[i - 1] + 1
  }

  /** `${s[k]}`: the element's decimal form, or "undefined" past the end. */
  function Shown(s: seq<int>, k: int): string {
    if 0 <= k < |s| then IntToString(s[k]) else "undefined"
  }

  /** The decimal forms of a list of numbers. */
  function Numerals(s: seq<int>): (r: seq<string>)
    ensures |r| == |s|
    ensures forall k :: 0 <= k < |s| ==> r[k] == IntToString(s[k])
  {
    if s == [] then [] else [IntToString(s[0])] + Numerals(s[1..])
  }

  const EnDash: char := '\U{2013}'

  /** The en-dash span from the first to the last element. */
  function Span(s: seq<int>): string {
    "Avsnittene " + Shown(s, 0) + [EnDash] + Shown(s, |s| - 1)
  }

  /** The labels both dialects agree on: one paragraph, or a consecutive pair. */
  function ShortLabel(s: seq<int>): Option<string> {
    if |s| == 1 then Some("Avsnitt " + IntToString(s[0]))
    else if |s| == 2 && s[1] == s[0] + 1 then Some("Avsnittene " + IntToString(s[0]) + " og " + IntToString(s[1]))
    else None
  }

  /** `rangeLabel` of the vt addons: a set that is not a run is written with `+`. */
  function RangeLabel(nums: seq<int>): string {
    var s := SortedSet(nums);
    match ShortLabel(s)
    case Some(l) => l
    case None => if Contiguous(s) then Span(s) else "Avsnittene " + Join(Numerals(s), "+")
  }

  /** `rangeLabel` of index-addon.js, index-addon-3.js and index-addon-5.js: always a span. */
  function SimpleRangeLabel(nums: seq<int>): string {
    var s := SortedSet(nums);
    match ShortLabel(s)
    case Some(l) => l
    case None => Span(s)
  }

  /** Characters of a decimal integer: digits and a minus sign. */
  lemma IntToStringChars(i: int)
    ensures forall c :: c in IntToString(i) ==> IsDigit(c) || c == '-'
  {
    var r := IntToString(i);
    if i < 0 {
      assert r == "-" + NatToString(-i);
    }
    forall c | c in r ensures IsDigit(c) || c == '-' {
      var k :| 0 <= k < |r| && r[k] == c;
      if i < 0 {
        if k > 0 {
          assert r[k] == NatToString(-i)[k - 1];
        }
      }
    }
  }

  lemma {:induction false} PlusListChars(parts: seq<string>)
    requires forall k :: 0 <= k < |parts| ==> forall c :: c in parts[k] ==> IsDigit(c) || c == '-'
    ensures forall c :: c in Join(parts, "+") ==> IsDigit(c) || c == '-' || c == '+'
    decreases |parts|
  {
    if |parts| >= 2 {
      PlusListChars(parts[1..]);
      assert Join(parts, "+") == parts[0] + "+" + Join(parts[1..], "+");
    }
  }

  lemma {:induction false} NumeralsChars(s: seq<int>)
    ensures forall k :: 0 <= k < |s| ==> forall c :: c in Numerals(s)[k] ==> IsDigit(c) || c == '-'
  {
    forall k | 0 <= k < |s| ensures forall c :: c in Numerals(s)[k] ==> IsDigit(c) || c == '-' {
      IntToStringChars(s[k]);
    }
  }

  /** A vt label written with `+` holds no en dash. */
  lemma PlusLabelHasNoEnDash(s: seq<int>)
    ensures EnDash !in "Avsnittene " + Join(Numerals(s), "+")
  {
    NumeralsChars(s);
    PlusListChars(Numerals(s));
    assert EnDash !in "Avsnittene ";
  }

  lemma SpanHasEnDash(s: seq<int>)
    ensures EnDash in Span(s)
  {
    var a := "Avsnittene " + Shown(s, 0);
    assert Span(s) == a + [EnDash] + Shown(s, |s| - 1);
    assert Span(s)[|a|] == EnDash;
  }

  /**
   * The two dialects give the same label exactly when the distinct values form a run; for any
   * other set the vt label lists the numbers with `+` and the index label shows an en-dash span.
   */
  lemma DialectsAgreeIffContiguous(nums: seq<int>)
    ensures RangeLabel(nums) == SimpleRangeLabel(nums) <==> Contiguous(SortedSet(nums))
  {
    var s := SortedSet(nums);
    if ShortLabel(s).None? && !Contiguous(s) {
      PlusLabelHasNoEnDash(s);
      SpanHasEnDash(s);
    }
  }

  /** Reads a `+`-separated list of decimal naturals back. */
  function ReadPlusList(text: string): Option<seq<nat>> {
    ReadNumerals(Split(text, '+'))
  }

  function ReadNumerals(fields: seq<string>): Option<seq<nat>> {
    if fields == [] then Some([])
    else if fields[0] == [] || !AllDigits(fields[0]) then None
    else
      match ReadNumerals(fields[1..])
      case None => None
      case Some(rest) => Some([DigitsValue(fields[0])] + rest)
  }

  lemma {:induction false} ReadNumeralsOf(s: seq<int>)
    requires forall k :: 0 <= k < |s| ==> s[k] >= 0
    ensures ReadNumerals(Numerals(s)) == Some(s)
  {
    if s != [] {
      var rest := s[1..];
      assert forall k :: 0 <= k < |rest| ==> rest[k] >= 0 by {
        forall k | 0 <= k < |rest| ensures rest[k] >= 0 {
          assert rest[k] == s[k + 1];
        }
      }
      ReadNumeralsOf(rest);
      ReadNumeralsCons(s);
    }
  }

  /** The first numeral reads back as the first number, in front of the rest. */
  lemma ReadNumeralsCons(s: seq<int>)
    requires s != [] && s[0] >= 0
    requires forall k :: 1 <= k < |s| ==> s[k] >= 0
    requires ReadNumerals(Numerals(s[1..])) == Some(s[1..])
    ensures ReadNumerals(Numerals(s)) == Some(s)
  {
    var fields := Numerals(s);
    var rest := s[1..];
    DigitsValueOfNat(s[0]);
    assert fields[0] == NatToString(s[0]);
    NumeralsTail(s);
    ReadNumeralsStep(fields, rest);
    assert [s[0]] + rest == s;
  }

  lemma NumeralsTail(s: seq<int>)
    requires s != []
    ensures Numerals(s)[1..] == Numerals(s[1..])
  {
    assert Numerals(s) == [IntToString(s[0])] + Numerals(s[1..]);
  }

  lemma ReadNumeralsStep(fields: seq<string>, rest: seq<nat>)
    requires fields != [] && fields[0] != [] && AllDigits(fields[0])
    requires ReadNumerals(fields[1..]) == Some(rest)
    ensures ReadNumerals(fields) == Some([DigitsValue(fields[0])] + rest)
  {
  }

  /**
   * A vt label for a set of paragraphs that is not a run names exactly those paragraphs, in
   * ascending order: reading the text after "Avsnittene " back gives the distinct values.
   */
  lemma PlusLabelReadsBack(nums: seq<int>) returns (listed: string)
    requires forall k :: 0 <= k < |nums| ==> nums[k] >= 0
    requires !Contiguous(SortedSet(nums))
    ensures RangeLabel(nums) == "Avsnittene " + listed
    ensures ReadPlusList(listed) == Some(SortedSet(nums))
  {
    var s := SortedSet(nums);
    var parts := Numerals(s);
    listed := Join(parts, "+");
    assert ShortLabel(s).None?;
    assert forall k :: 0 <= k < |s| ==> s[k] >= 0 by {
      forall k | 0 <= k < |s| ensures s[k] >= 0 {
        assert s[k] in nums;
      }
    }
    NumeralsChars(s);
    assert forall k :: 0 <= k < |parts| ==> '+' !in parts[k];
    SplitJoin(parts, '+');
    ReadNumeralsOf(s);
  }

  /** Worked example: a gapped pair is listed with `+` by the vt addons. */
  lemma PlusLabelExample()
    ensures RangeLabel([7, 9]) == "Avsnittene 7+9"
  {
    SortedPair(7, 9);
    assert NatToString(7) == "7" && NatToString(9) == "9";
    assert Numerals([7, 9]) == ["7", "9"];
    assert Join(["7", "9"], "+") == "7+9";
  }

  /** Worked example: one paragraph is named on its own. */
  lemma SingleLabelExample()
    ensures RangeLabel([5]) == "Avsnitt 5"
  {
    assert SortedSet([5]) == [5];
    assert NatToString(5) == "5";
  }

  /** Worked example: the index addons write the same gapped pair, given in any order, as a span. */
  lemma SpanLabelExample()
    ensures SimpleRangeLabel([9, 7]) == "Avsnittene 7\U{2013}9"
  {
    SortedPair(9, 7);
    assert NatToString(7) == "7" && NatToString(9) == "9";
  }

  lemma SortedPair(a: int, b: int)
    requires {a, b} == {7, 9}
    ensures SortedSet([a, b]) == [7, 9]
  {
    IncreasingUnique(SortedSet([a, b]), [7, 9]);
  }

  /** A contiguous run of three or more gets the en-dash span in both dialects. */
  lemma RunLabel(a: int, b: int)
    requires a + 2 <= b
    ensures RangeLabel(Range(a, b)) == SimpleRangeLabel(Range(a, b))
                                     == "Avsnittene " + IntToString(a) + [EnDash] + IntToString(b)
  {
    var g := Range(a, b);
    assert forall i, j :: 0 <= i < j < |g| ==> g[i] < g[j];
    IncreasingUnique(SortedSet(g), g);
    assert |g| >= 3 && ShortLabel(g) == None;
    assert g[0] == a && g[|g| - 1] == b;
    assert Contiguous(g);
    assert Span(g) == "Avsnittene " + IntToString(a) + [EnDash] + IntToString(b);
  }

  // ---------------------------------------------------------------------------------------------
  // The overlay of index_addon_1.30.js and index_addon.js (1.31)

  /** `joinModifiers(mods)`: nothing, one, two joined by "og", or a comma list ending in "og". */
  function JoinModifiers(mods: seq<string>): string {
    if |mods| == 0 then ""
    else if |mods| == 1 then " + " + mods[0]
    else if |mods| == 2 then " + " + mods[0] + " og " + mods[1]
    else " + " + Join(mods[..|mods| - 1], ", ") + " og " + mods[|mods| - 1]
  }

  /**
   * For at most two modifiers the overlay's suffix is the vt click message's suffix
   * `" + " + extras.join(" og ")`, and the two-item case is the general rule with a one-item list
   * before "og".
   */
  lemma JoinModifiersAgrees(mods: seq<string>)
    requires 1 <= |mods| <= 2
    ensures JoinModifiers(mods) == " + " + Join(mods, " og ")
    ensures |mods| == 2 ==> JoinModifiers(mods) == " + " + Join(mods[..1], ", ") + " og " + mods[1]
  {
    if |mods| == 2 {
      var one := mods[..1];
      assert |one| == 1 && one[0] == mods[0];
      assert Join(one, ", ") == mods[0];
      var tail := mods[1..];
      assert |tail| == 1 && tail[0] == mods[1];
      assert Join(tail, " og ") == mods[1];
      assert Join(mods, " og ") == mods[0] + " og " + Join(tail, " og ");
    }
  }

  /** Three modifiers: a comma list with "og" before the last. */
  lemma JoinModifiersThree(a: string, b: string, c: string)
    ensures JoinModifiers([a, b, c]) == " + " + a + ", " + b + " og " + c
  {
    var mods := [a, b, c];
    assert mods[..2] == [a, b];
    assert [a, b][1..] == [b];
    assert Join([a, b], ", ") == a + ", " + b;
  }

  /** The label of the overlay's `{from, to}` range: one paragraph, a pair, or an ASCII-hyphen span. */
  function FromToLabel(from: int, to: int): string {
    var len := to - from + 1;
    if len == 1 then "Avsnitt " + IntToString(from)
    else if len == 2 then "Avsnitt " + IntToString(from) + " og " + IntToString(to)
    else "Avsnitt " + IntToString(from) + "-" + IntToString(to)
  }

  /**
   * The hyphen span of a range of three or more is the group-spec token for that range: reading
   * the text after "Avsnitt " with the group parser gives back exactly the paragraphs from..to.
   */
  lemma FromToLabelIsGroupToken(from: nat, to: nat)
    requires from + 2 <= to
    ensures FromToLabel(from, to) == "Avsnitt " + RangeToken(from, to)
    ensures ParseGroupsString(Some(RangeToken(from, to))) == [Range(from, to)]
  {
    FromToSpan(from, to);
    SingleTokenParses(from, to);
  }

  lemma FromToSpan(from: nat, to: nat)
    requires from + 2 <= to
    ensures FromToLabel(from, to) == "Avsnitt " + RangeToken(from, to)
  {
    var a, b := NatToString(from), NatToString(to);
    assert FromToLabel(from, to) == "Avsnitt " + a + "-" + b;
  }

  lemma SingleTokenParses(from: nat, to: nat)
    ensures ParseGroupsString(Some(RangeToken(from, to))) == [Range(from, to)]
  {
    assert RangesSpec([(from, to)]) == RangeToken(from, to);
    assert Expanded([(from, to)]) == [Range(from, to)];
    ParseRangesSpec([(from, to)]);
  }
}
