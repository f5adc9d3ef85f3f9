/**
 * The group-aware two-tone partition of the timeline slots (`applyTwoToneAlternation`,
 * `applyGroupAwareTwoTone`, `applyGroupAwareTwoToneStrict`).
 *
 * Scanning paragraphs 1..n, a paragraph that starts a group paints the whole group in the current
 * tone, a paragraph that does not paints itself; either way the tone then flips once. The scan is
 * described here as a sequence of units (`Units`) and the tone map as the result of painting them
 * in turn (`ToneMap`); the methods are the scripts' loops, proved to compute exactly that.
 */
module Tones {
  import opened Js
  import opened Groups

  /** One step of the scan: a whole group starting at the current paragraph, or that paragraph alone. */
  datatype Unit = Grouped(members: Group) | Single(p: int)

  function Members(u: Unit): seq<int> {
    match u
    case Grouped(g) => g
    case Single(p) => [p]
  }

  function Last(g: Group): int
    requires g != []
  {
    g[|g| - 1]
  }

  /**
   * Where the scan continues after the unit at i: past the group's last element, or i + 1.
   * The scripts write `i = g[g.length - 1] + 1` unconditionally; this keeps their step wherever
   * it moves forward and takes i + 1 where it would not (see StepAsWritten below).
   */
  function Next(starts: map<int, Group>, i: int): (j: int)
    ensures j > i
  {
    if i in starts && starts[i] != [] && Last(starts[i]) >= i then Last(starts[i]) + 1 else i + 1
  }

  function UnitAt(starts: map<int, Group>, i: int): Unit {
    if i in starts then Grouped(starts[i]) else Single(i)
  }

  /** The units the scan visits from paragraph i while i <= n. */
  function Units(n: int, starts: map<int, Group>, i: int): seq<Unit>
    decreases n + 1 - i
  {
    if i > n then [] else [UnitAt(starts, i)] + Units(n, starts, Next(starts, i))
  }

  /** `g.forEach(p => tones.set(p, tone))` */
  function Paint(m: map<int, bool>, g: seq<int>, t: bool): map<int, bool>
    decreases |g|
  {
    if g == [] then m else Paint(m[g[0] := t], g[1..], t)
  }

  /** Paint each unit in turn, flipping the tone after each one. */
  function PaintUnits(m: map<int, bool>, us: seq<Unit>, t: bool): map<int, bool>
    decreases |us|
  {
    if us == [] then m else PaintUnits(Paint(m, Members(us[0]), t), us[1..], !t)
  }

  /** The `tones` map the scripts build: starting light (false) at paragraph 1. */
  function ToneMap(n: int, groups: seq<Group>): map<int, bool> {
    PaintUnits(map[], Units(n, StartsOf(groups), 1), false)
  }

  /** The tone loop of `applyTwoToneAlternation`, filling the `tones` map. */
  method ComputeTones(n: int, groups: seq<Group>) returns (tones: map<int, bool>)
    ensures tones == ToneMap(n, groups)
  {
    var starts := StartsOf(groups);
    tones := map[];
    var tone := false;
    var i := 1;
    while i <= n
      invariant PaintUnits(tones, Units(n, starts, i), tone) == ToneMap(n, groups)
      decreases n + 1 - i
    {
      ghost var rest := Units(n, starts, i);
      assert rest[1..] == Units(n, starts, Next(starts, i));
      if i in starts {
        var g := starts[i];
        tones := PaintGroup(tones, g, tone);
        tone := !tone;
        i := if Last(g) >= i then Last(g) + 1 else i + 1;
      } else {
        assert Paint(tones, [i], tone) == tones[i := tone];
        tones := tones[i := tone];
        tone := !tone;
        i := i + 1;
      }
    }
  }

  /** `g.forEach(p => tones.set(p, tone))` */
  method PaintGroup(tones: map<int, bool>, g: seq<int>, tone: bool) returns (painted: map<int, bool>)
    ensures painted == Paint(tones, g, tone)
  {
    painted := tones;
    var k := 0;
    while k < |g|
      invariant 0 <= k <= |g|
      invariant Paint(painted, g[k..], tone) == Paint(tones, g, tone)
    {
      assert g[k..][1..] == g[k + 1..];
      painted := painted[g[k] := tone];
      k := k + 1;
    }
  }

  // ---------------------------------------------------------------------------------------------
  // What the tone map means

  /** The index of the last unit holding p, or -1. */
  function LastWith(us: seq<Unit>, p: int): (k: int)
    ensures -1 <= k < |us|
    ensures k >= 0 ==> p in Members(us[k])
    ensures forall j :: k < j < |us| ==> p !in Members(us[j])
    decreases |us|
  {
    if us == [] then -1
    else
      var r := LastWith(us[1..], p);
      if r >= 0 then r + 1 else if p in Members(us[0]) then 0 else -1
  }

  lemma {:induction false} PaintAt(m: map<int, bool>, g: seq<int>, t: bool, p: int)
    ensures p in Paint(m, g, t) <==> p in m || p in g
    ensures p in Paint(m, g, t) ==> Paint(m, g, t)[p] == if p in g then t else m[p]
    decreases |g|
  {
    if g != [] {
      PaintAt(m[g[0] := t], g[1..], t, p);
      assert p in g <==> p == g[0] || p in g[1..];
    }
  }

  lemma {:induction false} PaintUnitsAt(m: map<int, bool>, us: seq<Unit>, t: bool, p: int)
    ensures p in PaintUnits(m, us, t) <==> p in m || LastWith(us, p) >= 0
    ensures p in PaintUnits(m, us, t) ==>
      PaintUnits(m, us, t)[p] == if LastWith(us, p) >= 0 then t != (LastWith(us, p) % 2 == 1) else m[p]
    decreases |us|
  {
    if us != [] {
      var m' := Paint(m, Members(us[0]), t);
      PaintAt(m, Members(us[0]), t, p);
      PaintUnitsAt(m', us[1..], !t, p);
    }
  }

  /**
   * The tone of a paragraph is decided by the last unit that paints it: dark exactly when that
   * unit has an odd position in the scan. A paragraph no unit paints has no tone.
   */
  lemma ToneIsParityOfLastUnit(n: int, groups: seq<Group>, p: int)
    ensures var us := Units(n, StartsOf(groups), 1);
      && (p in ToneMap(n, groups) <==> LastWith(us, p) >= 0)
      && (p in ToneMap(n, groups) ==> ToneMap(n, groups)[p] == (LastWith(us, p) % 2 == 1))
  {
    PaintUnitsAt(map[], Units(n, StartsOf(groups), 1), false, p);
  }

  /** A group whose first element is its least and whose last element is its greatest. */
  predicate Spans(g: Group) {
    g != [] ==> forall x :: x in g ==> g[0] <= x <= Last(g)
  }

  predicate AllSpan(groups: seq<Group>) {
    forall k :: 0 <= k < |groups| ==> Spans(groups[k])
  }

  lemma StartsSpan(groups: seq<Group>, s: int)
    requires AllSpan(groups) && s in StartsOf(groups)
    ensures Spans(StartsOf(groups)[s])
  {
    var k := StartsOfLast(groups, s);
  }

  /** Every member of a unit at i lies in [i, Next(i) - 1]. */
  lemma UnitWithin(groups: seq<Group>, i: int, x: int)
    requires AllSpan(groups)
    requires x in Members(UnitAt(StartsOf(groups), i))
    ensures i <= x < Next(StartsOf(groups), i)
  {
    var starts := StartsOf(groups);
    if i in starts {
      StartsSpan(groups, i);
    }
  }

  lemma {:induction false} UnitsAbove(n: int, groups: seq<Group>, i: int, k: int, x: int)
    requires AllSpan(groups)
    requires 0 <= k < |Units(n, StartsOf(groups), i)|
    requires x in Members(Units(n, StartsOf(groups), i)[k])
    ensures x >= i
    decreases n + 1 - i
  {
    var starts := StartsOf(groups);
    if k == 0 {
      UnitWithin(groups, i, x);
    } else {
      UnitsAbove(n, groups, Next(starts, i), k - 1, x);
    }
  }

  /** When every group spans from its first to its last element, no two units share a paragraph. */
  lemma {:induction false} UnitsDisjoint(n: int, groups: seq<Group>, i: int, j: int, k: int, x: int)
    requires AllSpan(groups)
    requires 0 <= j < k < |Units(n, StartsOf(groups), i)|
    requires x in Members(Units(n, StartsOf(groups), i)[j])
    ensures x !in Members(Units(n, StartsOf(groups), i)[k])
    decreases n + 1 - i
  {
    var starts := StartsOf(groups);
    var us := Units(n, starts, i);
    if j == 0 {
      UnitWithin(groups, i, x);
      if x in Members(us[k]) {
        UnitsAbove(n, groups, Next(starts, i), k - 1, x);
      }
    } else {
      UnitsDisjoint(n, groups, Next(starts, i), j - 1, k - 1, x);
    }
  }

  /**
   * Alternation and cohesion: when every group spans from its first to its last element (every
   * parsed group does), every member of the k-th unit has the same tone, dark exactly when k is
   * odd. So the first unit is light, the members of one group share a tone, and consecutive units
   * have different tones: the tone flips exactly once per group or singleton.
   */
  lemma ToneOfUnit(n: int, groups: seq<Group>, k: int, p: int)
    requires AllSpan(groups)
    requires 0 <= k < |Units(n, StartsOf(groups), 1)|
    requires p in Members(Units(n, StartsOf(groups), 1)[k])
    ensures p in ToneMap(n, groups) && ToneMap(n, groups)[p] == (k % 2 == 1)
  {
    var us := Units(n, StartsOf(groups), 1);
    ToneIsParityOfLastUnit(n, groups, p);
    var last := LastWith(us, p);
    if last != k {
      assert k < last;
      UnitsDisjoint(n, groups, 1, k, last, p);
    }
  }

  lemma ConsecutiveSpans(g: Group)
    requires Consecutive(g)
    ensures Spans(g)
    ensures forall x :: g != [] && g[0] <= x <= Last(g) ==> x in g
  {
    if g != [] {
      assert forall k :: 0 <= k < |g| ==> g[k] == g[0] + k by {
        forall k | 0 <= k < |g| ensures g[k] == g[0] + k {
          ConsecutiveAt(g, k);
        }
      }
      forall x | g[0] <= x <= Last(g) ensures x in g {
        assert g[x - g[0]] == x;
      }
    }
  }

  lemma {:induction false} ConsecutiveAt(g: Group, k: int)
    requires Consecutive(g) && 0 <= k < |g|
    ensures g[k] == g[0] + k
  {
    if k > 0 {
      ConsecutiveAt(g, k - 1);
    }
  }

  /** Coverage: with groups that are runs of consecutive paragraphs, some unit holds every paragraph i..n. */
  lemma {:induction false} UnitsCover(n: int, groups: seq<Group>, i: int, p: int) returns (k: int)
    requires forall j :: 0 <= j < |groups| ==> Consecutive(groups[j])
    requires i <= p <= n
    ensures 0 <= k < |Units(n, StartsOf(groups), i)|
    ensures p in Members(Units(n, StartsOf(groups), i)[k])
    decreases n + 1 - i
  {
    var starts := StartsOf(groups);
    var nx := Next(starts, i);
    if p < nx {
      k := 0;
      if i in starts {
        var j := StartsOfLast(groups, i);
        ConsecutiveSpans(groups[j]);
      }
    } else {
      var k' := UnitsCover(n, groups, nx, p);
      k := k' + 1;
    }
  }

  /** With runs of consecutive paragraphs as groups, every paragraph 1..n gets a tone. */
  lemma EverySlotToned(n: int, groups: seq<Group>, p: int)
    requires forall j :: 0 <= j < |groups| ==> Consecutive(groups[j])
    requires 1 <= p <= n
    ensures p in ToneMap(n, groups)
  {
    var k := UnitsCover(n, groups, 1, p);
    ToneIsParityOfLastUnit(n, groups, p);
  }

  // ---------------------------------------------------------------------------------------------
  // Applying the tones to the slots

  /** `if (tones.get(p)) slot.classList.add('alt')`: a paragraph without a tone stays light. */
  function Dark(tones: map<int, bool>, p: int): bool {
    p in tones && tones[p]
  }

  /** The `alt` class of every slot after `applyTwoToneAlternation` (slot index q holds paragraph q + 1). */
  function AltClasses(n: nat, groups: seq<Group>): (alt: seq<bool>)
    ensures |alt| == n
  {
    var tones := ToneMap(n, groups);
    seq(n, q => Dark(tones, q + 1))
  }

  /**
   * `applyTwoToneAlternation`: compute the tone map, then every slot first loses `alt` and regains
   * it iff its paragraph's tone is dark. The slots' `alt` classes are the array.
   */
  method ApplyTwoToneAlternation(slots: array<bool>, groups: seq<Group>)
    modifies slots
    ensures slots[..] == AltClasses(slots.Length, groups)
  {
    var tones := ComputeTones(slots.Length, groups);
    for idx := 0 to slots.Length
      invariant forall q :: 0 <= q < idx ==> slots[q] == Dark(tones, q + 1)
    {
      slots[idx] := false;
      if Dark(tones, idx + 1) {
        slots[idx] := true;
      }
    }
  }

  lemma {:induction false} UnitsNoGroups(n: int, i: int, k: int)
    requires 0 <= k && i + k <= n
    ensures k < |Units(n, map[], i)| && Units(n, map[], i)[k] == Single(i + k)
    decreases k
  {
    if k > 0 {
      UnitsNoGroups(n, i + 1, k - 1);
    }
  }

  /** With no groups the scan is plain alternation: slot index q is dark iff paragraph q + 1 is even. */
  lemma NoGroupsAlternate(n: nat, q: int)
    requires 0 <= q < n
    ensures AltClasses(n, [])[q] == ((q + 1) % 2 == 0)
  {
    assert StartsOf([]) == map[];
    UnitsNoGroups(n, 1, q);
    ToneOfUnit(n, [], q, q + 1);
    assert AltClasses(n, [])[q] == Dark(ToneMap(n, []), q + 1);
  }

  /** The scan for n = 12 with groups [4,5] and [10,11,12]: nine units. */
  lemma TwelveSlotsUnits(groups: seq<Group>)
    requires |groups| == 2 && groups[0] == [4, 5] && groups[1] == [10, 11, 12]
    ensures AllSpan(groups)
    ensures Units(12, StartsOf(groups), 1) == TwelveUnits
  {
    TwelveSlotsStarts(groups);
    TwelveSlotsHead(StartsOf(groups));
  }

  lemma TwelveSlotsStarts(groups: seq<Group>)
    requires |groups| == 2 && groups[0] == [4, 5] && groups[1] == [10, 11, 12]
    ensures AllSpan(groups)
    ensures StartsOf(groups) == map[4 := [4, 5], 10 := [10, 11, 12]]
  {
  }

  lemma TwelveSlotsHead(starts: map<int, Group>)
    requires starts == map[4 := [4, 5], 10 := [10, 11, 12]]
    ensures Units(12, starts, 1) == TwelveUnits
  {
    TwelveSlotsTail(starts);
    assert Units(12, starts, 4) == [Grouped([4, 5])] + Units(12, starts, 6);
    assert Units(12, starts, 3) == [Single(3)] + Units(12, starts, 4);
    assert Units(12, starts, 2) == [Single(2)] + Units(12, starts, 3);
    assert Units(12, starts, 1) == [Single(1)] + Units(12, starts, 2);
  }

  lemma TwelveSlotsTail(starts: map<int, Group>)
    requires starts == map[4 := [4, 5], 10 := [10, 11, 12]]
    ensures Units(12, starts, 6) == [Single(6), Single(7), Single(8), Single(9), Grouped([10, 11, 12])]
  {
    assert Units(12, starts, 13) == [];
    assert Units(12, starts, 10) == [Grouped([10, 11, 12])];
    assert Units(12, starts, 9) == [Single(9), Grouped([10, 11, 12])];
    assert Units(12, starts, 8) == [Single(8), Single(9), Grouped([10, 11, 12])];
    assert Units(12, starts, 7) == [Single(7), Single(8), Single(9), Grouped([10, 11, 12])];
  }

  /** The worked case: n = 12 with groups [4,5] and [10,11,12]. */
  lemma TwelveSlotsExample(groups: seq<Group>)
    requires |groups| == 2 && groups[0] == [4, 5] && groups[1] == [10, 11, 12]
    ensures AltClasses(12, groups)
         == [false, true, false, true, true, false, true, false, true, false, false, false]
  {
    var alt := AltClasses(12, groups);
    TwelveSlotsFirstFour(groups);
    TwelveSlotsMiddleFour(groups);
    TwelveSlotsLastFour(groups);
    assert alt == alt[..4] + alt[4..8] + alt[8..];
  }

  lemma TwelveSlotsFirstFour(groups: seq<Group>)
    requires |groups| == 2 && groups[0] == [4, 5] && groups[1] == [10, 11, 12]
    ensures AltClasses(12, groups)[..4] == [false, true, false, true]
  {
    TwelvePair(groups, 0, 1, 1);
    TwelvePair(groups, 2, 3, 3);
  }

  lemma TwelveSlotsMiddleFour(groups: seq<Group>)
    requires |groups| == 2 && groups[0] == [4, 5] && groups[1] == [10, 11, 12]
    ensures AltClasses(12, groups)[4..8] == [true, false, true, false]
  {
    TwelvePair(groups, 3, 5, 4);
    TwelvePair(groups, 5, 7, 6);
  }

  lemma TwelveSlotsLastFour(groups: seq<Group>)
    requires |groups| == 2 && groups[0] == [4, 5] && groups[1] == [10, 11, 12]
    ensures AltClasses(12, groups)[8..] == [true, false, false, false]
  {
    TwelvePair(groups, 7, 9, 8);
    TwelvePair(groups, 8, 11, 8);
  }

  /** Slots `p` and `p + 1` lie in units `k` and `j` of the worked case. */
  lemma TwelvePair(groups: seq<Group>, k: int, p: int, j: int)
    requires |groups| == 2 && groups[0] == [4, 5] && groups[1] == [10, 11, 12] && 1 <= p < 12
    requires 0 <= k < |TwelveUnits| && p in Members(TwelveUnits[k])
    requires 0 <= j < |TwelveUnits| && p + 1 in Members(TwelveUnits[j])
    ensures AltClasses(12, groups)[p - 1] == (k % 2 == 1) && AltClasses(12, groups)[p] == (j % 2 == 1)
  {
    TwelveAt(groups, k, p);
    TwelveAt(groups, j, p + 1);
  }

  /** The units of the worked case. */
  const TwelveUnits: seq<Unit> :=
    [Single(1), Single(2), Single(3), Grouped([4, 5]), Single(6), Single(7), Single(8), Single(9), Grouped([10, 11, 12])]

  lemma TwelveAt(groups: seq<Group>, k: int, p: int)
    requires |groups| == 2 && groups[0] == [4, 5] && groups[1] == [10, 11, 12] && 1 <= p <= 12
    requires 0 <= k < |TwelveUnits| && p in Members(TwelveUnits[k])
    ensures AltClasses(12, groups)[p - 1] == (k % 2 == 1)
  {
    TwelveSlotsUnits(groups);
    AltOfUnit(12, groups, k, p);
  }

  /** The slot of a member of the k-th unit is `alt` exactly when k is odd. */
  lemma AltOfUnit(n: nat, groups: seq<Group>, k: int, p: int)
    requires AllSpan(groups) && 1 <= p <= n
    requires 0 <= k < |Units(n, StartsOf(groups), 1)|
    requires p in Members(Units(n, StartsOf(groups), 1)[k])
    ensures AltClasses(n, groups)[p - 1] == (k % 2 == 1)
  {
    ToneOfUnit(n, groups, k, p);
    assert AltClasses(n, groups)[p - 1] == Dark(ToneMap(n, groups), p);
  }

  // ---------------------------------------------------------------------------------------------
  // The two in-place variants of index-addon.js and index-addon-3.js / index-addon-5.js

  /** Slot classes with the toned paragraphs overwritten and the others as they were. */
  function Overlay(prev: seq<bool>, tones: map<int, bool>): (alt: seq<bool>)
    ensures |alt| == |prev|
  {
    seq(|prev|, q requires 0 <= q < |prev| => if q + 1 in tones then tones[q + 1] else prev[q])
  }

  lemma OverlaySet(prev: seq<bool>, tones: map<int, bool>, p: int, t: bool)
    ensures Overlay(prev, tones[p := t])
         == if 1 <= p <= |prev| then Overlay(prev, tones)[p - 1 := t] else Overlay(prev, tones)
  {
  }

  /** The `alt` classes after `applyGroupAwareTwoTone`: slots no unit paints keep their class. */
  function OverlaidAlt(prev: seq<bool>, groups: seq<Group>): (alt: seq<bool>)
    ensures |alt| == |prev|
  {
    Overlay(prev, ToneMap(|prev|, groups))
  }

  /**
   * `applyGroupAwareTwoTone` (index-addon.js): the same scan, writing each visited slot directly;
   * members outside 1..n are skipped and unvisited slots keep their previous `alt` class.
   */
  method ApplyGroupAwareTwoTone(slots: array<bool>, groups: seq<Group>)
    modifies slots
    ensures slots[..] == OverlaidAlt(old(slots[..]), groups)
  {
    var n := slots.Length;
    var starts := StartsOf(groups);
    ghost var tones: map<int, bool> := map[];
    var tone := false;
    var i := 1;
    while i <= n
      invariant PaintUnits(tones, Units(n, starts, i), tone) == ToneMap(n, groups)
      invariant slots[..] == Overlay(old(slots[..]), tones)
      decreases n + 1 - i
    {
      ghost var rest := Units(n, starts, i);
      assert rest[1..] == Units(n, starts, Next(starts, i));
      if i in starts {
        var g := starts[i];
        tones := PaintGroupSlots(slots, g, tone, old(slots[..]), tones);
        tone := !tone;
        i := if Last(g) >= i then Last(g) + 1 else i + 1;
      } else {
        OverlaySet(old(slots[..]), tones, i, tone);
        assert Paint(tones, [i], tone) == tones[i := tone];
        slots[i - 1] := tone;
        tones := tones[i := tone];
        tone := !tone;
        i := i + 1;
      }
    }
  }

  /** A group's turn in `applyGroupAwareTwoTone`: each member's slot in 1..n takes the tone. */
  method PaintGroupSlots(slots: array<bool>, g: seq<int>, tone: bool, ghost prev: seq<bool>, ghost tones: map<int, bool>)
    returns (ghost painted: map<int, bool>)
    requires |prev| == slots.Length && slots[..] == Overlay(prev, tones)
    modifies slots
    ensures painted == Paint(tones, g, tone) && slots[..] == Overlay(prev, painted)
  {
    painted := tones;
    var k := 0;
    while k < |g|
      invariant 0 <= k <= |g|
      invariant Paint(painted, g[k..], tone) == Paint(tones, g, tone)
      invariant slots[..] == Overlay(prev, painted)
    {
      assert g[k..][1..] == g[k + 1..];
      var p := g[k];
      OverlaySet(prev, painted, p, tone);
      if 1 <= p <= slots.Length {
        slots[p - 1] := tone;
      }
      painted := painted[p := tone];
      k := k + 1;
    }
  }

  /** Whether a unit of `us` painted in tone t, t flipping after each unit, paints p dark. */
  function AnyDark(us: seq<Unit>, t: bool, p: int): bool
    decreases |us|
  {
    us != [] && ((t && p in Members(us[0])) || AnyDark(us[1..], !t, p))
  }

  /** The slot classes once the units `us` still to come have added `alt` to their dark members. */
  function Marked(cur: seq<bool>, us: seq<Unit>, t: bool): (alt: seq<bool>)
    ensures |alt| == |cur|
  {
    seq(|cur|, q requires 0 <= q < |cur| => cur[q] || AnyDark(us, t, q + 1))
  }

  /** After the strict pass, a slot is `alt` iff some unit painted its paragraph dark. */
  function StrictAlt(n: nat, groups: seq<Group>): (alt: seq<bool>)
    ensures |alt| == n
  {
    Marked(seq(n, q => false), Units(n, StartsOf(groups), 1), false)
  }

  /** Adding `alt` for one member of the current unit leaves the final classes unchanged. */
  lemma MarkMember(cur: seq<bool>, g: seq<int>, k: int, later: seq<Unit>, t: bool)
    requires 0 <= k < |g|
    ensures var cur' := if 1 <= g[k] <= |cur| && t then cur[g[k] - 1 := true] else cur;
      Marked(cur, [Grouped(g[k..])] + later, t) == Marked(cur', [Grouped(g[k + 1..])] + later, t)
  {
    var us := [Grouped(g[k..])] + later;
    var us' := [Grouped(g[k + 1..])] + later;
    assert us[1..] == later && us'[1..] == later;
    assert forall x :: x in g[k..] <==> x == g[k] || x in g[k + 1..];
  }

  /**
   * `applyGroupAwareTwoToneStrict` (index-addon-3.js, index-addon-5.js): clear `alt` on every slot,
   * then run the scan adding `alt` to the slots of dark units; a class once added is never removed.
   */
  method ApplyGroupAwareTwoToneStrict(slots: array<bool>, groups: seq<Group>)
    modifies slots
    ensures slots[..] == StrictAlt(slots.Length, groups)
  {
    var n := slots.Length;
    ClearAlt(slots);
    assert slots[..] == seq(n, q => false);
    var starts := StartsOf(groups);
    var tone := false;
    var i := 1;
    while i <= n
      invariant Marked(slots[..], Units(n, starts, i), tone) == StrictAlt(n, groups)
      decreases n + 1 - i
    {
      ghost var rest := Units(n, starts, i);
      assert rest[1..] == Units(n, starts, Next(starts, i));
      if i in starts {
        var g := starts[i];
        assert [Grouped(g)] + rest[1..] == rest;
        MarkGroup(slots, g, tone, rest[1..]);
        tone := !tone;
        i := if Last(g) >= i then Last(g) + 1 else i + 1;
      } else {
        assert rest == [Single(i)] + rest[1..];
        MarkSingle(slots[..], i, rest[1..], tone);
        if tone {
          slots[i - 1] := true;
        }
        tone := !tone;
        i := i + 1;
      }
    }
  }

  /** A singleton's turn in the strict scan: its slot gets `alt` when it is dark. */
  lemma MarkSingle(cur: seq<bool>, i: int, later: seq<Unit>, t: bool)
    requires 1 <= i <= |cur|
    ensures Marked(cur, [Single(i)] + later, t) == Marked(if t then cur[i - 1 := true] else cur, later, !t)
  {
    assert ([Single(i)] + later)[1..] == later;
  }

  /** The first pass: every slot loses `alt`. */
  method ClearAlt(slots: array<bool>)
    modifies slots
    ensures forall q :: 0 <= q < slots.Length ==> !slots[q]
  {
    for idx := 0 to slots.Length
      invariant forall q :: 0 <= q < idx ==> !slots[q]
    {
      slots[idx] := false;
    }
  }

  /** A group's turn in the strict scan: each member's slot gets `alt` when the group is dark. */
  method MarkGroup(slots: array<bool>, g: seq<int>, tone: bool, ghost later: seq<Unit>)
    modifies slots
    ensures Marked(slots[..], later, !tone) == Marked(old(slots[..]), [Grouped(g)] + later, tone)
  {
    assert g[0..] == g;
    var k := 0;
    while k < |g|
      invariant 0 <= k <= |g|
      invariant Marked(slots[..], [Grouped(g[k..])] + later, tone) == Marked(old(slots[..]), [Grouped(g)] + later, tone)
    {
      MarkMember(slots[..], g, k, later, tone);
      var p := g[k];
      if 1 <= p <= slots.Length && tone {
        slots[p - 1] := true;
      }
      k := k + 1;
    }
    assert ([Grouped(g[k..])] + later)[1..] == later;
    assert Marked(slots[..], [Grouped(g[k..])] + later, tone) == Marked(slots[..], later, !tone);
  }

  lemma {:induction false} AnyDarkParity(us: seq<Unit>, t: bool, p: int)
    requires forall j, k :: 0 <= j < k < |us| && p in Members(us[j]) ==> p !in Members(us[k])
    ensures AnyDark(us, t, p) <==> LastWith(us, p) >= 0 && (t != (LastWith(us, p) % 2 == 1))
  {
    if us != [] {
      forall j, k | 0 <= j < k < |us[1..]| && p in Members(us[1..][j])
        ensures p !in Members(us[1..][k])
      {
        assert us[1..][j] == us[j + 1] && us[1..][k] == us[k + 1];
      }
      AnyDarkParity(us[1..], !t, p);
      if p in Members(us[0]) {
        assert forall k :: 0 <= k < |us[1..]| ==> p !in Members(us[1..][k]) by {
          forall k | 0 <= k < |us[1..]| ensures p !in Members(us[1..][k]) {
            assert us[1..][k] == us[k + 1];
          }
        }
      }
    }
  }

  /** When groups span from first to last element, the strict pass and the tone-map pass agree. */
  lemma StrictAgreesWhenGroupsSpan(n: nat, groups: seq<Group>)
    requires AllSpan(groups)
    ensures StrictAlt(n, groups) == AltClasses(n, groups)
  {
    var us := Units(n, StartsOf(groups), 1);
    forall q | 0 <= q < n ensures StrictAlt(n, groups)[q] == AltClasses(n, groups)[q] {
      forall j, k | 0 <= j < k < |us| && q + 1 in Members(us[j]) ensures q + 1 !in Members(us[k]) {
        UnitsDisjoint(n, groups, 1, j, k, q + 1);
      }
      AnyDarkParity(us, false, q + 1);
      ToneIsParityOfLastUnit(n, groups, q + 1);
      assert StrictAlt(n, groups)[q] == AnyDark(us, false, q + 1);
      assert AltClasses(n, groups)[q] == Dark(ToneMap(n, groups), q + 1);
    }
  }

  // ---------------------------------------------------------------------------------------------
  // The step as the scripts write it

  /** `i = g[g.length - 1] + 1` for a group start, `i += 1` otherwise. */
  function StepAsWritten(starts: map<int, Group>, i: int): int {
    if i in starts && starts[i] != [] then Last(starts[i]) + 1 else i + 1
  }

  function IterateAsWritten(starts: map<int, Group>, i: int, steps: nat): int
    decreases steps
  {
    if steps == 0 then i else IterateAsWritten(starts, StepAsWritten(starts, i), steps - 1)
  }

  /**
   * With `__VT_GROUPS = [[5, 3]]` and five slots the loop as written never ends: from paragraph 1
   * it reaches 4, then 5, whose group sends it back to 4, and `i <= 5` holds forever.
   */
  lemma {:induction false} AsWrittenLoopNeverEnds(steps: nat)
    ensures 1 <= IterateAsWritten(StartsOf([[5, 3]]), 1, steps) <= 5
  {
    var starts := StartsOf([[5, 3]]);
    assert starts == map[5 := [5, 3]];
    assert IterateAsWritten(starts, 1, 3) == 4;
    if steps > 3 {
      CycleFromFour(starts, steps - 3);
      assert IterateAsWritten(starts, 1, steps) == IterateAsWritten(starts, 4, steps - 3) by {
        IterateSplit(starts, 1, 3, steps - 3);
      }
    }
  }

  lemma {:induction false} CycleFromFour(starts: map<int, Group>, steps: nat)
    requires starts == map[5 := [5, 3]]
    ensures IterateAsWritten(starts, 4, steps) in {4, 5}
  {
    if steps > 0 {
      assert StepAsWritten(starts, 4) == 5 && StepAsWritten(starts, 5) == 4;
      if steps > 1 {
        CycleFromFour(starts, steps - 2);
      }
    }
  }

  lemma {:induction false} IterateSplit(starts: map<int, Group>, i: int, a: nat, b: nat)
    ensures IterateAsWritten(starts, i, a + b) == IterateAsWritten(starts, IterateAsWritten(starts, i, a), b)
    decreases a
  {
    if a > 0 {
      IterateSplit(starts, StepAsWritten(starts, i), a - 1, b);
    }
  }

  /** The corrected step is the written one wherever the written one moves forward, and always moves forward. */
  lemma CorrectedStepAgrees(starts: map<int, Group>, i: int)
    ensures Next(starts, i) > i
    ensures StepAsWritten(starts, i) > i ==> Next(starts, i) == StepAsWritten(starts, i)
  {
  }

  /** No group ends below its first element (every parsed group is such a run). */
  predicate EndsForward(groups: seq<Group>) {
    forall k :: 0 <= k < |groups| && groups[k] != [] ==> Last(groups[k]) >= groups[k][0]
  }

  lemma ParsedEndsForward(str: Option<string>)
    ensures EndsForward(ParseGroupsString(str))
  {
    var gs := ParseGroupsString(str);
    ParsedGroupsAreRuns(str);
    forall k | 0 <= k < |gs| && gs[k] != [] ensures Last(gs[k]) >= gs[k][0] {
      assert gs[k] in gs;
      ConsecutiveSpans(gs[k]);
      assert gs[k][|gs[k]| - 1] in gs[k];
    }
  }

  lemma StepAsWrittenForward(groups: seq<Group>, i: int)
    requires EndsForward(groups)
    ensures StepAsWritten(StartsOf(groups), i) == Next(StartsOf(groups), i)
  {
    if i in StartsOf(groups) {
      var k := StartsOfLast(groups, i);
    }
  }

  /**
   * When no group ends below its first element, the loop as written visits exactly the paragraphs
   * at which the units of the scan start, in the same order, and leaves `i <= n` right after the
   * last of them: there the corrected step changes nothing.
   */
  lemma {:induction false} AsWrittenVisitsUnits(n: int, groups: seq<Group>, i: int)
    requires EndsForward(groups)
    ensures forall k :: 0 <= k < |Units(n, StartsOf(groups), i)| ==>
      IterateAsWritten(StartsOf(groups), i, k) <= n
      && UnitAt(StartsOf(groups), IterateAsWritten(StartsOf(groups), i, k)) == Units(n, StartsOf(groups), i)[k]
    ensures IterateAsWritten(StartsOf(groups), i, |Units(n, StartsOf(groups), i)|) > n
    decreases n + 1 - i
  {
    var starts := StartsOf(groups);
    if i <= n {
      var nx := Next(starts, i);
      StepAsWrittenForward(groups, i);
      AsWrittenVisitsUnits(n, groups, nx);
      var us := Units(n, starts, i);
      assert us == [UnitAt(starts, i)] + Units(n, starts, nx);
      forall k | 0 < k < |us|
        ensures IterateAsWritten(starts, i, k) == IterateAsWritten(starts, nx, k - 1)
      {
      }
      assert IterateAsWritten(starts, i, |us|) == IterateAsWritten(starts, nx, |us| - 1);
    }
  }

  /**
   * A group ending below its start changes the scan even when the written loop ends: with
   * `[[1, 2], [3, 1], [2, 5]]` and five slots it visits 1, 3, 2 and stops at 6, so [2, 5] is
   * painted last, as the third unit; the corrected scan goes on from 4 and paints 4 and 5 alone.
   */
  lemma BackwardGroupChangesScan()
    ensures IterateAsWritten(StartsOf([[1, 2], [3, 1], [2, 5]]), 1, 3) == 6
    ensures Units(5, StartsOf([[1, 2], [3, 1], [2, 5]]), 1)
      == [Grouped([1, 2]), Grouped([3, 1]), Single(4), Single(5)]
  {
    var starts := StartsOf([[1, 2], [3, 1], [2, 5]]);
    assert starts == map[1 := [1, 2], 3 := [3, 1], 2 := [2, 5]];
    assert IterateAsWritten(starts, 1, 3) == IterateAsWritten(starts, 3, 2) == IterateAsWritten(starts, 2, 1) == 6;
    assert Next(starts, 1) == 3 && Next(starts, 3) == 4 && Next(starts, 4) == 5 && Next(starts, 5) == 6;
  }
}
