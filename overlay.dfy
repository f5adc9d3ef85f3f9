/**
 * The message overlay of index_addon_1.30.js and index_addon.js (1.31).
 *
 * While the recording plays, the overlay shows which part of the meeting the playback cursor is
 * over: one of the three fixed frames (introduction, review questions, closing), or a paragraph
 * slot with its group range and the modifiers Les-skriftsted, Ramme and Bilde. The page's
 * geometry, the cursor position and the host page's hooks (`getGroups`, `getReads`, `getFrames`,
 * `getImages`) are parameters here; what the DOM heuristics would decide is given as sets of
 * slot indices.
 */
module Overlay {
  import opened Js
  import opened Labels

  /** The horizontal extent `left..right` of a bounding rectangle. */
  datatype Rect = Rect(left: int, right: int)

  /** `containsX(r, x)`: both edges count as inside. */
  predicate ContainsX(r: Rect, x: int) {
    x >= r.left && x <= r.right
  }

  /** The index of the first element satisfying `p`, or `|xs|` when there is none. */
  function FirstIndex<T>(xs: seq<T>, p: T -> bool): (k: nat)
    ensures k <= |xs|
    ensures k < |xs| ==> p(xs[k])
    ensures forall j :: 0 <= j < k ==> !p(xs[j])
  {
    if xs == [] then 0
    else if p(xs[0]) then 0
    else 1 + FirstIndex(xs[1..], p)
  }

  // ---------------------------------------------------------------------------------------------
  // The active paragraph slot

  /**
   * `getActiveParaIndex()`: the first slot whose rectangle contains the cursor; past the right
   * edge of the last slot, the last slot; otherwise -1. `x` is `None` when the page has no
   * timeline or no cursor position.
   */
  function ActiveParaIndex(slots: seq<Rect>, x: Option<int>): (i: int)
    ensures -1 <= i < |slots|
  {
    match x
    case None => -1
    case Some(v) =>
      var k := FirstIndex(slots, r => ContainsX(r, v));
      if k < |slots| then k
      else if |slots| > 0 && v > slots[|slots| - 1].right then |slots| - 1
      else -1
  }

  /** The slot scan of `getActiveParaIndex()`, as its `for` loop with the early return. */
  method GetActiveParaIndex(slots: seq<Rect>, x: Option<int>) returns (i: int)
    ensures i == ActiveParaIndex(slots, x)
    ensures x.None? ==> i == -1
    ensures x.Some? && 0 <= i && ContainsX(slots[i], x.value) ==>
      forall j :: 0 <= j < i ==> !ContainsX(slots[j], x.value)
    ensures x.Some? && (exists j :: 0 <= j < |slots| && ContainsX(slots[j], x.value)) ==>
      0 <= i && ContainsX(slots[i], x.value)
    ensures x.Some? && (forall j :: 0 <= j < |slots| ==> !ContainsX(slots[j], x.value)) ==>
      i == (if |slots| > 0 && x.value > slots[|slots| - 1].right then |slots| - 1 else -1)
  {
    if x.None? {
      return -1;
    }
    var v := x.value;
    ghost var p := (r: Rect) => ContainsX(r, v);
    var n := 0;
    while n < |slots|
      invariant 0 <= n <= |slots|
      invariant forall j :: 0 <= j < n ==> !ContainsX(slots[j], v)
      invariant n <= FirstIndex(slots, p)
    {
      if ContainsX(slots[n], v) {
        return n;
      }
      n := n + 1;
    }
    if |slots| > 0 && v > slots[|slots| - 1].right {
      return |slots| - 1;
    }
    return -1;
  }

  // ---------------------------------------------------------------------------------------------
  // The fixed frames

  datatype FrameKey = Intro | Review | Outro

  /**
   * `atWhichFrame()`: the first of the intro, review and outro slots that is on the page and
   * whose rectangle contains the cursor.
   */
  function AtWhichFrame(intro: Option<Rect>, review: Option<Rect>, outro: Option<Rect>, x: Option<int>): Option<FrameKey> {
    match x
    case None => None
    case Some(v) =>
      var frames := [(Intro, intro), (Review, review), (Outro, outro)];
      var k := FirstIndex(frames, (f: (FrameKey, Option<Rect>)) => f.1.Some? && ContainsX(f.1.value, v));
      if k < |frames| then Some(frames[k].0) else None
  }

  /** The three frames take precedence over each other in page order. */
  lemma FrameOrder(intro: Option<Rect>, review: Option<Rect>, outro: Option<Rect>, v: int)
    ensures var k := AtWhichFrame(intro, review, outro, Some(v));
      var inIntro := intro.Some? && ContainsX(intro.value, v);
      var inReview := review.Some? && ContainsX(review.value, v);
      var inOutro := outro.Some? && ContainsX(outro.value, v);
      && (k == Some(Intro) <==> inIntro)
      && (k == Some(Review) <==> !inIntro && inReview)
      && (k == Some(Outro) <==> !inIntro && !inReview && inOutro)
      && (k == None <==> !inIntro && !inReview && !inOutro)
  {
    var frames := [(Intro, intro), (Review, review), (Outro, outro)];
    var p := (f: (FrameKey, Option<Rect>)) => f.1.Some? && ContainsX(f.1.value, v);
    assert p(frames[0]) == (intro.Some? && ContainsX(intro.value, v));
    assert p(frames[1]) == (review.Some? && ContainsX(review.value, v));
    assert p(frames[2]) == (outro.Some? && ContainsX(outro.value, v));
  }

  /** The fixed texts of the three frames. */
  function FrameText(k: FrameKey): string {
    match k
    case Intro => "Introduksjon (maks 1,5 min)"
    case Review => "Repetisjonsspørsmål"
    case Outro => "Avslutning (maks 1,5 min)"
  }

  // ---------------------------------------------------------------------------------------------
  // Range ends

  /** The end of a range as the hooks may give it: a number, `null`, or `undefined` (missing). */
  datatype End = Num(n: int) | Null | Undefined

  /**
   * The number a relational comparison such as `one >= e` reads the end as: `null` is 0, and
   * `undefined` is NaN, against which every comparison is false (`None`).
   */
  function AsNumber(e: End): (r: Option<int>)
    ensures r.None? <==> e.Undefined?
    ensures e.Null? ==> r == Some(0)
    ensures e.Num? ==> r == Some(e.n)
  {
    match e
    case Num(n) => Some(n)
    case Null => Some(0)
    case Undefined => None
  }

  /** `one >= lo && one <= hi` with JavaScript's reading of the ends. */
  predicate Between(lo: End, hi: End, one: int) {
    AsNumber(lo).Some? && AsNumber(hi).Some? && one >= AsNumber(lo).value && one <= AsNumber(hi).value
  }

  /** `${e}` in a template string. */
  function EndText(e: End): string {
    match e
    case Num(n) => IntToString(n)
    case Null => "null"
    case Undefined => "undefined"
  }

  // ---------------------------------------------------------------------------------------------
  // Modifier flags

  /** An entry of the lists `getFrames()` and `getImages()` return, as the scripts inspect it. */
  datatype RangeItem = RArr(elems: seq<End>) | RNum(n: int) | RObj(from: End, to: End) | ROther

  /**
   * Whether an entry covers the one-based paragraph number: a two-element array as an inclusive
   * range (unguarded, so a `null` end counts as 0), an object only when `from != null` and
   * `to != null` (neither `null` nor `undefined`), a number by equality.
   */
  predicate Covers(it: RangeItem, one: int) {
    match it
    case RArr(e) => |e| == 2 && Between(e[0], e[1], one)
    case RNum(n) => n == one
    case RObj(f, t) => f.Num? && t.Num? && Between(f, t, one)
    case ROther => false
  }

  /** The `for ... of` loop of `hasFrameFlag` and `hasImageFlag`: some entry covers `one`. */
  function AnyCovers(items: seq<RangeItem>, one: int): (b: bool)
    ensures b <==> exists k :: 0 <= k < |items| && Covers(items[k], one)
  {
    if items == [] then false
    else Covers(items[0], one) || AnyCovers(items[1..], one)
  }

  /**
   * `hasFrameFlag(idx)` and `hasImageFlag(idx)`: the hook's list covers `idx + 1`, or else the
   * DOM heuristics flag the slot (`dom`, the indices they accept).
   */
  function HasRangeFlag(hook: Option<seq<RangeItem>>, dom: set<int>, idx: int): (b: bool)
    ensures b <==> (hook.Some? && exists k :: 0 <= k < |hook.value| && Covers(hook.value[k], idx + 1)) || idx in dom
  {
    (hook.Some? && AnyCovers(hook.value, idx + 1)) || idx in dom
  }

  /**
   * `isReadPara(idx)`: with a `getReads` hook, the list is zero-based exactly when it holds a 0;
   * without one, the DOM heuristics decide.
   */
  function IsReadPara(readList: Option<seq<int>>, dom: set<int>, idx: int): bool {
    match readList
    case Some(r) => if 0 in r then idx in r else idx + 1 in r
    case None => idx in dom
  }

  function Shifted(r: seq<int>): (s: seq<int>)
    ensures |s| == |r| && forall k :: 0 <= k < |r| ==> s[k] == r[k] + 1
  {
    if r == [] then [] else [r[0] + 1] + Shifted(r[1..])
  }

  /**
   * A zero-based list of read paragraphs and the same list counted from one mark the same slots,
   * because the one-based list holds no 0.
   */
  lemma ReadBasesAgree(r: seq<int>, dom: set<int>, idx: int)
    requires 0 in r
    requires forall k :: 0 <= k < |r| ==> r[k] >= 0
    ensures IsReadPara(Some(r), dom, idx) == IsReadPara(Some(Shifted(r)), dom, idx)
  {
    var s := Shifted(r);
    assert 0 !in s by {
      forall k | 0 <= k < |s| ensures s[k] != 0 {
        assert s[k] == r[k] + 1;
      }
    }
    if idx in r {
      var k :| 0 <= k < |r| && r[k] == idx;
      assert s[k] == idx + 1;
    }
    if idx + 1 in s {
      var k :| 0 <= k < |s| && s[k] == idx + 1;
      assert r[k] == idx;
    }
  }

  /** The fixed modifier order: Les-skriftsted, Ramme, Bilde, each only when its flag is set. */
  function Modifiers(read: bool, frame: bool, image: bool): (mods: seq<string>)
    ensures |mods| == (if read then 1 else 0) + (if frame then 1 else 0) + (if image then 1 else 0)
    ensures read ==> mods[0] == "Les-skriftsted"
    ensures image ==> mods[|mods| - 1] == "Bilde"
    ensures frame ==> mods[if read then 1 else 0] == "Ramme"
  {
    (if read then ["Les-skriftsted"] else []) + (if frame then ["Ramme"] else []) + (if image then ["Bilde"] else [])
  }

  // ---------------------------------------------------------------------------------------------
  // Group ranges

  /** An entry of the list `getGroups()` returns, as `groupForIndex` inspects it. */
  datatype GroupItem = GArr(elems: seq<End>) | GObj(from: End, to: End) | GNum(n: int) | GOther

  /** A normalised `{from, to}` range, its ends copied without a test. */
  datatype Bounds = Bounds(from: End, to: End)

  /** The `map` step of `groupForIndex`: arrays give their first two elements, numbers a one-paragraph range. */
  function Normalize(it: GroupItem): Option<Bounds> {
    match it
    case GArr(e) => Some(Bounds(if |e| > 0 then e[0] else Undefined, if |e| > 1 then e[1] else Undefined))
    case GObj(f, t) => Some(Bounds(f, t))
    case GNum(n) => Some(Bounds(Num(n), Num(n)))
    case GOther => None
  }

  /** `one >= r.from && one <= r.to` for the normalised range of an entry. */
  predicate Holds(it: GroupItem, one: int) {
    var b := Normalize(it);
    b.Some? && Between(b.value.from, b.value.to, one)
  }

  /** The group overlay's range under the cursor, as numbers. */
  function GeometryBounds(geometry: Option<(int, int)>): Option<Bounds> {
    match geometry
    case Some((a, b)) => Some(Bounds(Num(a), Num(b)))
    case None => None
  }

  /**
   * `groupForIndex(idx)`: the first entry of the hook's list whose range holds `idx + 1`. When
   * there is none, index_addon.js (1.31) falls back to the group overlay under the cursor
   * (`geometry`, always `None` for index_addon_1.30.js).
   */
  function GroupForIndex(hook: Option<seq<GroupItem>>, geometry: Option<(int, int)>, idx: int): (r: Option<Bounds>)
    ensures hook.Some? && (exists k :: 0 <= k < |hook.value| && Holds(hook.value[k], idx + 1)) ==>
      r.Some? && Between(r.value.from, r.value.to, idx + 1)
    ensures hook.None? || (forall k :: 0 <= k < |hook.value| ==> !Holds(hook.value[k], idx + 1)) ==>
      r == GeometryBounds(geometry)
  {
    if hook.None? then GeometryBounds(geometry)
    else
      var items := hook.value;
      var k := FirstIndex(items, it => Holds(it, idx + 1));
      if k < |items| then Normalize(items[k]) else GeometryBounds(geometry)
  }

  /** Earlier entries win: the range comes from the first entry that holds the paragraph. */
  lemma GroupForIndexFirst(items: seq<GroupItem>, geometry: Option<(int, int)>, idx: int, k: nat)
    requires k < |items| && Holds(items[k], idx + 1)
    requires forall j :: 0 <= j < k ==> !Holds(items[j], idx + 1)
    ensures GroupForIndex(Some(items), geometry, idx) == Normalize(items[k])
  {
  }

  /**
   * A `null` end is compared as 0: `[[null, 5]]` holds paragraph 3, and the overlay then shows
   * "Avsnitt null-5" (the length `5 - null + 1` is 6).
   */
  lemma NullEndHolds()
    ensures GroupForIndex(Some([GArr([Null, Num(5)])]), None, 2) == Some(Bounds(Null, Num(5)))
    ensures RangeCaption(Bounds(Null, Num(5))) == "Avsnitt null-5"
    ensures AnyCovers([RArr([Null, Num(5)])], 3) && !AnyCovers([RObj(Null, Num(5))], 3)
  {
    assert Holds(GArr([Null, Num(5)]), 3);
    assert IntToString(5) == "5";
    assert Covers(RArr([Null, Num(5)]), 3);
  }

  // ---------------------------------------------------------------------------------------------
  // The message

  /**
   * The caption of a group range: `len = to - from + 1` with the ends read as numbers (NaN, equal
   * to nothing, when one is `undefined`), and the ends shown as JavaScript writes them.
   */
  function RangeCaption(b: Bounds): string {
    var len := if AsNumber(b.from).Some? && AsNumber(b.to).Some?
      then Some(AsNumber(b.to).value - AsNumber(b.from).value + 1) else None;
    if len == Some(1) then "Avsnitt " + EndText(b.from)
    else if len == Some(2) then "Avsnitt " + EndText(b.from) + " og " + EndText(b.to)
    else "Avsnitt " + EndText(b.from) + "-" + EndText(b.to)
  }

  /** With numeric ends the caption is the from-to label. */
  lemma RangeCaptionOfNumbers(from: int, to: int)
    ensures RangeCaption(Bounds(Num(from), Num(to))) == FromToLabel(from, to)
  {
  }

  /** The label of the active slot: its group range, or the slot's own one-based number. */
  function ParagraphLabel(i: int, grp: Option<Bounds>): string {
    match grp
    case Some(b) => RangeCaption(b)
    case None => "Avsnitt " + IntToString(i + 1)
  }

  /** What the overlay reads from the page and from the host's hooks. */
  datatype Page = Page(
    x: Option<int>,
    slots: seq<Rect>,
    intro: Option<Rect>, review: Option<Rect>, outro: Option<Rect>,
    groups: Option<seq<GroupItem>>, groupOverlay: Option<(int, int)>,
    readList: Option<seq<int>>, frames: Option<seq<RangeItem>>, images: Option<seq<RangeItem>>,
    domRead: set<int>, domFrame: set<int>, domImage: set<int>)

  /** `currentMessage()` */
  function CurrentMessage(p: Page): string {
    var k := AtWhichFrame(p.intro, p.review, p.outro, p.x);
    if k.Some? then FrameText(k.value)
    else
      var i := ActiveParaIndex(p.slots, p.x);
      if i < 0 then ""
      else
        var caption := ParagraphLabel(i, GroupForIndex(p.groups, p.groupOverlay, i));
        var mods := Modifiers(IsReadPara(p.readList, p.domRead, i), HasRangeFlag(p.frames, p.domFrame, i),
                              HasRangeFlag(p.images, p.domImage, i));
        caption + JoinModifiers(mods)
  }

  /** A frame under the cursor decides the message, whatever the slots say. */
  lemma FrameTakesPrecedence(p: Page)
    requires AtWhichFrame(p.intro, p.review, p.outro, p.x).Some?
    ensures CurrentMessage(p) == FrameText(AtWhichFrame(p.intro, p.review, p.outro, p.x).value)
    ensures p.x.Some?
  {
  }

  /** With no frame and no slot under or before the cursor the message is empty. */
  lemma NoActiveSlotNoMessage(p: Page)
    requires AtWhichFrame(p.intro, p.review, p.outro, p.x).None?
    ensures CurrentMessage(p) == "" <==> ActiveParaIndex(p.slots, p.x) < 0
  {
    var i := ActiveParaIndex(p.slots, p.x);
    if i >= 0 {
      var m := CurrentMessage(p);
      var caption := ParagraphLabel(i, GroupForIndex(p.groups, p.groupOverlay, i));
      assert m[..|caption|] == caption;
      ParagraphLabelNonEmpty(i, GroupForIndex(p.groups, p.groupOverlay, i));
    }
  }

  lemma ParagraphLabelNonEmpty(i: int, grp: Option<Bounds>)
    ensures |ParagraphLabel(i, grp)| > 8 && ParagraphLabel(i, grp)[..8] == "Avsnitt "
  {
    match grp {
      case Some(b) => RangeCaptionHead(b);
      case None => HeadOf(IntToString(i + 1));
    }
  }

  lemma RangeCaptionHead(b: Bounds)
    ensures |RangeCaption(b)| > 8 && RangeCaption(b)[..8] == "Avsnitt "
  {
    var a, z := EndText(b.from), EndText(b.to);
    assert a != [] by {
      if b.from.Num? {
        assert IntToString(b.from.n) != [];
      }
    }
    var cap := RangeCaption(b);
    if cap == "Avsnitt " + a {
      HeadOf(a);
    } else if cap == "Avsnitt " + a + " og " + z {
      assert cap == "Avsnitt " + (a + " og " + z);
      HeadOf(a + " og " + z);
    } else {
      assert cap == "Avsnitt " + (a + "-" + z);
      HeadOf(a + "-" + z);
    }
  }

  lemma HeadOf(rest: string)
    requires rest != []
    ensures |"Avsnitt " + rest| > 8 && ("Avsnitt " + rest)[..8] == "Avsnitt "
  {
  }

  /** A frame text never starts like a paragraph message, so the two kinds cannot be confused. */
  lemma FrameTextsAreNotParagraphs(k: FrameKey, i: int, grp: Option<Bounds>, mods: seq<string>)
    ensures FrameText(k) != ParagraphLabel(i, grp) + JoinModifiers(mods)
  {
    ParagraphLabelNonEmpty(i, grp);
    var caption := ParagraphLabel(i, grp);
    assert caption[3] == "Avsnitt "[3] == 'n';
    FrameTextFourth(k);
  }

  lemma FrameTextFourth(k: FrameKey)
    ensures |FrameText(k)| > 3 && FrameText(k)[3] != 'n'
  {
  }

  /** All three modifiers: a comma list in the fixed order with "og" before Bilde. */
  lemma AllModifiers()
    ensures JoinModifiers(Modifiers(true, true, true)) == " + Les-skriftsted, Ramme og Bilde"
  {
    var mods := Modifiers(true, true, true);
    assert mods == [mods[0], mods[1], mods[2]];
    JoinModifiersThree(mods[0], mods[1], mods[2]);
  }

  /**
   * The overlay's message for a slot with no group range: "Avsnitt" and the one-based slot
   * number, then the modifiers in their fixed order.
   */
  lemma UngroupedSlotMessage(p: Page, i: nat)
    requires AtWhichFrame(p.intro, p.review, p.outro, p.x).None?
    requires ActiveParaIndex(p.slots, p.x) == i
    requires GroupForIndex(p.groups, p.groupOverlay, i).None?
    ensures exists mods :: (CurrentMessage(p) == "Avsnitt " + NatToString(i + 1) + JoinModifiers(mods)
      && |mods| <= 3 && forall m :: m in mods ==> m in ["Les-skriftsted", "Ramme", "Bilde"])
  {
    var mods := Modifiers(IsReadPara(p.readList, p.domRead, i), HasRangeFlag(p.frames, p.domFrame, i),
                          HasRangeFlag(p.images, p.domImage, i));
    assert CurrentMessage(p) == "Avsnitt " + NatToString(i + 1) + JoinModifiers(mods);
  }
}
