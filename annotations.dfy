/**
 * Paragraph annotations: which paragraphs carry a frame ("Ramme") or a scripture reading
 * ("Les-skriftsted"), each optionally ranked by a letter (a = 1, b = 2, ...); how the two
 * modifiers of a paragraph or a group are put in order; and the pins drawn over a slot.
 */
module Annotations {
  import opened Js

  /** An entry of an item's `frames` or `reads` list: a JSON number, or anything else through its string form. */
  datatype Entry = Num(n: int) | Text(s: string)

  /** What `parseAnnoFlexible` returns for an entry it accepts. */
  datatype Anno = Anno(para: int, order: Option<char>)

  /** A flag that is present, with its rank when it has one. */
  datatype Flag = Flag(ordIdx: Option<int>)

  /** The annotation of one paragraph; `None` is the source's `null`. */
  datatype Ann = Ann(frame: Option<Flag>, read: Option<Flag>)

  /**
   * `toLowerCase` as far as the pattern `^(\d+)([a-z])?$` can tell: the ASCII capitals and the
   * Kelvin sign become letters a-z; every other character is left alone here. JavaScript turns
   * any other character into text that cannot complete a match: either no digit, letter a-z or
   * white space, or (for U+0130) "i" followed by U+0307, which fails the pattern just the same.
   */
  function LowerChar(c: char): (l: char)
    ensures 'a' <= l <= 'z' <==> ('a' <= c <= 'z' || 'A' <= c <= 'Z' || c == '\U{212A}')
    ensures IsDigit(l) <==> IsDigit(c)
    ensures IsSpace(l) <==> IsSpace(c)
  {
    if 'A' <= c <= 'Z' then (c as int + 32) as char
    else if c == '\U{212A}' then 'k'
    else c
  }

  function Lower(s: string): (r: string)
    ensures |r| == |s|
  {
    seq(|s|, k requires 0 <= k < |s| => LowerChar(s[k]))
  }

  /** The pattern `^(\d+)([a-z])?$`. */
  predicate AnnoShape(t: string) {
    (|t| >= 1 && AllDigits(t))
    || (|t| >= 2 && AllDigits(t[..|t| - 1]) && 'a' <= t[|t| - 1] <= 'z')
  }

  /** Matching `^(\d+)([a-z])?$` against an already lower-cased and trimmed text. */
  function MatchAnno(t: string): (r: Option<Anno>)
    ensures r.Some? <==> AnnoShape(t)
    ensures r.Some? ==> r.value.para >= 0
    ensures r.Some? && r.value.order.Some? ==> 'a' <= r.value.order.value <= 'z'
  {
    var k := DigitPrefix(t);
    if k == 0 then None
    else if k == |t| then
      assert t[..k] == t;
      Some(Anno(DigitsValue(t), None))
    else if k == |t| - 1 && 'a' <= t[k] <= 'z' then Some(Anno(DigitsValue(t[..k]), Some(t[k])))
    else None
  }

  /** `parseAnnoFlexible(entry)`: a number is taken as is; text is lower-cased, trimmed and matched. */
  function ParseAnno(e: Entry): (r: Option<Anno>)
    ensures e.Num? ==> r == Some(Anno(e.n, None))
    ensures e.Text? ==> (r.Some? <==> AnnoShape(Trim(Lower(e.s))))
    ensures e.Text? && r.Some? ==> r.value.para >= 0
    ensures r.Some? && r.value.order.Some? ==> 'a' <= r.value.order.value <= 'z'
  {
    match e
    case Num(n) => Some(Anno(n, None))
    case Text(s) => MatchAnno(Trim(Lower(s)))
  }

  lemma MatchNumeral(n: nat, tail: string)
    requires tail == [] || (|tail| == 1 && 'a' <= tail[0] <= 'z')
    ensures MatchAnno(NatToString(n) + tail) == Some(Anno(n, if tail == [] then None else Some(tail[0])))
  {
    var d := NatToString(n);
    DigitPrefixOf(d, tail);
    DigitsValueOfNat(n);
    if tail == [] {
      assert d + tail == d;
    } else {
      assert (d + tail)[..|d|] == d;
      assert (d + tail)[|d|] == tail[0];
    }
  }

  lemma LowerNumeral(n: nat, tail: string)
    ensures Lower(NatToString(n) + tail) == NatToString(n) + Lower(tail)
  {
    var d := NatToString(n);
    forall k | 0 <= k < |d|
      ensures Lower(d + tail)[k] == d[k]
    {
      assert IsDigit(d[k]);
    }
    assert Lower(d + tail)[|d|..] == Lower(tail);
  }

  /** A paragraph number followed by a letter of either case reads back as that number and the small letter. */
  lemma ParseAnnoOfText(n: nat, c: char)
    requires 'a' <= c <= 'z' || 'A' <= c <= 'Z'
    ensures ParseAnno(Text(NatToString(n) + [c])) == Some(Anno(n, Some(LowerChar(c))))
  {
    var d := NatToString(n);
    var l := LowerChar(c);
    LowerNumeral(n, [c]);
    assert Lower([c]) == [l];
    TrimIdentity(d + [l]);
    MatchNumeral(n, [l]);
  }

  /** A bare paragraph number reads back as that number, unranked. */
  lemma ParseAnnoOfNumeral(n: nat)
    ensures ParseAnno(Text(NatToString(n))) == Some(Anno(n, None))
  {
    var d := NatToString(n);
    LowerDigits(d);
    TrimIdentity(d);
    MatchNumeral(n, []);
    assert d + [] == d;
  }

  lemma LowerDigits(s: string)
    requires AllDigits(s)
    ensures Lower(s) == s
  {
    forall k | 0 <= k < |s|
      ensures Lower(s)[k] == s[k]
    {
      assert IsDigit(s[k]);
    }
  }

  /** Upper case and surrounding white space do not matter. */
  lemma ParseAnnoPaddedExample(s: string)
    requires s == " 12B "
    ensures ParseAnno(Text(s)) == Some(Anno(12, Some('b')))
  {
    var core := NatToString(12) + "b";
    assert core == "12b";
    assert Lower(s) == " " + core + " ";
    TrimPadded(" ", core, " ");
    MatchNumeral(12, "b");
  }

  /** Anything after the letter, or a letter alone, is refused. */
  lemma ParseAnnoRefusesExamples(s: string, t: string)
    requires s == "3c4" && t == "b"
    ensures ParseAnno(Text(s)) == None
    ensures ParseAnno(Text(t)) == None
  {
    assert Lower(s) == s;
    TrimIdentity(s);
    assert s[..2] == "3c";
    assert !IsDigit(s[1]);
    assert !AnnoShape(s);
    assert Lower(t) == t;
    TrimIdentity(t);
  }

  /** The rank of a letter: `charCodeAt(0) - 96`, so a = 1, b = 2, c = 3. */
  function Ordinal(o: Option<char>): (r: Option<int>)
    ensures o.Some? && 'a' <= o.value <= 'z' ==> r.Some? && 1 <= r.value <= 26
    ensures o.None? <==> r.None?
  {
    if o.Some? then Some(o.value as int - 96) else None
  }

  /** The entries of a list that `parseAnnoFlexible` accepts, in order. */
  function Accepted(es: seq<Entry>): (xs: seq<Anno>)
    ensures |xs| <= |es|
    ensures forall k :: 0 <= k < |xs| && xs[k].order.Some? ==> 'a' <= xs[k].order.value <= 'z'
    decreases |es|
  {
    if es == [] then []
    else
      var rest := Accepted(es[..|es| - 1]);
      match ParseAnno(es[|es| - 1])
      case Some(x) => rest + [x]
      case None => rest
  }

  /** Legacy read paragraphs: no rank. */
  function Legacy(ps: seq<int>): (xs: seq<Anno>)
    ensures |xs| == |ps|
  {
    seq(|ps|, k requires 0 <= k < |ps| => Anno(ps[k], None))
  }

  /** The frame entries `buildAnnotations` applies (`None`: not an array). */
  function FrameEntries(frameList: Option<seq<Entry>>): seq<Anno> {
    if frameList.Some? then Accepted(frameList.value) else []
  }

  /** The read entries `buildAnnotations` applies: the `reads` list unless it is missing or empty, else the legacy list. */
  function ReadEntries(readList: Option<seq<Entry>>, legacy: Option<seq<int>>): seq<Anno> {
    if readList.Some? && |readList.value| > 0 then Accepted(readList.value)
    else if legacy.Some? then Legacy(legacy.value)
    else []
  }

  /** The frame (`isFrame`) or read flag of paragraph `p`, `None` when it has none. */
  function FlagOf(ann: map<int, Ann>, p: int, isFrame: bool): Option<Flag> {
    if p !in ann then None else if isFrame then ann[p].frame else ann[p].read
  }

  /** `upsert(p, key, o)`: create the paragraph's record if needed, then set one flag. */
  function Upsert(ann: map<int, Ann>, x: Anno, isFrame: bool): map<int, Ann> {
    var a := if x.para in ann then ann[x.para] else Ann(None, None);
    var f := Some(Flag(Ordinal(x.order)));
    ann[x.para := if isFrame then a.(frame := f) else a.(read := f)]
  }

  function UpsertAll(ann: map<int, Ann>, xs: seq<Anno>, isFrame: bool): map<int, Ann>
    decreases |xs|
  {
    if xs == [] then ann else Upsert(UpsertAll(ann, xs[..|xs| - 1], isFrame), xs[|xs| - 1], isFrame)
  }

  /** The annotation map `buildAnnotations(frameList, readList, legacyReadParas)` returns. */
  function Annotations(frameList: Option<seq<Entry>>, readList: Option<seq<Entry>>, legacy: Option<seq<int>>): map<int, Ann> {
    UpsertAll(UpsertAll(map[], FrameEntries(frameList), true), ReadEntries(readList, legacy), false)
  }

  /** The flag the last entry for `p` sets, if any entry names `p`. */
  function LastFlag(xs: seq<Anno>, p: int): (f: Option<Flag>)
    ensures f.Some? <==> exists k :: 0 <= k < |xs| && xs[k].para == p
    decreases |xs|
  {
    if xs == [] then None
    else if xs[|xs| - 1].para == p then Some(Flag(Ordinal(xs[|xs| - 1].order)))
    else
      var f := LastFlag(xs[..|xs| - 1], p);
      assert forall k :: 0 <= k < |xs| - 1 ==> xs[..|xs| - 1][k] == xs[k];
      f
  }

  /** Upserting a list of entries: the last entry naming `p` decides its flag; the other flag is untouched. */
  lemma {:induction false} UpsertAllAt(ann: map<int, Ann>, xs: seq<Anno>, isFrame: bool, p: int)
    ensures p in UpsertAll(ann, xs, isFrame) <==> p in ann || LastFlag(xs, p).Some?
    ensures FlagOf(UpsertAll(ann, xs, isFrame), p, isFrame)
      == if LastFlag(xs, p).Some? then LastFlag(xs, p) else FlagOf(ann, p, isFrame)
    ensures FlagOf(UpsertAll(ann, xs, isFrame), p, !isFrame) == FlagOf(ann, p, !isFrame)
    decreases |xs|
  {
    if xs != [] {
      UpsertAllAt(ann, xs[..|xs| - 1], isFrame, p);
    }
  }

  lemma LegacyFlag(ps: seq<int>, p: int)
    ensures LastFlag(Legacy(ps), p) == if p in ps then Some(Flag(None)) else None
  {
    var xs := Legacy(ps);
    if p in ps {
      var f := LastFlag(xs, p);
      var k :| 0 <= k < |ps| && ps[k] == p;
      assert xs[k].para == p;
      LegacyFlagRank(ps, p);
    } else {
      assert forall k :: 0 <= k < |xs| ==> xs[k].para != p;
    }
  }

  lemma {:induction false} LegacyFlagRank(ps: seq<int>, p: int)
    ensures LastFlag(Legacy(ps), p).Some? ==> LastFlag(Legacy(ps), p) == Some(Flag(None))
    decreases |ps|
  {
    if ps != [] {
      assert Legacy(ps)[..|ps| - 1] == Legacy(ps[..|ps| - 1]);
      LegacyFlagRank(ps[..|ps| - 1], p);
    }
  }

  /**
   * What `buildAnnotations` records for paragraph `p`: a record exactly when some accepted frame
   * or read entry names it; the frame flag from the last frame entry; the read flag from the
   * last `reads` entry, or, only when `reads` is missing or empty, from the legacy list, unranked.
   */
  lemma AnnotationsAt(frameList: Option<seq<Entry>>, readList: Option<seq<Entry>>, legacy: Option<seq<int>>, p: int)
    ensures var ann := Annotations(frameList, readList, legacy);
      && (p in ann <==> LastFlag(FrameEntries(frameList), p).Some? || LastFlag(ReadEntries(readList, legacy), p).Some?)
      && (p in ann ==> ann[p] == Ann(LastFlag(FrameEntries(frameList), p), LastFlag(ReadEntries(readList, legacy), p)))
      && (readList.Some? && |readList.value| > 0 ==> FlagOf(ann, p, false) == LastFlag(Accepted(readList.value), p))
      && (!(readList.Some? && |readList.value| > 0) && legacy.Some? ==>
            FlagOf(ann, p, false) == if p in legacy.value then Some(Flag(None)) else None)
      && (!(readList.Some? && |readList.value| > 0) && legacy.None? ==> FlagOf(ann, p, false) == None)
  {
    var fs := FrameEntries(frameList);
    var rs := ReadEntries(readList, legacy);
    UpsertAllAt(map[], fs, true, p);
    UpsertAllAt(UpsertAll(map[], fs, true), rs, false, p);
    if legacy.Some? {
      LegacyFlag(legacy.value, p);
    }
  }

  /** Ranks that come from letters lie in 1..26. */
  lemma {:induction false} AcceptedRanks(xs: seq<Anno>, p: int)
    requires forall k :: 0 <= k < |xs| && xs[k].order.Some? ==> 'a' <= xs[k].order.value <= 'z'
    ensures LastFlag(xs, p).Some? && LastFlag(xs, p).value.ordIdx.Some? ==> 1 <= LastFlag(xs, p).value.ordIdx.value <= 26
    decreases |xs|
  {
    if xs != [] && xs[|xs| - 1].para != p {
      AcceptedRanks(xs[..|xs| - 1], p);
    }
  }

  /** Every rank `buildAnnotations` records is between 1 and 26. */
  lemma BuiltRanksAreLetters(frameList: Option<seq<Entry>>, readList: Option<seq<Entry>>, legacy: Option<seq<int>>, p: int, isFrame: bool)
    ensures var f := FlagOf(Annotations(frameList, readList, legacy), p, isFrame);
      f.Some? && f.value.ordIdx.Some? ==> 1 <= f.value.ordIdx.value <= 26
  {
    AnnotationsAt(frameList, readList, legacy, p);
    AcceptedRanks(FrameEntries(frameList), p);
    var rs := ReadEntries(readList, legacy);
    if readList.Some? && |readList.value| > 0 {
      AcceptedRanks(rs, p);
    } else if legacy.Some? {
      LegacyFlag(legacy.value, p);
    }
  }

  /** `list.map(parseAnnoFlexible).filter(Boolean).forEach(x => upsert(x.para, key, x.order))` */
  method UpsertEntries(start: map<int, Ann>, es: seq<Entry>, isFrame: bool) returns (ann: map<int, Ann>)
    ensures ann == UpsertAll(start, Accepted(es), isFrame)
  {
    ann := start;
    for i := 0 to |es|
      invariant ann == UpsertAll(start, Accepted(es[..i]), isFrame)
    {
      AcceptedStep(es, i);
      var x := ParseAnno(es[i]);
      if x.Some? {
        UpsertAllSnoc(start, Accepted(es[..i]), x.value, isFrame);
        ann := Upsert(ann, x.value, isFrame);
        assert Accepted(es[..i + 1]) == Accepted(es[..i]) + [x.value];
        assert ann == UpsertAll(start, Accepted(es[..i + 1]), isFrame);
      } else {
        assert Accepted(es[..i]) + [] == Accepted(es[..i]);
        assert Accepted(es[..i + 1]) == Accepted(es[..i]);
      }
    }
    assert es[..|es|] == es;
  }

  lemma UpsertAllSnoc(start: map<int, Ann>, xs: seq<Anno>, x: Anno, isFrame: bool)
    ensures UpsertAll(start, xs + [x], isFrame) == Upsert(UpsertAll(start, xs, isFrame), x, isFrame)
  {
    assert (xs + [x])[..|xs|] == xs;
  }

  lemma AcceptedStep(es: seq<Entry>, i: int)
    requires 0 <= i < |es|
    ensures Accepted(es[..i + 1]) == Accepted(es[..i]) + (if ParseAnno(es[i]).Some? then [ParseAnno(es[i]).value] else [])
  {
    assert es[..i + 1][..i] == es[..i];
  }

  /** `legacyReadParas.forEach(p => upsert(Number(p), 'read', null))` */
  method UpsertLegacy(start: map<int, Ann>, ps: seq<int>) returns (ann: map<int, Ann>)
    ensures ann == UpsertAll(start, Legacy(ps), false)
  {
    ann := start;
    for i := 0 to |ps|
      invariant ann == UpsertAll(start, Legacy(ps[..i]), false)
    {
      assert Legacy(ps[..i + 1]) == Legacy(ps[..i]) + [Anno(ps[i], None)];
      UpsertAllSnoc(start, Legacy(ps[..i]), Anno(ps[i], None), false);
      ann := Upsert(ann, Anno(ps[i], None), false);
    }
    assert ps[..|ps|] == ps;
  }

  /** `buildAnnotations`: upsert every accepted frame entry, then every read entry or else every legacy paragraph. */
  method BuildAnnotations(frameList: Option<seq<Entry>>, readList: Option<seq<Entry>>, legacy: Option<seq<int>>)
    returns (ann: map<int, Ann>)
    ensures ann == Annotations(frameList, readList, legacy)
  {
    ann := map[];
    if frameList.Some? {
      ann := UpsertEntries(ann, frameList.value, true);
    }
    if readList.Some? && |readList.value| > 0 {
      ann := UpsertEntries(ann, readList.value, false);
    } else if legacy.Some? {
      ann := UpsertLegacy(ann, legacy.value);
    }
  }

  // ---------------------------------------------------------------------------------------------
  // Modifier order for a paragraph or a group (`orderExtrasForParas`)

  const Ramme: string := "Ramme"
  const LesSkriftsted: string := "Les-skriftsted"

  /** The stand-in `1e9` for a missing minimum rank. */
  const NoRank: int := 1000000000

  function Rank(m: Option<int>): int {
    if m.Some? then m.value else NoRank
  }

  /** Some member of `paras` has the flag. */
  predicate Flagged(paras: seq<int>, ann: map<int, Ann>, isFrame: bool) {
    exists k :: 0 <= k < |paras| && FlagOf(ann, paras[k], isFrame).Some?
  }

  function RankOf(ann: map<int, Ann>, p: int, isFrame: bool): Option<int> {
    var f := FlagOf(ann, p, isFrame);
    if f.Some? then f.value.ordIdx else None
  }

  /** The smaller of a running minimum and one more rank; an absent rank changes nothing. */
  function MinWith(m: Option<int>, r: Option<int>): (n: Option<int>)
    ensures n.Some? <==> m.Some? || r.Some?
    ensures n == m || n == r
    ensures m.Some? && n.Some? ==> n.value <= m.value
    ensures r.Some? && n.Some? ==> n.value <= r.value
  {
    if r.None? then m
    else if m.None? || r.value < m.value then r
    else m
  }

  /** The least rank of the flag over the members, `None` when no member's flag carries a rank. */
  function MinRank(paras: seq<int>, ann: map<int, Ann>, isFrame: bool): (m: Option<int>)
    ensures m.Some? ==> exists k :: 0 <= k < |paras| && RankOf(ann, paras[k], isFrame) == m
    ensures forall k :: 0 <= k < |paras| && RankOf(ann, paras[k], isFrame).Some? ==>
      m.Some? && m.value <= RankOf(ann, paras[k], isFrame).value
    decreases |paras|
  {
    if paras == [] then None
    else
      var init := paras[..|paras| - 1];
      var m := MinRank(init, ann, isFrame);
      var r := RankOf(ann, paras[|paras| - 1], isFrame);
      assert forall k :: 0 <= k < |init| ==> init[k] == paras[k];
      MinWith(m, r)
  }

  /** The tail of `orderExtrasForParas`, once the members have been scanned. */
  function ExtrasOf(hasF: bool, hasR: bool, minF: Option<int>, minR: Option<int>): seq<string> {
    if !hasF && !hasR then []
    else if hasF && hasR then
      if minF.Some? || minR.Some? then
        if Rank(minF) <= Rank(minR) then [Ramme, LesSkriftsted] else [LesSkriftsted, Ramme]
      else [Ramme, LesSkriftsted]
    else if hasF then [Ramme]
    else [LesSkriftsted]
  }

  /**
   * The modifiers of a paragraph or group: a name exactly when some member carries that flag,
   * never more than two and never the same twice; with both, Ramme comes first exactly when the
   * least frame rank is at most the least read rank, an absent rank counting as `1e9`.
   */
  function Extras(paras: seq<int>, ann: map<int, Ann>): (r: seq<string>)
    ensures r == [] <==> !Flagged(paras, ann, true) && !Flagged(paras, ann, false)
    ensures Ramme in r <==> Flagged(paras, ann, true)
    ensures LesSkriftsted in r <==> Flagged(paras, ann, false)
    ensures |r| <= 2 && (|r| == 2 ==> r[0] != r[1])
    ensures |r| == 2 ==> (r[0] == Ramme <==> Rank(MinRank(paras, ann, true)) <= Rank(MinRank(paras, ann, false)))
  {
    ExtrasOf(Flagged(paras, ann, true), Flagged(paras, ann, false), MinRank(paras, ann, true), MinRank(paras, ann, false))
  }

  /** `if (a.frame) { hasF = true; if (o != null) minF = Math.min(minF, o) }`, and the same for reads. */
  method Absorb(has: bool, min: Option<int>, f: Option<Flag>) returns (has': bool, min': Option<int>)
    ensures has' == (has || f.Some?)
    ensures min' == MinWith(min, if f.Some? then f.value.ordIdx else None)
  {
    has', min' := has, min;
    if f.Some? {
      has' := true;
      var o := f.value.ordIdx;
      if o.Some? {
        min' := if min.None? || o.value < min.value then o else min;
      }
    }
  }

  /** One more member: its flag joins the "some member" test and its rank the minimum. */
  lemma ScanStep(xs: seq<int>, p: int, ann: map<int, Ann>, isFrame: bool)
    ensures Flagged(xs + [p], ann, isFrame) <==> Flagged(xs, ann, isFrame) || FlagOf(ann, p, isFrame).Some?
    ensures MinRank(xs + [p], ann, isFrame) == MinWith(MinRank(xs, ann, isFrame), RankOf(ann, p, isFrame))
  {
    var ys := xs + [p];
    assert ys[..|ys| - 1] == xs && ys[|ys| - 1] == p;
    assert forall k :: 0 <= k < |xs| ==> ys[k] == xs[k];
    if FlagOf(ann, p, isFrame).Some? {
      assert FlagOf(ann, ys[|xs|], isFrame).Some?;
    }
  }

  /** `orderExtrasForParas(paras, ann)`: one pass collecting `hasF`, `hasR`, `minF` and `minR`. */
  method OrderExtrasForParas(paras: seq<int>, ann: map<int, Ann>) returns (extras: seq<string>)
    ensures extras == Extras(paras, ann)
  {
    var hasF, hasR := false, false;
    var minF: Option<int>, minR: Option<int> := None, None;
    for i := 0 to |paras|
      invariant hasF == Flagged(paras[..i], ann, true)
      invariant hasR == Flagged(paras[..i], ann, false)
      invariant minF == MinRank(paras[..i], ann, true)
      invariant minR == MinRank(paras[..i], ann, false)
    {
      assert paras[..i + 1] == paras[..i] + [paras[i]];
      ScanStep(paras[..i], paras[i], ann, true);
      ScanStep(paras[..i], paras[i], ann, false);
      var p := paras[i];
      if p in ann {
        var a := ann[p];
        hasF, minF := Absorb(hasF, minF, a.frame);
        hasR, minR := Absorb(hasR, minR, a.read);
      }
    }
    assert paras[..|paras|] == paras;
    extras := ExtrasOf(hasF, hasR, minF, minR);
  }

  /** With both flags on one paragraph and no ranks at all, Ramme comes first. */
  lemma UnrankedPutsRammeFirst(p: int, ann: map<int, Ann>)
    requires p in ann && ann[p] == Ann(Some(Flag(None)), Some(Flag(None)))
    ensures Extras([p], ann) == [Ramme, LesSkriftsted]
  {
    SlotPinsShape(Some(ann[p]), VtPinSpacing);
    assert FlagOf(ann, [p][0], true).Some? && FlagOf(ann, [p][0], false).Some?;
  }

  /** Over a group, any member's flag counts and the least rank over all members decides. */
  lemma GroupExtrasExample(ann: map<int, Ann>)
    requires ann == map[4 := Ann(Some(Flag(Some(3))), None), 5 := Ann(Some(Flag(None)), Some(Flag(Some(2))))]
    ensures Extras([4, 5], ann) == [LesSkriftsted, Ramme]
    ensures Extras([4], ann) == [Ramme]
  {
    assert FlagOf(ann, [4, 5][0], true).Some?;
    assert FlagOf(ann, [4, 5][1], false).Some?;
    assert RankOf(ann, [4, 5][0], true) == Some(3);
    assert RankOf(ann, [4, 5][1], false) == Some(2);
    assert FlagOf(ann, [4][0], true).Some?;
  }

  // ---------------------------------------------------------------------------------------------
  // Modifier order for one paragraph in the index addons (`__VT_ORD`, `__VT_FRAME_SET`, `__VT_READ_SET2`)

  /** An entry of the ordinal map: the frame and read ranks, either possibly missing. */
  datatype Ord = Ord(frame: Option<int>, read: Option<int>)

  /** `f = o.frame ?? 1` and `r = o.read ?? 2`, with `o = ord.get(p) || {}`. */
  function FrameRank(ord: map<int, Ord>, p: int): int {
    if p in ord && ord[p].frame.Some? then ord[p].frame.value else 1
  }

  function ReadRank(ord: map<int, Ord>, p: int): int {
    if p in ord && ord[p].read.Some? then ord[p].read.value else 2
  }

  /** The modifiers a click on a single paragraph appends (index-addon): Ramme first exactly when `f <= r`. */
  function SingleExtras(p: int, frameSet: set<int>, readSet: set<int>, ord: map<int, Ord>): (r: seq<string>)
    ensures Ramme in r <==> p in frameSet
    ensures LesSkriftsted in r <==> p in readSet
    ensures |r| <= 2 && (|r| == 2 ==> r[0] != r[1])
    ensures |r| == 2 ==> (r[0] == Ramme <==> FrameRank(ord, p) <= ReadRank(ord, p))
  {
    var hasF, hasR := p in frameSet, p in readSet;
    if hasF && hasR then
      if FrameRank(ord, p) <= ReadRank(ord, p) then [Ramme, LesSkriftsted] else [LesSkriftsted, Ramme]
    else if hasF then [Ramme]
    else if hasR then [LesSkriftsted]
    else []
  }

  /** The same flags seen as one paragraph's annotation: sets for presence, the ordinal map for ranks. */
  function SetsAsAnn(p: int, frameSet: set<int>, readSet: set<int>, ord: map<int, Ord>): (a: Option<Ann>)
    ensures a.None? <==> p !in frameSet && p !in readSet
  {
    if p !in frameSet && p !in readSet then None
    else
      var o := if p in ord then ord[p] else Ord(None, None);
      Some(Ann(if p in frameSet then Some(Flag(o.frame)) else None,
               if p in readSet then Some(Flag(o.read)) else None))
  }

  // ---------------------------------------------------------------------------------------------
  // Pins

  datatype PinKind = FramePin | ReadPin

  /** A pin before it is placed: its kind and its sort key. */
  datatype Pin = Pin(kind: PinKind, order: int)

  /** A placed pin: its kind and its horizontal offset from the slot's centre, in pixels. */
  datatype Placed = Placed(kind: PinKind, left: real)

  /** The vt addons space pins 18 px apart. */
  const VtPinSpacing: int := 18

  /** The index addons space pins 14 px apart. */
  const IndexPinGap: int := 14

  /** `flag.ordIdx ?? fallback` */
  function PinRank(f: Flag, fallback: int): int {
    if f.ordIdx.Some? then f.ordIdx.value else fallback
  }

  /** The pins of a paragraph before sorting: a frame pin ranked 1 by default, then a read pin ranked 2 by default. */
  function PinItems(a: Option<Ann>): (items: seq<Pin>)
    ensures |items| == (if a.Some? && a.value.frame.Some? then 1 else 0) + (if a.Some? && a.value.read.Some? then 1 else 0)
    ensures a.Some? && a.value.frame.Some? ==> items[0] == Pin(FramePin, PinRank(a.value.frame.value, 1))
    ensures a.Some? && a.value.read.Some? ==> items[|items| - 1] == Pin(ReadPin, PinRank(a.value.read.value, 2))
  {
    if a.None? then []
    else
      var fs := if a.value.frame.Some? then [Pin(FramePin, PinRank(a.value.frame.value, 1))] else [];
      var rs := if a.value.read.Some? then [Pin(ReadPin, PinRank(a.value.read.value, 2))] else [];
      fs + rs
  }

  /** `items.sort((x, y) => x.order - y.order)` on at most two pins; the sort is stable. */
  function SortByOrder(items: seq<Pin>): (r: seq<Pin>)
    requires |items| <= 2
    ensures multiset(r) == multiset(items)
    ensures forall i, j :: 0 <= i < j < |r| ==> r[i].order <= r[j].order
    ensures |items| == 2 && items[0].order <= items[1].order ==> r == items
  {
    if |items| == 2 && items[1].order < items[0].order then
      assert items == [items[0]] + [items[1]];
      [items[1], items[0]]
    else items
  }

  /** `base + i*spacing` with `base = -((k-1)/2)*spacing`: the offset of the `i`-th of `k` pins. */
  function Offset(k: nat, i: nat, spacing: int): real {
    -(((k - 1) as real) / 2.0) * (spacing as real) + ((i * spacing) as real)
  }

  /** The offsets are symmetric about the slot's centre and `spacing` apart. */
  lemma OffsetsSymmetric(k: nat, i: nat, spacing: int)
    requires i < k
    ensures Offset(k, i, spacing) == -Offset(k, k - 1 - i, spacing)
    ensures i + 1 < k ==> Offset(k, i + 1, spacing) - Offset(k, i, spacing) == spacing as real
  {
    assert ((k - 1 - i) * spacing) as real == ((k - 1) as real) * (spacing as real) - ((i * spacing) as real);
    assert ((i + 1) * spacing) as real == ((i * spacing) as real) + (spacing as real);
  }

  /** One pin sits at the centre, two sit half a spacing either side of it. */
  lemma FewOffsets(spacing: int)
    ensures Offset(1, 0, spacing) == 0.0
    ensures Offset(2, 0, spacing) == -(spacing as real) / 2.0
    ensures Offset(2, 1, spacing) == (spacing as real) / 2.0
  {
  }

  function Place(items: seq<Pin>, spacing: int): (r: seq<Placed>)
    ensures |r| == |items|
  {
    seq(|items|, i requires 0 <= i < |items| => Placed(items[i].kind, Offset(|items|, i, spacing)))
  }

  /** The pins of one slot, sorted by rank and spread about the slot's centre. */
  function SlotPins(a: Option<Ann>, spacing: int): (r: seq<Placed>)
    ensures |r| == |PinItems(a)|
  {
    Place(SortByOrder(PinItems(a)), spacing)
  }

  /**
   * The pins of one slot: none without an annotation or a flag; a single pin at the centre; two
   * pins half a spacing either side of it, the read pin first exactly when its rank (default 2)
   * is below the frame pin's (default 1).
   */
  lemma SlotPinsShape(a: Option<Ann>, spacing: int)
    ensures var r := SlotPins(a, spacing);
      && (|r| == 1 ==> r == [Placed(PinItems(a)[0].kind, 0.0)])
      && (|r| == 2 ==> r == if PinItems(a)[1].order < PinItems(a)[0].order
            then [Placed(ReadPin, -(spacing as real) / 2.0), Placed(FramePin, (spacing as real) / 2.0)]
            else [Placed(FramePin, -(spacing as real) / 2.0), Placed(ReadPin, (spacing as real) / 2.0)])
  {
    FewOffsets(spacing);
  }

  /** The annotation of paragraph `p`, if it has one. */
  function AnnAt(ann: map<int, Ann>, p: int): (a: Option<Ann>)
    ensures a.Some? <==> p in ann
    ensures a.Some? ==> a.value == ann[p]
  {
    if p in ann then Some(ann[p]) else None
  }

  /**
   * `layoutPinsWithSpacing`: every slot loses its pins and gets those of its paragraph, so the
   * result does not depend on the pins it had before.
   */
  method LayoutPins(slots: array<seq<Placed>>, ann: map<int, Ann>, spacing: int)
    modifies slots
    ensures forall idx :: 0 <= idx < slots.Length ==> slots[idx] == SlotPins(AnnAt(ann, idx + 1), spacing)
  {
    for idx := 0 to slots.Length
      invariant forall j :: 0 <= j < idx ==> slots[j] == SlotPins(AnnAt(ann, j + 1), spacing)
    {
      var p := idx + 1;
      var pins: seq<Placed> := [];
      if p in ann {
        pins := SlotPins(Some(ann[p]), spacing);
      }
      NoAnnNoPins(ann, p, spacing);
      slots[idx] := pins;
    }
  }

  /** A paragraph without an annotation gets no pins. */
  lemma NoAnnNoPins(ann: map<int, Ann>, p: int, spacing: int)
    ensures p !in ann ==> SlotPins(AnnAt(ann, p), spacing) == []
  {
  }

  /** In the index addons a single paragraph's pins and its click message put the two modifiers in the same order. */
  lemma IndexPinsMatchMessage(p: int, frameSet: set<int>, readSet: set<int>, ord: map<int, Ord>)
    requires p in frameSet && p in readSet
    ensures var pins := SlotPins(SetsAsAnn(p, frameSet, readSet, ord), IndexPinGap);
      var extras := SingleExtras(p, frameSet, readSet, ord);
      |pins| == 2 && |extras| == 2 && (pins[0].kind == FramePin <==> extras[0] == Ramme)
  {
    SlotPinsShape(SetsAsAnn(p, frameSet, readSet, ord), IndexPinGap);
  }

  /**
   * In the vt addons the pins of a paragraph follow its ranks with defaults 1 (frame) and 2
   * (read), while its modifiers count a missing rank as `1e9`. With both ranks present the two
   * orders agree.
   */
  lemma VtPinsAndExtrasAgreeWhenRanked(p: int, ann: map<int, Ann>, f: int, r: int)
    requires p in ann && ann[p] == Ann(Some(Flag(Some(f))), Some(Flag(Some(r))))
    ensures var pins := SlotPins(Some(ann[p]), VtPinSpacing);
      |pins| == 2 && |Extras([p], ann)| == 2 && (pins[0].kind == FramePin <==> Extras([p], ann)[0] == Ramme)
  {
    SlotPinsShape(Some(ann[p]), VtPinSpacing);
    assert FlagOf(ann, [p][0], true).Some? && FlagOf(ann, [p][0], false).Some?;
    assert RankOf(ann, [p][0], true) == Some(f);
    assert RankOf(ann, [p][0], false) == Some(r);
  }

  /** A frame ranked `c` and an unranked read: the read pin comes first (3 > 2), yet the text puts Ramme first (3 <= 1e9). */
  lemma VtPinsAndExtrasDisagreeUnranked(p: int, ann: map<int, Ann>)
    requires p in ann && ann[p] == Ann(Some(Flag(Some(3))), Some(Flag(None)))
    ensures SlotPins(Some(ann[p]), VtPinSpacing)[0].kind == ReadPin
    ensures Extras([p], ann) == [Ramme, LesSkriftsted]
  {
    SlotPinsShape(Some(ann[p]), VtPinSpacing);
    assert FlagOf(ann, [p][0], true).Some? && FlagOf(ann, [p][0], false).Some?;
    assert RankOf(ann, [p][0], true) == Some(3);
  }
}
