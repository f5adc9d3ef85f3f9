/**
 * The texts shown in the message box: the full list of paragraphs (`buildMessageList`), the
 * message for a click on a slot (`bindSelectionMessage`, `buildMsgFor`), and the rewriting of a
 * player message "Avsnitt N..." into the label of N's group (`observeMessageAndNormalize`).
 */
module Messages {
  import opened Js
  import opened Groups
  import opened Tones
  import opened Labels
  import opened Annotations

  /** `label + " + " + extras.join(" og ")`, or the bare label without modifiers. */
  function WithExtras(caption: string, extras: seq<string>): string {
    if extras != [] then caption + " + " + Join(extras, " og ") else caption
  }

  // ---------------------------------------------------------------------------------------------
  // The full message list of vt_addon_1.54.js and vt_addon_1.57.js

  const EmDash: string := "\U{2014}"
  const LineBreak: string := "<br>"

  /** The line for a paragraph on its own: its label and its modifiers. */
  function SingleLine(p: int, ann: map<int, Ann>): string {
    WithExtras(RangeLabel([p]), Extras([p], ann))
  }

  /** A group's line is its label alone; a single paragraph's line carries its modifiers. */
  function UnitLine(u: Unit, ann: map<int, Ann>): string {
    match u
    case Grouped(g) => RangeLabel(g)
    case Single(p) => SingleLine(p, ann)
  }

  function UnitLines(us: seq<Unit>, ann: map<int, Ann>): (lines: seq<string>)
    ensures |lines| == |us|
    ensures forall k :: 0 <= k < |us| ==> lines[k] == UnitLine(us[k], ann)
    decreases |us|
  {
    if us == [] then [] else [UnitLine(us[0], ann)] + UnitLines(us[1..], ann)
  }

  /**
   * The message list for `n` slots: a dash when there are none, otherwise one line per unit of
   * the same scan the two-tone pass makes, joined with `<br>`.
   */
  function MessageList(n: nat, groups: seq<Group>, ann: map<int, Ann>): string {
    if n == 0 then EmDash else Join(UnitLines(Units(n, StartsOf(groups), 1), ann), LineBreak)
  }

  /**
   * `buildMessageList`. The scripts step past a group with `p = g[g.length - 1] + 1`; the loop
   * below takes that step wherever it moves forward and `p + 1` where it would not (see
   * `Tones.Next` and `Tones.AsWrittenLoopNeverEnds`).
   */
  method BuildMessageList(n: nat, groups: seq<Group>, ann: map<int, Ann>) returns (text: string)
    ensures text == MessageList(n, groups, ann)
  {
    if n == 0 {
      return EmDash;
    }
    var starts := StartsOf(groups);
    ghost var all := Units(n, starts, 1);
    var lines: seq<string> := [];
    var p := 1;
    while p <= n
      invariant UnitLines(all, ann) == lines + UnitLines(Units(n, starts, p), ann)
      decreases n + 1 - p
    {
      LinesStep(n, starts, p, ann);
      var line: string;
      var next: int;
      if p in starts {
        var g := starts[p];
        line := RangeLabel(g);
        var last := g[|g| - 1];
        next := if last >= p then last + 1 else p + 1;
      } else {
        var extras := OrderExtrasForParas([p], ann);
        if |extras| > 0 {
          line := RangeLabel([p]) + " + " + Join(extras, " og ");
        } else {
          line := RangeLabel([p]);
        }
        next := p + 1;
      }
      assert line == UnitLine(UnitAt(starts, p), ann) && next == Next(starts, p);
      ConcatAssoc(lines, [line], UnitLines(Units(n, starts, next), ann));
      lines := lines + [line];
      p := next;
    }
    assert UnitLines(Units(n, starts, p), ann) == [];
    assert lines + [] == lines;
    text := Join(lines, LineBreak);
  }

  lemma ConcatAssoc<T>(a: seq<T>, b: seq<T>, c: seq<T>)
    ensures a + (b + c) == (a + b) + c
  {
  }

  lemma LinesStep(n: nat, starts: map<int, Group>, p: int, ann: map<int, Ann>)
    requires p <= n
    ensures UnitLines(Units(n, starts, p), ann) == [UnitLine(UnitAt(starts, p), ann)] + UnitLines(Units(n, starts, Next(starts, p)), ann)
  {
    var rest := Units(n, starts, p);
    assert rest == [UnitAt(starts, p)] + Units(n, starts, Next(starts, p));
    assert rest[1..] == Units(n, starts, Next(starts, p));
  }

  /** With no groups the list has one line per paragraph 1..n, each with its own modifiers. */
  lemma NoGroupsOneLinePerParagraph(n: nat, ann: map<int, Ann>, k: int)
    requires 0 <= k < n
    ensures var lines := UnitLines(Units(n, StartsOf([]), 1), ann);
      k < |lines| && lines[k] == SingleLine(k + 1, ann)
  {
    assert StartsOf([]) == map[];
    UnitsNoGroups(n, 1, k);
  }

  /** With no groups the list has exactly n lines. */
  lemma {:induction false} NoGroupsLineCount(n: int, i: int)
    ensures |Units(n, map[], i)| == if i <= n then n + 1 - i else 0
    decreases n + 1 - i
  {
    if i <= n {
      NoGroupsLineCount(n, i + 1);
    }
  }

  /**
   * With groups that are runs of consecutive paragraphs, every paragraph 1..n is on one line,
   * and on one line only.
   */
  lemma ParagraphOnOneLine(n: nat, groups: seq<Group>, p: int) returns (k: int)
    requires forall j :: 0 <= j < |groups| ==> Consecutive(groups[j]) && groups[j] != [] && groups[j][0] >= 1
    requires 1 <= p <= n
    ensures 0 <= k < |Units(n, StartsOf(groups), 1)|
    ensures p in Members(Units(n, StartsOf(groups), 1)[k])
    ensures forall j :: 0 <= j < |Units(n, StartsOf(groups), 1)| && p in Members(Units(n, StartsOf(groups), 1)[j]) ==> j == k
  {
    k := UnitsCover(n, groups, 1, p);
    assert AllSpan(groups) by {
      forall j | 0 <= j < |groups| ensures Spans(groups[j]) {
        ConsecutiveSpans(groups[j]);
      }
    }
    forall j | 0 <= j < |Units(n, StartsOf(groups), 1)| && p in Members(Units(n, StartsOf(groups), 1)[j])
      ensures j == k
    {
      if j < k {
        UnitsDisjoint(n, groups, 1, j, k, p);
      } else if k < j {
        UnitsDisjoint(n, groups, 1, k, j, p);
      }
    }
  }

  // ---------------------------------------------------------------------------------------------
  // Click messages

  /**
   * vt_addon_1.58.js: the label of the group starting at p (or of p alone) with the modifiers
   * found on any of its members; a group is only recognised at its first paragraph.
   */
  function VtClickMessage(p: int, groups: seq<Group>, ann: map<int, Ann>): string {
    var starts := StartsOf(groups);
    var grp := if p in starts then starts[p] else [p];
    WithExtras(RangeLabel(grp), Extras(grp, ann))
  }

  /**
   * A click on the first paragraph of a unit of the list gives that unit's line: the same line
   * for a paragraph on its own, the group's line followed by the group's modifiers for a group.
   */
  lemma ClickMatchesListLine(n: nat, groups: seq<Group>, ann: map<int, Ann>, k: int, p: int)
    requires 0 <= k < |Units(n, StartsOf(groups), 1)|
    requires Units(n, StartsOf(groups), 1)[k] == UnitAt(StartsOf(groups), p)
    ensures var u := Units(n, StartsOf(groups), 1)[k];
      VtClickMessage(p, groups, ann) == WithExtras(UnitLine(u, ann), if u.Grouped? then Extras(u.members, ann) else [])
  {
  }

  /** The paragraph the group of a click is looked up for (index addons): the group starting there, else the first group holding it. */
  function IndexGroupFor(groups: seq<Group>, p: int): (g: Group)
    ensures p in g
  {
    var starts := StartsOf(groups);
    if p in starts then starts[p] else FindGroupFor(groups, p)
  }

  /** index-addon.js: a group of more than one paragraph shows its label alone, a paragraph on its own shows its modifiers. */
  function IndexClickMessage(p: int, groups: seq<Group>, frameSet: set<int>, readSet: set<int>, ord: map<int, Ord>): string {
    var g := IndexGroupFor(groups, p);
    if |g| > 1 then SimpleRangeLabel(g)
    else WithExtras(SimpleRangeLabel([p]), SingleExtras(p, frameSet, readSet, ord))
  }

  /** What `buildSingleMsg(p)` of index-addon-5.js writes after the label (the same texts as the click handler of index-addon-3.js). */
  function SingleSuffix(p: int, frameSet: set<int>, readSet: set<int>, ord: map<int, Ord>): (r: string)
    ensures r == [] || (r[0] == ' ' && !IsSpace(r[|r| - 1]))
  {
    var hasF, hasR := p in frameSet, p in readSet;
    if !hasF && !hasR then ""
    else if hasF && hasR then
      if FrameRank(ord, p) <= ReadRank(ord, p) then " + Ramme og Les-skriftsted"
      else " + Les-skriftsted og Ramme"
    else if hasF then " + Ramme"
    else " + Les-skriftsted"
  }

  /** `buildSingleMsg(p)` of index-addon-5.js. */
  function BuildSingleMsg(p: int, frameSet: set<int>, readSet: set<int>, ord: map<int, Ord>): string {
    SimpleRangeLabel([p]) + SingleSuffix(p, frameSet, readSet, ord)
  }

  /** `buildMsgFor(p)` of index-addon-5.js. */
  function BuildMsgFor(p: int, groups: seq<Group>, frameSet: set<int>, readSet: set<int>, ord: map<int, Ord>): string {
    var g := IndexGroupFor(groups, p);
    if |g| > 1 then SimpleRangeLabel(g) else BuildSingleMsg(p, frameSet, readSet, ord)
  }

  lemma JoinPair(a: string, b: string, sep: string)
    ensures Join([a, b], sep) == a + sep + b
  {
    assert [a, b][1..] == [b];
  }

  /** Two modifiers joined with " og " behind the " + " of a spelled-out suffix. */
  lemma PairSuffix(a: string, b: string)
    ensures " + " + Join([a, b], " og ") == " + " + a + " og " + b
  {
    JoinPair(a, b, " og ");
  }

  lemma OneSuffix(a: string)
    ensures " + " + Join([a], " og ") == " + " + a
  {
  }

  /** The spelled-out suffix of a paragraph with both flags, frame ranked first. */
  lemma SuffixFrameFirst(p: int, frameSet: set<int>, readSet: set<int>, ord: map<int, Ord>)
    requires p in frameSet && p in readSet && FrameRank(ord, p) <= ReadRank(ord, p)
    ensures SingleSuffix(p, frameSet, readSet, ord) == " + " + Join(SingleExtras(p, frameSet, readSet, ord), " og ")
  {
    PairSuffix(Ramme, LesSkriftsted);
    assert " + " + Ramme + " og " + LesSkriftsted == " + Ramme og Les-skriftsted";
  }

  /** The spelled-out suffix of a paragraph with both flags, read ranked first. */
  lemma SuffixReadFirst(p: int, frameSet: set<int>, readSet: set<int>, ord: map<int, Ord>)
    requires p in frameSet && p in readSet && FrameRank(ord, p) > ReadRank(ord, p)
    ensures SingleSuffix(p, frameSet, readSet, ord) == " + " + Join(SingleExtras(p, frameSet, readSet, ord), " og ")
  {
    PairSuffix(LesSkriftsted, Ramme);
    assert " + " + LesSkriftsted + " og " + Ramme == " + Les-skriftsted og Ramme";
  }

  /** The spelled-out suffixes are the modifiers joined as index-addon.js joins them. */
  lemma SuffixIsExtras(p: int, frameSet: set<int>, readSet: set<int>, ord: map<int, Ord>)
    ensures var extras := SingleExtras(p, frameSet, readSet, ord);
      SingleSuffix(p, frameSet, readSet, ord) == if extras == [] then "" else " + " + Join(extras, " og ")
  {
    var hasF, hasR := p in frameSet, p in readSet;
    if hasF && hasR {
      if FrameRank(ord, p) <= ReadRank(ord, p) {
        SuffixFrameFirst(p, frameSet, readSet, ord);
      } else {
        SuffixReadFirst(p, frameSet, readSet, ord);
      }
    } else if hasF {
      OneSuffix(Ramme);
    } else if hasR {
      OneSuffix(LesSkriftsted);
    }
  }

  /** The spelled-out messages of index-addon-3.js and index-addon-5.js are those index-addon.js composes. */
  lemma BuildMsgForAgrees(p: int, groups: seq<Group>, frameSet: set<int>, readSet: set<int>, ord: map<int, Ord>)
    ensures BuildMsgFor(p, groups, frameSet, readSet, ord) == IndexClickMessage(p, groups, frameSet, readSet, ord)
  {
    if |IndexGroupFor(groups, p)| <= 1 {
      SuffixIsExtras(p, frameSet, readSet, ord);
      CaptionWithExtras(SimpleRangeLabel([p]), SingleExtras(p, frameSet, readSet, ord));
    }
  }

  /** A caption followed by the suffix its modifiers make is the caption with those extras. */
  lemma CaptionWithExtras(caption: string, extras: seq<string>)
    ensures caption + (if extras == [] then "" else " + " + Join(extras, " og ")) == WithExtras(caption, extras)
  {
    if extras == [] {
      assert caption + "" == caption;
    } else {
      assert caption + (" + " + Join(extras, " og ")) == caption + " + " + Join(extras, " og ");
    }
  }

  // ---------------------------------------------------------------------------------------------
  // The player-message normalisers

  /** `text.match(/^Avsnitt\s+(\d+)(?:\b|$)/)`, giving `Number(m[1])`. */
  function MatchAvsnitt(t: string): (r: Option<nat>)
    ensures r.Some? ==> |t| > 7 && t[..7] == "Avsnitt" && IsSpace(t[7])
  {
    if |t| < 7 || t[..7] != "Avsnitt" then None else MatchNumber(t[7..])
  }

  /** The part of the pattern after "Avsnitt": white space, digits, then a word boundary. */
  function MatchNumber(rest: string): (r: Option<nat>)
    ensures r.Some? ==> |rest| > 0 && IsSpace(rest[0])
  {
    var body := TrimStart(rest);
    var d := DigitPrefix(body);
    if |body| == |rest| || d == 0 then None
    else if d < |body| && IsWordChar(body[d]) then None
    else Some(DigitsValue(body[..d]))
  }

  /** "Avsnitt", white space, digits, then the end or a character that is not a word character: the digits' value. */
  lemma MatchAvsnittOf(space: string, digits: string, tail: string)
    requires space != [] && forall k :: 0 <= k < |space| ==> IsSpace(space[k])
    requires digits != [] && AllDigits(digits)
    requires tail == [] || !IsWordChar(tail[0])
    ensures MatchAvsnitt("Avsnitt" + space + digits + tail) == Some(DigitsValue(digits))
  {
    var t := "Avsnitt" + space + digits + tail;
    assert t[..7] == "Avsnitt";
    assert t[7..] == space + (digits + tail);
    MatchNumberOf(space, digits, tail);
  }

  lemma MatchNumberOf(space: string, digits: string, tail: string)
    requires space != [] && forall k :: 0 <= k < |space| ==> IsSpace(space[k])
    requires digits != [] && AllDigits(digits)
    requires tail == [] || !IsWordChar(tail[0])
    ensures MatchNumber(space + (digits + tail)) == Some(DigitsValue(digits))
  {
    TrimStartPadded(space, digits + tail);
    DigitPrefixOf(digits, tail);
    assert (digits + tail)[..|digits|] == digits;
    if tail != [] {
      assert (digits + tail)[|digits|] == tail[0];
    }
  }

  /** No white space after "Avsnitt" (as in "Avsnittene"): no match. */
  lemma NoMatchWithoutSpace(t: string)
    requires |t| > 7 && !IsSpace(t[7])
    ensures MatchAvsnitt(t) == None
  {
  }

  /** "Avsnitt p", and "Avsnitt p" followed by " + ...": the match gives p back. */
  lemma MatchSingleLabel(p: nat, tail: string)
    requires tail == [] || tail[0] == ' '
    ensures MatchAvsnitt(SimpleRangeLabel([p]) + tail) == Some(p)
  {
    SingletonSorted(p);
    var d := NatToString(p);
    assert SimpleRangeLabel([p]) + tail == "Avsnitt" + " " + d + tail;
    MatchAvsnittOf(" ", d, tail);
    DigitsValueOfNat(p);
  }

  lemma SingletonSorted(p: int)
    ensures SortedSet([p]) == [p]
  {
    IncreasingUnique(SortedSet([p]), [p]);
  }

  /** A group label either does not match or matches the one paragraph every member equals. */
  lemma MatchGroupLabel(g: seq<int>, p: int)
    requires p in g
    ensures MatchAvsnitt(SimpleRangeLabel(g)) == None || MatchAvsnitt(SimpleRangeLabel(g)) == Some(p)
  {
    var s := SortedSet(g);
    assert p in s;
    if |s| == 1 {
      assert s == [p];
      SingleGroupMatch(g, p);
    } else {
      ManyGroupLabel(g);
      NoMatchWithoutSpace(SimpleRangeLabel(g));
    }
  }

  /** A group of one paragraph matches its number, unless the number is negative. */
  lemma SingleGroupMatch(g: seq<int>, p: int)
    requires SortedSet(g) == [p]
    ensures p >= 0 ==> MatchAvsnitt(SimpleRangeLabel(g)) == Some(p as nat)
    ensures p < 0 ==> MatchAvsnitt(SimpleRangeLabel(g)) == None
  {
    SingleGroupLabel(g, p);
    if p >= 0 {
      var d := NatToString(p);
      assert SimpleRangeLabel(g) == "Avsnitt" + " " + d + [];
      MatchAvsnittOf(" ", d, []);
      DigitsValueOfNat(p);
    } else {
      NegativeLabel(p);
    }
  }

  /** A group of one paragraph is labelled "Avsnitt" and its number. */
  lemma SingleGroupLabel(g: seq<int>, p: int)
    requires SortedSet(g) == [p]
    ensures SimpleRangeLabel(g) == "Avsnitt " + IntToString(p)
  {
  }

  /** A group of several paragraphs is labelled "Avsnittene ...". */
  lemma ManyGroupLabel(g: seq<int>)
    requires |SortedSet(g)| != 1
    ensures |SimpleRangeLabel(g)| > 11 && SimpleRangeLabel(g)[..11] == "Avsnittene "
  {
    var s := SortedSet(g);
    var head := "Avsnittene ";
    var a, b, c;
    if |s| == 2 && s[1] == s[0] + 1 {
      a, b, c := IntToString(s[0]), " og ", IntToString(s[1]);
    } else {
      a, b, c := Shown(s, 0), [EnDash], Shown(s, |s| - 1);
    }
    assert SimpleRangeLabel(g) == head + a + b + c;
    ConcatAssoc(head, a, b);
    ConcatAssoc(head, a + b, c);
    PrefixOfConcat(head, a + b + c);
  }

  lemma PrefixOfConcat(head: string, rest: string)
    ensures (head + rest)[..|head|] == head
  {
  }

  lemma NegativeLabel(p: int)
    requires p < 0
    ensures MatchAvsnitt("Avsnitt " + IntToString(p)) == None
  {
    var t := "Avsnitt " + IntToString(p);
    assert t[7..] == " " + IntToString(p);
    TrimStartPadded(" ", IntToString(p));
  }

  /** A decimal integer ends in a digit, whatever comes before it. */
  lemma EndsInDigit(prefix: string, i: int)
    ensures var t := prefix + IntToString(i); |t| > 0 && IsDigit(t[|t| - 1])
  {
    var n := if i < 0 then -i else i;
    var d := NatToString(n);
    var t := prefix + IntToString(i);
    if i < 0 {
      assert IntToString(i) == "-" + d;
    }
    assert t[|t| - 1] == d[|d| - 1];
  }

  /** A caption starts with "A" and ends in a digit. */
  lemma CaptionEnds(g: seq<int>)
    requires g != []
    ensures var l := SimpleRangeLabel(g); |l| > 0 && l[0] == 'A' && IsDigit(l[|l| - 1])
  {
    var s := SortedSet(g);
    assert g[0] in s;
    if |s| == 1 {
      EndsInDigit("Avsnitt ", s[0]);
    } else if |s| == 2 && s[1] == s[0] + 1 {
      EndsInDigit("Avsnittene " + IntToString(s[0]) + " og ", s[1]);
    } else {
      EndsInDigit("Avsnittene " + Shown(s, 0) + [EnDash], s[|s| - 1]);
    }
  }

  /** The texts of the messages neither start nor end with white space. */
  lemma LabelTrimmed(g: seq<int>, tail: string)
    requires g != []
    requires tail == [] || !IsSpace(tail[|tail| - 1])
    ensures Trim(SimpleRangeLabel(g) + tail) == SimpleRangeLabel(g) + tail
  {
    var l := SimpleRangeLabel(g);
    var t := l + tail;
    CaptionEnds(g);
    assert t[0] == 'A';
    assert t[|t| - 1] == if tail == [] then l[|l| - 1] else tail[|tail| - 1];
    TrimIdentity(t);
  }

  /**
   * `normalize` of index-addon-3.js: with no groups nothing happens; a message "Avsnitt N..."
   * for a paragraph N whose group (the last group holding N) has more than one member becomes
   * that group's caption; every other text stays as it is.
   */
  function Normalize3(text: string, groups: seq<Group>): string {
    if groups == [] then text
    else
      var t := Trim(text);
      match MatchAvsnitt(t)
      case None => text
      case Some(p) =>
        var m := MemberMap(groups);
        if p in m && |m[p]| > 1 then
          var caption := SimpleRangeLabel(m[p]);
          if t != caption then caption else text
        else text
  }

  /** Normalising a normalised text changes nothing. */
  lemma Normalize3Idempotent(text: string, groups: seq<Group>)
    ensures Normalize3(Normalize3(text, groups), groups) == Normalize3(text, groups)
  {
    var once := Normalize3(text, groups);
    if once != text {
      var p := MatchAvsnitt(Trim(text)).value;
      var m := MemberMap(groups);
      assert once == SimpleRangeLabel(m[p]);
      LabelTrimmed(m[p], []);
      assert once + [] == once;
      MatchGroupLabel(m[p], p);
    }
  }

  /** `normalize` of index-addon-5.js: a message "Avsnitt N..." becomes `buildMsgFor(N)` when that differs. */
  function Normalize5(text: string, groups: seq<Group>, frameSet: set<int>, readSet: set<int>, ord: map<int, Ord>): string {
    var t := Trim(text);
    match MatchAvsnitt(t)
    case None => text
    case Some(p) =>
      var desired := BuildMsgFor(p, groups, frameSet, readSet, ord);
      if desired != [] && t != desired then desired else text
  }

  /** The message for a paragraph, read back by the pattern, names that paragraph again (or nothing). */
  lemma MatchMessage(p: nat, groups: seq<Group>, frameSet: set<int>, readSet: set<int>, ord: map<int, Ord>)
    ensures var d := BuildMsgFor(p, groups, frameSet, readSet, ord);
      Trim(d) == d && (MatchAvsnitt(d) == None || MatchAvsnitt(d) == Some(p))
  {
    var g := IndexGroupFor(groups, p);
    if |g| > 1 {
      MatchGroupMessage(g, p);
    } else {
      MatchSingleMessage(p, frameSet, readSet, ord);
    }
  }

  lemma MatchGroupMessage(g: seq<int>, p: nat)
    requires p in g
    ensures Trim(SimpleRangeLabel(g)) == SimpleRangeLabel(g)
    ensures MatchAvsnitt(SimpleRangeLabel(g)) == None || MatchAvsnitt(SimpleRangeLabel(g)) == Some(p)
  {
    LabelTrimmed(g, []);
    assert SimpleRangeLabel(g) + [] == SimpleRangeLabel(g);
    MatchGroupLabel(g, p);
  }

  lemma MatchSingleMessage(p: nat, frameSet: set<int>, readSet: set<int>, ord: map<int, Ord>)
    ensures Trim(BuildSingleMsg(p, frameSet, readSet, ord)) == BuildSingleMsg(p, frameSet, readSet, ord)
    ensures MatchAvsnitt(BuildSingleMsg(p, frameSet, readSet, ord)) == Some(p)
  {
    CaptionReadsBack(p, SingleSuffix(p, frameSet, readSet, ord));
  }

  /** Normalising a normalised text changes nothing. */
  lemma Normalize5Idempotent(text: string, groups: seq<Group>, frameSet: set<int>, readSet: set<int>, ord: map<int, Ord>)
    ensures var once := Normalize5(text, groups, frameSet, readSet, ord);
      Normalize5(once, groups, frameSet, readSet, ord) == once
  {
    var once := Normalize5(text, groups, frameSet, readSet, ord);
    if once != text {
      var p := MatchAvsnitt(Trim(text)).value;
      MatchMessage(p, groups, frameSet, readSet, ord);
    }
  }

  /** A single caption with a suffix, for a paragraph in a larger group, becomes that group's caption. */
  lemma Normalize3OfCaption(p: nat, tail: string, groups: seq<Group>)
    requires tail == [] || (tail[0] == ' ' && !IsSpace(tail[|tail| - 1]))
    requires groups != [] && p in MemberMap(groups) && |MemberMap(groups)[p]| > 1
    requires SimpleRangeLabel([p]) + tail != SimpleRangeLabel(MemberMap(groups)[p])
    ensures Normalize3(SimpleRangeLabel([p]) + tail, groups) == SimpleRangeLabel(MemberMap(groups)[p])
  {
    CaptionReadsBack(p, tail);
    Normalize3OfMatch(SimpleRangeLabel([p]) + tail, groups, p);
  }

  lemma Normalize3OfMatch(text: string, groups: seq<Group>, p: nat)
    requires groups != [] && Trim(text) == text && MatchAvsnitt(text) == Some(p)
    requires p in MemberMap(groups) && |MemberMap(groups)[p]| > 1
    requires text != SimpleRangeLabel(MemberMap(groups)[p])
    ensures Normalize3(text, groups) == SimpleRangeLabel(MemberMap(groups)[p])
  {
  }

  /** A concrete rewrite: with the group 4-5, "Avsnitt 5 + Ramme" becomes "Avsnittene 4 og 5". */
  lemma Normalize3Example(text: string, groups: seq<Group>)
    requires text == "Avsnitt 5 + Ramme" && groups == [[4, 5]]
    ensures Normalize3(text, groups) == "Avsnittene 4 og 5"
  {
    var tail := " + Ramme";
    ExampleSplit(text, tail);
    ExampleSingle();
    TailShape(tail);
    ExampleMember(groups);
    ExampleLabel([4, 5]);
    ExampleDiffer(text, "Avsnittene 4 og 5");
    Normalize3OfCaption(5, tail, groups);
  }

  lemma ExampleDiffer(a: string, b: string)
    requires a == "Avsnitt 5 + Ramme" && b == "Avsnittene 4 og 5"
    ensures a != b
  {
    assert a[7] != b[7];
  }

  /** A single caption followed by a spelled-out suffix is trimmed and reads back as its paragraph. */
  lemma CaptionReadsBack(p: nat, tail: string)
    requires tail == [] || (tail[0] == ' ' && !IsSpace(tail[|tail| - 1]))
    ensures var t := SimpleRangeLabel([p]) + tail; Trim(t) == t && MatchAvsnitt(t) == Some(p)
  {
    LabelTrimmed([p], tail);
    MatchSingleLabel(p, tail);
  }

  lemma ExampleSplit(text: string, tail: string)
    requires text == "Avsnitt 5 + Ramme" && tail == " + Ramme"
    ensures text == "Avsnitt 5" + tail
  {
  }

  lemma TailShape(tail: string)
    requires tail == " + Ramme"
    ensures tail[0] == ' ' && !IsSpace(tail[|tail| - 1])
  {
  }

  lemma ExampleSingle()
    ensures SimpleRangeLabel([5]) == "Avsnitt 5"
  {
    SingletonSorted(5);
    assert IntToString(5) == "5";
  }

  lemma ExampleMember(groups: seq<Group>)
    requires groups == [[4, 5]]
    ensures 5 in MemberMap(groups) && MemberMap(groups)[5] == [4, 5]
  {
    MemberMapLast(groups, 5, 0);
  }

  lemma ExampleLabel(g: seq<int>)
    requires g == [4, 5]
    ensures SimpleRangeLabel(g) == "Avsnittene 4 og 5"
  {
    IncreasingUnique(SortedSet(g), g);
    assert IntToString(4) == "4" && IntToString(5) == "5";
  }

  // ---------------------------------------------------------------------------------------------
  // The message box of index-addon-5.js, with its playing flag

  class MessageBox {
    var text: string
    /** `window.__VT_IS_PLAYING` */
    var playing: bool
    const groups: seq<Group>
    const frameSet: set<int>
    const readSet: set<int>
    const ord: map<int, Ord>

    constructor (groups: seq<Group>, frameSet: set<int>, readSet: set<int>, ord: map<int, Ord>)
      ensures this.groups == groups && this.frameSet == frameSet && this.readSet == readSet && this.ord == ord
      ensures text == "" && !playing
    {
      this.groups := groups;
      this.frameSet := frameSet;
      this.readSet := readSet;
      this.ord := ord;
      text := "";
      playing := false;
    }

    /** `setPlaying(on)` */
    method SetPlaying(on: bool)
      modifies this
      ensures playing == on && text == old(text)
    {
      playing := on;
    }

    /** A click on paragraph p: ignored while playing, otherwise the message becomes `buildMsgFor(p)`. */
    method Click(p: int)
      modifies this
      ensures playing == old(playing)
      ensures text == if old(playing) then old(text) else BuildMsgFor(p, groups, frameSet, readSet, ord)
    {
      if !playing {
        text := BuildMsgFor(p, groups, frameSet, readSet, ord);
      }
    }

    /**
     * The observer's `normalize`: rewrites the text as `Normalize5` does; a message that matches
     * counts as player activity and sets the playing flag (the watchdog that clears it after
     * 1.5 s of quiet is `SetPlaying(false)`).
     */
    method Normalize()
      modifies this
      ensures text == Normalize5(old(text), groups, frameSet, readSet, ord)
      ensures playing == (old(playing) || MatchAvsnitt(Trim(old(text))).Some?)
    {
      var t := Trim(text);
      var m := MatchAvsnitt(t);
      if m.Some? {
        var desired := BuildMsgFor(m.value, groups, frameSet, readSet, ord);
        if desired != [] && t != desired {
          text := desired;
        }
        playing := true;
      }
    }
  }

  /** Once the box has been normalised, the observer firing again leaves its text alone. */
  method NormaliseTwice(box: MessageBox)
    modifies box
    ensures box.text == Normalize5(old(box.text), box.groups, box.frameSet, box.readSet, box.ord)
  {
    box.Normalize();
    Normalize5Idempotent(old(box.text), box.groups, box.frameSet, box.readSet, box.ord);
    box.Normalize();
  }
}
