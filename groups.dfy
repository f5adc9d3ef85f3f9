/**
 * Paragraph groups: the group-spec parser (`parseGroupsString`), the choice of where the groups
 * come from (`getGroups`), and the lookups the scripts build over a group list
 * (`starts`, `findGroupFor`, the member map of the message normaliser).
 */
module Groups {
  import opened Js

  /** A group as the scripts hold it: an array of paragraph numbers. */
  type Group = seq<int>

  /** The integers a..b in ascending order; empty when a > b. */
  function Range(a: int, b: int): (g: Group)
    ensures |g| == if a <= b then b - a + 1 else 0
    ensures forall k :: 0 <= k < |g| ==> g[k] == a + k
  {
    seq(if a <= b then b - a + 1 else 0, k => a + k)
  }

  /**
   * One trimmed token against `^(\d+)(?:-(\d+))?$`. The first digit run is maximal: a shorter
   * one would be followed by a digit, which neither `-` nor the end of input can match.
   */
  function ParseToken(tok: string): Option<Group> {
    var k := DigitPrefix(tok);
    if k == 0 then None
    else
      var a := DigitsValue(tok[..k]);
      if k == |tok| then Some(Range(a, a))
      else if tok[k] == '-' && k + 1 < |tok| && AllDigits(tok[k + 1..]) then
        Some(Range(a, DigitsValue(tok[k + 1..])))
      else None
  }

  /** `flatMap` over the comma-separated fields: each trimmed, malformed ones dropped. */
  function ParseFields(fields: seq<string>): (gs: seq<Group>)
    ensures |gs| <= |fields|
  {
    if fields == [] then []
    else
      var rest := ParseFields(fields[1..]);
      match ParseToken(Trim(fields[0]))
      case None => rest
      case Some(g) => [g] + rest
  }

  /** `parseGroupsString(str)`; `None` stands for a value that is not a string. */
  function ParseGroupsString(str: Option<string>): seq<Group> {
    match str
    case None => []
    case Some(s) => if s == "" then [] else ParseFields(Split(s, ','))
  }

  /** Each member is one more than the one before it. */
  predicate Consecutive(g: Group) {
    forall k :: 0 < k < |g| ==> g[k] == g[k - 1] + 1
  }

  /** Every parsed group is a run of consecutive naturals. */
  predicate IsRun(g: Group) {
    (forall k :: 0 <= k < |g| ==> g[k] >= 0) && Consecutive(g)
  }

  /** A range `a-b` is a run of naturals when `a` is a natural. */
  lemma RangeIsRun(a: int, b: int)
    requires a >= 0
    ensures IsRun(Range(a, b))
  {
  }

  lemma ParseTokenRun(tok: string)
    ensures ParseToken(tok).Some? ==> IsRun(ParseToken(tok).value)
  {
    var k := DigitPrefix(tok);
    if k > 0 {
      var a := DigitsValue(tok[..k]);
      if k == |tok| {
        RangeIsRun(a, a);
      } else if tok[k] == '-' && k + 1 < |tok| && AllDigits(tok[k + 1..]) {
        RangeIsRun(a, DigitsValue(tok[k + 1..]));
      }
    }
  }

  lemma {:induction false} ParseFieldsRuns(fields: seq<string>)
    ensures forall g :: g in ParseFields(fields) ==> IsRun(g)
  {
    if fields != [] {
      ParseFieldsRuns(fields[1..]);
      ParseTokenRun(Trim(fields[0]));
    }
  }

  /** The parser only ever yields ascending runs of consecutive naturals (possibly empty, for "5-3"). */
  lemma ParsedGroupsAreRuns(str: Option<string>)
    ensures forall g :: g in ParseGroupsString(str) ==> IsRun(g)
  {
    if str.Some? && str.value != "" {
      ParseFieldsRuns(Split(str.value, ','));
    }
  }

  /** The text form of a range token. */
  function RangeToken(a: nat, b: nat): string {
    NatToString(a) + "-" + NatToString(b)
  }

  lemma RangeTokenParses(a: nat, b: nat)
    ensures ParseToken(Trim(RangeToken(a, b))) == Some(Range(a, b))
  {
    var t := RangeToken(a, b);
    var sa, sb := NatToString(a), NatToString(b);
    TrimIdentity(t);
    DigitPrefixOf(sa, "-" + sb);
    assert t == sa + ("-" + sb);
    assert t[..|sa|] == sa;
    assert t[|sa| + 1..] == sb;
    DigitsValueOfNat(a);
    DigitsValueOfNat(b);
  }

  /** The tokens for a list of ranges. */
  function RangeTokens(rs: seq<(nat, nat)>): (toks: seq<string>)
    ensures |toks| == |rs|
    ensures forall k :: 0 <= k < |rs| ==> toks[k] == RangeToken(rs[k].0, rs[k].1)
  {
    if rs == [] then [] else [RangeToken(rs[0].0, rs[0].1)] + RangeTokens(rs[1..])
  }

  /** Each range expanded. */
  function Expanded(rs: seq<(nat, nat)>): (gs: seq<Group>)
    ensures |gs| == |rs|
    ensures forall k :: 0 <= k < |rs| ==> gs[k] == Range(rs[k].0, rs[k].1)
  {
    if rs == [] then [] else [Range(rs[0].0, rs[0].1)] + Expanded(rs[1..])
  }

  /** The spec string for a list of ranges, e.g. [(4,5),(10,12)] gives "4-5,10-12". */
  function RangesSpec(rs: seq<(nat, nat)>): string {
    Join(RangeTokens(rs), ",")
  }

  lemma {:induction false} ParseFieldsOfTokens(rs: seq<(nat, nat)>)
    ensures ParseFields(RangeTokens(rs)) == Expanded(rs)
  {
    if rs != [] {
      ParseFieldsOfTokens(rs[1..]);
      RangeTokenParses(rs[0].0, rs[0].1);
      assert RangeTokens(rs)[1..] == RangeTokens(rs[1..]);
    }
  }

  /** Round trip: printing a list of ranges as a spec string and parsing it gives back every range expanded. */
  lemma ParseRangesSpec(rs: seq<(nat, nat)>)
    ensures ParseGroupsString(Some(RangesSpec(rs))) == Expanded(rs)
  {
    var toks := RangeTokens(rs);
    if rs != [] {
      forall k | 0 <= k < |toks| ensures ',' !in toks[k] {
        var sa, sb := NatToString(rs[k].0), NatToString(rs[k].1);
        assert toks[k] == sa + "-" + sb;
        assert forall c :: c in sa + "-" + sb ==> IsDigit(c) || c == '-';
      }
      SplitJoin(toks, ',');
      assert RangesSpec(rs) != "" by {
        JoinLength(toks, ",");
      }
      ParseFieldsOfTokens(rs);
    }
  }

  lemma {:induction false} JoinLength(parts: seq<string>, sep: string)
    requires |parts| >= 1 && parts[0] != []
    ensures Join(parts, sep) != []
  {
  }

  lemma NumberTokenParses(a: nat)
    ensures ParseToken(Trim(NatToString(a))) == Some(Range(a, a))
  {
    var t := NatToString(a);
    TrimIdentity(t);
    DigitPrefixOf(t, "");
    assert t + "" == t;
    assert t[..|t|] == t;
    DigitsValueOfNat(a);
  }

  lemma TwoRangesSpec()
    ensures RangesSpec([(4, 5), (10, 12)]) == "4-5,10-12"
  {
    assert NatToString(10) == "10" && NatToString(12) == "12";
    assert NatToString(4) == "4" && NatToString(5) == "5";
    assert RangeToken(4, 5) == "4-5" && RangeToken(10, 12) == "10-12";
    assert RangeTokens([(4, 5), (10, 12)]) == ["4-5", "10-12"];
  }

  lemma TwoRangesExpanded()
    ensures Expanded([(4, 5), (10, 12)]) == [[4, 5], [10, 11, 12]]
  {
    assert Range(4, 5) == [4, 5];
    assert Range(10, 12) == [10, 11, 12];
  }

  /** Worked case: two ranges. */
  lemma ParseTwoRanges()
    ensures ParseGroupsString(Some("4-5,10-12")) == [[4, 5], [10, 11, 12]]
  {
    TwoRangesSpec();
    TwoRangesExpanded();
    ParseRangesSpec([(4, 5), (10, 12)]);
  }

  lemma ReversedRangeSpec()
    ensures RangesSpec([(5, 3)]) == "5-3"
  {
    assert NatToString(5) == "5" && NatToString(3) == "3";
    assert RangeToken(5, 3) == "5-3";
    assert RangeTokens([(5, 3)]) == ["5-3"];
  }

  /** Worked case: a reversed range gives an empty group instead of being dropped. */
  lemma ParseReversedRange()
    ensures ParseGroupsString(Some("5-3")) == [[]]
  {
    ReversedRangeSpec();
    assert Expanded([(5, 3)]) == [[]];
    ParseRangesSpec([(5, 3)]);
  }

  /** Worked case: a malformed token is dropped. */
  lemma ParseDropsMalformed()
    ensures ParseGroupsString(Some("bad,3-4")) == [[3, 4]]
  {
    SplitBadRange();
    BadTokenDropped();
    RangeThreeFour();
    var fields := ["bad", "3-4"];
    assert fields[1..] == ["3-4"];
    assert ParseFields(["3-4"]) == [[3, 4]] + ParseFields([]);
  }

  lemma SplitBadRange()
    ensures Split("bad,3-4", ',') == ["bad", "3-4"]
  {
    SplitJoin(["bad", "3-4"], ',');
    assert Join(["bad", "3-4"], ",") == "bad,3-4";
  }

  lemma BadTokenDropped()
    ensures ParseToken(Trim("bad")) == None
  {
    assert Trim("bad") == "bad";
    assert DigitPrefix("bad") == 0;
  }

  lemma RangeThreeFour()
    ensures ParseToken(Trim("3-4")) == Some([3, 4])
  {
    RangeTokenParses(3, 4);
    assert NatToString(3) == "3" && NatToString(4) == "4";
    assert RangeToken(3, 4) == "3-4";
    assert Range(3, 4) == [3, 4];
  }

  /** Worked case: a single number is a one-element group. */
  lemma ParseSingle()
    ensures ParseGroupsString(Some("7")) == [[7]]
  {
    SplitNoSep("7", ',');
    NumberTokenParses(7);
    assert NatToString(7) == "7";
    assert Range(7, 7) == [7];
    assert ParseFields(["7"]) == [[7]] + ParseFields([]);
  }

  /** Worked case: empty and non-string input give no groups. */
  lemma ParseEmpty()
    ensures ParseGroupsString(Some("")) == [] && ParseGroupsString(None) == []
  {
    SplitNoSep("", ',');
  }

  /** The host item's fields the scripts read; `groups` is `None` when it is not a string. */
  datatype Item = Item(groups: Option<string>)

  /**
   * `getGroups()`: an array in `window.__VT_GROUPS` wins; otherwise the `groups` string of
   * `window.currentItem || window.ITEM`, parsed; otherwise no groups.
   */
  function GetGroups(vtGroups: Option<seq<Group>>, currentItem: Option<Item>, legacyItem: Option<Item>): (gs: seq<Group>)
    ensures vtGroups.Some? ==> gs == vtGroups.value
    ensures vtGroups.None? && currentItem.Some? ==> gs == ParseGroupsString(currentItem.value.groups)
    ensures vtGroups.None? && currentItem.None? && legacyItem.Some? ==> gs == ParseGroupsString(legacyItem.value.groups)
    ensures vtGroups.None? && currentItem.None? && legacyItem.None? ==> gs == []
  {
    if vtGroups.Some? then vtGroups.value
    else
      var it := if currentItem.Some? then currentItem else legacyItem;
      if it.Some? && it.value.groups.Some? then ParseGroupsString(it.value.groups) else []
  }

  /**
   * `groups.forEach(g => { if (g && g.length) starts.set(g[0], g); })`: each non-empty group keyed
   * by its first element; a later group with the same first element replaces an earlier one.
   */
  function StartsOf(groups: seq<Group>): (starts: map<int, Group>)
    ensures forall s :: s in starts ==> starts[s] != [] && starts[s][0] == s
    ensures forall s :: s in starts <==> exists k :: 0 <= k < |groups| && groups[k] != [] && groups[k][0] == s
  {
    if groups == [] then map[]
    else
      var m := StartsOf(groups[..|groups| - 1]);
      var g := groups[|groups| - 1];
      assert forall s :: s in m <==> exists k :: 0 <= k < |groups| - 1 && groups[k] != [] && groups[k][0] == s;
      if g != [] then m[g[0] := g] else m
  }

  /** The group a start is keyed to is the last group in the list that starts there. */
  lemma {:induction false} StartsOfLast(groups: seq<Group>, s: int) returns (k: int)
    requires s in StartsOf(groups)
    ensures 0 <= k < |groups| && groups[k] == StartsOf(groups)[s]
    ensures forall j :: k < j < |groups| ==> groups[j] == [] || groups[j][0] != s
  {
    var g := groups[|groups| - 1];
    if g != [] && g[0] == s {
      k := |groups| - 1;
    } else {
      var init := groups[..|groups| - 1];
      assert s in StartsOf(init);
      k := StartsOfLast(init, s);
      assert groups[k] == init[k];
    }
  }

  /** `findGroupFor(p)`: a copy of the first group holding p, or [p]. */
  function FindGroupFor(groups: seq<Group>, p: int): (g: Group)
    ensures p in g
    ensures g == [p] || g in groups
  {
    if groups == [] then [p]
    else if p in groups[0] then groups[0]
    else FindGroupFor(groups[1..], p)
  }

  lemma {:induction false} FindGroupForFirst(groups: seq<Group>, p: int, i: int) returns (k: int)
    requires 0 <= i < |groups| && p in groups[i]
    ensures 0 <= k <= i && FindGroupFor(groups, p) == groups[k]
    ensures forall j :: 0 <= j < k ==> p !in groups[j]
  {
    if p in groups[0] {
      k := 0;
    } else {
      var k' := FindGroupForFirst(groups[1..], p, i - 1);
      k := k' + 1;
    }
  }

  /**
   * `groups.forEach(g => g.forEach(p => map.set(p, g)))`: every member mapped to its group,
   * a later group overwriting an earlier one for a shared member.
   */
  function MemberMap(groups: seq<Group>): (m: map<int, Group>)
    ensures forall p :: p in m <==> exists k :: 0 <= k < |groups| && p in groups[k]
    ensures forall p :: p in m ==> p in m[p]
  {
    if groups == [] then map[]
    else
      var prev := MemberMap(groups[..|groups| - 1]);
      var g := groups[|groups| - 1];
      assert forall p :: p in prev <==> exists k :: 0 <= k < |groups| - 1 && p in groups[k];
      prev + map p | p in g :: g
  }

  /** The member map sends p to the LAST group holding it. */
  lemma {:induction false} MemberMapLast(groups: seq<Group>, p: int, k: int)
    requires 0 <= k < |groups| && p in groups[k]
    requires forall j :: k < j < |groups| ==> p !in groups[j]
    ensures p in MemberMap(groups) && MemberMap(groups)[p] == groups[k]
  {
    if k < |groups| - 1 {
      MemberMapLast(groups[..|groups| - 1], p, k);
    }
  }
}
