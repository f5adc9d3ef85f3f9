# Meeting timeline addons, modelled in Dafny

The addon scripts decorate the timeline of a Norwegian meeting-reading schedule. Each slot of the
timeline is a paragraph ("avsnitt"). The scripts:

- colour the slots in two alternating tones, a group of paragraphs taking one tone;
- pin frame ("Ramme") and scripture-reading ("Les-skriftsted") markers on slots;
- write messages such as "Avsnittene 4 og 5 + Ramme";
- keep the message line stable while the recording plays;
- gate their heavy layout work on a structure signature;
- count down with a monotonic clock;
- fill a week selector with a window of weekly articles around this Monday.

This project models the logic under the DOM plumbing, module by module:

| module | file | what it models |
|---|---|---|
| `Js` | js.dfy | The JavaScript string operations the scripts rely on: `trim`, `split`/`join`, decimal `String(n)`, `padStart(2, '0')`. |
| `Groups` | groups.dfy | `parseGroupsString`, `getGroups`, and the lookups over a group list (`starts`, `findGroupFor`, the member map). |
| `Tones` | tones.dfy | The group-aware two-tone loop in its three forms (`applyTwoToneAlternation`, `applyGroupAwareTwoTone`, `applyGroupAwareTwoToneStrict`). Each is an imperative method over the slots' `alt` flags, proved equal to a functional specification. |
| `Labels` | labels.dfy | The two `rangeLabel` dialects, `joinModifiers`, and the `{from, to}` label of the overlay. |
| `Annotations` | annotations.dfy | `parseAnnoFlexible`, `buildAnnotations`, `orderExtrasForParas`, the per-paragraph ordering of the index addons, and pin layout. |
| `Messages` | messages.dfy | `buildMessageList`, the click messages (`buildSingleMsg`, `buildMsgFor`), the two message normalisers, and the message box with its playing flag. |
| `Overlay` | overlay.dfy | The 1.30/1.31 message overlay: `getActiveParaIndex`, `atWhichFrame`, the flag tests, `groupForIndex`, `currentMessage`. |
| `Scheduling` | scheduling.dfy | `coalescedApply` and the signature gate `safeApply`, as a class with the `applyScheduled` and `__lastSig` fields. |
| `Countdown` | countdown.dfy | The controller of `__vt_startMonotonicTick` as a class (`start`, `pause`, `stop`, `tick`), and `fmt`. |
| `Dates` | dates.dfy | The part of JavaScript's `Date` that the article window uses: `Date.UTC` with its carrying of overflowing months and days, the day number, `getUTCDay`, and the Monday of a week. |
| `Articles` | articles.dfy | The article week window: `parseISODate`, `fmtDate`, `normalizeItems`, `pickWindow` (as its loops), `renderOptions` (as a class over the select's options) and `init`. |

Values the scripts read from `window` globals, the DOM or the clock are parameters:

- the slot count, the slots' rectangles and the cursor x;
- the groups and the annotation maps;
- the host's hooks and the current time;
- today's date.

## Model

| member | source | states |
|---|---|---|
| Js.TrimStart | vt_addon_1.58.js:17 | The result is a suffix of the input and does not start with white space. |
| Js.TrimEnd | vt_addon_1.58.js:17 | The result is a prefix of the input and does not end with white space. |
| Js.TrimPadded | vt_addon_1.58.js:17 | Trimming white space around a text that neither starts nor ends with white space gives that text back. |
| Js.Split | vt_addon_1.58.js:17 | `split(sep)` gives at least one part, no part contains the separator, and joining the parts with it gives the text back. |
| Js.SplitJoin | vt_addon_1.58.js:17 | Splitting a join of separator-free parts gives the parts back. |
| Js.NatToString | index_addon_1.28.js:164-165 | `String(n)` of a natural is a non-empty string of decimal digits. |
| Js.DigitsValueOfNat | index_article_window_1.0.js:36 | `Number` of `String(n)` is n. |
| Js.NatToStringInjective | index_article_window_1.0.js:41-47 | Different naturals have different decimal forms. |
| Js.Pad2 | index_addon_1.28.js:164-165 | `padStart(2, '0')` gives a text of length at least two. |
| Js.PaddedReadsBack | index_addon_1.28.js:164-165 | A padded decimal is all digits and reads back as the number it was made from. |
| Groups.Range | vt_addon_1.58.js:20-22 | The token `a-b` expands to a..b ascending, and to nothing when a > b. |
| Groups.ParseFields | vt_addon_1.58.js:17-23 | The flat-map over the fields gives at most one group per field. |
| Groups.ParsedGroupsAreRuns | vt_addon_1.58.js:15-23 | Every group `parseGroupsString` returns is an ascending run of consecutive naturals. |
| Groups.ParseToken | vt_addon_1.58.js:18-22 | One token of the group list. Groups.RangeTokenParses and Groups.NumberTokenParses state the accepted forms, and Groups.ParseDropsMalformed shows a malformed token dropped. |
| Groups.RangeTokenParses | vt_addon_1.58.js:18-22 | The token `a-b` parses as the range a..b. |
| Groups.NumberTokenParses | vt_addon_1.58.js:18-22 | The token `a` parses as the one-element group [a]. |
| Groups.ParseRangesSpec | vt_addon_1.58.js:15-23 | Round trip: a comma-separated list of range tokens parses as those ranges expanded, in order. |
| Groups.ParseTwoRanges | vt_addon_1.58.js:15-23 | "4-5,10-12" gives [[4,5],[10,11,12]]. |
| Groups.ParseReversedRange | vt_addon_1.58.js:20-22 | "5-3" gives one empty group; it is not dropped. |
| Groups.ParseDropsMalformed | vt_addon_1.58.js:18-19 | "bad,3-4" gives [[3,4]]: the malformed token is dropped. |
| Groups.ParseSingle | vt_addon_1.58.js:20-22 | "7" gives [[7]]. |
| Groups.ParseEmpty | vt_addon_1.58.js:16 | The empty string and a non-string give no groups. |
| Groups.GetGroups | index-addon.js:27-32 | An array in `__VT_GROUPS` wins. Otherwise the `groups` string of `currentItem`, else of `ITEM`, is parsed. Otherwise there are no groups. |
| Groups.StartsOf | vt_addon_1.58.js:86-87 | The starts map holds exactly the first elements of the non-empty groups, each keyed to a group starting there. |
| Groups.StartsOfLast | vt_addon_1.58.js:87 | The group a start is keyed to is the last group in the list starting there. |
| Groups.FindGroupFor | index-addon.js:70 | The result holds p, and is a group of the list or [p]. |
| Groups.FindGroupForFirst | index-addon.js:70 | The result is the first group of the list that holds p. |
| Groups.MemberMap | index-addon-3.js:127-128 | Exactly the members of some group are keys, each mapped to a group holding it. |
| Groups.MemberMapLast | index-addon-3.js:127-128 | A member maps to the last group that holds it. |
| Tones.Next | vt_addon_1.58.js:92-102 | The scan always moves forward. |
| Tones.Units | vt_addon_1.58.js:90-101 | The units the scan visits. Tones.UnitsDisjoint, Tones.UnitsCover and Tones.AsWrittenVisitsUnits state that spanning groups give disjoint units, runs cover 1..n, and forward-ending groups are visited as the written loop visits them. |
| Tones.ComputeTones | vt_addon_1.58.js:81-98 | The `while` loop builds exactly the tone map of the scan over 1..n, which starts light. |
| Tones.PaintGroup | vt_addon_1.58.js:95 | `g.forEach(p => tones.set(p, tone))` paints every member of g with the tone. |
| Tones.ToneIsParityOfLastUnit | vt_addon_1.53.js:25-39 | A paragraph's tone is dark exactly when the last unit painting it has an odd position in the scan. A paragraph no unit paints has no tone. |
| Tones.UnitsDisjoint | vt_addon_1.53.js:29-33 | When every group spans from its first to its last element, no paragraph belongs to two units. |
| Tones.ToneOfUnit | vt_addon_1.58.js:86-102 | With spanning groups, every member of the k-th unit is dark exactly when k is odd. So the first unit is light, a group shares one tone, and the tone flips once per group or singleton. |
| Tones.UnitsCover | vt_addon_1.57.js:89-108 | With groups that are runs, some unit holds every paragraph i..n. |
| Tones.EverySlotToned | vt_addon_1.57.js:89-108 | With groups that are runs, every paragraph 1..n gets a tone. |
| Tones.AltClasses | vt_addon_1.53.js:41-45 | The `alt` flags of the slots: one per slot. |
| Tones.ApplyTwoToneAlternation | vt_addon_1.53.js:16-46 | After the pass, each slot is `alt` exactly when its paragraph's tone is dark. A slot with no tone ends light. |
| Tones.NoGroupsAlternate | vt_addon_1.54.js:45-68 | With no groups, slot index q is `alt` exactly when paragraph q+1 is even. |
| Tones.TwelveSlotsExample | vt_addon_1.58.js:86-108 | n=12 with [[4,5],[10,11,12]] gives F,T,F,T,T,F,T,F,T,F,F,F. |
| Tones.AltOfUnit | vt_addon_1.58.js:103-107 | The slot of a member of the k-th unit is `alt` exactly when k is odd. |
| Tones.ApplyGroupAwareTwoTone | index-addon.js:40-58 | The in-place pass writes every visited slot with its unit's tone. It skips members outside 1..n, and unvisited slots keep their previous `alt` flag. |
| Tones.PaintGroupSlots | index-addon.js:50 | A group's turn writes the tone into each member's slot in 1..n and leaves the other slots alone. |
| Tones.ApplyGroupAwareTwoToneStrict | index-addon-3.js:41-57 | First every slot loses `alt`. Afterwards a slot is `alt` exactly when some unit painted its paragraph dark. |
| Tones.ClearAlt | index-addon-3.js:44 | The first pass clears `alt` on every slot. |
| Tones.MarkGroup | index-addon-3.js:50 | A dark group adds `alt` to its members' slots, and a light one adds nothing. |
| Tones.AnyDarkParity | index-addon-5.js:59-76 | When no two units hold p, p is painted dark by some unit exactly when the last unit holding it is dark. |
| Tones.StrictAgreesWhenGroupsSpan | index-addon-5.js:59-76 | With spanning groups, the strict pass gives the same flags as the tone-map pass. |
| Tones.AsWrittenLoopNeverEnds | vt_addon_1.58.js:92-102 | As written, `__VT_GROUPS = [[5,3]]` with five slots keeps i within 1..5 after any number of steps, so the loop never exits. |
| Tones.CorrectedStepAgrees | vt_addon_1.58.js:97 | The corrected step always moves forward, and it equals the written step wherever that one moves forward. |
| Tones.ParsedEndsForward | vt_addon_1.58.js:17-22 | No parsed group ends below its first element. |
| Tones.StepAsWrittenForward | vt_addon_1.58.js:97 | When no group ends below its first element, the written step equals the corrected step. |
| Tones.AsWrittenVisitsUnits | vt_addon_1.58.js:90-101 | When no group ends below its first element, the written loop visits exactly the start paragraphs of the units, in order, and exits right after the last one. |
| Tones.BackwardGroupChangesScan | vt_addon_1.58.js:90-101 | With `[[1,2],[3,1],[2,5]]` and five slots the written loop visits 1, 3, 2 and ends at 6. The corrected scan visits [1,2], [3,1], 4 and 5. |
| Labels.Insert | vt_addon_1.58.js:44 | Inserting into an ascending distinct list keeps it ascending and distinct, and adds exactly that element. |
| Labels.SortedSet | vt_addon_1.58.js:44 | `[...new Set(nums)].sort((a,b)=>a-b)` is ascending, distinct, and holds exactly the input's values. |
| Labels.IncreasingUnique | vt_addon_1.58.js:44 | Two ascending distinct lists with the same elements are equal. |
| Labels.RangeLabel | vt_addon_1.58.js:43-49 | The vt `rangeLabel`. Its partner lemmas state what it shows. Labels.SortedSetCanonical: only the set of numbers matters. Labels.RunLabel: a run of three or more is the en-dash span. Labels.PlusLabelReadsBack: any other set of several values is "Avsnittene " and a `+` list that reads back as the distinct values, ascending. |
| Labels.SortedSetCanonical | vt_addon_1.58.js:43-49 | The label depends only on the set of numbers, not on their order or on repeats. |
| Labels.Numerals | vt_addon_1.58.js:48 | The decimal form of every number, in order. |
| Labels.PlusLabelHasNoEnDash | vt_addon_1.58.js:48 | A `+`-joined label holds no en dash. |
| Labels.SimpleRangeLabel | index-addon-3.js:34-39 | The index `rangeLabel`: one value or a consecutive pair as in the vt addons, anything else as the en-dash span. Labels.DialectsAgreeIffContiguous states that it equals the vt label exactly when the distinct values form a run. |
| Labels.SpanHasEnDash | index-addon.js:37 | A span label holds an en dash. |
| Labels.DialectsAgreeIffContiguous | vt_addon_1.54.js:18-24 | The vt and index dialects give the same label exactly when the distinct values form a run. |
| Labels.ReadNumeralsOf | vt_addon_1.58.js:48 | Reading back `+`-separated decimals of naturals gives those naturals. |
| Labels.PlusLabelReadsBack | vt_addon_1.57.js:43-49 | A vt label of a set that is not a run is "Avsnittene " plus a list that reads back as the distinct values, ascending. |
| Labels.PlusLabelExample | vt_addon_1.58.js:48 | [7,9] gives "Avsnittene 7+9". |
| Labels.SingleLabelExample | vt_addon_1.58.js:46 | [5] gives "Avsnitt 5". |
| Labels.SpanLabelExample | index-addon-3.js:34-39 | The index dialect writes [9,7] as "Avsnittene 7–9". |
| Labels.RunLabel | index-addon-5.js:51-56 | A run gets the same label in both dialects. |
| Labels.JoinModifiers | index_addon.js:229-235 | `joinModifiers`. Labels.JoinModifiersAgrees and Labels.JoinModifiersThree state its texts: nothing for no modifier, " + a", " + a og b", and " + a, b og c". |
| Labels.JoinModifiersAgrees | index_addon.js:229-235 | For up to two modifiers, `joinModifiers` is `" + " + mods.join(" og ")`. With two, it is the comma-list rule with "og" before the last. |
| Labels.JoinModifiersThree | index_addon_1.30.js:189-196 | Three modifiers give " + a, b og c". |
| Labels.FromToLabel | index_addon.js:249-261 | The overlay caption of a range. Labels.FromToLabelIsGroupToken states that a range of three or more is "Avsnitt from-to", whose span the group parser reads back as exactly from..to. |
| Labels.FromToLabelIsGroupToken | index_addon.js:249-261 | A range of three or more is "Avsnitt from-to", and its hyphen span parses with the group parser as exactly from..to. |
| Annotations.LowerChar | vt_addon_1.58.js:27 | `toLowerCase` gives a letter a-z exactly for a-z, A-Z and the Kelvin sign, and keeps digits and white space. |
| Annotations.MatchAnno | vt_addon_1.58.js:27-29 | The match succeeds exactly when the text has the form `^(\d+)([a-z])?$`. |
| Annotations.ParseAnno | vt_addon_1.58.js:25-30 | A number is taken as is, without a rank. Text matches exactly when its lower-cased, trimmed form has the pattern's shape. |
| Annotations.ParseAnnoOfText | vt_addon_1.58.js:25-30 | A number followed by a letter of either case reads back as that number and the small letter. |
| Annotations.ParseAnnoOfNumeral | vt_addon_1.58.js:25-30 | A bare number reads back unranked. |
| Annotations.ParseAnnoPaddedExample | vt_addon_1.58.js:27 | Upper case and surrounding white space do not matter. |
| Annotations.ParseAnnoRefusesExamples | vt_addon_1.58.js:27-28 | Text after the letter, or a letter alone, is refused. |
| Annotations.Ordinal | vt_addon_1.58.js:36 | The letter's rank is `charCode - 96`, which is 1..26, and there is no rank without a letter. |
| Annotations.UpsertAllAt | vt_addon_1.58.js:34-37 | The last entry naming p decides p's flag, and the other flag of p is untouched. |
| Annotations.Annotations | vt_addon_1.58.js:31-41 | `buildAnnotations` as a value. Annotations.AnnotationsAt states which entry decides each flag, and Annotations.BuildAnnotations proves the loops compute it. |
| Annotations.AnnotationsAt | vt_addon_1.58.js:31-41 | There is a record for p exactly when some accepted entry names it. The frame flag comes from the last frame entry. The read flag comes from the last `reads` entry, or, only when `reads` is missing or empty, from the legacy list, unranked. |
| Annotations.BuiltRanksAreLetters | vt_addon_1.58.js:31-41 | Every recorded rank is in 1..26. |
| Annotations.UpsertEntries | vt_addon_1.58.js:38 | The `forEach` loop upserts every accepted entry in order. |
| Annotations.UpsertLegacy | vt_addon_1.58.js:40 | The legacy loop upserts an unranked read flag for every legacy paragraph. |
| Annotations.BuildAnnotations | vt_addon_1.58.js:31-42 | The method builds exactly the annotation map of the specification. |
| Annotations.MinRank | vt_addon_1.58.js:52-56 | The minimum is some member's rank, and it is at most every member's rank. |
| Annotations.Extras | vt_addon_1.58.js:50-63 | Nothing without flags. A name appears exactly when some member has that flag. There are at most two names, never the same twice. With both, Ramme is first exactly when the least frame rank is at most the least read rank, an absent rank counting as 1e9. |
| Annotations.OrderExtrasForParas | vt_addon_1.54.js:25-38 | The scan loop over the members returns exactly `Extras`. |
| Annotations.UnrankedPutsRammeFirst | vt_addon_1.58.js:60 | Both flags without ranks give Ramme first. |
| Annotations.GroupExtrasExample | vt_addon_1.58.js:52-59 | Over a group, any member's flag counts and the least rank decides. |
| Annotations.SingleExtras | index-addon.js:101-109 | A name appears exactly when p is in its set. With both, Ramme is first exactly when `frame ?? 1 <= read ?? 2`. |
| Annotations.SortByOrder | vt_addon_1.58.js:126 | The pins are sorted by rank, the result is a permutation, and the sort is stable. |
| Annotations.OffsetsSymmetric | vt_addon_1.57.js:122-131 | The offsets `base + i*spacing` are symmetric about 0 and spaced `spacing` apart. |
| Annotations.FewOffsets | vt_addon_1.53.js:64-68 | One pin sits at 0, and two sit at ∓spacing/2. |
| Annotations.PinItems | vt_addon_1.53.js:57-62 | A frame pin with rank default 1, then a read pin with rank default 2, each only when its flag is present. |
| Annotations.SlotPinsShape | vt_addon_1.53.js:57-68 | There are no pins without a flag and one centred pin for one flag. With two, the read pin comes first exactly when its rank is below the frame's. |
| Annotations.LayoutPins | vt_addon_1.54.js:72-97 | Every slot's pins are replaced by those of its paragraph, whatever it had before. |
| Annotations.NoAnnNoPins | vt_addon_1.54.js:79-86 | A paragraph without an annotation gets no pins. |
| Annotations.IndexPinsMatchMessage | index-addon.js:78-109 | In the index addons, a paragraph's pins and its click message put the two modifiers in the same order. |
| Annotations.VtPinsAndExtrasAgreeWhenRanked | vt_addon_1.58.js:50-63 | With both ranks present, the vt pin order equals the modifier order of the text. |
| Annotations.VtPinsAndExtrasDisagreeUnranked | vt_addon_1.58.js:120-126 | A frame ranked c with an unranked read puts the read pin first, yet the text puts Ramme first. |
| Messages.UnitLines | vt_addon_1.57.js:150-165 | One line per unit, in order. |
| Messages.MessageList | vt_addon_1.57.js:137-167 | The text `buildMessageList` writes. Messages.BuildMessageList proves the loop computes it. Messages.NoGroupsLineCount, Messages.NoGroupsOneLinePerParagraph and Messages.ParagraphOnOneLine state its lines. |
| Messages.BuildMessageList | vt_addon_1.57.js:137-167 | The `while` loop writes "—" for no slots. Otherwise it writes one line per unit of the scan, joined by `<br>`: a group gives its label alone, and a paragraph gives its label and its modifiers. |
| Messages.NoGroupsOneLinePerParagraph | vt_addon_1.54.js:104-128 | With no groups, line k is paragraph k+1's line. |
| Messages.NoGroupsLineCount | vt_addon_1.54.js:113-126 | With no groups, there are exactly n lines. |
| Messages.ParagraphOnOneLine | vt_addon_1.57.js:150-165 | With groups that are runs, every paragraph 1..n is on exactly one line. |
| Messages.VtClickMessage | vt_addon_1.58.js:156-166 | The vt click message. Messages.ClickMatchesListLine states that it is the clicked unit's list line, followed by the group's modifiers for a group. |
| Messages.ClickMatchesListLine | vt_addon_1.58.js:156-166 | A click on a unit's first paragraph gives that unit's list line, followed by the group's modifiers for a group. |
| Messages.IndexClickMessage | index-addon.js:95-110 | The index click message. Messages.BuildMsgForAgrees states that index-addon-5.js builds the same text. Annotations.IndexPinsMatchMessage states that its modifiers are in pin order. |
| Messages.IndexGroupFor | index-addon-5.js:102 | The group looked up for a click holds the clicked paragraph. |
| Messages.BuildSingleMsg | index-addon-5.js:88-100 | `buildSingleMsg(p)`: the paragraph label, then the suffix. Messages.SingleSuffix and Messages.SuffixIsExtras state the suffix. |
| Messages.SingleSuffix | index-addon-5.js:88-100 | The suffix is empty or starts with a space, and it never ends with white space. |
| Messages.SuffixIsExtras | index-addon-3.js:91-114 | The spelled-out suffixes are `" + " + extras.join(" og ")` of the single-paragraph ordering. |
| Messages.BuildMsgFor | index-addon-5.js:101-105 | `buildMsgFor(p)`. Messages.BuildMsgForAgrees states that it equals the index-addon.js click message. Messages.MatchMessage states that it is trimmed and, read back by the pattern, names p again or nothing. |
| Messages.BuildMsgForAgrees | index-addon-5.js:101-105 | `buildMsgFor` of index-addon-5.js is the click message of index-addon.js. |
| Messages.MatchAvsnitt | index-addon-3.js:132 | A match needs "Avsnitt" followed by white space. |
| Messages.MatchAvsnittOf | index-addon-5.js:145 | "Avsnitt", white space, digits, then the end or a non-word character: the match gives the digits' value. |
| Messages.NoMatchWithoutSpace | index-addon-3.js:132 | A text without white space after "Avsnitt" (such as "Avsnittene …") does not match. |
| Messages.MatchGroupLabel | index-addon-3.js:130-139 | A group label either does not match, or matches the one paragraph it names. |
| Messages.ManyGroupLabel | index-addon-3.js:34-39 | A group of several paragraphs is labelled "Avsnittene …". |
| Messages.LabelTrimmed | index-addon-3.js:131 | Labels with their suffixes neither start nor end with white space. |
| Messages.Normalize3 | index-addon-3.js:122-141 | The index-addon-3.js normaliser. Messages.Normalize3Idempotent states that it is idempotent. Messages.Normalize3OfCaption states that a paragraph of a larger group gets the label of the last group holding it. |
| Messages.Normalize3Idempotent | index-addon-3.js:122-141 | Normalising a normalised text changes nothing. |
| Messages.Normalize3OfCaption | index-addon-3.js:130-139 | A paragraph's message, for a paragraph in a larger group, becomes that group's label. The group is the last one holding the paragraph. |
| Messages.Normalize3Example | index-addon-3.js:130-139 | With the group 4-5, "Avsnitt 5 + Ramme" becomes "Avsnittene 4 og 5". |
| Messages.MatchMessage | index-addon-5.js:143-150 | `buildMsgFor(p)` is trimmed, and it either does not match or matches p again. |
| Messages.Normalize5 | index-addon-5.js:139-152 | The index-addon-5.js normaliser, with the published `buildMsgFor`. Messages.Normalize5Idempotent states that it is idempotent. |
| Messages.Normalize5Idempotent | index-addon-5.js:143-150 | Normalising a normalised text changes nothing. |
| Messages.MessageBox.constructor | index-addon-5.js:20 | The box starts empty and not playing. |
| Messages.MessageBox.SetPlaying | index-addon-5.js:22-25 | `setPlaying(on)` sets the flag and leaves the text alone. |
| Messages.MessageBox.Click | index-addon-5.js:128-133 | While playing, a click changes nothing. Otherwise the text becomes `buildMsgFor(p)`. |
| Messages.MessageBox.Normalize | index-addon-5.js:139-152 | The text is rewritten as the normaliser says, and a matching message sets the playing flag. |
| Messages.NormaliseTwice | index-addon-5.js:154-156 | The observer firing again after a normalisation leaves the text as after one. |
| Overlay.FirstIndex | index_addon.js:77-80 | The result is the first index satisfying the test, or the length when none does. |
| Overlay.ActiveParaIndex | index_addon.js:71-86 | The active index is -1 or a slot index. |
| Overlay.GetActiveParaIndex | index_addon.js:71-86 | The scan loop returns the first slot containing x. When none does, it returns the last slot if x is past the last slot's right edge, otherwise -1. Without a cursor it returns -1. |
| Overlay.AtWhichFrame | index_addon.js:88-104 | `atWhichFrame()`. Overlay.FrameOrder states that, for a cursor at x, the first of intro, review and outro containing x wins, and there is no frame when none contains it. |
| Overlay.FrameOrder | index_addon.js:88-104 | The intro, review and outro frames are tried in that order, and the first one on the page containing x wins. |
| Overlay.AsNumber | index_addon.js:132 | A relational comparison reads a number as itself and `null` as 0. It reads `undefined` as NaN, so no comparison holds. |
| Overlay.AnyCovers | index_addon.js:130-137 | Some entry covers the paragraph. A 2-element array is an inclusive range with `null` ends read as 0 and `undefined` ends covering nothing. A `{from,to}` object counts only when neither end is `null` or `undefined`. A number covers by equality. |
| Overlay.HasRangeFlag | index_addon.js:125-150 | The flag is set exactly when the hook's list covers idx+1, or else the DOM heuristics flag the slot. |
| Overlay.IsReadPara | index_addon.js:106-112 | `isReadPara(idx)`: the hook's list, zero-based when it holds 0, else the DOM heuristics. Overlay.ReadBasesAgree states that both bases mark the same slots. |
| Overlay.ReadBasesAgree | index_addon.js:106-112 | A zero-based read list and the same list counted from one mark the same slots. |
| Overlay.Modifiers | index_addon.js:263-266 | The modifiers come in the fixed order Les-skriftsted, Ramme, Bilde, each only when its flag is set. |
| Overlay.GroupForIndex | index_addon.js:183-199 | The first normalised range whose ends, read as numbers (`null` as 0), hold idx+1 is returned with its ends as given. When there is none, the result is the geometry fallback (none in 1.30). |
| Overlay.GroupForIndexFirst | index_addon_1.30.js:168-186 | Earlier entries win. |
| Overlay.NullEndHolds | index_addon.js:186-195 | `[[null,5]]` holds paragraph 3, and the overlay then shows "Avsnitt null-5". A `[null,5]` frame pair covers paragraph 3; a `{from:null,to:5}` frame object does not. |
| Overlay.CurrentMessage | index_addon.js:237-269 | `currentMessage()`. Its partner lemmas state: a frame decides (Overlay.FrameTakesPrecedence); the text is empty exactly when there is no frame and no active slot (Overlay.NoActiveSlotNoMessage); a slot without a group shows its one-based number and its modifiers (Overlay.UngroupedSlotMessage). |
| Overlay.RangeCaption | index_addon.js:249-258 | The caption of a group range, with `len` computed on the ends read as numbers and the ends shown as JavaScript writes them ("null", "undefined"). Overlay.RangeCaptionOfNumbers and Overlay.NullEndHolds state it. |
| Overlay.RangeCaptionOfNumbers | index_addon.js:249-258 | For numeric ends, the caption of a group range is the from-to label. |
| Overlay.FrameTakesPrecedence | index_addon.js:238-244 | A frame under the cursor decides the message. |
| Overlay.NoActiveSlotNoMessage | index_addon.js:246-247 | Without a frame, the message is empty exactly when there is no active slot. |
| Overlay.ParagraphLabelNonEmpty | index_addon_1.30.js:210-223 | Every paragraph label starts with "Avsnitt ". |
| Overlay.FrameTextsAreNotParagraphs | index_addon_1.30.js:199-231 | A frame text never equals a paragraph message. |
| Overlay.AllModifiers | index_addon.js:263-268 | All three flags give " + Les-skriftsted, Ramme og Bilde". |
| Overlay.UngroupedSlotMessage | index_addon.js:255-268 | A slot without a group range shows "Avsnitt", its one-based number, and its modifiers. |
| Scheduling.HeavyCalls | index_addon.js:309-318 | Heavy work calls the present layout helpers, or else `applyAll` exactly when no helper exists. |
| Scheduling.LightCalls | index_addon.js:319-321 | The light updates run every time, and the 1.30/1.31 overlay also updates its message. |
| Scheduling.ChangesAppend | index_addon_1.28.js:80-98 | One more `safeApply` adds one heavy run exactly when its signature differs from the recorded one. |
| Scheduling.RepeatIsFree | index_addon_1.28.js:80-98 | `safeApply` twice with an unchanged structure does the heavy work once. |
| Scheduling.SteadyStructure | index_addon_1.30.js:261-273 | A structure that never changes is laid out once, or never if its signature is the initial one. |
| Scheduling.Gate.constructor | index_addon_1.28.js:37-62 | No frame is pending and the signature is `{-1, ''}`. |
| Scheduling.Gate.CoalescedApply | index_addon_1.28.js:37-46 | A frame is requested only when none is pending, and at most one is ever outstanding. |
| Scheduling.Gate.SafeApply | index_addon.js:306-322 | Heavy calls run only on a changed signature, then the light calls run. The signature is recorded, and the count of heavy runs equals the number of changes. |
| Scheduling.Gate.AnimationFrame | index_addon.js:40-45 | The frame clears the flag, then runs `safeApply`. |
| Countdown.FmtReadsBack | index_addon_1.28.js:162-167 | `fmt` reads back as the minutes and seconds of `max(0, floor(ms/1000))`. |
| Countdown.FmtOfWholeSeconds | index_addon_1.28.js:163 | Only the whole seconds matter. |
| Countdown.FmtNegative | index_addon_1.28.js:163 | A negative time shows "00:00". |
| Countdown.FmtMinuteAndSecond | index_addon_1.28.js:162-167 | 61000 and 61999 ms show "01:01". |
| Countdown.FmtHundredMinutes | index_addon_1.28.js:164 | A hundred minutes show "100:00". |
| Countdown.Controller.constructor | index_addon_1.28.js:160-161 | The controller starts stopped, with `pausedAt` 0 and no painted seconds. |
| Countdown.Controller.Start | index_addon_1.28.js:182-188 | Start does nothing while running. Otherwise it runs from now, forgets the painted seconds and asks for a frame. The running time is unchanged. |
| Countdown.Controller.Pause | index_addon_1.28.js:189-194 | Pause does nothing while stopped. Otherwise it adds `now - startT` to `pausedAt`, and the running time then stays constant. |
| Countdown.Controller.Stop | index_addon_1.28.js:195-199 | Stop leaves the controller not running, with `pausedAt` 0 and zero running time. |
| Countdown.Controller.Tick | index_addon_1.28.js:171-181 | The time left is `max(0, duration - running time)`. The text is repainted only when its whole seconds change, and then shows `fmt` of it. Another frame is requested exactly while time is left. |
| Dates.MonthsFillYear | index_article_window_1.0.js:38 | The months' lengths add up to the year's length. |
| Dates.CarryDays | index_article_window_1.0.js:38 | Carrying an overflowing day of the month gives a valid date. |
| Dates.CarryDaysNumber | index_article_window_1.0.js:38 | The carried date is d-1 days after the first of the month. |
| Dates.CarryValid | index_article_window_1.0.js:38 | A valid date carries to itself. |
| Dates.Utc | index_article_window_1.0.js:38 | `Date.UTC(y, m-1, d)` for m, d ≥ 1 is a valid date. |
| Dates.UtcYear | index_article_window_1.0.js:38 | `Date.UTC` reads years 0–99 as 1900+y, so its year is at least 100. |
| Dates.UtcOfValid | index_article_window_1.0.js:38 | For a valid date with year ≥ 100, `Date.UTC` gives that date. |
| Dates.UtcExamples | index_article_window_1.0.js:38 | 2025-02-30 is 2025-03-02, year 25 is 1925, and month 14 of 2024 is February 2025. |
| Dates.DayNumberOrder | index_article_window_1.0.js:66 | Day numbers order dates chronologically. |
| Dates.DayNumberInjective | index_article_window_1.0.js:41-47 | Different valid dates have different day numbers. |
| Dates.MondayFirst | index_article_window_1.0.js:54 | `(getUTCDay()+6)%7` is in 0..6. |
| Dates.MondayFirstOrder | index_article_window_1.0.js:54 | Monday is 0, Sunday is 6, and the next day is one more modulo 7. |
| Dates.MondayOfSpec | index_article_window_1.0.js:55-57 | The Monday of a day is a Monday at most six days earlier, and a Monday is its own Monday. |
| Dates.SameWeek | index_article_window_1.0.js:49-59 | Every day of a week has the same Monday. |
| Dates.MondayOfToday | index_article_window_1.0.js:49-59 | `mondayOfToday()` for today's local calendar date. Dates.MondayOfTodaySpec states that it is midnight UTC of a Monday at most six days before today. |
| Dates.MondayOfTodaySpec | index_article_window_1.0.js:49-59 | `mondayOfToday()` is midnight UTC of a Monday, at most six days before today. |
| Dates.EpochWeek | index_article_window_1.0.js:54 | 1 January 1970 was a Thursday. |
| Articles.NumberOfDigits | index_article_window_1.0.js:36 | `Number` of a digit string is its decimal value. |
| Articles.FieldsDate | index_article_window_1.0.js:36-38 | A parsed date is a valid date with a year of at least 100. |
| Articles.ParseNumbers | index_article_window_1.0.js:36-38 | Three decimal fields give no date when one is 0, and otherwise `Date.UTC` of the fields. |
| Articles.FmtDate | index_article_window_1.0.js:41-47 | `fmtDate`. Articles.FmtParseRoundTrip states that `parseISODate` reads it back as the same date, and Articles.NumberOfPadded that padded fields read back. |
| Articles.NumberOfPadded | index_article_window_1.0.js:44-45 | A padded month or day reads back as its number. |
| Articles.ParseISODate | index_article_window_1.0.js:34-39 | `parseISODate`. Articles.FieldsDate, Articles.ParseNumbers, Articles.ParseCanonical and Articles.FmtParseRoundTrip state it: a parsed date is valid with year ≥ 100, a zero field gives null, and it inverts `fmtDate`. |
| Articles.FmtParseRoundTrip | index_article_window_1.0.js:34-47 | `parseISODate(fmtDate(d)) == d` for every valid date with a year of at least 100. |
| Articles.ParseCanonical | index_article_window_1.0.js:34-47 | A parsed date is valid, and its canonical text parses to the same date. |
| Articles.ToItem | index_article_window_1.0.js:62-65 | The `map` callback of `normalizeItems`. Articles.ToItemCanonical states it: kept exactly when the date parses, with canonical text, timestamp and title. |
| Articles.ToItemCanonical | index_article_window_1.0.js:62-65 | An item is kept exactly when its date parses. Kept items have the canonical date text, its timestamp and a non-empty title. |
| Articles.ParsedLength | index_article_window_1.0.js:62-65 | Filtering keeps at most as many items, and all of them when every date parses. |
| Articles.ParsedCanonical | index_article_window_1.0.js:61-65 | Every kept item is canonical. |
| Articles.InsertSorted | index_article_window_1.0.js:66 | Insertion keeps the list sorted by timestamp. |
| Articles.InsertMultiset | index_article_window_1.0.js:66 | Insertion adds exactly the one item. |
| Articles.InsertWithTs | index_article_window_1.0.js:66 | Insertion puts an item after the items of the same timestamp. |
| Articles.SortByTsSpec | index_article_window_1.0.js:66 | The sort gives a sorted permutation, and it is stable: items with the same timestamp keep their order. |
| Articles.NormalizeItems | index_article_window_1.0.js:61-68 | `normalizeItems`. Articles.NormalizeItemsSpec states that it is a sorted, stable permutation of the parsable items, all canonical. |
| Articles.NormalizeItemsSpec | index_article_window_1.0.js:61-68 | `normalizeItems` gives a sorted permutation of the parsable items, all canonical, keeping the input order among items of one timestamp. |
| Articles.FindTs | index_article_window_1.0.js:75 | `findIndex` gives the first index with that timestamp, or -1. |
| Articles.BestIndex | index_article_window_1.0.js:76-83 | The loop's `best` over a prefix is -1 or an index in it. |
| Articles.BestIndexIsBest | index_article_window_1.0.js:76-83 | `best` is the earliest index of the greatest timestamp ≤ Monday. |
| Articles.BestUnique | index_article_window_1.0.js:76-83 | Only one index satisfies that description. |
| Articles.AnchorSpec | index_article_window_1.0.js:74-83 | The anchor is the first index of this Monday if present. Otherwise it is the best earlier week, or 0 when there is none. |
| Articles.AssembledSlice | index_article_window_1.0.js:85-94 | The assembled list is the slice from the previous item (if any) to up to four items after the anchor: at most six items around it. |
| Articles.DedupSpec | index_article_window_1.0.js:97-102 | The result has distinct timestamps, the same set of timestamps as the input, and only items of the input. |
| Articles.DedupKeepsFirst | index_article_window_1.0.js:96-102 | Every kept item is the first item of the input with its timestamp, and the kept items keep the order of those first occurrences. |
| Articles.DedupDistinct | index_article_window_1.0.js:97-102 | Input with distinct timestamps is left unchanged. |
| Articles.Window | index_article_window_1.0.js:70-103 | `pickWindow`. Articles.WindowSpec, Articles.WindowSorted, Articles.WindowOfDistinctWeeks and Articles.DedupKeepsFirst state it, and Articles.PickWindow proves the loops compute it. |
| Articles.WindowSpec | index_article_window_1.0.js:70-103 | The window has at most six items, with distinct timestamps, all taken from the items. It holds the anchor's week, and this Monday's week whenever the items hold it. |
| Articles.WindowSorted | index_article_window_1.0.js:70-103 | From sorted items the window is strictly increasing. |
| Articles.WindowOfDistinctWeeks | index_article_window_1.0.js:85-102 | With distinct timestamps, the window is exactly the slice around the anchor. |
| Articles.FindAnchor | index_article_window_1.0.js:74-83 | The `findIndex` and `best` loop returns the anchor. |
| Articles.Assemble | index_article_window_1.0.js:85-94 | The `for` loop assembles exactly the slice around the anchor. |
| Articles.DedupByTs | index_article_window_1.0.js:97-102 | The `seen`-set filter returns exactly the deduplicated list. |
| Articles.PickWindow | index_article_window_1.0.js:70-103 | `pickWindow` returns exactly the window, and [] for no items. |
| Articles.Placeholder | index_article_window_1.0.js:107 | The kept placeholder is an option without a value, and there is none when every option has a value. |
| Articles.ItemOptionsSpec | index_article_window_1.0.js:113-119 | One option per item, with its date and title, selected exactly when its timestamp is the current Monday's. For distinct timestamps at most one is selected, and one is selected when the Monday is among them. |
| Articles.RenderedSpec | index_article_window_1.0.js:105-124 | The options are the placeholder (if any), followed by the item options. |
| Articles.Select.constructor | index_article_window_1.0.js:105-107 | The select holds the given options and no `change` event yet. |
| Articles.Select.RenderOptions | index_article_window_1.0.js:105-124 | The loop leaves exactly the rendered options and dispatches one `change` event. |
| Articles.InitSelectsThisWeek | index_article_window_1.0.js:151-160 | `init` shows at most six weeks in increasing order and selects at most one. It selects this Monday's week whenever the items hold it. |

## Left out

- DOM and CSS are left out: `ensureCSS`, element creation, `classList` and style writes, `innerHTML`/`textContent`. They are modelled as returned values: the `alt` flags, pin records, message strings, select options.
- MutationObserver/ResizeObserver wiring, `whenTimelineReady` polling, `setTimeout` watchdogs, the wrapping of the host's render functions and the event-listener bookkeeping are left out: they are event-loop plumbing. Of the animation-frame queue, only the pending flag is modelled.
- The `try`/`catch` around the host hooks is not modelled: a hook that throws is the same as a missing hook.
- DOM heuristics are parameters: class names, `dataset` and icon sniffing in `isReadPara`, `hasFrameFlag` and `hasImageFlag`. They are given as sets of slot indices.
- Overlay.AnyCovers and Overlay.GroupForIndex: a range end is a number, `null` or `undefined`. Other JSON values that a comparison would coerce, such as numeric strings, are not modelled.
- Geometry is a parameter: `getCursorX`, `getBoundingClientRect` and the group-overlay fallback of `groupForIndex` (index_addon.js:200-225). Slot rectangles and the cursor x are integers.
- The play/pause click-text heuristics (index-addon-5.js:160-176) are left out. The playing flag is set through `MessageBox.SetPlaying`; the watchdog that clears it is that call.
- `fetch` and JSON loading in `getItemsFromAnywhere`, and `findSelect`, are not part of this model. The raw items and the select's current options are parameters.
- Time is an integer number of milliseconds: `performance.now()` and `Date.now()` floating-point values are not modelled.
- Local time zones are not modelled: today's local calendar date is a parameter of `Dates.MondayOfToday`.
- Dates.MondayOfToday: requires a year of at least 0. Its specification lemma requires at least 100, where `Date.UTC` does not re-read the year. The `Date` range limit (±8.64e15 ms) is not modelled.
- Articles.NumberOf: `Number(text)` is modelled for decimal digit strings (and "" as 0). Signs, decimals, exponents, hex and `Infinity` are read as not a number, and `Number` of a very long digit string is exact rather than rounded.
- Articles.RawItem: a `week_start` or `title` that is present but is not a string is not modelled.
- Articles.Select.RenderOptions: only the `selected` flag the script sets is modelled, not the browser's choice of one selected option in a single-select element.
- Groups.ParseToken: only the ASCII digits of `\d` are modelled. JavaScript numbers above 2^53 lose precision; here they are exact.
- Annotations.ParseAnno: a JSON number entry is assumed to be an integer, and `String(entry)` of other JSON values is not modelled.
- Annotations.LowerChar: only the case mapping that matters to `^(\d+)([a-z])?$` is modelled (ASCII capitals and the Kelvin sign).
- Annotations.Offset: pixel offsets are computed as exact reals, not as floating point.
- Countdown.Controller.Tick: the times are integers, so the floating-point `remain` of the source is modelled as a whole number of milliseconds.
- Tones.Next: the scan uses the corrected step (see Findings), not the step as written. This changes the result for any group whose last element is below its first, even when the written loop ends. With `__VT_GROUPS=[[1,2],[3,1],[2,5]]` and five slots the written loop visits 1, 3, 2 and ends (Tones.BackwardGroupChangesScan), so paragraph 5 is painted last by [2,5], light. The model paints 4 and 5 alone, so 5 ends dark, and the message list has four lines instead of three. Tones.ComputeTones, Tones.ApplyTwoToneAlternation, Tones.ApplyGroupAwareTwoTone, Tones.ApplyGroupAwareTwoToneStrict, Messages.UnitLines, Messages.BuildMessageList and Messages.VtClickMessage inherit this step. Where no group ends below its first element (every parsed group), the two scans are the same (Tones.AsWrittenVisitsUnits).
- Messages.BuildMessageList: uses the corrected step, as Tones.Next does.
- Messages.MessageBox.Normalize: always uses the published `buildMsgFor`. The fallback `p => \`Avsnitt ${p}\`` (index-addon-5.js:140-141) is not modelled. With that fallback, when layout returned before publishing its builder, every "Avsnitt N…" would be rewritten to the bare "Avsnitt N".
- Articles.NormalizeItems: a `null` entry in the raw items makes `normalizeItems` throw at `it.week_start` (index_article_window_1.0.js:62-63). Then `init` renders nothing on the `__VT_ITEMS` path, and the `getItems` path falls through to `data-src`. RawItem has no null case, so NormalizeItems always returns.

## Findings

| source | as written | input that shows it | evidently intended | confidence | as-written member | corrected member |
|---|---|---|---|---|---|---|
| vt_addon_1.58.js:92-102 (and the same loops in vt_addon_1.53.js, 1.54, 1.57, index-addon.js, index-addon-3.js, index-addon-5.js) | After a group the scan continues at `g[g.length-1] + 1`, whatever that is | `__VT_GROUPS = [[5,3]]` with five slots: i goes 1,2,3,4,5,4,5,… and `while (i <= 5)` never ends. With `[[1,2],[3,1],[2,5]]` the loop ends but skips paragraph 4 (Tones.BackwardGroupChangesScan) | The scan moves past the group and always forward | not executed | Tones.AsWrittenLoopNeverEnds | Tones.CorrectedStepAgrees |
