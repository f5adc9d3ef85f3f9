/**
 * The work gate shared by index_addon_1.28.js, index_addon_1.30.js and index_addon.js (1.31).
 *
 * Observers and wrapped timeline renderers call `coalescedApply`, which asks for at most one
 * animation frame at a time; the frame runs `safeApply`, which does the heavy layout work only
 * when the structure signature (slot count and the groups' JSON) differs from the last one it
 * recorded, and the light updates every time. The animation-frame queue is not modelled: the
 * frame callback is the method `AnimationFrame`, which the page runs once per request.
 */
module Scheduling {
  import opened Js

  /** `computeSignature()`: the number of paragraph slots and `JSON.stringify(getGroups())`. */
  datatype Signature = Signature(count: int, groupsKey: string)

  /** The signature `__lastSig` starts with, and the one a page without a timeline has. */
  const Initial := Signature(-1, "")

  /**
   * `computeSignature()` from what it reads: the slot count (`None` without a timeline) and the
   * groups' JSON text (`None` without a `getGroups` hook or when it throws).
   */
  function ComputeSignature(slotCount: Option<nat>, groupsJson: Option<string>): Signature {
    match slotCount
    case None => Initial
    case Some(n) => Signature(n, match groupsJson case Some(j) => j case None => "")
  }

  /** The host functions `safeApply` may call, and the overlay's own `updateMessage`. */
  datatype Hook = ApplyTwoToneWithGroups | PlaceGroupOverlays | LayoutPins | ApplyAll
                | KeepMessageStable | UpdateStats | UpdateMessage

  predicate IsLight(h: Hook) {
    h == KeepMessageStable || h == UpdateStats || h == UpdateMessage
  }

  function IfPresent(present: set<Hook>, h: Hook): seq<Hook> {
    if h in present then [h] else []
  }

  /**
   * The heavy work: the three layout helpers, in this order, when any of them exists; otherwise
   * the host's `applyAll`; otherwise nothing.
   */
  function HeavyCalls(present: set<Hook>): (calls: seq<Hook>)
    ensures forall k :: 0 <= k < |calls| ==> calls[k] in present && !IsLight(calls[k])
    ensures ApplyAll in calls <==>
      ApplyAll in present && ApplyTwoToneWithGroups !in present && PlaceGroupOverlays !in present && LayoutPins !in present
  {
    if ApplyTwoToneWithGroups in present || PlaceGroupOverlays in present || LayoutPins in present then
      IfPresent(present, ApplyTwoToneWithGroups) + IfPresent(present, PlaceGroupOverlays) + IfPresent(present, LayoutPins)
    else IfPresent(present, ApplyAll)
  }

  /**
   * The light updates that run on every frame; 1.30 and 1.31 (`ownMessage`) also rewrite their
   * message line.
   */
  function LightCalls(present: set<Hook>, ownMessage: bool): (calls: seq<Hook>)
    ensures forall k :: 0 <= k < |calls| ==> IsLight(calls[k])
    ensures UpdateMessage in calls <==> ownMessage
  {
    IfPresent(present, KeepMessageStable) + IfPresent(present, UpdateStats) + (if ownMessage then [UpdateMessage] else [])
  }

  /** The number of frames with heavy work when `safeApply` sees `sigs` in turn after `last`. */
  function Changes(last: Signature, sigs: seq<Signature>): (n: nat)
    ensures n <= |sigs|
    decreases |sigs|
  {
    if sigs == [] then 0
    else (if sigs[0] != last then 1 else 0) + Changes(sigs[0], sigs[1..])
  }

  /** The signature recorded after `sigs`. */
  function LastOf(last: Signature, sigs: seq<Signature>): Signature {
    if sigs == [] then last else sigs[|sigs| - 1]
  }

  /** One more `safeApply` adds one heavy run exactly when its signature differs from the recorded one. */
  lemma {:induction false} ChangesAppend(last: Signature, sigs: seq<Signature>, s: Signature)
    ensures Changes(last, sigs + [s]) == Changes(last, sigs) + (if s != LastOf(last, sigs) then 1 else 0)
    decreases |sigs|
  {
    if sigs != [] {
      assert (sigs + [s])[1..] == sigs[1..] + [s];
      ChangesAppend(sigs[0], sigs[1..], s);
    }
  }

  /** Running `safeApply` again with an unchanged structure does no further heavy work. */
  lemma RepeatIsFree(last: Signature, sigs: seq<Signature>, s: Signature)
    ensures Changes(last, sigs + [s] + [s]) == Changes(last, sigs + [s])
  {
    ChangesAppend(last, sigs + [s], s);
  }

  /** A structure that never changes is laid out once, or never if it is the initial one. */
  lemma {:induction false} SteadyStructure(last: Signature, s: Signature, k: nat)
    requires k >= 1
    ensures Changes(last, seq(k, _ => s)) == (if s != last then 1 else 0)
    decreases k
  {
    var sigs := seq(k, _ => s);
    if k > 1 {
      SteadyStructure(s, s, k - 1);
      assert sigs[1..] == seq(k - 1, _ => s);
    } else {
      assert sigs[1..] == [];
    }
  }

  class Gate {
    /** `applyScheduled`: a frame has been requested and has not run yet. */
    var applyScheduled: bool
    /** `__lastSig` */
    var lastSig: Signature
    /** The host functions this page provides. */
    const present: set<Hook>
    /** Whether this version updates its own message line on every frame (1.30, 1.31). */
    const ownMessage: bool

    /** The signatures `safeApply` has seen, the heavy runs so far, and the frame requests. */
    ghost var seen: seq<Signature>
    ghost var heavyRuns: nat
    ghost var requested: nat
    ghost var served: nat

    ghost predicate Valid()
      reads this
    {
      && heavyRuns == Changes(Initial, seen)
      && lastSig == LastOf(Initial, seen)
      && requested == served + (if applyScheduled then 1 else 0)
    }

    constructor(present: set<Hook>, ownMessage: bool)
      ensures Valid()
      ensures this.present == present && this.ownMessage == ownMessage
      ensures !applyScheduled && lastSig == Initial && seen == [] && requested == 0
    {
      this.present := present;
      this.ownMessage := ownMessage;
      applyScheduled := false;
      lastSig := Initial;
      seen := [];
      heavyRuns := 0;
      requested := 0;
      served := 0;
    }

    /**
     * `coalescedApply()`: ask for a frame unless one is already pending; `asked` is whether
     * `requestAnimationFrame` was called. At most one frame is ever outstanding.
     */
    method CoalescedApply() returns (asked: bool)
      requires Valid()
      modifies this
      ensures Valid()
      ensures asked == !old(applyScheduled)
      ensures applyScheduled
      ensures requested == old(requested) + (if asked then 1 else 0) && served == old(served)
      ensures lastSig == old(lastSig) && seen == old(seen) && heavyRuns == old(heavyRuns)
      ensures requested - served == 1
    {
      if applyScheduled {
        return false;
      }
      applyScheduled := true;
      requested := requested + 1;
      asked := true;
    }

    /**
     * `safeApply()` with the structure's current signature: the heavy calls when it differs
     * from the recorded one, then the light ones; the signature is recorded.
     */
    method SafeApply(sig: Signature) returns (calls: seq<Hook>)
      requires Valid()
      modifies this
      ensures Valid()
      ensures calls == (if sig != old(lastSig) then HeavyCalls(present) else []) + LightCalls(present, ownMessage)
      ensures lastSig == sig && seen == old(seen) + [sig]
      ensures heavyRuns == old(heavyRuns) + (if sig != old(lastSig) then 1 else 0)
      ensures applyScheduled == old(applyScheduled) && requested == old(requested) && served == old(served)
    {
      ChangesAppend(Initial, seen, sig);
      var same := sig.count == lastSig.count && sig.groupsKey == lastSig.groupsKey;
      calls := [];
      if !same {
        lastSig := sig;
        heavyRuns := heavyRuns + 1;
        calls := HeavyCalls(present);
      }
      seen := seen + [sig];
      calls := calls + LightCalls(present, ownMessage);
    }

    /** The requested frame: clear the flag, then `safeApply()`. */
    method AnimationFrame(sig: Signature) returns (calls: seq<Hook>)
      requires Valid() && applyScheduled
      modifies this
      ensures Valid()
      ensures !applyScheduled && served == old(served) + 1 && requested == old(requested)
      ensures calls == (if sig != old(lastSig) then HeavyCalls(present) else []) + LightCalls(present, ownMessage)
      ensures lastSig == sig && seen == old(seen) + [sig]
    {
      applyScheduled := false;
      served := served + 1;
      calls := SafeApply(sig);
    }
  }
}
