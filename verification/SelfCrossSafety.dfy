/**
 No run of reconciliations ever leaves two of our own orders able to trade with each other, exactly
 as long as the desired quotes of a token are apart.

 A cycle reconciles one token. Any of its places may be vetoed or rejected, and any orders may
 leave the book by themselves (fills, expiries) before the next cycle.
 */
module SelfCrossSafety {
  import opened Common
  import opened OrderTypes
  import opened OrderDiff
  import opened Exchange
  import opened MatchingQuality
  import opened MutationAccounting
  import opened Convergence

  /** A buy and a sell of one token within its tick. */
  ghost predicate Clash(a: ConfirmedOrder, b: ConfirmedOrder, ticks: string -> real)
  {
    a.tokenId == b.tokenId && a.side != b.side && PriceMatches(a.price, b.price, ticks(a.tokenId))
  }

  ghost predicate Safe(resting: seq<ConfirmedOrder>, ticks: string -> real)
  {
    forall a, b :: a in resting && b in resting ==> !Clash(a, b, ticks)
  }

  /** Opposing intents of a token are at least a tick and the tolerance apart. */
  ghost predicate Apart(desired: seq<OrderIntent>)
  {
    forall i, j :: i in desired && j in desired && i.tokenId == j.tokenId && i.side != j.side ==>
      !PriceMatches(i.price, j.price, i.tickSize)
  }

  /** A reconciliation of one token: its intents, the answers to its places, and the ids gone afterwards. */
  datatype Cycle = Cycle(tokenId: string, desired: seq<OrderIntent>, acks: seq<Option<string>>, gone: set<string>)

  function CycleMutations(resting: seq<ConfirmedOrder>, c: Cycle): seq<OrderMutation>
  {
    Mutations(Plan(c.desired, OfToken(resting, c.tokenId)))
  }

  ghost predicate OwnIntents(tokenId: string, desired: seq<OrderIntent>, ticks: string -> real)
  {
    forall i :: i in desired ==> i.tokenId == tokenId && i.tickSize == ticks(tokenId)
  }

  /** The intents are the token's own, at its tick, and every place has an answer. */
  ghost predicate FitsCycle(resting: seq<ConfirmedOrder>, c: Cycle, ticks: string -> real)
  {
    && OwnIntents(c.tokenId, c.desired, ticks)
    && |c.acks| == |PlaceIntents(CycleMutations(resting, c))|
  }

  function AfterCycle(resting: seq<ConfirmedOrder>, c: Cycle): seq<ConfirmedOrder>
    requires |c.acks| == |PlaceIntents(CycleMutations(resting, c))|
  {
    Excluding(After(resting, CycleMutations(resting, c), c.acks), c.gone)
  }

  /** Two orders rested by acknowledged places clash exactly as their intents do. */
  ghost predicate PlacesClash(intents: seq<OrderIntent>, acks: seq<Option<string>>)
    requires |acks| == |intents|
  {
    exists i, j :: 0 <= i < |acks| && 0 <= j < |acks| && acks[i].Some? && acks[j].Some?
                   && intents[i].tokenId == intents[j].tokenId && intents[i].side != intents[j].side
                   && PriceMatches(intents[i].price, intents[j].price, intents[i].tickSize)
  }

  /** An accepted place meets a resting order that it could trade with. */
  ghost predicate MeetsResting(resting: seq<ConfirmedOrder>, intents: seq<OrderIntent>, acks: seq<Option<string>>,
                               tickSize: real)
    requires |acks| == |intents|
  {
    exists o, n :: o in resting && 0 <= n < |acks| && acks[n].Some? && Crosses(o, intents[n], tickSize)
  }

  // ----- New orders joining a book -----

  lemma {:induction false} AbsSymmetric(x: real, y: real)
    ensures Abs(x - y) == Abs(y - x)
  {
  }

  lemma {:induction false} AcknowledgedHas(intents: seq<OrderIntent>, acks: seq<Option<string>>, k: int)
    requires |acks| == |intents| && 0 <= k < |acks| && acks[k].Some?
    ensures AsOrder(intents[k], acks[k].value) in Acknowledged(intents, acks)
  {
    if k > 0 {
      AcknowledgedHas(intents[1..], acks[1..], k - 1);
    }
  }

  lemma {:induction false} PlacedIsIntent(intents: seq<OrderIntent>, acks: seq<Option<string>>, p: ConfirmedOrder)
    returns (n: nat)
    requires |acks| == |intents| && p in Acknowledged(intents, acks)
    ensures n < |intents| && acks[n].Some? && p == AsOrder(intents[n], acks[n].value)
  {
    n :| 0 <= n < |acks| && acks[n].Some? && p == AsOrder(intents[n], acks[n].value);
  }

  lemma {:induction false} ClashInPlaces(intents: seq<OrderIntent>, acks: seq<Option<string>>, tokenId: string,
                                         ticks: string -> real, a: ConfirmedOrder, b: ConfirmedOrder)
    requires |acks| == |intents| && OwnIntents(tokenId, intents, ticks)
    requires a in Acknowledged(intents, acks) && b in Acknowledged(intents, acks) && Clash(a, b, ticks)
    ensures PlacesClash(intents, acks)
  {
    hide Acknowledged;
    var i := PlacedIsIntent(intents, acks, a);
    var j := PlacedIsIntent(intents, acks, b);
    assert intents[i] in intents;
  }

  lemma {:induction false} ClashWithResting(book: seq<ConfirmedOrder>, intents: seq<OrderIntent>,
                                            acks: seq<Option<string>>, tokenId: string, ticks: string -> real,
                                            o: ConfirmedOrder, p: ConfirmedOrder)
    requires |acks| == |intents| && OwnIntents(tokenId, intents, ticks)
    requires o in book && p in Acknowledged(intents, acks) && (Clash(o, p, ticks) || Clash(p, o, ticks))
    ensures MeetsResting(book, intents, acks, ticks(tokenId))
  {
    hide Acknowledged;
    var n := PlacedIsIntent(intents, acks, p);
    assert intents[n] in intents;
    AbsSymmetric(o.price, p.price);
    assert Crosses(o, intents[n], ticks(tokenId));
  }

  lemma {:induction false} ClashingPair(intents: seq<OrderIntent>, acks: seq<Option<string>>) returns (i: int, j: int)
    requires |acks| == |intents| && PlacesClash(intents, acks)
    ensures 0 <= i < |intents| && 0 <= j < |intents| && acks[i].Some? && acks[j].Some?
    ensures intents[i].tokenId == intents[j].tokenId && intents[i].side != intents[j].side
    ensures PriceMatches(intents[i].price, intents[j].price, intents[i].tickSize)
  {
    i, j :| 0 <= i < |acks| && 0 <= j < |acks| && acks[i].Some? && acks[j].Some?
            && intents[i].tokenId == intents[j].tokenId && intents[i].side != intents[j].side
            && PriceMatches(intents[i].price, intents[j].price, intents[i].tickSize);
  }

  lemma {:induction false} PlacesClashInBook(book: seq<ConfirmedOrder>, intents: seq<OrderIntent>,
                                             acks: seq<Option<string>>, tokenId: string, ticks: string -> real)
    requires |acks| == |intents| && OwnIntents(tokenId, intents, ticks)
    requires PlacesClash(intents, acks)
    ensures !Safe(book + Acknowledged(intents, acks), ticks)
  {
    hide Acknowledged, PriceMatches;
    var i, j := ClashingPair(intents, acks);
    AcknowledgedHas(intents, acks, i);
    AcknowledgedHas(intents, acks, j);
    assert intents[i] in intents;
    assert Clash(AsOrder(intents[i], acks[i].value), AsOrder(intents[j], acks[j].value), ticks);
  }

  lemma {:induction false} MeetingInBook(book: seq<ConfirmedOrder>, intents: seq<OrderIntent>,
                                         acks: seq<Option<string>>, tokenId: string, ticks: string -> real)
    requires |acks| == |intents| && OwnIntents(tokenId, intents, ticks)
    requires MeetsResting(book, intents, acks, ticks(tokenId))
    ensures !Safe(book + Acknowledged(intents, acks), ticks)
  {
    hide Acknowledged, PriceMatches;
    var o, n :| o in book && 0 <= n < |acks| && acks[n].Some? && Crosses(o, intents[n], ticks(tokenId));
    AcknowledgedHas(intents, acks, n);
    assert intents[n] in intents;
    assert Clash(o, AsOrder(intents[n], acks[n].value), ticks);
  }

  /** New orders joining a safe book leave it safe exactly when they clash neither with each other nor with it. */
  lemma {:induction false} JoinedSafeIff(book: seq<ConfirmedOrder>, intents: seq<OrderIntent>,
                                         acks: seq<Option<string>>, tokenId: string, ticks: string -> real)
    requires |acks| == |intents| && OwnIntents(tokenId, intents, ticks) && Safe(book, ticks)
    ensures Safe(book + Acknowledged(intents, acks), ticks)
       <==> !PlacesClash(intents, acks) && !MeetsResting(book, intents, acks, ticks(tokenId))
  {
    hide PlacesClash, MeetsResting, Acknowledged, Clash, OwnIntents;
    if PlacesClash(intents, acks) {
      PlacesClashInBook(book, intents, acks, tokenId, ticks);
    } else if MeetsResting(book, intents, acks, ticks(tokenId)) {
      MeetingInBook(book, intents, acks, tokenId, ticks);
    } else {
      var placed := Acknowledged(intents, acks);
      forall a, b | a in book + placed && b in book + placed ensures !Clash(a, b, ticks) {
        if Clash(a, b, ticks) {
          if a in placed && b in placed {
            ClashInPlaces(intents, acks, tokenId, ticks, a, b);
          } else if a in placed {
            ClashWithResting(book, intents, acks, tokenId, ticks, b, a);
          } else if b in placed {
            ClashWithResting(book, intents, acks, tokenId, ticks, a, b);
          }
        }
      }
    }
  }

  // ----- One cycle -----

  lemma {:induction false} IntentsOfCycle(resting: seq<ConfirmedOrder>, c: Cycle, ticks: string -> real, p: OrderIntent)
    requires FitsCycle(resting, c, ticks)
    requires p in PlaceIntents(CycleMutations(resting, c))
    ensures p in c.desired && p.tokenId == c.tokenId && p.tickSize == ticks(c.tokenId)
  {
    PlanOnExchange(Plan(c.desired, OfToken(resting, c.tokenId)));
  }

  lemma {:induction false} PartIsSafe(part: seq<ConfirmedOrder>, all: seq<ConfirmedOrder>, ticks: string -> real)
    requires Safe(all, ticks) && forall o :: o in part ==> o in all
    ensures Safe(part, ticks)
  {
  }

  /** An order that rested before the cycle and still does crosses none of the new ones. */
  lemma {:induction false} SurvivorsDoNotCross(resting: seq<ConfirmedOrder>, c: Cycle, ticks: string -> real,
                                               o: ConfirmedOrder, p: OrderIntent)
    requires FitsCycle(resting, c, ticks)
    requires o in resting && o.orderId !in CancelIds(CycleMutations(resting, c))
    requires p in PlaceIntents(CycleMutations(resting, c))
    ensures p in c.desired
    ensures !(o.tokenId == p.tokenId && o.side != p.side && PriceMatches(o.price, p.price, ticks(p.tokenId)))
  {
    var mine := OfToken(resting, c.tokenId);
    var plan := Plan(c.desired, mine);
    PlanOnExchange(plan);
    AllCrossedFacts(plan.places, mine, Ids(plan.unmatched), SelfCrossTick(c.desired));
    assert o.orderId !in CancelledBy(plan);
    if o.tokenId == p.tokenId && o.side != p.side && PriceMatches(o.price, p.price, ticks(p.tokenId)) {
      assert o in mine && Crosses(o, p, SelfCrossTick(c.desired));
    }
  }

  /**
   One cycle, exactly: with nothing else leaving the book it stays safe if and only if its accepted
   places do not clash with each other, which the self-cross pass never looks at.
   */
  lemma {:induction false} CycleSafeIff(resting: seq<ConfirmedOrder>, c: Cycle, ticks: string -> real)
    requires Safe(resting, ticks) && FitsCycle(resting, c, ticks) && c.gone == {}
    ensures Safe(AfterCycle(resting, c), ticks) <==> !PlacesClash(PlaceIntents(CycleMutations(resting, c)), c.acks)
  {
    hide CycleMutations, PlacesClash, MeetsResting, Safe, Acknowledged;
    var m := CycleMutations(resting, c);
    var intents, survivors := PlaceIntents(m), Excluding(resting, set id | id in CancelIds(m));
    PartIsSafe(survivors, resting, ticks);
    OwnPlaces(resting, c, ticks);
    JoinedSafeIff(survivors, intents, c.acks, c.tokenId, ticks);
    NothingMeetsSurvivors(resting, c, ticks);
    ExcludingNothing(After(resting, m, c.acks), {});
  }

  lemma {:induction false} OwnPlaces(resting: seq<ConfirmedOrder>, c: Cycle, ticks: string -> real)
    requires FitsCycle(resting, c, ticks)
    ensures OwnIntents(c.tokenId, PlaceIntents(CycleMutations(resting, c)), ticks)
  {
    hide CycleMutations;
    forall p | p in PlaceIntents(CycleMutations(resting, c))
      ensures p.tokenId == c.tokenId && p.tickSize == ticks(c.tokenId)
    {
      IntentsOfCycle(resting, c, ticks, p);
    }
  }

  lemma {:induction false} NothingMeetsSurvivors(resting: seq<ConfirmedOrder>, c: Cycle, ticks: string -> real)
    requires FitsCycle(resting, c, ticks)
    ensures var m := CycleMutations(resting, c);
      !MeetsResting(Excluding(resting, set id | id in CancelIds(m)), PlaceIntents(m), c.acks, ticks(c.tokenId))
  {
    hide CycleMutations, PriceMatches;
    var m := CycleMutations(resting, c);
    var survivors := Excluding(resting, set id | id in CancelIds(m));
    forall o, p | o in survivors && p in PlaceIntents(m) ensures !Crosses(o, p, ticks(c.tokenId)) {
      IntentsOfCycle(resting, c, ticks, p);
      SurvivorsDoNotCross(resting, c, ticks, o, p);
    }
  }

  /** Whatever else leaves the book, a safe one stays safe unless two accepted new orders clash with each other. */
  lemma {:induction false} CycleKeepsSafe(resting: seq<ConfirmedOrder>, c: Cycle, ticks: string -> real)
    requires Safe(resting, ticks) && FitsCycle(resting, c, ticks)
    requires !PlacesClash(PlaceIntents(CycleMutations(resting, c)), c.acks)
    ensures Safe(AfterCycle(resting, c), ticks)
  {
    hide CycleMutations, PlacesClash, Safe;
    var alone := c.(gone := {});
    SameCycle(resting, c, {});
    CycleSafeIff(resting, alone, ticks);
    ExcludingNothing(AfterCycle(resting, alone), {});
    PartIsSafe(AfterCycle(resting, c), AfterCycle(resting, alone), ticks);
  }

  /** What leaves the book afterwards plays no part in the reconciliation. */
  lemma {:induction false} SameCycle(resting: seq<ConfirmedOrder>, c: Cycle, gone: set<string>)
    ensures CycleMutations(resting, c.(gone := gone)) == CycleMutations(resting, c)
  {
  }

  // ----- Whole runs -----

  /** The cycles form a run from `resting`, each over the book its predecessor left. */
  ghost predicate IsRun(resting: seq<ConfirmedOrder>, cycles: seq<Cycle>, ticks: string -> real)
    decreases |cycles|
  {
    cycles == [] ||
    (FitsCycle(resting, cycles[0], ticks) && IsRun(AfterCycle(resting, cycles[0]), cycles[1..], ticks))
  }

  ghost function AfterRun(resting: seq<ConfirmedOrder>, cycles: seq<Cycle>, ticks: string -> real): seq<ConfirmedOrder>
    requires IsRun(resting, cycles, ticks)
    decreases |cycles|
  {
    if cycles == [] then resting else AfterRun(AfterCycle(resting, cycles[0]), cycles[1..], ticks)
  }

  /** Quotes that are apart keep a safe book safe over a cycle. */
  lemma {:induction false} ApartKeepsSafe(resting: seq<ConfirmedOrder>, c: Cycle, ticks: string -> real)
    requires Safe(resting, ticks) && FitsCycle(resting, c, ticks) && Apart(c.desired)
    ensures Safe(AfterCycle(resting, c), ticks)
  {
    var intents := PlaceIntents(CycleMutations(resting, c));
    if PlacesClash(intents, c.acks) {
      var i, j := ClashingPair(intents, c.acks);
      IntentsOfCycle(resting, c, ticks, intents[i]);
      IntentsOfCycle(resting, c, ticks, intents[j]);
    } else {
      CycleKeepsSafe(resting, c, ticks);
    }
  }

  /** Self-cross safety over whole runs. */
  lemma {:induction false} RunStaysSafe(resting: seq<ConfirmedOrder>, cycles: seq<Cycle>, ticks: string -> real)
    requires IsRun(resting, cycles, ticks)
    requires Safe(resting, ticks)
    requires forall c :: c in cycles ==> Apart(c.desired)
    ensures Safe(AfterRun(resting, cycles, ticks), ticks)
    decreases |cycles|
  {
    if cycles != [] {
      ApartKeepsSafe(resting, cycles[0], ticks);
      RunStaysSafe(AfterCycle(resting, cycles[0]), cycles[1..], ticks);
    }
  }

  // ----- Exactly which quotes are safe -----

  /** From an empty book every desired order is placed. */
  lemma {:induction false} EmptyBookPlaces(desired: seq<OrderIntent>, i: OrderIntent)
    requires i in desired
    ensures i in Plan(desired, []).places
  {
    hide Assignment, Plan;
    GreedyIsValid(desired, []);
    var k :| 0 <= k < |desired| && desired[k] == i;
    UnmatchedIsPlaced(desired, [], k);
  }

  /** Every place is accepted, each under its own id. */
  function AllNamed(n: nat): (acks: seq<Option<string>>)
    ensures |acks| == n && forall ack :: ack in acks ==> ack.Some?
    ensures NoRepeats(acks)
  {
    NamesDiffer(n);
    AllAcked(Names(n))
  }

  lemma {:induction false} AcceptedPlacesClash(intents: seq<OrderIntent>, acks: seq<Option<string>>, i: OrderIntent,
                                               j: OrderIntent)
    requires |acks| == |intents| && forall ack :: ack in acks ==> ack.Some?
    requires i in intents && j in intents && i.tokenId == j.tokenId && i.side != j.side
    requires PriceMatches(i.price, j.price, i.tickSize)
    ensures PlacesClash(intents, acks)
  {
    hide PriceMatches;
    var k :| 0 <= k < |intents| && intents[k] == i;
    var l :| 0 <= l < |intents| && intents[l] == j;
    assert acks[k] in acks && acks[l] in acks;
  }

  lemma {:induction false} EmptyIsSafe(ticks: string -> real)
    ensures Safe([], ticks)
  {
  }

  /**
   Opposing quotes that are not apart: on an empty book, with every place accepted under its own id,
   the first cycle leaves both resting.
   */
  lemma {:induction false} CloseQuotesUnsafe(tokenId: string, desired: seq<OrderIntent>, ticks: string -> real)
    returns (c: Cycle)
    requires OwnIntents(tokenId, desired, ticks) && !Apart(desired)
    ensures c.tokenId == tokenId && c.desired == desired && c.gone == {} && FitsCycle([], c, ticks)
    ensures NoRepeats(c.acks) && forall ack :: ack in c.acks ==> ack.Some?
    ensures !Safe(AfterCycle([], c), ticks)
  {
    hide Plan, Mutations, Safe, PriceMatches, AfterCycle, PlacesClash, PlaceIntents;
    var plan := Plan(desired, []);
    c := Cycle(tokenId, desired, AllNamed(|plan.places|), {});
    PlanOnExchange(plan);
    assert OfToken([], tokenId) == [];
    var i, j :| i in desired && j in desired && i.tokenId == j.tokenId && i.side != j.side
                && PriceMatches(i.price, j.price, i.tickSize);
    EmptyBookPlaces(desired, i);
    EmptyBookPlaces(desired, j);
    AcceptedPlacesClash(plan.places, c.acks, i, j);
    EmptyIsSafe(ticks);
    CycleSafeIff([], c, ticks);
  }

  /**
   Self-cross safety, as a condition on a token's desired quotes alone: whatever safely rests, is
   accepted and goes, a cycle leaves the book safe, if and only if opposing quotes are apart.
   */
  lemma {:induction false} AlwaysSafeIffApart(tokenId: string, desired: seq<OrderIntent>, ticks: string -> real)
    requires OwnIntents(tokenId, desired, ticks)
    ensures (forall resting, acks, gone ::
               Safe(resting, ticks) && FitsCycle(resting, Cycle(tokenId, desired, acks, gone), ticks) ==>
                 Safe(AfterCycle(resting, Cycle(tokenId, desired, acks, gone)), ticks))
        <==> Apart(desired)
  {
    if Apart(desired) {
      forall resting, acks, gone |
          Safe(resting, ticks) && FitsCycle(resting, Cycle(tokenId, desired, acks, gone), ticks)
        ensures Safe(AfterCycle(resting, Cycle(tokenId, desired, acks, gone)), ticks)
      {
        ApartKeepsSafe(resting, Cycle(tokenId, desired, acks, gone), ticks);
      }
    } else {
      hide FitsCycle, AfterCycle, Apart;
      var c := CloseQuotesUnsafe(tokenId, desired, ticks);
      EmptyIsSafe(ticks);
      assert c == Cycle(tokenId, desired, c.acks, c.gone);
    }
  }

  // ----- Midway through a cycle -----

  /** The cancels of `done` have been carried out and the first `k` places answered. */
  function Midway(resting: seq<ConfirmedOrder>, c: Cycle, done: set<string>, k: nat): seq<ConfirmedOrder>
    requires k <= |c.acks| == |PlaceIntents(CycleMutations(resting, c))|
  {
    Excluding(resting, done) + Acknowledged(PlaceIntents(CycleMutations(resting, c))[..k], c.acks[..k])
  }

  lemma {:induction false} FirstAcknowledged(intents: seq<OrderIntent>, acks: seq<Option<string>>, k: nat)
    requires k <= |acks| == |intents|
    ensures forall o :: o in Acknowledged(intents[..k], acks[..k]) ==> o in Acknowledged(intents, acks)
  {
    forall o | o in Acknowledged(intents[..k], acks[..k]) ensures o in Acknowledged(intents, acks) {
      var n :| 0 <= n < k && acks[..k][n].Some? && o == AsOrder(intents[..k][n], acks[..k][n].value);
      AcknowledgedHas(intents, acks, n);
    }
  }

  /** Cancels before places: when the cancels are awaited, no moment of a cycle leaves the book unsafe. */
  lemma {:induction false} AwaitedCancelsKeepSafe(resting: seq<ConfirmedOrder>, c: Cycle, ticks: string -> real,
                                                  done: set<string>, k: nat)
    requires Safe(resting, ticks) && FitsCycle(resting, c, ticks) && Apart(c.desired) && k <= |c.acks|
    requires k > 0 ==> done == set id | id in CancelIds(CycleMutations(resting, c))
    ensures Safe(Midway(resting, c, done, k), ticks)
  {
    hide CycleMutations, Safe, Apart;
    var m := CycleMutations(resting, c);
    if k == 0 {
      assert Acknowledged(PlaceIntents(m)[..0], c.acks[..0]) == [];
      PartIsSafe(Midway(resting, c, done, 0), resting, ticks);
    } else {
      var alone := c.(gone := {});
      SameCycle(resting, c, {});
      ApartKeepsSafe(resting, alone, ticks);
      var all := After(resting, m, c.acks);
      ExcludingNothing(all, {});
      FirstAcknowledged(PlaceIntents(m), c.acks, k);
      PartIsSafe(Midway(resting, c, done, k), all, ticks);
    }
  }

  /**
   When the cancels are only dispatched, places may overtake them. Every moment is safe if and only if
   the accepted places clash neither with each other nor with any order that rested, cancelled or not.
   */
  lemma {:induction false} DispatchedCancelsSafeIff(resting: seq<ConfirmedOrder>, c: Cycle, ticks: string -> real)
    requires Safe(resting, ticks) && FitsCycle(resting, c, ticks)
    ensures var m := CycleMutations(resting, c);
      (forall done, k: nat :: done <= (set id | id in CancelIds(m)) && k <= |c.acks| ==>
         Safe(Midway(resting, c, done, k), ticks))
      <==> !PlacesClash(PlaceIntents(m), c.acks) && !MeetsResting(resting, PlaceIntents(m), c.acks, ticks(c.tokenId))
  {
    hide CycleMutations, Safe, Midway, PlacesClash, MeetsResting, Acknowledged;
    var m := CycleMutations(resting, c);
    var all := resting + Acknowledged(PlaceIntents(m), c.acks);
    OwnPlaces(resting, c, ticks);
    JoinedSafeIff(resting, PlaceIntents(m), c.acks, c.tokenId, ticks);
    MidwayPart(resting, c, {}, |c.acks|);
    if Safe(all, ticks) {
      forall done, k: nat | done <= (set id | id in CancelIds(m)) && k <= |c.acks|
        ensures Safe(Midway(resting, c, done, k), ticks)
      {
        MidwayPart(resting, c, done, k);
        PartIsSafe(Midway(resting, c, done, k), all, ticks);
      }
    } else {
      NothingDoneYet(resting, c);
      assert !Safe(Midway(resting, c, {}, |c.acks|), ticks);
    }
  }

  /**
   So the self-cross pass protects only a batch that is awaited: whenever it cancels an order and all
   places are accepted, those of a dispatched batch may meet that order first.
   */
  lemma {:induction false} CrossedMayBeMet(resting: seq<ConfirmedOrder>, c: Cycle, ticks: string -> real)
    requires FitsCycle(resting, c, ticks) && forall ack :: ack in c.acks ==> ack.Some?
    requires Plan(c.desired, OfToken(resting, c.tokenId)).crossed != []
    ensures MeetsResting(resting, PlaceIntents(CycleMutations(resting, c)), c.acks, ticks(c.tokenId))
  {
    hide Assignment, AllCrossed, ToPlace, PriceMatches, Mutations;
    var mine := OfToken(resting, c.tokenId);
    var plan := Plan(c.desired, mine);
    PlanOnExchange(plan);
    AllCrossedFacts(plan.places, mine, Ids(plan.unmatched), SelfCrossTick(c.desired));
    var o := plan.crossed[0];
    assert o in plan.crossed;
    var p :| p in plan.places && Crosses(o, p, SelfCrossTick(c.desired));
    var n :| 0 <= n < |plan.places| && plan.places[n] == p;
    assert c.acks[n] in c.acks && p in c.desired;
  }

  lemma {:induction false} MidwayPart(resting: seq<ConfirmedOrder>, c: Cycle, done: set<string>, k: nat)
    requires k <= |c.acks| == |PlaceIntents(CycleMutations(resting, c))|
    ensures var all := resting + Acknowledged(PlaceIntents(CycleMutations(resting, c)), c.acks);
      forall o :: o in Midway(resting, c, done, k) ==> o in all
  {
    FirstAcknowledged(PlaceIntents(CycleMutations(resting, c)), c.acks, k);
  }

  /** Every place has overtaken every cancel. */
  lemma {:induction false} NothingDoneYet(resting: seq<ConfirmedOrder>, c: Cycle)
    requires |c.acks| == |PlaceIntents(CycleMutations(resting, c))|
    ensures Midway(resting, c, {}, |c.acks|)
         == resting + Acknowledged(PlaceIntents(CycleMutations(resting, c)), c.acks)
  {
    ExcludingNothing(resting, {});
    var intents := PlaceIntents(CycleMutations(resting, c));
    assert c.acks[..|c.acks|] == c.acks && intents[..|intents|] == intents;
  }

  // ----- Other tokens -----

  /** A cycle touches only its own token's orders; that token sees exactly its own reconciliation. */
  lemma {:induction false} CycleIsLocal(resting: seq<ConfirmedOrder>, c: Cycle, ticks: string -> real, tokenId: string)
    requires DistinctIds(resting) && FitsCycle(resting, c, ticks) && c.gone == {}
    ensures var after := AfterCycle(resting, c);
      OfToken(after, tokenId) ==
        if tokenId == c.tokenId then After(OfToken(resting, tokenId), CycleMutations(resting, c), c.acks)
        else OfToken(resting, tokenId)
  {
    var m, mine := CycleMutations(resting, c), OfToken(resting, c.tokenId);
    var ids := set id | id in CancelIds(m);
    var placed := Acknowledged(PlaceIntents(m), c.acks);
    ExcludingNothing(After(resting, m, c.acks), {});
    OfTokenAppend(Excluding(resting, ids), placed, tokenId);
    forall o | o in placed ensures o.tokenId == c.tokenId {
      var k :| 0 <= k < |c.acks| && c.acks[k].Some? && o == AsOrder(PlaceIntents(m)[k], c.acks[k].value);
      IntentsOfCycle(resting, c, ticks, PlaceIntents(m)[k]);
    }
    OfTokenUniform(placed, c.tokenId, tokenId);
    OfTokenExcluding(resting, ids, tokenId);
    if tokenId != c.tokenId {
      OthersNotCancelled(resting, c, tokenId);
      ExcludingNothing(OfToken(resting, tokenId), ids);
    }
  }

  lemma {:induction false} OthersNotCancelled(resting: seq<ConfirmedOrder>, c: Cycle, tokenId: string)
    requires DistinctIds(resting) && tokenId != c.tokenId
    ensures Ids(OfToken(resting, tokenId)) !! set id | id in CancelIds(CycleMutations(resting, c))
  {
    var mine := OfToken(resting, c.tokenId);
    OfTokenDistinct(resting, c.tokenId);
    CancelledOnce(c.desired, mine);
    forall id | id in Ids(OfToken(resting, tokenId)) ensures id !in Ids(mine) {
      var o :| o in OfToken(resting, tokenId) && o.orderId == id;
      forall p | p in mine ensures p.orderId != id {
        if p.orderId == id {
          SameIdSameOrder(resting, o, p);
        }
      }
    }
  }

  lemma {:induction false} OfTokenDistinct(orders: seq<ConfirmedOrder>, tokenId: string)
    requires DistinctIds(orders)
    ensures DistinctIds(OfToken(orders, tokenId))
  {
    if orders != [] {
      OfTokenDistinct(orders[1..], tokenId);
      var rest := OfToken(orders[1..], tokenId);
      forall i | 0 <= i < |rest| ensures rest[i].orderId != orders[0].orderId {
        assert rest[i] in orders[1..];
      }
    }
  }

  lemma {:induction false} OfTokenAppend(a: seq<ConfirmedOrder>, b: seq<ConfirmedOrder>, tokenId: string)
    ensures OfToken(a + b, tokenId) == OfToken(a, tokenId) + OfToken(b, tokenId)
  {
    if a == [] {
      assert a + b == b;
    } else {
      assert (a + b)[1..] == a[1..] + b;
      OfTokenAppend(a[1..], b, tokenId);
    }
  }

  lemma {:induction false} OfTokenUniform(orders: seq<ConfirmedOrder>, own: string, tokenId: string)
    requires forall o :: o in orders ==> o.tokenId == own
    ensures OfToken(orders, tokenId) == if tokenId == own then orders else []
  {
    if orders != [] {
      assert orders[0] in orders;
      OfTokenUniform(orders[1..], own, tokenId);
    }
  }

  lemma {:induction false} OfTokenExcluding(orders: seq<ConfirmedOrder>, ids: set<string>, tokenId: string)
    ensures OfToken(Excluding(orders, ids), tokenId) == Excluding(OfToken(orders, tokenId), ids)
  {
    if orders != [] {
      OfTokenExcluding(orders[1..], ids, tokenId);
      var e, t := Excluding(orders[1..], ids), OfToken(orders[1..], tokenId);
      assert ([orders[0]] + e)[1..] == e && ([orders[0]] + t)[1..] == t;
    }
  }
}
