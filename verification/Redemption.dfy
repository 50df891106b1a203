/**
 Redeeming resolved conditions: the ledger guard, the retry loop, and what a failing alerter and lost
 answers do to them.
 */
module Redemption {
  import opened Common

  datatype RedemptionRequest = RedemptionRequest(conditionId: string, tokenId: string, winningOutcomeIndex: nat)

  datatype RedemptionRecord = RedemptionRecord(conditionId: string, tokenId: string, usdcReceived: real, txHash: string)

  type Redemptions = map<string, RedemptionRecord>

  const USDC_E_POLYGON := "0x2791Bca1f2de4661ED88A30C99A7a9449Aa84174"

  /** The 32 zero bytes of the parent collection, in hexadecimal. */
  const ZERO_BYTES32 := "0000000000000000000000000000000000000000000000000000000000000000"

  /** A call of the contract's redeemPositions. */
  datatype Payload = Payload(collateralToken: string, parentCollectionId: string, conditionId: string,
      indexSets: seq<nat>)

  /** `1 << n`. */
  function Shift(n: nat): (bit: nat)
    ensures bit > n
  {
    if n == 0 then 1 else 2 * Shift(n - 1)
  }

  function BuildRedeemPayload(conditionId: string, indexSets: seq<nat>): Payload
  {
    Payload(USDC_E_POLYGON, ZERO_BYTES32, conditionId, indexSets)
  }

  function PayloadOf(r: RedemptionRequest): Payload
  {
    BuildRedeemPayload(r.conditionId, [Shift(r.winningOutcomeIndex)])
  }

  lemma {:induction false} ShiftGrows(m: nat, n: nat)
    requires m < n
    ensures Shift(m) < Shift(n)
  {
    if m + 1 < n {
      ShiftGrows(m, n - 1);
    }
  }

  /** The payload tells condition and outcome apart. */
  lemma {:induction false} PayloadDeterminesOutcome(a: RedemptionRequest, b: RedemptionRequest)
    ensures PayloadOf(a) == PayloadOf(b) <==>
            a.conditionId == b.conditionId && a.winningOutcomeIndex == b.winningOutcomeIndex
  {
    if a.winningOutcomeIndex < b.winningOutcomeIndex {
      ShiftGrows(a.winningOutcomeIndex, b.winningOutcomeIndex);
    } else if b.winningOutcomeIndex < a.winningOutcomeIndex {
      ShiftGrows(b.winningOutcomeIndex, a.winningOutcomeIndex);
    }
    assert PayloadOf(a).indexSets[0] == Shift(a.winningOutcomeIndex);
    assert PayloadOf(b).indexSets[0] == Shift(b.winningOutcomeIndex);
  }

  /** The bits of a number, the lowest first. */
  ghost predicate HasBit(n: nat, k: nat)
  {
    if k == 0 then n % 2 == 1 else HasBit(n / 2, k - 1)
  }

  lemma {:induction false} ZeroHasNoBit(k: nat)
    ensures !HasBit(0, k)
  {
    if k > 0 {
      ZeroHasNoBit(k - 1);
    }
  }

  lemma {:induction false} ShiftIsOneBit(n: nat, k: nat)
    ensures HasBit(Shift(n), k) <==> k == n
  {
    if n == 0 {
      if k > 0 {
        ZeroHasNoBit(k - 1);
      }
    } else if k > 0 {
      ShiftIsOneBit(n - 1, k - 1);
    }
  }

  /** The payload redeems the condition for USDC.e with one index set, whose one bit is the winning outcome. */
  lemma {:induction false} PayloadRedeemsTheWinner(r: RedemptionRequest, k: nat)
    ensures var p := PayloadOf(r);
      && p.collateralToken == "0x2791Bca1f2de4661ED88A30C99A7a9449Aa84174"
      && p.parentCollectionId == "0000000000000000000000000000000000000000000000000000000000000000"
      && p.conditionId == r.conditionId && |p.indexSets| == 1
      && (HasBit(p.indexSets[0], k) <==> k == r.winningOutcomeIndex)
  {
    ShiftIsOneBit(r.winningOutcomeIndex, k);
  }

  class RewardAndRebateLedger {
    var redemptions: Redemptions

    constructor ()
      ensures redemptions == map[]
    {
      redemptions := map[];
    }

    method RecordRedemption(conditionId: string, tokenId: string, usdcReceived: real, txHash: string)
      modifies this
      ensures redemptions == old(redemptions)[conditionId := RedemptionRecord(conditionId, tokenId, usdcReceived,
          txHash)]
    {
      redemptions := redemptions[conditionId := RedemptionRecord(conditionId, tokenId, usdcReceived, txHash)];
    }

    predicate IsRedeemed(conditionId: string)
      reads this
    {
      conditionId in redemptions
    }
  }

  // ----- One call -----

  const RETRY_DELAYS: seq<nat> := [30, 120, 300]

  /** A post is answered with its hash, or raises; it may raise although the relayer has carried it out. */
  datatype PostReply = Answered(txHash: string) | Failed(carriedOut: bool)

  /** One attempt: the answer to its post, and whether the alert that follows an answer raises. */
  datatype Attempt = Attempt(reply: PostReply, alertRaises: bool)

  predicate CarriesOut(a: Attempt)
  {
    a.reply.Answered? || a.reply.carriedOut
  }

  /** The relayer carries the post out and its answer is lost. */
  predicate IsLost(a: Attempt)
  {
    a.reply.Failed? && a.reply.carriedOut
  }

  datatype Call = Call(request: RedemptionRequest, usdcReceived: real, attempts: seq<Attempt>, failureAlertRaises: bool)

  ghost predicate Complete(c: Call)
  {
    |c.attempts| == |RETRY_DELAYS|
  }

  datatype Result = Returned(ok: bool) | Raised

  /**
   What the retry loop does from some attempt on: posts made, posts carried out, seconds slept, last
   hash, and success.
   */
  datatype Tries = Tries(posts: nat, carriedOut: nat, slept: nat, hash: Option<string>, ok: bool)

  function TriesFrom(attempts: seq<Attempt>, k: nat): Tries
    requires k <= |attempts| == |RETRY_DELAYS|
    decreases |attempts| - k
  {
    if k == |attempts| then Tries(0, 0, 0, None, false)
    else
      var a := attempts[k];
      if a.reply.Answered? && !a.alertRaises then Tries(1, 1, 0, Some(a.reply.txHash), true)
      else
        var rest := TriesFrom(attempts, k + 1);
        Tries(1 + rest.posts,
              (if CarriesOut(a) then 1 else 0) + rest.carriedOut,
              (if k + 1 < |RETRY_DELAYS| then RETRY_DELAYS[k] else 0) + rest.slept,
              if rest.hash.None? && a.reply.Answered? then Some(a.reply.txHash) else rest.hash,
              rest.ok)
  }

  function AfterCall(ledger: Redemptions, c: Call): Redemptions
    requires Complete(c)
  {
    var id, hash := c.request.conditionId, TriesFrom(c.attempts, 0).hash;
    if id in ledger || hash.None? then ledger
    else ledger[id := RedemptionRecord(id, c.request.tokenId, c.usdcReceived, hash.value)]
  }

  function ResultOf(ledger: Redemptions, c: Call): Result
    requires Complete(c)
  {
    if c.request.conditionId in ledger || TriesFrom(c.attempts, 0).ok then Returned(true)
    else if c.failureAlertRaises then Raised
    else Returned(false)
  }

  method AutoRedeem(c: Call, ledger: RewardAndRebateLedger) returns (result: Result, posts: seq<Payload>, slept: nat)
    requires Complete(c)
    modifies ledger
    ensures ledger.redemptions == AfterCall(old(ledger.redemptions), c)
    ensures result == ResultOf(old(ledger.redemptions), c)
    ensures var tries := TriesFrom(c.attempts, 0);
      if old(ledger.IsRedeemed(c.request.conditionId)) then posts == [] && slept == 0
      else |posts| == tries.posts && slept == tries.slept && forall p :: p in posts ==> p == PayloadOf(c.request)
  {
    posts, slept := [], 0;
    if ledger.IsRedeemed(c.request.conditionId) {
      return Returned(true), posts, slept;
    }
    var indexSets := [Shift(c.request.winningOutcomeIndex)];
    var payload := BuildRedeemPayload(c.request.conditionId, indexSets);
    ghost var before, all := ledger.redemptions, TriesFrom(c.attempts, 0);
    ghost var hash: Option<string> := None;
    for k := 0 to |RETRY_DELAYS|
      invariant |posts| == k && forall p :: p in posts ==> p == PayloadOf(c.request)
      invariant var rest := TriesFrom(c.attempts, k);
        && all.posts == k + rest.posts && all.slept == slept + rest.slept && all.ok == rest.ok
        && all.hash == if rest.hash.Some? then rest.hash else hash
      invariant ledger.redemptions == RecordedAs(before, c, hash)
    {
      posts := posts + [payload];
      var a := c.attempts[k];
      if a.reply.Answered? {
        ledger.RecordRedemption(c.request.conditionId, c.request.tokenId, c.usdcReceived, a.reply.txHash);
        hash := Some(a.reply.txHash);
        if !a.alertRaises {
          return Returned(true), posts, slept;
        }
      }
      if k + 1 < |RETRY_DELAYS| {
        slept := slept + RETRY_DELAYS[k];
      }
    }
    result := if c.failureAlertRaises then Raised else Returned(false);
  }

  ghost function RecordedAs(ledger: Redemptions, c: Call, hash: Option<string>): Redemptions
  {
    var id := c.request.conditionId;
    if hash.None? then ledger else ledger[id := RedemptionRecord(id, c.request.tokenId, c.usdcReceived, hash.value)]
  }

  /** A call posts at most three times and sleeps at most 150 seconds: the third delay is never slept. */
  lemma {:induction false} CallBounded(attempts: seq<Attempt>)
    requires |attempts| == |RETRY_DELAYS|
    ensures TriesFrom(attempts, 0).posts <= 3 && TriesFrom(attempts, 0).slept <= 150
    ensures TriesFrom(attempts, 0).slept == if Stops(attempts[0]) then 0 else if Stops(attempts[1]) then 30 else 150
  {
    assert TriesFrom(attempts, 3) == Tries(0, 0, 0, None, false);
    assert TriesFrom(attempts, 2).slept == 0 && TriesFrom(attempts, 2).posts == 1;
    assert TriesFrom(attempts, 1).slept == if Stops(attempts[1]) then 0 else 120;
  }

  /** An attempt that is answered and whose alert goes out ends the loop. */
  predicate Stops(a: Attempt)
  {
    a.reply.Answered? && !a.alertRaises
  }

  lemma {:induction false} TriesFacts(attempts: seq<Attempt>, k: nat)
    requires k <= |attempts| == |RETRY_DELAYS|
    ensures TriesFrom(attempts, k).carriedOut > 0 <==> exists j :: k <= j < |attempts| && CarriesOut(attempts[j])
    ensures TriesFrom(attempts, k).hash.Some? <==> exists j :: k <= j < |attempts| && attempts[j].reply.Answered?
    ensures TriesFrom(attempts, k).ok <==> exists j :: k <= j < |attempts| && Stops(attempts[j])
    decreases |attempts| - k
  {
    if k < |attempts| {
      TriesFacts(attempts, k + 1);
    }
  }

  ghost predicate FirstIn(attempts: seq<Attempt>, i: int)
  {
    0 <= i < |attempts| && CarriesOut(attempts[i]) && forall h :: 0 <= h < i ==> !CarriesOut(attempts[h])
  }

  /** The first attempt carried out does not end the loop, and a later one is carried out too. */
  ghost predicate AgainWithin(attempts: seq<Attempt>)
  {
    exists i, j :: FirstIn(attempts, i) && i < j < |attempts| && !Stops(attempts[i]) && CarriesOut(attempts[j])
  }

  /** Nothing is carried out before the first one; after it more is only if it does not end the loop. */
  lemma {:induction false} CarriedOutAgain(attempts: seq<Attempt>, k: nat)
    requires k <= |attempts| == |RETRY_DELAYS|
    requires forall h :: 0 <= h < k ==> !CarriesOut(attempts[h])
    ensures TriesFrom(attempts, k).carriedOut > 1 <==> AgainWithin(attempts)
    decreases |attempts| - k
  {
    if k < |attempts| {
      TriesFacts(attempts, k + 1);
      if CarriesOut(attempts[k]) {
        assert FirstIn(attempts, k);
      } else {
        CarriedOutAgain(attempts, k + 1);
      }
    }
  }

  /** Attempt `k` is the last that is answered before the loop ends. */
  ghost predicate LastAnswered(attempts: seq<Attempt>, k: int)
  {
    && 0 <= k < |attempts| && attempts[k].reply.Answered?
    && (forall j :: 0 <= j < k ==> !Stops(attempts[j]))
    && (Stops(attempts[k]) || forall j :: k < j < |attempts| ==> !attempts[j].reply.Answered?)
  }

  /** A record tells the request, the amount, and the hash of the last answer to the call that wrote it. */
  lemma {:induction false} RecordTells(ledger: Redemptions, c: Call, k: int)
    requires Complete(c) && c.request.conditionId !in ledger && LastAnswered(c.attempts, k)
    ensures var after := AfterCall(ledger, c);
      && c.request.conditionId in after
      && after[c.request.conditionId].conditionId == c.request.conditionId
      && after[c.request.conditionId].tokenId == c.request.tokenId
      && after[c.request.conditionId].usdcReceived == c.usdcReceived
      && after[c.request.conditionId].txHash == c.attempts[k].reply.txHash
      && after.Keys == ledger.Keys + {c.request.conditionId}
      && forall id :: id in ledger ==> after[id] == ledger[id]
  {
    LastHash(c.attempts, 0, k);
  }

  lemma {:induction false} LastHash(attempts: seq<Attempt>, n: nat, k: int)
    requires n <= k < |attempts| == |RETRY_DELAYS| && LastAnswered(attempts, k)
    ensures TriesFrom(attempts, n).hash == Some(attempts[k].reply.txHash)
    decreases |attempts| - n
  {
    TriesFacts(attempts, n + 1);
    if n < k {
      LastHash(attempts, n + 1, k);
    }
  }

  // ----- Whole runs -----

  ghost predicate AllComplete(calls: seq<Call>)
  {
    forall n :: 0 <= n < |calls| ==> Complete(calls[n])
  }

  function Run(calls: seq<Call>): Redemptions
    requires AllComplete(calls)
  {
    if calls == [] then map[] else AfterCall(Run(calls[..|calls| - 1]), calls[|calls| - 1])
  }

  /** The call gets past the ledger guard. */
  ghost predicate PassesGuard(calls: seq<Call>, n: nat)
    requires n < |calls| && AllComplete(calls)
  {
    calls[n].request.conditionId !in Run(calls[..n])
  }

  ghost predicate IsFor(calls: seq<Call>, conditionId: string, n: int, k: int)
  {
    0 <= n < |calls| && 0 <= k < |calls[n].attempts| && calls[n].request.conditionId == conditionId
  }

  /** Attempt `k` of call `n` concerns the condition and would be answered. */
  ghost predicate AnsweredAt(calls: seq<Call>, conditionId: string, n: int, k: int)
  {
    IsFor(calls, conditionId, n, k) && calls[n].attempts[k].reply.Answered?
  }

  /** Attempt `k` of call `n` concerns the condition and would be carried out. */
  ghost predicate CarriedOutAt(calls: seq<Call>, conditionId: string, n: int, k: int)
  {
    IsFor(calls, conditionId, n, k) && CarriesOut(calls[n].attempts[k])
  }

  ghost predicate SomeAnswered(calls: seq<Call>, conditionId: string)
  {
    exists n, k :: AnsweredAt(calls, conditionId, n, k)
  }

  ghost predicate SomeCarriedOut(calls: seq<Call>, conditionId: string)
  {
    exists n, k :: CarriedOutAt(calls, conditionId, n, k)
  }

  predicate IsBefore(n: int, k: int, m: int, j: int)
  {
    n < m || (n == m && k < j)
  }

  /** The posts carried out for one condition over the whole run. */
  ghost function CarriedOutFor(calls: seq<Call>, conditionId: string): nat
    requires AllComplete(calls)
  {
    if calls == [] then 0
    else
      var n := |calls| - 1;
      CarriedOutFor(calls[..n], conditionId)
      + if calls[n].request.conditionId == conditionId && PassesGuard(calls, n)
        then TriesFrom(calls[n].attempts, 0).carriedOut else 0
  }

  lemma {:induction false} AnsweredStep(calls: seq<Call>, conditionId: string)
    requires calls != []
    ensures var last := |calls| - 1;
      SomeAnswered(calls, conditionId) <==>
        || SomeAnswered(calls[..last], conditionId)
        || (calls[last].request.conditionId == conditionId
            && exists k :: 0 <= k < |calls[last].attempts| && calls[last].attempts[k].reply.Answered?)
  {
    var last := |calls| - 1;
    if n, k :| AnsweredAt(calls, conditionId, n, k) {
      assert n < last ==> AnsweredAt(calls[..last], conditionId, n, k);
    }
    if n, k :| AnsweredAt(calls[..last], conditionId, n, k) {
      assert AnsweredAt(calls, conditionId, n, k);
    }
    if k :| 0 <= k < |calls[last].attempts| && calls[last].attempts[k].reply.Answered? {
      assert calls[last].request.conditionId == conditionId ==> AnsweredAt(calls, conditionId, last, k);
    }
  }

  /** A condition is recorded as redeemed exactly when some attempt for it is answered. */
  lemma {:induction false} RecordedIffAnswered(calls: seq<Call>, conditionId: string)
    requires AllComplete(calls)
    ensures conditionId in Run(calls) <==> SomeAnswered(calls, conditionId)
  {
    hide TriesFrom, AnsweredAt;
    if calls == [] {
      NothingAnsweredYet(conditionId);
    } else {
      var last := |calls| - 1;
      RecordedIffAnswered(calls[..last], conditionId);
      AnsweredStep(calls, conditionId);
      TriesFacts(calls[last].attempts, 0);
    }
  }

  lemma {:induction false} NothingAnsweredYet(conditionId: string)
    ensures !SomeAnswered([], conditionId)
  {
  }
  /** Attempt `k` of call `n` is the first for the condition that is carried out. */
  ghost predicate FirstFor(calls: seq<Call>, conditionId: string, n: int, k: int)
  {
    CarriedOutAt(calls, conditionId, n, k) &&
    forall m, j :: CarriedOutAt(calls, conditionId, m, j) ==> !IsBefore(m, j, n, k)
  }

  /**
   Attempt `k` of call `n` is the first carried out for the condition; it is lost, or its alert
   raises, and a later attempt is carried out for it: in any later call if it is lost, in the same
   call if only its alert raises.
   */
  ghost predicate DoubledAt(calls: seq<Call>, conditionId: string, n: int, k: int, m: int, j: int)
  {
    && FirstFor(calls, conditionId, n, k) && CarriedOutAt(calls, conditionId, m, j) && IsBefore(n, k, m, j)
    && (IsLost(calls[n].attempts[k]) || (n == m && calls[n].attempts[k].alertRaises))
  }

  ghost predicate RedeemsAgain(calls: seq<Call>, conditionId: string)
  {
    exists n, k, m, j :: DoubledAt(calls, conditionId, n, k, m, j)
  }

  /** What is carried out for the condition up to the last call, and in it. */
  lemma {:induction false} CarriedOutSplit(calls: seq<Call>, conditionId: string, n: int, k: int)
    requires calls != []
    ensures var last := |calls| - 1;
      CarriedOutAt(calls, conditionId, n, k) <==>
        || CarriedOutAt(calls[..last], conditionId, n, k)
        || (n == last && calls[last].request.conditionId == conditionId
            && 0 <= k < |calls[last].attempts| && CarriesOut(calls[last].attempts[k]))
  {
  }

  lemma {:induction false} FirstInExists(attempts: seq<Attempt>, j: int) returns (i: int)
    requires 0 <= j < |attempts| && CarriesOut(attempts[j])
    ensures FirstIn(attempts, i)
    decreases j
  {
    i := j;
    if h :| 0 <= h < j && CarriesOut(attempts[h]) {
      i := FirstInExists(attempts, h);
    }
  }

  lemma {:induction false} FirstForStays(calls: seq<Call>, conditionId: string, n: int, k: int)
    requires calls != []
    requires FirstFor(calls[..|calls| - 1], conditionId, n, k)
    ensures FirstFor(calls, conditionId, n, k)
  {
    CarriedOutSplit(calls, conditionId, n, k);
    forall m, j | CarriedOutAt(calls, conditionId, m, j) ensures !IsBefore(m, j, n, k) {
      CarriedOutSplit(calls, conditionId, m, j);
    }
  }

  lemma {:induction false} FirstInLastCall(calls: seq<Call>, conditionId: string, i: int)
    requires calls != [] && calls[|calls| - 1].request.conditionId == conditionId
    requires FirstIn(calls[|calls| - 1].attempts, i)
    requires !SomeCarriedOut(calls[..|calls| - 1], conditionId)
    ensures FirstFor(calls, conditionId, |calls| - 1, i)
  {
    forall m, j | CarriedOutAt(calls, conditionId, m, j) ensures !IsBefore(m, j, |calls| - 1, i) {
      CarriedOutSplit(calls, conditionId, m, j);
    }
  }

  lemma {:induction false} FirstForExists(calls: seq<Call>, conditionId: string, m: int, j: int)
    returns (n: int, k: int)
    requires CarriedOutAt(calls, conditionId, m, j)
    ensures FirstFor(calls, conditionId, n, k)
  {
    hide CarriedOutAt, FirstFor;
    NothingCarriedOutYet(conditionId);
    var last := |calls| - 1;
    if m', j' :| CarriedOutAt(calls[..last], conditionId, m', j') {
      n, k := FirstForExists(calls[..last], conditionId, m', j');
      FirstForStays(calls, conditionId, n, k);
    } else {
      CarriedOutSplit(calls, conditionId, m, j);
      k := FirstInExists(calls[last].attempts, j);
      n := last;
      FirstInLastCall(calls, conditionId, k);
    }
  }

  lemma {:induction false} NothingCarriedOutYet(conditionId: string)
    ensures !SomeCarriedOut([], conditionId)
  {
  }

  lemma {:induction false} FirstIsUnique(calls: seq<Call>, conditionId: string, n: int, k: int, m: int, j: int)
    requires FirstFor(calls, conditionId, n, k) && FirstFor(calls, conditionId, m, j)
    ensures n == m && k == j
  {
  }

  /** While nothing has been carried out, only the last call matters. */
  lemma {:induction false} AgainInLastCall(calls: seq<Call>, conditionId: string)
    requires calls != [] && calls[|calls| - 1].request.conditionId == conditionId
    requires !SomeCarriedOut(calls[..|calls| - 1], conditionId)
    ensures RedeemsAgain(calls, conditionId) <==> AgainWithin(calls[|calls| - 1].attempts)
  {
    hide FirstFor, CarriedOutAt;
    var last := |calls| - 1;
    var attempts := calls[last].attempts;
    if i, j :| FirstIn(attempts, i) && i < j < |attempts| && !Stops(attempts[i]) && CarriesOut(attempts[j]) {
      FirstInLastCall(calls, conditionId, i);
      CarriedOutSplit(calls, conditionId, last, j);
      assert DoubledAt(calls, conditionId, last, i, last, j);
    }
    if n, k, m, j :| DoubledAt(calls, conditionId, n, k, m, j) {
      CarriedOutSplit(calls, conditionId, m, j);
      var i := FirstInExists(attempts, j);
      FirstInLastCall(calls, conditionId, i);
      FirstIsUnique(calls, conditionId, n, k, last, i);
    }
  }

  /** Once something has been carried out, the last call matters only if the first answer was lost. */
  lemma {:induction false} AgainLater(calls: seq<Call>, conditionId: string, n: int, k: int)
    requires calls != [] && FirstFor(calls[..|calls| - 1], conditionId, n, k)
    ensures var c := calls[|calls| - 1];
      RedeemsAgain(calls, conditionId) <==>
        || RedeemsAgain(calls[..|calls| - 1], conditionId)
        || (IsLost(calls[n].attempts[k]) && c.request.conditionId == conditionId
            && exists j :: 0 <= j < |c.attempts| && CarriesOut(c.attempts[j]))
  {
    var last := |calls| - 1;
    var c := calls[last];
    FirstForStays(calls, conditionId, n, k);
    assert n < last && calls[..last][n] == calls[n];
    hide FirstFor, CarriedOutAt;
    if RedeemsAgain(calls[..last], conditionId) {
      AgainBefore(calls, conditionId);
    }
    if j :| 0 <= j < |c.attempts| && CarriesOut(c.attempts[j]) {
      if IsLost(calls[n].attempts[k]) && c.request.conditionId == conditionId {
        CarriedOutSplit(calls, conditionId, last, j);
        assert DoubledAt(calls, conditionId, n, k, last, j);
      }
    }
    if n', k', m, j :| DoubledAt(calls, conditionId, n', k', m, j) {
      FirstIsUnique(calls, conditionId, n', k', n, k);
      CarriedOutSplit(calls, conditionId, m, j);
      assert CarriedOutAt(calls[..last], conditionId, m, j) ==> DoubledAt(calls[..last], conditionId, n, k, m, j);
    }
  }

  lemma {:induction false} AgainBefore(calls: seq<Call>, conditionId: string)
    requires calls != [] && RedeemsAgain(calls[..|calls| - 1], conditionId)
    ensures RedeemsAgain(calls, conditionId)
  {
    var before := calls[..|calls| - 1];
    var n, k, m, j :| DoubledAt(before, conditionId, n, k, m, j);
    FirstForStays(calls, conditionId, n, k);
    CarriedOutSplit(calls, conditionId, m, j);
    assert DoubledAt(calls, conditionId, n, k, m, j);
  }

  /** A recorded condition whose first answer was lost has been redeemed again by the post that was answered. */
  lemma {:induction false} RecordedAfterLoss(calls: seq<Call>, conditionId: string, n: int, k: int)
    requires AllComplete(calls) && conditionId in Run(calls)
    requires FirstFor(calls, conditionId, n, k) && IsLost(calls[n].attempts[k])
    ensures RedeemsAgain(calls, conditionId)
  {
    RecordedIffAnswered(calls, conditionId);
    var m, j :| AnsweredAt(calls, conditionId, m, j);
    assert CarriedOutAt(calls, conditionId, m, j);
    assert DoubledAt(calls, conditionId, n, k, m, j);
  }

  /** An unrecorded condition was carried out only by posts whose answers were lost. */
  lemma {:induction false} UnrecordedIsLost(calls: seq<Call>, conditionId: string, n: int, k: int)
    requires AllComplete(calls) && conditionId !in Run(calls)
    requires CarriedOutAt(calls, conditionId, n, k)
    ensures IsLost(calls[n].attempts[k])
  {
    RecordedIffAnswered(calls, conditionId);
    assert !AnsweredAt(calls, conditionId, n, k);
  }

  /** Over every run a condition is carried out at all exactly when some attempt for it would be. */
  lemma {:induction false} CarriedOutIff(calls: seq<Call>, conditionId: string)
    requires AllComplete(calls)
    ensures CarriedOutFor(calls, conditionId) > 0 <==> SomeCarriedOut(calls, conditionId)
  {
    hide TriesFrom, CarriedOutAt, AfterCall, Run;
    if calls == [] {
      NothingCarriedOutYet(conditionId);
    } else {
      var last := |calls| - 1;
      CarriedOutIff(calls[..last], conditionId);
      CarriedOutStep(calls, conditionId);
      TriesFacts(calls[last].attempts, 0);
      if conditionId in Run(calls[..last]) {
        RecordedIsCarriedOut(calls[..last], conditionId);
      }
    }
  }

  lemma {:induction false} RecordedIsCarriedOut(calls: seq<Call>, conditionId: string)
    requires AllComplete(calls) && conditionId in Run(calls)
    ensures SomeCarriedOut(calls, conditionId)
  {
    RecordedIffAnswered(calls, conditionId);
    var n, k :| AnsweredAt(calls, conditionId, n, k);
    assert CarriedOutAt(calls, conditionId, n, k);
  }

  lemma {:induction false} CarriedOutStep(calls: seq<Call>, conditionId: string)
    requires calls != []
    ensures var last := |calls| - 1;
      SomeCarriedOut(calls, conditionId) <==>
        || SomeCarriedOut(calls[..last], conditionId)
        || (calls[last].request.conditionId == conditionId
            && exists k :: 0 <= k < |calls[last].attempts| && CarriesOut(calls[last].attempts[k]))
  {
    hide CarriedOutAt;
    var last := |calls| - 1;
    if n, k :| CarriedOutAt(calls, conditionId, n, k) {
      CarriedOutSplit(calls, conditionId, n, k);
    }
    if n, k :| CarriedOutAt(calls[..last], conditionId, n, k) {
      CarriedOutSplit(calls, conditionId, n, k);
    }
    if k :| 0 <= k < |calls[last].attempts| && CarriesOut(calls[last].attempts[k]) {
      CarriedOutSplit(calls, conditionId, last, k);
    }
  }

  /**
   Over every run, a condition is redeemed more than once exactly when the first attempt carried out
   for it is lost or its alert raises, and a later one is carried out.
   */
  lemma {:induction false} AtMostOnceIff(calls: seq<Call>, conditionId: string)
    requires AllComplete(calls)
    ensures CarriedOutFor(calls, conditionId) <= 1 <==> !RedeemsAgain(calls, conditionId)
  {
    hide TriesFrom, AgainWithin, AfterCall, RedeemsAgain, CarriedOutAt, FirstFor, Run;
    if calls == [] {
      NothingAgainYet(conditionId);
    } else {
      var last := |calls| - 1;
      AtMostOnceIff(calls[..last], conditionId);
      CarriedOutIff(calls[..last], conditionId);
      if m, j :| CarriedOutAt(calls[..last], conditionId, m, j) {
        AtMostOnceLater(calls, conditionId, m, j);
      } else {
        AtMostOnceFirst(calls, conditionId);
      }
    }
  }

  lemma {:induction false} NothingAgainYet(conditionId: string)
    ensures !RedeemsAgain([], conditionId)
  {
  }

  lemma {:induction false} AtMostOnceFirst(calls: seq<Call>, conditionId: string)
    requires AllComplete(calls) && calls != []
    requires !SomeCarriedOut(calls[..|calls| - 1], conditionId)
    ensures CarriedOutFor(calls, conditionId) <= 1 <==> !RedeemsAgain(calls, conditionId)
  {
    hide TriesFrom, AgainWithin, AfterCall, RedeemsAgain, CarriedOutAt, Run;
    var last := |calls| - 1;
    CarriedOutIff(calls[..last], conditionId);
    if calls[last].request.conditionId == conditionId {
      if conditionId in Run(calls[..last]) {
        RecordedIsCarriedOut(calls[..last], conditionId);
        assert false;
      }
      CarriedOutAgain(calls[last].attempts, 0);
      AgainInLastCall(calls, conditionId);
    } else {
      NotAgainForAnother(calls, conditionId);
    }
  }

  lemma {:induction false} NotAgainForAnother(calls: seq<Call>, conditionId: string)
    requires calls != [] && calls[|calls| - 1].request.conditionId != conditionId
    requires !SomeCarriedOut(calls[..|calls| - 1], conditionId)
    ensures !RedeemsAgain(calls, conditionId)
  {
    CarriedOutStep(calls, conditionId);
  }

  lemma {:induction false} AtMostOnceLater(calls: seq<Call>, conditionId: string, m: int, j: int)
    requires AllComplete(calls) && calls != [] && CarriedOutAt(calls[..|calls| - 1], conditionId, m, j)
    requires var before := calls[..|calls| - 1];
      && (CarriedOutFor(before, conditionId) <= 1 <==> !RedeemsAgain(before, conditionId))
      && CarriedOutFor(before, conditionId) > 0
    ensures CarriedOutFor(calls, conditionId) <= 1 <==> !RedeemsAgain(calls, conditionId)
  {
    hide TriesFrom, AgainWithin, AfterCall, RedeemsAgain, FirstFor, CarriedOutAt, Run;
    var last := |calls| - 1;
    var n, k := FirstForExists(calls[..last], conditionId, m, j);
    AgainLater(calls, conditionId, n, k);
    FirstIsThere(calls[..last], conditionId, n, k);
    TriesFacts(calls[last].attempts, 0);
    if conditionId !in Run(calls[..last]) {
      UnrecordedIsLost(calls[..last], conditionId, n, k);
    } else if IsLost(calls[n].attempts[k]) {
      RecordedAfterLoss(calls[..last], conditionId, n, k);
    }
  }

  lemma {:induction false} FirstIsThere(calls: seq<Call>, conditionId: string, n: int, k: int)
    requires FirstFor(calls, conditionId, n, k)
    ensures CarriedOutAt(calls, conditionId, n, k) && 0 <= n < |calls| && 0 <= k < |calls[n].attempts|
  {
  }

  /**
   A condition is carried out if it is recorded; it is carried out without being recorded exactly when
   every answer to a post that carried it out was lost.
   */
  lemma {:induction false} RecordedIffCarriedOut(calls: seq<Call>, conditionId: string)
    requires AllComplete(calls)
    ensures conditionId in Run(calls) ==> CarriedOutFor(calls, conditionId) > 0
    ensures conditionId !in Run(calls) && CarriedOutFor(calls, conditionId) > 0 <==>
              && SomeCarriedOut(calls, conditionId)
              && forall n, k :: CarriedOutAt(calls, conditionId, n, k) ==> IsLost(calls[n].attempts[k])
  {
    CarriedOutIff(calls, conditionId);
    RecordedIffAnswered(calls, conditionId);
    if n, k :| AnsweredAt(calls, conditionId, n, k) {
      assert CarriedOutAt(calls, conditionId, n, k);
    }
    if n, k :| CarriedOutAt(calls, conditionId, n, k) && !IsLost(calls[n].attempts[k]) {
      assert AnsweredAt(calls, conditionId, n, k);
    }
  }

  /** With an alerter that never raises and no lost answers, a condition is redeemed once if recorded, else never. */
  lemma {:induction false} QuietAlerterRedeemsOnce(calls: seq<Call>, conditionId: string)
    requires AllComplete(calls)
    requires forall n, k :: CarriedOutAt(calls, conditionId, n, k) ==>
               !IsLost(calls[n].attempts[k]) && !calls[n].attempts[k].alertRaises
    ensures CarriedOutFor(calls, conditionId) == if conditionId in Run(calls) then 1 else 0
  {
    AtMostOnceIff(calls, conditionId);
    RecordedIffCarriedOut(calls, conditionId);
  }

  /**
   A call returns what the ledger then says, unless every one of its successes raised in its alert or
   its failure alert raised.
   */
  lemma {:induction false} ResultMatchesLedgerIff(ledger: Redemptions, c: Call)
    requires Complete(c)
    ensures ResultOf(ledger, c) == Returned(c.request.conditionId in AfterCall(ledger, c)) <==>
              || c.request.conditionId in ledger
              || (exists k :: 0 <= k < |c.attempts| && Stops(c.attempts[k]))
              || (!c.failureAlertRaises && forall k :: 0 <= k < |c.attempts| ==> c.attempts[k].reply.Failed?)
  {
    TriesFacts(c.attempts, 0);
  }

  ghost function OneCall(first: Attempt, second: Attempt): (calls: seq<Call>)
    ensures AllComplete(calls)
  {
    [Call(RedemptionRequest("condition", "token", 0), 10.0, [first, second, Attempt(Failed(false), false)], false)]
  }

  lemma {:induction false} TwoCarriedOut(first: Attempt, second: Attempt)
    requires CarriesOut(first) && !Stops(first) && Stops(second)
    ensures CarriedOutFor(OneCall(first, second), "condition") == 2
  {
    var calls := OneCall(first, second);
    var attempts := calls[0].attempts;
    assert calls[..0] == [];
    assert TriesFrom(attempts, 1).carriedOut == 1;
    assert TriesFrom(attempts, 0).carriedOut == 2;
    assert CarriedOutFor(calls[..0], "condition") == 0;
  }

  /** One call whose first success cannot be announced: the retry redeems the condition a second time. */
  lemma {:induction false} RedeemedTwice() returns (calls: seq<Call>)
    ensures AllComplete(calls) && |calls| == 1 && CarriedOutFor(calls, "condition") == 2
    ensures !exists n, k :: IsFor(calls, "condition", n, k) && IsLost(calls[n].attempts[k])
  {
    var first, second := Attempt(Answered("0x1"), true), Attempt(Answered("0x2"), false);
    calls := OneCall(first, second);
    TwoCarriedOut(first, second);
  }

  /** One call with a quiet alerter: the first answer is lost, and the retry redeems the condition again. */
  lemma {:induction false} LostAnswerRedeemsTwice() returns (calls: seq<Call>)
    ensures AllComplete(calls) && |calls| == 1 && CarriedOutFor(calls, "condition") == 2
    ensures !exists n, k :: IsFor(calls, "condition", n, k) && calls[n].attempts[k].alertRaises
  {
    var first, second := Attempt(Failed(true), false), Attempt(Answered("0x2"), false);
    calls := OneCall(first, second);
    TwoCarriedOut(first, second);
  }
}
