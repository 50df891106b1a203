/** Fee rates per token: lazily evicted after a TTL, dropped on deviation, with a miss counter. */
module FeeCache {
  import opened Common

  datatype CacheEntry = CacheEntry(bps: int, expiresAt: real)

  datatype CacheSettings = CacheSettings(ttl: real, missThreshold: int, deviationPct: real)

  datatype CacheState = CacheState(entries: map<string, CacheEntry>, missCounts: map<string, nat>)

  datatype CacheOp =
    | Get(tokenId: string, at: real)
    | Set(tokenId: string, bps: int, at: real)
    | Invalidate(tokenId: string, at: real)
    | RecordMiss(tokenId: string, at: real)
    | CheckDeviation(tokenId: string, newBps: int, at: real)

  predicate Deviates(cached: int, newBps: int, deviationPct: real)
  {
    cached != 0 && Abs((newBps - cached) as real) / cached as real * 100.0 > deviationPct
  }

  /** What the cache answers for a token now. */
  function Lookup(s: CacheState, tokenId: string, now: real): Option<int>
  {
    if tokenId in s.entries && now <= s.entries[tokenId].expiresAt then Some(s.entries[tokenId].bps) else None
  }

  function Misses(s: CacheState, tokenId: string): nat
  {
    if tokenId in s.missCounts then s.missCounts[tokenId] else 0
  }

  /** Looking a token up removes its entry once expired. */
  function Evicted(s: CacheState, tokenId: string, now: real): CacheState
  {
    if tokenId in s.entries && now > s.entries[tokenId].expiresAt then s.(entries := s.entries - {tokenId}) else s
  }

  predicate Detected(c: CacheSettings, s: CacheState, tokenId: string, newBps: int, now: real)
  {
    var cached := Lookup(s, tokenId, now);
    cached.Some? && Deviates(cached.value, newBps, c.deviationPct)
  }

  function Next(c: CacheSettings, s: CacheState, op: CacheOp): CacheState
  {
    match op
    case Get(tokenId, now) => Evicted(s, tokenId, now)
    case Set(tokenId, bps, now) =>
      CacheState(s.entries[tokenId := CacheEntry(bps, now + c.ttl)], s.missCounts - {tokenId})
    case Invalidate(tokenId, _) => s.(entries := s.entries - {tokenId})
    case RecordMiss(tokenId, _) => s.(missCounts := s.missCounts[tokenId := Misses(s, tokenId) + 1])
    case CheckDeviation(tokenId, newBps, now) =>
      if Detected(c, s, tokenId, newBps, now) then s.(entries := s.entries - {tokenId}) else Evicted(s, tokenId, now)
  }

  class FeeRateCache {
    const settings: CacheSettings
    var entries: map<string, CacheEntry>
    var missCounts: map<string, nat>

    constructor (settings: CacheSettings)
      ensures View() == CacheState(map[], map[]) && this.settings == settings
    {
      this.settings, entries, missCounts := settings, map[], map[];
    }

    function View(): CacheState
      reads this
    {
      CacheState(entries, missCounts)
    }

    method Get(tokenId: string, now: real) returns (bps: Option<int>)
      modifies this`entries
      ensures View() == Next(settings, old(View()), CacheOp.Get(tokenId, now))
      ensures bps == Lookup(old(View()), tokenId, now)
    {
      if tokenId !in entries {
        return None;
      }
      var entry := entries[tokenId];
      if now > entry.expiresAt {
        entries := entries - {tokenId};
        return None;
      }
      return Some(entry.bps);
    }

    method Set(tokenId: string, bps: int, now: real)
      modifies this
      ensures View() == Next(settings, old(View()), CacheOp.Set(tokenId, bps, now))
    {
      entries := entries[tokenId := CacheEntry(bps, now + settings.ttl)];
      missCounts := missCounts - {tokenId};
    }

    method Invalidate(tokenId: string, now: real)
      modifies this`entries
      ensures View() == Next(settings, old(View()), CacheOp.Invalidate(tokenId, now))
    {
      entries := entries - {tokenId};
    }

    method RecordMiss(tokenId: string, now: real)
      modifies this`missCounts
      ensures View() == Next(settings, old(View()), CacheOp.RecordMiss(tokenId, now))
    {
      var count := if tokenId in missCounts then missCounts[tokenId] else 0;
      missCounts := missCounts[tokenId := count + 1];
    }

    method ShouldExclude(tokenId: string) returns (exclude: bool)
      ensures exclude <==> Misses(View(), tokenId) >= settings.missThreshold
    {
      exclude := (if tokenId in missCounts then missCounts[tokenId] else 0) >= settings.missThreshold;
    }

    method CheckDeviation(tokenId: string, newBps: int, now: real) returns (detected: bool)
      modifies this`entries
      ensures View() == Next(settings, old(View()), CacheOp.CheckDeviation(tokenId, newBps, now))
      ensures detected == Detected(settings, old(View()), tokenId, newBps, now)
    {
      var cached := Get(tokenId, now);
      if cached == None || cached == Some(0) {
        return false;
      }
      var deviationPct := Abs((newBps - cached.value) as real) / cached.value as real * 100.0;
      if deviationPct > settings.deviationPct {
        Invalidate(tokenId, now);
        return true;
      }
      return false;
    }

    /** `fetched` is what the refetch function returned; none when there is no such function or it failed. */
    method OnFill(tokenId: string, fetched: Option<int>, now: real)
      modifies this
      ensures View() == if fetched.Some? then Next(settings, old(View()), CacheOp.Set(tokenId, fetched.value, now))
          else old(View())
    {
      if fetched.Some? {
        Set(tokenId, fetched.value, now);
      }
    }
  }

  /** A rate deviates when it is off by more than the allowed percentage of the cached one; from zero nothing does. */
  lemma {:induction false} DeviatesIff(cached: int, newBps: int, deviationPct: real)
    ensures Deviates(cached, newBps, deviationPct) <==>
              var off, allowed := if newBps >= cached then newBps - cached else cached - newBps,
                  Times(deviationPct, cached as real);
              (cached > 0 && off as real * 100.0 > allowed) || (cached < 0 && off as real * 100.0 < allowed)
  {
    if cached != 0 {
      var off, base := Abs((newBps - cached) as real), cached as real;
      var share := Quotient(off, base);
      if cached > 0 {
        ScaleIff(share * 100.0, deviationPct, base);
      } else {
        ScaleIff(share * 100.0, deviationPct, -base);
      }
    }
  }

  // ----- What a cache must answer, told from the history alone -----

  function Run(c: CacheSettings, trace: seq<CacheOp>): CacheState
  {
    if trace == [] then CacheState(map[], map[]) else Next(c, Run(c, trace[..|trace| - 1]), trace[|trace| - 1])
  }

  /** An operation after which a rate of `bps` no longer stands: a new rate, an invalidation or a deviation from it. */
  predicate Ends(c: CacheSettings, op: CacheOp, tokenId: string, bps: int)
  {
    op.tokenId == tokenId &&
    (op.Set? || op.Invalidate? || (op.CheckDeviation? && Deviates(bps, op.newBps, c.deviationPct)))
  }

  /** Operation `k` set the token to `bps` and nothing since has ended that. */
  ghost predicate Stands(c: CacheSettings, trace: seq<CacheOp>, k: nat, tokenId: string, bps: int)
  {
    && k < |trace| && trace[k].Set? && trace[k].tokenId == tokenId && trace[k].bps == bps
    && forall j :: k < j < |trace| ==> !Ends(c, trace[j], tokenId, bps)
  }

  ghost predicate Monotone(trace: seq<CacheOp>, now: real)
  {
    && (forall i, j :: 0 <= i <= j < |trace| ==> trace[i].at <= trace[j].at)
    && (forall i :: 0 <= i < |trace| ==> trace[i].at <= now)
  }

  /** Every entry held is a rate that stands, with its expiry. */
  lemma {:induction false} EntryStands(c: CacheSettings, trace: seq<CacheOp>, tokenId: string) returns (k: nat)
    requires tokenId in Run(c, trace).entries
    ensures Stands(c, trace, k, tokenId, Run(c, trace).entries[tokenId].bps)
    ensures Run(c, trace).entries[tokenId].expiresAt == trace[k].at + c.ttl
  {
    hide Deviates;
    var n := |trace| - 1;
    if trace[n].Set? && trace[n].tokenId == tokenId {
      k := n;
    } else {
      k := EntryStands(c, trace[..n], tokenId);
    }
  }

  predicate Holds(s: CacheState, tokenId: string, entry: CacheEntry)
  {
    tokenId in s.entries && s.entries[tokenId] == entry
  }

  /** A rate that stands is held until the clock has passed its expiry. */
  lemma {:induction false} StandingIsHeld(c: CacheSettings, trace: seq<CacheOp>, k: nat, tokenId: string, bps: int)
    requires Stands(c, trace, k, tokenId, bps)
    ensures Holds(Run(c, trace), tokenId, CacheEntry(bps, trace[k].at + c.ttl))
         || exists j :: k < j < |trace| && trace[j].at > trace[k].at + c.ttl
  {
    hide Deviates;
    var n := |trace| - 1;
    if k < n {
      StandingIsHeld(c, trace[..n], k, tokenId, bps);
    }
  }

  /**
   Under a monotone clock the cache answers a rate exactly when some earlier operation set it, it
   has not outlived its TTL, and nothing since has replaced, invalidated or contradicted it.
   */
  lemma {:induction false} AnswersFromHistory(c: CacheSettings, trace: seq<CacheOp>, tokenId: string, now: real,
                                              bps: int)
    requires Monotone(trace, now)
    ensures Lookup(Run(c, trace), tokenId, now) == Some(bps)
       <==> exists k: nat :: Stands(c, trace, k, tokenId, bps) && now <= trace[k].at + c.ttl
  {
    hide Deviates, Run;
    if Lookup(Run(c, trace), tokenId, now) == Some(bps) {
      var k := EntryStands(c, trace, tokenId);
    }
    forall k: nat | Stands(c, trace, k, tokenId, bps) && now <= trace[k].at + c.ttl
      ensures Lookup(Run(c, trace), tokenId, now) == Some(bps)
    {
      StandingIsHeld(c, trace, k, tokenId, bps);
    }
  }

  /** The misses recorded since the token was last set. */
  ghost function MissesSinceSet(trace: seq<CacheOp>, tokenId: string): nat
  {
    if trace == [] then 0
    else
      var last := trace[|trace| - 1];
      if last.tokenId == tokenId && last.Set? then 0
      else MissesSinceSet(trace[..|trace| - 1], tokenId) + if last.tokenId == tokenId && last.RecordMiss? then 1 else 0
  }

  lemma {:induction false} MissesCounted(c: CacheSettings, trace: seq<CacheOp>, tokenId: string)
    ensures Misses(Run(c, trace), tokenId) == MissesSinceSet(trace, tokenId)
  {
    hide Detected;
    if trace != [] {
      MissesCounted(c, trace[..|trace| - 1], tokenId);
    }
  }
}
