/**
 What the gateway emits over whole traces: faithful, uncrossed book events, and resync requests at
 every full streak.
 */
module StreamRuns {
  import opened Common
  import opened Sorting
  import opened BookTypes
  import opened MarketStream
  import opened BookRefinement

  // ----- Emitted books -----

  function KeyOf(side: BookSide): PriceLevel -> real
  {
    if side.BidSide? then BidKey else AskKey
  }

  function Side(e: BookEvent, side: BookSide): seq<PriceLevel>
  {
    if side.BidSide? then e.bids else e.asks
  }

  /** Some key spelling `price` has `size` in the history. */
  ghost predicate Quoted(trace: seq<StreamEvent>, tokenId: string, side: BookSide, toPrice: string -> real,
                         l: PriceLevel)
  {
    exists key :: LevelAt(trace, tokenId, side, key) == Some(l.size) && toPrice(key) == l.price
  }

  /** `d` lists each level of a side once, with the size the history settles on. */
  ghost predicate ListsLevels(d: Dict, trace: seq<StreamEvent>, tokenId: string, side: BookSide)
  {
    DistinctKeys(d) && forall key :: Get(d, key) == LevelAt(trace, tokenId, side, key)
  }

  /** The levels shown are those of the history, each as often as keys spell it. */
  ghost predicate ShowsLevels(levels: seq<PriceLevel>, trace: seq<StreamEvent>, tokenId: string, side: BookSide,
                              toPrice: string -> real)
  {
    exists d :: ListsLevels(d, trace, tokenId, side) && multiset(levels) == multiset(Levels(d, toPrice))
  }

  ghost predicate FaithfulSide(e: BookEvent, trace: seq<StreamEvent>, toPrice: string -> real, side: BookSide)
  {
    Sorted(Side(e, side), KeyOf(side)) && ShowsLevels(Side(e, side), trace, e.tokenId, side, toPrice)
  }

  /** A book event shows, sorted best first, exactly the levels its token's history settles on, and is not crossed. */
  ghost predicate Faithful(e: BookEvent, trace: seq<StreamEvent>, toPrice: string -> real)
  {
    && (forall side :: FaithfulSide(e, trace, toPrice, side))
    && (e.bids != [] && e.asks != [] ==> e.bids[0].price < e.asks[0].price)
  }

  lemma {:induction false} LevelsMembers(d: Dict, toPrice: string -> real, l: PriceLevel)
    requires DistinctKeys(d)
    ensures l in Levels(d, toPrice) <==> exists key :: Get(d, key) == Some(l.size) && toPrice(key) == l.price
  {
    var levels := Levels(d, toPrice);
    if l in levels {
      var i :| 0 <= i < |levels| && levels[i] == l;
      GetIffIn(d, d[i].key, d[i].size);
      assert Get(d, d[i].key) == Some(l.size) && toPrice(d[i].key) == l.price;
    }
    if key :| Get(d, key) == Some(l.size) && toPrice(key) == l.price {
      GetIffIn(d, key, l.size);
      var i :| 0 <= i < |d| && d[i] == Entry(key, l.size);
      assert levels[i] == l;
    }
  }

  /** Levels shown are those quoted. */
  lemma {:induction false} ShownIsQuoted(levels: seq<PriceLevel>, trace: seq<StreamEvent>, tokenId: string,
                                         side: BookSide,
                                         toPrice: string -> real, l: PriceLevel)
    requires ShowsLevels(levels, trace, tokenId, side, toPrice)
    ensures l in levels <==> Quoted(trace, tokenId, side, toPrice, l)
  {
    var d :| ListsLevels(d, trace, tokenId, side) && multiset(levels) == multiset(Levels(d, toPrice));
    LevelsMembers(d, toPrice, l);
    assert l in levels <==> l in multiset(levels);
    assert l in Levels(d, toPrice) <==> l in multiset(Levels(d, toPrice));
    assert forall key :: Get(d, key) == LevelAt(trace, tokenId, side, key);
  }

  /** The sorted side of a book after a trace. */
  lemma {:induction false} SideShowsHistory(trace: seq<StreamEvent>, threshold: int, toPrice: string -> real,
                                            tokenId: string, side: BookSide)
    requires tokenId in Run(trace, threshold, toPrice).books
    ensures var d := SideOf(Run(trace, threshold, toPrice).books[tokenId], side);
      var sorted := SortBy(Levels(d, toPrice), KeyOf(side));
      Sorted(sorted, KeyOf(side)) && ShowsLevels(sorted, trace, tokenId, side, toPrice)
  {
    BookFollowsHistory(trace, threshold, toPrice, tokenId);
    var d := SideOf(Run(trace, threshold, toPrice).books[tokenId], side);
    SortSorts(Levels(d, toPrice), KeyOf(side));
    assert ListsLevels(d, trace, tokenId, side);
  }

  /** The event updates its token's book. */
  ghost predicate Processed(init: seq<StreamEvent>, e: StreamEvent)
  {
    (e.Snapshot? && e.tokenId != "") || (e.Delta? && e.tokenId != "" && HasBook(init, e.tokenId))
  }

  /** Some bid of the history is at or above some ask. */
  ghost predicate Crossed(trace: seq<StreamEvent>, tokenId: string, toPrice: string -> real)
  {
    exists kb, ka :: LevelAt(trace, tokenId, BidSide, kb).Some? && LevelAt(trace, tokenId, AskSide, ka).Some?
                     && toPrice(kb) >= toPrice(ka)
  }

  /** Comparing the two best prices finds a crossed book exactly when any bid and ask cross. */
  lemma {:induction false} CrossedFollowsHistory(trace: seq<StreamEvent>, threshold: int, toPrice: string -> real,
                                                 tokenId: string)
    requires tokenId in Run(trace, threshold, toPrice).books
    ensures var book := Run(trace, threshold, toPrice).books[tokenId];
      IsCrossed(SortedBids(book, toPrice), SortedAsks(book, toPrice)) <==> Crossed(trace, tokenId, toPrice)
  {
    var book := Run(trace, threshold, toPrice).books[tokenId];
    var bids, asks := SortedBids(book, toPrice), SortedAsks(book, toPrice);
    hide Run, SortBy, Levels, ShowsLevels, Sorted;
    SideShowsHistory(trace, threshold, toPrice, tokenId, BidSide);
    SideShowsHistory(trace, threshold, toPrice, tokenId, AskSide);
    if IsCrossed(bids, asks) {
      ShownIsQuoted(bids, trace, tokenId, BidSide, toPrice, bids[0]);
      ShownIsQuoted(asks, trace, tokenId, AskSide, toPrice, asks[0]);
      assert Quoted(trace, tokenId, BidSide, toPrice, bids[0]) && Quoted(trace, tokenId, AskSide, toPrice, asks[0]);
    }
    if kb, ka :| LevelAt(trace, tokenId, BidSide, kb).Some? && LevelAt(trace, tokenId, AskSide, ka).Some?
                 && toPrice(kb) >= toPrice(ka)
    {
      var b := PriceLevel(toPrice(kb), LevelAt(trace, tokenId, BidSide, kb).value);
      var a := PriceLevel(toPrice(ka), LevelAt(trace, tokenId, AskSide, ka).value);
      assert Quoted(trace, tokenId, BidSide, toPrice, b) && Quoted(trace, tokenId, AskSide, toPrice, a);
      ShownIsQuoted(bids, trace, tokenId, BidSide, toPrice, b);
      ShownIsQuoted(asks, trace, tokenId, AskSide, toPrice, a);
      FirstIsLeast(bids, BidKey, b);
      FirstIsLeast(asks, AskKey, a);
    }
  }

  lemma {:induction false} FirstIsLeast(levels: seq<PriceLevel>, key: PriceLevel -> real, l: PriceLevel)
    requires Sorted(levels, key) && l in levels
    ensures key(levels[0]) <= key(l)
  {
    var i :| 0 <= i < |levels| && levels[i] == l;
  }

  lemma {:induction false} RunStep(trace: seq<StreamEvent>, e: StreamEvent, threshold: int, toPrice: string -> real)
    ensures Run(trace + [e], threshold, toPrice) == Next(Run(trace, threshold, toPrice), e, threshold, toPrice)
  {
    assert (trace + [e])[..|trace + [e]| - 1] == trace;
  }

  /**
   An event is published exactly when it is processed and leaves the book uncrossed; what is
   published is faithful.
   */
  lemma {:induction false} EmitsFaithfulBooks(trace: seq<StreamEvent>, e: StreamEvent, threshold: int,
                                              toPrice: string -> real)
    ensures var s, s', now := Run(trace, threshold, toPrice), Run(trace + [e], threshold, toPrice), trace + [e];
      if Processed(trace, e) && !Crossed(now, e.tokenId, toPrice) then
        |s'.emitted| == |s.emitted| + 1 && s.emitted <= s'.emitted
        && s'.emitted[|s.emitted|].tokenId == e.tokenId && Faithful(s'.emitted[|s.emitted|], now, toPrice)
      else s'.emitted == s.emitted
  {
    RunStep(trace, e, threshold, toPrice);
    if e.Snapshot? || e.Delta? {
      BookFollowsHistory(trace, threshold, toPrice, e.tokenId);
      if Processed(trace, e) {
        PublishedBook(Run(trace, threshold, toPrice), e, threshold, toPrice);
        CrossedFollowsHistory(trace + [e], threshold, toPrice, e.tokenId);
        if !Crossed(trace + [e], e.tokenId, toPrice) {
          UncrossedIsFaithful(trace + [e], threshold, toPrice, e.tokenId);
        }
      }
    }
  }

  lemma {:induction false} SideIsFaithful(trace: seq<StreamEvent>, threshold: int, toPrice: string -> real,
                                          tokenId: string, side: BookSide)
    requires tokenId in Run(trace, threshold, toPrice).books
    ensures var book := Run(trace, threshold, toPrice).books[tokenId];
      FaithfulSide(BookEvent(tokenId, SortedBids(book, toPrice), SortedAsks(book, toPrice)), trace, toPrice, side)
  {
    hide Run, SortBy, Levels, Sorted, ShowsLevels;
    SideShowsHistory(trace, threshold, toPrice, tokenId, side);
  }

  lemma {:induction false} UncrossedIsFaithful(trace: seq<StreamEvent>, threshold: int, toPrice: string -> real,
                                               tokenId: string)
    requires tokenId in Run(trace, threshold, toPrice).books
    requires !Crossed(trace, tokenId, toPrice)
    ensures var book := Run(trace, threshold, toPrice).books[tokenId];
      Faithful(BookEvent(tokenId, SortedBids(book, toPrice), SortedAsks(book, toPrice)), trace, toPrice)
  {
    hide Run, SortBy, Levels, FaithfulSide, Crossed;
    CrossedFollowsHistory(trace, threshold, toPrice, tokenId);
    forall side: BookSide {
      SideIsFaithful(trace, threshold, toPrice, tokenId, side);
    }
  }

  /** What a processed event does to the queues and the counter. */
  lemma {:induction false} PublishedBook(s: State, e: StreamEvent, threshold: int, toPrice: string -> real)
    requires (e.Snapshot? && e.tokenId != "") || (e.Delta? && e.tokenId != "" && e.tokenId in s.books)
    ensures var s' := Next(s, e, threshold, toPrice);
      && e.tokenId in s'.books
      && var bids, asks := SortedBids(s'.books[e.tokenId], toPrice), SortedAsks(s'.books[e.tokenId], toPrice);
      var count := MissedCount(s, e.tokenId) + 1;
      if IsCrossed(bids, asks) then
        && s'.emitted == s.emitted
        && s'.resyncs == s.resyncs + (if count >= threshold then [e.tokenId] else [])
        && MissedCount(s', e.tokenId) == (if count >= threshold then 0 else count)
      else
        && s'.emitted == s.emitted + [BookEvent(e.tokenId, bids, asks)]
        && s'.resyncs == s.resyncs && MissedCount(s', e.tokenId) == 0
  {
  }

  /** Every event of the trace leaves sizes that are not negative. */
  ghost predicate NoNegativeSizes(trace: seq<StreamEvent>)
  {
    forall e, c :: e in trace && e.Delta? && c in e.changes ==> c.size >= 0.0
  }

  /** Then every level shown has a positive size. */
  lemma {:induction false} SizesPositive(trace: seq<StreamEvent>, tokenId: string, side: BookSide, key: string)
    requires NoNegativeSizes(trace)
    ensures LevelAt(trace, tokenId, side, key).Some? ==> LevelAt(trace, tokenId, side, key).value > 0.0
  {
    if trace != [] {
      var init, last := trace[..|trace| - 1], trace[|trace| - 1];
      assert last in trace && forall e :: e in init ==> e in trace;
      SizesPositive(init, tokenId, side, key);
      match last
      case Snapshot(t, bids, asks) =>
        LastPositiveIsPositive(bids, key);
        LastPositiveIsPositive(asks, key);
      case Delta(t, changes) =>
        LastChangeIn(changes, side, key);
      case Subscribe(_) =>
      case Unsubscribe(_) =>
    }
  }

  lemma {:induction false} LastPositiveIsPositive(entries: seq<Entry>, key: string)
    ensures LastPositive(entries, key).Some? ==> LastPositive(entries, key).value > 0.0
  {
    if entries != [] {
      LastPositiveIsPositive(entries[..|entries| - 1], key);
    }
  }

  lemma {:induction false} LastChangeIn(changes: seq<Change>, side: BookSide, key: string)
    ensures LastChange(changes, side, key).Some? ==>
              exists c :: c in changes && c.size == LastChange(changes, side, key).value
  {
    if changes != [] {
      var init, last := changes[..|changes| - 1], changes[|changes| - 1];
      LastChangeIn(init, side, key);
      assert last in changes && forall c :: c in init ==> c in changes;
    }
  }

  /** Each price of a side is spelled in one way. */
  ghost predicate CanonicalOn(trace: seq<StreamEvent>, tokenId: string, toPrice: string -> real, side: BookSide)
  {
    forall k, k' ::
      LevelAt(trace, tokenId, side, k).Some? && LevelAt(trace, tokenId, side, k').Some? ==>
        (toPrice(k) == toPrice(k') ==> k == k')
  }

  ghost predicate Canonical(trace: seq<StreamEvent>, tokenId: string, toPrice: string -> real)
  {
    CanonicalOn(trace, tokenId, toPrice, BidSide) && CanonicalOn(trace, tokenId, toPrice, AskSide)
  }

  ghost predicate StrictSides(e: BookEvent)
  {
    StrictlySorted(e.bids, BidKey) && StrictlySorted(e.asks, AskKey)
  }

  /** A faithful event is strictly sorted, with no price shown twice, exactly when prices are canonically spelled. */
  lemma {:induction false} StrictIffCanonical(e: BookEvent, trace: seq<StreamEvent>, toPrice: string -> real)
    requires Faithful(e, trace, toPrice)
    ensures StrictSides(e) <==> Canonical(trace, e.tokenId, toPrice)
  {
    assert Side(e, BidSide) == e.bids && Side(e, AskSide) == e.asks;
    assert KeyOf(BidSide) == BidKey && KeyOf(AskSide) == AskKey;
    StrictSideIff(e, trace, toPrice, BidSide);
    StrictSideIff(e, trace, toPrice, AskSide);
  }

  lemma {:induction false} StrictSideIff(e: BookEvent, trace: seq<StreamEvent>, toPrice: string -> real, side: BookSide)
    requires Faithful(e, trace, toPrice)
    ensures StrictlySorted(Side(e, side), KeyOf(side)) <==> CanonicalOn(trace, e.tokenId, toPrice, side)
  {
    var levels := Side(e, side);
    assert FaithfulSide(e, trace, toPrice, side);
    var d :| ListsLevels(d, trace, e.tokenId, side) && multiset(levels) == multiset(Levels(d, toPrice));
    StrictIffNoTies(levels, Levels(d, toPrice), KeyOf(side));
    CanonicalSide(trace, e.tokenId, toPrice, side, d);
    assert NoTies(Levels(d, toPrice), KeyOf(side)) <==> DistinctPrices(d, toPrice);
  }

  lemma {:induction false} CanonicalSide(trace: seq<StreamEvent>, tokenId: string, toPrice: string -> real,
                                         side: BookSide, d: Dict)
    requires ListsLevels(d, trace, tokenId, side)
    ensures DistinctPrices(d, toPrice) <==> CanonicalOn(trace, tokenId, toPrice, side)
  {
    forall i | 0 <= i < |d| ensures LevelAt(trace, tokenId, side, d[i].key).Some? {
      GetNone(d, d[i].key);
      assert d[i] in d;
    }
    forall k | LevelAt(trace, tokenId, side, k).Some? ensures exists i :: 0 <= i < |d| && d[i].key == k {
      GetIffIn(d, k, Get(d, k).value);
    }
  }

  /** Nothing else is a faithful book event then: a history without twice-spelled prices determines what is shown. */
  lemma {:induction false} FaithfulIsUnique(e: BookEvent, e': BookEvent, trace: seq<StreamEvent>,
                                            toPrice: string -> real)
    requires Faithful(e, trace, toPrice) && Faithful(e', trace, toPrice) && e.tokenId == e'.tokenId
    requires Canonical(trace, e.tokenId, toPrice)
    ensures e == e'
  {
    StrictIffCanonical(e, trace, toPrice);
    StrictIffCanonical(e', trace, toPrice);
    SameLevels(e, e', trace, toPrice, BidSide);
    SameLevels(e, e', trace, toPrice, AskSide);
    assert Side(e, BidSide) == e.bids && Side(e', BidSide) == e'.bids;
    assert Side(e, AskSide) == e.asks && Side(e', AskSide) == e'.asks;
    StrictSameMembers(e.bids, e'.bids, BidKey);
    StrictSameMembers(e.asks, e'.asks, AskKey);
  }

  lemma {:induction false} SameLevels(e: BookEvent, e': BookEvent, trace: seq<StreamEvent>, toPrice: string -> real,
                                      side: BookSide)
    requires Faithful(e, trace, toPrice) && Faithful(e', trace, toPrice) && e.tokenId == e'.tokenId
    ensures forall l :: l in Side(e, side) <==> l in Side(e', side)
  {
    forall l: PriceLevel ensures l in Side(e, side) <==> l in Side(e', side) {
      assert FaithfulSide(e, trace, toPrice, side) && FaithfulSide(e', trace, toPrice, side);
      ShownIsQuoted(Side(e, side), trace, e.tokenId, side, toPrice, l);
      ShownIsQuoted(Side(e', side), trace, e.tokenId, side, toPrice, l);
    }
  }

  lemma {:induction false} StrictSameMembers(s: seq<PriceLevel>, t: seq<PriceLevel>, key: PriceLevel -> real)
    requires StrictlySorted(s, key) && StrictlySorted(t, key) && forall l :: l in s <==> l in t
    ensures s == t
  {
    BothEmpty(s, t);
    if s != [] {
      assert s[0] in t && t[0] in s;
      FirstOfStrict(s, t[0], key);
      FirstOfStrict(t, s[0], key);
      assert s[0] == t[0];
      forall l ensures l in s[1..] <==> l in t[1..] {
        TailOfStrict(s, l, key);
        TailOfStrict(t, l, key);
      }
      StrictSameMembers(s[1..], t[1..], key);
    }
  }

  lemma {:induction false} BothEmpty(s: seq<PriceLevel>, t: seq<PriceLevel>)
    requires forall l :: l in s <==> l in t
    ensures s == [] <==> t == []
  {
    assert s != [] ==> s[0] in s;
    assert t != [] ==> t[0] in t;
  }

  lemma {:induction false} FirstOfStrict(s: seq<PriceLevel>, l: PriceLevel, key: PriceLevel -> real)
    requires StrictlySorted(s, key) && l in s
    ensures key(s[0]) <= key(l) && (key(s[0]) == key(l) ==> s[0] == l)
  {
    var i :| 0 <= i < |s| && s[i] == l;
    if i > 0 {
      assert key(s[0]) < key(s[i]);
    }
  }

  lemma {:induction false} TailOfStrict(s: seq<PriceLevel>, l: PriceLevel, key: PriceLevel -> real)
    requires StrictlySorted(s, key) && s != []
    ensures l in s[1..] <==> l in s && l != s[0]
  {
    if i :| 0 <= i < |s[1..]| && s[1..][i] == l {
      assert key(s[0]) < key(s[i + 1]);
    }
  }

  /** Sizes are shown positive when no event brings a negative one. */
  lemma {:induction false} ShownSizesPositive(e: BookEvent, trace: seq<StreamEvent>, toPrice: string -> real,
                                              side: BookSide, l: PriceLevel)
    requires Faithful(e, trace, toPrice) && NoNegativeSizes(trace) && l in Side(e, side)
    ensures l.size > 0.0
  {
    assert FaithfulSide(e, trace, toPrice, side);
    ShownIsQuoted(Side(e, side), trace, e.tokenId, side, toPrice, l);
    var key :| LevelAt(trace, e.tokenId, side, key) == Some(l.size) && toPrice(key) == l.price;
    SizesPositive(trace, e.tokenId, side, key);
  }

  // ----- Everything a trace emits -----

  /**
   The event shows the history of the trace, whose last event updated its token's book and left it
   uncrossed; strictly sorted just when prices are canonical, with positive sizes if none is negative.
   */
  ghost predicate PublishedBy(e: BookEvent, trace: seq<StreamEvent>, toPrice: string -> real)
  {
    && trace != []
    && Processed(trace[..|trace| - 1], trace[|trace| - 1]) && trace[|trace| - 1].tokenId == e.tokenId
    && !Crossed(trace, e.tokenId, toPrice)
    && Faithful(e, trace, toPrice)
    && (StrictSides(e) <==> Canonical(trace, e.tokenId, toPrice))
    && (NoNegativeSizes(trace) ==> forall l :: l in e.bids + e.asks ==> l.size > 0.0)
  }

  /** Every book event a trace ever emits was published by a prefix of the trace. */
  lemma {:induction false} AllEmittedFaithful(trace: seq<StreamEvent>, threshold: int, toPrice: string -> real, k: nat)
    requires k < |Run(trace, threshold, toPrice).emitted|
    ensures exists n :: 0 < n <= |trace| && PublishedBy(Run(trace, threshold, toPrice).emitted[k], trace[..n], toPrice)
  {
    hide PublishedBy, Faithful, Processed, Crossed, Next;
    var init, last := trace[..|trace| - 1], trace[|trace| - 1];
    assert init + [last] == trace;
    EmitsFaithfulBooks(init, last, threshold, toPrice);
    if k < |Run(init, threshold, toPrice).emitted| {
      AllEmittedFaithful(init, threshold, toPrice, k);
      var n :| 0 < n <= |init| && PublishedBy(Run(init, threshold, toPrice).emitted[k], init[..n], toPrice);
      assert init[..n] == trace[..n];
    } else {
      assert trace[..|trace|] == trace;
      EmittedIsPublished(init, last, threshold, toPrice);
    }
  }

  lemma {:induction false} EmittedIsPublished(trace: seq<StreamEvent>, e: StreamEvent, threshold: int,
                                              toPrice: string -> real)
    requires Processed(trace, e) && !Crossed(trace + [e], e.tokenId, toPrice)
    ensures var before, after := Run(trace, threshold, toPrice).emitted, Run(trace + [e], threshold, toPrice).emitted;
      |before| < |after| && PublishedBy(after[|before|], trace + [e], toPrice)
  {
    hide Faithful, Processed, Crossed, Next, Run, StrictSides, Canonical, NoNegativeSizes;
    EmitsFaithfulBooks(trace, e, threshold, toPrice);
    var now := trace + [e];
    assert now[..|now| - 1] == trace && now[|now| - 1] == e;
    var event := Run(now, threshold, toPrice).emitted[|Run(trace, threshold, toPrice).emitted|];
    StrictIffCanonical(event, now, toPrice);
    if NoNegativeSizes(now) {
      forall l | l in event.bids + event.asks ensures l.size > 0.0 {
        ShownSizesPositive(event, now, toPrice, if l in event.bids then BidSide else AskSide, l);
      }
    }
  }

  // ----- Crossed streaks and resyncs -----

  /** How many of the token's latest processed events in a row left its book crossed. */
  ghost function Streak(trace: seq<StreamEvent>, tokenId: string, toPrice: string -> real): nat
  {
    if trace == [] then 0 else
      var init, last := trace[..|trace| - 1], trace[|trace| - 1];
      if Processed(init, last) && last.tokenId == tokenId then
        if Crossed(trace, tokenId, toPrice) then Streak(init, tokenId, toPrice) + 1 else 0
      else Streak(init, tokenId, toPrice)
  }

  /** A threshold below one acts like one: every crossed event triggers. */
  function Period(threshold: int): int
  {
    if threshold < 1 then 1 else threshold
  }

  /** The resync requests of a trace: one whenever a streak reaches a multiple of the threshold. */
  ghost function ExpectedResyncs(trace: seq<StreamEvent>, threshold: int, toPrice: string -> real): seq<string>
  {
    if trace == [] then [] else
      var init, last := trace[..|trace| - 1], trace[|trace| - 1];
      ExpectedResyncs(init, threshold, toPrice) +
      if Processed(init, last) && Crossed(trace, last.tokenId, toPrice)
         && Streak(trace, last.tokenId, toPrice) % Period(threshold) == 0
      then [last.tokenId] else []
  }

  /** The counter is the streak modulo the threshold. */
  lemma {:induction false} CounterFollowsStreak(trace: seq<StreamEvent>, threshold: int, toPrice: string -> real,
                                                tokenId: string)
    ensures MissedCount(Run(trace, threshold, toPrice), tokenId) == Streak(trace, tokenId, toPrice) % Period(threshold)
  {
    if trace != [] {
      var init, last := trace[..|trace| - 1], trace[|trace| - 1];
      var s := Run(init, threshold, toPrice);
      CounterFollowsStreak(init, threshold, toPrice, tokenId);
      assert Run(trace, threshold, toPrice) == Next(s, last, threshold, toPrice);
      if (last.Snapshot? || last.Delta?) && last.tokenId != tokenId {
        OtherBooksUntouched(s, last, threshold, toPrice, tokenId);
      } else if last.Snapshot? || last.Delta? {
        BookFollowsHistory(init, threshold, toPrice, tokenId);
        if Processed(init, last) {
          CounterStep(trace, threshold, toPrice, tokenId);
        }
      }
    }
  }

  lemma {:induction false} CounterStep(trace: seq<StreamEvent>, threshold: int, toPrice: string -> real,
                                       tokenId: string)
    requires trace != [] && Processed(trace[..|trace| - 1], trace[|trace| - 1]) && trace[|trace| - 1].tokenId == tokenId
    requires MissedCount(Run(trace[..|trace| - 1], threshold, toPrice), tokenId)
          == Streak(trace[..|trace| - 1], tokenId, toPrice) % Period(threshold)
    ensures MissedCount(Run(trace, threshold, toPrice), tokenId) == Streak(trace, tokenId, toPrice) % Period(threshold)
  {
    hide Next, MissedCount, Crossed, Streak, Period, SortedBids, SortedAsks, IsCrossed;
    var init, last := trace[..|trace| - 1], trace[|trace| - 1];
    BookFollowsHistory(init, threshold, toPrice, tokenId);
    PublishedBook(Run(init, threshold, toPrice), last, threshold, toPrice);
    CrossedFollowsHistory(trace, threshold, toPrice, tokenId);
    StreakStep(trace, threshold, toPrice, tokenId);
  }

  lemma {:induction false} StreakStep(trace: seq<StreamEvent>, threshold: int, toPrice: string -> real, tokenId: string)
    requires trace != [] && Processed(trace[..|trace| - 1], trace[|trace| - 1]) && trace[|trace| - 1].tokenId == tokenId
    ensures var count := Streak(trace[..|trace| - 1], tokenId, toPrice) % Period(threshold) + 1;
      Streak(trace, tokenId, toPrice) % Period(threshold) ==
        if !Crossed(trace, tokenId, toPrice) || count >= threshold then 0 else count
  {
    PhaseStep(Streak(trace[..|trace| - 1], tokenId, toPrice), threshold);
  }

  lemma {:induction false} PhaseStep(n: nat, threshold: int)
    ensures var p := Period(threshold);
      (n + 1) % p == (if n % p + 1 >= threshold then 0 else n % p + 1) && 0 % p == 0
  {
    NextModulo(n, Period(threshold));
    ModuloUnique(0, 0, 0, Period(threshold));
  }

  lemma {:induction false} AtLeast(a: int, b: int)
    requires a >= 1 && b >= 1
    ensures a * b >= b
  {
  }

  lemma {:induction false} ModuloUnique(x: int, q: int, r: int, p: int)
    requires p >= 1 && 0 <= r < p && x == q * p + r
    ensures x % p == r
  {
    var q', r' := x / p, x % p;
    assert (q - q') * p == r' - r;
    if q > q' {
      AtLeast(q - q', p);
    } else if q < q' {
      AtLeast(q' - q, p);
    }
  }

  lemma {:induction false} NextModulo(n: nat, p: int)
    requires p >= 1
    ensures (n + 1) % p == if n % p + 1 == p then 0 else n % p + 1
  {
    var q, r := n / p, n % p;
    assert n == q * p + r;
    if r + 1 == p {
      assert n + 1 == (q + 1) * p + 0;
      ModuloUnique(n + 1, q + 1, 0, p);
    } else {
      ModuloUnique(n + 1, q, r + 1, p);
    }
  }

  /** Resyncs over runs: requests go out exactly when a crossed streak reaches a multiple of the threshold. */
  lemma {:induction false} ResyncsFollowStreaks(trace: seq<StreamEvent>, threshold: int, toPrice: string -> real)
    ensures Run(trace, threshold, toPrice).resyncs == ExpectedResyncs(trace, threshold, toPrice)
  {
    if trace != [] {
      var init, last := trace[..|trace| - 1], trace[|trace| - 1];
      var s := Run(init, threshold, toPrice);
      ResyncsFollowStreaks(init, threshold, toPrice);
      if last.Snapshot? || last.Delta? {
        BookFollowsHistory(init, threshold, toPrice, last.tokenId);
        if Processed(init, last) {
          PublishedBook(s, last, threshold, toPrice);
          CrossedFollowsHistory(trace, threshold, toPrice, last.tokenId);
          CounterFollowsStreak(init, threshold, toPrice, last.tokenId);
          StreakStep(trace, threshold, toPrice, last.tokenId);
        }
      }
    }
  }
}
