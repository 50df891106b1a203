/**
 The market-data gateway: snapshots and deltas become local books, local books become book events,
 and a streak of crossed books becomes a resync request.
 */
module MarketStream {
  import opened Common
  import opened Sorting
  import opened BookTypes

  datatype BookSide = BidSide | AskSide

  /** A delta's level change; `side` is absent for a side the feed does not define. */
  datatype Change = Change(side: Option<BookSide>, key: string, size: real)

  datatype StreamEvent =
    | Snapshot(tokenId: string, bids: seq<Entry>, asks: seq<Entry>)
    | Delta(tokenId: string, changes: seq<Change>)
    | Subscribe(tokenIds: seq<string>)
    | Unsubscribe(tokenIds: seq<string>)

  datatype Book = Book(bids: Dict, asks: Dict)

  function SideOf(book: Book, side: BookSide): Dict
  {
    if side.BidSide? then book.bids else book.asks
  }

  /** The whole state of a gateway; `threshold` and `toPrice` never change. */
  datatype State = State(
    books: map<string, Book>, missed: map<string, int>, subscribed: set<string>,
    emitted: seq<BookEvent>, resyncs: seq<string>)

  const Initial := State(map[], map[], {}, [], [])

  // ----- One event -----

  /** A snapshot's side: later entries overwrite earlier ones, sizes that are not positive are skipped. */
  function Load(entries: seq<Entry>): Dict
  {
    if entries == [] then [] else
      var last := entries[|entries| - 1];
      var before := Load(entries[..|entries| - 1]);
      if last.size > 0.0 then Put(before, last.key, last.size) else before
  }

  function ApplyTo(d: Dict, key: string, size: real): Dict
  {
    if size == 0.0 then Pop(d, key) else Put(d, key, size)
  }

  function ApplyChange(book: Book, c: Change): Book
  {
    match c.side
    case Some(BidSide) => book.(bids := ApplyTo(book.bids, c.key, c.size))
    case Some(AskSide) => book.(asks := ApplyTo(book.asks, c.key, c.size))
    case None => book
  }

  function ApplyChanges(book: Book, changes: seq<Change>): Book
  {
    if changes == [] then book
    else ApplyChange(ApplyChanges(book, changes[..|changes| - 1]), changes[|changes| - 1])
  }

  function SortedBids(book: Book, toPrice: string -> real): seq<PriceLevel>
  {
    SortBy(Levels(book.bids, toPrice), BidKey)
  }

  function SortedAsks(book: Book, toPrice: string -> real): seq<PriceLevel>
  {
    SortBy(Levels(book.asks, toPrice), AskKey)
  }

  predicate IsCrossed(bids: seq<PriceLevel>, asks: seq<PriceLevel>)
  {
    bids != [] && asks != [] && bids[0].price >= asks[0].price
  }

  function MissedCount(s: State, tokenId: string): int
  {
    if tokenId in s.missed then s.missed[tokenId] else 0
  }

  /** Publishes a token's book, or counts it as crossed and asks for a resync at the threshold. */
  function Publish(s: State, tokenId: string, threshold: int, toPrice: string -> real): State
    requires tokenId in s.books
  {
    var bids, asks := SortedBids(s.books[tokenId], toPrice), SortedAsks(s.books[tokenId], toPrice);
    if IsCrossed(bids, asks) then
      var count := MissedCount(s, tokenId) + 1;
      if count >= threshold then s.(missed := s.missed[tokenId := 0], resyncs := s.resyncs + [tokenId])
      else s.(missed := s.missed[tokenId := count])
    else
      s.(missed := s.missed[tokenId := 0], emitted := s.emitted + [BookEvent(tokenId, bids, asks)])
  }

  function Dropped(s: State, tokenIds: seq<string>): set<string>
  {
    set t | t in tokenIds && t in s.subscribed
  }

  function Next(s: State, e: StreamEvent, threshold: int, toPrice: string -> real): State
  {
    match e
    case Snapshot(t, bids, asks) =>
      if t == "" then s
      else Publish(s.(books := s.books[t := Book(Load(bids), Load(asks))]), t, threshold, toPrice)
    case Delta(t, changes) =>
      if t == "" || t !in s.books then s
      else Publish(s.(books := s.books[t := ApplyChanges(s.books[t], changes)]), t, threshold, toPrice)
    case Subscribe(ts) => s.(subscribed := s.subscribed + set t | t in ts)
    case Unsubscribe(ts) => s.(subscribed := s.subscribed - Dropped(s, ts), books := s.books - Dropped(s, ts))
  }

  function Run(trace: seq<StreamEvent>, threshold: int, toPrice: string -> real): State
  {
    if trace == [] then Initial
    else Next(Run(trace[..|trace| - 1], threshold, toPrice), trace[|trace| - 1], threshold, toPrice)
  }

  // ----- The gateway -----

  class MarketStreamGateway {
    const deltaThreshold: int
    const toPrice: string -> real
    var localBooks: map<string, Book>
    var missedDeltaCounts: map<string, int>
    var subscribed: set<string>
    var bookQueue: seq<BookEvent>
    var resyncQueue: seq<string>

    ghost function View(): State
      reads this
    {
      State(localBooks, missedDeltaCounts, subscribed, bookQueue, resyncQueue)
    }

    constructor (deltaThreshold: int, toPrice: string -> real)
      ensures this.deltaThreshold == deltaThreshold && this.toPrice == toPrice
      ensures View() == Initial
    {
      this.deltaThreshold, this.toPrice := deltaThreshold, toPrice;
      localBooks, missedDeltaCounts, subscribed, bookQueue, resyncQueue := map[], map[], {}, [], [];
    }

    method SubscribeTo(tokenIds: seq<string>)
      modifies this
      ensures View() == Next(old(View()), Subscribe(tokenIds), deltaThreshold, toPrice)
    {
      subscribed := subscribed + set t | t in tokenIds;
    }

    method UnsubscribeFrom(tokenIds: seq<string>)
      modifies this
      ensures View() == Next(old(View()), Unsubscribe(tokenIds), deltaThreshold, toPrice)
    {
      var removed := set t | t in tokenIds && t in subscribed;
      subscribed := subscribed - removed;
      localBooks := localBooks - removed;
    }

    method LoadSide(entries: seq<Entry>) returns (side: Dict)
      ensures side == Load(entries)
    {
      side := [];
      for i := 0 to |entries|
        invariant side == Load(entries[..i])
      {
        assert entries[..i + 1][..i] == entries[..i];
        if entries[i].size > 0.0 {
          side := Put(side, entries[i].key, entries[i].size);
        }
      }
      assert entries[..|entries|] == entries;
    }

    /** A full snapshot replaces the local book. */
    method ApplySnapshot(tokenId: string, bids: seq<Entry>, asks: seq<Entry>)
      modifies this
      ensures View() == Next(old(View()), Snapshot(tokenId, bids, asks), deltaThreshold, toPrice)
    {
      if tokenId == "" {
        return;
      }
      var bidSide := LoadSide(bids);
      var askSide := LoadSide(asks);
      localBooks := localBooks[tokenId := Book(bidSide, askSide)];
      Emit(tokenId);
    }

    /** A delta changes single levels; without a snapshot it is ignored. */
    method ApplyDelta(tokenId: string, changes: seq<Change>)
      modifies this
      ensures View() == Next(old(View()), Delta(tokenId, changes), deltaThreshold, toPrice)
    {
      if tokenId == "" || tokenId !in localBooks {
        return;
      }
      var bids, asks := localBooks[tokenId].bids, localBooks[tokenId].asks;
      for i := 0 to |changes|
        invariant Book(bids, asks) == ApplyChanges(localBooks[tokenId], changes[..i])
      {
        assert changes[..i + 1][..i] == changes[..i];
        var c := changes[i];
        if c.side == Some(BidSide) {
          if c.size == 0.0 { bids := Pop(bids, c.key); } else { bids := Put(bids, c.key, c.size); }
        } else if c.side == Some(AskSide) {
          if c.size == 0.0 { asks := Pop(asks, c.key); } else { asks := Put(asks, c.key, c.size); }
        }
      }
      assert changes[..|changes|] == changes;
      localBooks := localBooks[tokenId := Book(bids, asks)];
      Emit(tokenId);
    }

    method Emit(tokenId: string)
      requires tokenId in localBooks
      modifies this
      ensures View() == Publish(old(View()), tokenId, deltaThreshold, toPrice)
    {
      var book := localBooks[tokenId];
      var sortedBids := SortBy(Levels(book.bids, toPrice), BidKey);
      var sortedAsks := SortBy(Levels(book.asks, toPrice), AskKey);
      if sortedBids != [] && sortedAsks != [] && sortedBids[0].price >= sortedAsks[0].price {
        var count := (if tokenId in missedDeltaCounts then missedDeltaCounts[tokenId] else 0) + 1;
        missedDeltaCounts := missedDeltaCounts[tokenId := count];
        if count >= deltaThreshold {
          resyncQueue := resyncQueue + [tokenId];
          missedDeltaCounts := missedDeltaCounts[tokenId := 0];
        }
        return;
      }
      missedDeltaCounts := missedDeltaCounts[tokenId := 0];
      bookQueue := bookQueue + [BookEvent(tokenId, sortedBids, sortedAsks)];
    }
  }
}
