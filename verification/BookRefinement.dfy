/**
 What a gateway shows after a trace, level by level: each level is settled by the last event that
 touched it. The dictionaries of `MarketStream` are proved to be an index of that history.
 */
module BookRefinement {
  import opened Common
  import opened BookTypes
  import opened MarketStream

  // ----- The history of a level, read backwards -----

  ghost predicate IsSubscribed(trace: seq<StreamEvent>, tokenId: string)
  {
    trace != [] &&
    var init, last := trace[..|trace| - 1], trace[|trace| - 1];
    if last.Subscribe? && tokenId in last.tokenIds then true
    else if last.Unsubscribe? && tokenId in last.tokenIds then false
    else IsSubscribed(init, tokenId)
  }

  /** A snapshot of the token has arrived since it was last dropped. */
  ghost predicate HasBook(trace: seq<StreamEvent>, tokenId: string)
  {
    trace != [] &&
    var init, last := trace[..|trace| - 1], trace[|trace| - 1];
    if last.Snapshot? && last.tokenId == tokenId && tokenId != "" then true
    else if last.Unsubscribe? && tokenId in last.tokenIds && IsSubscribed(init, tokenId) then false
    else HasBook(init, tokenId)
  }

  /** The last positive size a snapshot side gives a key. */
  ghost function LastPositive(entries: seq<Entry>, key: string): Option<real>
  {
    if entries == [] then None else
      var last := entries[|entries| - 1];
      if last.key == key && last.size > 0.0 then Some(last.size) else LastPositive(entries[..|entries| - 1], key)
  }

  /** The last size a delta gives a level, if it mentions it at all. */
  ghost function LastChange(changes: seq<Change>, side: BookSide, key: string): Option<real>
  {
    if changes == [] then None else
      var last := changes[|changes| - 1];
      if last.side == Some(side) && last.key == key then Some(last.size)
      else LastChange(changes[..|changes| - 1], side, key)
  }

  /** The size of a level after a trace: what the last event to mention it said. */
  ghost function LevelAt(trace: seq<StreamEvent>, tokenId: string, side: BookSide, key: string): Option<real>
  {
    if trace == [] then None else
      var init, last := trace[..|trace| - 1], trace[|trace| - 1];
      match last
      case Snapshot(t, bids, asks) =>
        if t == tokenId && t != "" then LastPositive(if side.BidSide? then bids else asks, key)
        else LevelAt(init, tokenId, side, key)
      case Delta(t, changes) =>
        if t == tokenId && t != "" && HasBook(init, tokenId) && LastChange(changes, side, key).Some? then
          var size := LastChange(changes, side, key).value;
          if size == 0.0 then None else Some(size)
        else LevelAt(init, tokenId, side, key)
      case Subscribe(_) => LevelAt(init, tokenId, side, key)
      case Unsubscribe(ts) =>
        if tokenId in ts && IsSubscribed(init, tokenId) then None else LevelAt(init, tokenId, side, key)
  }

  // ----- The dictionaries follow the history -----

  lemma {:induction false} LoadFollows(entries: seq<Entry>, key: string)
    ensures DistinctKeys(Load(entries))
    ensures Get(Load(entries), key) == LastPositive(entries, key)
    ensures forall e :: e in Load(entries) ==> e.size > 0.0 && e in entries
  {
    if entries != [] {
      var init, last := entries[..|entries| - 1], entries[|entries| - 1];
      LoadFollows(init, key);
      GetPut(Load(init), last.key, last.size, key);
      PutKeys(Load(init), last.key, last.size);
      assert Entry(last.key, last.size) == last;
    }
  }

  ghost predicate WellKeyed(book: Book)
  {
    DistinctKeys(book.bids) && DistinctKeys(book.asks)
  }

  lemma {:induction false} ChangeFollows(book: Book, c: Change, side: BookSide, key: string)
    requires WellKeyed(book)
    ensures WellKeyed(ApplyChange(book, c))
    ensures Get(SideOf(ApplyChange(book, c), side), key) ==
            if c.side == Some(side) && c.key == key then (if c.size == 0.0 then None else Some(c.size))
            else Get(SideOf(book, side), key)
  {
    if c.side.Some? {
      var d := SideOf(book, c.side.value);
      GetPut(d, c.key, c.size, key);
      GetPop(d, c.key, key);
      PutKeys(d, c.key, c.size);
      PopKeys(d, c.key);
    }
  }

  lemma {:induction false} ChangesFollow(book: Book, changes: seq<Change>, side: BookSide, key: string)
    requires WellKeyed(book)
    ensures WellKeyed(ApplyChanges(book, changes))
    ensures Get(SideOf(ApplyChanges(book, changes), side), key) ==
            match LastChange(changes, side, key)
            case Some(size) => (if size == 0.0 then None else Some(size))
            case None => Get(SideOf(book, side), key)
  {
    if changes != [] {
      var init, last := changes[..|changes| - 1], changes[|changes| - 1];
      ChangesFollow(book, init, side, key);
      ChangeFollows(ApplyChanges(book, init), last, side, key);
    }
  }

  lemma {:induction false} SubscribedFollows(trace: seq<StreamEvent>, threshold: int, toPrice: string -> real,
                                             tokenId: string)
    ensures tokenId in Run(trace, threshold, toPrice).subscribed <==> IsSubscribed(trace, tokenId)
  {
    if trace != [] {
      SubscribedFollows(trace[..|trace| - 1], threshold, toPrice, tokenId);
    }
  }

  /** Book refinement: a token has a book exactly when its history says so, and then level by level. */
  lemma {:induction false} BookFollowsHistory(trace: seq<StreamEvent>, threshold: int, toPrice: string -> real,
                                              tokenId: string)
    ensures var s := Run(trace, threshold, toPrice);
      && (tokenId in s.books <==> HasBook(trace, tokenId))
      && (tokenId in s.books ==> WellKeyed(s.books[tokenId]))
      && (tokenId in s.books ==>
            forall side, key :: Get(SideOf(s.books[tokenId], side), key) == LevelAt(trace, tokenId, side, key))
  {
    if trace != [] {
      var init, last := trace[..|trace| - 1], trace[|trace| - 1];
      var s, s' := Run(init, threshold, toPrice), Run(trace, threshold, toPrice);
      BookFollowsHistory(init, threshold, toPrice, tokenId);
      SubscribedFollows(init, threshold, toPrice, tokenId);
      if tokenId in s'.books {
        forall side: BookSide, key: string
          ensures WellKeyed(s'.books[tokenId])
          ensures Get(SideOf(s'.books[tokenId], side), key) == LevelAt(trace, tokenId, side, key)
        {
          LevelFollows(trace, threshold, toPrice, tokenId, side, key);
        }
        LevelFollows(trace, threshold, toPrice, tokenId, BidSide, "");
      }
    }
  }

  lemma {:induction false} LevelFollows(trace: seq<StreamEvent>, threshold: int, toPrice: string -> real,
                                        tokenId: string, side: BookSide, key: string)
    requires trace != []
    requires var init := trace[..|trace| - 1];
      var s := Run(init, threshold, toPrice);
      && (tokenId in s.books <==> HasBook(init, tokenId))
      && (tokenId in s.books ==> WellKeyed(s.books[tokenId]))
      && (tokenId in s.books ==> Get(SideOf(s.books[tokenId], side), key) == LevelAt(init, tokenId, side, key))
      && (tokenId in s.subscribed <==> IsSubscribed(init, tokenId))
    requires tokenId in Run(trace, threshold, toPrice).books
    ensures WellKeyed(Run(trace, threshold, toPrice).books[tokenId])
    ensures Get(SideOf(Run(trace, threshold, toPrice).books[tokenId], side), key) == LevelAt(trace, tokenId, side, key)
  {
    var init, last := trace[..|trace| - 1], trace[|trace| - 1];
    var s := Run(init, threshold, toPrice);
    assert Run(trace, threshold, toPrice) == Next(s, last, threshold, toPrice);
    NextBook(s, last, threshold, toPrice, tokenId);
    match last
    case Snapshot(t, bids, asks) =>
      LoadFollows(bids, key);
      LoadFollows(asks, key);
    case Delta(t, changes) =>
      if t == tokenId && t != "" && t in s.books {
        ChangesFollow(s.books[t], changes, side, key);
      }
    case Subscribe(_) =>
    case Unsubscribe(_) =>
  }

  /** The book of a token after an event, publishing aside. */
  lemma {:induction false} NextBook(s: State, e: StreamEvent, threshold: int, toPrice: string -> real, tokenId: string)
    ensures var s' := Next(s, e, threshold, toPrice);
      match e
      case Snapshot(t, bids, asks) =>
        if t == tokenId && t != "" then tokenId in s'.books && s'.books[tokenId] == Book(Load(bids), Load(asks))
        else
          && (tokenId in s'.books <==> tokenId in s.books)
          && (tokenId in s.books ==> s'.books[tokenId] == s.books[tokenId])
      case Delta(t, changes) =>
        && (tokenId in s'.books <==> tokenId in s.books)
        && (tokenId in s.books ==>
              s'.books[tokenId]
              == if t == tokenId && t != "" then ApplyChanges(s.books[tokenId], changes) else s.books[tokenId])
      case Subscribe(_) => s'.books == s.books
      case Unsubscribe(ts) =>
        && (tokenId in s'.books <==> tokenId in s.books && !(tokenId in ts && tokenId in s.subscribed))
        && (tokenId in s'.books ==> s'.books[tokenId] == s.books[tokenId])
  {
  }

  /** An event of one token leaves every other token's book alone. */
  lemma {:induction false} OtherBooksUntouched(s: State, e: StreamEvent, threshold: int, toPrice: string -> real,
                                               tokenId: string)
    requires (e.Snapshot? || e.Delta?) && e.tokenId != tokenId
    ensures var s' := Next(s, e, threshold, toPrice);
      && (tokenId in s'.books <==> tokenId in s.books)
      && (tokenId in s.books ==> s'.books[tokenId] == s.books[tokenId])
      && MissedCount(s', tokenId) == MissedCount(s, tokenId)
  {
  }
}
