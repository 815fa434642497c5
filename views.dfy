/**
 * The request handlers of the auction site (auctions/views.py) over a
 * snapshot of the database: the writes made by new_listing, place_bid,
 * add_comment, add_to_watchlist, remove_from_watchlist and close_auction,
 * the listings shown by index, category and my_account, the two lists of
 * my_bids, and the messages the listing page shows.
 *
 * Each write is a function from the old snapshot to the new one; the class
 * in module Ledger performs the same writes in place.
 */
module Views {
  import opened Wrappers
  import opened Query
  import opened Models

  /** The rows the handlers read and write; a user's watchlist is a set of listing keys. */
  datatype State = State(
    listings: seq<Listing>,
    bids: seq<Bid>,
    comments: seq<Comment>,
    watchlists: map<UserId, set<ListingId>>)

  /**
   * Keys are positions, every foreign key names an existing listing, and a
   * listing has a close time exactly when it is closed.
   */
  predicate Valid(s: State)
  {
    (forall i :: 0 <= i < |s.listings| ==>
      s.listings[i].id == i && (s.listings[i].status == Closed <==> s.listings[i].closedAt.Some?))
    && WellFormedBids(s.listings, s.bids)
    && (forall i :: 0 <= i < |s.comments| ==> s.comments[i].id == i && s.comments[i].listing < |s.listings|)
    && (forall u, l :: u in s.watchlists && l in s.watchlists[u] ==> l < |s.listings|)
  }

  /** `user.watchlist.all()`: a user with no entry watches nothing. */
  function Watchlist(s: State, u: UserId): set<ListingId>
  {
    if u in s.watchlists then s.watchlists[u] else {}
  }

  // ---------------------------------------------------------------------
  // Writes
  // ---------------------------------------------------------------------

  /**
   * `new_listing` on POST: saves one listing by `lister` with the posted
   * fields and the default status, so it starts active with no close time.
   * The category arrives already looked up by name.
   */
  function NewListing(s: State, title: string, category: CategoryId, lister: UserId, startingBid: Cents,
                      contact: string, photo: string, description: string, now: Time): (t: State)
    ensures |t.listings| == |s.listings| + 1 && t.listings[..|s.listings|] == s.listings
    ensures t.listings[|s.listings|] ==
      Listing(|s.listings|, title, description, startingBid, photo, lister, Some(category), now, contact, None, Active)
    ensures t.listings[|s.listings|].status == DefaultStatus
    ensures t.bids == s.bids && t.comments == s.comments && t.watchlists == s.watchlists
    ensures Valid(s) ==> Valid(t)
  {
    var row := Listing(|s.listings|, title, description, startingBid, photo, lister, Some(category), now, contact,
                       None, DefaultStatus);
    s.(listings := s.listings + [row])
  }

  /**
   * `place_bid` on POST: saves one bid with the posted value. Neither the
   * value nor the listing's status is checked.
   */
  function PlaceBid(s: State, bidder: UserId, l: ListingId, value: Cents, now: Time): (t: State)
    requires l < |s.listings|
    ensures t.bids == s.bids + [Bid(|s.bids|, value, l, bidder, now)]
    ensures t.listings == s.listings && t.comments == s.comments && t.watchlists == s.watchlists
    ensures Valid(s) ==> Valid(t)
  {
    s.(bids := s.bids + [Bid(|s.bids|, value, l, bidder, now)])
  }

  /** `add_comment` on POST: saves one comment; its content is not checked. */
  function AddComment(s: State, commenter: UserId, l: ListingId, content: string, now: Time): (t: State)
    requires l < |s.listings|
    ensures t.comments == s.comments + [Comment(|s.comments|, content, l, commenter, now)]
    ensures t.listings == s.listings && t.bids == s.bids && t.watchlists == s.watchlists
    ensures Valid(s) ==> Valid(t)
  {
    s.(comments := s.comments + [Comment(|s.comments|, content, l, commenter, now)])
  }

  /** `add_to_watchlist` on POST: `l` joins `u`'s watchlist; other users' lists stay as they were. */
  function AddToWatchlist(s: State, u: UserId, l: ListingId): (t: State)
    requires l < |s.listings|
    ensures Watchlist(t, u) == Watchlist(s, u) + {l}
    ensures forall v :: v != u ==> Watchlist(t, v) == Watchlist(s, v)
    ensures t.listings == s.listings && t.bids == s.bids && t.comments == s.comments
    ensures Valid(s) ==> Valid(t)
  {
    s.(watchlists := s.watchlists[u := Watchlist(s, u) + {l}])
  }

  /** `remove_from_watchlist` on POST: `l` leaves `u`'s watchlist; other users' lists stay as they were. */
  function RemoveFromWatchlist(s: State, u: UserId, l: ListingId): (t: State)
    requires l < |s.listings|
    ensures Watchlist(t, u) == Watchlist(s, u) - {l}
    ensures forall v :: v != u ==> Watchlist(t, v) == Watchlist(s, v)
    ensures t.listings == s.listings && t.bids == s.bids && t.comments == s.comments
    ensures Valid(s) ==> Valid(t)
  {
    s.(watchlists := s.watchlists[u := Watchlist(s, u) - {l}])
  }

  /**
   * `close_auction`: on a POST by the listing's lister, marks the listing
   * closed and records `now` as its close time, whatever its status was.
   * Any other request writes nothing.
   */
  function CloseAuction(s: State, actor: UserId, l: ListingId, post: bool, now: Time): (t: State)
    requires l < |s.listings|
    ensures |t.listings| == |s.listings|
    ensures post && actor == s.listings[l].lister ==>
      t.listings[l] == s.listings[l].(status := Closed, closedAt := Some(now))
    ensures !(post && actor == s.listings[l].lister) ==> t == s
    ensures forall i :: 0 <= i < |s.listings| && i != l ==> t.listings[i] == s.listings[i]
    ensures t.bids == s.bids && t.comments == s.comments && t.watchlists == s.watchlists
    ensures Valid(s) ==> Valid(t)
  {
    if post && actor == s.listings[l].lister then
      s.(listings := s.listings[l := s.listings[l].(status := Closed, closedAt := Some(now))])
    else
      s
  }

  // ---------------------------------------------------------------------
  // Properties of single writes
  // ---------------------------------------------------------------------

  /**
   * Closing an already closed listing is accepted: the listing stays closed
   * and only its close time moves to `now`.
   */
  lemma CloseAgainMovesOnlyCloseTime(s: State, l: ListingId, now: Time)
    requires Valid(s) && l < |s.listings| && s.listings[l].status == Closed
    ensures var t := CloseAuction(s, s.listings[l].lister, l, true, now);
      t.listings[l].status == Closed && t.listings[l].closedAt == Some(now)
      && t.listings[l].(closedAt := s.listings[l].closedAt) == s.listings[l]
      && t.bids == s.bids && t.comments == s.comments && t.watchlists == s.watchlists
  {
  }

  /** A listing that a write leaves closed but that was active was closed by its lister on a POST. */
  lemma OnlyListerCloses(s: State, actor: UserId, l: ListingId, post: bool, now: Time, i: ListingId)
    requires l < |s.listings| && i < |s.listings| && s.listings[i].status == Active
    requires CloseAuction(s, actor, l, post, now).listings[i].status == Closed
    ensures i == l && post && actor == s.listings[l].lister
  {
  }

  /** Adding a listing to a watchlist twice is the same as adding it once. */
  lemma AddToWatchlistIdempotent(s: State, u: UserId, l: ListingId)
    requires l < |s.listings|
    ensures AddToWatchlist(AddToWatchlist(s, u, l), u, l) == AddToWatchlist(s, u, l)
  {
    var once := AddToWatchlist(s, u, l);
    assert once.watchlists[u := Watchlist(once, u) + {l}] == once.watchlists;
  }

  /** Adding then removing a listing leaves it off the user's watchlist and other watchlists as they were. */
  lemma AddThenRemove(s: State, u: UserId, l: ListingId)
    requires l < |s.listings|
    ensures var t := RemoveFromWatchlist(AddToWatchlist(s, u, l), u, l);
      l !in Watchlist(t, u) && Watchlist(t, u) == Watchlist(s, u) - {l}
      && forall v :: v != u ==> Watchlist(t, v) == Watchlist(s, v)
  {
  }

  /** A new bid is the last of the listing's bids; the bids on other listings do not change. */
  lemma BidsOnAfterBid(s: State, bidder: UserId, l: ListingId, value: Cents, now: Time)
    requires l < |s.listings|
    ensures var t := PlaceBid(s, bidder, l, value, now);
      BidsOn(t.bids, l) == BidsOn(s.bids, l) + [Bid(|s.bids|, value, l, bidder, now)]
      && forall m :: m != l ==> BidsOn(t.bids, m) == BidsOn(s.bids, m)
  {
    var b := Bid(|s.bids|, value, l, bidder, now);
    FilterAppend(s.bids, [b], OnListing(l));
    forall m | m != l
      ensures BidsOn(s.bids + [b], m) == BidsOn(s.bids, m)
    {
      FilterAppend(s.bids, [b], OnListing(m));
    }
  }

  /** The count in a listing's bid label goes up by one with a bid on it and stays put with a bid elsewhere. */
  lemma BidCountAfterBid(s: State, bidder: UserId, l: ListingId, value: Cents, now: Time, m: ListingId)
    requires l < |s.listings|
    ensures var t := PlaceBid(s, bidder, l, value, now);
      CountInLabel(NumberOfBids(t.bids, m)) == CountInLabel(NumberOfBids(s.bids, m)) + (if m == l then 1 else 0)
  {
    BidsOnAfterBid(s, bidder, l, value, now);
  }

  /** The count in a listing's comment label goes up by one with a comment on it and stays put otherwise. */
  lemma CommentCountAfterComment(s: State, commenter: UserId, l: ListingId, content: string, now: Time, m: ListingId)
    requires l < |s.listings|
    ensures var t := AddComment(s, commenter, l, content, now);
      CountInLabel(NumberOfComments(t.comments, m)) == CountInLabel(NumberOfComments(s.comments, m)) + (if m == l then 1 else 0)
  {
    var c := Comment(|s.comments|, content, l, commenter, now);
    FilterAppend(s.comments, [c], OnListingComment(m));
  }

  /**
   * A bid above every bid on the listing becomes its highest bid, so the
   * maximum stays unique and the lookups that need it still succeed.
   */
  lemma BidAboveHighestLeads(s: State, bidder: UserId, l: ListingId, value: Cents, now: Time)
    requires l < |s.listings|
    requires forall b :: b in s.bids && b.listing == l ==> b.value < value
    ensures var t := PlaceBid(s, bidder, l, value, now);
      MaxIsUnique(BidsOn(t.bids, l)) && HighestBid(t.bids, l) == Some(Bid(|s.bids|, value, l, bidder, now))
  {
    var b := Bid(|s.bids|, value, l, bidder, now);
    var t := PlaceBid(s, bidder, l, value, now);
    BidsOnAfterBid(s, bidder, l, value, now);
    var old_ := BidsOn(s.bids, l);
    var on := BidsOn(t.bids, l);
    assert on == old_ + [b];
    NoBidReaches(old_, value);
    CountValueAppend(old_, b, value);
    if |old_| > 0 {
      MaxBidValueAppend(old_, b);
    } else {
      assert on == [b];
    }
    assert forall x :: x in t.bids && x.listing == l && x != b ==> x.value < b.value;
  }

  /**
   * A bid equal to the listing's highest value makes that value appear
   * twice: afterwards `highest_bid` and `Bid.status` on the listing raise
   * instead of answering, until a higher bid is placed.
   */
  lemma BidAtHighestBreaksLookup(s: State, bidder: UserId, l: ListingId, now: Time)
    requires l < |s.listings| && BidsOn(s.bids, l) != [] && MaxIsUnique(BidsOn(s.bids, l))
    ensures var t := PlaceBid(s, bidder, l, MaxBidValue(BidsOn(s.bids, l)), now);
      !MaxIsUnique(BidsOn(t.bids, l))
  {
    var old_ := BidsOn(s.bids, l);
    var v := MaxBidValue(old_);
    var b := Bid(|s.bids|, v, l, bidder, now);
    BidsOnAfterBid(s, bidder, l, v, now);
    MaxBidValueAppend(old_, b);
    CountValueAppend(old_, b, v);
  }

  /** A bid below the listing's highest value leaves the highest bid where it was. */
  lemma BidBelowHighestKeepsHighest(s: State, bidder: UserId, l: ListingId, value: Cents, now: Time)
    requires l < |s.listings| && BidsOn(s.bids, l) != [] && MaxIsUnique(BidsOn(s.bids, l))
    requires value < MaxBidValue(BidsOn(s.bids, l))
    ensures var t := PlaceBid(s, bidder, l, value, now);
      MaxIsUnique(BidsOn(t.bids, l)) && HighestBid(t.bids, l) == HighestBid(s.bids, l)
  {
    var old_ := BidsOn(s.bids, l);
    var v := MaxBidValue(old_);
    var b := Bid(|s.bids|, value, l, bidder, now);
    var t := PlaceBid(s, bidder, l, value, now);
    BidsOnAfterBid(s, bidder, l, value, now);
    MaxBidValueAppend(old_, b);
    CountValueAppend(old_, b, v);
    var top := HighestBid(s.bids, l).value;
    var top' := HighestBid(t.bids, l).value;
    assert top in BidsOn(t.bids, l);
  }

  /** Appending a row adds one to the count of its value and nothing to others. */
  lemma {:induction false} CountValueAppend(s: seq<Bid>, b: Bid, v: Cents)
    ensures CountValue(s + [b], v) == CountValue(s, v) + (if b.value == v then 1 else 0)
  {
    if s != [] {
      assert (s + [b])[1..] == s[1..] + [b];
      CountValueAppend(s[1..], b, v);
    }
  }

  /** No row of `s` reaches `v` when all are below it. */
  lemma {:induction false} NoBidReaches(s: seq<Bid>, v: Cents)
    requires forall b :: b in s ==> b.value < v
    ensures CountValue(s, v) == 0
  {
    if s != [] {
      NoBidReaches(s[1..], v);
    }
  }

  // ---------------------------------------------------------------------
  // Requests in sequence
  // ---------------------------------------------------------------------

  /** The POST requests that write, with the user making them and the time they arrive. */
  datatype Request =
    | NewListingRequest(lister: UserId, title: string, category: CategoryId, startingBid: Cents,
                        contact: string, photo: string, description: string, now: Time)
    | PlaceBidRequest(bidder: UserId, listing: ListingId, value: Cents, now: Time)
    | AddCommentRequest(commenter: UserId, listing: ListingId, content: string, now: Time)
    | AddToWatchlistRequest(user: UserId, listing: ListingId)
    | RemoveFromWatchlistRequest(user: UserId, listing: ListingId)
    | CloseAuctionRequest(user: UserId, listing: ListingId, post: bool, now: Time)

  /**
   * One request. A request naming a listing that does not exist fails in
   * `Listing.objects.get` before writing anything.
   */
  function Step(s: State, r: Request): (t: State)
    ensures Valid(s) ==> Valid(t)
    ensures |s.listings| <= |t.listings|
    ensures forall i :: 0 <= i < |s.listings| && s.listings[i].status == Closed ==> t.listings[i].status == Closed
  {
    match r
    case NewListingRequest(lister, title, category, startingBid, contact, photo, description, now) =>
      NewListing(s, title, category, lister, startingBid, contact, photo, description, now)
    case PlaceBidRequest(bidder, l, value, now) =>
      if l < |s.listings| then PlaceBid(s, bidder, l, value, now) else s
    case AddCommentRequest(commenter, l, content, now) =>
      if l < |s.listings| then AddComment(s, commenter, l, content, now) else s
    case AddToWatchlistRequest(u, l) =>
      if l < |s.listings| then AddToWatchlist(s, u, l) else s
    case RemoveFromWatchlistRequest(u, l) =>
      if l < |s.listings| then RemoveFromWatchlist(s, u, l) else s
    case CloseAuctionRequest(u, l, post, now) =>
      if l < |s.listings| then CloseAuction(s, u, l, post, now) else s
  }

  /** The requests in order. */
  function Run(s: State, rs: seq<Request>): (t: State)
    ensures Valid(s) ==> Valid(t)
    decreases |rs|
  {
    if rs == [] then s else Run(Step(s, rs[0]), rs[1..])
  }

  /**
   * Closed is absorbing: `close_auction` is the only write to a status and
   * it writes Closed, so no sequence of requests reopens a listing.
   */
  lemma {:induction false} ClosedStaysClosed(s: State, rs: seq<Request>, i: ListingId)
    requires i < |s.listings| && s.listings[i].status == Closed
    ensures i < |Run(s, rs).listings| && Run(s, rs).listings[i].status == Closed
    decreases |rs|
  {
    if rs != [] {
      ClosedStaysClosed(Step(s, rs[0]), rs[1..], i);
    }
  }

  /** Requests only add rows: listings, bids and comments present before are all still present. */
  lemma {:induction false} RunOnlyAppends(s: State, rs: seq<Request>)
    ensures var t := Run(s, rs);
      |s.listings| <= |t.listings| && s.bids <= t.bids && s.comments <= t.comments
    decreases |rs|
  {
    if rs != [] {
      var s' := Step(s, rs[0]);
      assert s.bids <= s'.bids && s.comments <= s'.comments;
      RunOnlyAppends(s', rs[1..]);
    }
  }

  // ---------------------------------------------------------------------
  // Listings shown
  // ---------------------------------------------------------------------

  function HasStatus(st: Status): Listing -> bool { (x: Listing) => x.status == st }

  function InCategory(c: CategoryId): Listing -> bool { (x: Listing) => x.category == Some(c) }

  function ListedBy(u: UserId): Listing -> bool { (x: Listing) => x.lister == u }

  /** `index`: the active listings, in table order. */
  function Index(listings: seq<Listing>): (r: seq<Listing>)
    ensures forall x :: x in r <==> x in listings && x.status == Active
  {
    Filter(listings, HasStatus(Active))
  }

  /** `category`: the listings filed under category `c`, in table order. */
  function CategoryListings(listings: seq<Listing>, c: CategoryId): (r: seq<Listing>)
    ensures forall x :: x in r <==> x in listings && x.category == Some(c)
  {
    Filter(listings, InCategory(c))
  }

  /**
   * `my_account`: walks `u`'s listings in order and appends each to the
   * active or the closed list by its status. Each list keeps the order of
   * the listings, no listing is in both, and together they are all of
   * `u`'s listings.
   */
  method MyAccount(listings: seq<Listing>, u: UserId) returns (active: seq<Listing>, closed: seq<Listing>)
    ensures active == Filter(Filter(listings, ListedBy(u)), HasStatus(Active))
    ensures closed == Filter(Filter(listings, ListedBy(u)), HasStatus(Closed))
    ensures forall x :: x in active <==> x in Index(listings) && x.lister == u
    ensures forall x :: x in closed <==> x in listings && x.lister == u && x.status == Closed
    ensures multiset(active) + multiset(closed) == multiset(Filter(listings, ListedBy(u)))
  {
    var mine := Filter(listings, ListedBy(u));
    active, closed := SplitByStatus(mine);
    AccountSplit(listings, u);
  }

  /** The loop of `my_account`: each listing goes to the end of the list for its status. */
  method SplitByStatus(mine: seq<Listing>) returns (active: seq<Listing>, closed: seq<Listing>)
    ensures active == Filter(mine, HasStatus(Active))
    ensures closed == Filter(mine, HasStatus(Closed))
  {
    active, closed := [], [];
    var i := 0;
    while i < |mine|
      invariant 0 <= i <= |mine|
      invariant active == Filter(mine[..i], HasStatus(Active))
      invariant closed == Filter(mine[..i], HasStatus(Closed))
    {
      active, closed := Route(mine, i, active, closed);
      i := i + 1;
    }
    assert mine[..i] == mine;
  }

  /** One step of the loop of `my_account`: listing `mine[i]` goes to the end of the list for its status. */
  method Route(mine: seq<Listing>, i: nat, active: seq<Listing>, closed: seq<Listing>)
    returns (active': seq<Listing>, closed': seq<Listing>)
    requires i < |mine|
    requires active == Filter(mine[..i], HasStatus(Active)) && closed == Filter(mine[..i], HasStatus(Closed))
    ensures active' == Filter(mine[..i + 1], HasStatus(Active)) && closed' == Filter(mine[..i + 1], HasStatus(Closed))
  {
    FilterPrefixStep(mine, i, HasStatus(Active));
    FilterPrefixStep(mine, i, HasStatus(Closed));
    match mine[i].status {
      case Active => active', closed' := active + [mine[i]], closed;
      case Closed => active', closed' := active, closed + [mine[i]];
    }
  }

  /** The two status filters of a user's listings split them, as `my_account` relies on. */
  lemma AccountSplit(listings: seq<Listing>, u: UserId)
    ensures var mine := Filter(listings, ListedBy(u));
      (forall x :: x in Filter(mine, HasStatus(Active)) <==> x in Index(listings) && x.lister == u)
      && (forall x :: x in Filter(mine, HasStatus(Closed)) <==> x in listings && x.lister == u && x.status == Closed)
      && multiset(Filter(mine, HasStatus(Active))) + multiset(Filter(mine, HasStatus(Closed))) == multiset(mine)
  {
    var mine := Filter(listings, ListedBy(u));
    FilterPartition(mine, HasStatus(Active), HasStatus(Closed));
  }

  /**
   * `my_bids`: the user's highest bids on open auctions and on closed ones.
   * No bid is in both lists, and together they hold exactly the user's
   * highest bid on each listing they bid on.
   */
  method MyBids(listings: seq<Listing>, bids: seq<Bid>, u: UserId) returns (open: seq<Bid>, closed: seq<Bid>)
    requires WellFormedBids(listings, bids) && HighestBidsDefined(bids, u)
    ensures forall t :: t in open <==> t.bidder == u && IsUserTop(bids, t) && listings[t.listing].status == Active
    ensures forall t :: t in closed <==> t.bidder == u && IsUserTop(bids, t) && listings[t.listing].status == Closed
    ensures forall i, j :: 0 <= i < j < |open| ==> open[i] != open[j]
    ensures forall i, j :: 0 <= i < j < |closed| ==> closed[i] != closed[j]
    ensures forall t :: t in open ==> t !in closed
    ensures forall t :: t in open || t in closed <==> t.bidder == u && IsUserTop(bids, t)
  {
    open := OpenHighestBids(listings, bids, u);
    closed := ClosedHighestBids(listings, bids, u);
    forall t: Bid | t.bidder == u && IsUserTop(bids, t)
      ensures t in open || t in closed
    {
      RowOfBid(listings, bids, t);
    }
  }

  // ---------------------------------------------------------------------
  // The listing page
  // ---------------------------------------------------------------------

  /** The messages the listing page can show. */
  datatype Message =
    | ContactHighestBidder(bidder: UserId)
    | NoBidsPlaced
    | YourBidIsHighest
    | YouWereOutBidded
    | YouWon
    | YouLost

  /** What the listing page decides: the messages in the order queued, and the `lost` flag. */
  datatype Page = Page(messages: seq<Message>, lost: bool)

  /**
   * The lookups the listing page makes succeed: the listing exists, the
   * viewer's highest bid is found, and the listing's highest bid is found
   * whenever the page asks for it.
   */
  predicate PageDefined(s: State, l: ListingId, viewer: Option<UserId>)
  {
    l < |s.listings| && WellFormedBids(s.listings, s.bids)
    && (viewer.Some? ==>
          UserMaxIsUnique(s.bids, l, viewer.value)
          && (((s.listings[l].lister == viewer.value && s.listings[l].status == Closed)
               || UserBidsOn(s.bids, l, viewer.value) != [])
              ==> MaxIsUnique(BidsOn(s.bids, l))))
  }

  /**
   * `listing`: for a signed-in viewer, the lister of a closed listing is told
   * whom to contact or that no bids were placed; a viewer who has bid is
   * told whether their highest bid is the listing's highest bid, as leading
   * or outbid while the auction is open and as won or lost once it is
   * closed, and only the loser gets `lost`. Anonymous viewers get nothing.
   */
  function ListingPage(s: State, l: ListingId, viewer: Option<UserId>): (p: Page)
    requires PageDefined(s, l, viewer)
    ensures viewer.None? ==> p == Page([], false)
    ensures p.lost <==> YouLost in p.messages
    ensures YourBidIsHighest in p.messages <==>
      viewer.Some? && s.listings[l].status == Active && UserLeads(s.bids, l, viewer.value)
    ensures YouWereOutBidded in p.messages <==>
      viewer.Some? && s.listings[l].status == Active && UserTrails(s.bids, l, viewer.value)
    ensures YouWon in p.messages <==>
      viewer.Some? && s.listings[l].status == Closed && UserLeads(s.bids, l, viewer.value)
    ensures YouLost in p.messages <==>
      viewer.Some? && s.listings[l].status == Closed && UserTrails(s.bids, l, viewer.value)
    ensures NoBidsPlaced in p.messages <==>
      viewer.Some? && viewer.value == s.listings[l].lister && s.listings[l].status == Closed
      && forall b :: b in s.bids ==> b.listing != l
    ensures forall w :: ContactHighestBidder(w) in p.messages <==>
      viewer.Some? && viewer.value == s.listings[l].lister && s.listings[l].status == Closed
      && IsHighestBidder(s, l, w)
    ensures |p.messages| ==
      (if viewer.Some? && viewer.value == s.listings[l].lister && s.listings[l].status == Closed then 1 else 0)
      + (if viewer.Some? && UserBidsOn(s.bids, l, viewer.value) != [] then 1 else 0)
    ensures |p.messages| == 2 ==> p.messages[0].NoBidsPlaced? || p.messages[0].ContactHighestBidder?
  {
    if viewer.None? then Page([], false)
    else
      var u := viewer.value;
      var listing := s.listings[l];
      var notice := if listing.lister == u && listing.status == Closed then ListerNotice(s, l) else [];
      var outcome := BidderNotice(s, l, u);
      Page(notice + outcome, YouLost in outcome)
  }

  /**
   * The message for a viewer who has bid on `l`: whether their highest bid
   * is the listing's highest bid, in the words of an open or a closed
   * auction. A viewer who has not bid gets none.
   */
  function BidderNotice(s: State, l: ListingId, u: UserId): (notice: seq<Message>)
    requires l < |s.listings| && WellFormedBids(s.listings, s.bids)
    requires UserMaxIsUnique(s.bids, l, u)
    requires UserBidsOn(s.bids, l, u) != [] ==> MaxIsUnique(BidsOn(s.bids, l))
    ensures |notice| == if UserBidsOn(s.bids, l, u) != [] then 1 else 0
    ensures forall m :: m in notice ==> !m.NoBidsPlaced? && !m.ContactHighestBidder?
    ensures YourBidIsHighest in notice <==> s.listings[l].status == Active && UserLeads(s.bids, l, u)
    ensures YouWereOutBidded in notice <==> s.listings[l].status == Active && UserTrails(s.bids, l, u)
    ensures YouWon in notice <==> s.listings[l].status == Closed && UserLeads(s.bids, l, u)
    ensures YouLost in notice <==> s.listings[l].status == Closed && UserTrails(s.bids, l, u)
  {
    var highest := HighestBidByUser(s.bids, l, u);
    if highest.Some? then
      assert highest.value in UserBidsOn(s.bids, l, u);
      SameRowIffLeads(s.listings, s.bids, l, u);
      // rows are compared by primary key
      var same := highest.value.id == HighestBid(s.bids, l).value.id;
      match s.listings[l].status
      case Active => [if same then YourBidIsHighest else YouWereOutBidded]
      case Closed => [if same then YouWon else YouLost]
    else
      []
  }

  /** `w` placed a bid on `l` that no bid on `l` exceeds. */
  predicate IsHighestBidder(s: State, l: ListingId, w: UserId)
  {
    exists b :: b in s.bids && b.listing == l && b.bidder == w
      && forall x :: x in s.bids && x.listing == l ==> x.value <= b.value
  }

  /** The lister's message on a closed listing: whom to contact, or that no bids were placed. */
  function ListerNotice(s: State, l: ListingId): (notice: seq<Message>)
    requires MaxIsUnique(BidsOn(s.bids, l))
    ensures |notice| == 1
    ensures NoBidsPlaced in notice <==> forall b :: b in s.bids ==> b.listing != l
    ensures forall w :: ContactHighestBidder(w) in notice <==> IsHighestBidder(s, l, w)
    ensures forall m :: m in notice ==> m.NoBidsPlaced? || m.ContactHighestBidder?
  {
    match HighestBid(s.bids, l)
    case Some(top) =>
      assert forall w :: IsHighestBidder(s, l, w) ==> w == top.bidder by {
        forall b | b in s.bids && b.listing == l && forall x :: x in s.bids && x.listing == l ==> x.value <= b.value
          ensures b.bidder == top.bidder
        {
        }
      }
      [ContactHighestBidder(top.bidder)]
    case None => [NoBidsPlaced]
  }
}
