/**
 * The database as the request handlers of auctions/views.py use it: an
 * object whose tables are updated in place by `save()`, `watchlist.add` and
 * `watchlist.remove`. Each method performs one handler's write, and its
 * effect is stated as the matching write of module Views on the snapshot
 * of the tables, so the properties proved there hold of the object.
 */
module Ledger {
  import opened Wrappers
  import opened Models
  import Views

  class Database {
    var listings: seq<Listing>
    var bids: seq<Bid>
    var comments: seq<Comment>
    var watchlists: map<UserId, set<ListingId>>

    /** The tables as a value. */
    function Snapshot(): Views.State
      reads this
    {
      Views.State(listings, bids, comments, watchlists)
    }

    predicate Valid()
      reads this
    {
      Views.Valid(Snapshot())
    }

    /** A database with empty tables. */
    constructor()
      ensures Valid()
      ensures listings == [] && bids == [] && comments == [] && watchlists == map[]
    {
      listings, bids, comments, watchlists := [], [], [], map[];
    }

    /** `new_listing`: saves the listing and returns its key. */
    method NewListing(title: string, category: CategoryId, lister: UserId, startingBid: Cents,
                      contact: string, photo: string, description: string, now: Time) returns (id: ListingId)
      requires Valid()
      modifies this
      ensures Valid()
      ensures Snapshot() == Views.NewListing(old(Snapshot()), title, category, lister, startingBid, contact, photo,
                                             description, now)
      ensures id == old(|listings|) && id < |listings|
      ensures listings[id].lister == lister && listings[id].status == Active
    {
      id := |listings|;
      var row := Listing(id, title, description, startingBid, photo, lister, Some(category), now, contact,
                         None, DefaultStatus);
      listings := listings + [row];
    }

    /** `place_bid`: saves the bid as posted. */
    method PlaceBid(bidder: UserId, l: ListingId, value: Cents, now: Time)
      requires Valid() && l < |listings|
      modifies this
      ensures Valid()
      ensures Snapshot() == Views.PlaceBid(old(Snapshot()), bidder, l, value, now)
      ensures bids == old(bids) + [Bid(old(|bids|), value, l, bidder, now)]
    {
      bids := bids + [Bid(|bids|, value, l, bidder, now)];
    }

    /** `add_comment`: saves the comment as posted. */
    method AddComment(commenter: UserId, l: ListingId, content: string, now: Time)
      requires Valid() && l < |listings|
      modifies this
      ensures Valid()
      ensures Snapshot() == Views.AddComment(old(Snapshot()), commenter, l, content, now)
      ensures comments == old(comments) + [Comment(old(|comments|), content, l, commenter, now)]
    {
      comments := comments + [Comment(|comments|, content, l, commenter, now)];
    }

    /** `add_to_watchlist`: inserts `l` into `u`'s watchlist. */
    method AddToWatchlist(u: UserId, l: ListingId)
      requires Valid() && l < |listings|
      modifies this
      ensures Valid()
      ensures Snapshot() == Views.AddToWatchlist(old(Snapshot()), u, l)
      ensures l in Views.Watchlist(Snapshot(), u)
    {
      var current := if u in watchlists then watchlists[u] else {};
      watchlists := watchlists[u := current + {l}];
    }

    /** `remove_from_watchlist`: deletes `l` from `u`'s watchlist. */
    method RemoveFromWatchlist(u: UserId, l: ListingId)
      requires Valid() && l < |listings|
      modifies this
      ensures Valid()
      ensures Snapshot() == Views.RemoveFromWatchlist(old(Snapshot()), u, l)
      ensures l !in Views.Watchlist(Snapshot(), u)
    {
      var current := if u in watchlists then watchlists[u] else {};
      watchlists := watchlists[u := current - {l}];
    }

    /**
     * `close_auction`: when the request is a POST by the lister, sets the
     * status to closed and the close time to `now`, then saves.
     */
    method CloseAuction(actor: UserId, l: ListingId, post: bool, now: Time)
      requires Valid() && l < |listings|
      modifies this
      ensures Valid()
      ensures Snapshot() == Views.CloseAuction(old(Snapshot()), actor, l, post, now)
      ensures listings[l].status == if post && actor == old(listings[l].lister) then Closed else old(listings[l].status)
    {
      if post && actor == listings[l].lister {
        var row := listings[l];
        row := row.(status := Closed);
        row := row.(closedAt := Some(now));
        listings := listings[l := row];
      }
    }

    /**
     * One write request: a request naming a listing that does not exist
     * fails in `Listing.objects.get` and writes nothing.
     */
    method Handle(r: Views.Request)
      requires Valid()
      modifies this
      ensures Valid()
      ensures Snapshot() == Views.Step(old(Snapshot()), r)
    {
      match r {
        case NewListingRequest(lister, title, category, startingBid, contact, photo, description, now) =>
          var _ := NewListing(title, category, lister, startingBid, contact, photo, description, now);
        case PlaceBidRequest(bidder, l, value, now) =>
          if l < |listings| {
            PlaceBid(bidder, l, value, now);
          }
        case AddCommentRequest(commenter, l, content, now) =>
          if l < |listings| {
            AddComment(commenter, l, content, now);
          }
        case AddToWatchlistRequest(u, l) =>
          if l < |listings| {
            AddToWatchlist(u, l);
          }
        case RemoveFromWatchlistRequest(u, l) =>
          if l < |listings| {
            RemoveFromWatchlist(u, l);
          }
        case CloseAuctionRequest(u, l, post, now) =>
          if l < |listings| {
            CloseAuction(u, l, post, now);
          }
      }
    }

    /** The requests in order; a listing closed before stays closed. */
    method HandleAll(rs: seq<Views.Request>)
      requires Valid()
      modifies this
      ensures Valid()
      ensures Snapshot() == Views.Run(old(Snapshot()), rs)
      ensures forall i :: 0 <= i < old(|listings|) && old(listings[i].status) == Closed ==>
        i < |listings| && listings[i].status == Closed
    {
      var k := 0;
      while k < |rs|
        invariant 0 <= k <= |rs|
        invariant Valid()
        invariant Views.Run(Snapshot(), rs[k..]) == Views.Run(old(Snapshot()), rs)
      {
        assert rs[k..][1..] == rs[k + 1..];
        Handle(rs[k]);
        k := k + 1;
      }
      forall i | 0 <= i < old(|listings|) && old(listings[i].status) == Closed
        ensures i < |listings| && listings[i].status == Closed
      {
        Views.ClosedStaysClosed(old(Snapshot()), rs, i);
      }
    }
  }
}
