# Auction ledger of the commerce site, in Dafny

This project models the bookkeeping core of a small Django auction site. It
covers:

- listings, bids, comments and watchlists;
- the values derived from bids: the highest bid on a listing, the minimum
  next bid, a user's highest bid, the status of a bid, and a user's highest
  bids split into open and closed auctions;
- the count labels shown on a listing;
- the request handlers that write to the database: new listing, place bid,
  add comment, add to or remove from a watchlist, and close an auction;
- the read-only handlers: `index`, `category`, `my_account` and `my_bids`,
  and the message decision on the listing page.

Files:

- `wrappers.dfy`: `Option`, for the places where the source returns `False`
  instead of a row.
- `query.dfy`: the ORM's `.filter(...)`, modelled as an order-preserving
  filter over a table held as a sequence, with lemmas about concatenation
  and partition.
- `models.dfy`: module `Models`, for `auctions/models.py`. The derived values
  over bids are functions. `User.highest_bids` and its open and closed
  variants loop and gather into a set or list, so they are methods with
  loops.
- `views.dfy`: module `Views`, for `auctions/views.py`. The database is a
  value `State`, and each write of a handler is a function from the old
  state to the new one. A request dispatcher and `Run` give a sequence of
  requests. `my_account` is a loop method. The listing page is a function
  that returns the messages it queues and the `lost` flag.
- `ledger.dfy`: module `Ledger`, class `Database`. Its fields are the four
  tables, and its methods perform the same writes in place. Each method's
  effect is stated as the matching `Views` function on `Snapshot()`, so
  the lemmas proved in `Views` hold of the object.

Representation:

- A row's primary key is its position in its table, and rows are compared
  by key, as Django compares model instances.
- Decimal amounts (`max_digits=8, decimal_places=2`) are whole cents.
- The clock (`timezone.now()`) is a parameter of every write.
- Lookups that raise in the ORM (`.get` with no match or several matches)
  are preconditions of the queries. A write request that names a missing
  listing fails before it writes, so `Views.Step` leaves the state as it
  was.

Behaviour of the code that the model keeps as written, where a stricter
auction would check more:

- `place_bid` does not check the bid against the highest bid, the starting
  bid or the listing's status. Any bid is stored. `Views.BidAtHighestBreaksLookup`
  shows that a bid equal to the current highest value makes
  `highest_bid` fail on that listing until a higher bid is placed
  (`Views.BidAboveHighestLeads`).
- `add_comment` does not check the comment's length or emptiness.
- `close_auction` does not refuse an already closed listing. It closes it
  again and only the close time moves (`Views.CloseAgainMovesOnlyCloseTime`).
- `new_bid_min_value` has no starting-bid fallback. It reads the highest
  bid, so the listing must have one.
- `highest_bid_by_user` looks up the user's top value among all bids on
  the listing, not only the user's. Another bidder's bid of the same value
  makes it fail (`Models.SharedValueBreaksUserLookup`).

## Model

| member | source | states |
|---|---|---|
| Models.StatusFromCode | auctions/models.py:64-68 | a stored status code names a status exactly when it is "1" or "2", and "1" is Active |
| Models.StatusCode | auctions/models.py:64-67 | each of the two statuses has a code that reads back as that status |
| Models.MaxBidValue | auctions/models.py:92 | `max(bid.value ...)` over a non-empty set of bids is a value some bid has and no bid exceeds |
| Models.GetByValue | auctions/models.py:93 | `.get(value=v)` on a queryset where exactly one row has value `v` returns that row |
| Models.OnlyOneWithValue | auctions/models.py:93 | when exactly one row has value `v`, any two rows with value `v` are the same row |
| Models.HighestBid | auctions/models.py:89-95 | None (the source's `False`) exactly when the listing has no bids; otherwise a stored bid on the listing that every other bid on it is strictly below; needs the maximum to be unique |
| Models.NewBidMinValue | auctions/models.py:97-99 | the result is a whole currency amount, above every bid on the listing and at most one unit above the highest, so it is the smallest whole amount strictly above the highest bid; needs at least one bid |
| Models.HighestBidByUser | auctions/models.py:101-107 | None exactly when the user has no bid on the listing; otherwise a stored bid of that user on the listing whose value is at least each of the user's bids there |
| Models.SharedValueBreaksUserLookup | auctions/models.py:104-105 | another bidder's bid on the listing with the same value as the user's maximum makes the value lookup match two rows |
| Models.SameRowIffLeads | auctions/views.py:174-180 | the user's highest bid and the listing's highest bid are the same row exactly when the user's maximum is the listing's maximum |
| Models.StatusOfBid | auctions/models.py:128-139 | Highest or Out-bidded exactly when the listing is active; Highest or Won exactly when no bid on the listing is above this bid |
| Models.UserTopIsUnique | auctions/models.py:24 | two top bids of one user on one listing are the same bid when the lookup succeeds |
| Models.UserTopBidOn | auctions/models.py:22-24 | one pass of the loop body: a bid of the user on the listing that none of the user's bids there exceeds |
| Models.ListingsOf | auctions/models.py:16-19 | the listing of each of the user's bids, in order, duplicates kept |
| Models.TopBidsOf | auctions/models.py:20-25 | the set gathered holds, for each listing visited, the user's top bid there and nothing else |
| Models.HighestBids | auctions/models.py:14-26 | a bid is in `highest_bids` exactly when it is the user's and no bid of the user on the same listing is higher; one bid per listing |
| Models.HighestBidsWithStatus | auctions/models.py:30-33 | the bids of the set whose listing has the given status, each once |
| Models.OpenHighestBids | auctions/models.py:28-34 | exactly the user's highest bids whose listing is active, each once |
| Models.ClosedHighestBids | auctions/models.py:36-42 | exactly the user's highest bids whose listing is closed, each once |
| Models.BidsLabelDecodes | auctions/models.py:70-79 | the bids label starts with the count it was made from, is "No Bids" only for zero, and is singular only for one bid |
| Models.CommentsLabelDecodes | auctions/models.py:81-87 | the comments label starts with a numeral and reads back as its count, zero included ("0 Comments"), and is singular only for one comment |
| Models.NumberOfBids | auctions/models.py:70-79 | the label's leading count is the number of bids on the listing, it is "No Bids" exactly when there are none, and it ends in the plural "s" exactly when the count is not one |
| Models.NumberOfComments | auctions/models.py:81-87 | the label starts with a numeral, its leading count is the number of comments on the listing (so "0 Comments" when there are none), and it ends in the plural "s" exactly when the count is not one, zero included |
| Views.NewListing | auctions/views.py:225-241 | one listing is added after the existing ones, with the posted fields, the default status Active and no close time; nothing else changes; validity is kept |
| Views.PlaceBid | auctions/views.py:260-269 | exactly one bid (value, listing, bidder, time) is appended, with no check; listings, comments and watchlists are unchanged; validity is kept |
| Views.AddComment | auctions/views.py:249-258 | exactly one comment is appended, with no check; nothing else changes; validity is kept |
| Views.AddToWatchlist | auctions/views.py:271-277 | the user's watchlist gains the listing; other users' watchlists and the tables are unchanged |
| Views.RemoveFromWatchlist | auctions/views.py:279-285 | the user's watchlist loses the listing; other users' watchlists and the tables are unchanged |
| Views.CloseAuction | auctions/views.py:287-296 | on a POST by the lister the listing becomes Closed with close time `now`; any other request changes nothing; other listings never change; validity is kept |
| Views.CloseAgainMovesOnlyCloseTime | auctions/views.py:292-295 | closing a closed listing again is accepted and changes only its close time |
| Views.OnlyListerCloses | auctions/views.py:292-294 | a listing that goes from Active to Closed was closed on a POST by its lister |
| Views.AddToWatchlistIdempotent | auctions/views.py:271-277 | adding a listing to a watchlist twice gives the same state as adding it once |
| Views.AddThenRemove | auctions/views.py:271-285 | add followed by remove leaves the listing off the user's watchlist, the rest of that list as before, and other users' lists untouched |
| Views.BidsOnAfterBid | auctions/views.py:267-268 | the new bid becomes the last bid on its listing; bids on other listings are unchanged |
| Views.BidCountAfterBid | auctions/views.py:260-269 | a bid raises the count in its listing's bid label by one and leaves other listings' counts as they were |
| Views.CommentCountAfterComment | auctions/views.py:249-258 | a comment raises the count in its listing's comment label by one and leaves other listings' counts as they were |
| Views.BidAboveHighestLeads | auctions/views.py:260-269 | a bid above every bid on the listing becomes its highest bid, and the maximum stays unique |
| Views.BidAtHighestBreaksLookup | auctions/views.py:260-269 | a bid equal to the current highest value leaves the maximum held by two bids, so `highest_bid` fails until a higher bid is placed |
| Views.BidBelowHighestKeepsHighest | auctions/views.py:260-269 | a bid below the current highest leaves the highest bid unchanged and unique |
| Views.CountValueAppend | auctions/views.py:267-268 | appending a bid adds one to the count of its value and nothing to other values |
| Views.Step | auctions/views.py:249-296 | one write request keeps the state valid, never drops a listing and never reopens a closed one |
| Views.Run | auctions/views.py:225-296 | any sequence of write requests keeps the state valid |
| Views.ClosedStaysClosed | auctions/views.py:293 | Closed is absorbing: after any sequence of requests a closed listing is still closed |
| Views.RunOnlyAppends | auctions/views.py:225-296 | requests never remove a listing, bid or comment: old bids and comments are a prefix of the new tables |
| Views.Index | auctions/views.py:66-71 | exactly the listings with status Active |
| Views.CategoryListings | auctions/views.py:148-154 | exactly the listings filed under the category |
| Views.MyAccount | auctions/views.py:192-208 | the user's listings split in order into active and closed lists; no listing is in both, and together they are all the user's listings |
| Views.SplitByStatus | auctions/views.py:199-203 | the loop appends each listing to the list for its status, keeping order |
| Views.Route | auctions/views.py:200-203 | one iteration: the next listing goes to the end of the list for its status |
| Views.AccountSplit | auctions/views.py:196-203 | the active list holds the user's listings shown on the index, the closed list the user's closed ones, and the two together hold each of the user's listings once |
| Views.MyBids | auctions/views.py:78-84 | `open_bids` holds exactly the user's highest bids on active listings and `closed_bids` exactly those on closed listings, each once; the two share no bid |
| Views.ListingPage | auctions/views.py:156-189 | anonymous viewers get nothing; each message appears exactly when its condition holds: leading, outbid, won and lost for a viewer with a bid, the highest bidder's name or "no bids" for the lister of a closed listing; `lost` is set exactly with the lost message; the lister's message and the bidder's message each appear once, the lister's first |
| Views.BidderNotice | auctions/views.py:172-184 | a viewer with a bid gets exactly one message and a viewer without one none: leading or outbid on an active listing, won or lost on a closed one, by whether their top bid is the listing's highest |
| Views.ListerNotice | auctions/views.py:164-170 | one message: contact the highest bidder when there is a bid, otherwise "no bids were placed" |
| Ledger.Database.NewListing | auctions/views.py:237-238 | the listing is saved in place, as `Views.NewListing` describes; its key is returned |
| Ledger.Database.PlaceBid | auctions/views.py:267-268 | the bid is saved in place, as `Views.PlaceBid` describes |
| Ledger.Database.AddComment | auctions/views.py:256-257 | the comment is saved in place, as `Views.AddComment` describes |
| Ledger.Database.AddToWatchlist | auctions/views.py:276 | the listing joins the user's watchlist in place, as `Views.AddToWatchlist` describes |
| Ledger.Database.RemoveFromWatchlist | auctions/views.py:284 | the listing leaves the user's watchlist in place, as `Views.RemoveFromWatchlist` describes |
| Ledger.Database.CloseAuction | auctions/views.py:292-295 | status and close time are set in place only on a POST by the lister, as `Views.CloseAuction` describes |
| Ledger.Database.Handle | auctions/views.py:249-296 | one request is applied in place, as `Views.Step` describes |
| Ledger.Database.HandleAll | auctions/views.py:293 | the requests in order are applied in place, as `Views.Run` describes; a listing closed before is still closed after |

## Left out

- Authentication, sessions and passwords (`login_view`, `logout_view`,
  `register`, `edit_account`, `edit_password`): framework behaviour with no
  ledger logic. `@login_required` is modelled by the acting user being a
  plain user id.
- Rendering, redirects, the `messages` framework as an output channel, and
  `auctions/urls.py`. The listing page is modelled as the list of messages
  it queues plus the `lost` flag. The message texts are tags, and the
  bidder named in the lister's message is a user id.
- `timeago.format` (the `created` and `date_closed` properties) and
  `timezone.now()`: a foreign library and the clock. Times are opaque
  integers passed in.
- Models.NewBidMinValue: the float arithmetic `ceil(float(v) + 0.01)` is
  replaced by exact arithmetic in cents, and the result is in cents rather
  than whole units. Float rounding near a whole amount is not modelled.
- The eight-digit bound on amounts: amounts are unbounded integers of
  cents, so an amount the database would refuse is not singled out.
- ORM exceptions (`DoesNotExist`, `MultipleObjectsReturned`) are not
  modelled as outcomes. They appear as preconditions (the listing exists,
  the maximum value is held by one row). A write request whose listing
  does not exist writes nothing.
- `Category.objects.get(name=...)` in `new_listing` and
  `Category.objects.get(pk=...)` in `category`: the categories table is
  not modelled. The handler receives the category's key.
- Field validators that are declared but never run on save: the comment's
  `max_length` and `blank=False`, and the contact's length validators.
- Requests that are not POST: `new_listing` renders its form, and
  `add_comment`, `place_bid`, `add_to_watchlist` and `remove_from_watchlist`
  have no other branch and return `None`, which Django reports as an error.
  `close_auction` also returns `None` on a request it does not act on. None
  of these writes, so the model gives the unchanged state.
- Deletion and cascades: no handler deletes rows.
- Models.HighestBidsWithStatus: Python's iteration order over a set is not
  modelled. The result holds the right bids, each once, in some order.
- The commented-out search, `account`, `categories` and `my_watchlist`:
  pure reads with no ledger logic.
