/**
 * The tables of the auction site and the values derived from them
 * (auctions/models.py): listings, bids and comments, the highest bid on a
 * listing, the minimum next bid, a user's highest bid, the status of a bid,
 * a user's highest bids split into open and closed auctions, and the count
 * labels shown on a listing.
 *
 * A table is a sequence of rows whose primary key is the row's position.
 * Amounts are decimals with two places (at most eight digits), held here as
 * whole cents.
 */
module Models {
  import opened Wrappers
  import opened Query

  type UserId = nat
  type ListingId = nat
  type CategoryId = nat

  /** An instant, opaque to the model: the clock is passed in by the caller. */
  type Time = int

  /** A currency amount in hundredths of the unit. */
  type Cents = int

  // ---------------------------------------------------------------------
  // Entities
  // ---------------------------------------------------------------------

  /** The two listing states; the database stores them as the codes "1" and "2". */
  datatype Status = Active | Closed

  function StatusCode(st: Status): (code: string)
    ensures StatusFromCode(code) == Some(st)
  {
    match st
    case Active => "1"
    case Closed => "2"
  }

  /** The status a stored code stands for; only the two declared choices have one. */
  function StatusFromCode(code: string): (r: Option<Status>)
    ensures r.Some? <==> code == "1" || code == "2"
    ensures r == Some(Active) <==> code == "1"
  {
    if code == "1" then Some(Active)
    else if code == "2" then Some(Closed)
    else None
  }

  /** A listing that is saved without a status gets this one ("1"). */
  const DefaultStatus: Status := Active

  datatype Listing = Listing(
    id: ListingId,
    title: string,
    description: string,
    startingBid: Cents,
    photo: string,
    lister: UserId,
    category: Option<CategoryId>,
    created: Time,
    contact: string,
    closedAt: Option<Time>,
    status: Status)

  datatype Bid = Bid(id: nat, value: Cents, listing: ListingId, bidder: UserId, created: Time)

  datatype Comment = Comment(id: nat, content: string, listing: ListingId, commenter: UserId, created: Time)

  /** Every bid's key is its position and every bid refers to an existing listing. */
  predicate WellFormedBids(listings: seq<Listing>, bids: seq<Bid>)
  {
    forall i :: 0 <= i < |bids| ==> bids[i].id == i && bids[i].listing < |listings|
  }

  /** A stored bid is the row at the position its key names. */
  lemma RowOfBid(listings: seq<Listing>, bids: seq<Bid>, b: Bid)
    requires WellFormedBids(listings, bids) && b in bids
    ensures b.id < |bids| && bids[b.id] == b && b.listing < |listings|
  {
    var i :| 0 <= i < |bids| && bids[i] == b;
  }

  // ---------------------------------------------------------------------
  // Querysets over the bid table
  // ---------------------------------------------------------------------

  function OnListing(l: ListingId): Bid -> bool { (b: Bid) => b.listing == l }

  function ByBidder(u: UserId): Bid -> bool { (b: Bid) => b.bidder == u }

  /** `listing.bids`: the bids on listing `l`, in table order. */
  function BidsOn(bids: seq<Bid>, l: ListingId): (r: seq<Bid>)
    ensures forall b :: b in r <==> b in bids && b.listing == l
  {
    Filter(bids, OnListing(l))
  }

  /** `listing.bids.filter(bidder=u)`. */
  function UserBidsOn(bids: seq<Bid>, l: ListingId, u: UserId): (r: seq<Bid>)
    ensures forall b :: b in r <==> b in bids && b.listing == l && b.bidder == u
  {
    Filter(BidsOn(bids, l), ByBidder(u))
  }

  /** `max(bid.value for bid in s)`: a value some bid has and none exceeds. */
  function MaxBidValue(s: seq<Bid>): (m: Cents)
    requires |s| > 0
    ensures exists b :: b in s && b.value == m
    ensures forall b :: b in s ==> b.value <= m
  {
    if |s| == 1 then s[0].value
    else
      assert s == s[..|s| - 1] + [s[|s| - 1]];
      var m := MaxBidValue(s[..|s| - 1]);
      if s[|s| - 1].value > m then s[|s| - 1].value else m
  }

  /** Adding a bid raises the maximum to that bid's value, or leaves it. */
  lemma MaxBidValueAppend(s: seq<Bid>, b: Bid)
    requires |s| > 0
    ensures MaxBidValue(s + [b]) == if b.value > MaxBidValue(s) then b.value else MaxBidValue(s)
  {
    assert (s + [b])[..|s + [b]| - 1] == s;
  }

  /** The number of rows of `s` whose value is `v`. */
  function CountValue(s: seq<Bid>, v: Cents): nat
  {
    if s == [] then 0
    else (if s[0].value == v then 1 else 0) + CountValue(s[1..], v)
  }

  /**
   * `.get(value=v)` on a queryset: the one row with value `v`. The ORM raises
   * when no row or more than one row matches, so exactly one must.
   */
  function GetByValue(s: seq<Bid>, v: Cents): (r: Bid)
    requires CountValue(s, v) == 1
    ensures r in s && r.value == v
  {
    if s[0].value == v then s[0] else GetByValue(s[1..], v)
  }

  lemma {:induction false} NoneWithValue(s: seq<Bid>, v: Cents, b: Bid)
    requires CountValue(s, v) == 0 && b in s
    ensures b.value != v
  {
    if s[0] != b {
      NoneWithValue(s[1..], v, b);
    }
  }

  /** When one row has value `v`, any two rows with value `v` are that row. */
  lemma {:induction false} OnlyOneWithValue(s: seq<Bid>, v: Cents, a: Bid, b: Bid)
    requires CountValue(s, v) == 1
    requires a in s && b in s && a.value == v && b.value == v
    ensures a == b
  {
    if s[0].value == v {
      if a != s[0] {
        NoneWithValue(s[1..], v, a);
      }
      if b != s[0] {
        NoneWithValue(s[1..], v, b);
      }
    } else {
      OnlyOneWithValue(s[1..], v, a, b);
    }
  }

  /** The `.get` on the maximum value succeeds: exactly one row holds it. */
  predicate MaxIsUnique(s: seq<Bid>)
  {
    |s| > 0 ==> CountValue(s, MaxBidValue(s)) == 1
  }

  // ---------------------------------------------------------------------
  // Listing.highest_bid, new_bid_min_value, highest_bid_by_user
  // ---------------------------------------------------------------------

  /**
   * `Listing.highest_bid`: the bid on `l` with the greatest value, or None
   * (the source's `False`) when `l` has no bids.
   */
  function HighestBid(bids: seq<Bid>, l: ListingId): (r: Option<Bid>)
    requires MaxIsUnique(BidsOn(bids, l))
    ensures r.None? <==> forall b :: b in bids ==> b.listing != l
    ensures r.Some? ==> r.value in bids && r.value.listing == l
    ensures r.Some? ==> forall b :: b in bids && b.listing == l && b != r.value ==> b.value < r.value.value
  {
    var on := BidsOn(bids, l);
    if |on| > 0 then
      var top := GetByValue(on, MaxBidValue(on));
      assert forall b :: b in on && b != top ==> b.value < top.value by {
        forall b | b in on && b != top
          ensures b.value < top.value
        {
          if b.value == top.value {
            OnlyOneWithValue(on, top.value, b, top);
          }
        }
      }
      Some(top)
    else
      None
  }

  /**
   * `Listing.new_bid_min_value`: the smallest whole currency amount strictly
   * above the highest bid. It reads the highest bid's value, so the listing
   * must have a bid.
   */
  function NewBidMinValue(bids: seq<Bid>, l: ListingId): (r: Cents)
    requires BidsOn(bids, l) != [] && MaxIsUnique(BidsOn(bids, l))
    ensures r % 100 == 0
    ensures forall b :: b in bids && b.listing == l ==> b.value < r
    ensures exists b :: b in bids && b.listing == l && r - 100 <= b.value
  {
    assert BidsOn(bids, l)[0] in BidsOn(bids, l);
    var c := HighestBid(bids, l).value.value;
    WholeUnitAbove(c);
    (c / 100 + 1) * 100
  }

  lemma WholeUnitAbove(c: int)
    ensures ((c / 100 + 1) * 100) % 100 == 0
    ensures c < (c / 100 + 1) * 100 <= c + 100
  {
    var q := c / 100;
    assert c == q * 100 + c % 100;
    assert (q + 1) * 100 == q * 100 + 100;
  }

  /** The `.get` in `highest_bid_by_user` succeeds: one bid on `l` holds the user's maximum. */
  predicate UserMaxIsUnique(bids: seq<Bid>, l: ListingId, u: UserId)
  {
    var mine := UserBidsOn(bids, l, u);
    mine != [] ==> CountValue(BidsOn(bids, l), MaxBidValue(mine)) == 1
  }

  /**
   * `Listing.highest_bid_by_user`: the bid on `l` whose value is the greatest
   * of `u`'s bids there, or None when `u` has not bid on `l`. The lookup
   * matches on the value among all bids on `l`, not only `u`'s; because it
   * must match exactly one row, the row it finds is `u`'s own.
   */
  function HighestBidByUser(bids: seq<Bid>, l: ListingId, u: UserId): (r: Option<Bid>)
    requires UserMaxIsUnique(bids, l, u)
    ensures r.None? <==> forall b :: b in bids && b.listing == l ==> b.bidder != u
    ensures r.Some? ==> r.value in bids && r.value.listing == l && r.value.bidder == u
    ensures r.Some? ==> forall b :: b in bids && b.listing == l && b.bidder == u ==> b.value <= r.value.value
  {
    var mine := UserBidsOn(bids, l, u);
    if mine != [] then
      var on := BidsOn(bids, l);
      var found := GetByValue(on, MaxBidValue(mine));
      assert found.bidder == u by {
        var own :| own in mine && own.value == MaxBidValue(mine);
        OnlyOneWithValue(on, own.value, own, found);
      }
      Some(found)
    else
      None
  }

  /**
   * The lookup in `highest_bid_by_user` matches on value among all bids on
   * the listing, so another bidder's bid of the same value as `u`'s maximum
   * makes it match two rows and fail.
   */
  lemma SharedValueBreaksUserLookup(bids: seq<Bid>, l: ListingId, u: UserId, other: Bid)
    requires UserBidsOn(bids, l, u) != []
    requires other in bids && other.listing == l && other.bidder != u
    requires other.value == MaxBidValue(UserBidsOn(bids, l, u))
    ensures !UserMaxIsUnique(bids, l, u)
  {
    var mine := UserBidsOn(bids, l, u);
    var own :| own in mine && own.value == MaxBidValue(mine);
    if CountValue(BidsOn(bids, l), other.value) == 1 {
      OnlyOneWithValue(BidsOn(bids, l), other.value, own, other);
    }
  }

  /** The value of `u`'s highest bid on `l` is the listing's maximum. */
  predicate UserLeads(bids: seq<Bid>, l: ListingId, u: UserId)
  {
    var mine := UserBidsOn(bids, l, u);
    mine != [] && (assert mine[0] in BidsOn(bids, l); MaxBidValue(mine) == MaxBidValue(BidsOn(bids, l)))
  }

  /** `u` has bid on `l` and some bid on `l` is higher than all of `u`'s. */
  predicate UserTrails(bids: seq<Bid>, l: ListingId, u: UserId)
  {
    UserBidsOn(bids, l, u) != [] && !UserLeads(bids, l, u)
  }

  /**
   * The source compares `highest_bid_by_user` with `highest_bid` as rows
   * (by key). Both lookups succeeding, they are the same row exactly when the
   * user's maximum is the listing's maximum.
   */
  lemma {:induction false} SameRowIffLeads(listings: seq<Listing>, bids: seq<Bid>, l: ListingId, u: UserId)
    requires WellFormedBids(listings, bids)
    requires MaxIsUnique(BidsOn(bids, l)) && UserMaxIsUnique(bids, l, u)
    requires HighestBidByUser(bids, l, u).Some?
    ensures HighestBid(bids, l).Some?
    ensures HighestBidByUser(bids, l, u).value.id == HighestBid(bids, l).value.id <==> UserLeads(bids, l, u)
  {
    var mine := UserBidsOn(bids, l, u);
    var on := BidsOn(bids, l);
    var mineTop := HighestBidByUser(bids, l, u).value;
    assert mineTop in on;
    var top := HighestBid(bids, l).value;
    assert mineTop in mine;
    var own :| own in mine && own.value == MaxBidValue(mine);
    assert mineTop.value == MaxBidValue(mine);
    var onTop :| onTop in on && onTop.value == MaxBidValue(on);
    assert top.value == MaxBidValue(on) by {
      if onTop != top {
        assert onTop.value < top.value;
      }
    }
    RowOfBid(listings, bids, mineTop);
    RowOfBid(listings, bids, top);
    if UserLeads(bids, l, u) {
      assert mineTop.value == top.value;
    }
  }

  // ---------------------------------------------------------------------
  // Bid.status
  // ---------------------------------------------------------------------

  datatype BidStatus = Highest | OutBidded | Won | Lost

  /**
   * `Bid.status`: on an active listing a bid is Highest or Out-bidded, on a
   * closed one Won or Lost; Highest and Won go to the bid that is the
   * listing's highest bid.
   */
  function StatusOfBid(listings: seq<Listing>, bids: seq<Bid>, b: Bid): (r: BidStatus)
    requires WellFormedBids(listings, bids) && b in bids
    requires MaxIsUnique(BidsOn(bids, b.listing))
    ensures b.listing < |listings|
    ensures r == Highest || r == OutBidded <==> listings[b.listing].status == Active
    ensures r == Highest || r == Won <==> forall x :: x in bids && x.listing == b.listing ==> x.value <= b.value
  {
    RowOfBid(listings, bids, b);
    var top := HighestBid(bids, b.listing);
    assert top.Some?;
    RowOfBid(listings, bids, top.value);
    // rows are compared by primary key
    var isTop := top.Some? && b.id == top.value.id;
    assert isTop <==> forall x :: x in bids && x.listing == b.listing ==> x.value <= b.value by {
      if b != top.value {
        assert b.value < top.value.value;
      }
    }
    if listings[b.listing].status == Active then
      (if isTop then Highest else OutBidded)
    else
      (if isTop then Won else Lost)
  }

  // ---------------------------------------------------------------------
  // User.highest_bids, open_highest_bids, closed_highest_bids
  // ---------------------------------------------------------------------

  /** `t` is a stored bid and its bidder has no higher bid on the same listing. */
  predicate IsUserTop(bids: seq<Bid>, t: Bid)
  {
    t in bids && forall x :: x in bids && x.bidder == t.bidder && x.listing == t.listing ==> x.value <= t.value
  }

  /** The `.get` in `highest_bids` for listing `l` succeeds: one of `u`'s bids there holds `u`'s maximum. */
  predicate UserTopDefined(bids: seq<Bid>, u: UserId, l: ListingId)
  {
    var mine := UserBidsOn(bids, l, u);
    mine != [] && CountValue(mine, MaxBidValue(mine)) == 1
  }

  /** Every `.get` in `highest_bids` for user `u` succeeds. */
  predicate HighestBidsDefined(bids: seq<Bid>, u: UserId)
  {
    forall b :: b in bids && b.bidder == u ==> UserTopDefined(bids, u, b.listing)
  }

  /** Two top bids of one user on one listing whose `.get` succeeds are the same bid. */
  lemma UserTopIsUnique(bids: seq<Bid>, t1: Bid, t2: Bid)
    requires IsUserTop(bids, t1) && IsUserTop(bids, t2)
    requires t1.bidder == t2.bidder && t1.listing == t2.listing
    requires UserTopDefined(bids, t1.bidder, t1.listing)
    ensures t1 == t2
  {
    var mine := UserBidsOn(bids, t1.listing, t1.bidder);
    assert t1 in mine && t2 in mine;
    OnlyOneWithValue(mine, MaxBidValue(mine), t1, t2);
  }

  /**
   * One step of `highest_bids`: filter `u`'s bids on `l`, take their
   * maximum value and fetch the bid of `u` on `l` with that value.
   */
  method UserTopBidOn(bids: seq<Bid>, u: UserId, l: ListingId) returns (t: Bid)
    requires UserTopDefined(bids, u, l)
    ensures t.bidder == u && t.listing == l && IsUserTop(bids, t)
  {
    var mine := UserBidsOn(bids, l, u);
    t := GetByValue(mine, MaxBidValue(mine));
  }

  /** The listing of each bid, in the bids' order (duplicates kept). */
  method ListingsOf(bids: seq<Bid>) returns (listed: seq<ListingId>)
    ensures |listed| == |bids|
    ensures forall k :: 0 <= k < |bids| ==> listed[k] == bids[k].listing
  {
    listed := [];
    var i := 0;
    while i < |bids|
      invariant 0 <= i <= |bids|
      invariant |listed| == i
      invariant forall k :: 0 <= k < i ==> listed[k] == bids[k].listing
    {
      listed := listed + [bids[i].listing];
      i := i + 1;
    }
  }

  /**
   * The user's top bid on each listing of `listed`, gathered into a set;
   * `added` records which bid each listing contributed.
   */
  method TopBidsOf(bids: seq<Bid>, u: UserId, listed: seq<ListingId>) returns (r: set<Bid>, ghost added: seq<Bid>)
    requires forall k {:trigger UserTopDefined(bids, u, listed[k])} :: 0 <= k < |listed| ==> UserTopDefined(bids, u, listed[k])
    ensures |added| == |listed|
    ensures forall t :: t in r <==> t in added
    ensures forall k :: 0 <= k < |listed| ==> added[k].listing == listed[k]
    ensures forall t :: t in r ==> t.bidder == u && IsUserTop(bids, t)
  {
    r := {};
    added := [];
    var j := 0;
    while j < |listed|
      invariant 0 <= j <= |listed|
      invariant |added| == j
      invariant forall t :: t in r <==> t in added
      invariant forall k :: 0 <= k < j ==> added[k].listing == listed[k]
      invariant forall t :: t in r ==> t.bidder == u && IsUserTop(bids, t)
    {
      var top := UserTopBidOn(bids, u, listed[j]);
      r := r + {top};
      added := added + [top];
      j := j + 1;
    }
  }

  /**
   * `User.highest_bids`: for each listing `u` bid on, `u`'s highest bid
   * there. A bid belongs to the result exactly when it is `u`'s and no bid
   * of `u` on the same listing is higher, and the result holds one bid per
   * listing.
   */
  method HighestBids(bids: seq<Bid>, u: UserId) returns (r: set<Bid>)
    requires HighestBidsDefined(bids, u)
    ensures forall t :: t in r <==> t.bidder == u && IsUserTop(bids, t)
    ensures forall t1, t2 :: t1 in r && t2 in r && t1.listing == t2.listing ==> t1 == t2
  {
    var mine := Filter(bids, ByBidder(u));
    var listed := ListingsOf(mine);
    forall k | 0 <= k < |listed|
      ensures UserTopDefined(bids, u, listed[k])
    {
      assert mine[k] in mine;
    }
    ghost var added;
    r, added := TopBidsOf(bids, u, listed);
    TopsAreCollected(bids, u, mine, listed, added, r);
    OneTopPerListing(bids, u, r);
  }

  /** Every top bid of the user is among those `HighestBids` gathers. */
  lemma TopsAreCollected(bids: seq<Bid>, u: UserId, mine: seq<Bid>, listed: seq<ListingId>, added: seq<Bid>, r: set<Bid>)
    requires forall b :: b in bids && b.bidder == u ==> b in mine
    requires |listed| == |mine| && forall k :: 0 <= k < |mine| ==> listed[k] == mine[k].listing
    requires forall k :: 0 <= k < |listed| ==> UserTopDefined(bids, u, listed[k])
    requires |added| == |listed|
    requires forall t :: t in r <==> t in added
    requires forall k :: 0 <= k < |listed| ==> added[k].listing == listed[k]
    requires forall t :: t in r ==> t.bidder == u && IsUserTop(bids, t)
    ensures forall t: Bid :: t.bidder == u && IsUserTop(bids, t) ==> t in r
  {
    forall t: Bid | t.bidder == u && IsUserTop(bids, t)
      ensures t in r
    {
      assert t in mine;
      var k :| 0 <= k < |mine| && mine[k] == t;
      assert added[k] in added;
      UserTopIsUnique(bids, t, added[k]);
    }
  }

  /** Two top bids of one user on one listing are the same bid. */
  lemma OneTopPerListing(bids: seq<Bid>, u: UserId, r: set<Bid>)
    requires HighestBidsDefined(bids, u)
    requires forall t :: t in r ==> t.bidder == u && IsUserTop(bids, t)
    ensures forall t1, t2 :: t1 in r && t2 in r && t1.listing == t2.listing ==> t1 == t2
  {
    forall t1, t2 | t1 in r && t2 in r && t1.listing == t2.listing
      ensures t1 == t2
    {
      UserTopIsUnique(bids, t1, t2);
    }
  }

  /** The bids of `highest` whose listing has status `st`, in some order, each once. */
  method HighestBidsWithStatus(listings: seq<Listing>, highest: set<Bid>, st: Status)
      returns (picked: seq<Bid>)
    requires forall t :: t in highest ==> t.listing < |listings|
    ensures forall t :: t in picked <==> t in highest && listings[t.listing].status == st
    ensures forall i, j :: 0 <= i < j < |picked| ==> picked[i] != picked[j]
  {
    picked := [];
    var rest := highest;
    while rest != {}
      invariant rest <= highest
      invariant forall t :: t in picked <==> t in highest - rest && listings[t.listing].status == st
      invariant forall i, j :: 0 <= i < j < |picked| ==> picked[i] != picked[j]
      decreases rest
    {
      var t :| t in rest;
      if listings[t.listing].status == st {
        picked := picked + [t];
      }
      rest := rest - {t};
    }
  }

  /** `User.open_highest_bids`: the user's highest bids on active listings. */
  method OpenHighestBids(listings: seq<Listing>, bids: seq<Bid>, u: UserId) returns (open: seq<Bid>)
    requires WellFormedBids(listings, bids) && HighestBidsDefined(bids, u)
    ensures forall t :: t in open <==> t.bidder == u && IsUserTop(bids, t) && listings[t.listing].status == Active
    ensures forall i, j :: 0 <= i < j < |open| ==> open[i] != open[j]
  {
    var highest := HighestBids(bids, u);
    forall t | t in highest
      ensures t.listing < |listings|
    {
      RowOfBid(listings, bids, t);
    }
    open := HighestBidsWithStatus(listings, highest, Active);
  }

  /** `User.closed_highest_bids`: the user's highest bids on closed listings. */
  method ClosedHighestBids(listings: seq<Listing>, bids: seq<Bid>, u: UserId) returns (closed: seq<Bid>)
    requires WellFormedBids(listings, bids) && HighestBidsDefined(bids, u)
    ensures forall t :: t in closed <==> t.bidder == u && IsUserTop(bids, t) && listings[t.listing].status == Closed
    ensures forall i, j :: 0 <= i < j < |closed| ==> closed[i] != closed[j]
  {
    var highest := HighestBids(bids, u);
    forall t | t in highest
      ensures t.listing < |listings|
    {
      RowOfBid(listings, bids, t);
    }
    closed := HighestBidsWithStatus(listings, highest, Closed);
  }

  // ---------------------------------------------------------------------
  // Count labels
  // ---------------------------------------------------------------------

  predicate IsDigit(c: char) { '0' <= c <= '9' }

  /** The decimal numeral of `n`, as an f-string prints it. */
  function NatToString(n: nat): (s: string)
    ensures |s| > 0 && forall i :: 0 <= i < |s| ==> IsDigit(s[i])
  {
    if n < 10 then ['0' + n as char]
    else NatToString(n / 10) + ['0' + (n % 10) as char]
  }

  /** The number a string of digits denotes. */
  function ParseNat(s: string): nat
    requires forall i :: 0 <= i < |s| ==> IsDigit(s[i])
  {
    if s == [] then 0
    else
      assert IsDigit(s[|s| - 1]);
      ParseNat(s[..|s| - 1]) * 10 + (s[|s| - 1] as int - '0' as int) as nat
  }

  lemma {:induction false} ParseNatToString(n: nat)
    ensures ParseNat(NatToString(n)) == n
  {
    if n >= 10 {
      var s := NatToString(n);
      assert s[..|s| - 1] == NatToString(n / 10);
      ParseNatToString(n / 10);
    }
  }

  /** The longest prefix of `s` made of digits. */
  function LeadingDigits(s: string): (d: string)
    ensures |d| <= |s| && d == s[..|d|]
    ensures forall i :: 0 <= i < |d| ==> IsDigit(d[i])
  {
    if s == [] || !IsDigit(s[0]) then []
    else [s[0]] + LeadingDigits(s[1..])
  }

  lemma {:induction false} LeadingDigitsOf(d: string, rest: string)
    requires forall i :: 0 <= i < |d| ==> IsDigit(d[i])
    requires rest == [] || !IsDigit(rest[0])
    ensures LeadingDigits(d + rest) == d
  {
    if d != [] {
      assert (d + rest)[1..] == d[1..] + rest;
      LeadingDigitsOf(d[1..], rest);
    } else {
      assert d + rest == rest;
    }
  }

  /** The count a label starts with; a label without a leading numeral counts 0. */
  function CountInLabel(text: string): nat
  {
    ParseNat(LeadingDigits(text))
  }

  /** `Listing.number_of_bids` for a listing with `n` bids. */
  function BidsLabel(n: nat): string
  {
    if n != 0 then
      if n == 1 then NatToString(n) + " Bid" else NatToString(n) + " Bids"
    else
      "No Bids"
  }

  /** `Listing.number_of_comments` for a listing with `n` comments. */
  function CommentsLabel(n: nat): string
  {
    if n == 1 then NatToString(n) + " Comment" else NatToString(n) + " Comments"
  }

  /**
   * The bids label reads back as the count it was made from, is "No Bids"
   * only for zero, and uses the singular only for one bid.
   */
  lemma BidsLabelDecodes(n: nat)
    ensures CountInLabel(BidsLabel(n)) == n
    ensures BidsLabel(n) == "No Bids" <==> n == 0
    ensures BidsLabel(n)[|BidsLabel(n)| - 1] == 's' <==> n != 1
  {
    if n != 0 {
      var suffix := if n == 1 then " Bid" else " Bids";
      LeadingDigitsOf(NatToString(n), suffix);
      ParseNatToString(n);
      assert BidsLabel(n) != "No Bids" by {
        assert IsDigit(BidsLabel(n)[0]);
      }
    }
  }

  /**
   * The comments label starts with a numeral, reads back as the count it
   * was made from (zero included) and uses the singular only for one comment.
   */
  lemma CommentsLabelDecodes(n: nat)
    ensures IsDigit(CommentsLabel(n)[0])
    ensures CountInLabel(CommentsLabel(n)) == n
    ensures CommentsLabel(n)[|CommentsLabel(n)| - 1] == 's' <==> n != 1
  {
    var suffix := if n == 1 then " Comment" else " Comments";
    LeadingDigitsOf(NatToString(n), suffix);
    ParseNatToString(n);
  }

  function OnListingComment(l: ListingId): Comment -> bool { (c: Comment) => c.listing == l }

  /** `listing.bids.count()` as a label. */
  function NumberOfBids(bids: seq<Bid>, l: ListingId): (text: string)
    ensures CountInLabel(text) == |BidsOn(bids, l)|
    ensures text == "No Bids" <==> forall b :: b in bids ==> b.listing != l
    ensures |text| > 0 && (text[|text| - 1] == 's' <==> |BidsOn(bids, l)| != 1)
  {
    BidsLabelDecodes(|BidsOn(bids, l)|);
    assert |BidsOn(bids, l)| > 0 ==> BidsOn(bids, l)[0] in BidsOn(bids, l);
    BidsLabel(|BidsOn(bids, l)|)
  }

  /** `listing.comments.count()` as a label. */
  function NumberOfComments(comments: seq<Comment>, l: ListingId): (text: string)
    ensures CountInLabel(text) == |Filter(comments, OnListingComment(l))|
    ensures |text| > 0 && IsDigit(text[0])
    ensures |text| > 0 && (text[|text| - 1] == 's' <==> |Filter(comments, OnListingComment(l))| != 1)
  {
    CommentsLabelDecodes(|Filter(comments, OnListingComment(l))|);
    CommentsLabel(|Filter(comments, OnListingComment(l))|)
  }
}
