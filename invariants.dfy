/** The bookkeeping the handlers keep incrementally, stated as invariants of
    the tables, and the lemmas saying which handlers preserve them.

    A store's `stock` is meant to be the number of its coupons, and its
    `total_ratings` / `ratings_count` the sum and number of its rating rows.
    The handlers never recount; they add and subtract one row at a time.
    These lemmas show that this is enough as long as every coupon and rating
    names an existing store, and that the handlers which do not check the
    store (addCoupons, addStoreRating) are exactly where that can break. */
module Invariants {
  import opened Schema
  import opened Handlers

  function CouponsOf(coupons: map<CouponId, Coupon>, s: StoreId): set<CouponId>
  {
    set c | c in coupons && coupons[c].storeId == s
  }

  function RatingSum(rows: seq<RatingRow>, s: StoreId): int
  {
    if rows == [] then 0
    else RatingSum(rows[..|rows| - 1], s) + (if rows[|rows| - 1].storeId == s then rows[|rows| - 1].rating else 0)
  }

  function RatingCount(rows: seq<RatingRow>, s: StoreId): nat
  {
    if rows == [] then 0
    else RatingCount(rows[..|rows| - 1], s) + (if rows[|rows| - 1].storeId == s then 1 else 0)
  }

  ghost predicate Consistent(t: Tables)
  {
    t.Valid() &&
    (forall c :: c in t.coupons ==> t.coupons[c].storeId in t.stores) &&
    (forall i :: 0 <= i < |t.ratings| ==> t.ratings[i].storeId in t.stores) &&
    (forall s :: s in t.stores ==>
       t.stores[s].stock == |CouponsOf(t.coupons, s)| &&
       t.stores[s].totalRatings == RatingSum(t.ratings, s) &&
       t.stores[s].ratingsCount == RatingCount(t.ratings, s))
  }

  // ---------------------------------------------------------------------
  // Counting lemmas.

  lemma {:induction false} NoRatingsFor(rows: seq<RatingRow>, s: StoreId)
    requires forall i :: 0 <= i < |rows| ==> rows[i].storeId != s
    ensures RatingSum(rows, s) == 0 && RatingCount(rows, s) == 0
  {
    if rows != [] {
      NoRatingsFor(rows[..|rows| - 1], s);
    }
  }

  lemma RatingsAppended(rows: seq<RatingRow>, row: RatingRow, s: StoreId)
    ensures RatingSum(rows + [row], s) == RatingSum(rows, s) + (if row.storeId == s then row.rating else 0)
    ensures RatingCount(rows + [row], s) == RatingCount(rows, s) + (if row.storeId == s then 1 else 0)
  {
    assert (rows + [row])[..|rows|] == rows;
  }

  lemma CouponsOfInsert(coupons: map<CouponId, Coupon>, id: CouponId, row: Coupon, s: StoreId)
    requires id !in coupons
    ensures |CouponsOf(coupons[id := row], s)| == |CouponsOf(coupons, s)| + (if row.storeId == s then 1 else 0)
  {
    if row.storeId == s {
      assert CouponsOf(coupons[id := row], s) == CouponsOf(coupons, s) + {id};
    } else {
      assert CouponsOf(coupons[id := row], s) == CouponsOf(coupons, s);
    }
  }

  lemma CouponsOfRemove(coupons: map<CouponId, Coupon>, id: CouponId, s: StoreId)
    requires id in coupons
    ensures |CouponsOf(coupons - {id}, s)| == |CouponsOf(coupons, s)| - (if coupons[id].storeId == s then 1 else 0)
  {
    if coupons[id].storeId == s {
      assert CouponsOf(coupons - {id}, s) == CouponsOf(coupons, s) - {id};
    } else {
      assert CouponsOf(coupons - {id}, s) == CouponsOf(coupons, s);
    }
  }

  // ---------------------------------------------------------------------
  // Which handlers keep the tables consistent.

  lemma AddStoreKeepsConsistent(t: Tables, name: string, kind: string, description: string, logo: Upload)
    requires Consistent(t)
    ensures Consistent(AddStore(t, name, kind, description, logo).db)
  {
    if logo.Uploaded? {
      var id := t.nextStoreId;
      var u := AddStore(t, name, kind, description, logo).db;
      assert CouponsOf(t.coupons, id) == {};
      NoRatingsFor(t.ratings, id);
      forall s | s in u.stores
        ensures u.stores[s].stock == |CouponsOf(u.coupons, s)|
        ensures u.stores[s].totalRatings == RatingSum(u.ratings, s)
        ensures u.stores[s].ratingsCount == RatingCount(u.ratings, s)
      {
      }
    }
  }

  lemma AddCouponsKeepsConsistent(t: Tables, storeId: StoreId, f: CouponFields)
    requires Consistent(t)
    requires storeId in t.stores
    ensures Consistent(AddCoupons(t, storeId, f).db)
  {
    if Complete(f) {
      var u := AddCoupons(t, storeId, f).db;
      var id := t.nextCouponId;
      forall s | s in u.stores
        ensures u.stores[s].stock == |CouponsOf(u.coupons, s)|
      {
        CouponsOfInsert(t.coupons, id, u.coupons[id], s);
      }
    }
  }

  /** Without a check that the store exists, a complete request for an
      unknown store leaves a coupon that no store counts. */
  lemma AddCouponsOrphan(t: Tables, storeId: StoreId, f: CouponFields)
    requires t.Valid()
    requires storeId !in t.stores && Complete(f)
    ensures !Consistent(AddCoupons(t, storeId, f).db)
  {
    var u := AddCoupons(t, storeId, f).db;
    assert u.coupons[t.nextCouponId].storeId !in u.stores;
  }

  lemma DeleteCouponKeepsConsistent(t: Tables, cId: CouponId)
    requires Consistent(t)
    ensures Consistent(DeleteCoupon(t, cId).db)
  {
    if cId in t.coupons {
      var u := DeleteCoupon(t, cId).db;
      forall s | s in u.stores
        ensures u.stores[s].stock == |CouponsOf(u.coupons, s)|
      {
        CouponsOfRemove(t.coupons, cId, s);
      }
    }
  }

  /** In consistent tables a deletion never takes a stock below zero, so the
      missing floor is never needed there. */
  lemma DeleteCouponStockStaysNatural(t: Tables, cId: CouponId)
    requires Consistent(t)
    requires cId in t.coupons
    ensures var owner := t.coupons[cId].storeId;
      owner in t.stores && DeleteCoupon(t, cId).db.stores[owner].stock >= 0
  {
    var owner := t.coupons[cId].storeId;
    assert cId in CouponsOf(t.coupons, owner);
  }

  lemma AddStoreRatingKeepsConsistent(t: Tables, userId: UserId, storeId: StoreId, rating: int)
    requires Consistent(t)
    requires storeId in t.stores
    ensures Consistent(AddStoreRating(t, userId, storeId, rating).db)
  {
    var u := AddStoreRating(t, userId, storeId, rating).db;
    forall s | s in u.stores
      ensures u.stores[s].totalRatings == RatingSum(u.ratings, s)
      ensures u.stores[s].ratingsCount == RatingCount(u.ratings, s)
    {
      RatingsAppended(t.ratings, RatingRow(userId, storeId, rating), s);
    }
  }

  /** The rating handler does not check the store either: a rating for an
      unknown store is a row that no store's totals account for. */
  lemma AddStoreRatingOrphan(t: Tables, userId: UserId, storeId: StoreId, rating: int)
    requires storeId !in t.stores
    ensures !Consistent(AddStoreRating(t, userId, storeId, rating).db)
  {
    var u := AddStoreRating(t, userId, storeId, rating).db;
    assert u.ratings[|u.ratings| - 1].storeId !in u.stores;
  }

  lemma RedeemKeepsConsistent(t: Tables, userId: UserId, cId: CouponId)
    requires Consistent(t)
    ensures Consistent(Redeem(t, userId, cId).db)
  {
    var u := Redeem(t, userId, cId).db;
    forall s | s in u.stores
      ensures u.stores[s].stock == |CouponsOf(u.coupons, s)|
    {
      assert CouponsOf(u.coupons, s) == CouponsOf(t.coupons, s);
    }
  }

  lemma UpdateStoreKeepsConsistent(t: Tables, storeId: StoreId, logo: Upload, body: map<string, string>)
    requires Consistent(t)
    ensures Consistent(UpdateStore(t, storeId, logo, body).db)
  {
  }

  lemma AddStoreFaqsKeepsConsistent(t: Tables, storeId: StoreId, entries: seq<(string, string)>)
    requires Consistent(t)
    ensures Consistent(AddStoreFaqs(t, storeId, entries).db)
  {
  }

  // ---------------------------------------------------------------------
  // Coupon life cycle and redemption.

  /** Adding a coupon and then deleting it restores the stores (in
      particular the stock) and the coupon table. */
  lemma AddThenDeleteRestores(t: Tables, storeId: StoreId, f: CouponFields)
    requires t.Valid() && Complete(f)
    ensures var added := AddCoupons(t, storeId, f);
      var deleted := DeleteCoupon(added.db, t.nextCouponId);
      added.outcome == Created && deleted.outcome == Ok &&
      deleted.db.stores == t.stores && deleted.db.coupons == t.coupons
  {
    var added := AddCoupons(t, storeId, f);
    var deleted := DeleteCoupon(added.db, t.nextCouponId);
    assert deleted.db.coupons == t.coupons;
    if storeId in t.stores {
      assert deleted.db.stores[storeId] == t.stores[storeId];
    }
    assert deleted.db.stores == t.stores;
  }

  /** A repeated redemption of the same pair is always refused and changes
      nothing. */
  lemma RedeemTwiceRefused(t: Tables, userId: UserId, cId: CouponId)
    ensures var first := Redeem(t, userId, cId);
      Redeem(first.db, userId, cId) == Step(first.db, BadRequest(AlreadyRedeemed))
  {
  }

  /** The ledger holds at most one row per (user, coupon) pair. */
  predicate LedgerDistinct(ledger: seq<Redemption>)
  {
    forall i, j :: 0 <= i < j < |ledger| ==> ledger[i] != ledger[j]
  }

  /** A run of redemption requests, handled one after another. */
  function RedeemAll(t: Tables, requests: seq<Redemption>): Tables
    decreases |requests|
  {
    if requests == [] then t
    else RedeemAll(Redeem(t, requests[0].userId, requests[0].couponId).db, requests[1..])
  }

  lemma RedeemKeepsLedgerDistinct(t: Tables, userId: UserId, cId: CouponId)
    requires LedgerDistinct(t.redeemed)
    ensures LedgerDistinct(Redeem(t, userId, cId).db.redeemed)
  {
  }

  /** Whatever requests arrive, the ledger never holds a pair twice, and it
      holds exactly the pairs it held before plus those requested. */
  lemma {:induction false} RedeemAllLedger(t: Tables, requests: seq<Redemption>)
    requires LedgerDistinct(t.redeemed)
    ensures LedgerDistinct(RedeemAll(t, requests).redeemed)
    ensures forall p :: p in RedeemAll(t, requests).redeemed <==> p in t.redeemed || p in requests
    decreases |requests|
  {
    if requests != [] {
      var first := Redeem(t, requests[0].userId, requests[0].couponId).db;
      RedeemKeepsLedgerDistinct(t, requests[0].userId, requests[0].couponId);
      RedeemAllLedger(first, requests[1..]);
      assert requests == [requests[0]] + requests[1..];
    }
  }
}
