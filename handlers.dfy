/** What each handler of the coupon controller does to the tables and what
    it answers, as a function of the tables before the request. The user id
    that the handlers decode from the request's token is a plain parameter
    here, and an uploaded logo is the URL the media host returned. */
module Handlers {
  import opened Schema
  import UpdateQuery
  import Faqs

  /** `UPDATE store SET stock = stock + delta WHERE id = ?`: a row that does
      not exist is simply not updated. */
  function AdjustStock(stores: map<StoreId, Store>, id: StoreId, delta: int): map<StoreId, Store>
  {
    if id in stores then stores[id := stores[id].(stock := stores[id].stock + delta)] else stores
  }

  /** `UPDATE coupons SET user_count = user_count + 1 WHERE coupon_id = ?`. */
  function BumpUserCount(coupons: map<CouponId, Coupon>, id: CouponId): map<CouponId, Coupon>
  {
    if id in coupons then coupons[id := coupons[id].(userCount := coupons[id].userCount + 1)] else coupons
  }

  /** The URL an upload produced, if any. */
  function LogoUrl(logo: Upload): Option<string>
  {
    if logo.Uploaded? then Some(logo.url) else None
  }

  /** The handler refuses a coupon whose title, code, due date or type is falsy. */
  predicate Complete(f: CouponFields)
  {
    f.title != "" && f.couponCode != "" && f.dueDate != "" && f.kind != ""
  }

  /** addStore: uploads the logo, then inserts a store row under the next
      id, with no coupons, no ratings and no FAQ. Without a successful upload
      nothing is inserted and the answer is 400. */
  function AddStore(t: Tables, name: string, kind: string, description: string, logo: Upload): (r: Step)
    requires t.Valid()
    ensures r.db.Valid()
    ensures !logo.Uploaded? ==> r == Step(t, BadRequest(UnableToProceed))
    ensures logo.Uploaded? ==>
      var id := t.nextStoreId;
      r.outcome == Created && id !in t.stores &&
      r.db.stores.Keys == t.stores.Keys + {id} &&
      r.db.stores[id] == Store(name, logo.url, kind, description, [], 0, 0, 0) &&
      (forall s :: s in t.stores ==> r.db.stores[s] == t.stores[s]) &&
      r.db.coupons == t.coupons && r.db.ratings == t.ratings && r.db.redeemed == t.redeemed &&
      r.db.nextCouponId == t.nextCouponId
  {
    if !logo.Uploaded? then Step(t, BadRequest(UnableToProceed))
    else
      var id := t.nextStoreId;
      var row := Store(name, logo.url, kind, description, [], 0, 0, 0);
      Step(t.(stores := t.stores[id := row], nextStoreId := id + 1), Created)
  }

  /** updateStore: 404 for an unknown store; otherwise the partial UPDATE is
      built and executed. The answer is 200 exactly when the store exists,
      the upload (if any) worked and at least one column is set; then the
      row is changed as Patch says and nothing else changes. Any other case
      is a 500 that changes nothing. */
  function UpdateStore(t: Tables, storeId: StoreId, logo: Upload, body: map<string, string>): (r: Step)
    ensures storeId !in t.stores ==> r == Step(t, NotFound)
    ensures r.outcome == Ok || r.db == t
    ensures r.outcome == Ok <==>
      storeId in t.stores && !logo.UploadFailed? && UpdateQuery.Assignments(LogoUrl(logo), body) != []
    ensures storeId in t.stores && r.outcome != Ok ==> r.outcome == ServerError(UnableToUpdate)
    ensures r.outcome == Ok ==>
      r.db == t.(stores := t.stores[storeId := UpdateQuery.Patch(t.stores[storeId], LogoUrl(logo), body)])
  {
    if storeId !in t.stores then Step(t, NotFound)
    else if logo.UploadFailed? then Step(t, ServerError(UnableToUpdate))
    else
      var url := LogoUrl(logo);
      UpdateQuery.BuiltQueryRuns(t.stores, url, body, storeId);
      match UpdateQuery.RunUpdate(t.stores, UpdateQuery.QueryText(url, body), UpdateQuery.QueryParams(url, body, storeId))
      case None => Step(t, ServerError(UnableToUpdate))
      case Some(stores) => Step(t.(stores := stores), Ok)
  }

  /** addStoreFAQs: stores the body's entries as the store's FAQ list; an
      unknown store id updates no row, and the answer is 200 either way. */
  function AddStoreFaqs(t: Tables, storeId: StoreId, entries: seq<(string, string)>): (r: Step)
    ensures r.outcome == Ok
    ensures r.db.stores.Keys == t.stores.Keys
    ensures storeId in t.stores ==>
      Faqs.Entries(r.db.stores[storeId].faq) == entries &&
      r.db.stores[storeId].(faq := t.stores[storeId].faq) == t.stores[storeId]
    ensures forall s :: s in t.stores && s != storeId ==> r.db.stores[s] == t.stores[s]
    ensures r.db.(stores := t.stores) == t
  {
    Faqs.EntriesOfToFaqs(entries);
    var stores := if storeId in t.stores
                  then t.stores[storeId := t.stores[storeId].(faq := Faqs.ToFaqs(entries))]
                  else t.stores;
    Step(t.(stores := stores), Ok)
  }

  /** addStoreRating: inserts a rating row, then adds the rating to the
      store's running total and one to its count. */
  function AddStoreRating(t: Tables, userId: UserId, storeId: StoreId, rating: int): (r: Step)
    ensures r.outcome == Ok
    ensures r.db.ratings == t.ratings + [RatingRow(userId, storeId, rating)]
    ensures r.db.stores.Keys == t.stores.Keys
    ensures storeId in t.stores ==>
      r.db.stores[storeId].totalRatings == t.stores[storeId].totalRatings + rating &&
      r.db.stores[storeId].ratingsCount == t.stores[storeId].ratingsCount + 1 &&
      r.db.stores[storeId].(totalRatings := t.stores[storeId].totalRatings,
                            ratingsCount := t.stores[storeId].ratingsCount) == t.stores[storeId]
    ensures forall s :: s in t.stores && s != storeId ==> r.db.stores[s] == t.stores[s]
    ensures r.db.coupons == t.coupons && r.db.redeemed == t.redeemed
    ensures r.db.nextStoreId == t.nextStoreId && r.db.nextCouponId == t.nextCouponId
  {
    var ratings := t.ratings + [RatingRow(userId, storeId, rating)];
    var stores := if storeId in t.stores
                  then t.stores[storeId := t.stores[storeId].(totalRatings := t.stores[storeId].totalRatings + rating,
                                                              ratingsCount := t.stores[storeId].ratingsCount + 1)]
                  else t.stores;
    Step(t.(ratings := ratings, stores := stores), Ok)
  }

  /** addCoupons: 400 "Incomplete data" and no change when a required field
      is falsy; otherwise one coupon row under the next id, owned by
      `storeId`, and that store's stock one higher. Whether the store exists
      is not checked. */
  function AddCoupons(t: Tables, storeId: StoreId, f: CouponFields): (r: Step)
    requires t.Valid()
    ensures r.db.Valid()
    ensures !Complete(f) ==> r == Step(t, BadRequest(IncompleteData))
    ensures Complete(f) ==>
      var id := t.nextCouponId;
      r.outcome == Created && id !in t.coupons &&
      r.db.coupons.Keys == t.coupons.Keys + {id} &&
      r.db.coupons[id] == Coupon(storeId, f.title, f.couponCode, f.kind, f.link, f.dueDate, f.description, 0) &&
      (forall c :: c in t.coupons ==> r.db.coupons[c] == t.coupons[c]) &&
      r.db.stores.Keys == t.stores.Keys &&
      (forall s :: s in t.stores ==>
         r.db.stores[s].stock == t.stores[s].stock + (if s == storeId then 1 else 0) &&
         r.db.stores[s].(stock := t.stores[s].stock) == t.stores[s]) &&
      r.db.ratings == t.ratings && r.db.redeemed == t.redeemed && r.db.nextStoreId == t.nextStoreId
  {
    if !Complete(f) then Step(t, BadRequest(IncompleteData))
    else
      var id := t.nextCouponId;
      var row := Coupon(storeId, f.title, f.couponCode, f.kind, f.link, f.dueDate, f.description, 0);
      Step(t.(coupons := t.coupons[id := row], nextCouponId := id + 1,
              stores := AdjustStock(t.stores, storeId, 1)),
           Created)
  }

  /** deleteCoupon: 404 and no change for an unknown coupon; otherwise the
      row is deleted and the stock of the store it named drops by one, with
      no floor at zero. */
  function DeleteCoupon(t: Tables, cId: CouponId): (r: Step)
    ensures t.Valid() ==> r.db.Valid()
    ensures cId !in t.coupons ==> r == Step(t, NotFound)
    ensures cId in t.coupons ==>
      var owner := t.coupons[cId].storeId;
      r.outcome == Ok &&
      r.db.coupons.Keys == t.coupons.Keys - {cId} &&
      (forall c :: c in r.db.coupons ==> r.db.coupons[c] == t.coupons[c]) &&
      r.db.stores.Keys == t.stores.Keys &&
      (forall s :: s in t.stores ==>
         r.db.stores[s].stock == t.stores[s].stock - (if s == owner then 1 else 0) &&
         r.db.stores[s].(stock := t.stores[s].stock) == t.stores[s]) &&
      r.db.ratings == t.ratings && r.db.redeemed == t.redeemed &&
      r.db.nextStoreId == t.nextStoreId && r.db.nextCouponId == t.nextCouponId
  {
    if cId !in t.coupons then Step(t, NotFound)
    else
      var owner := t.coupons[cId].storeId;
      Step(t.(coupons := t.coupons - {cId}, stores := AdjustStock(t.stores, owner, -1)), Ok)
  }

  /** redeem: 400 "Coupon already redeemed by You" and no change when the
      ledger already holds the pair; otherwise the coupon's user count goes
      up by one (if the coupon exists: this is not checked) and exactly that
      pair is appended to the ledger. Either way the pair is recorded
      afterwards. */
  function Redeem(t: Tables, userId: UserId, cId: CouponId): (r: Step)
    ensures t.Valid() ==> r.db.Valid()
    ensures Redemption(userId, cId) in r.db.redeemed
    ensures Redemption(userId, cId) in t.redeemed ==> r == Step(t, BadRequest(AlreadyRedeemed))
    ensures Redemption(userId, cId) !in t.redeemed ==>
      r.outcome == Created &&
      r.db.redeemed == t.redeemed + [Redemption(userId, cId)] &&
      r.db.coupons.Keys == t.coupons.Keys &&
      (forall c :: c in t.coupons ==>
         r.db.coupons[c].userCount == t.coupons[c].userCount + (if c == cId then 1 else 0) &&
         r.db.coupons[c].(userCount := t.coupons[c].userCount) == t.coupons[c]) &&
      r.db.stores == t.stores && r.db.ratings == t.ratings &&
      r.db.nextStoreId == t.nextStoreId && r.db.nextCouponId == t.nextCouponId
  {
    var pair := Redemption(userId, cId);
    if pair in t.redeemed then Step(t, BadRequest(AlreadyRedeemed))
    else Step(t.(coupons := BumpUserCount(t.coupons, cId), redeemed := t.redeemed + [pair]), Created)
  }
}
