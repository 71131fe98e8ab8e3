/** The coupon controller as it runs: one database object whose tables the
    handlers change statement by statement, each handler a method that runs
    its statements in the order the controller issues them. Every method is
    proved to leave the tables as the corresponding function of Handlers
    says; the properties of those functions are proved in Invariants. */
module Controller {
  import opened Schema
  import Handlers
  import UpdateQuery
  import Faqs

  class Database {
    var stores: map<StoreId, Store>
    var coupons: map<CouponId, Coupon>
    var ratings: seq<RatingRow>
    var redeemed: seq<Redemption>
    var nextStoreId: nat
    var nextCouponId: nat

    /** The tables as one value. */
    function State(): Tables
      reads this
    {
      Tables(stores, coupons, ratings, redeemed, nextStoreId, nextCouponId)
    }

    ghost predicate Valid()
      reads this
    {
      State().Valid()
    }

    /** Empty tables. */
    constructor ()
      ensures Valid()
      ensures stores == map[] && coupons == map[] && ratings == [] && redeemed == []
    {
      stores, coupons := map[], map[];
      ratings, redeemed := [], [];
      nextStoreId, nextCouponId := 0, 0;
    }

    method AddStore(name: string, kind: string, description: string, logo: Upload) returns (out: Outcome)
      requires Valid()
      modifies this
      ensures Valid()
      ensures Step(State(), out) == Handlers.AddStore(old(State()), name, kind, description, logo)
    {
      if !logo.Uploaded? {
        out := BadRequest(UnableToProceed);
        return;
      }
      var id := nextStoreId;
      stores := stores[id := Store(name, logo.url, kind, description, [], 0, 0, 0)];
      nextStoreId := id + 1;
      out := Created;
    }

    method UpdateStore(storeId: StoreId, logo: Upload, body: map<string, string>) returns (out: Outcome)
      requires Valid()
      modifies this
      ensures Valid()
      ensures Step(State(), out) == Handlers.UpdateStore(old(State()), storeId, logo, body)
    {
      if storeId !in stores {
        out := NotFound;
        return;
      }
      var logoUrl: Option<string> := None;
      match logo {
        case UploadFailed =>
          out := ServerError(UnableToUpdate);
          return;
        case Uploaded(url) =>
          logoUrl := Some(url);
        case NoFile =>
      }
      var sql, params := UpdateQuery.BuildUpdate(logoUrl, body, storeId);
      var result := UpdateQuery.RunUpdate(stores, sql, params);
      if result.None? {
        out := ServerError(UnableToUpdate);
        return;
      }
      stores := result.value;
      out := Ok;
    }

    method AddStoreFaqs(storeId: StoreId, entries: seq<(string, string)>) returns (out: Outcome)
      requires Valid()
      modifies this
      ensures Valid()
      ensures Step(State(), out) == Handlers.AddStoreFaqs(old(State()), storeId, entries)
    {
      var faqs := Faqs.ToFaqs(entries);
      if storeId in stores {
        stores := stores[storeId := stores[storeId].(faq := faqs)];
      }
      out := Ok;
    }

    method AddStoreRating(userId: UserId, storeId: StoreId, rating: int) returns (out: Outcome)
      requires Valid()
      modifies this
      ensures Valid()
      ensures Step(State(), out) == Handlers.AddStoreRating(old(State()), userId, storeId, rating)
    {
      ratings := ratings + [RatingRow(userId, storeId, rating)];
      if storeId in stores {
        var row := stores[storeId];
        stores := stores[storeId := row.(totalRatings := row.totalRatings + rating,
                                         ratingsCount := row.ratingsCount + 1)];
      }
      out := Ok;
    }

    method AddCoupons(storeId: StoreId, f: CouponFields) returns (out: Outcome)
      requires Valid()
      modifies this
      ensures Valid()
      ensures Step(State(), out) == Handlers.AddCoupons(old(State()), storeId, f)
    {
      if f.title == "" || f.couponCode == "" || f.dueDate == "" || f.kind == "" {
        out := BadRequest(IncompleteData);
        return;
      }
      var id := nextCouponId;
      coupons := coupons[id := Coupon(storeId, f.title, f.couponCode, f.kind, f.link, f.dueDate, f.description, 0)];
      nextCouponId := id + 1;
      if storeId in stores {
        var row := stores[storeId];
        stores := stores[storeId := row.(stock := row.stock + 1)];
      }
      out := Created;
    }

    method DeleteCoupon(cId: CouponId) returns (out: Outcome)
      requires Valid()
      modifies this
      ensures Valid()
      ensures Step(State(), out) == Handlers.DeleteCoupon(old(State()), cId)
    {
      if cId !in coupons {
        out := NotFound;
        return;
      }
      var owner := coupons[cId].storeId;
      coupons := coupons - {cId};
      if owner in stores {
        var row := stores[owner];
        stores := stores[owner := row.(stock := row.stock - 1)];
      }
      out := Ok;
    }

    method Redeem(userId: UserId, cId: CouponId) returns (out: Outcome)
      requires Valid()
      modifies this
      ensures Valid()
      ensures Step(State(), out) == Handlers.Redeem(old(State()), userId, cId)
    {
      if Redemption(userId, cId) in redeemed {
        out := BadRequest(AlreadyRedeemed);
        return;
      }
      if cId in coupons {
        var row := coupons[cId];
        coupons := coupons[cId := row.(userCount := row.userCount + 1)];
      }
      redeemed := redeemed + [Redemption(userId, cId)];
      out := Created;
    }
  }
}
