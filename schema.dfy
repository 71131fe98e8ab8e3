/** The rows and tables the coupon controller reads and writes, and the
    outcomes its handlers answer with.

    The relational database is modelled as a value: one map per keyed table,
    one sequence per table whose rows are only ever appended, and the two
    auto-increment counters that hand out new store and coupon ids. No
    constraint beyond the primary keys is assumed (the schema itself is not
    part of this model), so a row may refer to a store or coupon that does
    not exist. */
module Schema {

  type StoreId = nat
  type CouponId = nat
  type UserId = nat

  datatype Option<T> = None | Some(value: T)

  /** One entry of a store's FAQ list. */
  datatype Faq = Faq(question: string, answer: string)

  /** A row of the `store` table. `kind` is the `type` column. */
  datatype Store = Store(
    name: string,
    logoUrl: string,
    kind: string,
    description: string,
    faq: seq<Faq>,
    stock: int,
    totalRatings: int,
    ratingsCount: int)

  /** A row of the `coupons` table. `code` is the `coupon_code` column. */
  datatype Coupon = Coupon(
    storeId: StoreId,
    title: string,
    code: string,
    kind: string,
    link: string,
    dueDate: string,
    description: string,
    userCount: int)

  /** The body fields of a coupon-creation request; "" stands for a field
      that is missing or empty, both of which are falsy. */
  datatype CouponFields = CouponFields(
    title: string,
    couponCode: string,
    kind: string,
    link: string,
    dueDate: string,
    description: string)

  /** A row of the `user_ratings` table. */
  datatype RatingRow = RatingRow(userId: UserId, storeId: StoreId, rating: int)

  /** A row of the `redeemed_coupons` table. */
  datatype Redemption = Redemption(userId: UserId, couponId: CouponId)

  datatype Tables = Tables(
    stores: map<StoreId, Store>,
    coupons: map<CouponId, Coupon>,
    ratings: seq<RatingRow>,
    redeemed: seq<Redemption>,
    nextStoreId: nat,
    nextCouponId: nat)
  {
    /** Auto-increment keys: every key in use is below the next one handed out. */
    predicate Valid()
    {
      (forall s :: s in stores ==> s < nextStoreId) &&
      (forall c :: c in coupons ==> c < nextCouponId)
    }
  }

  /** A logo file attached to a request, after the upload to the media host. */
  datatype Upload = NoFile | Uploaded(url: string) | UploadFailed

  /** The HTTP answer of a handler: 201, 200, 400 with a message, 404, or
      500 with a message. */
  datatype Outcome = Created | Ok | BadRequest(error: string) | NotFound | ServerError(error: string)

  /** The tables after a handler ran, and what it answered. */
  datatype Step = Step(db: Tables, outcome: Outcome)

  const IncompleteData: string := "Incomplete data"
  const AlreadyRedeemed: string := "Coupon already redeemed by You"
  const UnableToProceed: string := "Unable to proceed"
  const UnableToUpdate: string := "Unable to update store"
}
