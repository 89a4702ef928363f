/** The front end's rating tiers (frontend/src/utils/constants.js): the
    `RATING_TIERS` table and `getRatingTier`, the if-chain that picks the
    tier shown beside a rating. Ratings are integers, as the back end
    stores them. */
module RatingTiers {
  import Users

  /** One entry of `RATING_TIERS`. */
  datatype Tier = Tier(min: int, name: string, color: string)

  const Grandmaster := Tier(2400, "Grandmaster", "#FF0000")
  const InternationalMaster := Tier(2200, "International Master", "#FFA500")
  const Master := Tier(2000, "Master", "#FFD700")
  const Expert := Tier(1800, "Expert", "#800080")
  const Advanced := Tier(1600, "Advanced", "#0000FF")
  const Intermediate := Tier(1400, "Intermediate", "#008000")
  const Beginner := Tier(1200, "Beginner", "#808080")
  const Newbie := Tier(0, "Newbie", "#808080")

  /** `RATING_TIERS` in declaration order, highest tier first. */
  const Tiers: seq<Tier> :=
    [Grandmaster, InternationalMaster, Master, Expert, Advanced, Intermediate, Beginner, Newbie]

  /** `getRatingTier(rating)`. */
  function GetRatingTier(rating: int): (t: Tier)
    ensures t in Tiers
  {
    if rating >= 2400 then Grandmaster
    else if rating >= 2200 then InternationalMaster
    else if rating >= 2000 then Master
    else if rating >= 1800 then Expert
    else if rating >= 1600 then Advanced
    else if rating >= 1400 then Intermediate
    else if rating >= 1200 then Beginner
    else Newbie
  }

  /** For a rating of at least 0 the tier is the entry of the table with
      the largest `min` the rating reaches. */
  lemma GetRatingTierIsLargestReachedMin(rating: int)
    requires rating >= 0
    ensures GetRatingTier(rating).min <= rating
    ensures forall k :: 0 <= k < |Tiers| && Tiers[k].min <= rating ==> Tiers[k].min <= GetRatingTier(rating).min
  {
  }

  /** Below 1200, negative ratings included, the tier is Newbie; from 1200
      on it never is. */
  lemma LowRatingsAreNewbie(rating: int)
    ensures GetRatingTier(rating) == Newbie <==> rating < 1200
  {
  }

  /** The boundaries are inclusive. */
  lemma TierBoundaries()
    ensures GetRatingTier(2400).name == "Grandmaster"
    ensures GetRatingTier(2399).name == "International Master"
    ensures GetRatingTier(1200).name == "Beginner"
    ensures GetRatingTier(1199).name == "Newbie"
  {
  }

  /** A higher rating never shows a lower tier. */
  lemma GetRatingTierMonotone(a: int, b: int)
    requires a <= b
    ensures GetRatingTier(a).min <= GetRatingTier(b).min
  {
  }

  /** The front end shows the tier name the back end's `rating_tier`
      computes, for every rating. */
  lemma GetRatingTierAgreesWithBackend(rating: int)
    ensures GetRatingTier(rating).name == Users.RatingTier(rating)
    ensures GetRatingTier(rating).name == Users.TierNames[Users.TierLevel(rating)]
  {
    Users.RatingTierIsLadder(rating);
  }
}
