/**
 * Article ratings: the schema's validation of a rating (its value range
 * depends on the rating type, the comment is bounded, the article id is
 * required, the type defaults to "meter") and the two partial unique
 * indexes that allow one rating per article and user and one per article
 * and session. The collection is a class whose insert keeps both.
 */
module RatingModel {
  import opened Wrappers

  const METER := "meter"
  const STARS := "stars"
  const MAX_COMMENT_LENGTH := 500

  /** A rating as submitted: any field may be missing. */
  datatype Draft = Draft(
    articleId: Option<string>, userId: Option<string>, value: Option<real>,
    ratingType: Option<string>, sessionId: Option<string>, comment: Option<string>)

  /** A stored rating: the required fields are present. */
  datatype Rating = Rating(
    articleId: string, userId: Option<string>, value: real,
    ratingType: string, sessionId: Option<string>, comment: Option<string>)

  /** The value validator: -100..100 for a meter, 1..5 for stars, nothing for any other type. */
  predicate ValueValid(ratingType: string, v: real) {
    if ratingType == METER then -100.0 <= v <= 100.0
    else if ratingType == STARS then 1.0 <= v <= 5.0
    else false
  }

  /** The type after the schema default. */
  function TypeOf(d: Draft): string {
    d.ratingType.GetOr(METER)
  }

  /**
   * The paths that fail validation: a missing article id, a missing or
   * out-of-range value, a type outside the enumeration, an overlong comment.
   */
  function Errors(d: Draft): (errs: set<string>)
    ensures errs <= {"articleId", "value", "ratingType", "comment"}
    ensures "articleId" in errs <==> d.articleId.None?
    ensures "value" in errs <==> d.value.None? || !ValueValid(TypeOf(d), d.value.value)
    ensures "ratingType" in errs <==> TypeOf(d) !in {METER, STARS}
    ensures "comment" in errs <==> d.comment.Some? && |d.comment.value| > MAX_COMMENT_LENGTH
  {
    (if d.articleId.None? then {"articleId"} else {})
    + (if d.value.None? || !ValueValid(TypeOf(d), d.value.value) then {"value"} else {})
    + (if TypeOf(d) != METER && TypeOf(d) != STARS then {"ratingType"} else {})
    + (if d.comment.Some? && |d.comment.value| > MAX_COMMENT_LENGTH then {"comment"} else {})
  }

  /** A rating the schema accepts. */
  predicate Acceptable(r: Rating) {
    && ValueValid(r.ratingType, r.value)
    && (r.comment.None? || |r.comment.value| <= MAX_COMMENT_LENGTH)
  }

  /** Validation: the stored rating when no path fails, otherwise the failing paths. */
  function Validate(d: Draft): (r: Result<Rating, set<string>>)
    ensures r.Ok? <==> Errors(d) == {}
    ensures r.Ok? ==>
      && Acceptable(r.value) && r.value.ratingType == TypeOf(d)
      && Some(r.value.articleId) == d.articleId && Some(r.value.value) == d.value
      && r.value.userId == d.userId && r.value.sessionId == d.sessionId && r.value.comment == d.comment
    ensures r.Err? ==> r.error == Errors(d)
  {
    if Errors(d) != {} then Err(Errors(d))
    else
      assert "articleId" !in Errors(d) && "value" !in Errors(d);
      Ok(Rating(d.articleId.value, d.userId, d.value.value, TypeOf(d), d.sessionId, d.comment))
  }

  /** An accepted rating's value lies in -100..100, and in 1..5 for stars. */
  lemma AcceptedValueRange(r: Rating)
    requires Acceptable(r)
    ensures -100.0 <= r.value <= 100.0
    ensures r.ratingType == STARS ==> 1.0 <= r.value <= 5.0
    ensures r.ratingType == METER || r.ratingType == STARS
  {
  }

  /** A draft without a type is judged as a meter rating. */
  lemma DefaultIsMeter(d: Draft, v: real)
    requires d.ratingType.None? && d.value == Some(v) && d.articleId.Some? && d.comment.None?
    ensures Validate(d).Ok? <==> -100.0 <= v <= 100.0
  {
  }

  /** Two ratings clash under a partial unique index: same article and the same present user or session. */
  predicate Clash(a: Rating, b: Rating) {
    a.articleId == b.articleId
    && ((a.userId.Some? && a.userId == b.userId) || (a.sessionId.Some? && a.sessionId == b.sessionId))
  }

  /** Ratings with neither a user nor a session are outside both indexes and never clash. */
  lemma AnonymousNeverClash(a: Rating, b: Rating)
    requires a.userId.None? && a.sessionId.None?
    ensures !Clash(a, b) && !Clash(b, a)
  {
  }

  /** Both indexes hold: no two stored ratings clash. */
  predicate Unique(ratings: seq<Rating>) {
    forall i, j :: 0 <= i < j < |ratings| ==> !Clash(ratings[i], ratings[j])
  }

  /** Why an insert failed. */
  datatype InsertError = Invalid(paths: set<string>) | DuplicateKey

  /** The ratings collection. */
  class Ratings {
    var ratings: seq<Rating>

    predicate Valid()
      reads this
    {
      Unique(ratings) && forall i :: 0 <= i < |ratings| ==> Acceptable(ratings[i])
    }

    constructor ()
      ensures Valid() && ratings == []
    {
      ratings := [];
    }

    /** Whether some stored rating clashes with `r`. */
    predicate Taken(r: Rating)
      reads this
    {
      exists i :: 0 <= i < |ratings| && Clash(ratings[i], r)
    }

    /**
     * Saving a draft: validation first, then the unique indexes; a failed
     * insert leaves the collection as it was.
     */
    method Insert(d: Draft) returns (r: Result<Rating, InsertError>)
      requires Valid()
      modifies this
      ensures Valid()
      ensures Validate(d).Err? ==> r == Err(Invalid(Errors(d))) && ratings == old(ratings)
      ensures Validate(d).Ok? && old(Taken(Validate(d).value)) ==> r == Err(DuplicateKey) && ratings == old(ratings)
      ensures Validate(d).Ok? && !old(Taken(Validate(d).value)) ==>
        r == Ok(Validate(d).value) && ratings == old(ratings) + [Validate(d).value]
    {
      var v := Validate(d);
      if v.Err? {
        return Err(Invalid(v.error));
      }
      var rating := v.value;
      if exists i | 0 <= i < |ratings| :: Clash(ratings[i], rating) {
        return Err(DuplicateKey);
      }
      ClashSymmetric(rating);
      ratings := ratings + [rating];
      return Ok(rating);
    }
  }

  /** Clashing is symmetric. */
  lemma ClashSymmetric(r: Rating)
    ensures forall s :: Clash(s, r) <==> Clash(r, s)
  {
  }

  /** A collection keeping both indexes holds at most one rating per article and user. */
  lemma OnePerUser(ratings: seq<Rating>, user: string, article: string, i: nat, j: nat)
    requires Unique(ratings)
    requires i < |ratings| && j < |ratings|
    requires ratings[i].articleId == ratings[j].articleId == article
    requires ratings[i].userId == ratings[j].userId == Some(user)
    ensures i == j
  {
    if i < j {
      assert Clash(ratings[i], ratings[j]);
    } else if j < i {
      assert Clash(ratings[j], ratings[i]);
    }
  }

  /** A collection keeping both indexes holds at most one rating per article and session. */
  lemma OnePerSession(ratings: seq<Rating>, session: string, article: string, i: nat, j: nat)
    requires Unique(ratings)
    requires i < |ratings| && j < |ratings|
    requires ratings[i].articleId == ratings[j].articleId == article
    requires ratings[i].sessionId == ratings[j].sessionId == Some(session)
    ensures i == j
  {
    if i < j {
      assert Clash(ratings[i], ratings[j]);
    } else if j < i {
      assert Clash(ratings[j], ratings[i]);
    }
  }
}
