/** The detail view of one property: loading its record, requests and
    reviews; the image gallery; and the review form. */
module PropertyDetail {
  import opened Wrappers
  import opened Text
  import opened Records

  /** Stored image payloads are base64 JPEG data and are shown through this prefix. */
  const DataUrlPrefix := "data:image/jpeg;base64,"

  const LoadError := "Error al cargar los datos del inmueble. Por favor, intente de nuevo más tarde."
  const ReviewError := "Error al enviar la reseña. Por favor, intente de nuevo más tarde."

  /** The tenant id every review is sent with; the view has no signed-in user. */
  const PlaceholderTenant := "64f5a53d1234567890abcdef"

  const DefaultRating := 5
  const StarCount := 5

  const InitialReviewForm := ReviewForm(PlaceholderTenant, DefaultRating, "")

  datatype DetailState = DetailState(
    property: Option<Property>,
    rentalRequests: seq<RentalRequest>,
    reviews: seq<Review>,
    error: Option<string>,
    imageIndex: nat,
    reviewForm: ReviewForm)

  const InitialDetail := DetailState(None, [], [], None, 0, InitialReviewForm)

  // ---------------------------------------------------------------- images

  /** The image mapping of `fetchPropertyData`: a non-empty list has every
      payload turned into a data URL, position by position; an empty or
      missing list is left as it is. */
  function ToDataUrls(imgs: Option<seq<string>>): (r: Option<seq<string>>)
    ensures r.Some? <==> imgs.Some?
    ensures imgs.Some? ==> |r.value| == |imgs.value|
    ensures imgs.Some? ==> forall k :: 0 <= k < |imgs.value| ==> r.value[k] == DataUrlPrefix + imgs.value[k]
  {
    match imgs
    case Some(xs) =>
      if |xs| > 0 then Some(seq(|xs|, k requires 0 <= k < |xs| => DataUrlPrefix + xs[k])) else imgs
    case None => None
  }

  /** The mapping loses nothing: distinct image lists give distinct URL lists. */
  lemma DataUrlsInjective(a: Option<seq<string>>, b: Option<seq<string>>)
    requires ToDataUrls(a) == ToDataUrls(b)
    ensures a == b
  {
    if a.Some? {
      forall k | 0 <= k < |a.value|
        ensures a.value[k] == b.value[k]
      {
        var u := ToDataUrls(a).value[k];
        assert a.value[k] == u[|DataUrlPrefix|..];
        assert b.value[k] == u[|DataUrlPrefix|..];
      }
      assert a.value == b.value;
    }
  }

  /** Number of images the gallery cycles through (0 with no property or no list). */
  function ImageCount(p: Option<Property>): nat {
    if p.Some? && p.value.imagenes.Some? then |p.value.imagenes.value| else 0
  }

  /** The index after `nextImage` with `n` images: one further, wrapping to
      0 past the last; unchanged when there are no images. JavaScript's `%`
      agrees with Dafny's here because both operands are non-negative. */
  function NextIndex(i: nat, n: nat): (r: nat)
    ensures n == 0 ==> r == i
    ensures n > 0 ==> r < n
    ensures i < n ==> r == if i + 1 == n then 0 else i + 1
  {
    if n > 0 then (i + 1) % n else i
  }

  /** The index after `prevImage`: one back, wrapping to the last image
      before 0; unchanged when there are no images. */
  function PrevIndex(i: nat, n: nat): (r: nat)
    ensures n == 0 ==> r == i
    ensures n > 0 ==> r < n
    ensures i < n ==> r == if i == 0 then n - 1 else i - 1
  {
    if n == 0 then i
    else if i == 0 then ModUnique(n - 1, n, 0, n - 1); (n - 1) % n
    else if i < n then ModUnique(i - 1 + n, n, 1, i - 1); (i - 1 + n) % n
    else (i - 1 + n) % n
  }

  /** Going forward then back, or back then forward, returns to the same image. */
  lemma PrevNextInverse(i: nat, n: nat)
    requires i < n
    ensures PrevIndex(NextIndex(i, n), n) == i
    ensures NextIndex(PrevIndex(i, n), n) == i
  {
  }

  /** The index reached after pressing "next" `k` times. */
  function Advance(i: nat, n: nat, k: nat): nat
    decreases k
  {
    if k == 0 then i else NextIndex(Advance(i, n, k - 1), n)
  }

  /** A positive multiple of `n` is at least `n`. The wrap-around proof
      calls it in branches that cannot happen, where an inline assertion
      would already rest on the contradiction. */
  lemma MulAtLeast(d: int, n: int)
    requires d >= 1 && n > 0
    ensures d * n >= n
  {
  }

  /** Euclidean division leaves one remainder: `a == q * n + r` with
      `0 <= r < n` pins `a % n` to `r`. */
  lemma ModUnique(a: int, n: int, q: int, r: int)
    requires n > 0 && 0 <= r < n && a == q * n + r
    ensures a % n == r
  {
    var q', r' := a / n, a % n;
    assert a == q' * n + r';
    // a larger or smaller quotient would move the remainder by at least `n`
    assert (q' - q) * n == q' * n - q * n;
    assert (q - q') * n == q * n - q' * n;
    if q' > q {
      MulAtLeast(q' - q, n);
    } else if q' < q {
      MulAtLeast(q - q', n);
    }
  }

  lemma ModSucc(a: nat, n: nat)
    requires n > 0
    ensures (a + 1) % n == if a % n + 1 == n then 0 else a % n + 1
  {
    var q, j := a / n, a % n;
    assert a == q * n + j;
    if j + 1 == n {
      assert a + 1 == (q + 1) * n + 0;
      ModUnique(a + 1, n, q + 1, 0);
    } else {
      ModUnique(a + 1, n, q, j + 1);
    }
  }

  /** Pressing "next" `k` times from a valid index lands on `(i + k) % n`;
      in particular `n` presses come back to the starting image. */
  lemma {:induction false} AdvanceWraps(i: nat, n: nat, k: nat)
    requires i < n
    ensures Advance(i, n, k) == (i + k) % n
    decreases k
  {
    if k > 0 {
      AdvanceWraps(i, n, k - 1);
      ModSucc(i + k - 1, n);
    }
  }

  /** `nextImage` on the view: only the image index moves. */
  function NextImage(st: DetailState): (r: DetailState)
    ensures r == st.(imageIndex := r.imageIndex)
    ensures ImageCount(st.property) == 0 ==> r == st
    ensures ImageCount(st.property) > 0 ==> r.imageIndex < ImageCount(st.property)
    ensures st.imageIndex < ImageCount(st.property) ==>
      r.imageIndex == if st.imageIndex + 1 == ImageCount(st.property) then 0 else st.imageIndex + 1
  {
    st.(imageIndex := NextIndex(st.imageIndex, ImageCount(st.property)))
  }

  /** `prevImage` on the view: only the image index moves. */
  function PrevImage(st: DetailState): (r: DetailState)
    ensures r == st.(imageIndex := r.imageIndex)
    ensures ImageCount(st.property) == 0 ==> r == st
    ensures ImageCount(st.property) > 0 ==> r.imageIndex < ImageCount(st.property)
    ensures st.imageIndex < ImageCount(st.property) ==>
      r.imageIndex == if st.imageIndex == 0 then ImageCount(st.property) - 1 else st.imageIndex - 1
  {
    st.(imageIndex := PrevIndex(st.imageIndex, ImageCount(st.property)))
  }

  // ------------------------------------------------------------------ load

  /** `fetchPropertyData`: the record, then the rental requests, then the
      reviews, one after the other. The first failure stops the sequence and
      sets the single load error; whatever was stored before it stays. */
  function LoadDetail(st: DetailState, id: string, propReply: Reply<Property>,
                      reqReply: Reply<seq<RentalRequest>>, revReply: Reply<seq<Review>>): (e: Effect<DetailState>)
    ensures |e.calls| >= 1 && e.calls[0] == GetProperty(id)
    ensures propReply.Failed? ==> e == Effect(st.(error := Some(LoadError)), [GetProperty(id)])
    ensures propReply.Ok? ==>
      && |e.calls| >= 2
      && e.calls[..2] == [GetProperty(id), FetchRentalRequests(id)]
      && e.state.property == Some(propReply.value.(imagenes := ToDataUrls(propReply.value.imagenes)))
    ensures propReply.Ok? && reqReply.Failed? ==>
      e.state == st.(property := e.state.property, error := Some(LoadError)) && |e.calls| == 2
    ensures propReply.Ok? && reqReply.Ok? && revReply.Failed? ==>
      e.state == st.(property := e.state.property, rentalRequests := reqReply.value, error := Some(LoadError))
    ensures propReply.Ok? && reqReply.Ok? ==>
      e.calls == [GetProperty(id), FetchRentalRequests(id), FetchReviews(id)]
    ensures propReply.Ok? && reqReply.Ok? && revReply.Ok? ==>
      e.state == st.(property := e.state.property, rentalRequests := reqReply.value,
                     reviews := revReply.value, error := None)
  {
    match propReply
    case Failed => Effect(st.(error := Some(LoadError)), [GetProperty(id)])
    case Ok(p) =>
      var st1 := st.(property := Some(p.(imagenes := ToDataUrls(p.imagenes))));
      match reqReply
      case Failed => Effect(st1.(error := Some(LoadError)), [GetProperty(id), FetchRentalRequests(id)])
      case Ok(reqs) =>
        var st2 := st1.(rentalRequests := reqs);
        var calls := [GetProperty(id), FetchRentalRequests(id), FetchReviews(id)];
        match revReply
        case Failed => Effect(st2.(error := Some(LoadError)), calls)
        case Ok(revs) => Effect(st2.(reviews := revs, error := None), calls)
  }

  /** After a successful load the gallery cycles through exactly the
      record's images. */
  lemma LoadedImageCount(st: DetailState, id: string, p: Property,
                         reqReply: Reply<seq<RentalRequest>>, revReply: Reply<seq<Review>>)
    ensures ImageCount(LoadDetail(st, id, Ok(p), reqReply, revReply).state.property)
      == if p.imagenes.Some? then |p.imagenes.value| else 0
  {
  }

  /** The first load from the view's initial state: the gallery starts on
      image 0, which is a valid index whenever the record has images, and
      the review form still holds its initial values, 5 stars included. */
  lemma FirstLoad(id: string, p: Property, reqReply: Reply<seq<RentalRequest>>, revReply: Reply<seq<Review>>)
    ensures var s := LoadDetail(InitialDetail, id, Ok(p), reqReply, revReply).state;
      && s.imageIndex == 0
      && (ImageCount(s.property) > 0 <==> p.imagenes.Some? && |p.imagenes.value| > 0)
      && (ImageCount(s.property) > 0 ==> s.imageIndex < ImageCount(s.property))
      && s.reviewForm == InitialReviewForm && RatingInRange(s.reviewForm)
  {
    LoadedImageCount(InitialDetail, id, p, reqReply, revReply);
  }

  // ---------------------------------------------------------------- review

  /** The rating a form may hold: one to five stars. */
  predicate RatingInRange(f: ReviewForm) {
    1 <= f.calificacion <= StarCount
  }

  /** Clicking star `i` (0-based, of the five shown) rates `i + 1`. */
  function StarClick(f: ReviewForm, i: int): (r: ReviewForm)
    requires 0 <= i < StarCount
    ensures RatingInRange(r)
    ensures r.calificacion == i + 1
    ensures r.inquilinoId == f.inquilinoId && r.comentario == f.comentario
  {
    f.(calificacion := i + 1)
  }

  /** Typing in the comment box replaces the comment only. */
  function EditComment(f: ReviewForm, text: string): (r: ReviewForm)
    ensures r.comentario == text
    ensures r.inquilinoId == f.inquilinoId && r.calificacion == f.calificacion
  {
    f.(comentario := text)
  }

  /** `handleReviewSubmit`. A comment that is blank after trimming is
      refused with nothing sent. Otherwise the review is created and the
      reviews re-fetched; only when both succeed is the list replaced and the
      form reset to an empty comment and five stars, keeping its tenant. Any
      failure sets the review error and keeps the form. */
  function SubmitReview(st: DetailState, id: string, createReply: Reply<()>,
                        fetchReply: Reply<seq<Review>>): (e: Effect<DetailState>)
    ensures IsBlank(st.reviewForm.comentario) ==> e == Effect(st, [])
    ensures !IsBlank(st.reviewForm.comentario) ==>
      |e.calls| >= 1 && e.calls[0] == CreateReview(id, st.reviewForm)
    ensures !IsBlank(st.reviewForm.comentario) && createReply.Failed? ==>
      e == Effect(st.(error := Some(ReviewError)), [CreateReview(id, st.reviewForm)])
    ensures !IsBlank(st.reviewForm.comentario) && createReply.Ok? ==>
      e.calls == [CreateReview(id, st.reviewForm), FetchReviews(id)]
    ensures !IsBlank(st.reviewForm.comentario) && createReply.Ok? && fetchReply.Failed? ==>
      e.state == st.(error := Some(ReviewError))
    ensures !IsBlank(st.reviewForm.comentario) && createReply.Ok? && fetchReply.Ok? ==>
      && e.state.reviews == fetchReply.value
      && e.state.reviewForm == ReviewForm(st.reviewForm.inquilinoId, DefaultRating, "")
      && e.state == st.(reviews := fetchReply.value, reviewForm := e.state.reviewForm)
  {
    if Trim(st.reviewForm.comentario) == "" then
      Effect(st, [])
    else
      var f := st.reviewForm;
      match createReply
      case Failed => Effect(st.(error := Some(ReviewError)), [CreateReview(id, f)])
      case Ok(_) =>
        match fetchReply
        case Failed => Effect(st.(error := Some(ReviewError)), [CreateReview(id, f), FetchReviews(id)])
        case Ok(revs) =>
          Effect(st.(reviews := revs, reviewForm := f.(comentario := "", calificacion := DefaultRating)),
                 [CreateReview(id, f), FetchReviews(id)])
  }

  /** Every review the view sends carries a rating of one to five stars:
      the form starts at five, and star clicks, comment edits and submits
      keep the rating in range. */
  lemma RatingStaysInRange(st: DetailState, id: string, i: int, text: string,
                           createReply: Reply<()>, fetchReply: Reply<seq<Review>>)
    requires RatingInRange(st.reviewForm)
    requires 0 <= i < StarCount
    ensures RatingInRange(InitialReviewForm)
    ensures RatingInRange(StarClick(st.reviewForm, i))
    ensures RatingInRange(EditComment(st.reviewForm, text))
    ensures RatingInRange(SubmitReview(st, id, createReply, fetchReply).state.reviewForm)
    ensures forall k :: 0 <= k < |SubmitReview(st, id, createReply, fetchReply).calls| ==>
      (SubmitReview(st, id, createReply, fetchReply).calls[k].CreateReview? ==>
         RatingInRange(SubmitReview(st, id, createReply, fetchReply).calls[k].review))
  {
  }
}
