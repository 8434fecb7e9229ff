/** `EventDetailScreen`: what the detail screen shows for a detail state, when
    it offers the review form, and what its buttons send to the view-model. */
module EventDetailScreen {
  import opened Wrappers
  import opened Text
  import opened Model
  import opened Remote
  import Repo = EventRepository
  import DVM = EventDetailViewModel

  // ------------------------------------------------------------------
  // Error text and the body branches
  // ------------------------------------------------------------------

  /** The error code the store puts in a refused read's message. */
  const PermissionDeniedCode := "PERMISSION_DENIED"

  /** The friendly sentence shown for a refused read: "Este evento ya no está
      disponible o no tienes permiso para verlo." */
  const PermissionMessage := "Este evento ya no " + "está disponible " + "o no tienes " + "permiso para verlo."

  /** The message shown for an error: a permission refusal is replaced by a
      friendly sentence that no longer mentions the code; any other message is
      shown as it is. */
  function FriendlyError(error: string): (r: string)
    ensures !Contains(r, PermissionDeniedCode)
    ensures Contains(error, PermissionDeniedCode) ==> r == PermissionMessage
    ensures !Contains(error, PermissionDeniedCode) ==> r == error
  {
    if Contains(error, PermissionDeniedCode) then
      assert PermissionDeniedCode[10] == '_';
      assert '_' !in "Este evento ya no " && '_' !in "está disponible ";
      assert '_' !in "o no tienes " && '_' !in "permiso para verlo.";
      MissingCharNotContained(PermissionMessage, PermissionDeniedCode, '_');
      PermissionMessage
    else error
  }

  /** The body of the screen: a spinner, an error text, the not-found text or
      the event's details. */
  datatype Body = Spinner | ErrorText(message: string) | NotFoundText | Details(event: Event)

  /** The `when` over the state, first matching branch wins. */
  function Render(st: DVM.DetailUiState): (b: Body)
    ensures b.Spinner? <==> st.loading
    ensures b.ErrorText? <==> !st.loading && st.error.Some?
    ensures b.ErrorText? ==> b.message == FriendlyError(st.error.value)
    ensures b.NotFoundText? <==> !st.loading && st.error.None? && st.event.None?
    ensures b.Details? ==> b.event == st.event.value
  {
    if st.loading then Spinner
    else if st.error.Some? then ErrorText(FriendlyError(st.error.value))
    else if st.event.None? then NotFoundText
    else Details(st.event.value)
  }

  /** After a load the screen shows the details exactly when the load
      succeeded, and then the event read from the store. The spinner and the
      separate not-found branch are never reached: a missing event arrives as
      the error "Evento no encontrado" and is shown as such, and a read the
      store refuses shows the friendly sentence. */
  lemma RenderAfterLoad(st: DVM.DetailUiState, s: Store, user: Option<User>, eventId: string, faults: Faults)
    ensures var r := DVM.Load(st, s, user, eventId, faults);
      && !Render(r).Spinner? && !Render(r).NotFoundText?
      && (Render(r).Details? <==>
            && GetByIdCall !in faults && Repo.GetById(s, eventId).Some?
            && forall c :: c in DVM.DetailCalls(user) ==> c !in faults)
      && (Render(r).Details? ==> Render(r).event == Repo.GetById(s, eventId).value)
      && (GetByIdCall !in faults && Repo.GetById(s, eventId).None? ==>
            Render(r) == ErrorText(DVM.EventNotFound))
      && (GetByIdCall in faults && faults[GetByIdCall].Some?
          && Contains(faults[GetByIdCall].value, PermissionDeniedCode) ==>
            Render(r) == ErrorText(PermissionMessage))
  {
    var r := DVM.Load(st, s, user, eventId, faults);
    if GetByIdCall !in faults && Repo.GetById(s, eventId).None? {
      assert '_' !in DVM.EventNotFound;
      MissingCharNotContained(DVM.EventNotFound, PermissionDeniedCode, '_');
    }
  }

  // ------------------------------------------------------------------
  // Top bar and review summary
  // ------------------------------------------------------------------

  /** The "Editar" action: for the owner, once the event has an id. */
  predicate ShowEdit(st: DVM.DetailUiState) {
    st.isOwner && st.event.Some? && st.event.value.id.Some?
  }

  /** The rating summary: shown when there are reviews and an average. */
  predicate ShowSummary(st: DVM.DetailUiState) {
    st.ratingsCount > 0 && st.averageRating.Some?
  }

  /** After a successful load, "Editar" is offered exactly to the signed-in
      creator. */
  lemma LoadedShowsEdit(st: DVM.DetailUiState, s: Store, user: Option<User>, eventId: string, faults: Faults)
    requires DVM.Load(st, s, user, eventId, faults).error.None?
    ensures ShowEdit(DVM.Load(st, s, user, eventId, faults))
        <==> user.Some? && user.value.uid == Repo.GetById(s, eventId).value.creatorId
  {
  }

  /** After a successful load, the rating summary appears exactly when the
      event has reviews. */
  lemma LoadedShowsSummary(st: DVM.DetailUiState, s: Store, user: Option<User>, eventId: string, faults: Faults)
    requires DVM.Load(st, s, user, eventId, faults).error.None?
    ensures ShowSummary(DVM.Load(st, s, user, eventId, faults)) <==> |Repo.Comments(s, eventId)| > 0
  {
    var cs := Repo.ListComments(s, eventId);
    assert |cs| == |multiset(cs)| == |Repo.Comments(s, eventId)|;
  }

  // ------------------------------------------------------------------
  // Past events and the review form
  // ------------------------------------------------------------------

  /** `isPast`, evaluated at the instant `seenAt` the details were first shown. */
  predicate IsPast(e: Event, seenAt: int) {
    e.endTime < seenAt
  }

  /** The screen's notion of a past event agrees with the event lists: an event
      of the public past list is past, one of the upcoming list is not. */
  lemma PastMatchesLists(s: Store, now: int, e: Event)
    ensures e in Repo.ListPublicPast(s, now) ==> IsPast(e, now)
    ensures e in Repo.ListPublicUpcoming(s, now) ==> !IsPast(e, now)
    ensures e in Repo.ListMyPast(s, Some(User(e.creatorId, None, None)), now) ==> IsPast(e, now)
  {
  }

  /** The review form is offered for a past event the caller attends. */
  predicate CanComment(st: DVM.DetailUiState, e: Event, seenAt: int) {
    IsPast(e, seenAt) && st.attending
  }

  /** The text field and the selected rating chip. */
  datatype ReviewForm = ReviewForm(text: string, rating: int)

  /** The chips offer the ratings one to five. */
  predicate IsRatingChoice(v: int) {
    1 <= v <= 5
  }

  const DefaultRating := 5

  /** An empty text with five stars selected. */
  const InitialReview := ReviewForm("", DefaultRating)

  /** Tapping the chip of `v`. */
  function SelectRating(f: ReviewForm, v: int): (r: ReviewForm)
    requires IsRatingChoice(v)
    ensures r.text == f.text && r.rating == v
  {
    f.(rating := v)
  }

  /** The send button is enabled for a non-blank text. */
  predicate SubmitEnabled(f: ReviewForm) {
    !IsBlank(f.text)
  }

  /** The review heading, chips, field and button: drawn inside the details
      branch of the body, for a past event the caller attends. */
  predicate ReviewFormShown(st: DVM.DetailUiState, seenAt: int) {
    Render(st).Details? && CanComment(st, Render(st).event, seenAt)
  }

  /** The send button. It exists only while the review form is shown (with
      the spinner or an error on screen, or for an event not yet over or not
      attended, there is no field and no button), and it is enabled for a
      non-blank text; pressing it adds the trimmed text with the selected
      rating to the shown event, then clears the text and keeps the rating.
      The event shown has an id, as every event read from the store does. */
  function SubmitReview(f: ReviewForm, st: DVM.DetailUiState, s: Store, user: Option<User>,
                        now: int, seenAt: int, faults: Faults): (r: (ReviewForm, Store, DVM.DetailUiState))
    requires st.event.Some? && st.event.value.id.Some?
    ensures !ReviewFormShown(st, seenAt) || !SubmitEnabled(f) ==> r == (f, s, st)
    ensures ReviewFormShown(st, seenAt) && SubmitEnabled(f) ==>
      && r.0 == ReviewForm("", f.rating)
      && (r.1, r.2) == DVM.AddComment(st, s, user, st.event.value.id.value, Trim(f.text), f.rating, now, faults)
  {
    if !ReviewFormShown(st, seenAt) || !SubmitEnabled(f) then (f, s, st)
    else
      var (s', st') := DVM.AddComment(st, s, user, st.event.value.id.value, Trim(f.text), f.rating, now, faults);
      (f.(text := ""), s', st')
  }

  /** What the store holds after a review sent from the screen: although the
      store itself checks nothing, a review reaches the store exactly when the
      details are on screen (not loading, no error), the event had ended when
      first shown, the caller attends it and the text is not blank; it is then appended to the shown event's comments with a
      rating from the chips and a non-empty text without surrounding
      whitespace. */
  lemma ScreenReviewIsValid(f: ReviewForm, st: DVM.DetailUiState, s: Store, u: User, now: int,
                            seenAt: int, faults: Faults)
    requires st.event.Some? && st.event.value.id.Some?
    requires IsRatingChoice(f.rating)
    requires AddCommentCall !in faults
    ensures var id := st.event.value.id.value;
      var s' := SubmitReview(f, st, s, Some(u), now, seenAt, faults).1;
      var before := Repo.CommentDocs(s, id);
      var after := Repo.CommentDocs(s', id);
      && (after == before <==>
            !(!st.loading && st.error.None? && IsPast(st.event.value, seenAt) && st.attending && SubmitEnabled(f)))
      && (after != before ==>
            && |after| == |before| + 1
            && after[..|before|] == before
            && IsRatingChoice(after[|before|].data.rating)
            && after[|before|].data.text == Trim(f.text)
            && |after[|before|].data.text| > 0
            && !IsWhitespace(after[|before|].data.text[0])
            && after[|before|].data.userId == u.uid)
  {
  }
}
