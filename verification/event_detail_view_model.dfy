/** `EventDetailViewModel`: loading one event with its attendance and reviews,
    toggling the caller's attendance, and adding a review. */
module EventDetailViewModel {
  import opened Wrappers
  import opened Model
  import opened Remote
  import Repo = EventRepository

  /** The average rating as an exact fraction `total / count` with `count > 0`,
      in place of the `Double` the screen formats. */
  datatype Mean = Mean(total: int, count: nat)

  /** `EventDetailUiState`. */
  datatype DetailUiState = DetailUiState(
    loading: bool,
    error: Option<string>,
    event: Option<Event>,
    isOwner: bool,
    attendees: nat,
    attending: bool,
    comments: seq<Comment>,
    averageRating: Option<Mean>,
    ratingsCount: nat)

  const InitialDetailState := DetailUiState(false, None, None, false, 0, false, [], None, 0)

  const EventNotFound := "Evento no encontrado"
  const LoadEventError := "Error al cargar el evento"

  /** The sum of the ratings. */
  function SumRatings(cs: seq<Comment>): int {
    if |cs| == 0 then 0 else cs[0].rating + SumRatings(cs[1..])
  }

  /** `comments.map { it.rating }.average()`, with the NaN of an empty list
      turned into `None`. */
  function Average(cs: seq<Comment>): (r: Option<Mean>)
    ensures r.None? <==> |cs| == 0
    ensures r.Some? ==> r.value.count == |cs| > 0
  {
    if |cs| == 0 then None else Some(Mean(SumRatings(cs), |cs|))
  }

  /** When every rating lies in `lo..hi`, so does the average. */
  lemma {:induction false} AverageWithin(cs: seq<Comment>, lo: int, hi: int)
    requires forall i :: 0 <= i < |cs| ==> lo <= cs[i].rating <= hi
    ensures lo * |cs| <= SumRatings(cs) <= hi * |cs|
  {
    if |cs| > 0 {
      AverageWithin(cs[1..], lo, hi);
    }
  }

  /** Reordering the comments does not change the sum of the ratings. */
  lemma {:induction false} SumRatingsPermutation(a: seq<Comment>, b: seq<Comment>)
    requires multiset(a) == multiset(b)
    ensures SumRatings(a) == SumRatings(b)
    decreases |a|
  {
    if |a| == 0 {
      assert |b| == |multiset(b)| == 0;
    } else {
      assert a[0] in multiset(b);
      var j :| 0 <= j < |b| && b[j] == a[0];
      var b' := b[..j] + b[j + 1..];
      SumRatingsRemove(b, j);
      MultisetRemoveFirst(a, b, j);
      SumRatingsPermutation(a[1..], b');
    }
  }

  /** Removing the first element of `a` and an equal element of `b` keeps two
      permutations permutations of each other. */
  lemma MultisetRemoveFirst<T>(a: seq<T>, b: seq<T>, j: int)
    requires multiset(a) == multiset(b) && |a| > 0 && 0 <= j < |b| && b[j] == a[0]
    ensures multiset(a[1..]) == multiset(b[..j] + b[j + 1..])
  {
    assert b == b[..j] + [b[j]] + b[j + 1..];
    assert a == [a[0]] + a[1..];
    assert multiset(a[1..]) == multiset(a) - multiset{a[0]};
  }

  /** Taking one comment out lowers the sum by its rating. */
  lemma SumRatingsRemove(b: seq<Comment>, j: int)
    requires 0 <= j < |b|
    ensures SumRatings(b) == b[j].rating + SumRatings(b[..j] + b[j + 1..])
  {
    SplitAround(b, j);
    SumRatingsMiddle(b[..j], b[j], b[j + 1..]);
  }

  lemma SplitAround<T>(b: seq<T>, j: int)
    requires 0 <= j < |b|
    ensures b == b[..j] + ([b[j]] + b[j + 1..])
  {
  }

  lemma SumRatingsMiddle(pre: seq<Comment>, c: Comment, post: seq<Comment>)
    ensures SumRatings(pre + ([c] + post)) == c.rating + SumRatings(pre + post)
  {
    SumRatingsSplit(pre, [c] + post);
    SumRatingsCons(c, post);
    SumRatingsSplit(pre, post);
  }

  lemma SumRatingsCons(c: Comment, cs: seq<Comment>)
    ensures SumRatings([c] + cs) == c.rating + SumRatings(cs)
  {
    assert ([c] + cs)[1..] == cs;
  }

  lemma {:induction false} SumRatingsSplit(a: seq<Comment>, b: seq<Comment>)
    ensures SumRatings(a + b) == SumRatings(a) + SumRatings(b)
  {
    if |a| > 0 {
      assert (a + b)[1..] == a[1..] + b;
      SumRatingsSplit(a[1..], b);
    } else {
      assert a + b == b;
    }
  }

  /** The three reviews rated 5, 3 and 4 average to exactly 4. */
  lemma AverageExample(c1: Comment, c2: Comment, c3: Comment)
    requires c1.rating == 5 && c2.rating == 3 && c3.rating == 4
    ensures Average([c1, c2, c3]) == Some(Mean(12, 3))
  {
    assert [c1, c2, c3][1..] == [c2, c3];
    assert [c2, c3][1..] == [c3];
    assert [c3][1..] == [];
    assert SumRatings([c3]) == 4;
    assert SumRatings([c2, c3]) == 7;
  }

  /** The state a failed `load` leaves: loading over, the message (or a default)
      as error, everything else as before. */
  function LoadFailed(st: DetailUiState, message: Option<string>): (r: DetailUiState)
    ensures !r.loading && r.event == st.event && r.error == Some(message.GetOr(LoadEventError))
    ensures SameLoadedData(r, st)
  {
    st.(loading := false, error := Some(message.GetOr(LoadEventError)))
  }

  /** The fields a failed `load` leaves alone: the owner flag, the attendance
      and the reviews. */
  predicate SameLoadedData(a: DetailUiState, b: DetailUiState) {
    && a.isOwner == b.isOwner && a.attendees == b.attendees && a.attending == b.attending
    && a.comments == b.comments && a.averageRating == b.averageRating && a.ratingsCount == b.ratingsCount
  }

  /** The remote calls `load` makes after finding the event. `isAttending`
      answers false without a call when nobody is signed in. */
  function DetailCalls(user: Option<User>): seq<Call> {
    [CountCall] + (if user.Some? then [IsAttendingCall] else []) + [ListCommentsCall]
  }

  /** `load`: reads the event, then its attendance and its comments. A missing
      event ends with "Evento no encontrado"; a thrown exception ends with its
      message; on success every field is set from the store, with `isOwner`
      true exactly for the signed-in creator. Loading always ends. */
  function Load(st: DetailUiState, s: Store, user: Option<User>, eventId: string, faults: Faults)
    : (r: DetailUiState)
    ensures !r.loading
    ensures r.error.None? <==>
      && GetByIdCall !in faults && Repo.GetById(s, eventId).Some?
      && forall c :: c in DetailCalls(user) ==> c !in faults
    ensures GetByIdCall !in faults && Repo.GetById(s, eventId).None? ==>
      r.event.None? && r.error == Some(EventNotFound)
    ensures r.error.Some? ==> SameLoadedData(r, st)
    ensures r.error.Some? ==> r.event == st.event || (r.event.None? && r.error == Some(EventNotFound))
    ensures GetByIdCall in faults ==>
      r.event == st.event && r.error == Some(faults[GetByIdCall].GetOr(LoadEventError))
    ensures GetByIdCall !in faults && Repo.GetById(s, eventId).Some? && FirstFault(faults, DetailCalls(user)).Thrown? ==>
      r.event == st.event && r.error == Some(FirstFault(faults, DetailCalls(user)).message.GetOr(LoadEventError))
    ensures r.error.None? ==>
      && r.event == Repo.GetById(s, eventId)
      && (r.isOwner <==> user.Some? && user.value.uid == r.event.value.creatorId)
      && r.attendees == Repo.AttendeesCount(s, eventId)
      && r.attending == Repo.IsAttending(s, user, eventId)
      && r.comments == Repo.ListComments(s, eventId)
      && r.ratingsCount == |r.comments|
      && (r.averageRating.None? <==> |r.comments| == 0)
      && (r.averageRating.Some? ==> r.averageRating == Some(Mean(SumRatings(r.comments), |r.comments|)))
  {
    var started := st.(loading := true, error := None);
    if GetByIdCall in faults then LoadFailed(started, faults[GetByIdCall])
    else
      match Repo.GetById(s, eventId)
      case None => started.(loading := false, event := None, error := Some(EventNotFound))
      case Some(ev) => LoadFound(started, s, user, eventId, ev, faults)
  }

  /** The rest of `load` once the event is found: the attendance and comment
      reads either all complete, or the first that throws ends the load. */
  function LoadFound(st: DetailUiState, s: Store, user: Option<User>, eventId: string, ev: Event,
                     faults: Faults): (r: DetailUiState)
    ensures FirstFault(faults, DetailCalls(user)).Thrown? ==>
      r == LoadFailed(st, FirstFault(faults, DetailCalls(user)).message)
    ensures FirstFault(faults, DetailCalls(user)).Completed? ==> r == Loaded(st, s, user, eventId, ev)
  {
    match FirstFault(faults, DetailCalls(user))
    case Thrown(m) => LoadFailed(st, m)
    case Completed => Loaded(st, s, user, eventId, ev)
  }

  /** The state a successful `load` of `ev` sets. */
  function Loaded(st: DetailUiState, s: Store, user: Option<User>, eventId: string, ev: Event)
    : (r: DetailUiState)
    ensures !r.loading && r.error.None? && r.event == Some(ev)
    ensures r.isOwner <==> user.Some? && user.value.uid == ev.creatorId
    ensures r.attendees == Repo.AttendeesCount(s, eventId)
    ensures r.attending == Repo.IsAttending(s, user, eventId)
    ensures r.comments == Repo.ListComments(s, eventId)
    ensures r.ratingsCount == |r.comments|
    ensures r.averageRating.None? <==> |r.comments| == 0
    ensures r.averageRating.Some? ==> r.averageRating == Some(Mean(SumRatings(r.comments), |r.comments|))
  {
    var cs := Repo.ListComments(s, eventId);
    st.(
      loading := false,
      event := Some(ev),
      isOwner := user.Some? && user.value.uid == ev.creatorId,
      attendees := Repo.AttendeesCount(s, eventId),
      attending := Repo.IsAttending(s, user, eventId),
      comments := cs,
      averageRating := Average(cs),
      ratingsCount := |cs|,
      error := None)
  }

  /** The loaded average is the mean of the stored ratings, whatever their order. */
  lemma LoadedAverage(st: DetailUiState, s: Store, user: Option<User>, eventId: string, faults: Faults)
    requires Load(st, s, user, eventId, faults).error.None?
    requires |Repo.Comments(s, eventId)| > 0
    ensures Load(st, s, user, eventId, faults).averageRating
         == Some(Mean(SumRatings(Repo.Comments(s, eventId)), |Repo.Comments(s, eventId)|))
  {
    var cs := Repo.ListComments(s, eventId);
    SumRatingsPermutation(cs, Repo.Comments(s, eventId));
    assert |cs| == |multiset(cs)| == |Repo.Comments(s, eventId)|;
  }

  /** The write `toggleAttend` issues: leave when the state says attending,
      join otherwise. Returns the store after it and whether it threw. */
  function ToggleWrite(attendingNow: bool, s: Store, user: Option<User>, eventId: string, faults: Faults)
    : (r: (Store, Outcome))
    ensures r.1.Thrown? ==> r.0 == s
    ensures user.None? ==> r == (s, Completed)
    ensures user.Some? ==> (r.1.Thrown? <==> (if attendingNow then UnAttendCall else AttendCall) in faults)
    ensures user.Some? && r.1.Completed? ==>
      && Repo.IsAttending(r.0, user, eventId) == !attendingNow
      && Repo.Attendees(r.0, eventId) ==
           (if attendingNow then Repo.Attendees(s, eventId) - {user.value.uid}
            else Repo.Attendees(s, eventId) + {user.value.uid})
    ensures forall other :: other != eventId ==> Repo.Attendees(r.0, other) == Repo.Attendees(s, other)
    ensures r.0.events == s.events && r.0.comments == s.comments
  {
    if user.None? then (s, Completed)
    else if attendingNow then
      if UnAttendCall in faults then (s, Thrown(faults[UnAttendCall])) else (Repo.UnAttend(s, user, eventId), Completed)
    else
      if AttendCall in faults then (s, Thrown(faults[AttendCall])) else (Repo.Attend(s, user, eventId), Completed)
  }

  /** The reads after the write: the count, then (for a signed-in user) the
      caller's attendance. */
  function RefreshCalls(user: Option<User>): seq<Call> {
    [CountCall] + (if user.Some? then [IsAttendingCall] else [])
  }

  /** `toggleAttend`: leaves or joins according to `state.attending`, then
      rereads the count and the caller's attendance. A thrown exception sets
      `error` to its message and leaves every other field as it was (the write,
      if it happened, stays in the store). */
  function ToggleAttend(st: DetailUiState, s: Store, user: Option<User>, eventId: string, faults: Faults)
    : (r: (Store, DetailUiState))
    ensures r.0.events == s.events && r.0.comments == s.comments
    ensures r.1.(attending := st.attending, attendees := st.attendees, error := st.error) == st
    ensures r.0 == ToggleWrite(st.attending, s, user, eventId, faults).0
    ensures ToggleWrite(st.attending, s, user, eventId, faults).1.Thrown? ==>
      r.1 == st.(error := ToggleWrite(st.attending, s, user, eventId, faults).1.message)
    ensures ToggleWrite(st.attending, s, user, eventId, faults).1.Completed? ==>
      match FirstFault(faults, RefreshCalls(user))
      case Thrown(m) => r.1 == st.(error := m)
      case Completed =>
        && r.1.attending == Repo.IsAttending(r.0, user, eventId)
        && r.1.attendees == Repo.AttendeesCount(r.0, eventId)
        && r.1.error == st.error
    ensures user.Some? && (forall c :: c in ToggleCalls(st.attending) ==> c !in faults) ==>
      r.1.attending == !st.attending
  {
    var (s1, w) := ToggleWrite(st.attending, s, user, eventId, faults);
    if w.Thrown? then (s1, st.(error := w.message))
    else
      match FirstFault(faults, RefreshCalls(user))
      case Thrown(m) => (s1, st.(error := m))
      case Completed =>
        (s1, st.(attending := Repo.IsAttending(s1, user, eventId), attendees := Repo.AttendeesCount(s1, eventId)))
  }

  /** The calls of a toggle by a signed-in user. */
  function ToggleCalls(attendingNow: bool): seq<Call> {
    [if attendingNow then UnAttendCall else AttendCall, CountCall, IsAttendingCall]
  }

  /** When the state agrees with the store and nothing throws, a signed-in
      user's toggle flips `attending` and moves `attendees` by exactly one. */
  lemma ToggleFlips(st: DetailUiState, s: Store, u: User, eventId: string, faults: Faults)
    requires st.attending == Repo.IsAttending(s, Some(u), eventId)
    requires st.attendees == Repo.AttendeesCount(s, eventId)
    requires forall c :: c in ToggleCalls(st.attending) ==> c !in faults
    ensures var r := ToggleAttend(st, s, Some(u), eventId, faults).1;
      && r.attending == !st.attending
      && r.attendees == (if st.attending then st.attendees - 1 else st.attendees + 1)
      && r.error == st.error
  {
    assert forall c :: c in RefreshCalls(Some(u)) ==> c in ToggleCalls(st.attending);
    if st.attending {
      Repo.UnAttendCount(s, u, eventId);
    } else {
      Repo.AttendCount(s, u, eventId);
    }
  }

  /** `addComment`: writes the review, then rereads the comments and refreshes
      the average and the count. A thrown exception (including the one for a
      missing user) sets `error` to its message and changes no other field. */
  function AddComment(st: DetailUiState, s: Store, user: Option<User>, eventId: string, text: string,
                      rating: int, now: int, faults: Faults): (r: (Store, DetailUiState))
    ensures r.1.(comments := st.comments, averageRating := st.averageRating,
                 ratingsCount := st.ratingsCount, error := st.error) == st
    ensures user.None? ==> r == (s, st.(error := Some(Repo.NotAuthenticated)))
    ensures user.Some? && AddCommentCall in faults ==> r == (s, st.(error := faults[AddCommentCall]))
    ensures user.Some? && AddCommentCall !in faults ==>
      && r.0 == Repo.AddComment(s, user, eventId, text, rating, now).value
      && (ListCommentsCall in faults ==> r.1 == st.(error := faults[ListCommentsCall]))
      && (ListCommentsCall !in faults ==>
            && r.1.comments == Repo.ListComments(r.0, eventId)
            && r.1.ratingsCount == |r.1.comments| > 0
            && r.1.averageRating == Some(Mean(SumRatings(r.1.comments), |r.1.comments|))
            && r.1.error == st.error)
  {
    match Repo.AddComment(s, user, eventId, text, rating, now)
    case Failure(msg) => (s, st.(error := Some(msg)))
    case Success(s1) =>
      if AddCommentCall in faults then (s, st.(error := faults[AddCommentCall]))
      else if ListCommentsCall in faults then (s1, st.(error := faults[ListCommentsCall]))
      else
        var cs := Repo.ListComments(s1, eventId);
        Repo.AddCommentListed(s, user.value, eventId, text, rating, now);
        assert |cs| == |multiset(cs)| > 0;
        (s1, st.(comments := cs, averageRating := Average(cs), ratingsCount := |cs|))
  }
}
