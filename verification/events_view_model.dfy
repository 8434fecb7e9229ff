/** `EventsViewModel`: loading the four lists, saving and deleting an event, and
    the upcoming-event reminder. Each coroutine is modelled as one transition to
    the state it leaves behind. */
module EventsViewModel {
  import opened Wrappers
  import opened Model
  import opened Remote
  import Repo = EventRepository

  /** `EventsUiState`. */
  datatype EventsUiState = EventsUiState(
    loading: bool,
    error: Option<string>,
    publicEvents: seq<Event>,
    publicPastEvents: seq<Event>,
    myEvents: seq<Event>,
    myPastEvents: seq<Event>)

  const InitialEventsState := EventsUiState(false, None, [], [], [], [])

  /** The error shown when a failed load carries no message. */
  const LoadEventsError := "Error al cargar los eventos"

  /** The remote calls of `load`, in order. `listMine` and `listMyPast` return
      before touching the store when nobody is signed in. */
  function LoadCalls(user: Option<User>): seq<Call> {
    [PublicUpcomingQuery, PublicPastQuery] + (if user.Some? then [MineQuery, MyPastQuery] else [])
  }

  /** `load`: all four lists or none. On success every list is replaced and the
      error cleared; if any query throws, the lists keep their previous values
      and the error is the exception's message. Either way loading ends. */
  function Load(st: EventsUiState, s: Store, user: Option<User>, now: int, faults: Faults): (r: EventsUiState)
    ensures !r.loading
    ensures r.error.None? <==> forall c :: c in LoadCalls(user) ==> c !in faults
    ensures r.error.None? ==>
      && r.publicEvents == Repo.ListPublicUpcoming(s, now)
      && r.publicPastEvents == Repo.ListPublicPast(s, now)
      && r.myEvents == Repo.ListMine(s, user)
      && r.myPastEvents == Repo.ListMyPast(s, user, now)
    ensures r.error.Some? ==>
      && FirstFault(faults, LoadCalls(user)).Thrown?
      && r.error == Some(FirstFault(faults, LoadCalls(user)).message.GetOr(LoadEventsError))
    ensures r.error.Some? ==>
      && r.publicEvents == st.publicEvents && r.publicPastEvents == st.publicPastEvents
      && r.myEvents == st.myEvents && r.myPastEvents == st.myPastEvents
  {
    var started := st.(loading := true, error := None);
    match FirstFault(faults, LoadCalls(user))
    case Thrown(m) =>
      started.(loading := false, error := Some(m.GetOr(LoadEventsError)))
    case Completed =>
      started.(
        loading := false,
        publicEvents := Repo.ListPublicUpcoming(s, now),
        publicPastEvents := Repo.ListPublicPast(s, now),
        myEvents := Repo.ListMine(s, user),
        myPastEvents := Repo.ListMyPast(s, user, now))
  }

  /** After a successful load the two public lists share no event, and the
      caller's lists hold only the caller's events. */
  lemma LoadedListsConsistent(st: EventsUiState, s: Store, user: Option<User>, now: int, faults: Faults, e: Event)
    requires Load(st, s, user, now, faults).error.None?
    ensures var r := Load(st, s, user, now, faults);
      && !(e in r.publicEvents && e in r.publicPastEvents)
      && (e in r.myEvents || e in r.myPastEvents ==> user.Some? && e.creatorId == user.value.uid)
      && (e in r.myPastEvents ==> e.endTime < now)
  {
  }

  /** Which callback a save or delete ends with. */
  datatype Callback = OnDone | OnError(message: Option<string>)

  /** The record `save` builds from the form: every other field keeps `Event`'s
      default (`creatorId` empty, no `createdAt`, no `updatedAt`). */
  function FormEvent(id: Option<string>, title: string, description: string, location: string,
                     start: int, end: int, isPublic: bool, tags: seq<string>): Event {
    Event(id, title, description, location, start, end, isPublic, tags, "", None, None)
  }

  /** `save`: upserts the form's record, then reloads the lists and calls
      `onDone`. If the upsert throws (no user, or the store refuses) `onError`
      runs instead, and neither the store nor the lists change. */
  function Save(st: EventsUiState, s: Store, user: Option<User>, id: Option<string>, title: string,
                description: string, location: string, start: int, end: int, isPublic: bool,
                tags: seq<string>, now: int, faults: Faults): (r: (Store, EventsUiState, Callback))
    ensures var ev := FormEvent(id, title, description, location, start, end, isPublic, tags);
      var upsert := Repo.Upsert(s, user, ev, now);
      && (r.2 == OnDone <==> user.Some? && UpsertCall !in faults)
      && (r.2 == OnDone ==> r.0 == upsert.value.0 && r.1 == Load(st, r.0, user, now, faults))
      && (r.2.OnError? ==> r.0 == s && r.1 == st)
      && (user.None? ==> r.2 == OnError(Some(Repo.NotAuthenticated)))
  {
    var ev := FormEvent(id, title, description, location, start, end, isPublic, tags);
    match Repo.Upsert(s, user, ev, now)
    case Failure(msg) => (s, st, OnError(Some(msg)))
    case Success((s', _)) =>
      if UpsertCall in faults then (s, st, OnError(faults[UpsertCall]))
      else (s', Load(st, s', user, now, faults), OnDone)
  }

  /** Saving an existing event from the form always stamps `createdAt` with the
      save instant: the form never passes the stored `createdAt` back, so the
      original creation time is lost on every edit. */
  lemma SaveResetsCreatedAt(st: EventsUiState, s: Store, u: User, id: string, title: string,
                            description: string, location: string, start: int, end: int,
                            isPublic: bool, tags: seq<string>, now: int, faults: Faults)
    requires UpsertCall !in faults
    ensures var r := Save(st, s, Some(u), Some(id), title, description, location, start, end,
                          isPublic, tags, now, faults);
      && r.2 == OnDone
      && Repo.GetById(r.0, id).Some?
      && Repo.GetById(r.0, id).value.createdAt == Some(now)
      && Repo.GetById(r.0, id).value.creatorId == u.uid
  {
  }

  /** `delete`: deletes the record, then reloads the lists and calls `onDone`;
      if the delete throws, only `onError` runs. */
  function Delete(st: EventsUiState, s: Store, user: Option<User>, id: string, now: int, faults: Faults)
    : (r: (Store, EventsUiState, Callback))
    ensures r.2 == OnDone <==> DeleteCall !in faults
    ensures r.2 == OnDone ==> r.0 == Repo.Delete(s, id) && r.1 == Load(st, r.0, user, now, faults)
    ensures r.2.OnError? ==> r.0 == s && r.1 == st
  {
    if DeleteCall in faults then (s, st, OnError(faults[DeleteCall]))
    else
      var s' := Repo.Delete(s, id);
      (s', Load(st, s', user, now, faults), OnDone)
  }

  // ---------------  Notifications --------------------

  /** Kotlin's `Long` division by `MillisPerHour`: whole hours, truncated toward zero. */
  function WholeHours(millis: int): (h: int)
    ensures millis >= 0 ==> 0 <= h * MillisPerHour <= millis < h * MillisPerHour + MillisPerHour
    ensures millis < 0 ==> h * MillisPerHour - MillisPerHour < millis <= h * MillisPerHour <= 0
  {
    if millis >= 0 then millis / MillisPerHour else -((-millis) / MillisPerHour)
  }

  /** `checkUpcomingNotification`: whole hours until the start lie in 1..24. */
  function CheckUpcomingNotification(startTime: int, now: int): bool {
    var hours := WholeHours(startTime - now);
    1 <= hours <= 24
  }

  /** The reminder is due exactly when the start is at least one hour and less
      than twenty-five hours away. */
  lemma ReminderWindow(startTime: int, now: int)
    ensures CheckUpcomingNotification(startTime, now)
        <==> MillisPerHour <= startTime - now < 25 * MillisPerHour
  {
    var diff := startTime - now;
    var hours := WholeHours(diff);
    if diff < 0 {
      assert hours <= 0;
    } else {
      assert hours == diff / MillisPerHour;
    }
  }
}
