/** `EventRepository`: the list queries, the event writes, attendance and
    comments, over the abstract store. The caller's identity is an explicit
    `Option<User>` and the current instant an explicit `now`. */
module EventRepository {
  import opened Wrappers
  import opened Listing
  import opened Collection
  import opened Model

  /** The default `limit` of each list query. */
  const PublicUpcomingLimit: nat := 50
  const MineLimit: nat := 100
  const PublicPastLimit: nat := 50
  const MyPastLimit: nat := 50

  /** The message of the exception thrown when no user is signed in. */
  const NotAuthenticated := "No autenticado"

  /** The name a comment is signed with when the profile has neither a display
      name nor an email. */
  const AnonymousName := "Anónimo"

  /** A document read as an `Event`: the data with `id` set to the document id. */
  function ReadEvent(d: Doc<Event>): Event {
    d.data.(id := Some(d.key))
  }

  /** Every event of the store, as a read returns it, in storage order. */
  function Events(s: Store): (r: seq<Event>)
    ensures |r| == |s.events|
    ensures forall i :: 0 <= i < |r| ==> r[i] == ReadEvent(s.events[i])
  {
    seq(|s.events|, i requires 0 <= i < |s.events| => ReadEvent(s.events[i]))
  }

  // ------------------------------------------------------------------
  // Event lists
  // ------------------------------------------------------------------

  /** `listPublicUpcoming`: public events that have not ended yet, soonest end first. */
  function ListPublicUpcoming(s: Store, now: int, limit: nat := PublicUpcomingLimit): (r: seq<Event>)
    ensures forall e :: e in r ==> e in Events(s) && e.isPublic && e.endTime > now
    ensures multiset(r) <= multiset(Events(s))
    ensures Sorted(r, EndTimeOf, Ascending)
    ensures |r| <= limit
  {
    Query(Events(s), (e: Event) => e.isPublic && e.endTime > now, EndTimeOf, Ascending, limit)
  }

  /** `listMine`: the caller's events, latest start first; empty when signed out. */
  function ListMine(s: Store, user: Option<User>, limit: nat := MineLimit): (r: seq<Event>)
    ensures user.None? ==> r == []
    ensures forall e :: e in r ==> e in Events(s) && user.Some? && e.creatorId == user.value.uid
    ensures multiset(r) <= multiset(Events(s))
    ensures Sorted(r, StartTimeOf, Descending)
    ensures |r| <= limit
  {
    match user
    case None => []
    case Some(u) => Query(Events(s), (e: Event) => e.creatorId == u.uid, StartTimeOf, Descending, limit)
  }

  /** `listPublicPast`: public events that have already ended, latest end first. */
  function ListPublicPast(s: Store, now: int, limit: nat := PublicPastLimit): (r: seq<Event>)
    ensures forall e :: e in r ==> e in Events(s) && e.isPublic && e.endTime < now
    ensures multiset(r) <= multiset(Events(s))
    ensures Sorted(r, EndTimeOf, Descending)
    ensures |r| <= limit
  {
    Query(Events(s), (e: Event) => e.isPublic && e.endTime < now, EndTimeOf, Descending, limit)
  }

  /** `listMyPast`: the caller's events that have already ended, latest end first;
      empty when signed out. */
  function ListMyPast(s: Store, user: Option<User>, now: int, limit: nat := MyPastLimit): (r: seq<Event>)
    ensures user.None? ==> r == []
    ensures forall e :: e in r ==> e in Events(s) && user.Some? && e.creatorId == user.value.uid && e.endTime < now
    ensures multiset(r) <= multiset(Events(s))
    ensures Sorted(r, EndTimeOf, Descending)
    ensures |r| <= limit
  {
    match user
    case None => []
    case Some(u) => Query(Events(s), (e: Event) => e.creatorId == u.uid && e.endTime < now, EndTimeOf, Descending, limit)
  }

  /** `listPastPublic`: a second copy of the public-past query. */
  function ListPastPublic(s: Store, now: int, limit: nat := PublicPastLimit): (r: seq<Event>)
    ensures forall e :: e in r ==> e in Events(s) && e.isPublic && e.endTime < now
    ensures multiset(r) <= multiset(Events(s))
    ensures Sorted(r, EndTimeOf, Descending)
    ensures |r| <= limit
  {
    Query(Events(s), (e: Event) => e.isPublic && e.endTime < now, EndTimeOf, Descending, limit)
  }

  /** The two public-past queries return the same list. */
  lemma PastListsAgree(s: Store, now: int, limit: nat)
    ensures ListPublicPast(s, now, limit) == ListPastPublic(s, now, limit)
  {
  }

  /** No event is both upcoming and past, and one ending exactly at `now` is in
      neither list. */
  lemma PublicListsDisjoint(s: Store, now: int, e: Event)
    ensures !(e in ListPublicUpcoming(s, now) && e in ListPublicPast(s, now))
    ensures e.endTime == now ==> e !in ListPublicUpcoming(s, now) && e !in ListPublicPast(s, now)
  {
  }

  /** The disjointness above needs one instant for both queries. Each query
      reads the clock on its own, so when the past query reads a later instant
      than the upcoming one, a public event ending between the two readings is
      in both lists (given a store small enough that neither list is full). */
  lemma PublicListsOverlapAcrossReads(s: Store, t1: int, t2: int, e: Event)
    requires e in Events(s) && e.isPublic && t1 < e.endTime < t2
    requires |s.events| < PublicUpcomingLimit && |s.events| < PublicPastLimit
    ensures e in ListPublicUpcoming(s, t1) && e in ListPublicPast(s, t2)
  {
    QueryKeepsBest(Events(s), (e: Event) => e.isPublic && e.endTime > t1, EndTimeOf, Ascending, PublicUpcomingLimit, e);
    QueryKeepsBest(Events(s), (e: Event) => e.isPublic && e.endTime < t2, EndTimeOf, Descending, PublicPastLimit, e);
  }

  /** `listPublicUpcoming` returns the soonest-ending matches: a public,
      not-yet-ended event it leaves out ends no sooner than its last entry, and
      only a full list leaves any out. */
  lemma {:induction false} PublicUpcomingKeepsBest(s: Store, now: int, limit: nat, e: Event)
    requires e in Events(s) && e.isPublic && e.endTime > now
    ensures var r := ListPublicUpcoming(s, now, limit);
      e !in r ==> |r| == limit && (limit > 0 ==> r[limit - 1].endTime <= e.endTime)
  {
    QueryKeepsBest(Events(s), (e: Event) => e.isPublic && e.endTime > now, EndTimeOf, Ascending, limit, e);
  }

  /** `listPublicPast` returns the latest-ending past matches. */
  lemma {:induction false} PublicPastKeepsBest(s: Store, now: int, limit: nat, e: Event)
    requires e in Events(s) && e.isPublic && e.endTime < now
    ensures var r := ListPublicPast(s, now, limit);
      e !in r ==> |r| == limit && (limit > 0 ==> r[limit - 1].endTime >= e.endTime)
  {
    QueryKeepsBest(Events(s), (e: Event) => e.isPublic && e.endTime < now, EndTimeOf, Descending, limit, e);
  }

  /** `listMine` returns the caller's latest-starting events. */
  lemma {:induction false} MineKeepsBest(s: Store, u: User, limit: nat, e: Event)
    requires e in Events(s) && e.creatorId == u.uid
    ensures var r := ListMine(s, Some(u), limit);
      e !in r ==> |r| == limit && (limit > 0 ==> r[limit - 1].startTime >= e.startTime)
  {
    QueryKeepsBest(Events(s), (e: Event) => e.creatorId == u.uid, StartTimeOf, Descending, limit, e);
  }

  /** In a store with fewer events than `listMine`'s limit, every event of
      the caller is in the caller's list. */
  lemma OwnEventListed(s: Store, u: User, e: Event)
    requires |s.events| < MineLimit && e in Events(s) && e.creatorId == u.uid
    ensures e in ListMine(s, Some(u))
  {
    QueryKeepsBest(Events(s), (e: Event) => e.creatorId == u.uid, StartTimeOf, Descending, MineLimit, e);
  }

  /** `listMyPast` returns the caller's latest-ending past events. */
  lemma {:induction false} MyPastKeepsBest(s: Store, u: User, now: int, limit: nat, e: Event)
    requires e in Events(s) && e.creatorId == u.uid && e.endTime < now
    ensures var r := ListMyPast(s, Some(u), now, limit);
      e !in r ==> |r| == limit && (limit > 0 ==> r[limit - 1].endTime >= e.endTime)
  {
    QueryKeepsBest(Events(s), (e: Event) => e.creatorId == u.uid && e.endTime < now, EndTimeOf, Descending, limit, e);
  }

  // ------------------------------------------------------------------
  // Event writes
  // ------------------------------------------------------------------

  /** `getById`: the event stored under `id`, read with its id filled in. */
  function GetById(s: Store, id: string): (r: Option<Event>)
    ensures r.Some? <==> id in Keys(s.events)
    ensures r.Some? ==> r.value.id == Some(id) && r.value in Events(s)
  {
    match Lookup(s.events, id)
    case None => None
    case Some(data) =>
      var i :| 0 <= i < |s.events| && s.events[i] == Doc(id, data);
      assert Events(s)[i] == data.(id := Some(id));
      Some(data.(id := Some(id)))
  }

  /** In a store with unique document ids, an event read with id `id` is the
      one `getById(id)` returns. */
  lemma EventWithId(s: Store, x: Event, id: string)
    requires Valid(s) && x in Events(s) && x.id == Some(id)
    ensures GetById(s, id) == Some(x)
  {
    var i :| 0 <= i < |Events(s)| && Events(s)[i] == x;
    assert s.events[i].key == id;
    assert id in Keys(s.events);
    var data := Lookup(s.events, id).value;
    var j :| 0 <= j < |s.events| && s.events[j] == Doc(id, data);
    assert i == j;
  }

  /** The `createdAt` an upsert writes: the incoming one when the record has an
      id and a `createdAt`, otherwise `now`. */
  function KeptCreatedAt(e: Event, now: int): (r: Option<int>)
    ensures e.id.Some? && e.createdAt.Some? ==> r == e.createdAt
    ensures e.id.None? || e.createdAt.None? ==> r == Some(now)
  {
    if e.id.Some? && e.createdAt.Some? then e.createdAt else Some(now)
  }

  /** `upsert`: a full-replace write of `e` by the signed-in user. Without a user
      it throws and nothing is written. Otherwise the record is written whole,
      with `creatorId` the caller (no ownership check), `updatedAt` now, and
      `createdAt` as `KeptCreatedAt`; a record without an id goes to a fresh
      key, one with an id to that key. Returns the key. */
  function Upsert(s: Store, user: Option<User>, e: Event, now: int): (r: Result<(Store, string), string>)
    ensures r.Failure? <==> user.None?
    ensures r.Failure? ==> r.error == NotAuthenticated
    ensures r.Success? ==>
      var (s', key) := r.value;
      && GetById(s', key) == Some(e.(id := Some(key), creatorId := user.value.uid,
                                     updatedAt := Some(now), createdAt := KeptCreatedAt(e, now)))
      && (e.id.None? ==> key !in Keys(s.events))
      && (e.id.Some? ==> key == e.id.value)
      && (forall k :: k != key ==> GetById(s', k) == GetById(s, k))
      && s'.attendance == s.attendance && s'.comments == s.comments
      && (Valid(s) ==> Valid(s'))
  {
    match user
    case None => Failure(NotAuthenticated)
    case Some(u) =>
      var data := e.(creatorId := u.uid, updatedAt := Some(now), createdAt := KeptCreatedAt(e, now));
      match e.id
      case None =>
        var (docs, key) := Add(s.events, data);
        Success((s.(events := docs), key))
      case Some(key) =>
        Success((s.(events := Put(s.events, key, data)), key))
  }

  /** `delete`: removes the event record only. Its attendance and comments stay. */
  function Delete(s: Store, id: string): (r: Store)
    ensures GetById(r, id) == None
    ensures forall k :: k != id ==> GetById(r, k) == GetById(s, k)
    ensures r.attendance == s.attendance && r.comments == s.comments
    ensures Valid(s) ==> Valid(r)
  {
    s.(events := Remove(s.events, id))
  }

  // ------------------------------------------------------------------
  // Attendance
  // ------------------------------------------------------------------

  /** The ids of the users attending `eventId`. */
  function Attendees(s: Store, eventId: string): set<string> {
    set a | a in s.attendance && a.eventId == eventId :: a.userId
  }

  /** `attend`: writes the caller's attendance document (again, if present);
      without a user it silently does nothing. */
  function Attend(s: Store, user: Option<User>, eventId: string): (r: Store)
    ensures user.None? ==> r == s
    ensures user.Some? ==> Attendees(r, eventId) == Attendees(s, eventId) + {user.value.uid}
    ensures forall other :: other != eventId ==> Attendees(r, other) == Attendees(s, other)
    ensures r.events == s.events && r.comments == s.comments
  {
    match user
    case None => s
    case Some(u) => s.(attendance := s.attendance + {Attendance(eventId, u.uid)})
  }

  /** `unAttend`: deletes the caller's attendance document, absent or not;
      without a user it silently does nothing. */
  function UnAttend(s: Store, user: Option<User>, eventId: string): (r: Store)
    ensures user.None? ==> r == s
    ensures user.Some? ==> Attendees(r, eventId) == Attendees(s, eventId) - {user.value.uid}
    ensures forall other :: other != eventId ==> Attendees(r, other) == Attendees(s, other)
    ensures r.events == s.events && r.comments == s.comments
  {
    match user
    case None => s
    case Some(u) => s.(attendance := s.attendance - {Attendance(eventId, u.uid)})
  }

  /** `attendeesCount`: the size of the attendees sub-collection. */
  function AttendeesCount(s: Store, eventId: string): nat {
    |Attendees(s, eventId)|
  }

  /** `isAttending`: the caller's attendance document exists; false when signed out. */
  function IsAttending(s: Store, user: Option<User>, eventId: string): bool {
    user.Some? && user.value.uid in Attendees(s, eventId)
  }

  /** Attending twice is attending once; afterwards the caller attends. */
  lemma AttendIdempotent(s: Store, user: Option<User>, eventId: string)
    ensures Attend(Attend(s, user, eventId), user, eventId) == Attend(s, user, eventId)
    ensures user.Some? <==> IsAttending(Attend(s, user, eventId), user, eventId)
  {
  }

  /** Joining raises the count by one exactly when the caller was not attending. */
  lemma AttendCount(s: Store, u: User, eventId: string)
    ensures AttendeesCount(Attend(s, Some(u), eventId), eventId)
         == AttendeesCount(s, eventId) + (if IsAttending(s, Some(u), eventId) then 0 else 1)
  {
  }

  /** Leaving lowers the count by one exactly when the caller was attending. */
  lemma UnAttendCount(s: Store, u: User, eventId: string)
    ensures AttendeesCount(UnAttend(s, Some(u), eventId), eventId)
         == AttendeesCount(s, eventId) - (if IsAttending(s, Some(u), eventId) then 1 else 0)
    ensures !IsAttending(UnAttend(s, Some(u), eventId), Some(u), eventId)
  {
  }

  /** Joining and then leaving restores the membership and the count of every
      event, for a caller who was not attending. */
  lemma AttendThenUnAttend(s: Store, user: Option<User>, eventId: string)
    requires !IsAttending(s, user, eventId)
    ensures UnAttend(Attend(s, user, eventId), user, eventId) == s
  {
  }

  /** Leaving when not attending changes nothing. */
  lemma UnAttendNonMember(s: Store, user: Option<User>, eventId: string)
    requires !IsAttending(s, user, eventId)
    ensures UnAttend(s, user, eventId) == s
  {
  }

  // ------------------------------------------------------------------
  // Comments
  // ------------------------------------------------------------------

  /** The comment documents of `eventId`, in storage order. */
  function CommentDocs(s: Store, eventId: string): seq<Doc<Comment>> {
    if eventId in s.comments then s.comments[eventId] else []
  }

  function ReadComment(d: Doc<Comment>): Comment {
    d.data.(id := Some(d.key))
  }

  /** Every comment of `eventId`, as a read returns it, in storage order. */
  function Comments(s: Store, eventId: string): (r: seq<Comment>)
    ensures |r| == |CommentDocs(s, eventId)|
    ensures forall i :: 0 <= i < |r| ==> r[i] == ReadComment(CommentDocs(s, eventId)[i])
  {
    var docs := CommentDocs(s, eventId);
    seq(|docs|, i requires 0 <= i < |docs| => ReadComment(docs[i]))
  }

  /** `listComments`: all comments of the event, newest first. */
  function ListComments(s: Store, eventId: string): (r: seq<Comment>)
    ensures multiset(r) == multiset(Comments(s, eventId))
    ensures Sorted(r, CreatedAtOf, Descending)
  {
    SortBy(Comments(s, eventId), CreatedAtOf, Descending)
  }

  /** The name a comment is signed with: `displayName ?: email ?: "Anónimo"`. */
  function AuthorName(u: User): (r: string)
    ensures u.displayName.Some? ==> r == u.displayName.value
    ensures u.displayName.None? && u.email.Some? ==> r == u.email.value
    ensures u.displayName.None? && u.email.None? ==> r == AnonymousName
  {
    u.displayName.GetOr(u.email.GetOr(AnonymousName))
  }

  /** `addComment`: appends one comment, signed by the caller, with the rating
      exactly as given (no range check) and `createdAt` now. Without a user it
      throws and nothing is written. */
  function AddComment(s: Store, user: Option<User>, eventId: string, text: string, rating: int, now: int)
    : (r: Result<Store, string>)
    ensures r.Failure? <==> user.None?
    ensures r.Failure? ==> r.error == NotAuthenticated
    ensures r.Success? ==>
      var s' := r.value;
      var before := CommentDocs(s, eventId);
      var after := CommentDocs(s', eventId);
      && |after| == |before| + 1
      && after[..|before|] == before
      && after[|before|].key !in Keys(before)
      && after[|before|].data == Comment(None, eventId, user.value.uid, AuthorName(user.value), rating, text, now)
      && (forall other :: other != eventId ==> CommentDocs(s', other) == CommentDocs(s, other))
      && s'.events == s.events && s'.attendance == s.attendance
      && (Valid(s) ==> Valid(s'))
  {
    match user
    case None => Failure(NotAuthenticated)
    case Some(u) =>
      var c := Comment(None, eventId, u.uid, AuthorName(u), rating, text, now);
      var docs := CommentDocs(s, eventId);
      var key := FreshKey(docs);
      ConsFacts(Doc(key, c), []);
      AppendDistinct(docs, Doc(key, c));
      Success(s.(comments := s.comments[eventId := docs + [Doc(key, c)]]))
  }

  lemma AppendDistinct<T>(docs: seq<Doc<T>>, d: Doc<T>)
    requires d.key !in Keys(docs)
    ensures DistinctKeys(docs) ==> DistinctKeys(docs + [d])
  {
    assert forall i :: 0 <= i < |docs| ==> docs[i].key in Keys(docs);
  }

  /** After `addComment`, the event's comment list holds the earlier comments
      and exactly one more: the new one, with the caller's rating unchanged. */
  lemma AddCommentListed(s: Store, u: User, eventId: string, text: string, rating: int, now: int)
    ensures var s' := AddComment(s, Some(u), eventId, text, rating, now).value;
      exists key: string ::
        multiset(ListComments(s', eventId))
          == multiset(ListComments(s, eventId))
             + multiset{Comment(Some(key), eventId, u.uid, AuthorName(u), rating, text, now)}
  {
    var s' := AddComment(s, Some(u), eventId, text, rating, now).value;
    var before := CommentDocs(s, eventId);
    var after := CommentDocs(s', eventId);
    var key := after[|before|].key;
    var c := Comment(Some(key), eventId, u.uid, AuthorName(u), rating, text, now);
    assert Comments(s', eventId) == Comments(s, eventId) + [c];
  }
}
