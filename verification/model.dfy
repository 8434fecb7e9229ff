/** The records of `data/model`: an event, a comment, and the signed-in user as
    the identity provider reports it, together with the abstract document store
    that replaces Firestore. Timestamps are integers counting milliseconds. */
module Model {
  import opened Wrappers
  import opened Collection

  /** `Event`: `createdAt`/`updatedAt` are nullable; `id` is the document id,
      filled in on every read. */
  datatype Event = Event(
    id: Option<string>,
    title: string,
    description: string,
    location: string,
    startTime: int,
    endTime: int,
    isPublic: bool,
    tags: seq<string>,
    creatorId: string,
    createdAt: Option<int>,
    updatedAt: Option<int>)

  /** `Comment`: a review of an event; the rating is meant to lie in 1..5 but
      nothing in the record enforces it. */
  datatype Comment = Comment(
    id: Option<string>,
    eventId: string,
    userId: string,
    userName: string,
    rating: int,
    text: string,
    createdAt: int)

  /** The signed-in user: uid plus the profile fields used to sign comments. */
  datatype User = User(uid: string, displayName: Option<string>, email: Option<string>)

  /** A document of an event's `attendees` sub-collection: user `userId` attends
      event `eventId`. */
  datatype Attendance = Attendance(eventId: string, userId: string)

  /** The store: the `events` collection, every `attendees` document and each
      event's `comments` sub-collection (a missing entry is an empty one). */
  datatype Store = Store(
    events: seq<Doc<Event>>,
    attendance: set<Attendance>,
    comments: map<string, seq<Doc<Comment>>>)

  /** Document ids are unique within each collection. */
  ghost predicate Valid(s: Store) {
    && DistinctKeys(s.events)
    && forall k :: k in s.comments ==> DistinctKeys(s.comments[k])
  }

  /** `60 * 60 * 1000`: one hour in milliseconds. */
  const MillisPerHour := 3600000

  function StartTimeOf(e: Event): int { e.startTime }
  function EndTimeOf(e: Event): int { e.endTime }
  function CreatedAtOf(c: Comment): int { c.createdAt }
}
