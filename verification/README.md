# CommunityEventsApp — event, attendance and review rules in Dafny

CommunityEventsApp is an Android app for community events. Signed-in users
create public or private events and edit or delete them. They browse upcoming
and past events, mark that they will attend, and leave a review (a 1–5 star
rating and a text) on past events they attended. Everything lives in a
document store with three collections:
- the events, each addressed by a document id;
- each event's attendees, one document per user id;
- each event's comments.

This project models the part of the app that decides what is stored, listed
and shown:
- **the event repository**: the list queries with their filters, orders and
  limits; read, upsert and delete; join, leave, count and membership of
  attendance; listing and adding comments;
- **the two view-models**:
  - the events list: load all lists, save, delete, and the upcoming-event
    reminder;
  - the event detail: load, toggle attendance, add a review, and the average
    rating;
- **the form screen's logic**: the end-after-start rule and its fix-up, the
  tag field (split on `,` and `;`, trim, drop empties), the edit preload, and
  the save and delete buttons;
- **the detail screen's logic**: which branch is rendered, the friendly
  permission message, the "Editar" action, the rating summary, when the
  review form is offered, and what the send button writes.

The store is an immutable value (`Model.Store`):
- the events are a sequence of keyed documents (`Collection.Doc`);
- attendance is a set of (event, user) pairs;
- comments are a map from event id to that event's keyed documents.

Every operation is a pure function from a state to a new state. The rest of
the world becomes parameters:
- the signed-in user (`Option<User>`);
- the current instant `now`, in epoch milliseconds;
- which remote calls throw, and with what message (`Remote.Faults`).

A remote call that the source skips when nobody is signed in never consults
the faults. Reads fill in `id` from the document key, as the source's
`copy(id = it.id)` does.

Modules, one per source unit plus shared helpers:

| module | file | models |
|---|---|---|
| `Wrappers` | wrappers.dfy | `Option`, `Result` |
| `Listing` | listing.dfy | a query: filter, stable sort by a key in a direction, limit |
| `Collection` | collection.dfy | one document collection: read, full-replace write, delete, add with a fresh key |
| `Text` | text.dfy | Kotlin `isWhitespace`, `trim`, `isBlank`, `contains`, `joinToString` |
| `Model` | model.dfy | `Event`, `Comment`, `User`, the attendance pair, the store |
| `Remote` | remote.dfy | the remote calls and which of them throws first |
| `EventRepository` | event_repository.dfy | `EventRepository` |
| `EventsViewModel` | events_view_model.dfy | `EventsViewModel` |
| `EventDetailViewModel` | event_detail_view_model.dfy | `EventDetailViewModel` |
| `EventFormScreen` | event_form_screen.dfy | the logic of `EventFormScreen` |
| `EventDetailScreen` | event_detail_screen.dfy | the logic of `EventDetailScreen` |

Some rules one would expect of such an app are not in the code; the model
follows the code:
- `upsert` and `delete` do not check that the caller owns the event. Any
  signed-in user can overwrite, and thereby take over, any event by id, and
  anyone can delete one.
- The repository does not check a comment's rating (any `Int` is stored),
  nor that the author attended the event or that it is over. These rules
  hold only for reviews sent through the detail screen
  (`EventDetailScreen.ScreenReviewIsValid`).
- `delete` removes only the event document. Its attendance and comments
  stay.
- `upsert` keeps an incoming `createdAt` (`EventRepository.kt:115`), so
  that an edit can keep the event's creation time. The form's save, however,
  builds the event without `createdAt`, so `upsert` stamps it with
  the save instant, and every edit through the form resets `createdAt`
  (`EventsViewModel.SaveResetsCreatedAt`).
- `save` passes a `lastUpdated` value to the `Event` constructor. `Event`
  has no such field, so the model drops it.


## Model

| member | source | states |
|---|---|---|
| `Collection.Lookup` | app/src/main/java/com/tuempresa/communityeventsapp/data/repository/EventRepository.kt:104-107 | A document read finds data exactly when the key is in use, and the data found is what is stored under that key. |
| `Collection.Put` | app/src/main/java/com/tuempresa/communityeventsapp/data/repository/EventRepository.kt:125 | `document(id).set(data)` replaces the whole document: reading the key gives exactly the new data, every other key reads as before, the key set gains the key, and distinct keys stay distinct. |
| `Collection.Remove` | app/src/main/java/com/tuempresa/communityeventsapp/data/repository/EventRepository.kt:133-135 | Deleting leaves nothing under the key (a missing document is no error), every other key reads as before, and the key set loses exactly that key. |
| `Collection.FreshKey` | app/src/main/java/com/tuempresa/communityeventsapp/data/repository/EventRepository.kt:121 | The id `add` assigns is not in use. |
| `Collection.Add` | app/src/main/java/com/tuempresa/communityeventsapp/data/repository/EventRepository.kt:121 | `add(data)` stores the data under a key not used before and returns it; no other document changes. |
| `Listing.Filter` | app/src/main/java/com/tuempresa/communityeventsapp/data/repository/EventRepository.kt:34-36 | The `where` clauses: an element is kept exactly when it is in the input and satisfies the condition; the result is a sub-multiset of the input. |
| `Listing.Take` | app/src/main/java/com/tuempresa/communityeventsapp/data/repository/EventRepository.kt:38 | `limit(n)`: the first `min(n, size)` elements, in order. |
| `Listing.SortBy` | app/src/main/java/com/tuempresa/communityeventsapp/data/repository/EventRepository.kt:37 | `orderBy(field, direction)`: the result is ordered by the key in the direction and is a permutation of the input. |
| `Listing.Query` | app/src/main/java/com/tuempresa/communityeventsapp/data/repository/EventRepository.kt:32-43 | A whole query: matching input elements only, each at most as often as it matches (no duplicates are introduced), in key order, at most `limit` of them. |
| `Listing.QueryKeepsBest` | app/src/main/java/com/tuempresa/communityeventsapp/data/repository/EventRepository.kt:32-43 | A query returns the best matches. A matching element is left out only when the list is full, and then it ranks no better than the last entry. A list shorter than the limit holds every match. |
| `Text.Trim` | app/src/main/java/com/tuempresa/communityeventsapp/ui/events/EventFormScreen.kt:205 | `trim()`: the result neither starts nor ends with whitespace, and it is empty exactly when the input is blank (what is cut off is stated by `Text.TrimSlice`). |
| `Text.TrimSlice` | app/src/main/java/com/tuempresa/communityeventsapp/ui/events/EventFormScreen.kt:205 | The trimmed text is a contiguous slice of the input, and what is cut off before and after it is whitespace only. |
| `Remote.FirstFault` | app/src/main/java/com/tuempresa/communityeventsapp/ui/events/EventsViewModel.kt:34-52 | A `try` block over a sequence of remote calls completes exactly when none of them throws; otherwise the message caught is that of the first call that threw, every earlier call having completed. |
| `EventRepository.Events` | app/src/main/java/com/tuempresa/communityeventsapp/data/repository/EventRepository.kt:42 | Every stored event, in storage order, with `id` set to its document id. |
| `EventRepository.ListPublicUpcoming` | app/src/main/java/com/tuempresa/communityeventsapp/data/repository/EventRepository.kt:32-43 | Only public stored events whose end is after now, soonest end first, at most 50. |
| `EventRepository.ListMine` | app/src/main/java/com/tuempresa/communityeventsapp/data/repository/EventRepository.kt:45-55 | Empty when signed out. Otherwise only the caller's events, latest start first, at most 100. |
| `EventRepository.ListPublicPast` | app/src/main/java/com/tuempresa/communityeventsapp/data/repository/EventRepository.kt:58-69 | Only public stored events whose end is before now, latest end first, at most 50. |
| `EventRepository.ListMyPast` | app/src/main/java/com/tuempresa/communityeventsapp/data/repository/EventRepository.kt:72-84 | Empty when signed out. Otherwise only the caller's events whose end is before now, latest end first, at most 50. |
| `EventRepository.ListPastPublic` | app/src/main/java/com/tuempresa/communityeventsapp/data/repository/EventRepository.kt:87-98 | The second public-past query: public events already ended, latest end first, at most 50. |
| `EventRepository.PastListsAgree` | app/src/main/java/com/tuempresa/communityeventsapp/data/repository/EventRepository.kt:58-98 | `listPublicPast` and `listPastPublic` return the same list. |
| `EventRepository.PublicListsDisjoint` | app/src/main/java/com/tuempresa/communityeventsapp/data/repository/EventRepository.kt:32-69 | At one instant, no event is both public-upcoming and public-past, and one ending exactly then is in neither. |
| `EventRepository.PublicListsOverlapAcrossReads` | app/src/main/java/com/tuempresa/communityeventsapp/data/repository/EventRepository.kt:33-69 | Each query reads the clock itself: with a later reading for the past query, a public event ending between the two readings is in both lists (when neither list is full). |
| `EventRepository.PublicUpcomingKeepsBest` | app/src/main/java/com/tuempresa/communityeventsapp/data/repository/EventRepository.kt:32-43 | A public, not yet ended event is missing from the upcoming list only when the list is full, and then it ends no sooner than the list's last event. |
| `EventRepository.PublicPastKeepsBest` | app/src/main/java/com/tuempresa/communityeventsapp/data/repository/EventRepository.kt:58-69 | A public ended event is missing from the past list only when the list is full, and then it ended no later than the list's last event. |
| `EventRepository.MineKeepsBest` | app/src/main/java/com/tuempresa/communityeventsapp/data/repository/EventRepository.kt:45-55 | One of the caller's events is missing from "mine" only when the list is full, and then it starts no later than the list's last event. |
| `EventRepository.OwnEventListed` | app/src/main/java/com/tuempresa/communityeventsapp/data/repository/EventRepository.kt:45-55 | With fewer stored events than the limit of 100, every event of the caller is in "mine". |
| `EventRepository.MyPastKeepsBest` | app/src/main/java/com/tuempresa/communityeventsapp/data/repository/EventRepository.kt:72-84 | One of the caller's ended events is missing from "my past" only when the list is full, and then it ended no later than the list's last event. |
| `EventRepository.GetById` | app/src/main/java/com/tuempresa/communityeventsapp/data/repository/EventRepository.kt:104-107 | `getById` finds an event exactly when the id is in use; the event has `id` set to that id and is one of the stored events. |
| `EventRepository.EventWithId` | app/src/main/java/com/tuempresa/communityeventsapp/data/repository/EventRepository.kt:104-107 | With unique document ids, any listed event carrying id `id` is the one `getById(id)` returns. |
| `EventRepository.KeptCreatedAt` | app/src/main/java/com/tuempresa/communityeventsapp/data/repository/EventRepository.kt:115 | An event without an id is created now. An event with an id keeps the `createdAt` it carries, or gets now when it carries none. |
| `EventRepository.Upsert` | app/src/main/java/com/tuempresa/communityeventsapp/data/repository/EventRepository.kt:109-130 | Signed out: fails with "No autenticado". Otherwise the whole record is written, stamped with the caller as creator, `updatedAt` now and the kept `createdAt`. A new event gets a fresh id and an existing one keeps its id. Nothing else changes. |
| `EventRepository.Delete` | app/src/main/java/com/tuempresa/communityeventsapp/data/repository/EventRepository.kt:133-135 | The event is gone. Every other event, all attendance and all comments are unchanged. |
| `EventRepository.Attend` | app/src/main/java/com/tuempresa/communityeventsapp/data/repository/EventRepository.kt:141-147 | Signed out: nothing happens. Otherwise the caller is added to the event's attendees, and no other event's attendees, events or comments change. |
| `EventRepository.UnAttend` | app/src/main/java/com/tuempresa/communityeventsapp/data/repository/EventRepository.kt:149-155 | Signed out: nothing happens. Otherwise the caller is removed from the event's attendees, and nothing else changes. |
| `EventRepository.AttendIdempotent` | app/src/main/java/com/tuempresa/communityeventsapp/data/repository/EventRepository.kt:141-147 | Attending twice is the same as attending once. |
| `EventRepository.AttendCount` | app/src/main/java/com/tuempresa/communityeventsapp/data/repository/EventRepository.kt:141-160 | Attending raises `attendeesCount` by one exactly when the caller was not already attending. |
| `EventRepository.UnAttendCount` | app/src/main/java/com/tuempresa/communityeventsapp/data/repository/EventRepository.kt:149-166 | Leaving lowers `attendeesCount` by one exactly when the caller was attending, and afterwards `isAttending` is false. |
| `EventRepository.AttendThenUnAttend` | app/src/main/java/com/tuempresa/communityeventsapp/data/repository/EventRepository.kt:141-155 | For a caller not attending, attend followed by unAttend restores the store exactly. |
| `EventRepository.UnAttendNonMember` | app/src/main/java/com/tuempresa/communityeventsapp/data/repository/EventRepository.kt:149-155 | Leaving an event one does not attend changes nothing. |
| `EventRepository.Comments` | app/src/main/java/com/tuempresa/communityeventsapp/data/repository/EventRepository.kt:178-180 | The event's comments as read, each with `id` set to its document id, one per stored comment. |
| `EventRepository.ListComments` | app/src/main/java/com/tuempresa/communityeventsapp/data/repository/EventRepository.kt:172-181 | `listComments` returns every comment of the event, newest first: a permutation of the stored comments ordered by `createdAt` descending. |
| `EventRepository.AuthorName` | app/src/main/java/com/tuempresa/communityeventsapp/data/repository/EventRepository.kt:185-187 | A comment is signed with the display name, else the e-mail, else "Anónimo". |
| `EventRepository.AddComment` | app/src/main/java/com/tuempresa/communityeventsapp/data/repository/EventRepository.kt:183-199 | Signed out: fails with "No autenticado" and writes nothing. Otherwise it appends one comment under a fresh id, with the caller's id and name, the text, the rating exactly as given (no range check) and `createdAt` now. Nothing else changes. |
| `EventRepository.AddCommentListed` | app/src/main/java/com/tuempresa/communityeventsapp/data/repository/EventRepository.kt:172-199 | After `addComment`, listing the comments gives the earlier ones plus exactly the new comment, as multisets. |
| `EventsViewModel.Load` | app/src/main/java/com/tuempresa/communityeventsapp/ui/events/EventsViewModel.kt:31-53 | Loading always ends. The error is cleared exactly when no query throws, and then all four lists are the repository's lists. Otherwise no list changes and the error is the message of the first query that threw, or "Error al cargar los eventos". |
| `EventsViewModel.LoadedListsConsistent` | app/src/main/java/com/tuempresa/communityeventsapp/ui/events/EventsViewModel.kt:31-53 | When all queries see one instant, after a successful load the upcoming and past public lists share no event; the caller's lists hold only the caller's events. |
| `EventsViewModel.Save` | app/src/main/java/com/tuempresa/communityeventsapp/ui/events/EventsViewModel.kt:55-86 | `onDone` runs exactly when a user is signed in and the upsert does not throw; then the store is the upsert's result and the lists are reloaded. On `onError` neither the store nor the state changes. Signed out, the error is "No autenticado". |
| `EventsViewModel.SaveResetsCreatedAt` | app/src/main/java/com/tuempresa/communityeventsapp/ui/events/EventsViewModel.kt:68-80 | Saving an existing event through `save` stores `createdAt` equal to the save instant and the caller as creator, whatever the event held before. |
| `EventsViewModel.Delete` | app/src/main/java/com/tuempresa/communityeventsapp/ui/events/EventsViewModel.kt:88-100 | `onDone` runs exactly when the delete does not throw; then the event is deleted and the lists are reloaded. Otherwise nothing changes. |
| `EventsViewModel.WholeHours` | app/src/main/java/com/tuempresa/communityeventsapp/ui/events/EventsViewModel.kt:109 | Kotlin `Long` division by an hour: the whole hours, truncated toward zero for negative differences as well. |
| `EventsViewModel.ReminderWindow` | app/src/main/java/com/tuempresa/communityeventsapp/ui/events/EventsViewModel.kt:104-112 | The reminder is due exactly when the start is at least 1 hour and less than 25 hours away. |
| `EventDetailViewModel.Average` | app/src/main/java/com/tuempresa/communityeventsapp/ui/events/EventDetailViewModel.kt:56-57 | No average (the NaN case) exactly for no comments; otherwise the average is a fraction over the number of comments. |
| `EventDetailViewModel.AverageWithin` | app/src/main/java/com/tuempresa/communityeventsapp/ui/events/EventDetailViewModel.kt:56-57 | When every rating lies in `lo..hi`, so does the average (the sum lies in `lo*n..hi*n`). |
| `EventDetailViewModel.SumRatingsPermutation` | app/src/main/java/com/tuempresa/communityeventsapp/ui/events/EventDetailViewModel.kt:55-56 | The sum of the ratings does not depend on the order of the comments. |
| `EventDetailViewModel.AverageExample` | app/src/main/java/com/tuempresa/communityeventsapp/ui/events/EventDetailViewModel.kt:56-57 | Ratings 5, 3 and 4 average to exactly 12/3. |
| `EventDetailViewModel.Load` | app/src/main/java/com/tuempresa/communityeventsapp/ui/events/EventDetailViewModel.kt:36-76 | Loading always ends. The error is cleared exactly when the event exists and no call throws. A missing event gives "Evento no encontrado" and no event. A thrown exception keeps the event shown before and sets the error to the first throwing call's message, or "Error al cargar el evento" without one. A failure leaves the owner flag, the attendance and the reviews unchanged. On success every field is the store's: owner exactly for the signed-in creator, the count, the caller's attendance, the comments newest first, their number and their average. |
| `EventDetailViewModel.Loaded` | app/src/main/java/com/tuempresa/communityeventsapp/ui/events/EventDetailViewModel.kt:59-69 | The state of a successful load, field by field: owner flag, count, attendance, comments, the number of reviews equal to the number of comments, and an average exactly when there are comments, equal to the sum of their ratings over their number. |
| `EventDetailViewModel.LoadedAverage` | app/src/main/java/com/tuempresa/communityeventsapp/ui/events/EventDetailViewModel.kt:55-57 | After a successful load of an event with reviews, the average is the sum of the stored ratings over their number, whatever the list order. |
| `EventDetailViewModel.ToggleWrite` | app/src/main/java/com/tuempresa/communityeventsapp/ui/events/EventDetailViewModel.kt:80-85 | The write of a toggle: signed out it does nothing. Signed in it calls `unAttend` when the state says attending and `attend` otherwise, and throws exactly when that call fails, leaving the store unchanged. When it completes, the caller's attendance is the opposite of the state's flag, the caller is removed from or added to this event's attendees, and no other event's attendees, no event and no comment change. |
| `EventDetailViewModel.ToggleAttend` | app/src/main/java/com/tuempresa/communityeventsapp/ui/events/EventDetailViewModel.kt:78-97 | The store after a toggle is the write's. A throwing write or reread sets only the error. Otherwise `attending` and `attendees` are the caller's attendance and the count as reread after the write, and for a signed-in caller with no throw `attending` flips. Only attendance, count and error ever change; events and comments never do. |
| `EventDetailViewModel.ToggleFlips` | app/src/main/java/com/tuempresa/communityeventsapp/ui/events/EventDetailViewModel.kt:78-97 | When the state agrees with the store and nothing throws, a signed-in toggle flips `attending` and moves `attendees` by exactly one. |
| `EventDetailViewModel.AddComment` | app/src/main/java/com/tuempresa/communityeventsapp/ui/events/EventDetailViewModel.kt:99-116 | Signed out or on a throwing write, only the error changes. Otherwise the comment is written, and the comments, their number (now positive) and the average are reread; only the reviews and the error may change. |
| `EventFormScreen.InitialForm` | app/src/main/java/com/tuempresa/communityeventsapp/ui/events/EventFormScreen.kt:28-38 | A new form starts at the start calendar's reading and ends one hour after the end calendar's own reading; with the second reading no earlier than the first, the end is at least an hour after the start, so there is no date error and the form can be saved. |
| `EventFormScreen.SaveEnabledIff` | app/src/main/java/com/tuempresa/communityeventsapp/ui/events/EventFormScreen.kt:199 | The save button is enabled exactly when the form is idle and the end is strictly after the start. The date error shows exactly when it is not. |
| `EventFormScreen.FixEnd` | app/src/main/java/com/tuempresa/communityeventsapp/ui/events/EventFormScreen.kt:79-81 | After the fix-up the end is after the start: an end already after the start is kept, any other end becomes exactly one hour after the start. |
| `EventFormScreen.Pick` | app/src/main/java/com/tuempresa/communityeventsapp/ui/events/EventFormScreen.kt:71-104 | After any picker change the date error is gone. Only the chosen instant (and possibly the end) changes. An end after the (new) start is kept; any other end becomes exactly one hour after the start. |
| `EventFormScreen.FixEndIdempotent` | app/src/main/java/com/tuempresa/communityeventsapp/ui/events/EventFormScreen.kt:96-98 | Running the fix-up twice is the same as once. |
| `EventFormScreen.SplitTags` | app/src/main/java/com/tuempresa/communityeventsapp/ui/events/EventFormScreen.kt:204 | `split(",", ";")` gives at least one fragment, and no fragment holds a separator. |
| `EventFormScreen.CleanTags` | app/src/main/java/com/tuempresa/communityeventsapp/ui/events/EventFormScreen.kt:205-206 | Trimming and dropping empty fragments yields only well-formed tags (non-empty, trimmed, without separators), keeps the trim of every non-blank fragment, and yields no more tags than fragments. |
| `EventFormScreen.ParseTags` | app/src/main/java/com/tuempresa/communityeventsapp/ui/events/EventFormScreen.kt:203-206 | Every tag the form sends is well formed. |
| `EventFormScreen.SplitWithoutDelimiter` | app/src/main/java/com/tuempresa/communityeventsapp/ui/events/EventFormScreen.kt:204 | Text without a separator splits into itself alone. |
| `EventFormScreen.SplitAtDelimiter` | app/src/main/java/com/tuempresa/communityeventsapp/ui/events/EventFormScreen.kt:204 | Splitting `a`, a separator, `b` gives the fragments of `a` followed by those of `b`. |
| `EventFormScreen.ParseTagsAtDelimiter` | app/src/main/java/com/tuempresa/communityeventsapp/ui/events/EventFormScreen.kt:203-206 | `,` and `;` both separate, and order is kept: the tags of `a;b` are the tags of `a` followed by the tags of `b`. |
| `EventFormScreen.ParseTagsLeadingWhitespace` | app/src/main/java/com/tuempresa/communityeventsapp/ui/events/EventFormScreen.kt:203-206 | Whitespace in front of the text does not change the tags. |
| `EventFormScreen.ParseTagsFragment` | app/src/main/java/com/tuempresa/communityeventsapp/ui/events/EventFormScreen.kt:203-206 | Text without a separator gives no tag when blank and exactly its trim otherwise; with `ParseTagsAtDelimiter` this determines the tags of any text. |
| `EventFormScreen.ParseSingleTag` | app/src/main/java/com/tuempresa/communityeventsapp/ui/events/EventFormScreen.kt:203-206 | A well-formed tag parses to itself. |
| `EventFormScreen.TagsRoundTrip` | app/src/main/java/com/tuempresa/communityeventsapp/ui/events/EventFormScreen.kt:203-206 | Parsing the `", "`-join of well-formed tags (the preload's `joinToString`, line 50) gives back exactly those tags, in order. |
| `EventFormScreen.ParseTagsIdempotent` | app/src/main/java/com/tuempresa/communityeventsapp/ui/events/EventFormScreen.kt:203-206 | Joining the parsed tags and parsing again gives the same tags. |
| `EventFormScreen.FindById` | app/src/main/java/com/tuempresa/communityeventsapp/ui/events/EventFormScreen.kt:44 | `firstOrNull { it.id == id }`: nothing exactly when no event has the id; otherwise the first event with it. |
| `EventFormScreen.Preload` | app/src/main/java/com/tuempresa/communityeventsapp/ui/events/EventFormScreen.kt:41-56 | A blank or missing id, or an id not found among "mine" then "public", leaves the form alone. Otherwise the form takes the found event's title, texts, visibility, times and `", "`-joined tags. |
| `EventFormScreen.PreloadTags` | app/src/main/java/com/tuempresa/communityeventsapp/ui/events/EventFormScreen.kt:50 | The preloaded tag field parses back to the event's tags when they are well formed. |
| `EventFormScreen.Submit` | app/src/main/java/com/tuempresa/communityeventsapp/ui/events/EventFormScreen.kt:198-219 | A disabled button does nothing. An enabled one saves the form's fields with the parsed tags through the view-model. |
| `EventFormScreen.SubmitWrites` | app/src/main/java/com/tuempresa/communityeventsapp/ui/events/EventFormScreen.kt:198-219 | An enabled save of an existing id by a signed-in user stores the form's title, texts, visibility, times and parsed tags under that id. |
| `EventFormScreen.EditThenSaveKeepsEvent` | app/src/main/java/com/tuempresa/communityeventsapp/ui/events/EventFormScreen.kt:41-219 | When the form's lists hold the event (it is found among "mine" then "public"), opening it for editing and saving it unchanged writes back its title, description, location, visibility, times and tags. As the app is wired the lists are empty; see Findings. |
| `EventFormScreen.FreshFormEditBlanksEvent` | app/src/main/java/com/tuempresa/communityeventsapp/ui/navigation/NavGraph.kt:103-116 | As wired, the form's own view-model is never loaded, so the preload finds nothing and saving an existing event unchanged overwrites it with an empty title, description and location, private and without tags. |
| `EventFormScreen.LoadedFormEditKeepsEvent` | app/src/main/java/com/tuempresa/communityeventsapp/ui/events/EventFormScreen.kt:41-56 | With the form's view-model loaded from the store first, the creator's own event (non-blank id, fewer stored events than 100) is preloaded, and saving it unchanged writes back the stored title, texts, visibility, times and tags. |
| `EventFormScreen.PressDelete` | app/src/main/java/com/tuempresa/communityeventsapp/ui/events/EventFormScreen.kt:225-241 | The delete button acts exactly when editing and idle, and then deletes through the view-model. |
| `EventFormScreen.PressDeleteRemoves` | app/src/main/java/com/tuempresa/communityeventsapp/ui/events/EventFormScreen.kt:225-241 | An enabled press whose delete does not throw removes the edited event; every other event, all attendance and all comments stay, and the lists are reloaded from the new store. |
| `EventDetailScreen.FriendlyError` | app/src/main/java/com/tuempresa/communityeventsapp/ui/events/EventDetailScreen.kt:58-62 | A message containing `PERMISSION_DENIED` is replaced by the friendly sentence, which never contains the code. Any other message is shown unchanged. |
| `EventDetailScreen.Render` | app/src/main/java/com/tuempresa/communityeventsapp/ui/events/EventDetailScreen.kt:54-75 | The first matching branch wins: spinner while loading, then the friendly error, then "not found" without an event, then the details. |
| `EventDetailScreen.RenderAfterLoad` | app/src/main/java/com/tuempresa/communityeventsapp/ui/events/EventDetailScreen.kt:54-75 | After a load the details show exactly when the load succeeded, and then the stored event. The spinner and the separate not-found branch are never reached; a missing event shows as the error "Evento no encontrado", and a read refused with `PERMISSION_DENIED` shows the friendly sentence. |
| `EventDetailScreen.LoadedShowsEdit` | app/src/main/java/com/tuempresa/communityeventsapp/ui/events/EventDetailScreen.kt:42 | After a successful load, "Editar" is offered exactly to the signed-in creator. |
| `EventDetailScreen.LoadedShowsSummary` | app/src/main/java/com/tuempresa/communityeventsapp/ui/events/EventDetailScreen.kt:140 | After a successful load the rating summary shows exactly when the event has reviews. |
| `EventDetailScreen.PastMatchesLists` | app/src/main/java/com/tuempresa/communityeventsapp/ui/events/EventDetailScreen.kt:92-94 | The screen's "already over" agrees with the lists: events of the past lists are over, upcoming ones are not. |
| `EventDetailScreen.SelectRating` | app/src/main/java/com/tuempresa/communityeventsapp/ui/events/EventDetailScreen.kt:191-197 | Tapping a chip selects its rating and keeps the text. |
| `EventDetailScreen.SubmitReview` | app/src/main/java/com/tuempresa/communityeventsapp/ui/events/EventDetailScreen.kt:54-212 | The review form exists only in the details branch (not loading, no error) and only for a past event the caller attends, and a blank text disables the button; otherwise nothing happens. When both hold, the trimmed text and the selected rating are added to the shown event, the text is cleared and the rating kept. |
| `EventDetailScreen.ScreenReviewIsValid` | app/src/main/java/com/tuempresa/communityeventsapp/ui/events/EventDetailScreen.kt:54-211 | A review from the screen reaches the store exactly when the details are on screen (not loading, no error), the event had ended when shown, the caller attends it and the text is not blank. It then appends exactly one comment, with a rating from 1 to 5, a non-empty trimmed text and the caller as author. |

## Left out

- Store transport: the document store's client, its object mapping, its `await`s and its offline cache are not modelled. Reads and writes are functions on an immutable `Store`.
- Document ids: the store's random ids are replaced by `Collection.FreshKey`, a key longer than every key in use. Only their freshness is modelled.
- Order of ties: the store breaks ties in `orderBy` by document id. The model keeps storage order instead, so the contracts say nothing about the order of equal keys.
- Attendance timestamp: `joinedAt` is never read, so an attendance is only the (event, user) pair.
- Timestamps are epoch milliseconds (`int`). Nanosecond parts, `Calendar` field arithmetic in the pickers, and all date formatting are left out. `Pick` takes the resulting instant directly.
- Integer width: `Long` overflow in time arithmetic is not modelled. Counts and differences are unbounded integers.
- Average rating: the `Double` average and its `%.1f` formatting are replaced by the exact fraction `Mean(total, count)`.
- Clock readings: each list query reads the clock itself (`EventRepository.kt:33,59,74`); the model gives one `now` to all queries of a load.
- `EventsViewModel.LoadedListsConsistent`: the disjointness of the two public lists holds only when all queries see one instant. With the source's separate readings an event can be in both (`EventRepository.PublicListsOverlapAcrossReads`).
- Concurrency: coroutines run to completion one after another. `load()` inside `save` and `delete` is launched without waiting in the source; the model runs it right away with the same faults.
- Navigation, snackbars, scroll state, the auth screens and the events list screen are not part of this model. The `onDone` navigation callback is reduced to which callback runs.
- `isPast` is `remember`ed per end time in the source. The model takes the instant it was first computed as the parameter `seenAt`.
- The detail screen's fallback text "Ocurrió un error al cargar el evento." sits behind `state.error ?:` inside the branch where `error != null`, so it can never show. `Render` omits it.
- Document path rules: an empty or slash-containing id, which the store would reject, is not modelled. `upsert` with any id string writes under that id.
- Error messages: a `catch` that stores `t.message` uses `Option<string>`, so an exception without a message gives `error = None` in `ToggleAttend` and `AddComment`, as in the source.
- `EventDetailViewModel.Average`: states only the count and the emptiness case. Its value is pinned down through `SumRatings` by `LoadedAverage` and `AverageWithin`, because the source's floating-point division has no exact counterpart here.
- `Listing.Query`: does not itself say that every match is included when fewer than `limit` exist. That half is `Listing.QueryKeepsBest`.

## Findings

| source | as written | input that shows it | evidently intended | confidence | as-written member | corrected member |
|---|---|---|---|---|---|---|
| app/src/main/java/com/tuempresa/communityeventsapp/ui/navigation/NavGraph.kt:103-116 | The edit form's route obtains its own `EventsViewModel` through `hiltViewModel()`. Nothing loads it (only the list screen calls `load()`), so the preload at `EventFormScreen.kt:41-56` searches empty lists and never fires. | Open "Editar" on any stored event with a non-empty title and press "Guardar" without touching the form. | The form starts from the stored event, so an unchanged save keeps it. | medium; not executed | `EventFormScreen.FreshFormEditBlanksEvent` | `EventFormScreen.LoadedFormEditKeepsEvent` |
