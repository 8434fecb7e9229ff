/** `EventFormScreen`: the create/edit form. Its logic is the tag field parsing,
    the end-after-start rule and its fix-up on every picker change, the preload
    of an existing event, and what the save and delete buttons do. */
module EventFormScreen {
  import opened Wrappers
  import opened Text
  import opened Model
  import opened Remote
  import Repo = EventRepository
  import VM = EventsViewModel

  /** The form's fields; `start` and `end` are the two calendars' instants. */
  datatype FormState = FormState(
    title: string,
    description: string,
    location: string,
    isPublic: bool,
    tags: string,
    start: int,
    end: int,
    loading: bool)

  /** A fresh form: empty fields, private, starting at the start calendar's
      reading and ending an hour after the end calendar's own, later, reading. */
  function InitialForm(startRead: int, endRead: int): (f: FormState)
    ensures f.start == startRead && f.end - MillisPerHour == endRead
    ensures startRead <= endRead ==> f.end - f.start >= MillisPerHour && DateError(f).None? && SaveEnabled(f)
  {
    FormState("", "", "", false, "", startRead, endRead + MillisPerHour, false)
  }

  // ------------------------------------------------------------------
  // Dates
  // ------------------------------------------------------------------

  const DateErrorMessage := "La fecha/hora de fin debe ser posterior al inicio."

  /** `dateError`. */
  function DateError(f: FormState): (r: Option<string>) {
    if f.end <= f.start then Some(DateErrorMessage) else None
  }

  /** The save button's `enabled`. */
  predicate SaveEnabled(f: FormState) {
    !f.loading && DateError(f).None?
  }

  /** The form can be saved exactly when it is idle and the end comes strictly
      after the start. */
  lemma SaveEnabledIff(f: FormState)
    ensures SaveEnabled(f) <==> !f.loading && f.start < f.end
    ensures DateError(f).Some? <==> f.end <= f.start
  {
  }

  /** The fix-up each picker runs: an end not after the start moves to one hour
      after the start; a later end is kept. */
  function FixEnd(start: int, end: int): (r: int)
    ensures r > start
    ensures end > start ==> r == end
    ensures end <= start ==> r == start + MillisPerHour
  {
    if end <= start then start + MillisPerHour else end
  }

  /** Which calendar a picker edits. */
  datatype Calendar = StartCalendar | EndCalendar

  /** A date or time picker sets the chosen calendar to instant `t` (the
      calendar field arithmetic is not modelled), then fixes the end up. */
  function Pick(f: FormState, which: Calendar, t: int): (r: FormState)
    ensures DateError(r).None?
    ensures r.(start := f.start, end := f.end) == f
    ensures which == StartCalendar ==> r.start == t && (f.end > t ==> r.end == f.end)
    ensures which == EndCalendar ==> r.start == f.start && (t > f.start ==> r.end == t)
    ensures which == StartCalendar && f.end <= t ==> r.end == t + MillisPerHour
    ensures which == EndCalendar && t <= f.start ==> r.end == f.start + MillisPerHour
  {
    match which
    case StartCalendar => f.(start := t, end := FixEnd(t, f.end))
    case EndCalendar => f.(end := FixEnd(f.start, t))
  }

  /** The fix-up changes nothing once the end is after the start. */
  lemma FixEndIdempotent(start: int, end: int)
    ensures FixEnd(start, FixEnd(start, end)) == FixEnd(start, end)
  {
  }

  // ------------------------------------------------------------------
  // Tags
  // ------------------------------------------------------------------

  /** The tag field accepts both `,` and `;` as separators. */
  predicate IsTagDelimiter(c: char) {
    c == ',' || c == ';'
  }

  predicate NoDelimiter(s: string) {
    forall i :: 0 <= i < |s| ==> !IsTagDelimiter(s[i])
  }

  /** A tag as the parser produces it: non-empty, trimmed, without separators. */
  predicate IsTag(t: string) {
    && |t| > 0
    && !IsWhitespace(t[0]) && !IsWhitespace(t[|t| - 1])
    && NoDelimiter(t)
  }

  /** `split(",", ";")`: the fragments between separators, empty ones included. */
  function SplitTags(s: string): (r: seq<string>)
    ensures |r| > 0
    ensures forall i :: 0 <= i < |r| ==> NoDelimiter(r[i])
  {
    if |s| == 0 then [""]
    else
      var rest := SplitTags(s[1..]);
      if IsTagDelimiter(s[0]) then [""] + rest
      else [[s[0]] + rest[0]] + rest[1..]
  }

  /** `.map { it.trim() }.filter { it.isNotEmpty() }`. */
  function CleanTags(fragments: seq<string>): (r: seq<string>)
    requires forall i :: 0 <= i < |fragments| ==> NoDelimiter(fragments[i])
    ensures forall i :: 0 <= i < |r| ==> IsTag(r[i])
    ensures forall i :: 0 <= i < |fragments| && !IsBlank(fragments[i]) ==> Trim(fragments[i]) in r
    ensures |r| <= |fragments|
  {
    if |fragments| == 0 then []
    else
      var t := Trim(fragments[0]);
      var rest := CleanTags(fragments[1..]);
      assert forall i :: 0 < i < |fragments| ==> fragments[i] == fragments[1..][i - 1];
      if |t| == 0 then rest
      else
        TrimIsTag(fragments[0]);
        ConsTags(t, rest);
        [t] + rest
  }

  /** A non-blank fragment trims to a tag. */
  lemma TrimIsTag(s: string)
    requires NoDelimiter(s) && |Trim(s)| > 0
    ensures IsTag(Trim(s))
  {
    TrimKeepsNoDelimiter(s);
  }

  lemma ConsTags(t: string, rest: seq<string>)
    requires IsTag(t) && forall i :: 0 <= i < |rest| ==> IsTag(rest[i])
    ensures forall i :: 0 <= i < |rest| + 1 ==> IsTag(([t] + rest)[i])
  {
    assert forall k :: 0 < k < |rest| + 1 ==> ([t] + rest)[k] == rest[k - 1];
  }

  lemma TrimKeepsNoDelimiter(s: string)
    requires NoDelimiter(s)
    ensures NoDelimiter(Trim(s))
  {
    var i, j := TrimSlice(s);
    assert forall k :: 0 <= k < j - i ==> Trim(s)[k] == s[i + k];
  }

  /** The tag list the save button sends. */
  function ParseTags(text: string): (r: seq<string>)
    ensures forall i :: 0 <= i < |r| ==> IsTag(r[i])
  {
    CleanTags(SplitTags(text))
  }

  /** A single fragment gives no tag when blank and its trim otherwise, so
      surrounding whitespace is dropped and nothing else. */
  lemma ParseTagsFragment(s: string)
    requires NoDelimiter(s)
    ensures ParseTags(s) == if IsBlank(s) then [] else [Trim(s)]
  {
    SplitWithoutDelimiter(s);
    assert CleanTags([s]) == (if |Trim(s)| == 0 then [] else [Trim(s)]) + CleanTags([]);
  }

  /** Text without a separator is a single fragment. */
  lemma {:induction false} SplitWithoutDelimiter(s: string)
    requires NoDelimiter(s)
    ensures SplitTags(s) == [s]
  {
    if |s| > 0 {
      SplitWithoutDelimiter(s[1..]);
      assert [s[0]] + s[1..] == s;
    }
  }

  /** Splitting at a separator splits the fragments there. */
  lemma {:induction false} SplitAtDelimiter(a: string, c: char, b: string)
    requires IsTagDelimiter(c)
    ensures SplitTags(a + [c] + b) == SplitTags(a) + SplitTags(b)
  {
    if |a| == 0 {
      assert a + [c] + b == [c] + b;
      assert ([c] + b)[1..] == b;
    } else {
      assert (a + [c] + b)[1..] == a[1..] + [c] + b;
      assert (a + [c] + b)[0] == a[0];
      SplitAtDelimiter(a[1..], c, b);
    }
  }

  lemma {:induction false} CleanTagsAppend(x: seq<string>, y: seq<string>)
    requires forall i :: 0 <= i < |x| ==> NoDelimiter(x[i])
    requires forall i :: 0 <= i < |y| ==> NoDelimiter(y[i])
    ensures CleanTags(x + y) == CleanTags(x) + CleanTags(y)
  {
    if |x| == 0 {
      assert x + y == y;
    } else {
      assert (x + y)[1..] == x[1..] + y;
      assert (x + y)[0] == x[0];
      CleanTagsAppend(x[1..], y);
    }
  }

  /** Order is kept: the tags of `a;b` (or `a,b`) are the tags of `a` followed
      by the tags of `b`. */
  lemma ParseTagsAtDelimiter(a: string, c: char, b: string)
    requires IsTagDelimiter(c)
    ensures ParseTags(a + [c] + b) == ParseTags(a) + ParseTags(b)
  {
    SplitAtDelimiter(a, c, b);
    CleanTagsAppend(SplitTags(a), SplitTags(b));
  }

  /** Whitespace in front of the text does not change the tags. */
  lemma ParseTagsLeadingWhitespace(w: char, s: string)
    requires IsWhitespace(w)
    ensures ParseTags([w] + s) == ParseTags(s)
  {
    var rest := SplitTags(s);
    SplitLeadingNonDelimiter(w, s);
    TrimLeadingWhitespace(w, rest[0]);
    CleanTagsSameTrim([[w] + rest[0]] + rest[1..], rest);
  }

  lemma SplitLeadingNonDelimiter(w: char, s: string)
    requires !IsTagDelimiter(w)
    ensures SplitTags([w] + s) == [[w] + SplitTags(s)[0]] + SplitTags(s)[1..]
  {
    assert ([w] + s)[1..] == s;
  }

  lemma CleanTagsSameTrim(x: seq<string>, y: seq<string>)
    requires |x| == |y| > 0 && x[1..] == y[1..] && Trim(x[0]) == Trim(y[0])
    requires forall i :: 0 <= i < |x| ==> NoDelimiter(x[i])
    requires forall i :: 0 <= i < |y| ==> NoDelimiter(y[i])
    ensures CleanTags(x) == CleanTags(y)
  {
  }

  /** A well-formed tag parses to itself. */
  lemma ParseSingleTag(t: string)
    requires IsTag(t)
    ensures ParseTags(t) == [t]
  {
    SplitWithoutDelimiter(t);
    TrimTrimmed(t);
    assert CleanTags([t]) == [t] + CleanTags([]);
  }

  /** Round trip: parsing the `", "`-join of well-formed tags gives them back,
      so an edited event keeps its tags when saved unchanged. */
  lemma {:induction false} TagsRoundTrip(tags: seq<string>)
    requires forall i :: 0 <= i < |tags| ==> IsTag(tags[i])
    ensures ParseTags(Join(tags, ", ")) == tags
  {
    if |tags| == 0 {
      ParseEmpty();
    } else if |tags| == 1 {
      ParseSingleTag(tags[0]);
    } else {
      TagsRoundTrip(tags[1..]);
      RoundTripStep(tags);
    }
  }

  /** One step of the round trip: a well-formed first tag in front of a join
      that already parses back. */
  lemma RoundTripStep(tags: seq<string>)
    requires |tags| >= 2 && IsTag(tags[0])
    requires ParseTags(Join(tags[1..], ", ")) == tags[1..]
    ensures ParseTags(Join(tags, ", ")) == tags
  {
    var rest := Join(tags[1..], ", ");
    calc {
      ParseTags(Join(tags, ", "));
    == { ParseJoinCons(tags); }
      ParseTags(tags[0]) + ParseTags([' '] + rest);
    == { ParseSingleTag(tags[0]); ParseLeadingSpace(rest); }
      [tags[0]] + tags[1..];
    ==
      tags;
    }
  }

  /** The tags of a join of two or more are those of the first element
      followed by those of the rest's join, after its leading space. */
  lemma ParseJoinCons(tags: seq<string>)
    requires |tags| >= 2
    ensures ParseTags(Join(tags, ", ")) == ParseTags(tags[0]) + ParseTags([' '] + Join(tags[1..], ", "))
  {
    JoinCons(tags);
    ParseTagsAtDelimiter(tags[0], ',', [' '] + Join(tags[1..], ", "));
  }

  lemma JoinCons(tags: seq<string>)
    requires |tags| >= 2
    ensures Join(tags, ", ") == tags[0] + [','] + ([' '] + Join(tags[1..], ", "))
  {
  }

  /** An empty field has no tags. */
  lemma ParseEmpty()
    ensures ParseTags("") == []
  {
    assert SplitTags("") == [""];
    assert Trim("") == "";
    assert CleanTags([""]) == [];
  }

  lemma ParseLeadingSpace(s: string)
    ensures ParseTags([' '] + s) == ParseTags(s)
  {
    assert IsWhitespace(' ');
    ParseTagsLeadingWhitespace(' ', s);
  }

  /** Parsing is stable under a join-and-reparse. */
  lemma ParseTagsIdempotent(text: string)
    ensures ParseTags(Join(ParseTags(text), ", ")) == ParseTags(text)
  {
    TagsRoundTrip(ParseTags(text));
  }

  // ------------------------------------------------------------------
  // Edit preload, save and delete
  // ------------------------------------------------------------------

  /** `firstOrNull { it.id == id }`. */
  function FindById(events: seq<Event>, id: string): (r: Option<Event>)
    ensures r.None? <==> forall i :: 0 <= i < |events| ==> events[i].id != Some(id)
    ensures r.Some? ==> exists i :: (0 <= i < |events| && events[i] == r.value
      && r.value.id == Some(id) && forall j :: 0 <= j < i ==> events[j].id != Some(id))
  {
    if |events| == 0 then None
    else if events[0].id == Some(id) then Some(events[0])
    else
      var r := FindById(events[1..], id);
      assert forall i :: 0 < i < |events| ==> events[i] == events[1..][i - 1];
      if r.Some? then
        var i :| 0 <= i < |events[1..]| && events[1..][i] == r.value
          && r.value.id == Some(id) && forall j :: 0 <= j < i ==> events[1..][j].id != Some(id);
        assert events[i + 1] == r.value;
        r
      else r
  }

  /** The event an edit of `eventId` starts from: the first match in the
      caller's events followed by the upcoming public ones; nothing for a
      missing or blank id. */
  function EditSource(eventId: Option<string>, myEvents: seq<Event>, publicEvents: seq<Event>): Option<Event> {
    if eventId.None? || IsBlank(eventId.value) then None
    else FindById(myEvents + publicEvents, eventId.value)
  }

  /** The preload effect: fills the form from the event found, the tags joined
      with `", "`; leaves it alone when none is found. */
  function Preload(f: FormState, eventId: Option<string>, myEvents: seq<Event>, publicEvents: seq<Event>)
    : (r: FormState)
    ensures EditSource(eventId, myEvents, publicEvents).None? ==> r == f
    ensures EditSource(eventId, myEvents, publicEvents).Some? ==>
      var e := EditSource(eventId, myEvents, publicEvents).value;
      && e in myEvents + publicEvents && e.id == eventId
      && r.title == e.title && r.description == e.description && r.location == e.location
      && r.isPublic == e.isPublic && r.start == e.startTime && r.end == e.endTime
      && r.loading == f.loading && r.tags == Join(e.tags, ", ")
  {
    match EditSource(eventId, myEvents, publicEvents)
    case None => f
    case Some(e) =>
      f.(title := e.title, description := e.description, location := e.location,
         isPublic := e.isPublic, tags := Join(e.tags, ", "), start := e.startTime, end := e.endTime)
  }

  /** The preloaded tag field parses back to the event's tags when they are
      well formed. */
  lemma PreloadTags(f: FormState, eventId: Option<string>, myEvents: seq<Event>, publicEvents: seq<Event>)
    requires EditSource(eventId, myEvents, publicEvents).Some?
    requires var e := EditSource(eventId, myEvents, publicEvents).value;
      forall i :: 0 <= i < |e.tags| ==> IsTag(e.tags[i])
    ensures ParseTags(Preload(f, eventId, myEvents, publicEvents).tags)
         == EditSource(eventId, myEvents, publicEvents).value.tags
  {
    TagsRoundTrip(EditSource(eventId, myEvents, publicEvents).value.tags);
  }

  /** The save button: when enabled, saves the form through the view-model with
      the parsed tags; both callbacks end the form's loading state. A disabled
      button does nothing. */
  function Submit(f: FormState, eventId: Option<string>, st: VM.EventsUiState, s: Store,
                  user: Option<User>, now: int, faults: Faults): (r: (FormState, Store, VM.EventsUiState))
    ensures !SaveEnabled(f) ==> r == (f, s, st)
    ensures SaveEnabled(f) ==>
      var saved := VM.Save(st, s, user, eventId, f.title, f.description, f.location,
                           f.start, f.end, f.isPublic, ParseTags(f.tags), now, faults);
      r == (f, saved.0, saved.1)
  {
    if !SaveEnabled(f) then (f, s, st)
    else
      var (s', st', _) := VM.Save(st, s, user, eventId, f.title, f.description, f.location,
                                  f.start, f.end, f.isPublic, ParseTags(f.tags), now, faults);
      (f.(loading := false), s', st')
  }

  /** An enabled save of an existing id writes the form's fields, with the
      parsed tags, under that id. */
  lemma SubmitWrites(f: FormState, id: string, st: VM.EventsUiState, s: Store, u: User, now: int, faults: Faults)
    requires SaveEnabled(f) && UpsertCall !in faults
    ensures var saved := Repo.GetById(Submit(f, Some(id), st, s, Some(u), now, faults).1, id);
      && saved.Some?
      && saved.value.title == f.title && saved.value.description == f.description
      && saved.value.location == f.location && saved.value.isPublic == f.isPublic
      && saved.value.startTime == f.start && saved.value.endTime == f.end
      && saved.value.tags == ParseTags(f.tags)
  {
    var ev := VM.FormEvent(Some(id), f.title, f.description, f.location, f.start, f.end, f.isPublic, ParseTags(f.tags));
    var saved := VM.Save(st, s, Some(u), Some(id), f.title, f.description, f.location,
                         f.start, f.end, f.isPublic, ParseTags(f.tags), now, faults);
    assert saved.2 == VM.OnDone;
    assert Repo.GetById(saved.0, id) == Repo.GetById(Repo.Upsert(s, Some(u), ev, now).value.0, id);
  }

  /** Editing an event and saving it unchanged writes back its title, texts,
      visibility, times and tags (the tags survive the join and the reparse). */
  lemma EditThenSaveKeepsEvent(f: FormState, id: string, myEvents: seq<Event>, publicEvents: seq<Event>,
                               st: VM.EventsUiState, s: Store, u: User, now: int, faults: Faults)
    requires EditSource(Some(id), myEvents, publicEvents).Some?
    requires var e := EditSource(Some(id), myEvents, publicEvents).value;
      && e.startTime < e.endTime
      && (forall i :: 0 <= i < |e.tags| ==> IsTag(e.tags[i]))
    requires !f.loading && UpsertCall !in faults
    ensures var e := EditSource(Some(id), myEvents, publicEvents).value;
      var r := Submit(Preload(f, Some(id), myEvents, publicEvents), Some(id), st, s, Some(u), now, faults);
      var saved := Repo.GetById(r.1, id);
      && saved.Some?
      && saved.value.title == e.title && saved.value.description == e.description
      && saved.value.location == e.location && saved.value.isPublic == e.isPublic
      && saved.value.startTime == e.startTime && saved.value.endTime == e.endTime
      && saved.value.tags == e.tags
  {
    var e := EditSource(Some(id), myEvents, publicEvents).value;
    var p := Preload(f, Some(id), myEvents, publicEvents);
    PreloadTags(f, Some(id), myEvents, publicEvents);
    assert SaveEnabled(p);
    SubmitWrites(p, id, st, s, u, now, faults);
  }

  /** The edit form as the app wires it: the form's route gets a view-model
      of its own whose lists are never loaded, so the preload finds nothing
      and saving an existing event unchanged overwrites it with the blank new
      form, losing its title, texts, visibility and tags. */
  lemma FreshFormEditBlanksEvent(startRead: int, endRead: int, id: string, s: Store, u: User,
                                 now: int, faults: Faults)
    requires startRead <= endRead && UpsertCall !in faults
    ensures var st := VM.InitialEventsState;
      var f := Preload(InitialForm(startRead, endRead), Some(id), st.myEvents, st.publicEvents);
      var saved := Repo.GetById(Submit(f, Some(id), st, s, Some(u), now, faults).1, id);
      && f == InitialForm(startRead, endRead)
      && saved.Some?
      && saved.value.title == "" && saved.value.description == "" && saved.value.location == ""
      && !saved.value.isPublic && saved.value.tags == []
  {
    var f := InitialForm(startRead, endRead);
    assert FindById([], id).None?;
    ParseEmpty();
    SubmitWrites(f, id, VM.InitialEventsState, s, u, now, faults);
  }

  /** The edit form with its view-model loaded from the store first: the
      creator's own event (stored under a non-blank id, in a store with fewer
      events than `listMine`'s limit) is preloaded, and saving it unchanged writes back the stored
      title, texts, visibility, times and tags. */
  lemma LoadedFormEditKeepsEvent(startRead: int, endRead: int, id: string, s: Store, u: User,
                                 now: int, faults: Faults)
    requires Valid(s) && |s.events| < Repo.MineLimit && !IsBlank(id)
    requires Repo.GetById(s, id).Some? && Repo.GetById(s, id).value.creatorId == u.uid
    requires var e := Repo.GetById(s, id).value;
      && e.startTime < e.endTime
      && (forall i :: 0 <= i < |e.tags| ==> IsTag(e.tags[i]))
    requires (forall c :: c in VM.LoadCalls(Some(u)) ==> c !in faults) && UpsertCall !in faults
    ensures var e := Repo.GetById(s, id).value;
      var st := VM.Load(VM.InitialEventsState, s, Some(u), now, faults);
      var f := Preload(InitialForm(startRead, endRead), Some(id), st.myEvents, st.publicEvents);
      var saved := Repo.GetById(Submit(f, Some(id), st, s, Some(u), now, faults).1, id);
      && saved.Some?
      && saved.value.title == e.title && saved.value.description == e.description
      && saved.value.location == e.location && saved.value.isPublic == e.isPublic
      && saved.value.startTime == e.startTime && saved.value.endTime == e.endTime
      && saved.value.tags == e.tags
  {
    var st := VM.Load(VM.InitialEventsState, s, Some(u), now, faults);
    FindsOwnEvent(s, u, id, st.myEvents, st.publicEvents, now);
    EditThenSaveKeepsEvent(InitialForm(startRead, endRead), id, st.myEvents, st.publicEvents, st, s, u, now, faults);
  }

  /** With the loaded lists, the edit source of the creator's own event is the
      stored event. */
  lemma FindsOwnEvent(s: Store, u: User, id: string, myEvents: seq<Event>, publicEvents: seq<Event>, now: int)
    requires Valid(s) && |s.events| < Repo.MineLimit && !IsBlank(id)
    requires Repo.GetById(s, id).Some? && Repo.GetById(s, id).value.creatorId == u.uid
    requires myEvents == Repo.ListMine(s, Some(u)) && publicEvents == Repo.ListPublicUpcoming(s, now)
    ensures EditSource(Some(id), myEvents, publicEvents) == Repo.GetById(s, id)
  {
    Repo.OwnEventListed(s, u, Repo.GetById(s, id).value);
    FindsStoredEvent(s, id, myEvents + publicEvents);
  }

  /** Among events read from a store with unique ids, the first one with `id`
      is the stored one. */
  lemma FindsStoredEvent(s: Store, id: string, events: seq<Event>)
    requires Valid(s) && Repo.GetById(s, id).Some? && Repo.GetById(s, id).value in events
    requires forall x :: x in events ==> x in Repo.Events(s)
    ensures FindById(events, id) == Repo.GetById(s, id)
  {
    var found := FindById(events, id).value;
    Repo.EventWithId(s, found, id);
  }

  /** The delete button exists only when editing (`eventId` non-null). */
  predicate ShowDelete(eventId: Option<string>) {
    eventId.Some?
  }

  /** Pressing delete: absent when creating, disabled while loading; otherwise
      deletes through the view-model. */
  function PressDelete(f: FormState, eventId: Option<string>, st: VM.EventsUiState, s: Store,
                       user: Option<User>, now: int, faults: Faults): (r: Option<(Store, VM.EventsUiState)>)
    ensures r.Some? <==> ShowDelete(eventId) && !f.loading
    ensures r.Some? ==> var d := VM.Delete(st, s, user, eventId.value, now, faults); r.value == (d.0, d.1)
  {
    if eventId.None? || f.loading then None
    else
      var (s', st', _) := VM.Delete(st, s, user, eventId.value, now, faults);
      Some((s', st'))
  }

  /** An enabled press whose delete does not throw removes the edited event,
      leaves every other event, all attendance and all comments as they were,
      and reloads the lists from the new store. */
  lemma PressDeleteRemoves(f: FormState, id: string, st: VM.EventsUiState, s: Store,
                           user: Option<User>, now: int, faults: Faults)
    requires !f.loading && DeleteCall !in faults
    ensures var r := PressDelete(f, Some(id), st, s, user, now, faults);
      && r.Some?
      && Repo.GetById(r.value.0, id).None?
      && (forall k :: k != id ==> Repo.GetById(r.value.0, k) == Repo.GetById(s, k))
      && r.value.0.attendance == s.attendance && r.value.0.comments == s.comments
      && r.value.1 == VM.Load(st, r.value.0, user, now, faults)
  {
  }
}
