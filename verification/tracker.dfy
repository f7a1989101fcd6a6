/**
 * The `App` controller's data state and its handlers, with the browser
 * stripped away: the in-memory collection (`#workouts`), the persisted
 * collection, and the last map click (`#mapEvent`). Rendering, the map and
 * the form's visibility are not part of the state. `location.reload()` is a
 * fresh start from storage.
 */
module Tracker {
  import opened Wrappers
  import opened Validation
  import opened Workouts
  import opened Store

  /** The submitted form: the type selector and the fields read as numbers (`+input.value`). */
  datatype Form = Form(kind: Kind, distance: Num, duration: Num, cadence: Num, elevation: Num)

  datatype App = App(workouts: seq<Workout>, storage: Storage, mapEvent: Option<Coords>)

  /** What a handler shows besides its effect: a blocking prompt, or an exception it does not catch. */
  datatype Signal = Prompt(message: string) | Uncaught(error: string)

  /** The state after a handler, and what it signalled; a signalled handler leaves the state as it was. */
  datatype Outcome = Outcome(next: App, signal: Option<Signal>)

  const InvalidInputMessage := "Please enter a positive numbers"

  /**
   * Memory and storage agree: storage holds the in-memory sequence as a save
   * writes it, or the key is absent and memory is empty.
   */
  predicate Synced(app: App) {
    app.storage == Some(Saved(app.workouts)) || (app.storage.None? && app.workouts == [])
  }

  /** Synced, and every record's derived fields agree with the fields they were derived from. */
  predicate Consistent(app: App) {
    && Synced(app)
    && forall k :: 0 <= k < |app.workouts| ==> app.workouts[k].WellFormed()
  }

  /**
   * `new App()` when the page loads, which is also the state after
   * `location.reload()`: memory is restored from storage, no map click yet.
   */
  function Startup(storage: Storage): (app: App)
    ensures app.storage == storage && app.mapEvent.None?
    ensures storage.None? ==> app.workouts == []
    ensures storage.Some? ==> app.workouts == storage.value
    ensures Persisted(storage) ==> Synced(app) && Saved(app.workouts) == app.workouts
  {
    App(Load(storage), storage, None)
  }

  /** `_showForm`: remember where the map was clicked. */
  function ShowForm(app: App, at: Coords): (next: App)
    ensures next.mapEvent == Some(at)
    ensures next.workouts == app.workouts && next.storage == app.storage
  {
    app.(mapEvent := Some(at))
  }

  /**
   * The validation branches of `_newWorkout`: a run checks distance,
   * duration and cadence; a ride checks distance and duration only.
   */
  function Accepts(form: Form): (ok: bool)
    ensures ok <==>
      && IsPositiveFinite(form.distance)
      && IsPositiveFinite(form.duration)
      && (form.kind == RunningKind ==> IsPositiveFinite(form.cadence))
  {
    ValidPair(form.distance, form.duration);
    ValidTriple(form.distance, form.duration, form.cadence);
    match form.kind
    case RunningKind => IsValidInput([form.distance, form.duration, form.cadence])
    case CyclingKind => IsValidInput([form.distance, form.duration])
  }

  /** `_newWorkout` after validation: `new Running(...)` or `new Cycling(...)` at the clicked position. */
  function NewWorkout(form: Form, now: nat, date: CalendarDay, at: Coords): (w: Workout)
    requires Accepts(form)
    ensures w.Kind() == form.kind && w.WellFormed()
    ensures w.id == MakeId(now) && w.date == date && w.coords == at
    ensures w.distance == form.distance.value && w.duration == form.duration.value
    ensures w.Running? ==> w.cadence == form.cadence.value
    ensures w.Cycling? ==> w.elevationGain == form.elevation
  {
    match form.kind
    case RunningKind =>
      NewRunning(now, date, at, form.distance.value, form.duration.value, form.cadence.value)
    case CyclingKind =>
      NewCycling(now, date, at, form.distance.value, form.duration.value, form.elevation)
  }

  /**
   * `_newWorkout`: reading the click position throws before any validation
   * when the map was never clicked; invalid input is prompted and nothing
   * changes; otherwise the new record is appended and the whole collection
   * saved.
   */
  function Submit(app: App, form: Form, now: nat, date: CalendarDay): (o: Outcome)
    ensures app.mapEvent.None? ==> o.signal.Some? && o.signal.value.Uncaught?
    ensures app.mapEvent.Some? ==>
      (o.signal.None? <==>
        && IsPositiveFinite(form.distance)
        && IsPositiveFinite(form.duration)
        && (form.kind == RunningKind ==> IsPositiveFinite(form.cadence)))
    ensures app.mapEvent.Some? && o.signal.Some? ==> o.signal == Some(Prompt(InvalidInputMessage))
    ensures o.signal.Some? ==> o.next == app
    ensures o.signal.None? ==>
      var ws := o.next.workouts;
      && |ws| == |app.workouts| + 1
      && ws[..|app.workouts|] == app.workouts
      && o.next.storage == Some(Saved(ws))
      && (Load(o.next.storage) == ws <==> Persistable(ws))
      && o.next.mapEvent == app.mapEvent
      && var w := ws[|app.workouts|];
      && w.WellFormed()
      && w.Kind() == form.kind
      && w.id == MakeId(now)
      && w.date == date
      && w.coords == app.mapEvent.value
      && w.distance == form.distance.value
      && w.duration == form.duration.value
      && (w.Running? ==> w.cadence == form.cadence.value && w.cadence > 0.0)
      && (w.Cycling? ==> w.elevationGain == form.elevation)
  {
    match app.mapEvent
    case None => Outcome(app, Some(Uncaught("TypeError: this.#mapEvent is undefined")))
    case Some(at) =>
      if !Accepts(form) then Outcome(app, Some(Prompt(InvalidInputMessage)))
      else
        var ws := app.workouts + [NewWorkout(form, now, date, at)];
        Outcome(App(ws, Some(Saved(ws)), app.mapEvent), None)
  }

  /**
   * `_deleteWorkout`: filter the STORED sequence by id, save it, reload.
   * With the key absent, `JSON.parse(null)` is `null` and `.filter` throws.
   */
  function Delete(app: App, id: string): (o: Outcome)
    ensures app.storage.None? ==> o.next == app && o.signal.Some? && o.signal.value.Uncaught?
    ensures app.storage.Some? ==>
      var stored := app.storage.value;
      && o.signal.None?
      && o.next.storage == Some(o.next.workouts)
      && Synced(o.next)
      && o.next.mapEvent.None?
      && |o.next.workouts| == |stored| - CountId(stored, id)
      && (forall k :: 0 <= k < |o.next.workouts| ==> o.next.workouts[k].id != id)
      && (Persistable(stored) ==> forall w :: w in o.next.workouts <==> w in stored && w.id != id)
      && (Persistable(stored) ==> o.next.workouts == RemoveId(stored, id))
  {
    match app.storage
    case None => Outcome(app, Some(Uncaught("TypeError: null has no filter")))
    case Some(stored) =>
      RemoveIdSaved(stored, id);
      Outcome(Startup(Some(Saved(RemoveId(stored, id)))), None)
  }

  /** `_clear`: remove the storage key and reload. */
  function Clear(app: App): (next: App)
    ensures next.storage.None? && next.workouts == [] && next.mapEvent.None?
  {
    Startup(None)
  }

  // ---------------------------------------------------------------------------
  // Sessions
  // ---------------------------------------------------------------------------

  /** The user events the controller handles, and a page reload. */
  datatype Event =
    | MapClick(at: Coords)
    | SubmitForm(form: Form, now: nat, date: CalendarDay)
    | DeleteClick(id: string)
    | ClearClick
    | PageReload

  /**
   * The listeners the `App` constructor and `_loadMap` attach, each routing
   * its event to one handler, and `location.reload()`.
   */
  function Step(app: App, e: Event): (next: App)
    ensures e.MapClick? ==> next == app.(mapEvent := Some(e.at))
    ensures e.SubmitForm? && app.mapEvent.None? ==> next == app
    ensures e.SubmitForm? && app.mapEvent.Some? && !Accepts(e.form) ==> next == app
    ensures e.SubmitForm? && app.mapEvent.Some? && Accepts(e.form) ==>
      && |next.workouts| == |app.workouts| + 1
      && next.workouts[..|app.workouts|] == app.workouts
      && next.workouts[|app.workouts|].id == MakeId(e.now)
      && next.storage == Some(Saved(next.workouts))
    ensures e.DeleteClick? && app.storage.None? ==> next == app
    ensures e.DeleteClick? && app.storage.Some? ==>
      && next.storage == Some(next.workouts)
      && next.mapEvent.None?
      && |next.workouts| == |app.storage.value| - CountId(app.storage.value, e.id)
      && (forall k :: 0 <= k < |next.workouts| ==> next.workouts[k].id != e.id)
      && (Persistable(app.storage.value) ==> next.workouts == RemoveId(app.storage.value, e.id))
    ensures e.ClearClick? ==> next.storage.None? && next.workouts == [] && next.mapEvent.None?
    ensures e.PageReload? ==> next.storage == app.storage && next.workouts == Load(app.storage) && next.mapEvent.None?
  {
    match e
    case MapClick(at) => ShowForm(app, at)
    case SubmitForm(form, now, date) => Submit(app, form, now, date).next
    case DeleteClick(id) => Delete(app, id).next
    case ClearClick => Clear(app)
    case PageReload => Startup(app.storage)
  }

  function Run(app: App, events: seq<Event>): App
    decreases |events|
  {
    if events == [] then app else Run(Step(app, events[0]), events[1..])
  }

  /** The records of the saved form are well formed exactly when the records saved were. */
  lemma SavedWellFormed(ws: seq<Workout>)
    ensures (forall k :: 0 <= k < |ws| ==> ws[k].WellFormed())
        ==> forall k :: 0 <= k < |Saved(ws)| ==> Saved(ws)[k].WellFormed()
    ensures (forall k :: 0 <= k < |Saved(ws)| ==> Saved(ws)[k].WellFormed())
        ==> forall k :: 0 <= k < |ws| ==> ws[k].WellFormed()
  {
    forall k | 0 <= k < |ws|
      ensures ws[k].WellFormed() <==> Saved(ws)[k].WellFormed()
    {
      SavedRecordWellFormed(ws[k]);
    }
  }

  /** An accepted submission appends one well-formed record to well-formed ones. */
  lemma SubmitConsistent(app: App, form: Form, now: nat, date: CalendarDay)
    requires Consistent(app)
    ensures Consistent(Submit(app, form, now, date).next)
  {
    var o := Submit(app, form, now, date);
    if o.signal.None? {
      var ws, n := o.next.workouts, |app.workouts|;
      forall k | 0 <= k < |ws|
        ensures ws[k].WellFormed()
      {
        if k < n {
          assert ws[k] == ws[..n][k];
        }
      }
    }
  }

  /** Deleting keeps only stored records, and those were well formed. */
  lemma DeleteConsistent(app: App, id: string)
    requires Consistent(app)
    ensures Consistent(Delete(app, id).next)
  {
    if app.storage.Some? {
      var stored := app.storage.value;
      SavedWellFormed(app.workouts);
      var kept := RemoveId(stored, id);
      forall k | 0 <= k < |kept|
        ensures kept[k].WellFormed()
      {
        assert kept[k] in stored;
      }
      SavedWellFormed(kept);
    }
  }

  /** Every handler keeps memory and storage in agreement and every record well formed. */
  lemma StepPreservesConsistent(app: App, e: Event)
    requires Consistent(app)
    ensures Consistent(Step(app, e))
  {
    match e
    case SubmitForm(form, now, date) => SubmitConsistent(app, form, now, date);
    case DeleteClick(id) => DeleteConsistent(app, id);
    case PageReload => SavedWellFormed(app.workouts);
    case _ =>
  }

  /** From a consistent start, every session of events ends consistent. */
  lemma {:induction false} RunPreservesConsistent(app: App, events: seq<Event>)
    requires Consistent(app)
    ensures Consistent(Run(app, events))
    decreases |events|
  {
    if events != [] {
      StepPreservesConsistent(app, events[0]);
      RunPreservesConsistent(Step(app, events[0]), events[1..]);
    }
  }

  /** A page loaded from storage that a save wrote, holding well-formed records, starts consistent. */
  lemma StartupConsistent(storage: Storage)
    requires Persisted(storage)
    requires storage.Some? ==> forall k :: 0 <= k < |storage.value| ==> storage.value[k].WellFormed()
    ensures Consistent(Startup(storage))
  {
  }

  /**
   * While memory and storage agree, deleting from storage is deleting from
   * memory and saving the rest, and a collection shown on the page can
   * always be deleted from.
   */
  lemma DeleteFiltersMemory(app: App, id: string)
    requires Synced(app) && app.workouts != []
    ensures Delete(app, id).signal.None?
    ensures Delete(app, id).next.workouts == Saved(RemoveId(app.workouts, id))
    ensures Persistable(app.workouts) ==> Delete(app, id).next.workouts == RemoveId(app.workouts, id)
  {
    RemoveIdSaved(app.workouts, id);
    SavedIdempotent(RemoveId(app.workouts, id));
  }

  /**
   * Reloading after any session shows the in-memory collection in its saved
   * form: exactly that collection, derived fields included, unless a ride's
   * elevation is NaN or infinite, which comes back `null`.
   */
  lemma ReloadKeepsMemory(app: App, events: seq<Event>)
    requires Consistent(app)
    ensures Startup(Run(app, events).storage).workouts == Saved(Run(app, events).workouts)
    ensures Startup(Run(app, events).storage).workouts == Run(app, events).workouts
        <==> Persistable(Run(app, events).workouts)
  {
    RunPreservesConsistent(app, events);
  }

  /** After clearing, a reload finds nothing, whatever was stored before. */
  lemma ClearThenReload(app: App)
    ensures Startup(Clear(app).storage).workouts == []
    ensures Clear(Clear(app)) == Clear(app)
  {
  }

  /**
   * Storage is shared by every page of the site and `_newWorkout` overwrites
   * it with this page's memory: a record another page saved since this one
   * loaded, with an id this page does not hold, is gone after a submission.
   */
  lemma SubmitOverwritesStorage(app: App, form: Form, now: nat, date: CalendarDay, other: Workout)
    requires app.mapEvent.Some? && Accepts(form)
    requires app.storage.Some? && other in app.storage.value
    requires other.id != MakeId(now) && forall w :: w in app.workouts ==> w.id != other.id
    ensures forall w :: w in Load(Submit(app, form, now, date).next.storage) ==> w.id != other.id
  {
    var ws := Submit(app, form, now, date).next.workouts;
    forall w | w in Saved(ws)
      ensures w.id != other.id
    {
      var k :| 0 <= k < |ws| && Saved(ws)[k] == w;
      if k < |app.workouts| {
        assert ws[k] == ws[..|app.workouts|][k];
        assert ws[k] in app.workouts;
      }
    }
  }

  // ---------------------------------------------------------------------------
  // Ids over a session
  // ---------------------------------------------------------------------------

  /** Record `k` got its id from timestamp `stamps[k]`. */
  predicate IdsFromClock(ws: seq<Workout>, stamps: seq<nat>) {
    |ws| == |stamps| && forall k :: 0 <= k < |ws| ==> ws[k].id == MakeId(stamps[k])
  }

  /** Records created at pairwise different times, all within a 10^10 ms span, carry distinct ids. */
  lemma SessionIdsDistinct(ws: seq<Workout>, stamps: seq<nat>)
    requires IdsFromClock(ws, stamps)
    requires forall i, j :: 0 <= i < j < |stamps| ==> stamps[i] != stamps[j]
    requires forall i, j :: 0 <= i < |stamps| && 0 <= j < |stamps| ==> stamps[i] < stamps[j] + IdWindow
    ensures DistinctIds(ws)
  {
    IdWindowIsPow10();
    forall i, j | 0 <= i < j < |ws|
      ensures ws[i].id != ws[j].id
    {
      if stamps[i] < stamps[j] {
        IdsDistinctWithinWindow(stamps[i], stamps[j]);
      } else {
        IdsDistinctWithinWindow(stamps[j], stamps[i]);
      }
    }
  }

  /** A record stamped at `now` extends the clock record by `now`. */
  lemma ClockAppend(ws: seq<Workout>, stamps: seq<nat>, w: Workout, now: nat)
    requires IdsFromClock(ws, stamps) && w.id == MakeId(now)
    ensures IdsFromClock(ws + [w], stamps + [now])
  {
    forall k | 0 <= k < |ws| + 1
      ensures (ws + [w])[k].id == MakeId((stamps + [now])[k])
    {
      if k < |ws| {
        assert (ws + [w])[k] == ws[k] && (stamps + [now])[k] == stamps[k];
      }
    }
  }

  /** An accepted submission extends the clock record of the session by the submission's timestamp. */
  lemma SubmitExtendsIds(app: App, stamps: seq<nat>, form: Form, now: nat, date: CalendarDay)
    requires IdsFromClock(app.workouts, stamps)
    requires app.mapEvent.Some? && Accepts(form)
    ensures IdsFromClock(Submit(app, form, now, date).next.workouts, stamps + [now])
  {
    var ws, n := Submit(app, form, now, date).next.workouts, |app.workouts|;
    assert ws == ws[..n] + [ws[n]];
    ClockAppend(app.workouts, stamps, ws[n], now);
  }

  /** `id` is the id of some timestamp in [from, until). */
  predicate StampedIn(id: string, from: nat, until: nat) {
    exists t: nat :: from <= t < until && id == MakeId(t)
  }

  /** Every record's id is the id of some timestamp in [from, until). */
  predicate StampedWithin(ws: seq<Workout>, from: nat, until: nat) {
    forall w :: w in ws ==> StampedIn(w.id, from, until)
  }

  /** A wider window still holds every timestamp the ids came from. */
  lemma StampedWiden(ws: seq<Workout>, from: nat, until: nat, until': nat)
    requires StampedWithin(ws, from, until) && until <= until'
    ensures StampedWithin(ws, from, until')
  {
    forall w | w in ws
      ensures StampedIn(w.id, from, until')
    {
      var t: nat :| from <= t < until && w.id == MakeId(t);
      assert from <= t < until';
    }
  }

  /**
   * A record stamped at `now`, later than every timestamp the other ids
   * came from and less than 10^10 ms after the earliest, has a fresh id.
   */
  lemma AppendFreshId(ws: seq<Workout>, w: Workout, from: nat, now: nat)
    requires DistinctIds(ws) && StampedWithin(ws, from, now)
    requires w.id == MakeId(now) && from <= now < from + IdWindow
    ensures DistinctIds(ws + [w]) && StampedWithin(ws + [w], from, now + 1)
  {
    forall v | v in ws
      ensures v.id != w.id
    {
      var t: nat :| from <= t < now && v.id == MakeId(t);
      IdWindowIsPow10();
      IdsDistinctWithinWindow(t, now);
    }
    DistinctSnoc(ws, w);
    StampedWiden(ws, from, now, now + 1);
    assert StampedIn(w.id, from, now + 1);
  }

  /**
   * A submission at `now`, later than every timestamp the collection's ids
   * came from and less than 10^10 ms after the earliest of them, keeps the
   * ids distinct.
   */
  lemma SubmitKeepsIdsDistinct(app: App, form: Form, now: nat, date: CalendarDay, from: nat)
    requires DistinctIds(app.workouts) && StampedWithin(app.workouts, from, now)
    requires from <= now < from + IdWindow
    ensures DistinctIds(Submit(app, form, now, date).next.workouts)
    ensures StampedWithin(Submit(app, form, now, date).next.workouts, from, now + 1)
  {
    var o := Submit(app, form, now, date);
    if o.signal.None? {
      var ws, n := o.next.workouts, |app.workouts|;
      assert ws == ws[..n] + [ws[n]];
      AppendFreshId(app.workouts, ws[n], from, now);
    } else {
      StampedWiden(app.workouts, from, now, now + 1);
    }
  }

  /** The round trip through JSON keeps every id, so it keeps them distinct and stamped. */
  lemma SavedKeepsIds(ws: seq<Workout>, from: nat, until: nat)
    requires DistinctIds(ws) && StampedWithin(ws, from, until)
    ensures DistinctIds(Saved(ws)) && StampedWithin(Saved(ws), from, until)
  {
    var s := Saved(ws);
    forall w | w in s
      ensures StampedIn(w.id, from, until)
    {
      var k :| 0 <= k < |s| && s[k] == w;
      assert ws[k] in ws;
    }
  }

  /** Memory and storage both hold distinct ids, each the id of a timestamp in [from, until). */
  predicate IdsKept(app: App, from: nat, until: nat) {
    && DistinctIds(app.workouts) && StampedWithin(app.workouts, from, until)
    && (app.storage.Some? ==> DistinctIds(app.storage.value) && StampedWithin(app.storage.value, from, until))
  }

  /** Clicks, deletions, clears and reloads keep the ids distinct and add none. */
  lemma StepKeepsIdsDistinct(app: App, e: Event, from: nat, until: nat)
    requires IdsKept(app, from, until) && !e.SubmitForm?
    ensures IdsKept(Step(app, e), from, until)
  {
    match e
    case DeleteClick(id) =>
      if app.storage.Some? {
        var stored := app.storage.value;
        RemoveIdDistinct(stored, id);
        SavedKeepsIds(RemoveId(stored, id), from, until);
      }
    case _ =>
  }

  /** The earliest time the next submission may carry, once `e` has happened. */
  function NextFrom(e: Event, from: nat): nat {
    if e.SubmitForm? then e.now + 1 else from
  }

  /**
   * The submissions among `events` carry strictly increasing timestamps, the
   * first no earlier than `from`, all before `until`.
   */
  predicate ClockedWithin(events: seq<Event>, from: nat, until: nat)
    decreases |events|
  {
    || events == []
    || (&& (events[0].SubmitForm? ==> from <= events[0].now < until)
        && ClockedWithin(events[1..], NextFrom(events[0], from), until))
  }

  /**
   * One event of a well-clocked session keeps the ids distinct, and every id
   * comes from a time before the next submission may happen.
   */
  lemma ClockedStep(app: App, e: Event, start: nat, from: nat)
    requires IdsKept(app, start, from) && start <= from
    requires e.SubmitForm? ==> from <= e.now < start + IdWindow
    ensures IdsKept(Step(app, e), start, NextFrom(e, from))
  {
    if e.SubmitForm? {
      var o := Submit(app, e.form, e.now, e.date);
      StampedWiden(app.workouts, start, from, e.now);
      SubmitKeepsIdsDistinct(app, e.form, e.now, e.date, start);
      if o.signal.None? {
        SavedKeepsIds(o.next.workouts, start, e.now + 1);
      } else if app.storage.Some? {
        StampedWiden(app.storage.value, start, from, e.now + 1);
      }
    } else {
      StepKeepsIdsDistinct(app, e, start, from);
    }
  }

  /**
   * A session whose submissions come at strictly increasing times, all less
   * than 10^10 ms after `start`, starting from a page whose ids, in memory
   * and in storage, are distinct and come from times in [start, from),
   * keeps the ids distinct.
   */
  lemma {:induction false} RunKeepsIdsDistinct(app: App, events: seq<Event>, start: nat, from: nat)
    requires IdsKept(app, start, from) && start <= from
    requires ClockedWithin(events, from, start + IdWindow)
    ensures DistinctIds(Run(app, events).workouts)
    decreases |events|
  {
    if events != [] {
      var e := events[0];
      ClockedStep(app, e, start, from);
      RunKeepsIdsDistinct(Step(app, e), events[1..], start, NextFrom(e, from));
    }
  }

  // ---------------------------------------------------------------------------
  // Scenarios
  // ---------------------------------------------------------------------------

  /** A ride with a negative elevation gain (or none that is a number at all) is accepted. */
  lemma RideElevationUnchecked(app: App, now: nat, date: CalendarDay, elevation: Num)
    requires app.mapEvent.Some?
    ensures Submit(app, Form(CyclingKind, Finite(10.0), Finite(30.0), NaN, elevation), now, date).signal.None?
    ensures Submit(app, Form(CyclingKind, Finite(10.0), Finite(30.0), NaN, Finite(-5.0)), now, date).signal.None?
  {
  }

  /** A run with a cadence that is not a positive number is prompted and changes nothing. */
  lemma RunCadenceChecked(app: App, now: nat, date: CalendarDay, cadence: Num)
    requires app.mapEvent.Some? && !IsPositiveFinite(cadence)
    ensures Submit(app, Form(RunningKind, Finite(5.0), Finite(25.0), cadence, Finite(0.0)), now, date)
         == Outcome(app, Some(Prompt(InvalidInputMessage)))
  {
  }

  /** "Running on April 3", the description of a run on the fourth month's third day. */
  lemma AprilThirdRun()
    ensures Describe(RunningKind, CalendarDay(3, 3)) == "Running on April 3"
  {
  }

  /** Click at (51.5, -0.1), submit a 5 km run of 25 minutes at cadence 180 on April 3. */
  lemma FirstRunScenario(now: nat)
    ensures var app := ShowForm(Startup(None), Coords(51.5, -0.1));
      var o := Submit(app, Form(RunningKind, Finite(5.0), Finite(25.0), Finite(180.0), Finite(0.0)),
                      now, CalendarDay(3, 3));
      && o.signal.None?
      && |o.next.workouts| == 1
      && o.next.storage == Some(o.next.workouts)
      && o.next.workouts[0].pace == 5.0
      && o.next.workouts[0].description == "Running on April 3"
  {
    var app := ShowForm(Startup(None), Coords(51.5, -0.1));
    var form := Form(RunningKind, Finite(5.0), Finite(25.0), Finite(180.0), Finite(0.0));
    assert Accepts(form);
    var o := Submit(app, form, now, CalendarDay(3, 3));
    var w := o.next.workouts[0];
    assert w.Running? && w.pace * 5.0 == 25.0;
    AprilThirdRun();
  }

  /** A ride saved with a NaN elevation gain shows NaN until a reload, which brings back `null`. */
  lemma NaNElevationReloadsAsNull(now: nat, date: CalendarDay)
    ensures var app := ShowForm(Startup(None), Coords(51.5, -0.1));
      var o := Submit(app, Form(CyclingKind, Finite(10.0), Finite(30.0), NaN, NaN), now, date);
      && o.signal.None?
      && o.next.workouts[0].elevationGain == NaN
      && Startup(o.next.storage).workouts[0].elevationGain == JsonNull
  {
    var app := ShowForm(Startup(None), Coords(51.5, -0.1));
    var form := Form(CyclingKind, Finite(10.0), Finite(30.0), NaN, NaN);
    assert Accepts(form);
    var ws := Submit(app, form, now, date).next.workouts;
    assert Saved(ws)[0] == SavedRecord(ws[0]);
  }

  /** Deleting the only stored record leaves an empty stored sequence and an empty page. */
  lemma DeleteOnlyRecord(app: App, w: Workout)
    requires Synced(app) && app.workouts == [w]
    ensures Delete(app, w.id).next.storage == Some([])
    ensures Delete(app, w.id).next.workouts == []
  {
  }
}
