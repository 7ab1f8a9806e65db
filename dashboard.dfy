/** DashboardState of imasterytracker/state.py: the form fields, modal flags
    and toast of the dashboard, and the event methods that validate a form
    or a payload and then change the store. A missing record is ignored
    without a toast; every successful change is committed and announced. */
module Dashboard {
  import opened Wrappers
  import opened Text
  import opened Schemas
  import opened Records
  import Metrics

  // ---------------------------------------------------------------------
  // Validation messages
  // ---------------------------------------------------------------------

  /** How a location part prints (str of a key or of an index): a key as
      itself, an index as a decimal numeral that reads back as the index. */
  function LocText(p: LocPart): (r: string)
    ensures p.Key? ==> r == p.name
    ensures p.Index? ==> AllDigits(r) && DigitsValue(r) == p.i
  {
    match p
    case Key(name) => name
    case Index(i) => DecimalRoundTrip(i); NatToDecimal(i)
  }

  /** The toast for a rejected form or import: the first location part with
      underscores turned into spaces and capitalized, then ": ", the message
      and a full stop. */
  function FormatStateError(issue: Issue): (r: string)
    requires issue.loc != []
    ensures exists field :: (r == field + ": " + issue.msg + "."
              && '_' !in field
              && Lowered(field) == Lowered(ReplaceChar(LocText(issue.loc[0]), '_', " "))
              && (field != [] ==> !IsLower(field[0]))
              && forall i :: 1 <= i < |field| ==> !IsUpper(field[i]))
  {
    var spaced := ReplaceChar(LocText(issue.loc[0]), '_', " ");
    var field := Capitalize(spaced);
    CapitalizeKeepsLetters(spaced);
    assert '_' !in field by {
      forall i | 0 <= i < |field| ensures field[i] != '_' {
        assert Lowered(field)[i] == Lowered(spaced)[i];
        assert spaced[i] in spaced;
      }
    }
    field + ": " + issue.msg + "."
  }

  // ---------------------------------------------------------------------
  // Forms and the view
  // ---------------------------------------------------------------------

  datatype StreamForm = StreamForm(name: string, focus: string, total: string, completed: string)
  datatype HabitForm = HabitForm(name: string, cadence: string, context: string)
  datatype JournalForm = JournalForm(title: string, reflection: string, mood: string)

  const EmptyStreamForm := StreamForm("", "", "6", "0")
  const EmptyHabitForm := HabitForm("", "Daily", "")
  const EmptyJournalForm := JournalForm("", "", "Curious")

  /** Everything on the dashboard that is not in the store. */
  datatype View = View(
    showStreamModal: bool,
    showHabitModal: bool,
    showJournalModal: bool,
    streamForm: StreamForm,
    habitForm: HabitForm,
    journalForm: JournalForm,
    toast: string)

  const StreamAdded := "New learning stream added."
  const ProgressUpdated := "Progress updated."
  const StreamRemoved := "Stream removed."
  const HabitAdded := "Habit added."
  const HabitCheckedIn := "Habit check-in updated."
  const HabitRemoved := "Habit removed."
  const ReflectionCaptured := "Reflection captured."
  const EntryRemoved := "Entry removed."
  const WorkspaceImported := "Workspace imported successfully."

  /** The stream form as the payload it is validated as (the counts arrive
      as text). */
  function StreamPayload(f: StreamForm): RawStream {
    RawStream(Some(f.name), Some(f.focus), Some(Numeral(f.total)), Some(Numeral(f.completed)), None)
  }

  function HabitPayload(f: HabitForm): RawHabit {
    RawHabit(Some(f.name), Some(f.cadence), Some(f.context))
  }

  /** The journal form as a payload: only an empty title is replaced by the
      default, so a whitespace-only title is still rejected. */
  function JournalPayload(f: JournalForm): RawEntry {
    RawEntry(Some(if f.title == "" then DefaultTitle else f.title), Some(f.reflection), Some(f.mood))
  }

  // ---------------------------------------------------------------------
  // What the store holds for a payload
  // ---------------------------------------------------------------------

  /** Python's `s or default` on strings. */
  function Or(s: string, default: string): (r: string)
    ensures r == s || r == default
    ensures r == [] ==> s == [] && default == []
  {
    if s == "" then default else s
  }

  /** The colour a stream gets: the given one unless it is missing or empty,
      otherwise one of the palette's. */
  predicate ColorFor(given: Option<string>, c: string) {
    if given.Some? && given.value != "" then c == given.value else c in ColorPalette
  }

  /** A nondeterministic pick stands for random.choice. */
  method ChooseColor(given: Option<string>) returns (c: string)
    ensures ColorFor(given, c)
    ensures c != []
  {
    if given.Some? && given.value != "" {
      c := given.value;
    } else {
      assert ColorPalette[0] in ColorPalette;
      c :| c in ColorPalette;
    }
  }

  predicate StoredStream(row: Row<StreamData>, s: StreamCreate, now: int) {
    && row.createdAt == now
    && row.data.name == s.name && row.data.focus == s.focus
    && row.data.total == s.total && row.data.completed == s.completed
    && ColorFor(s.color, row.data.color)
  }

  predicate StoredHabit(row: Row<HabitData>, h: HabitCreate, now: int) {
    && row.createdAt == now
    && row.data == HabitData(h.name, Or(h.cadence, DefaultCadence), h.context, None)
  }

  predicate StoredEntry(row: Row<EntryData>, e: EntryCreate, now: int) {
    && row.createdAt == now
    && row.data == EntryData(e.title, e.reflection, Or(e.mood, DefaultMood))
  }

  /** The rows hold exactly the given streams, in order; the i-th was
      created at the clock's reading number start + i. */
  predicate StreamsStored(rows: seq<Row<StreamData>>, items: seq<StreamCreate>, clock: nat -> int, start: nat) {
    |rows| == |items| && forall i :: 0 <= i < |rows| ==> StoredStream(rows[i], items[i], clock(start + i))
  }

  predicate HabitsStored(rows: seq<Row<HabitData>>, items: seq<HabitCreate>, clock: nat -> int, start: nat) {
    |rows| == |items| && forall i :: 0 <= i < |rows| ==> StoredHabit(rows[i], items[i], clock(start + i))
  }

  predicate EntriesStored(rows: seq<Row<EntryData>>, items: seq<EntryCreate>, clock: nat -> int, start: nat) {
    |rows| == |items| && forall i :: 0 <= i < |rows| ==> StoredEntry(rows[i], items[i], clock(start + i))
  }

  /** The tables hold exactly the payload's records, in payload order.
      Every record reads the clock when it is built: clock(k) is the k-th
      reading, streams first, then habits, then journal entries. */
  predicate Stored(p: WorkspaceImport, t: Tables, clock: nat -> int) {
    && StreamsStored(t.streams, p.streams, clock, 0)
    && HabitsStored(t.habits, p.habits, clock, |p.streams|)
    && EntriesStored(t.entries, p.journalEntries, clock, |p.streams| + |p.habits|)
  }

  /** A clock whose later readings are later. */
  ghost predicate Increasing(clock: nat -> int) {
    forall i: nat, j: nat :: i < j ==> clock(i) < clock(j)
  }

  /** With a clock that moves forward between records, the newest journal
      entry after an import is the last one of the payload, so the
      dashboard's latest reflection is that entry's title. */
  lemma ImportedLatestEntry(p: WorkspaceImport, t: Tables, clock: nat -> int)
    requires Stored(p, t, clock) && Increasing(clock) && p.journalEntries != []
    ensures Metrics.Newest(t.entries) == |t.entries| - 1
    ensures Metrics.LatestJournalTitle(t.entries) == p.journalEntries[|p.journalEntries| - 1].title
  {
    LastStoredIsNewest(t.entries, p.journalEntries, clock, |p.streams| + |p.habits|);
  }

  lemma LastStoredIsNewest(rows: seq<Row<EntryData>>, items: seq<EntryCreate>, clock: nat -> int, start: nat)
    requires EntriesStored(rows, items, clock, start) && Increasing(clock) && items != []
    ensures Metrics.Newest(rows) == |rows| - 1
    ensures rows[|rows| - 1].data.title == items[|items| - 1].title
  {
    var last := |rows| - 1;
    assert StoredEntry(rows[last], items[last], clock(start + last));
    forall i | 0 <= i < last
      ensures rows[i].createdAt < rows[last].createdAt
    {
      assert StoredEntry(rows[i], items[i], clock(start + i));
      assert clock(start + i) < clock(start + last);
    }
    LastIsNewest(rows);
  }

  /** When the last row is strictly newer than every other, Newest picks it. */
  lemma LastIsNewest<D>(rows: seq<Row<D>>)
    requires rows != []
    requires forall i :: 0 <= i < |rows| - 1 ==> rows[i].createdAt < rows[|rows| - 1].createdAt
    ensures Metrics.Newest(rows) == |rows| - 1
  {
    var k := Metrics.Newest(rows);
    assert rows[|rows| - 1].createdAt <= rows[k].createdAt;
  }

  /** Every row's id is at least the bound. */
  predicate IdsAtLeast<D>(rows: seq<Row<D>>, bound: nat) {
    forall i :: 0 <= i < |rows| ==> rows[i].id >= bound
  }

  /** Every row's id is at least the given lower bound of its table. */
  predicate IdsFrom(t: Tables, streamId: nat, habitId: nat, entryId: nat) {
    IdsAtLeast(t.streams, streamId) && IdsAtLeast(t.habits, habitId) && IdsAtLeast(t.entries, entryId)
  }

  /** The new milestone count: delta applied, then clamped to [0, total]. */
  function Clamp(total: int, v: int): (r: int)
    ensures total >= 0 ==> 0 <= r <= total
    ensures 0 <= v <= total ==> r == v
    ensures total >= 0 && v < 0 ==> r == 0
    ensures v > total ==> r == total
  {
    if v > total then total else if v < 0 then 0 else v
  }

  /** A check-in flip: today's completion is cleared, anything else becomes
      today. */
  function Toggled(last: Option<int>, today: int): (r: Option<int>)
    ensures r == None <==> last == Some(today)
    ensures r != None ==> r == Some(today)
  {
    if last == Some(today) then None else Some(today)
  }

  /** Two flips on one day restore a completion made today and otherwise
      leave no completion. */
  lemma ToggleTwice(last: Option<int>, today: int)
    ensures Toggled(Toggled(last, today), today) == (if last == Some(today) then last else None)
  {}

  /** Either a payload already validated (it satisfies what validation
      guarantees) or raw data still to be validated. */
  datatype ImportData = Validated(payload: WorkspaceImport) | Unvalidated(raw: RawWorkspace)

  function ImportPayload(data: ImportData): (r: Result<WorkspaceImport, seq<Issue>>)
    requires data.Validated? ==> ImportValid(data.payload)
    ensures r.Success? ==> ImportValid(r.value)
    ensures r.Failure? ==> r.error != [] && r.error[0].loc != []
    ensures data.Validated? ==> r == Success(data.payload)
  {
    match data
    case Validated(p) => Success(p)
    case Unvalidated(raw) => ValidateWorkspace(raw)
  }

  /** Stores one validated stream, with its colour or a palette colour. */
  method StoreStream(db: Store, s: StreamCreate, now: int) returns (row: Row<StreamData>)
    requires db.Valid() && s.Valid()
    modifies db
    ensures db.Valid()
    ensures row.id == old(db.nextStreamId) && StoredStream(row, s, now)
    ensures db.tables == old(db.tables).(streams := old(db.tables.streams) + [row])
    ensures db.nextStreamId == old(db.nextStreamId) + 1
    ensures db.nextHabitId == old(db.nextHabitId) && db.nextEntryId == old(db.nextEntryId) && db.commits == old(db.commits)
  {
    var color := ChooseColor(s.color);
    row := db.InsertStream(StreamData(s.name, s.focus, s.total, s.completed, color), now);
  }

  /** Stores one validated habit, an empty cadence becoming "Daily". */
  method StoreHabit(db: Store, h: HabitCreate, now: int) returns (row: Row<HabitData>)
    requires db.Valid() && h.name != []
    modifies db
    ensures db.Valid()
    ensures row.id == old(db.nextHabitId) && StoredHabit(row, h, now)
    ensures db.tables == old(db.tables).(habits := old(db.tables.habits) + [row])
    ensures db.nextHabitId == old(db.nextHabitId) + 1
    ensures db.nextStreamId == old(db.nextStreamId) && db.nextEntryId == old(db.nextEntryId) && db.commits == old(db.commits)
  {
    row := db.InsertHabit(HabitData(h.name, Or(h.cadence, DefaultCadence), h.context, None), now);
  }

  /** Stores one validated journal entry, an empty mood becoming "Curious". */
  method StoreEntry(db: Store, e: EntryCreate, now: int) returns (row: Row<EntryData>)
    requires db.Valid() && e.title != [] && e.reflection != []
    modifies db
    ensures db.Valid()
    ensures row.id == old(db.nextEntryId) && StoredEntry(row, e, now)
    ensures db.tables == old(db.tables).(entries := old(db.tables.entries) + [row])
    ensures db.nextEntryId == old(db.nextEntryId) + 1
    ensures db.nextStreamId == old(db.nextStreamId) && db.nextHabitId == old(db.nextHabitId) && db.commits == old(db.commits)
  {
    row := db.InsertEntry(EntryData(e.title, e.reflection, Or(e.mood, DefaultMood)), now);
  }

  // ---------------------------------------------------------------------
  // Export
  // ---------------------------------------------------------------------

  /** The read model of a stored stream: its columns and id. */
  function ReadStream(r: Row<StreamData>): StreamRead {
    StreamRead(r.id, r.data.name, r.data.focus, r.data.total, r.data.completed, Some(r.data.color))
  }

  function ReadHabit(r: Row<HabitData>): HabitRead {
    HabitRead(r.id, r.data.name, r.data.cadence, r.data.context, r.data.lastCompletedOn)
  }

  function ReadEntry(r: Row<EntryData>): EntryRead {
    EntryRead(r.id, r.data.title, r.data.reflection, r.data.mood, Some(r.createdAt))
  }

  /** Every table read out in store order. */
  function ExportOf(t: Tables): (e: WorkspaceExport)
    ensures |e.streams| == |t.streams| && |e.habits| == |t.habits| && |e.journalEntries| == |t.entries|
    ensures forall i :: 0 <= i < |t.streams| ==> e.streams[i] == ReadStream(t.streams[i])
    ensures forall i :: 0 <= i < |t.habits| ==> e.habits[i] == ReadHabit(t.habits[i])
    ensures forall i :: 0 <= i < |t.entries| ==> e.journalEntries[i] == ReadEntry(t.entries[i])
  {
    WorkspaceExport(
      seq(|t.streams|, i requires 0 <= i < |t.streams| => ReadStream(t.streams[i])),
      seq(|t.habits|, i requires 0 <= i < |t.habits| => ReadHabit(t.habits[i])),
      seq(|t.entries|, i requires 0 <= i < |t.entries| => ReadEntry(t.entries[i])))
  }

  /** Exporting after a replace gives back the imported records in order:
      the same fields, with the defaults for an empty cadence or mood, a
      colour for a stream that had none, no completion, and each record's
      own creation time. */
  lemma ExportAfterReplace(p: WorkspaceImport, t: Tables, clock: nat -> int)
    requires Stored(p, t, clock)
    ensures var e := ExportOf(t);
      && |e.streams| == |p.streams| && |e.habits| == |p.habits| && |e.journalEntries| == |p.journalEntries|
      && (forall i :: 0 <= i < |e.streams| ==>
            e.streams[i].name == p.streams[i].name && e.streams[i].focus == p.streams[i].focus
            && e.streams[i].total == p.streams[i].total && e.streams[i].completed == p.streams[i].completed
            && e.streams[i].color.Some? && ColorFor(p.streams[i].color, e.streams[i].color.value))
      && (forall i :: 0 <= i < |e.habits| ==>
            e.habits[i].name == p.habits[i].name && e.habits[i].context == p.habits[i].context
            && e.habits[i].cadence == Or(p.habits[i].cadence, DefaultCadence) && e.habits[i].lastCompletedOn.None?)
      && (forall i :: 0 <= i < |e.journalEntries| ==>
            e.journalEntries[i].title == p.journalEntries[i].title
            && e.journalEntries[i].reflection == p.journalEntries[i].reflection
            && e.journalEntries[i].mood == Or(p.journalEntries[i].mood, DefaultMood)
            && e.journalEntries[i].createdAt == Some(clock(|p.streams| + |p.habits| + i)))
  {}

  // ---------------------------------------------------------------------
  // The state object
  // ---------------------------------------------------------------------

  class DashboardState {
    const db: Store
    var showStreamModal: bool
    var showHabitModal: bool
    var showJournalModal: bool
    var streamForm: StreamForm
    var habitForm: HabitForm
    var journalForm: JournalForm
    var toast: string

    ghost predicate Valid()
      reads this, db
    {
      db.Valid()
    }

    ghost function ViewOf(): View
      reads this
    {
      View(showStreamModal, showHabitModal, showJournalModal, streamForm, habitForm, journalForm, toast)
    }

    constructor (db: Store)
      ensures this.db == db
      ensures ViewOf() == View(false, false, false, EmptyStreamForm, EmptyHabitForm, EmptyJournalForm, "")
    {
      this.db := db;
      showStreamModal, showHabitModal, showJournalModal := false, false, false;
      streamForm, habitForm, journalForm := EmptyStreamForm, EmptyHabitForm, EmptyJournalForm;
      toast := "";
    }

    method OpenStreamModal()
      modifies this
      ensures ViewOf() == old(ViewOf()).(showStreamModal := true)
    {
      showStreamModal := true;
    }

    method CloseStreamModal()
      modifies this
      ensures ViewOf() == old(ViewOf()).(showStreamModal := false, streamForm := EmptyStreamForm)
    {
      showStreamModal := false;
      streamForm := EmptyStreamForm;
    }

    method OpenHabitModal()
      modifies this
      ensures ViewOf() == old(ViewOf()).(showHabitModal := true)
    {
      showHabitModal := true;
    }

    method CloseHabitModal()
      modifies this
      ensures ViewOf() == old(ViewOf()).(showHabitModal := false, habitForm := EmptyHabitForm)
    {
      showHabitModal := false;
      habitForm := EmptyHabitForm;
    }

    method OpenJournalModal()
      modifies this
      ensures ViewOf() == old(ViewOf()).(showJournalModal := true)
    {
      showJournalModal := true;
    }

    method CloseJournalModal()
      modifies this
      ensures ViewOf() == old(ViewOf()).(showJournalModal := false, journalForm := EmptyJournalForm)
    {
      showJournalModal := false;
      journalForm := EmptyJournalForm;
    }

    /** What a rejection leaves behind: only the toast changed, to the
        first issue's message; the store is untouched. */
    ghost predicate Rejected(issue: Issue, view: View, before: Tables, commits: seq<Tables>)
      requires issue.loc != []
      reads this, db
    {
      ViewOf() == view.(toast := FormatStateError(issue)) && db.tables == before && db.commits == commits
    }

    /** A rejected form or import only reports its first issue. */
    method Reject(issue: Issue)
      requires issue.loc != []
      modifies this
      ensures Rejected(issue, old(ViewOf()), db.tables, db.commits)
    {
      toast := FormatStateError(issue);
    }

    method ClearToast()
      modifies this
      ensures ViewOf() == old(ViewOf()).(toast := "")
    {
      toast := "";
    }

    /** Validates the stream form; a rejection only sets the toast, an
        accepted stream is appended with a fresh id and committed, and the
        form is closed and cleared. */
    method AddStream(now: int)
      requires Valid()
      modifies this, db
      ensures Valid()
      ensures var v := ValidateStream(StreamPayload(old(streamForm)));
        v.Failure? ==> Rejected(v.error[0], old(ViewOf()), old(db.tables), old(db.commits))
      ensures var v := ValidateStream(StreamPayload(old(streamForm)));
        v.Success? ==> StreamAccepted(v.value, now, old(ViewOf()), old(db.tables), old(db.nextStreamId), old(db.commits))
    {
      var v := ValidateStream(StreamPayload(streamForm));
      SettleStream(v, now);
    }

    /** Reports the first issue of a rejected stream, or stores the
        accepted one. */
    method SettleStream(v: Result<StreamCreate, seq<Issue>>, now: int)
      requires Valid()
      requires v.Failure? ==> v.error != [] && v.error[0].loc != []
      requires v.Success? ==> v.value.Valid()
      modifies this, db
      ensures Valid()
      ensures v.Failure? ==> Rejected(v.error[0], old(ViewOf()), old(db.tables), old(db.commits))
      ensures v.Success? ==> StreamAccepted(v.value, now, old(ViewOf()), old(db.tables), old(db.nextStreamId), old(db.commits))
    {
      if v.Failure? {
        Reject(v.error[0]);
      } else {
        AcceptStream(v.value, now);
      }
    }

    /** What accepting a stream leaves behind: the stream appended with the
        next id and committed, the form closed and cleared, the toast set. */
    ghost predicate StreamAccepted(p: StreamCreate, now: int, view: View, before: Tables, nextId: nat, commits: seq<Tables>)
      reads this, db
    {
      && ViewOf() == view.(showStreamModal := false, streamForm := EmptyStreamForm, toast := StreamAdded)
      && db.tables.habits == before.habits && db.tables.entries == before.entries
      && |db.tables.streams| == |before.streams| + 1
      && db.tables.streams[..|before.streams|] == before.streams
      && db.tables.streams[|before.streams|].id == nextId
      && StoredStream(db.tables.streams[|before.streams|], p, now)
      && db.commits == commits + [db.tables]
    }

    method AcceptStream(p: StreamCreate, now: int)
      requires Valid() && p.Valid()
      modifies this, db
      ensures Valid()
      ensures StreamAccepted(p, now, old(ViewOf()), old(db.tables), old(db.nextStreamId), old(db.commits))
    {
      var row := StoreStream(db, p, now);
      db.Commit();
      CloseStreamModal();
      toast := StreamAdded;
    }

    /** Moves a stream's completed count by delta, clamped to [0, total]; an
        unknown id changes nothing and sets no toast. */
    method UpdateStreamProgress(id: int, delta: int)
      requires Valid()
      modifies this, db
      ensures Valid()
      ensures Find(old(db.tables.streams), id).None? ==>
        (ViewOf() == old(ViewOf()) && db.tables == old(db.tables) && db.commits == old(db.commits))
      ensures Find(old(db.tables.streams), id).Some? ==>
        var i := Find(old(db.tables.streams), id).value;
        var s := old(db.tables.streams)[i].data;
        (&& db.tables == old(db.tables).(streams := old(db.tables.streams)[i := old(db.tables.streams)[i].(data := s.(completed := Clamp(s.total, s.completed + delta)))])
         && 0 <= db.tables.streams[i].data.completed <= db.tables.streams[i].data.total
         && db.commits == old(db.commits) + [db.tables]
         && ViewOf() == old(ViewOf()).(toast := ProgressUpdated))
    {
      var found := Find(db.tables.streams, id);
      if found.None? {
        return;
      }
      var i := found.value;
      var s := db.tables.streams[i].data;
      assert s.Valid();
      db.UpdateStreamAt(i, s.(completed := Clamp(s.total, s.completed + delta)));
      db.Commit();
      toast := ProgressUpdated;
    }

    method RemoveStream(id: int)
      requires Valid()
      modifies this, db
      ensures Valid()
      ensures Find(old(db.tables.streams), id).None? ==>
        (ViewOf() == old(ViewOf()) && db.tables == old(db.tables) && db.commits == old(db.commits))
      ensures Find(old(db.tables.streams), id).Some? ==>
        (&& db.tables == old(db.tables).(streams := RemoveAt(old(db.tables.streams), Find(old(db.tables.streams), id).value))
         && Find(db.tables.streams, id).None?
         && db.commits == old(db.commits) + [db.tables]
         && ViewOf() == old(ViewOf()).(toast := StreamRemoved))
    {
      var found := Find(db.tables.streams, id);
      if found.None? {
        return;
      }
      db.DeleteStreamAt(found.value);
      db.Commit();
      toast := StreamRemoved;
    }

    /** Validates the habit form; an accepted habit is stored with an empty
        cadence replaced by "Daily" and no completion. */
    method AddHabit(now: int)
      requires Valid()
      modifies this, db
      ensures Valid()
      ensures var v := ValidateHabit(HabitPayload(old(habitForm)));
        v.Failure? ==> Rejected(v.error[0], old(ViewOf()), old(db.tables), old(db.commits))
      ensures var v := ValidateHabit(HabitPayload(old(habitForm)));
        v.Success? ==> HabitAccepted(v.value, now, old(ViewOf()), old(db.tables), old(db.nextHabitId), old(db.commits))
    {
      var v := ValidateHabit(HabitPayload(habitForm));
      if v.Failure? {
        Reject(v.error[0]);
        return;
      }
      AcceptHabit(v.value, now);
    }

    ghost predicate HabitAccepted(h: HabitCreate, now: int, view: View, before: Tables, nextId: nat, commits: seq<Tables>)
      reads this, db
    {
      && ViewOf() == view.(showHabitModal := false, habitForm := EmptyHabitForm, toast := HabitAdded)
      && db.tables == before.(habits := before.habits + [Row(nextId, now, HabitData(h.name, Or(h.cadence, DefaultCadence), h.context, None))])
      && db.commits == commits + [db.tables]
    }

    method AcceptHabit(h: HabitCreate, now: int)
      requires Valid() && h.name != []
      modifies this, db
      ensures Valid()
      ensures HabitAccepted(h, now, old(ViewOf()), old(db.tables), old(db.nextHabitId), old(db.commits))
    {
      var row := StoreHabit(db, h, now);
      db.Commit();
      CloseHabitModal();
      toast := HabitAdded;
    }

    /** Flips today's check-in of a habit; an unknown id changes nothing. */
    method ToggleHabit(id: int, today: int)
      requires Valid()
      modifies this, db
      ensures Valid()
      ensures Find(old(db.tables.habits), id).None? ==>
        (ViewOf() == old(ViewOf()) && db.tables == old(db.tables) && db.commits == old(db.commits))
      ensures Find(old(db.tables.habits), id).Some? ==>
        var i := Find(old(db.tables.habits), id).value;
        var h := old(db.tables.habits)[i].data;
        (&& db.tables == old(db.tables).(habits := old(db.tables.habits)[i := old(db.tables.habits)[i].(data := h.(lastCompletedOn := Toggled(h.lastCompletedOn, today)))])
         && db.commits == old(db.commits) + [db.tables]
         && ViewOf() == old(ViewOf()).(toast := HabitCheckedIn))
    {
      var found := Find(db.tables.habits, id);
      if found.None? {
        return;
      }
      var i := found.value;
      var h := db.tables.habits[i].data;
      db.UpdateHabitAt(i, h.(lastCompletedOn := Toggled(h.lastCompletedOn, today)));
      db.Commit();
      toast := HabitCheckedIn;
    }

    method RemoveHabit(id: int)
      requires Valid()
      modifies this, db
      ensures Valid()
      ensures Find(old(db.tables.habits), id).None? ==>
        (ViewOf() == old(ViewOf()) && db.tables == old(db.tables) && db.commits == old(db.commits))
      ensures Find(old(db.tables.habits), id).Some? ==>
        (&& db.tables == old(db.tables).(habits := RemoveAt(old(db.tables.habits), Find(old(db.tables.habits), id).value))
         && Find(db.tables.habits, id).None?
         && db.commits == old(db.commits) + [db.tables]
         && ViewOf() == old(ViewOf()).(toast := HabitRemoved))
    {
      var found := Find(db.tables.habits, id);
      if found.None? {
        return;
      }
      db.DeleteHabitAt(found.value);
      db.Commit();
      toast := HabitRemoved;
    }

    /** Validates the journal form, an empty title standing for the default
        one; an accepted entry is stored with an empty mood replaced by
        "Curious". */
    method AddJournalEntry(now: int)
      requires Valid()
      modifies this, db
      ensures Valid()
      ensures var v := ValidateEntry(JournalPayload(old(journalForm)));
        v.Failure? ==> Rejected(v.error[0], old(ViewOf()), old(db.tables), old(db.commits))
      ensures var v := ValidateEntry(JournalPayload(old(journalForm)));
        v.Success? ==> EntryAccepted(v.value, now, old(ViewOf()), old(db.tables), old(db.nextEntryId), old(db.commits))
    {
      SubmitEntry(JournalPayload(journalForm), now);
    }

    method SubmitEntry(raw: RawEntry, now: int)
      requires Valid()
      modifies this, db
      ensures Valid()
      ensures var v := ValidateEntry(raw);
        v.Failure? ==> Rejected(v.error[0], old(ViewOf()), old(db.tables), old(db.commits))
      ensures var v := ValidateEntry(raw);
        v.Success? ==> EntryAccepted(v.value, now, old(ViewOf()), old(db.tables), old(db.nextEntryId), old(db.commits))
    {
      var v := ValidateEntry(raw);
      if v.Failure? {
        Reject(v.error[0]);
        return;
      }
      AcceptEntry(v.value, now);
    }

    ghost predicate EntryAccepted(e: EntryCreate, now: int, view: View, before: Tables, nextId: nat, commits: seq<Tables>)
      reads this, db
    {
      && ViewOf() == view.(showJournalModal := false, journalForm := EmptyJournalForm, toast := ReflectionCaptured)
      && db.tables == before.(entries := before.entries + [Row(nextId, now, EntryData(e.title, e.reflection, Or(e.mood, DefaultMood)))])
      && db.commits == commits + [db.tables]
    }

    method AcceptEntry(e: EntryCreate, now: int)
      requires Valid() && e.title != [] && e.reflection != []
      modifies this, db
      ensures Valid()
      ensures EntryAccepted(e, now, old(ViewOf()), old(db.tables), old(db.nextEntryId), old(db.commits))
    {
      var row := StoreEntry(db, e, now);
      db.Commit();
      CloseJournalModal();
      toast := ReflectionCaptured;
    }

    method RemoveJournalEntry(id: int)
      requires Valid()
      modifies this, db
      ensures Valid()
      ensures Find(old(db.tables.entries), id).None? ==>
        (ViewOf() == old(ViewOf()) && db.tables == old(db.tables) && db.commits == old(db.commits))
      ensures Find(old(db.tables.entries), id).Some? ==>
        (&& db.tables == old(db.tables).(entries := RemoveAt(old(db.tables.entries), Find(old(db.tables.entries), id).value))
         && Find(db.tables.entries, id).None?
         && db.commits == old(db.commits) + [db.tables]
         && ViewOf() == old(ViewOf()).(toast := EntryRemoved))
    {
      var found := Find(db.tables.entries, id);
      if found.None? {
        return;
      }
      db.DeleteEntryAt(found.value);
      db.Commit();
      toast := EntryRemoved;
    }

    /** Validates first; a rejected payload only sets the toast. An accepted
        one replaces the whole workspace and is announced. */
    method ImportWorkspace(data: ImportData, clock: nat -> int)
      requires Valid()
      requires data.Validated? ==> ImportValid(data.payload)
      modifies this, db
      ensures Valid()
      ensures var v := ImportPayload(data);
        v.Failure? ==> Rejected(v.error[0], old(ViewOf()), old(db.tables), old(db.commits))
      ensures var v := ImportPayload(data);
        v.Success? ==> (&& ViewOf() == old(ViewOf()).(toast := WorkspaceImported)
                        && Stored(v.value, db.tables, clock)
                        && IdsFrom(db.tables, old(db.nextStreamId), old(db.nextHabitId), old(db.nextEntryId))
                        && db.commits == old(db.commits) + [Tables([], [], []), db.tables])
    {
      var v := ImportPayload(data);
      SettleImport(v, clock);
    }

    /** Reports the first issue of a rejected payload, or replaces the
        workspace with the accepted one. */
    method SettleImport(v: Result<WorkspaceImport, seq<Issue>>, clock: nat -> int)
      requires Valid()
      requires v.Failure? ==> v.error != [] && v.error[0].loc != []
      requires v.Success? ==> ImportValid(v.value)
      modifies this, db
      ensures Valid()
      ensures v.Failure? ==> Rejected(v.error[0], old(ViewOf()), old(db.tables), old(db.commits))
      ensures v.Success? ==> (&& ViewOf() == old(ViewOf()).(toast := WorkspaceImported)
                              && Stored(v.value, db.tables, clock)
                              && IdsFrom(db.tables, old(db.nextStreamId), old(db.nextHabitId), old(db.nextEntryId))
                              && db.commits == old(db.commits) + [Tables([], [], []), db.tables])
    {
      if v.Failure? {
        Reject(v.error[0]);
      } else {
        ReplaceWorkspace(v.value, clock);
        toast := WorkspaceImported;
      }
    }

    /** Deletes every record and commits; then adds the payload's records,
        table by table in payload order, and commits again. */
    method ReplaceWorkspace(p: WorkspaceImport, clock: nat -> int)
      requires Valid() && ImportValid(p)
      modifies db
      ensures Valid()
      ensures Stored(p, db.tables, clock)
      ensures IdsFrom(db.tables, old(db.nextStreamId), old(db.nextHabitId), old(db.nextEntryId))
      ensures db.commits == old(db.commits) + [Tables([], [], []), db.tables]
    {
      db.DeleteAll();
      db.Commit();
      AppendStreams(p.streams, clock, 0);
      AppendHabits(p.habits, clock, |p.streams|);
      AppendEntries(p.journalEntries, clock, |p.streams| + |p.habits|);
      db.Commit();
    }

    /** Adds the streams to the emptied table, in order, with fresh ids. */
    method AppendStreams(items: seq<StreamCreate>, clock: nat -> int, start: nat)
      requires db.Valid() && db.tables.streams == [] && forall k :: 0 <= k < |items| ==> items[k].Valid()
      modifies db
      ensures db.Valid()
      ensures StreamsStored(db.tables.streams, items, clock, start)
      ensures IdsAtLeast(db.tables.streams, old(db.nextStreamId))
      ensures db.tables.habits == old(db.tables.habits) && db.tables.entries == old(db.tables.entries)
      ensures db.nextHabitId == old(db.nextHabitId) && db.nextEntryId == old(db.nextEntryId) && db.commits == old(db.commits)
    {
      for i := 0 to |items|
        invariant db.Valid()
        invariant StreamsStored(db.tables.streams, items[..i], clock, start)
        invariant IdsAtLeast(db.tables.streams, old(db.nextStreamId))
        invariant db.nextStreamId >= old(db.nextStreamId)
        invariant db.tables.habits == old(db.tables.habits) && db.tables.entries == old(db.tables.entries)
        invariant db.nextHabitId == old(db.nextHabitId) && db.nextEntryId == old(db.nextEntryId) && db.commits == old(db.commits)
      {
        var row := StoreStream(db, items[i], clock(start + i));
        assert items[..i + 1] == items[..i] + [items[i]];
      }
      assert items[..|items|] == items;
    }

    /** Adds the habits to the emptied table, in order, with fresh ids. */
    method AppendHabits(items: seq<HabitCreate>, clock: nat -> int, start: nat)
      requires db.Valid() && db.tables.habits == [] && forall k :: 0 <= k < |items| ==> items[k].name != []
      modifies db
      ensures db.Valid()
      ensures HabitsStored(db.tables.habits, items, clock, start)
      ensures IdsAtLeast(db.tables.habits, old(db.nextHabitId))
      ensures db.tables.streams == old(db.tables.streams) && db.tables.entries == old(db.tables.entries)
      ensures db.nextStreamId == old(db.nextStreamId) && db.nextEntryId == old(db.nextEntryId) && db.commits == old(db.commits)
    {
      for i := 0 to |items|
        invariant db.Valid()
        invariant HabitsStored(db.tables.habits, items[..i], clock, start)
        invariant IdsAtLeast(db.tables.habits, old(db.nextHabitId))
        invariant db.nextHabitId >= old(db.nextHabitId)
        invariant db.tables.streams == old(db.tables.streams) && db.tables.entries == old(db.tables.entries)
        invariant db.nextStreamId == old(db.nextStreamId) && db.nextEntryId == old(db.nextEntryId) && db.commits == old(db.commits)
      {
        var row := StoreHabit(db, items[i], clock(start + i));
        assert items[..i + 1] == items[..i] + [items[i]];
      }
      assert items[..|items|] == items;
    }

    /** Adds the journal entries to the emptied table, in order, with fresh ids. */
    method AppendEntries(items: seq<EntryCreate>, clock: nat -> int, start: nat)
      requires db.Valid() && db.tables.entries == [] && forall k :: 0 <= k < |items| ==> items[k].title != [] && items[k].reflection != []
      modifies db
      ensures db.Valid()
      ensures EntriesStored(db.tables.entries, items, clock, start)
      ensures IdsAtLeast(db.tables.entries, old(db.nextEntryId))
      ensures db.tables.streams == old(db.tables.streams) && db.tables.habits == old(db.tables.habits)
      ensures db.nextStreamId == old(db.nextStreamId) && db.nextHabitId == old(db.nextHabitId) && db.commits == old(db.commits)
    {
      for i := 0 to |items|
        invariant db.Valid()
        invariant EntriesStored(db.tables.entries, items[..i], clock, start)
        invariant IdsAtLeast(db.tables.entries, old(db.nextEntryId))
        invariant db.nextEntryId >= old(db.nextEntryId)
        invariant db.tables.streams == old(db.tables.streams) && db.tables.habits == old(db.tables.habits)
        invariant db.nextStreamId == old(db.nextStreamId) && db.nextHabitId == old(db.nextHabitId) && db.commits == old(db.commits)
      {
        var row := StoreEntry(db, items[i], clock(start + i));
        assert items[..i + 1] == items[..i] + [items[i]];
      }
      assert items[..|items|] == items;
    }

    /** The three tables as read models, in table order. */
    method ExportWorkspace() returns (e: WorkspaceExport)
      ensures e == ExportOf(db.tables)
    {
      e := ExportOf(db.tables);
    }
  }
}
