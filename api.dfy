/** The HTTP handlers of imasterytracker/api.py over the same store the
    dashboard uses: list, create and delete per table, export and import.
    Only the status and the body's meaning are modelled; a request body
    arrives already decoded into the raw payload it is validated as. */
module Api {
  import opened Wrappers
  import opened Text
  import opened Schemas
  import opened Records
  import opened Dashboard

  const StatusOk := 200
  const StatusCreated := 201
  const StatusAccepted := 202
  const StatusNoContent := 204
  const StatusBadRequest := 400
  const StatusNotFound := 404
  /** What the server answers for an exception the handler does not catch. */
  const StatusServerError := 500

  datatype Body =
    | NoBody
    | Detail(detail: string)
    | Note(status: string)
    | StreamBody(stream: StreamRead)
    | HabitBody(habit: HabitRead)
    | EntryBody(entry: EntryRead)
    | StreamList(streams: seq<StreamRead>)
    | HabitList(habits: seq<HabitRead>)
    | EntryList(entries: seq<EntryRead>)
    | ExportBody(workspace: WorkspaceExport)
    | ServerError

  datatype Response = Response(status: int, body: Body)

  const StreamNotFound := "Stream not found"
  const HabitNotFound := "Habit not found"
  const EntryNotFound := "Journal entry not found"
  const ImportedPrefix := "Workspace imported"

  // ---------------------------------------------------------------------
  // Path parameters and error details
  // ---------------------------------------------------------------------

  /** Python's int() on the path parameter, 0 when it is absent; a
      parameter that is not a numeral raises (None). */
  function PathId(param: Option<string>): (r: Option<int>)
    ensures param.None? ==> r == Some(0)
    ensures param.Some? ==> var t := Strip(param.value);
      && (r.Some? <==> (t != [] && AllDigits(t)) || (|t| >= 2 && (t[0] == '-' || t[0] == '+') && AllDigits(t[1..])))
      && (t != [] && AllDigits(t) ==> r == Some(DigitsValue(t)))
  {
    match param
    case None => Some(0)
    case Some(s) => ParseInt(s)
  }

  /** Any id printed into the path is read back. */
  lemma PathIdRoundTrip(id: int)
    ensures PathId(Some(IntToString(id))) == Some(id)
  {
    ParseIntRoundTrip(id);
  }

  /** The field an import error is reported under: the last location part,
      or "payload" for an error without a location. */
  function LastField(loc: seq<LocPart>): (r: string)
    ensures loc == [] ==> r == "payload"
    ensures loc != [] && loc[|loc| - 1].Key? ==> r == loc[|loc| - 1].name
    ensures loc != [] && loc[|loc| - 1].Index? ==> AllDigits(r) && DigitsValue(r) == loc[|loc| - 1].i
  {
    if loc == [] then "payload" else LocText(loc[|loc| - 1])
  }

  /** The detail of a rejected import: a title-cased form of the field,
      with every underscore made a space, followed by ": " and the
      message. */
  function ImportDetail(issue: Issue): (r: string)
    ensures exists field :: && r == field + ": " + issue.msg
                            && TitledFrom(field, ReplaceChar(LastField(issue.loc), '_', " "))
  {
    var spaced := ReplaceChar(LastField(issue.loc), '_', " ");
    TitleCaseSpec(spaced);
    assert TitledFrom(TitleCase(spaced), spaced);
    TitleCase(spaced) + ": " + issue.msg
  }

  /** field is source with each word's first letter upper case and every
      other letter lower case, and nothing but case changed. */
  predicate TitledFrom(field: string, source: string) {
    && |field| == |source|
    && Lowered(field) == Lowered(source)
    && forall i :: 0 <= i < |source| && IsLetter(source[i]) ==>
         (IsUpper(field[i]) <==> i == 0 || !IsLetter(source[i - 1]))
  }

  /** A title-cased field keeps no underscore: they all became spaces. */
  lemma TitledFieldHasNoUnderscore(field: string, loc: seq<LocPart>)
    requires TitledFrom(field, ReplaceChar(LastField(loc), '_', " "))
    ensures '_' !in field
  {
    var source := ReplaceChar(LastField(loc), '_', " ");
    forall i | 0 <= i < |field| ensures field[i] != '_' {
      assert Lowered(field)[i] == Lowered(source)[i];
      assert source[i] in source;
    }
  }

  /** An issue on a stream's name is reported under "Name". */
  lemma NameIssueDetail(msg: string)
    ensures ImportDetail(Issue([Key("streams"), Index(0), Key("name")], msg)) == "Name: " + msg
  {
    var loc := [Key("streams"), Index(0), Key("name")];
    assert LastField(loc) == "name";
    NameTitled();
  }

  lemma NameTitled()
    ensures TitleCase(ReplaceChar("name", '_', " ")) == "Name"
  {
    NameUnchangedByReplace();
    NameTitleCased();
  }

  lemma NameUnchangedByReplace()
    ensures ReplaceChar("name", '_', " ") == "name"
  {
    ReplaceAbsent("name", '_', " ");
  }

  lemma NameTitleCased()
    ensures TitleCase("name") == "Name"
  {
    var tail := ['a', 'm', 'e'];
    assert "name" == ['n'] + tail;
    TitleWord('n', tail);
  }

  lemma StartsWithJoin(a: string, b: string)
    ensures StartsWith(a + b, a)
  {
    assert (a + b)[..|a|] == a;
  }

  /** The toast of a successful dashboard import is what the handler looks
      for. */
  lemma ImportedToastMatches()
    ensures StartsWith(WorkspaceImported, ImportedPrefix)
  {
    assert WorkspaceImported == ImportedPrefix + " successfully.";
    StartsWithJoin(ImportedPrefix, " successfully.");
  }

  // ---------------------------------------------------------------------
  // Lists and export
  // ---------------------------------------------------------------------

  method ListStreams(db: Store) returns (resp: Response)
    ensures resp.status == StatusOk && resp.body.StreamList?
    ensures |resp.body.streams| == |db.tables.streams|
    ensures forall i :: 0 <= i < |db.tables.streams| ==> resp.body.streams[i] == ReadStream(db.tables.streams[i])
  {
    resp := Response(StatusOk, StreamList(ExportOf(db.tables).streams));
  }

  method ListHabits(db: Store) returns (resp: Response)
    ensures resp.status == StatusOk && resp.body.HabitList?
    ensures |resp.body.habits| == |db.tables.habits|
    ensures forall i :: 0 <= i < |db.tables.habits| ==> resp.body.habits[i] == ReadHabit(db.tables.habits[i])
  {
    resp := Response(StatusOk, HabitList(ExportOf(db.tables).habits));
  }

  method ListJournals(db: Store) returns (resp: Response)
    ensures resp.status == StatusOk && resp.body.EntryList?
    ensures |resp.body.entries| == |db.tables.entries|
    ensures forall i :: 0 <= i < |db.tables.entries| ==> resp.body.entries[i] == ReadEntry(db.tables.entries[i])
  {
    resp := Response(StatusOk, EntryList(ExportOf(db.tables).journalEntries));
  }

  method ExportWorkspace(db: Store) returns (resp: Response)
    ensures resp == Response(StatusOk, ExportBody(ExportOf(db.tables)))
  {
    var state := new DashboardState(db);
    var e := state.ExportWorkspace();
    resp := Response(StatusOk, ExportBody(e));
  }

  // ---------------------------------------------------------------------
  // Create
  // ---------------------------------------------------------------------

  /** after is before with one more stream row, the one just stored for s
      under the id given, and resp echoes that row as created. */
  predicate StreamCreated(before: Tables, after: Tables, s: StreamCreate, now: int, id: nat, resp: Response) {
    && |after.streams| == |before.streams| + 1
    && var row := after.streams[|before.streams|];
       && after == before.(streams := before.streams + [row])
       && row.id == id && StoredStream(row, s, now)
       && resp == Response(StatusCreated, StreamBody(ReadStream(row)))
  }

  predicate HabitCreated(before: Tables, after: Tables, h: HabitCreate, now: int, id: nat, resp: Response) {
    && |after.habits| == |before.habits| + 1
    && var row := after.habits[|before.habits|];
       && after == before.(habits := before.habits + [row])
       && row.id == id && StoredHabit(row, h, now)
       && resp == Response(StatusCreated, HabitBody(ReadHabit(row)))
  }

  predicate EntryCreated(before: Tables, after: Tables, e: EntryCreate, now: int, id: nat, resp: Response) {
    && |after.entries| == |before.entries| + 1
    && var row := after.entries[|before.entries|];
       && after == before.(entries := before.entries + [row])
       && row.id == id && StoredEntry(row, e, now)
       && resp == Response(StatusCreated, EntryBody(ReadEntry(row)))
  }

  /** Validation runs outside any handler: an invalid body is an uncaught
      error (500) and changes nothing. A valid one is stored, committed and
      echoed with its new id (201). */
  method CreateStream(db: Store, raw: RawStream, now: int) returns (resp: Response)
    requires db.Valid()
    modifies db
    ensures db.Valid()
    ensures ValidateStream(raw).Failure? ==>
      resp == Response(StatusServerError, ServerError) && db.tables == old(db.tables) && db.commits == old(db.commits)
    ensures ValidateStream(raw).Success? ==>
      && StreamCreated(old(db.tables), db.tables, ValidateStream(raw).value, now, old(db.nextStreamId), resp)
      && db.commits == old(db.commits) + [db.tables]
  {
    var v := ValidateStream(raw);
    if v.Failure? {
      resp := Response(StatusServerError, ServerError);
    } else {
      resp := StoreAndEchoStream(db, v.value, now);
    }
  }

  method StoreAndEchoStream(db: Store, s: StreamCreate, now: int) returns (resp: Response)
    requires db.Valid() && s.Valid()
    modifies db
    ensures db.Valid()
    ensures StreamCreated(old(db.tables), db.tables, s, now, old(db.nextStreamId), resp)
    ensures db.commits == old(db.commits) + [db.tables]
  {
    var row := StoreStream(db, s, now);
    db.Commit();
    resp := Response(StatusCreated, StreamBody(ReadStream(row)));
  }

  method CreateHabit(db: Store, raw: RawHabit, now: int) returns (resp: Response)
    requires db.Valid()
    modifies db
    ensures db.Valid()
    ensures ValidateHabit(raw).Failure? ==>
      resp == Response(StatusServerError, ServerError) && db.tables == old(db.tables) && db.commits == old(db.commits)
    ensures ValidateHabit(raw).Success? ==>
      && HabitCreated(old(db.tables), db.tables, ValidateHabit(raw).value, now, old(db.nextHabitId), resp)
      && db.commits == old(db.commits) + [db.tables]
  {
    var v := ValidateHabit(raw);
    if v.Failure? {
      resp := Response(StatusServerError, ServerError);
    } else {
      resp := StoreAndEchoHabit(db, v.value, now);
    }
  }

  method StoreAndEchoHabit(db: Store, h: HabitCreate, now: int) returns (resp: Response)
    requires db.Valid() && h.name != []
    modifies db
    ensures db.Valid()
    ensures HabitCreated(old(db.tables), db.tables, h, now, old(db.nextHabitId), resp)
    ensures db.commits == old(db.commits) + [db.tables]
  {
    var row := StoreHabit(db, h, now);
    db.Commit();
    resp := Response(StatusCreated, HabitBody(ReadHabit(row)));
  }

  method CreateJournalEntry(db: Store, raw: RawEntry, now: int) returns (resp: Response)
    requires db.Valid()
    modifies db
    ensures db.Valid()
    ensures ValidateEntry(raw).Failure? ==>
      resp == Response(StatusServerError, ServerError) && db.tables == old(db.tables) && db.commits == old(db.commits)
    ensures ValidateEntry(raw).Success? ==>
      && EntryCreated(old(db.tables), db.tables, ValidateEntry(raw).value, now, old(db.nextEntryId), resp)
      && db.commits == old(db.commits) + [db.tables]
  {
    var v := ValidateEntry(raw);
    if v.Failure? {
      resp := Response(StatusServerError, ServerError);
    } else {
      resp := StoreAndEchoEntry(db, v.value, now);
    }
  }

  method StoreAndEchoEntry(db: Store, e: EntryCreate, now: int) returns (resp: Response)
    requires db.Valid() && e.title != [] && e.reflection != []
    modifies db
    ensures db.Valid()
    ensures EntryCreated(old(db.tables), db.tables, e, now, old(db.nextEntryId), resp)
    ensures db.commits == old(db.commits) + [db.tables]
  {
    var row := StoreEntry(db, e, now);
    db.Commit();
    resp := Response(StatusCreated, EntryBody(ReadEntry(row)));
  }

  // ---------------------------------------------------------------------
  // Delete
  // ---------------------------------------------------------------------

  /** 404 with a detail and no change when no stream has the id; otherwise
      the stream is deleted and committed (204). */
  method DeleteStream(db: Store, param: Option<string>) returns (resp: Response)
    requires db.Valid()
    modifies db
    ensures db.Valid()
    ensures PathId(param).None? ==>
      resp == Response(StatusServerError, ServerError) && db.tables == old(db.tables) && db.commits == old(db.commits)
    ensures PathId(param).Some? && Find(old(db.tables.streams), PathId(param).value).None? ==>
      resp == Response(StatusNotFound, Detail(StreamNotFound)) && db.tables == old(db.tables) && db.commits == old(db.commits)
    ensures PathId(param).Some? && Find(old(db.tables.streams), PathId(param).value).Some? ==>
      && resp == Response(StatusNoContent, NoBody)
      && db.tables == old(db.tables).(streams := RemoveAt(old(db.tables.streams), Find(old(db.tables.streams), PathId(param).value).value))
      && Find(db.tables.streams, PathId(param).value).None?
      && db.commits == old(db.commits) + [db.tables]
  {
    var id := PathId(param);
    if id.None? {
      resp := Response(StatusServerError, ServerError);
      return;
    }
    var found := Find(db.tables.streams, id.value);
    if found.None? {
      resp := Response(StatusNotFound, Detail(StreamNotFound));
      return;
    }
    db.DeleteStreamAt(found.value);
    db.Commit();
    resp := Response(StatusNoContent, NoBody);
  }

  method DeleteHabit(db: Store, param: Option<string>) returns (resp: Response)
    requires db.Valid()
    modifies db
    ensures db.Valid()
    ensures PathId(param).None? ==>
      resp == Response(StatusServerError, ServerError) && db.tables == old(db.tables) && db.commits == old(db.commits)
    ensures PathId(param).Some? && Find(old(db.tables.habits), PathId(param).value).None? ==>
      resp == Response(StatusNotFound, Detail(HabitNotFound)) && db.tables == old(db.tables) && db.commits == old(db.commits)
    ensures PathId(param).Some? && Find(old(db.tables.habits), PathId(param).value).Some? ==>
      && resp == Response(StatusNoContent, NoBody)
      && db.tables == old(db.tables).(habits := RemoveAt(old(db.tables.habits), Find(old(db.tables.habits), PathId(param).value).value))
      && Find(db.tables.habits, PathId(param).value).None?
      && db.commits == old(db.commits) + [db.tables]
  {
    var id := PathId(param);
    if id.None? {
      resp := Response(StatusServerError, ServerError);
      return;
    }
    var found := Find(db.tables.habits, id.value);
    if found.None? {
      resp := Response(StatusNotFound, Detail(HabitNotFound));
      return;
    }
    db.DeleteHabitAt(found.value);
    db.Commit();
    resp := Response(StatusNoContent, NoBody);
  }

  method DeleteJournalEntry(db: Store, param: Option<string>) returns (resp: Response)
    requires db.Valid()
    modifies db
    ensures db.Valid()
    ensures PathId(param).None? ==>
      resp == Response(StatusServerError, ServerError) && db.tables == old(db.tables) && db.commits == old(db.commits)
    ensures PathId(param).Some? && Find(old(db.tables.entries), PathId(param).value).None? ==>
      resp == Response(StatusNotFound, Detail(EntryNotFound)) && db.tables == old(db.tables) && db.commits == old(db.commits)
    ensures PathId(param).Some? && Find(old(db.tables.entries), PathId(param).value).Some? ==>
      && resp == Response(StatusNoContent, NoBody)
      && db.tables == old(db.tables).(entries := RemoveAt(old(db.tables.entries), Find(old(db.tables.entries), PathId(param).value).value))
      && Find(db.tables.entries, PathId(param).value).None?
      && db.commits == old(db.commits) + [db.tables]
  {
    var id := PathId(param);
    if id.None? {
      resp := Response(StatusServerError, ServerError);
      return;
    }
    var found := Find(db.tables.entries, id.value);
    if found.None? {
      resp := Response(StatusNotFound, Detail(EntryNotFound));
      return;
    }
    db.DeleteEntryAt(found.value);
    db.Commit();
    resp := Response(StatusNoContent, NoBody);
  }

  // ---------------------------------------------------------------------
  // Import
  // ---------------------------------------------------------------------

  /** A payload that fails validation is answered 400 with the first
      issue's detail and changes nothing. A valid one is handed to a fresh
      dashboard state; its toast decides between 202 and 400. */
  method ImportWorkspace(db: Store, raw: RawWorkspace, clock: nat -> int) returns (resp: Response)
    requires db.Valid()
    modifies db
    ensures db.Valid()
    ensures var v := ValidateWorkspace(raw);
      v.Failure? ==> (&& resp == Response(StatusBadRequest, Detail(ImportDetail(v.error[0])))
                      && db.tables == old(db.tables) && db.commits == old(db.commits))
    ensures var v := ValidateWorkspace(raw);
      v.Success? ==> (&& resp == Response(StatusAccepted, Note("accepted"))
                      && Stored(v.value, db.tables, clock)
                      && db.commits == old(db.commits) + [Tables([], [], []), db.tables])
  {
    var v := ValidateWorkspace(raw);
    if v.Failure? {
      resp := Response(StatusBadRequest, Detail(ImportDetail(v.error[0])));
      return;
    }
    resp := ApplyImport(db, v.value, clock);
  }

  /** Runs the dashboard's import on an already validated payload. */
  method ApplyImport(db: Store, p: WorkspaceImport, clock: nat -> int) returns (resp: Response)
    requires db.Valid() && ImportValid(p)
    modifies db
    ensures db.Valid()
    ensures resp == Response(StatusAccepted, Note("accepted"))
    ensures Stored(p, db.tables, clock)
    ensures db.commits == old(db.commits) + [Tables([], [], []), db.tables]
  {
    var state := new DashboardState(db);
    state.ImportWorkspace(Validated(p), clock);
    ImportedToastMatches();
    var toast := state.toast;
    resp := if StartsWith(toast, ImportedPrefix)
      then Response(StatusAccepted, Note("accepted"))
      else Response(StatusBadRequest, Detail(toast));
  }

  /** The request of the import test: one stream with an empty name and no
      milestones is answered 400 with a detail naming the name field. */
  lemma EmptyNameImportRejected()
    ensures var v := ValidateWorkspace(RawWorkspace(Some([RawStream(Some(""), None, Some(Number(0)), None, None)]), None, None));
      v.Failure? && ImportDetail(v.error[0]) == "Name: " + MsgTooShort
  {
    EmptyNameZeroTotalImport();
    NameIssueDetail(MsgTooShort);
  }
}
