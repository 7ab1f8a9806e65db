/** The request and record schemas of imasterytracker/schemas.py: what a
    create payload looks like before and after validation, and the
    validation itself. Validation reports pydantic's error list: every
    failing field, in declaration order, each with its location and message. */
module Schemas {
  import opened Wrappers
  import opened Text

  /** One step of an error location: a field name or a list position. */
  datatype LocPart = Key(name: string) | Index(i: nat)

  /** One entry of the validation error list. */
  datatype Issue = Issue(loc: seq<LocPart>, msg: string)

  /** An integer field as it arrives: a JSON number or a text form value. */
  datatype IntInput = Number(n: int) | Numeral(s: string)

  const MsgRequired := "Field required"
  const MsgTooShort := "String should have at least 1 character"
  const MsgNotInteger := "Input should be a valid integer" + ", unable to parse string as an integer"

  function MsgAtLeast(bound: int): string {
    "Input should be greater than or equal to " + IntToString(bound)
  }

  const DefaultCadence := "Daily"
  const DefaultMood := "Curious"
  const DefaultTitle := "Untitled insight"

  // ---------------------------------------------------------------------
  // Field rules
  // ---------------------------------------------------------------------

  /** A required string with min_length=1 that is stripped before the length
      check: missing fails with "Field required", whitespace-only fails with
      the length message. */
  function RequiredText(field: string, v: Option<string>): (r: Result<string, Issue>)
    ensures r.Success? <==> v.Some? && !AllSpace(v.value)
    ensures r.Success? ==> r.value == Strip(v.value) && r.value != []
    ensures r.Failure? ==> r.error.loc == [Key(field)]
    ensures r.Failure? ==> (r.error.msg == MsgRequired <==> v.None?)
  {
    match v
    case None => Failure(Issue([Key(field)], MsgRequired))
    case Some(s) =>
      StripEmptyIffAllSpace(s);
      if Strip(s) == [] then Failure(Issue([Key(field)], MsgTooShort)) else Success(Strip(s))
  }

  /** A string with a default and min_length=1: the default is used as is
      when the field is missing, a given value is stripped and must not end
      up empty. */
  function DefaultedText(field: string, v: Option<string>, default: string): (r: Result<string, Issue>)
    ensures r.Success? <==> v.None? || !AllSpace(v.value)
    ensures v.None? ==> r == Success(default)
    ensures v.Some? && r.Success? ==> r.value == Strip(v.value) && r.value != []
    ensures r.Failure? ==> r.error == Issue([Key(field)], MsgTooShort)
  {
    match v
    case None => Success(default)
    case Some(s) =>
      StripEmptyIffAllSpace(s);
      if Strip(s) == [] then Failure(Issue([Key(field)], MsgTooShort)) else Success(Strip(s))
  }

  /** A free-text string with a default: stripped when given, never an error. */
  function OptionalText(v: Option<string>, default: string): (r: string)
    ensures v.None? ==> r == default
    ensures v.Some? ==> r == Strip(v.value) && (r == [] <==> AllSpace(v.value))
  {
    match v
    case None => default
    case Some(s) => StripEmptyIffAllSpace(s); Strip(s)
  }

  /** The integer an input denotes, if it denotes one. */
  function IntValue(v: IntInput): Option<int> {
    match v
    case Number(n) => Some(n)
    case Numeral(s) => ParseInt(s)
  }

  /** An integer field with a default and a lower bound (pydantic's ge). A
      missing field takes the default without a check. */
  function BoundedInt(field: string, v: Option<IntInput>, default: int, bound: int): (r: Result<int, Issue>)
    ensures v.None? ==> r == Success(default)
    ensures v.Some? ==> (r.Success? <==> IntValue(v.value).Some? && IntValue(v.value).value >= bound)
    ensures v.Some? && r.Success? ==> r.value == IntValue(v.value).value
    ensures r.Failure? ==> r.error.loc == [Key(field)]
    ensures r.Failure? ==> (r.error.msg == MsgNotInteger <==> IntValue(v.value).None?)
  {
    match v
    case None => Success(default)
    case Some(input) =>
      match IntValue(input)
      case None => Failure(Issue([Key(field)], MsgNotInteger))
      case Some(n) =>
        if n >= bound then Success(n)
        else
          assert MsgAtLeast(bound)[16] == 'g';
          assert MsgNotInteger[16] == 'a';
          Failure(Issue([Key(field)], MsgAtLeast(bound)))
  }

  function IssuesOf<T>(r: Result<T, Issue>): (issues: seq<Issue>)
    ensures r.Success? <==> issues == []
  {
    if r.Failure? then [r.error] else []
  }

  function Min(a: int, b: int): int { if a <= b then a else b }

  // ---------------------------------------------------------------------
  // LearningStreamCreate
  // ---------------------------------------------------------------------

  datatype RawStream = RawStream(
    name: Option<string>,
    focus: Option<string>,
    total: Option<IntInput>,
    completed: Option<IntInput>,
    color: Option<string>)

  /** A validated stream payload. */
  datatype StreamCreate = StreamCreate(name: string, focus: string, total: int, completed: int, color: Option<string>)
  {
    /** What every validated stream satisfies; the store keeps it for every row. */
    predicate Valid() {
      name != [] && 1 <= total && 0 <= completed <= total
    }
  }

  /** The value a given-or-defaulted integer field takes before the cap. */
  function GivenOr(v: Option<IntInput>, default: int): int {
    if v.Some? && IntValue(v.value).Some? then IntValue(v.value).value else default
  }

  /** Field checks in declaration order (name, focus, milestones_total,
      milestones_completed, color), then the completed count is capped at
      the total: a correction, not an error. */
  function ValidateStream(raw: RawStream): (r: Result<StreamCreate, seq<Issue>>)
    ensures r.Success? <==>
      && raw.name.Some? && !AllSpace(raw.name.value)
      && (raw.total.Some? ==> IntValue(raw.total.value).Some? && IntValue(raw.total.value).value >= 1)
      && (raw.completed.Some? ==> IntValue(raw.completed.value).Some? && IntValue(raw.completed.value).value >= 0)
    ensures r.Success? ==> r.value.Valid()
    ensures r.Success? ==> r.value.name == Strip(raw.name.value)
    ensures r.Success? ==> r.value.focus == OptionalText(raw.focus, "") && r.value.color == raw.color
    ensures r.Success? ==> r.value.total == GivenOr(raw.total, 1)
    ensures r.Success? ==> r.value.completed == Min(GivenOr(raw.completed, 0), r.value.total)
    ensures r.Failure? ==> r.error != [] && |r.error[0].loc| == 1
    ensures r.Failure? && (raw.name.None? || AllSpace(raw.name.value)) ==> r.error[0].loc == [Key("name")]
  {
    var name := RequiredText("name", raw.name);
    var focus := OptionalText(raw.focus, "");
    var total := BoundedInt("milestones_total", raw.total, 1, 1);
    var completed := BoundedInt("milestones_completed", raw.completed, 0, 0);
    var issues := IssuesOf(name) + IssuesOf(total) + IssuesOf(completed);
    if issues != [] then Failure(issues)
    else Success(StreamCreate(name.value, focus, total.value, Min(completed.value, total.value), raw.color))
  }

  // ---------------------------------------------------------------------
  // HabitCreate
  // ---------------------------------------------------------------------

  datatype RawHabit = RawHabit(name: Option<string>, cadence: Option<string>, context: Option<string>)

  datatype HabitCreate = HabitCreate(name: string, cadence: string, context: string)

  /** Only the name can fail; cadence and context are stripped and may end
      up empty. */
  function ValidateHabit(raw: RawHabit): (r: Result<HabitCreate, seq<Issue>>)
    ensures r.Success? <==> raw.name.Some? && !AllSpace(raw.name.value)
    ensures r.Success? ==> r.value.name == Strip(raw.name.value) && r.value.name != []
    ensures r.Success? ==> r.value.cadence == OptionalText(raw.cadence, DefaultCadence)
    ensures r.Success? ==> r.value.context == OptionalText(raw.context, "")
    ensures r.Failure? ==> |r.error| == 1 && r.error[0].loc == [Key("name")]
  {
    var name := RequiredText("name", raw.name);
    if name.Failure? then Failure([name.error])
    else Success(HabitCreate(name.value, OptionalText(raw.cadence, DefaultCadence), OptionalText(raw.context, "")))
  }

  // ---------------------------------------------------------------------
  // JournalEntryCreate
  // ---------------------------------------------------------------------

  datatype RawEntry = RawEntry(title: Option<string>, reflection: Option<string>, mood: Option<string>)

  datatype EntryCreate = EntryCreate(title: string, reflection: string, mood: string)

  /** The title defaults to "Untitled insight" only when it is missing; a
      given title and the reflection must be non-empty after stripping. */
  function ValidateEntry(raw: RawEntry): (r: Result<EntryCreate, seq<Issue>>)
    ensures r.Success? <==> ((raw.title.None? || !AllSpace(raw.title.value))
                             && raw.reflection.Some? && !AllSpace(raw.reflection.value))
    ensures r.Success? ==> r.value.title != [] && r.value.reflection != []
    ensures r.Success? ==> r.value.reflection == Strip(raw.reflection.value)
    ensures r.Success? ==> r.value.title == if raw.title.None? then DefaultTitle else Strip(raw.title.value)
    ensures r.Success? ==> r.value.mood == OptionalText(raw.mood, DefaultMood)
    ensures r.Failure? ==> r.error != [] && |r.error[0].loc| == 1
    ensures r.Failure? && raw.title.Some? && AllSpace(raw.title.value) ==> r.error[0].loc == [Key("title")]
    ensures r.Failure? && !(raw.title.Some? && AllSpace(raw.title.value)) ==> r.error[0].loc == [Key("reflection")]
  {
    var title := DefaultedText("title", raw.title, DefaultTitle);
    var reflection := RequiredText("reflection", raw.reflection);
    var issues := IssuesOf(title) + IssuesOf(reflection);
    if issues != [] then Failure(issues)
    else Success(EntryCreate(title.value, reflection.value, OptionalText(raw.mood, DefaultMood)))
  }

  // ---------------------------------------------------------------------
  // WorkspaceImport / WorkspaceExport
  // ---------------------------------------------------------------------

  /** A missing list is None. */
  datatype RawWorkspace = RawWorkspace(
    streams: Option<seq<RawStream>>,
    habits: Option<seq<RawHabit>>,
    journalEntries: Option<seq<RawEntry>>)

  datatype WorkspaceImport = WorkspaceImport(
    streams: seq<StreamCreate>,
    habits: seq<HabitCreate>,
    journalEntries: seq<EntryCreate>)

  /** An item's issue, located inside the list it came from. */
  function Located(key: string, i: nat, issue: Issue): Issue {
    Issue([Key(key), Index(i)] + issue.loc, issue.msg)
  }

  function LocatedAll(key: string, i: nat, issues: seq<Issue>): (r: seq<Issue>)
    ensures |r| == |issues|
    ensures forall k :: 0 <= k < |issues| ==> r[k] == Located(key, i, issues[k])
  {
    if issues == [] then [] else [Located(key, i, issues[0])] + LocatedAll(key, i, issues[1..])
  }

  /** Validates every item of a list; the issues of all failing items are
      reported in list order, each located under the list's key and the
      item's index. */
  function ValidateList<R, T>(key: string, raws: seq<R>, check: R -> Result<T, seq<Issue>>): (r: Result<seq<T>, seq<Issue>>)
    requires forall i :: 0 <= i < |raws| && check(raws[i]).Failure? ==> check(raws[i]).error != []
    ensures r.Success? <==> forall i :: 0 <= i < |raws| ==> check(raws[i]).Success?
    ensures r.Success? ==> |r.value| == |raws|
    ensures r.Success? ==> forall i :: 0 <= i < |raws| ==> r.value[i] == check(raws[i]).value
    ensures r.Failure? ==> (r.error != [] &&
              exists k :: (0 <= k < |raws| && FirstFailure(raws, check, k)
                           && r.error[0] == Located(key, k, check(raws[k]).error[0])))
  {
    if raws == [] then Success([])
    else
      var n := |raws| - 1;
      var init := raws[..n];
      assert forall i :: 0 <= i < n ==> init[i] == raws[i];
      var front := ValidateList(key, init, check);
      var last := check(raws[n]);
      if front.Success? && last.Success? then
        var all := front.value + [last.value];
        assert forall i :: 0 <= i < n ==> all[i] == front.value[i];
        Success(all)
      else if front.Success? then
        assert FirstFailure(raws, check, n);
        Failure(LocatedAll(key, n, last.error))
      else
        var k :| 0 <= k < n && FirstFailure(init, check, k) && front.error[0] == Located(key, k, check(init[k]).error[0]);
        assert FirstFailure(raws, check, k);
        Failure(front.error + (if last.Failure? then LocatedAll(key, n, last.error) else []))
  }

  /** Item k is the first item that fails. */
  predicate FirstFailure<R, T>(raws: seq<R>, check: R -> Result<T, seq<Issue>>, k: nat)
    requires k < |raws|
  {
    check(raws[k]).Failure? && forall j :: 0 <= j < k ==> check(raws[j]).Success?
  }

  function OrEmpty<T>(v: Option<seq<T>>): seq<T> {
    v.GetOr([])
  }

  /** The read models an export is made of: the stored columns with the id;
      a stream's colour is optional, a journal entry also carries its
      creation time. */
  datatype StreamRead = StreamRead(id: nat, name: string, focus: string, total: int, completed: int, color: Option<string>)
  datatype HabitRead = HabitRead(id: nat, name: string, cadence: string, context: string, lastCompletedOn: Option<int>)
  datatype EntryRead = EntryRead(id: nat, title: string, reflection: string, mood: string, createdAt: Option<int>)

  datatype WorkspaceExport = WorkspaceExport(
    streams: seq<StreamRead>,
    habits: seq<HabitRead>,
    journalEntries: seq<EntryRead>)

  /** What validation guarantees of every item of an import. */
  predicate ImportValid(p: WorkspaceImport) {
    && (forall i :: 0 <= i < |p.streams| ==> p.streams[i].Valid())
    && (forall i :: 0 <= i < |p.habits| ==> p.habits[i].name != [])
    && (forall i :: 0 <= i < |p.journalEntries| ==> p.journalEntries[i].title != [] && p.journalEntries[i].reflection != [])
  }

  /** Every item of the list passes its check. */
  predicate AllAccepted<R, T>(raws: seq<R>, check: R -> Result<T, seq<Issue>>) {
    forall i :: 0 <= i < |raws| ==> check(raws[i]).Success?
  }

  /** Validates the three lists in declaration order; a missing list is
      empty. The first issue reported belongs to the first list, in the
      order streams, habits, journal_entries, that holds a failing item. */
  function ValidateWorkspace(raw: RawWorkspace): (r: Result<WorkspaceImport, seq<Issue>>)
    ensures r.Success? ==> ImportValid(r.value)
    ensures r.Failure? ==> r.error != [] && |r.error[0].loc| >= 2
    ensures r.Failure? ==> (r.error[0].loc[0] ==
              Key(if !AllAccepted(OrEmpty(raw.streams), ValidateStream) then "streams"
                  else if !AllAccepted(OrEmpty(raw.habits), ValidateHabit) then "habits"
                  else "journal_entries"))
  {
    var s := ValidateList("streams", OrEmpty(raw.streams), ValidateStream);
    var h := ValidateList("habits", OrEmpty(raw.habits), ValidateHabit);
    var j := ValidateList("journal_entries", OrEmpty(raw.journalEntries), ValidateEntry);
    if s.Success? && h.Success? && j.Success? then Success(WorkspaceImport(s.value, h.value, j.value))
    else
      Failure((if s.Failure? then s.error else []) + (if h.Failure? then h.error else [])
              + (if j.Failure? then j.error else []))
  }

  /** A workspace is accepted exactly when every item of every list is. */
  lemma WorkspaceAcceptedIffItems(raw: RawWorkspace)
    ensures ValidateWorkspace(raw).Success? <==>
      && (forall i :: 0 <= i < |OrEmpty(raw.streams)| ==> ValidateStream(OrEmpty(raw.streams)[i]).Success?)
      && (forall i :: 0 <= i < |OrEmpty(raw.habits)| ==> ValidateHabit(OrEmpty(raw.habits)[i]).Success?)
      && (forall i :: 0 <= i < |OrEmpty(raw.journalEntries)| ==> ValidateEntry(OrEmpty(raw.journalEntries)[i]).Success?)
  {
    var s := ValidateList("streams", OrEmpty(raw.streams), ValidateStream);
    var h := ValidateList("habits", OrEmpty(raw.habits), ValidateHabit);
    var j := ValidateList("journal_entries", OrEmpty(raw.journalEntries), ValidateEntry);
    assert ValidateWorkspace(raw).Success? <==> s.Success? && h.Success? && j.Success?;
  }

  /** An accepted workspace holds, list by list and in order, what
      validating each item gives. */
  lemma WorkspaceStreams(raw: RawWorkspace)
    requires ValidateWorkspace(raw).Success?
    ensures var w := ValidateWorkspace(raw).value;
      && |w.streams| == |OrEmpty(raw.streams)|
      && forall i :: 0 <= i < |w.streams| ==> w.streams[i] == ValidateStream(OrEmpty(raw.streams)[i]).value
  {
    var v := ValidateList("streams", OrEmpty(raw.streams), ValidateStream);
    assert v.Success? && ValidateWorkspace(raw).value.streams == v.value;
  }

  lemma WorkspaceHabits(raw: RawWorkspace)
    requires ValidateWorkspace(raw).Success?
    ensures var w := ValidateWorkspace(raw).value;
      && |w.habits| == |OrEmpty(raw.habits)|
      && forall i :: 0 <= i < |w.habits| ==> w.habits[i] == ValidateHabit(OrEmpty(raw.habits)[i]).value
  {
    var v := ValidateList("habits", OrEmpty(raw.habits), ValidateHabit);
    assert v.Success? && ValidateWorkspace(raw).value.habits == v.value;
  }

  lemma WorkspaceEntries(raw: RawWorkspace)
    requires ValidateWorkspace(raw).Success?
    ensures var w := ValidateWorkspace(raw).value;
      && |w.journalEntries| == |OrEmpty(raw.journalEntries)|
      && forall i :: 0 <= i < |w.journalEntries| ==> w.journalEntries[i] == ValidateEntry(OrEmpty(raw.journalEntries)[i]).value
  {
    var v := ValidateList("journal_entries", OrEmpty(raw.journalEntries), ValidateEntry);
    assert v.Success? && ValidateWorkspace(raw).value.journalEntries == v.value;
  }

  /** Every key may be left out: the result is an empty workspace. */
  lemma MissingListsAreEmpty()
    ensures ValidateWorkspace(RawWorkspace(None, None, None)) == Success(WorkspaceImport([], [], []))
  {}

  /** The import of a stream with an empty name and zero milestones fails on
      the name first, then on the total. */
  lemma EmptyNameZeroTotalImport()
    ensures ValidateWorkspace(RawWorkspace(Some([RawStream(Some(""), None, Some(Number(0)), None, None)]), None, None))
         == Failure([Issue([Key("streams"), Index(0), Key("name")], MsgTooShort),
                     Issue([Key("streams"), Index(0), Key("milestones_total")], MsgAtLeast(1))])
  {
    var raw := RawStream(Some(""), None, Some(Number(0)), None, None);
    assert Strip("") == "";
    assert RequiredText("name", Some("")) == Failure(Issue([Key("name")], MsgTooShort));
    assert BoundedInt("milestones_total", Some(Number(0)), 1, 1) == Failure(Issue([Key("milestones_total")], MsgAtLeast(1)));
    assert BoundedInt("milestones_completed", None, 0, 0) == Success(0);
    assert [Issue([Key("name")], MsgTooShort)] + [Issue([Key("milestones_total")], MsgAtLeast(1))] + []
        == [Issue([Key("name")], MsgTooShort), Issue([Key("milestones_total")], MsgAtLeast(1))];
    var issues := [Issue([Key("name")], MsgTooShort), Issue([Key("milestones_total")], MsgAtLeast(1))];
    assert ValidateStream(raw) == Failure(issues);
    assert [raw][..0] == [];
    assert LocatedAll("streams", 0, issues) == [Located("streams", 0, issues[0]), Located("streams", 0, issues[1])];
    assert ValidateList("streams", [raw], ValidateStream) == Failure(LocatedAll("streams", 0, issues));
    assert [Key("streams"), Index(0)] + [Key("name")] == [Key("streams"), Index(0), Key("name")];
    assert [Key("streams"), Index(0)] + [Key("milestones_total")] == [Key("streams"), Index(0), Key("milestones_total")];
    assert ValidateList("habits", OrEmpty<RawHabit>(None), ValidateHabit) == Success([]);
    assert ValidateList("journal_entries", OrEmpty<RawEntry>(None), ValidateEntry) == Success([]);
    var ws := RawWorkspace(Some([raw]), None, None);
    var located := LocatedAll("streams", 0, issues);
    assert ValidateWorkspace(ws) == Failure(located + [] + []);
    assert located + [] + [] == located;
  }
}
