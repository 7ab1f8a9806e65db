/** The browser dashboard's event handlers of scripts/app.js, as producers
    run through the store's mutate, and its pure helpers: HTML escaping,
    due-date copy and the overview counts. The day stamps ("today",
    "yesterday"), the day difference to a target date and the fresh ids
    are parameters. */
module BrowserApp {
  import opened Wrappers
  import opened Text
  import opened BrowserState
  import opened Metrics

  // ---------------------------------------------------------------------
  // Lookup
  // ---------------------------------------------------------------------

  /** Array.find by id: the index of the first element whose key is `id`,
      or None when no element has it. */
  function FindFirst<T>(xs: seq<T>, key: T -> string, id: string): (r: Option<nat>)
    ensures r.Some? ==> r.value < |xs| && key(xs[r.value]) == id
                        && forall k :: 0 <= k < r.value ==> key(xs[k]) != id
    ensures r.None? ==> forall k :: 0 <= k < |xs| ==> key(xs[k]) != id
  {
    if xs == [] then None
    else if key(xs[0]) == id then Some(0)
    else
      var r := FindFirst(xs[1..], key, id);
      if r.Some? then Some(r.value + 1) else None
  }

  /** The keys the handlers look records up by. */
  function HabitId(h: Habit): string { h.id }
  function StreamId(st: Stream): string { st.id }
  function MilestoneId(m: Milestone): string { m.id }

  // ---------------------------------------------------------------------
  // Habit check-ins
  // ---------------------------------------------------------------------

  /** Checking a habit: already done today only marks it; done yesterday
      extends the streak; otherwise the streak restarts at 1. */
  function CheckHabit(h: Habit, today: string, yesterday: string): (r: Habit)
    ensures r.completeToday && r.lastCompleted == Some(today)
    ensures r == h.(streak := r.streak, lastCompleted := r.lastCompleted, completeToday := true)
    ensures h.lastCompleted == Some(today) ==> r.streak == h.streak
    ensures h.lastCompleted != Some(today) && h.lastCompleted == Some(yesterday) ==> r.streak == h.streak + 1
    ensures h.lastCompleted != Some(today) && h.lastCompleted != Some(yesterday) ==> r.streak == 1
  {
    if h.lastCompleted == Some(today) then h.(completeToday := true)
    else
      var streak := if h.lastCompleted == Some(yesterday) then h.streak + 1 else 1;
      h.(streak := streak, lastCompleted := Some(today), completeToday := true)
  }

  /** Unchecking only clears today's mark. */
  function UncheckHabit(h: Habit): (r: Habit)
    ensures !r.completeToday && r.streak == h.streak && r.lastCompleted == h.lastCompleted
    ensures r.(completeToday := h.completeToday) == h
  {
    h.(completeToday := false)
  }

  /** Checking twice on one day counts once. */
  lemma CheckTwice(h: Habit, today: string, yesterday: string)
    ensures CheckHabit(CheckHabit(h, today, yesterday), today, yesterday) == CheckHabit(h, today, yesterday)
  {}

  /** Unchecking and checking again on the same day gives the same habit
      as checking once: the streak is not counted twice. */
  lemma RecheckSameDay(h: Habit, today: string, yesterday: string)
    ensures CheckHabit(UncheckHabit(CheckHabit(h, today, yesterday)), today, yesterday) == CheckHabit(h, today, yesterday)
  {}

  /** The habit-toggle producer: the first habit with the id is checked or
      unchecked; an unknown id leaves the draft as it is. */
  function ToggleHabit(s: AppState, id: string, checked: bool, today: string, yesterday: string): (r: AppState)
    ensures FindFirst(s.habits, HabitId, id).None? ==> r == s
    ensures FindFirst(s.habits, HabitId, id).Some? ==>
      var i := FindFirst(s.habits, HabitId, id).value;
      r == s.(habits := s.habits[i := if checked then CheckHabit(s.habits[i], today, yesterday) else UncheckHabit(s.habits[i])])
  {
    var found := FindFirst(s.habits, HabitId, id);
    if found.None? then s
    else
      var i := found.value;
      var h := s.habits[i];
      s.(habits := s.habits[i := if checked then CheckHabit(h, today, yesterday) else UncheckHabit(h)])
  }

  /** Runs the toggle through mutate; a box without a habit id does
      nothing. */
  method HandleHabitToggle(store: StateStore, id: Option<string>, checked: bool, today: string, yesterday: string)
    returns (changed: bool)
    modifies store
    ensures id.None? || id == Some("") ==> !changed && store.state == old(store.state)
    ensures id.Some? && id != Some("") ==> store.state == ToggleHabit(old(store.state), id.value, checked, today, yesterday)
    ensures changed <==> store.state != old(store.state)
    ensures changed ==> store.saved == SaveTo(store.env, store.state, old(store.saved))
                        && store.setItemCalls == old(store.setItemCalls) + PersistCalls(store.env)
    ensures !changed ==> store.saved == old(store.saved) && store.setItemCalls == old(store.setItemCalls)
  {
    if id.None? || id.value == [] {
      return false;
    }
    changed := store.Mutate(ToggleHabit(store.state, id.value, checked, today, yesterday));
  }

  /** Every habit's mark says whether it was done today. */
  predicate InSync(habits: seq<Habit>, today: string) {
    forall i :: 0 <= i < |habits| ==> habits[i].completeToday == (habits[i].lastCompleted == Some(today))
  }

  /** The forEach of syncHabitCompletion over a draft of the habits. */
  method SyncHabits(habits: seq<Habit>, today: string) returns (r: seq<Habit>)
    ensures |r| == |habits| && InSync(r, today)
    ensures forall i :: 0 <= i < |r| ==> r[i] == habits[i].(completeToday := r[i].completeToday)
    ensures InSync(habits, today) ==> r == habits
  {
    r := habits;
    var i := 0;
    while i < |r|
      invariant 0 <= i <= |r| == |habits|
      invariant InSync(r[..i], today)
      invariant forall k :: 0 <= k < |r| ==> r[k] == habits[k].(completeToday := r[k].completeToday)
      invariant r[i..] == habits[i..]
      invariant InSync(habits, today) ==> r == habits
    {
      r := r[i := r[i].(completeToday := r[i].lastCompleted == Some(today))];
      i := i + 1;
    }
    assert r[..|r|] == r;
  }

  /** Brings every mark in line with today. The state changes (and is
      saved) exactly when some mark was out of date. */
  method SyncHabitCompletion(store: StateStore, today: string) returns (changed: bool)
    modifies store
    ensures InSync(store.state.habits, today)
    ensures store.state == old(store.state).(habits := store.state.habits)
    ensures |store.state.habits| == |old(store.state.habits)|
    ensures forall i :: 0 <= i < |store.state.habits| ==>
      store.state.habits[i] == old(store.state.habits[i]).(completeToday := store.state.habits[i].completeToday)
    ensures changed <==> !InSync(old(store.state.habits), today)
    ensures changed ==> store.saved == SaveTo(store.env, store.state, old(store.saved))
                        && store.setItemCalls == old(store.setItemCalls) + PersistCalls(store.env)
    ensures !changed ==> store.saved == old(store.saved) && store.setItemCalls == old(store.setItemCalls)
  {
    var synced := SyncHabits(store.state.habits, today);
    changed := store.Mutate(store.state.(habits := synced));
  }

  // ---------------------------------------------------------------------
  // Streams
  // ---------------------------------------------------------------------

  /** The fields of the stream form; a missing field is None. */
  datatype StreamFields = StreamFields(
    name: Option<string>, focus: Option<string>, date: Option<string>,
    note: Option<string>, milestones: Option<string>)

  /** The trimmed lines that are not blank, in order. */
  function NonBlankLines(lines: seq<string>): (r: seq<string>)
    ensures |r| <= |lines|
    ensures forall i :: 0 <= i < |r| ==> r[i] != [] && !IsSpace(r[i][0]) && !IsSpace(r[i][|r[i]| - 1])
  {
    if lines == [] then []
    else
      var t := Strip(lines[0]);
      (if t == [] then [] else [t]) + NonBlankLines(lines[1..])
  }

  /** One line is kept, trimmed, exactly when it is not blank. */
  lemma NonBlankLine(line: string)
    ensures NonBlankLines([line]) == if Strip(line) == [] then [] else [Strip(line)]
  {
    assert [line][1..] == [];
  }

  /** Filtering distributes over concatenation: lines are judged one by
      one and keep their order. */
  lemma {:induction false} NonBlankLinesAppend(a: seq<string>, b: seq<string>)
    ensures NonBlankLines(a + b) == NonBlankLines(a) + NonBlankLines(b)
  {
    if a != [] {
      NonBlankLinesAppend(a[1..], b);
      assert (a + b)[0] == a[0] && (a + b)[1..] == a[1..] + b;
      var t := Strip(a[0]);
      var head: seq<string> := if t == [] then [] else [t];
      assert NonBlankLines(a + b) == head + NonBlankLines(a[1..] + b);
      assert NonBlankLines(a) == head + NonBlankLines(a[1..]);
    } else {
      assert a + b == b;
    }
  }

  /** When no line is blank every line is kept, trimmed. */
  lemma {:induction false} NoBlankLineDropped(lines: seq<string>)
    requires forall i :: 0 <= i < |lines| ==> Strip(lines[i]) != []
    ensures |NonBlankLines(lines)| == |lines|
    ensures forall i :: 0 <= i < |lines| ==> NonBlankLines(lines)[i] == Strip(lines[i])
  {
    if lines != [] {
      NoBlankLineDropped(lines[1..]);
      var rest := NonBlankLines(lines[1..]);
      assert NonBlankLines(lines) == [Strip(lines[0])] + rest;
      forall i | 1 <= i < |lines| ensures NonBlankLines(lines)[i] == Strip(lines[i]) {
        assert lines[1..][i - 1] == lines[i];
      }
    }
  }

  /** The milestone titles typed one per line: each is non-empty, holds no
      line break and has no whitespace at either end. */
  function MilestoneLines(text: string): (r: seq<string>)
    ensures forall i :: 0 <= i < |r| ==> r[i] != [] && '\n' !in r[i]
    ensures forall i :: 0 <= i < |r| ==> !IsSpace(r[i][0]) && !IsSpace(r[i][|r[i]| - 1])
  {
    NonBlankKeepsOut(Split(text, '\n'), '\n');
    NonBlankLines(Split(text, '\n'))
  }

  /** A character no line holds is in no kept line either. */
  lemma {:induction false} NonBlankKeepsOut(lines: seq<string>, c: char)
    requires forall i :: 0 <= i < |lines| ==> c !in lines[i]
    ensures forall i :: 0 <= i < |NonBlankLines(lines)| ==> c !in NonBlankLines(lines)[i]
  {
    if lines != [] {
      NonBlankKeepsOut(lines[1..], c);
      StripKeepsOut(lines[0], c);
    }
  }

  lemma StripKeepsOut(s: string, c: char)
    requires c !in s
    ensures c !in Strip(s)
  {
    StripSlice(s);
    var a :| PaddedBy(s, a, Strip(s));
    assert forall j :: 0 <= j < |Strip(s)| ==> Strip(s)[j] == s[a + j];
  }

  /** The stream a valid form creates; ids(i) is the fresh id of the i-th
      milestone. */
  function NewStream(f: StreamFields, today: string, streamId: string, ids: nat -> string): (st: Stream)
    ensures st.id == streamId && st.name == Strip(f.name.GetOr(""))
    ensures st.focus == Strip(f.focus.GetOr("")) && st.note == f.note.GetOr("")
    ensures st.targetDate == f.date.GetOr(today)
    ensures |st.milestones| == |MilestoneLines(f.milestones.GetOr(""))|
    ensures forall i :: 0 <= i < |st.milestones| ==>
      st.milestones[i] == Milestone(ids(i), MilestoneLines(f.milestones.GetOr(""))[i], false)
  {
    var lines := MilestoneLines(f.milestones.GetOr(""));
    Stream(streamId, Strip(f.name.GetOr("")), Strip(f.focus.GetOr("")), f.date.GetOr(today), f.note.GetOr(""),
      seq(|lines|, i requires 0 <= i < |lines| => Milestone(ids(i), lines[i], false)))
  }

  /** A blank name leaves everything as it was; otherwise the new stream
      goes first and the rest follow in their order. */
  method HandleStreamSubmit(store: StateStore, f: StreamFields, today: string, streamId: string, ids: nat -> string)
    modifies store
    ensures Strip(f.name.GetOr("")) == [] ==>
      store.state == old(store.state) && store.saved == old(store.saved) && store.setItemCalls == old(store.setItemCalls)
    ensures Strip(f.name.GetOr("")) != [] ==>
      && store.state == old(store.state).(streams := [NewStream(f, today, streamId, ids)] + old(store.state.streams))
      && store.saved == SaveTo(store.env, store.state, old(store.saved))
      && store.setItemCalls == old(store.setItemCalls) + PersistCalls(store.env)
  {
    var name := Strip(f.name.GetOr(""));
    if name == [] {
      return;
    }
    var draft := store.state.(streams := [NewStream(f, today, streamId, ids)] + store.state.streams);
    assert |draft.streams| != |store.state.streams|;
    var _ := store.Mutate(draft);
  }

  /** The streams without those with the id, the others in order. */
  function WithoutStream(streams: seq<Stream>, id: string): (r: seq<Stream>)
    ensures |r| <= |streams|
    ensures forall i :: 0 <= i < |r| ==> r[i].id != id
    ensures forall x :: x in r ==> x in streams
    ensures (forall i :: 0 <= i < |streams| ==> streams[i].id != id) <==> r == streams
  {
    if streams == [] then []
    else
      var rest := WithoutStream(streams[1..], id);
      assert streams == [streams[0]] + streams[1..];
      if streams[0].id == id then rest else [streams[0]] + rest
  }

  /** A single stream survives exactly when it does not have the id. */
  lemma WithoutStreamOne(x: Stream, id: string)
    ensures WithoutStream([x], id) == if x.id == id then [] else [x]
  {
    assert [x][1..] == [];
  }

  /** Removal distributes over concatenation: streams are judged one by
      one and the survivors keep their order. */
  lemma {:induction false} WithoutStreamAppend(a: seq<Stream>, b: seq<Stream>, id: string)
    ensures WithoutStream(a + b, id) == WithoutStream(a, id) + WithoutStream(b, id)
  {
    if a != [] {
      WithoutStreamAppend(a[1..], b, id);
      assert (a + b)[0] == a[0] && (a + b)[1..] == a[1..] + b;
      var head: seq<Stream> := if a[0].id == id then [] else [a[0]];
      assert WithoutStream(a + b, id) == head + WithoutStream(a[1..] + b, id);
      assert WithoutStream(a, id) == head + WithoutStream(a[1..], id);
    } else {
      assert a + b == b;
    }
  }

  /** Every stream without the id is kept. */
  lemma {:induction false} WithoutStreamKeeps(streams: seq<Stream>, id: string, x: Stream)
    requires x in streams && x.id != id
    ensures x in WithoutStream(streams, id)
  {
    if streams[0] != x {
      WithoutStreamKeeps(streams[1..], id, x);
    }
  }

  /** The note-input producer: the first stream with the id takes the
      text as its note. */
  function SetStreamNote(s: AppState, streamId: string, note: string): (r: AppState)
    ensures FindFirst(s.streams, StreamId, streamId).None? ==> r == s
    ensures FindFirst(s.streams, StreamId, streamId).Some? ==>
      var i := FindFirst(s.streams, StreamId, streamId).value;
      r == s.(streams := s.streams[i := s.streams[i].(note := note)])
  {
    var i := FindFirst(s.streams, StreamId, streamId);
    if i.None? then s else s.(streams := s.streams[i.value := s.streams[i.value].(note := note)])
  }

  /** Typing the note a stream already has changes nothing, so nothing is
      written. */
  lemma SameNoteUnchanged(s: AppState, streamId: string)
    requires FindFirst(s.streams, StreamId, streamId).Some?
    ensures SetStreamNote(s, streamId, s.streams[FindFirst(s.streams, StreamId, streamId).value].note) == s
  {
    var i := FindFirst(s.streams, StreamId, streamId).value;
    assert s.streams[i := s.streams[i]] == s.streams;
  }

  method HandleStreamNoteInput(store: StateStore, streamId: string, note: string) returns (changed: bool)
    modifies store
    ensures store.state == SetStreamNote(old(store.state), streamId, note)
    ensures changed <==>
      var i := FindFirst(old(store.state.streams), StreamId, streamId);
      i.Some? && old(store.state.streams)[i.value].note != note
    ensures changed ==> store.saved == SaveTo(store.env, store.state, old(store.saved))
                        && store.setItemCalls == old(store.setItemCalls) + PersistCalls(store.env)
    ensures !changed ==> store.saved == old(store.saved) && store.setItemCalls == old(store.setItemCalls)
  {
    var draft := SetStreamNote(store.state, streamId, note);
    var i := FindFirst(store.state.streams, StreamId, streamId);
    if i.Some? && store.state.streams[i.value].note != note {
      assert draft.streams[i.value].note != store.state.streams[i.value].note;
    }
    changed := store.Mutate(draft);
  }

  /** The fields of the journal form; a missing field is None. */
  datatype JournalFields = JournalFields(
    headline: Option<string>, focus: Option<string>, takeaways: Option<string>, date: Option<string>)

  /** r is s with the whitespace at both ends, and only that, removed. */
  ghost predicate TrimmedFrom(s: string, r: string) {
    && (exists a :: PaddedBy(s, a, r))
    && (r == [] || (!IsSpace(r[0]) && !IsSpace(r[|r| - 1])))
  }

  /** The entry a journal form makes: the given id, the form's date or
      today, and the three text fields trimmed. */
  function NewEntry(f: JournalFields, today: string, entryId: string): (r: JournalEntry)
    ensures r.id == entryId && r.date == f.date.GetOr(today)
    ensures TrimmedFrom(f.headline.GetOr(""), r.headline)
    ensures TrimmedFrom(f.focus.GetOr(""), r.focus)
    ensures TrimmedFrom(f.takeaways.GetOr(""), r.takeaways)
  {
    StripSlice(f.headline.GetOr(""));
    StripSlice(f.focus.GetOr(""));
    StripSlice(f.takeaways.GetOr(""));
    JournalEntry(entryId, f.date.GetOr(today), Strip(f.headline.GetOr("")), Strip(f.focus.GetOr("")),
      Strip(f.takeaways.GetOr("")))
  }

  /** The entry goes first, blank fields and all: the journal always grows
      by one and is always written. */
  method HandleJournalSubmit(store: StateStore, f: JournalFields, today: string, entryId: string)
    modifies store
    ensures store.state == old(store.state).(journal := [NewEntry(f, today, entryId)] + old(store.state.journal))
    ensures |store.state.journal| == |old(store.state.journal)| + 1
    ensures store.saved == SaveTo(store.env, store.state, old(store.saved))
    ensures store.setItemCalls == old(store.setItemCalls) + PersistCalls(store.env)
  {
    var draft := store.state.(journal := [NewEntry(f, today, entryId)] + store.state.journal);
    assert |draft.journal| != |store.state.journal|;
    var _ := store.Mutate(draft);
  }

  /** Removing twice removes nothing more. */
  lemma RemoveIdempotent(streams: seq<Stream>, id: string)
    ensures WithoutStream(WithoutStream(streams, id), id) == WithoutStream(streams, id)
  {}

  /** The remove-stream action: an empty id does nothing; otherwise the
      state changes exactly when a stream had the id. */
  method HandleRemoveStream(store: StateStore, id: Option<string>) returns (changed: bool)
    modifies store
    ensures id.None? || id == Some("") ==> !changed && store.state == old(store.state)
    ensures id.Some? && id != Some("") ==>
      && store.state == old(store.state).(streams := WithoutStream(old(store.state.streams), id.value))
      && (changed <==> exists i :: 0 <= i < |old(store.state.streams)| && old(store.state.streams)[i].id == id.value)
    ensures changed ==> store.saved == SaveTo(store.env, store.state, old(store.saved))
                        && store.setItemCalls == old(store.setItemCalls) + PersistCalls(store.env)
    ensures !changed ==> store.saved == old(store.saved) && store.setItemCalls == old(store.setItemCalls)
  {
    if id.None? || id.value == [] {
      return false;
    }
    changed := store.Mutate(store.state.(streams := WithoutStream(store.state.streams, id.value)));
  }

  /** The milestone-checkbox producer: the first stream with streamId, in
      it the first milestone with milestoneId, gets the box's state. */
  function SetMilestone(s: AppState, streamId: string, milestoneId: string, checked: bool): (r: AppState)
  {
    var i := FindFirst(s.streams, StreamId, streamId);
    if i.None? then s
    else
      var st := s.streams[i.value];
      var j := FindFirst(st.milestones, MilestoneId, milestoneId);
      if j.None? then s
      else
        var m := st.milestones[j.value];
        s.(streams := s.streams[i.value := st.(milestones := st.milestones[j.value := m.(complete := checked)])])
  }

  /** Only the first matching stream's first matching milestone can change,
      and only its complete flag; every other stream, a later one sharing
      the id included, is kept. */
  lemma SetMilestoneChangesOne(s: AppState, streamId: string, milestoneId: string, checked: bool)
    ensures var r := SetMilestone(s, streamId, milestoneId, checked);
      && r == s.(streams := r.streams) && |r.streams| == |s.streams|
      && forall k :: 0 <= k < |s.streams| && s.streams[k].id != streamId ==> r.streams[k] == s.streams[k]
    ensures var r := SetMilestone(s, streamId, milestoneId, checked);
      var i := FindFirst(s.streams, StreamId, streamId);
      forall k :: 0 <= k < |s.streams| && (i.None? || k != i.value) ==> r.streams[k] == s.streams[k]
    ensures var r := SetMilestone(s, streamId, milestoneId, checked);
      var i := FindFirst(s.streams, StreamId, streamId);
      i.Some? ==>
        var st := s.streams[i.value];
        && r.streams[i.value] == st.(milestones := r.streams[i.value].milestones)
        && |r.streams[i.value].milestones| == |st.milestones|
        && forall j :: 0 <= j < |st.milestones| ==>
             r.streams[i.value].milestones[j]
               == (if st.milestones[j].id == milestoneId && FindFirst(st.milestones, MilestoneId, milestoneId) == Some(j)
                   then st.milestones[j].(complete := checked) else st.milestones[j])
  {
    var i := FindFirst(s.streams, StreamId, streamId);
    if i.Some? {
      var j := FindFirst(s.streams[i.value].milestones, MilestoneId, milestoneId);
    }
  }

  /** An unknown stream or milestone leaves the draft as it is. */
  lemma SetMilestoneUnknown(s: AppState, streamId: string, milestoneId: string, checked: bool)
    requires FindFirst(s.streams, StreamId, streamId).None?
          || FindFirst(s.streams[FindFirst(s.streams, StreamId, streamId).value].milestones, MilestoneId, milestoneId).None?
    ensures SetMilestone(s, streamId, milestoneId, checked) == s
  {}

  method HandleStreamCheckbox(store: StateStore, streamId: string, milestoneId: Option<string>, checked: bool) returns (changed: bool)
    modifies store
    ensures milestoneId.None? || milestoneId == Some("") ==> !changed && store.state == old(store.state)
    ensures milestoneId.Some? && milestoneId != Some("") ==>
      store.state == SetMilestone(old(store.state), streamId, milestoneId.value, checked)
    ensures changed <==> store.state != old(store.state)
    ensures changed ==> store.saved == SaveTo(store.env, store.state, old(store.saved))
                        && store.setItemCalls == old(store.setItemCalls) + PersistCalls(store.env)
    ensures !changed ==> store.saved == old(store.saved) && store.setItemCalls == old(store.setItemCalls)
  {
    if milestoneId.None? || milestoneId.value == [] {
      return false;
    }
    changed := store.Mutate(SetMilestone(store.state, streamId, milestoneId.value, checked));
  }

  // ---------------------------------------------------------------------
  // HTML escaping
  // ---------------------------------------------------------------------

  /** The five replacements, ampersand first. */
  function EscapeHtml(value: Option<string>): (r: string)
    ensures '<' !in r && '>' !in r && '"' !in r && '\'' !in r
  {
    var text := value.GetOr("");
    var a := ReplaceChar(text, '&', "&amp;");
    var b := ReplaceChar(a, '<', "&lt;");
    var c := ReplaceChar(b, '>', "&gt;");
    var d := ReplaceChar(c, '"', "&quot;");
    assert '<' !in d && '>' !in d;
    ReplaceChar(d, '\'', "&#39;")
  }

  /** The entity for one character. */
  function EscapeChar(c: char): string {
    if c == '&' then "&amp;"
    else if c == '<' then "&lt;"
    else if c == '>' then "&gt;"
    else if c == '"' then "&quot;"
    else if c == '\'' then "&#39;"
    else [c]
  }

  /** Escaping character by character. */
  function EscapeEach(s: string): string {
    if s == [] then [] else EscapeChar(s[0]) + EscapeEach(s[1..])
  }

  /** The chain of replacements is the same as escaping each character on
      its own: no replacement touches what an earlier one produced. */
  lemma {:induction false} EscapeIsPerChar(s: string)
    ensures EscapeHtml(Some(s)) == EscapeEach(s)
  {
    if s != [] {
      EscapeIsPerChar(s[1..]);
      assert s == [s[0]] + s[1..];
      EscapeAppend([s[0]], s[1..]);
      EscapeOne(s[0]);
    }
  }

  lemma EscapeAppend(x: string, y: string)
    ensures EscapeHtml(Some(x + y)) == EscapeHtml(Some(x)) + EscapeHtml(Some(y))
  {
    ReplaceCharAppend(x, y, '&', "&amp;");
    var a1, a2 := ReplaceChar(x, '&', "&amp;"), ReplaceChar(y, '&', "&amp;");
    ReplaceCharAppend(a1, a2, '<', "&lt;");
    var b1, b2 := ReplaceChar(a1, '<', "&lt;"), ReplaceChar(a2, '<', "&lt;");
    ReplaceCharAppend(b1, b2, '>', "&gt;");
    var c1, c2 := ReplaceChar(b1, '>', "&gt;"), ReplaceChar(b2, '>', "&gt;");
    ReplaceCharAppend(c1, c2, '"', "&quot;");
    var d1, d2 := ReplaceChar(c1, '"', "&quot;"), ReplaceChar(c2, '"', "&quot;");
    ReplaceCharAppend(d1, d2, '\'', "&#39;");
  }

  lemma EscapeOne(c: char)
    ensures EscapeHtml(Some([c])) == EscapeChar(c)
  {
    if c == '&' {
      EscapeAmpersand(c);
    } else if c == '<' {
      EscapeLess(c);
    } else if c == '>' {
      EscapeGreater(c);
    } else {
      EscapeLater(c);
    }
  }

  lemma EscapeAmpersand(c: char)
    requires c == '&'
    ensures EscapeHtml(Some([c])) == "&amp;"
  {
    ReplaceOne(c, '&', "&amp;");
    EscapeSettled("&amp;");
  }

  lemma EscapeLess(c: char)
    requires c == '<'
    ensures EscapeHtml(Some([c])) == "&lt;"
  {
    ReplaceOne(c, '&', "&amp;");
    ReplaceOne(c, '<', "&lt;");
    EscapeSettledAfterLt("&lt;");
  }

  lemma EscapeGreater(c: char)
    requires c == '>'
    ensures EscapeHtml(Some([c])) == "&gt;"
  {
    ReplaceOne(c, '&', "&amp;");
    ReplaceOne(c, '<', "&lt;");
    ReplaceOne(c, '>', "&gt;");
    ReplaceAbsent("&gt;", '"', "&quot;");
    ReplaceAbsent("&gt;", '\'', "&#39;");
  }

  /** A character the first three replacements leave alone. */
  lemma EscapeLater(c: char)
    requires c != '&' && c != '<' && c != '>'
    ensures EscapeHtml(Some([c])) == EscapeChar(c)
  {
    ReplaceOne(c, '&', "&amp;");
    ReplaceOne(c, '<', "&lt;");
    ReplaceOne(c, '>', "&gt;");
    ReplaceOne(c, '"', "&quot;");
    ReplaceOne(c, '\'', "&#39;");
    if c == '"' {
      ReplaceAbsent("&quot;", '\'', "&#39;");
    }
  }

  /** An entity met by the later replacements is left alone. */
  lemma EscapeSettled(t: string)
    requires '<' !in t && '>' !in t && '"' !in t && '\'' !in t
    ensures ReplaceChar(ReplaceChar(ReplaceChar(ReplaceChar(t, '<', "&lt;"), '>', "&gt;"), '"', "&quot;"), '\'', "&#39;") == t
  {
    ReplaceAbsent(t, '<', "&lt;");
    EscapeSettledAfterLt(t);
  }

  lemma EscapeSettledAfterLt(t: string)
    requires '>' !in t && '"' !in t && '\'' !in t
    ensures ReplaceChar(ReplaceChar(ReplaceChar(t, '>', "&gt;"), '"', "&quot;"), '\'', "&#39;") == t
  {
    ReplaceAbsent(t, '>', "&gt;");
    ReplaceAbsent(t, '"', "&quot;");
    ReplaceAbsent(t, '\'', "&#39;");
  }

  lemma ReplaceOne(c: char, x: char, rep: string)
    ensures ReplaceChar([c], x, rep) == if c == x then rep else [c]
  {
    assert [c][1..] == [];
  }

  /** Reads the five entities back. */
  function Unescape(s: string): string
    decreases |s|
  {
    if s == [] then []
    else if StartsWith(s, "&amp;") then "&" + Unescape(s[5..])
    else if StartsWith(s, "&lt;") then "<" + Unescape(s[4..])
    else if StartsWith(s, "&gt;") then ">" + Unescape(s[4..])
    else if StartsWith(s, "&quot;") then "\"" + Unescape(s[6..])
    else if StartsWith(s, "&#39;") then "'" + Unescape(s[5..])
    else [s[0]] + Unescape(s[1..])
  }

  lemma UnescapeChar(c: char, rest: string)
    ensures Unescape(EscapeChar(c) + rest) == [c] + Unescape(rest)
  {
    var e := EscapeChar(c) + rest;
    assert e[..|EscapeChar(c)|] == EscapeChar(c);
    assert e[|EscapeChar(c)|..] == rest;
    if c != '&' {
      NotPrefix(e, "&amp;", if c == '<' || c == '>' || c == '"' || c == '\'' then 1 else 0);
      if c != '<' {
        NotPrefix(e, "&lt;", if c == '>' || c == '"' || c == '\'' then 1 else 0);
        if c != '>' {
          NotPrefix(e, "&gt;", if c == '"' || c == '\'' then 1 else 0);
          if c != '"' {
            NotPrefix(e, "&quot;", if c == '\'' then 1 else 0);
            if c != '\'' {
              NotPrefix(e, "&#39;", 0);
            }
          }
        }
      }
    }
  }

  lemma NotPrefix(e: string, p: string, i: nat)
    requires i < |p| && i < |e| && e[i] != p[i]
    ensures !StartsWith(e, p)
  {}

  /** Escaping loses nothing: the text can be read back. */
  lemma {:induction false} EscapeRoundTrip(s: string)
    ensures Unescape(EscapeHtml(Some(s))) == s
  {
    EscapeIsPerChar(s);
    EachRoundTrip(s);
  }

  lemma {:induction false} EachRoundTrip(s: string)
    ensures Unescape(EscapeEach(s)) == s
  {
    if s != [] {
      EachRoundTrip(s[1..]);
      UnescapeChar(s[0], EscapeEach(s[1..]));
      assert s == [s[0]] + s[1..];
    }
  }

  // ---------------------------------------------------------------------
  // Due dates
  // ---------------------------------------------------------------------

  /** The copy for a target date diff days from today; None when there is
      no target date or it does not parse. */
  function DescribeDueDate(diff: Option<int>): (r: string)
    ensures diff.None? ==> r == "Open"
    ensures r == "Yesterday" <==> diff == Some(-1)
    ensures r == "Today" <==> diff == Some(0)
    ensures r == "Tomorrow" <==> diff == Some(1)
    ensures diff.Some? && diff.value < -1 ==> r == NatToDecimal(-diff.value) + " days ago"
    ensures diff.Some? && diff.value > 1 ==> r == "Due in " + NatToDecimal(diff.value) + " days"
  {
    if diff.None? then "Open"
    else
      var d := diff.value;
      if d < -1 then
        var n := NatToDecimal(-d);
        assert IsDigit(n[0]);
        assert (n + " days ago")[0] == n[0];
        n + " days ago"
      else if d == -1 then "Yesterday"
      else if d == 0 then "Today"
      else if d == 1 then "Tomorrow"
      else
        assert ("Due in " + NatToDecimal(d) + " days")[0] == 'D';
        "Due in " + NatToDecimal(d) + " days"
  }

  /** Different day differences are described differently. */
  lemma DueDateInjective(a: int, b: int)
    requires DescribeDueDate(Some(a)) == DescribeDueDate(Some(b))
    ensures a == b
  {
    var r := DescribeDueDate(Some(a));
    if a < -1 {
      assert b < -1 by {
        assert IsDigit(r[0]);
      }
      var na, nb := NatToDecimal(-a), NatToDecimal(-b);
      assert na == r[..|r| - 9] by { assert r == na + " days ago"; }
      assert nb == r[..|r| - 9] by { assert r == nb + " days ago"; }
      DecimalInjective(-a, -b);
    } else if a > 1 {
      assert b > 1 by {
        assert r[0] == 'D';
      }
      var na, nb := NatToDecimal(a), NatToDecimal(b);
      assert na == r[7..|r| - 5] by { assert r == "Due in " + na + " days"; }
      assert nb == r[7..|r| - 5] by { assert r == "Due in " + nb + " days"; }
      DecimalInjective(a, b);
    }
  }

  // ---------------------------------------------------------------------
  // Overview
  // ---------------------------------------------------------------------

  /** The milestones of all streams together; none exactly when every
      stream has an empty list. */
  function TotalMilestones(streams: seq<Stream>): (n: nat)
    ensures n == 0 <==> forall i :: 0 <= i < |streams| ==> streams[i].milestones == []
  {
    if streams == [] then 0
    else
      assert forall i :: 1 <= i < |streams| ==> streams[i] == streams[1..][i - 1];
      |streams[0].milestones| + TotalMilestones(streams[1..])
  }

  function DoneCount(milestones: seq<Milestone>): (n: nat)
    ensures n <= |milestones|
    ensures n == |milestones| <==> forall i :: 0 <= i < |milestones| ==> milestones[i].complete
  {
    if milestones == [] then 0
    else
      assert forall i :: 1 <= i < |milestones| ==> milestones[i] == milestones[1..][i - 1];
      (if milestones[0].complete then 1 else 0) + DoneCount(milestones[1..])
  }

  /** The completed milestones of all streams together; never more than
      there are milestones. */
  function CompletedMilestones(streams: seq<Stream>): (n: nat)
    ensures n <= TotalMilestones(streams)
  {
    if streams == [] then 0 else DoneCount(streams[0].milestones) + CompletedMilestones(streams[1..])
  }

  predicate AllDone(streams: seq<Stream>) {
    forall i, j :: 0 <= i < |streams| && 0 <= j < |streams[i].milestones| ==> streams[i].milestones[j].complete
  }

  /** Completed milestones never outnumber milestones; they are equal
      exactly when every milestone is complete. */
  lemma {:induction false} CompletedBounds(streams: seq<Stream>)
    ensures CompletedMilestones(streams) <= TotalMilestones(streams)
    ensures CompletedMilestones(streams) == TotalMilestones(streams) <==> AllDone(streams)
  {
    if streams != [] {
      CompletedBounds(streams[1..]);
      if AllDone(streams[1..]) && DoneCount(streams[0].milestones) == |streams[0].milestones| {
        forall i, j | 0 <= i < |streams| && 0 <= j < |streams[i].milestones|
          ensures streams[i].milestones[j].complete
        {
          if i > 0 { assert streams[i] == streams[1..][i - 1]; }
        }
      }
      if AllDone(streams) {
        forall i, j | 0 <= i < |streams[1..]| && 0 <= j < |streams[1..][i].milestones|
          ensures streams[1..][i].milestones[j].complete
        {
          assert streams[1..][i] == streams[i + 1];
        }
      }
    }
  }

  /** Math.round of num / den for num >= 0: halves round up. */
  function RoundHalfUp(num: nat, den: nat): (r: nat)
    requires den > 0
    ensures 2 * den * r - den <= 2 * num < 2 * den * r + den
  {
    var r := (2 * num + den) / (2 * den);
    assert 2 * num + den == 2 * den * r + (2 * num + den) % (2 * den);
    r
  }

  /** The completion percentage: 0 without milestones, else the rounded
      share of completed ones. */
  function CompletionPercent(streams: seq<Stream>): (p: nat)
    ensures p <= 100
    ensures TotalMilestones(streams) > 0 ==>
      2 * TotalMilestones(streams) * p - TotalMilestones(streams) <= 200 * CompletedMilestones(streams)
                                                                    < 2 * TotalMilestones(streams) * p + TotalMilestones(streams)
  {
    var total := TotalMilestones(streams);
    if total == 0 then 0
    else
      RoundUpInRange(100 * CompletedMilestones(streams), total, 100);
      RoundHalfUp(100 * CompletedMilestones(streams), total)
  }

  /** A rounded ratio of a numerator in [0, k * den] lies in [0, k]; it is
      k at the top end and 0 at the bottom. */
  lemma RoundUpInRange(num: nat, den: nat, k: nat)
    requires den > 0 && num <= k * den
    ensures RoundHalfUp(num, den) <= k
    ensures num == k * den ==> RoundHalfUp(num, den) == k
    ensures num == 0 ==> RoundHalfUp(num, den) == 0
  {
    var r := RoundHalfUp(num, den);
    var m: nat := 2 * den;
    assert m * r - den <= 2 * num < m * r + den;
    assert m * k == 2 * (k * den);
    assert m * (k + 1) == m * k + m && m * (k - 1) == m * k - m;
    MulOrder(m, r, k + 1);
    MulOrder(m, k - 1, r);
    MulOrder(m, r, 1);
  }

  /** The percentage lies in [0, 100]; it is 100 when every milestone is
      complete and 0 when none is. */
  lemma PercentBounds(streams: seq<Stream>)
    ensures CompletionPercent(streams) <= 100
    ensures AllDone(streams) ==> CompletionPercent(streams) == (if TotalMilestones(streams) == 0 then 0 else 100)
    ensures CompletedMilestones(streams) == 0 ==> CompletionPercent(streams) == 0
  {
    CompletedBounds(streams);
    var t := TotalMilestones(streams);
    if t > 0 {
      RoundUpInRange(100 * CompletedMilestones(streams), t, 100);
    }
  }

  /** The four overview figures as shown. */
  datatype Overview = Overview(streams: string, completion: string, milestones: string, habits: string)

  /** The habits marked done today: all of them exactly when every habit
      is marked, none exactly when no habit is. */
  function ActiveHabits(habits: seq<Habit>): (n: nat)
    ensures n <= |habits|
    ensures n == |habits| <==> forall i :: 0 <= i < |habits| ==> habits[i].completeToday
    ensures n == 0 <==> forall i :: 0 <= i < |habits| ==> !habits[i].completeToday
  {
    if habits == [] then 0
    else
      assert forall i :: 1 <= i < |habits| ==> habits[i] == habits[1..][i - 1];
      (if habits[0].completeToday then 1 else 0) + ActiveHabits(habits[1..])
  }

  function OverviewOf(s: AppState): Overview {
    Overview(
      Pad2(|s.streams|),
      NatToDecimal(CompletionPercent(s.streams)) + "%",
      NatToDecimal(CompletedMilestones(s.streams)) + "/" + NatToDecimal(TotalMilestones(s.streams)),
      Pad2(ActiveHabits(s.habits)))
  }

  /** The two padded figures read back as the counts they show. */
  lemma OverviewFigures(s: AppState)
    ensures AllDigits(OverviewOf(s).streams) && DigitsValue(OverviewOf(s).streams) == |s.streams|
    ensures AllDigits(OverviewOf(s).habits) && DigitsValue(OverviewOf(s).habits) == ActiveHabits(s.habits)
  {
    Pad2RoundTrip(|s.streams|);
    Pad2RoundTrip(ActiveHabits(s.habits));
  }
}
