/** The three tables of imasterytracker/state.py (LearningStream, Habit,
    JournalEntry) and the store that holds them. A row is the record's
    columns plus the identity and the creation time the store assigns. The
    store is in memory: three sequences in insertion order, one id counter
    per table that only grows, and a ghost log of every committed state. */
module Records {
  import opened Wrappers
  import opened Schemas

  /** The swatches a stream created without a colour draws from. */
  const ColorPalette: seq<string> := ["#6366F1", "#22C55E", "#F97316", "#EC4899", "#0EA5E9", "#FACC15"]

  /** A stored record: store-assigned id and creation time, and its columns. */
  datatype Row<D> = Row(id: nat, createdAt: int, data: D)

  datatype StreamData = StreamData(name: string, focus: string, total: int, completed: int, color: string)
  {
    /** Non-empty name, at least one milestone, completed within [0, total]. */
    predicate Valid() {
      name != [] && 1 <= total && 0 <= completed <= total
    }
  }

  datatype HabitData = HabitData(name: string, cadence: string, context: string, lastCompletedOn: Option<int>)

  datatype EntryData = EntryData(title: string, reflection: string, mood: string)

  /** The committed contents of the three tables. */
  datatype Tables = Tables(streams: seq<Row<StreamData>>, habits: seq<Row<HabitData>>, entries: seq<Row<EntryData>>)

  /** What every row that validation let through satisfies. */
  predicate RowsValid(t: Tables) {
    && (forall i :: 0 <= i < |t.streams| ==> t.streams[i].data.Valid())
    && (forall i :: 0 <= i < |t.habits| ==> t.habits[i].data.name != [])
    && (forall i :: 0 <= i < |t.entries| ==> t.entries[i].data.title != [] && t.entries[i].data.reflection != [])
  }

  /** Ids strictly increase along the table (so they are distinct) and all
      lie below the table's next id. */
  predicate Keyed<D>(rows: seq<Row<D>>, next: nat) {
    && (forall i, j :: 0 <= i < j < |rows| ==> rows[i].id < rows[j].id)
    && (forall i :: 0 <= i < |rows| ==> rows[i].id < next)
  }

  /** The position of the row with the given id (the session's get). */
  function Find<D>(rows: seq<Row<D>>, id: int): (r: Option<nat>)
    ensures r.Some? ==> r.value < |rows| && rows[r.value].id == id
    ensures r.None? ==> forall i :: 0 <= i < |rows| ==> rows[i].id != id
    ensures r.Some? ==> forall i :: 0 <= i < r.value ==> rows[i].id != id
  {
    if rows == [] then None
    else if rows[0].id == id then Some(0)
    else match Find(rows[1..], id)
      case None => None
      case Some(k) => Some(k + 1)
  }

  /** The table without its i-th row. */
  function RemoveAt<D>(rows: seq<Row<D>>, i: nat): (r: seq<Row<D>>)
    requires i < |rows|
    ensures |r| == |rows| - 1
  {
    rows[..i] + rows[i + 1..]
  }

  /** Deleting the row at i removes exactly that record: no row with its id
      remains, every other row stays, in the same order, and the ids keep
      their invariant. */
  lemma RemoveAtSpec<D>(rows: seq<Row<D>>, next: nat, i: nat)
    requires Keyed(rows, next) && i < |rows|
    ensures Keyed(RemoveAt(rows, i), next)
    ensures Find(RemoveAt(rows, i), rows[i].id).None?
    ensures forall x :: x in RemoveAt(rows, i) <==> x in rows && x.id != rows[i].id
  {
    var r := RemoveAt(rows, i);
    RemoveAtIndex(rows, i);
    forall a, b | 0 <= a < b < |r| ensures r[a].id < r[b].id {
      var a', b' := if a < i then a else a + 1, if b < i then b else b + 1;
      assert r[a] == rows[a'] && r[b] == rows[b'];
    }
    forall k | 0 <= k < |r| ensures r[k].id != rows[i].id && r[k].id < next {
      var k' := if k < i then k else k + 1;
      assert r[k] == rows[k'];
    }
    forall x | x in rows && x.id != rows[i].id ensures x in r {
      var k :| 0 <= k < |rows| && rows[k] == x;
      if k < i { assert r[k] == x; } else { assert r[k - 1] == x; }
    }
  }

  /** Where each remaining row came from. */
  lemma RemoveAtIndex<D>(rows: seq<Row<D>>, i: nat)
    requires i < |rows|
    ensures forall k :: 0 <= k < |RemoveAt(rows, i)| ==> RemoveAt(rows, i)[k] == (if k < i then rows[k] else rows[k + 1])
  {
    var r := RemoveAt(rows, i);
    forall k | 0 <= k < |r| ensures r[k] == (if k < i then rows[k] else rows[k + 1]) {
      if k < i { assert r[k] == rows[..i][k]; } else { assert r[k] == rows[i + 1..][k - i]; }
    }
  }

  /** Appending a row with the next id keeps the ids' invariant. */
  lemma AppendKeyed<D>(rows: seq<Row<D>>, next: nat, createdAt: int, data: D)
    requires Keyed(rows, next)
    ensures Keyed(rows + [Row(next, createdAt, data)], next + 1)
  {}

  /** The in-memory database. */
  class Store {
    var tables: Tables
    var nextStreamId: nat
    var nextHabitId: nat
    var nextEntryId: nat
    /** Every state a commit made visible, oldest first. */
    ghost var commits: seq<Tables>

    ghost predicate Valid()
      reads this
    {
      && Keyed(tables.streams, nextStreamId)
      && Keyed(tables.habits, nextHabitId)
      && Keyed(tables.entries, nextEntryId)
      && RowsValid(tables)
    }

    constructor ()
      ensures Valid() && tables == Tables([], [], []) && commits == []
    {
      tables := Tables([], [], []);
      nextStreamId, nextHabitId, nextEntryId := 1, 1, 1;
      commits := [];
    }

    /** Makes the current contents visible: one commit. */
    method Commit()
      modifies this
      ensures commits == old(commits) + [old(tables)]
      ensures tables == old(tables)
      ensures nextStreamId == old(nextStreamId) && nextHabitId == old(nextHabitId) && nextEntryId == old(nextEntryId)
    {
      commits := commits + [tables];
    }

    method InsertStream(data: StreamData, now: int) returns (row: Row<StreamData>)
      requires Valid() && data.Valid()
      modifies this
      ensures Valid()
      ensures row == Row(old(nextStreamId), now, data)
      ensures forall i :: 0 <= i < |old(tables.streams)| ==> old(tables.streams)[i].id < row.id
      ensures tables == old(tables).(streams := old(tables.streams) + [row])
      ensures nextStreamId == old(nextStreamId) + 1
      ensures nextHabitId == old(nextHabitId) && nextEntryId == old(nextEntryId) && commits == old(commits)
    {
      row := Row(nextStreamId, now, data);
      AppendKeyed(tables.streams, nextStreamId, now, data);
      tables := tables.(streams := tables.streams + [row]);
      nextStreamId := nextStreamId + 1;
    }

    method InsertHabit(data: HabitData, now: int) returns (row: Row<HabitData>)
      requires Valid() && data.name != []
      modifies this
      ensures Valid()
      ensures row == Row(old(nextHabitId), now, data)
      ensures forall i :: 0 <= i < |old(tables.habits)| ==> old(tables.habits)[i].id < row.id
      ensures tables == old(tables).(habits := old(tables.habits) + [row])
      ensures nextHabitId == old(nextHabitId) + 1
      ensures nextStreamId == old(nextStreamId) && nextEntryId == old(nextEntryId) && commits == old(commits)
    {
      row := Row(nextHabitId, now, data);
      AppendKeyed(tables.habits, nextHabitId, now, data);
      tables := tables.(habits := tables.habits + [row]);
      nextHabitId := nextHabitId + 1;
    }

    method InsertEntry(data: EntryData, now: int) returns (row: Row<EntryData>)
      requires Valid() && data.title != [] && data.reflection != []
      modifies this
      ensures Valid()
      ensures row == Row(old(nextEntryId), now, data)
      ensures forall i :: 0 <= i < |old(tables.entries)| ==> old(tables.entries)[i].id < row.id
      ensures tables == old(tables).(entries := old(tables.entries) + [row])
      ensures nextEntryId == old(nextEntryId) + 1
      ensures nextStreamId == old(nextStreamId) && nextHabitId == old(nextHabitId) && commits == old(commits)
    {
      row := Row(nextEntryId, now, data);
      AppendKeyed(tables.entries, nextEntryId, now, data);
      tables := tables.(entries := tables.entries + [row]);
      nextEntryId := nextEntryId + 1;
    }

    method DeleteStreamAt(i: nat)
      requires Valid() && i < |tables.streams|
      modifies this
      ensures Valid()
      ensures tables == old(tables).(streams := RemoveAt(old(tables.streams), i))
      ensures Find(tables.streams, old(tables.streams)[i].id).None?
      ensures nextStreamId == old(nextStreamId) && nextHabitId == old(nextHabitId) && nextEntryId == old(nextEntryId)
      ensures commits == old(commits)
    {
      RemoveAtSpec(tables.streams, nextStreamId, i);
      tables := tables.(streams := RemoveAt(tables.streams, i));
    }

    method DeleteHabitAt(i: nat)
      requires Valid() && i < |tables.habits|
      modifies this
      ensures Valid()
      ensures tables == old(tables).(habits := RemoveAt(old(tables.habits), i))
      ensures Find(tables.habits, old(tables.habits)[i].id).None?
      ensures nextStreamId == old(nextStreamId) && nextHabitId == old(nextHabitId) && nextEntryId == old(nextEntryId)
      ensures commits == old(commits)
    {
      RemoveAtSpec(tables.habits, nextHabitId, i);
      tables := tables.(habits := RemoveAt(tables.habits, i));
    }

    method DeleteEntryAt(i: nat)
      requires Valid() && i < |tables.entries|
      modifies this
      ensures Valid()
      ensures tables == old(tables).(entries := RemoveAt(old(tables.entries), i))
      ensures Find(tables.entries, old(tables.entries)[i].id).None?
      ensures nextStreamId == old(nextStreamId) && nextHabitId == old(nextHabitId) && nextEntryId == old(nextEntryId)
      ensures commits == old(commits)
    {
      RemoveAtSpec(tables.entries, nextEntryId, i);
      tables := tables.(entries := RemoveAt(tables.entries, i));
    }

    /** Changes the columns of the i-th stream in place; id and creation time stay. */
    method UpdateStreamAt(i: nat, data: StreamData)
      requires Valid() && i < |tables.streams| && data.Valid()
      modifies this
      ensures Valid()
      ensures tables == old(tables).(streams := old(tables.streams)[i := old(tables.streams)[i].(data := data)])
      ensures nextStreamId == old(nextStreamId) && nextHabitId == old(nextHabitId) && nextEntryId == old(nextEntryId)
      ensures commits == old(commits)
    {
      tables := tables.(streams := tables.streams[i := tables.streams[i].(data := data)]);
    }

    /** Changes the columns of the i-th habit in place; id and creation time stay. */
    method UpdateHabitAt(i: nat, data: HabitData)
      requires Valid() && i < |tables.habits| && data.name != []
      modifies this
      ensures Valid()
      ensures tables == old(tables).(habits := old(tables.habits)[i := old(tables.habits)[i].(data := data)])
      ensures nextStreamId == old(nextStreamId) && nextHabitId == old(nextHabitId) && nextEntryId == old(nextEntryId)
      ensures commits == old(commits)
    {
      tables := tables.(habits := tables.habits[i := tables.habits[i].(data := data)]);
    }

    /** Deletes every row of the three tables; the id counters keep counting. */
    method DeleteAll()
      requires Valid()
      modifies this
      ensures Valid()
      ensures tables == Tables([], [], [])
      ensures nextStreamId == old(nextStreamId) && nextHabitId == old(nextHabitId) && nextEntryId == old(nextEntryId)
      ensures commits == old(commits)
    {
      tables := Tables([], [], []);
    }
  }
}
