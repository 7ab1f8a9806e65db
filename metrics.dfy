/** The dashboard's derived values (the computed variables of
    imasterytracker/state.py): sums, counts and messages over the stored
    rows. Every metric is a pure function of the tables and, where the
    source reads the clock, of a "today" or "now" supplied by the caller. */
module Metrics {
  import opened Wrappers
  import opened Text
  import opened Records

  // ---------------------------------------------------------------------
  // Sums and counts
  // ---------------------------------------------------------------------

  function SumTotal(rows: seq<Row<StreamData>>): int {
    if rows == [] then 0 else rows[0].data.total + SumTotal(rows[1..])
  }

  function SumCompleted(rows: seq<Row<StreamData>>): int {
    if rows == [] then 0 else rows[0].data.completed + SumCompleted(rows[1..])
  }

  predicate AllValid(rows: seq<Row<StreamData>>) {
    forall i :: 0 <= i < |rows| ==> rows[i].data.Valid()
  }

  /** With every stream valid, the completed sum lies in [0, total sum] and
      the total sum is at least the number of streams. */
  lemma {:induction false} SumBounds(rows: seq<Row<StreamData>>)
    requires AllValid(rows)
    ensures 0 <= SumCompleted(rows) <= SumTotal(rows)
    ensures SumTotal(rows) >= |rows|
  {
    if rows != [] {
      assert AllValid(rows[1..]) by {
        forall i | 0 <= i < |rows| - 1 ensures rows[1..][i].data.Valid() {
          assert rows[1..][i] == rows[i + 1];
        }
      }
      SumBounds(rows[1..]);
      assert rows[0].data.Valid();
    }
  }

  /** When every stream has completed == total, the two sums agree. */
  lemma {:induction false} SumAllComplete(rows: seq<Row<StreamData>>)
    requires forall i :: 0 <= i < |rows| ==> rows[i].data.completed == rows[i].data.total
    ensures SumCompleted(rows) == SumTotal(rows)
  {
    if rows != [] {
      assert rows[0].data.completed == rows[0].data.total;
      forall i | 0 <= i < |rows| - 1 ensures rows[1..][i].data.completed == rows[1..][i].data.total {
        assert rows[1..][i] == rows[i + 1];
      }
      SumAllComplete(rows[1..]);
    }
  }

  /** How many items satisfy p. */
  function CountIf<T>(s: seq<T>, p: T -> bool): (r: nat)
    ensures r <= |s|
    ensures r == 0 <==> forall i :: 0 <= i < |s| ==> !p(s[i])
    ensures r == |s| <==> forall i :: 0 <= i < |s| ==> p(s[i])
  {
    if s == [] then 0
    else
      var rest := CountIf(s[1..], p);
      assert forall i :: 1 <= i < |s| ==> s[i] == s[1..][i - 1];
      (if p(s[0]) then 1 else 0) + rest
  }

  // ---------------------------------------------------------------------
  // Rounding
  // ---------------------------------------------------------------------

  /** Python's round on the exact value num / den: the nearest integer, a
      tie going to the even neighbour. */
  function RoundHalfEven(num: int, den: int): (r: int)
    requires den > 0
    ensures 2 * den * r - den <= 2 * num <= 2 * den * r + den
    ensures (2 * num == 2 * den * r - den || 2 * num == 2 * den * r + den) ==> r % 2 == 0
  {
    var q := num / den;
    var rem := num % den;
    assert num == den * q + rem;
    if 2 * rem < den then q
    else if 2 * rem > den then q + 1
    else if q % 2 == 0 then q
    else q + 1
  }

  // ---------------------------------------------------------------------
  // Milestones
  // ---------------------------------------------------------------------

  /** Completed milestones as a rounded percentage of all milestones; 0 when
      there are none. */
  function MilestoneCompletion(rows: seq<Row<StreamData>>): (r: int)
    ensures SumTotal(rows) == 0 ==> r == 0
    ensures SumTotal(rows) > 0 ==> 2 * SumTotal(rows) * r - SumTotal(rows) <= 200 * SumCompleted(rows) <= 2 * SumTotal(rows) * r + SumTotal(rows)
    ensures SumTotal(rows) > 0 && (200 * SumCompleted(rows) == 2 * SumTotal(rows) * r - SumTotal(rows) || 200 * SumCompleted(rows) == 2 * SumTotal(rows) * r + SumTotal(rows)) ==> r % 2 == 0
  {
    var total := SumTotal(rows);
    if total == 0 then 0
    else if total > 0 then
      assert SumCompleted(rows) * 100 == 100 * SumCompleted(rows);
      RoundHalfEven(SumCompleted(rows) * 100, total)
    else RoundHalfEven(-SumCompleted(rows) * 100, -total)
  }

  /** Multiplying by a non-negative number keeps the order. */
  lemma {:induction false} MulMonotone(d: nat, a: int, b: int)
    requires a <= b
    ensures d * a <= d * b
  {
    if d > 0 {
      MulMonotone(d - 1, a, b);
      assert d * a == (d - 1) * a + a;
      assert d * b == (d - 1) * b + b;
    }
  }

  /** A rounded ratio of a numerator in [0, k * den] lies in [0, k]; at
      the top end it is exactly k. */
  lemma RoundInRange(num: int, den: int, k: nat)
    requires den > 0 && 0 <= num <= k * den
    ensures 0 <= RoundHalfEven(num, den) <= k
    ensures num == k * den ==> RoundHalfEven(num, den) == k
  {
    var r := RoundHalfEven(num, den);
    var m: nat := 2 * den;
    assert m * r - den <= 2 * num <= m * r + den;
    assert m * k == 2 * (k * den);
    assert m * (k + 1) == m * k + m && m * (k - 1) == m * k - m && m * -1 + m == 0;
    MulOrder(m, -1, r);
    MulOrder(m, r, k + 1);
    MulOrder(m, k - 1, r);
  }

  /** Multiplying by a positive number keeps the strict order, both ways. */
  lemma MulOrder(m: nat, a: int, b: int)
    requires m > 0
    ensures a < b <==> m * a < m * b
  {
    if a < b {
      MulMonotone(m, a + 1, b);
      assert m * (a + 1) == m * a + m;
    } else {
      MulMonotone(m, b, a);
    }
  }

  /** Over valid streams the percentage lies in [0, 100]. */
  lemma CompletionInRange(rows: seq<Row<StreamData>>)
    requires AllValid(rows)
    ensures 0 <= MilestoneCompletion(rows) <= 100
  {
    SumBounds(rows);
    var t, c := SumTotal(rows), SumCompleted(rows);
    if t > 0 {
      MulMonotone(100, c, t);
      RoundInRange(c * 100, t, 100);
    }
  }

  /** When every stream is finished (and there is at least one) the
      percentage is exactly 100. */
  lemma CompletionAllDone(rows: seq<Row<StreamData>>)
    requires rows != [] && AllValid(rows)
    requires forall i :: 0 <= i < |rows| ==> rows[i].data.completed == rows[i].data.total
    ensures MilestoneCompletion(rows) == 100
  {
    SumBounds(rows);
    SumAllComplete(rows);
    var t := SumTotal(rows);
    RoundInRange(t * 100, t, 100);
  }

  /** f"{n:02}": a minus sign and the digits for a negative number, otherwise
      at least two digits, zero-padded. */
  function Format02(n: int): (r: string)
    ensures |r| >= 2
    ensures n >= 0 ==> r == Pad2(n)
    ensures n < 0 ==> r[0] == '-' && r[1..] == NatToDecimal(-n)
  {
    if n < 0 then IntToString(n) else Pad2(n)
  }

  /** "completed/total", each at least two digits; "00/00" when there are no
      milestones. */
  function MilestoneCopy(rows: seq<Row<StreamData>>): (r: string)
    ensures SumTotal(rows) == 0 ==> r == "00/00"
  {
    var completed := SumCompleted(rows);
    var total := SumTotal(rows);
    if total != 0 then Format02(completed) + "/" + Format02(total) else "00/00"
  }

  /** Over valid streams the copy is two zero-padded numbers around one "/",
      and they read back as the completed and the total sums. */
  lemma CopyReadsBack(rows: seq<Row<StreamData>>)
    requires rows != [] && AllValid(rows)
    ensures var parts := Split(MilestoneCopy(rows), '/');
      (|parts| == 2 && |parts[0]| >= 2 && |parts[1]| >= 2
       && AllDigits(parts[0]) && AllDigits(parts[1])
       && DigitsValue(parts[0]) == SumCompleted(rows)
       && DigitsValue(parts[1]) == SumTotal(rows))
  {
    SumBounds(rows);
    var c, t := SumCompleted(rows), SumTotal(rows);
    assert '/' !in Pad2(c) && '/' !in Pad2(t) by {
      assert AllDigits(Pad2(c)) && AllDigits(Pad2(t));
    }
    SplitPair(Pad2(c), Pad2(t), '/');
    Pad2RoundTrip(c);
    Pad2RoundTrip(t);
  }

  const DetailPrefix := "Secured milestones "

  /** The copy, introduced by a fixed label. */
  function MilestoneDetail(rows: seq<Row<StreamData>>): (r: string)
    ensures StartsWith(r, DetailPrefix) && r[|DetailPrefix|..] == MilestoneCopy(rows)
  {
    DetailPrefix + MilestoneCopy(rows)
  }

  predicate Incomplete(row: Row<StreamData>) {
    row.data.completed < row.data.total
  }

  /** Streams that still have milestones to go. */
  function StreamsActiveCount(rows: seq<Row<StreamData>>): (r: nat)
    ensures r <= |rows|
    ensures r == 0 <==> forall i :: 0 <= i < |rows| ==> !Incomplete(rows[i])
  {
    CountIf(rows, Incomplete)
  }

  /** The earliest-created stream with milestones to go (the first of
      several created at the same time). */
  function EarliestIncomplete(rows: seq<Row<StreamData>>): (r: Option<nat>)
    ensures r.None? <==> forall i :: 0 <= i < |rows| ==> !Incomplete(rows[i])
    ensures r.Some? ==> (r.value < |rows| && Incomplete(rows[r.value])
                         && forall i :: 0 <= i < |rows| && Incomplete(rows[i]) ==> rows[r.value].createdAt <= rows[i].createdAt)
  {
    if rows == [] then None
    else
      var rest := EarliestIncomplete(rows[1..]);
      assert forall i :: 1 <= i < |rows| ==> rows[i] == rows[1..][i - 1];
      if !Incomplete(rows[0]) then
        (match rest case None => None case Some(k) => Some(k + 1))
      else if rest.Some? && rows[rest.value + 1].createdAt < rows[0].createdAt then Some(rest.value + 1)
      else Some(0)
  }

  const AllCompleteMessage := "All learning streams " + "are fully complete."

  /** The singular label for exactly one remaining milestone. */
  function MilestoneLabel(remaining: int): (r: string)
    ensures r == "milestone" <==> remaining == 1
  {
    if remaining == 1 then "milestone" else "milestones"
  }

  /** How many milestones a stream has left, with its label, as the
      message phrases it. */
  function ToGo(remaining: int): string {
    IntToString(remaining) + " " + MilestoneLabel(remaining) + " to go"
  }

  /** Names the earliest-created unfinished stream and how many milestones
      it has left; a fixed message when every stream is finished. */
  function NextStreamMessage(rows: seq<Row<StreamData>>): (r: string)
    ensures r == AllCompleteMessage <==> EarliestIncomplete(rows).None?
  {
    match EarliestIncomplete(rows)
    case None => AllCompleteMessage
    case Some(k) =>
      var s := rows[k].data;
      var remaining := s.total - s.completed;
      NamedMessage(s.name, remaining);
      s.name + ": " + ToGo(remaining)
  }

  /** The message is the fixed one exactly when no stream has milestones to
      go. Otherwise it is the name of the earliest-created unfinished
      stream, ": ", and the positive number of milestones it has left with
      the singular label exactly for one. */
  lemma NextStreamMessageSpec(rows: seq<Row<StreamData>>)
    ensures NextStreamMessage(rows) == AllCompleteMessage <==> StreamsActiveCount(rows) == 0
    ensures StreamsActiveCount(rows) > 0 ==> EarliestIncomplete(rows).Some?
    ensures StreamsActiveCount(rows) > 0 ==>
      var s := rows[EarliestIncomplete(rows).value].data;
      var m := NextStreamMessage(rows);
      && s.total - s.completed >= 1
      && StartsWith(m, s.name + ": ")
      && m[|s.name| + 2..] == ToGo(s.total - s.completed)
      && (m[|s.name| + 2..] == "1 milestone to go" <==> s.total - s.completed == 1)
  {
    var e := EarliestIncomplete(rows);
    if e.Some? {
      var s := rows[e.value].data;
      NamedMessage(s.name, s.total - s.completed);
      ToGoSingular(s.total - s.completed);
    }
  }

  /** The per-stream form of the message: never the fixed one, the name
      and ": " first, then the count and its label. */
  lemma NamedMessage(name: string, remaining: int)
    ensures var m := name + ": " + ToGo(remaining);
      m != AllCompleteMessage && StartsWith(m, name + ": ") && m[|name| + 2..] == ToGo(remaining)
  {
    var head := name + ": ";
    var m := head + ToGo(remaining);
    assert m[|m| - 1] == 'o';
    assert AllCompleteMessage[|AllCompleteMessage| - 1] == '.';
    assert m[..|head|] == head;
    assert m[|head|..] == ToGo(remaining);
  }

  /** The phrase is "1 milestone to go" exactly for one remaining
      milestone: any other count has a different label or a different
      length. */
  lemma ToGoSingular(remaining: int)
    ensures ToGo(remaining) == "1 milestone to go" <==> remaining == 1
  {
    assert |IntToString(remaining)| >= 1;
    if remaining == 1 {
      assert IntToString(1) == "1";
    }
  }

  // ---------------------------------------------------------------------
  // Trend
  // ---------------------------------------------------------------------

  const TrendMessages: seq<string> := [
    "Set your first milestone to start tracking mastery.",
    "Early progress logged—lean into the next milestone.",
    "Solid traction. Review blockers to accelerate.",
    "Momentum is compounding—keep shipping!"
  ]

  /** Which of the four messages a completion percentage earns: thresholds
      at 75, 40 and anything above 0. */
  function TrendLevel(completion: int): (k: nat)
    ensures k < 4
    ensures k == 3 <==> completion >= 75
    ensures k == 2 <==> 40 <= completion < 75
    ensures k == 1 <==> 0 < completion < 40
    ensures k == 0 <==> completion <= 0
  {
    if completion >= 75 then 3 else if completion >= 40 then 2 else if completion > 0 then 1 else 0
  }

  /** The trend message for the overall milestone completion. */
  function MilestoneTrendMessage(rows: seq<Row<StreamData>>): (r: string)
    ensures MilestoneCompletion(rows) >= 75 ==> r == "Momentum is compounding—keep shipping!"
    ensures 40 <= MilestoneCompletion(rows) < 75 ==> r == "Solid traction. Review blockers to accelerate."
    ensures 0 < MilestoneCompletion(rows) < 40 ==> r == "Early progress logged—lean into the next milestone."
    ensures MilestoneCompletion(rows) <= 0 ==> r == "Set your first milestone to start tracking mastery."
  {
    TrendMessages[TrendLevel(MilestoneCompletion(rows))]
  }

  /** More completion never earns a lower message. */
  lemma TrendMonotone(a: int, b: int)
    requires a <= b
    ensures TrendLevel(a) <= TrendLevel(b)
  {}

  // ---------------------------------------------------------------------
  // Habits and journal
  // ---------------------------------------------------------------------

  function DoneOn(today: int): Row<HabitData> -> bool {
    (h: Row<HabitData>) => h.data.lastCompletedOn == Some(today)
  }

  /** Habits whose last completion is today. */
  function HabitsCompletedToday(habits: seq<Row<HabitData>>, today: int): (r: nat)
    ensures r <= |habits|
    ensures r == |habits| <==> forall i :: 0 <= i < |habits| ==> habits[i].data.lastCompletedOn == Some(today)
    ensures r == 0 <==> forall i :: 0 <= i < |habits| ==> habits[i].data.lastCompletedOn != Some(today)
  {
    CountIf(habits, DoneOn(today))
  }

  const NoHabitsMessage := "Create a ritual to build your execution rhythm."

  /** "d of n rituals logged today", or an invitation when there are no habits. */
  function HabitConsistencyCopy(habits: seq<Row<HabitData>>, today: int): (r: string)
    ensures habits == [] <==> r == NoHabitsMessage
  {
    if habits == [] then NoHabitsMessage
    else
      var r := IntToString(HabitsCompletedToday(habits, today)) + " of " + IntToString(|habits|) + " rituals logged today";
      assert r[|r| - 1] == 'y' && NoHabitsMessage[|NoHabitsMessage| - 1] == '.';
      r
  }

  /** The copy reads "d of n rituals logged today": a numeral for the
      habits done today, " of ", a numeral for the number of habits, and
      the fixed ending. */
  lemma HabitCopyReadsBack(habits: seq<Row<HabitData>>, today: int)
    requires habits != []
    ensures CopyReads(HabitConsistencyCopy(habits, today), HabitsCompletedToday(habits, today), |habits|)
  {
    var c := HabitsCompletedToday(habits, today);
    DecimalRoundTrip(c);
    DecimalRoundTrip(|habits|);
    CopyPositions(NatToDecimal(c), NatToDecimal(|habits|));
  }

  /** r is a numeral worth d, " of ", a numeral worth n, and the ending. */
  predicate CopyReads(r: string, d: nat, n: nat) {
    exists k, j :: 0 < k && k + 4 < j <= |r|
      && AllDigits(r[..k]) && DigitsValue(r[..k]) == d
      && r[k..k + 4] == " of "
      && AllDigits(r[k + 4..j]) && DigitsValue(r[k + 4..j]) == n
      && r[j..] == " rituals logged today"
  }

  lemma CopyPositions(d: string, n: string)
    requires d != [] && n != [] && AllDigits(d) && AllDigits(n)
    ensures CopyReads(d + " of " + n + " rituals logged today", DigitsValue(d), DigitsValue(n))
  {
    var r := d + " of " + n + " rituals logged today";
    var k, j := |d|, |d| + 4 + |n|;
    assert r[..k] == d;
    assert r[k..k + 4] == " of ";
    assert r[k + 4..j] == n;
    assert r[j..] == " rituals logged today";
  }

  /** Seconds in the seven-day window the weekly count looks back over. */
  const WeekSeconds := 7 * 24 * 60 * 60

  /** Entries created at or after now minus seven days. */
  function ReflectionsThisWeek(entries: seq<Row<EntryData>>, now: int): (r: nat)
    ensures r <= |entries|
    ensures r == |entries| <==> forall i :: 0 <= i < |entries| ==> entries[i].createdAt >= now - WeekSeconds
  {
    CountIf(entries, (e: Row<EntryData>) => e.createdAt >= now - WeekSeconds)
  }

  /** The newest row (the first of the listing ordered by creation time,
      newest first; among equal times the first in table order). */
  function Newest<D>(rows: seq<Row<D>>): (k: nat)
    requires rows != []
    ensures k < |rows| && forall i :: 0 <= i < |rows| ==> rows[i].createdAt <= rows[k].createdAt
  {
    if |rows| == 1 then 0
    else
      var k := Newest(rows[1..]) + 1;
      assert forall i :: 1 <= i < |rows| ==> rows[i] == rows[1..][i - 1];
      if rows[k].createdAt > rows[0].createdAt then k else 0
  }

  const NoReflectionsTitle := "No reflections yet"
  const NoReflectionsPreview := "Capture your latest insight to build your mastery journal."

  function LatestJournalTitle(entries: seq<Row<EntryData>>): (r: string)
    ensures entries == [] ==> r == NoReflectionsTitle
    ensures entries != [] ==> exists k :: (0 <= k < |entries| && r == entries[k].data.title
              && forall i :: 0 <= i < |entries| ==> entries[i].createdAt <= entries[k].createdAt)
  {
    if entries == [] then NoReflectionsTitle else entries[Newest(entries)].data.title
  }

  const PreviewLimit := 140
  const Ellipsis := "..."

  /** A reflection as the dashboard previews it: unchanged up to 140
      characters, otherwise its first 137 characters, right-stripped, and
      "...". Never longer than 140. */
  function Preview(text: string): (r: string)
    ensures |r| <= PreviewLimit
    ensures |text| <= PreviewLimit ==> r == text
    ensures |text| > PreviewLimit ==> exists n :: (0 <= n <= PreviewLimit - |Ellipsis| && r == text[..n] + Ellipsis
              && (n == 0 || !IsSpace(text[n - 1])) && AllSpace(text[n..PreviewLimit - |Ellipsis|]))
  {
    if |text| <= PreviewLimit then text
    else
      var head := text[..PreviewLimit - |Ellipsis|];
      var kept := RStrip(head);
      assert kept == text[..|kept|];
      kept + Ellipsis
  }

  function LatestJournalPreview(entries: seq<Row<EntryData>>): (r: string)
    ensures entries == [] ==> r == NoReflectionsPreview
    ensures entries != [] ==> |r| <= PreviewLimit && exists k :: (0 <= k < |entries|
              && r == Preview(Strip(entries[k].data.reflection))
              && forall i :: 0 <= i < |entries| ==> entries[i].createdAt <= entries[k].createdAt)
  {
    if entries == [] then NoReflectionsPreview else Preview(Strip(entries[Newest(entries)].data.reflection))
  }
}
