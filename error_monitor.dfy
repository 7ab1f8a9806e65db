/** The browser error monitor of scripts/error-monitor.js: a bounded log of
    the most recent errors, and a notifier that stays quiet while the same
    error keeps repeating within the dedupe window. The two clocks the
    monitor reads (milliseconds for the window, an ISO string for the
    stamp) are parameters. */
module ErrorMonitoring {
  import opened Wrappers
  import opened Text

  const DefaultMaxStored := 20
  const DefaultDedupeWindow := 1000
  const UnknownError := "Unknown error"
  const RejectionPrefix := "Unhandled promise rejection"
  const ErrorPrefix := "Application error"
  const RejectionType := "unhandledrejection"
  const ErrorType := "error"

  // ---------------------------------------------------------------------
  // Normalising what was thrown
  // ---------------------------------------------------------------------

  /** What an error event can carry. An Error instance has a message and
      a stack; a plain object may have a string message and a string stack
      (None when the property is missing or not a string), and json is its
      JSON text (None when serialising throws). OtherValue is null,
      undefined, a number or a boolean. */
  datatype ErrorLike =
    | ErrorInstance(message: string, stack: string)
    | StringValue(s: string)
    | ObjectValue(messageField: Option<string>, stackField: Option<string>, json: Option<string>)
    | OtherValue

  datatype Detail = Detail(message: string, stack: Option<string>)

  /** The message and stack an error event is recorded with. */
  function NormaliseError(e: ErrorLike): (d: Detail)
    ensures e.ErrorInstance? && e.message != [] ==> d.message == e.message
    ensures e.ErrorInstance? && e.message == [] ==> d.message == UnknownError
    ensures e.ErrorInstance? ==> (d.stack.Some? <==> e.stack != []) && (e.stack != [] ==> d.stack == Some(e.stack))
    ensures e.StringValue? ==> d == Detail(e.s, None)
    ensures e.ObjectValue? && e.messageField.Some? ==> d == Detail(e.messageField.value, e.stackField)
    ensures e.ObjectValue? && e.messageField.None? && e.json.Some? ==> d == Detail(e.json.value, None)
    ensures e.OtherValue? || (e.ObjectValue? && e.messageField.None? && e.json.None?) ==> d == Detail(UnknownError, None)
  {
    match e
    case ErrorInstance(message, stack) =>
      Detail(if message == [] then UnknownError else message, if stack == [] then None else Some(stack))
    case StringValue(s) => Detail(s, None)
    case ObjectValue(messageField, stackField, json) =>
      if messageField.Some? then Detail(messageField.value, stackField)
      else Detail(json.GetOr(UnknownError), None)
    case OtherValue => Detail(UnknownError, None)
  }

  /** The notification text: the prefix alone for a blank message, the
      prefix, ": " and the trimmed message otherwise. */
  function FormatMessage(prefix: string, message: string): (r: string)
    ensures StartsWith(r, prefix)
    ensures Strip(message) == [] <==> r == prefix
    ensures Strip(message) != [] ==> r[|prefix|..] == ": " + Strip(message)
  {
    var trimmed := Strip(message);
    if trimmed == [] then prefix
    else
      assert (prefix + ": " + trimmed)[..|prefix|] == prefix;
      assert (prefix + ": " + trimmed)[|prefix|..] == ": " + trimmed;
      prefix + ": " + trimmed
  }

  /** Rejections and errors are announced under different prefixes. */
  function PrefixFor(kind: Option<string>): (p: string)
    ensures p == RejectionPrefix <==> kind == Some(RejectionType)
    ensures p == RejectionPrefix || p == ErrorPrefix
  {
    assert RejectionPrefix[0] != ErrorPrefix[0];
    if kind == Some(RejectionType) then RejectionPrefix else ErrorPrefix
  }

  // ---------------------------------------------------------------------
  // Entries and the bounded log
  // ---------------------------------------------------------------------

  /** What record is given: a timestamp may already be present. */
  datatype Incoming = Incoming(message: string, stack: Option<string>, kind: Option<string>, timestamp: Option<string>)

  datatype Entry = Entry(message: string, stack: Option<string>, kind: Option<string>, timestamp: string)

  /** The entry as stored: an existing timestamp is kept, a missing one is
      the current time. */
  function Stamp(e: Incoming, isoNow: string): (s: Entry)
    ensures s.message == e.message && s.stack == e.stack && s.kind == e.kind
    ensures e.timestamp.Some? ==> s.timestamp == e.timestamp.value
    ensures e.timestamp.None? ==> s.timestamp == isoNow
  {
    Entry(e.message, e.stack, e.kind, e.timestamp.GetOr(isoNow))
  }

  /** The dedupe key: message and stack (empty when absent) joined by "|". */
  function KeyOf(e: Entry): (k: string)
    ensures |k| == |e.message| + 1 + |e.stack.GetOr("")|
    ensures k[..|e.message|] == e.message && k[|e.message|] == '|'
  {
    e.message + "|" + e.stack.GetOr("")
  }

  /** For messages without "|", two entries share a key exactly when their
      messages agree and so do their stacks, a missing stack counting as an
      empty one. */
  lemma KeyInjective(a: Entry, b: Entry)
    requires '|' !in a.message && '|' !in b.message
    ensures KeyOf(a) == KeyOf(b) <==> a.message == b.message && a.stack.GetOr("") == b.stack.GetOr("")
  {
    var ka, kb := KeyOf(a), KeyOf(b);
    if ka == kb {
      // the first "|" of the key ends the message
      assert |a.message| == |b.message|;
      assert a.message == ka[..|a.message|] == b.message;
      assert a.stack.GetOr("") == ka[|a.message| + 1..];
      assert b.stack.GetOr("") == kb[|b.message| + 1..];
    }
  }

  /** The last max elements of s (none when max is not positive). */
  function KeepLast<T>(s: seq<T>, max: int): (r: seq<T>)
    ensures |s| <= max ==> r == s
    ensures |s| > max ==> |r| == (if max < 0 then 0 else max)
  {
    if |s| <= max then s else if max <= 0 then [] else s[|s| - max..]
  }

  /** What is kept is the newest part of s, in the order it came. */
  lemma KeepLastIsSuffix<T>(s: seq<T>, max: int)
    ensures var r := KeepLast(s, max); |r| <= |s| && r == s[|s| - |r|..]
  {}

  /** Trimming after every append keeps the same entries as trimming the
      whole history once. */
  lemma KeepLastAppend<T>(s: seq<T>, x: T, max: int)
    ensures KeepLast(KeepLast(s, max) + [x], max) == KeepLast(s + [x], max)
  {
    var k := KeepLast(s, max);
    var full := s + [x];
    assert full[|full| - 1] == x;
    if |s| > max && max > 0 {
      assert k + [x] == full[|full| - max - 1..];
      assert (k + [x])[1..] == full[|full| - max..];
    } else if |s| <= max {
      assert k == s;
    }
  }

  // ---------------------------------------------------------------------
  // The sliding dedupe window
  // ---------------------------------------------------------------------

  /** The key and time of the previous record seen by the notifier. */
  datatype Window = Window(lastKey: Option<string>, lastTimestamp: int)

  const FreshWindow := Window(None, 0)

  /** Whether a record with this key at time t is announced, and the new
      window. A repeat of the previous key within the window is silent;
      either way the window moves to this record. */
  function Admit(w: Window, key: string, t: int, dedupeWindow: int): (r: (bool, Window))
    ensures !r.0 <==> w.lastKey == Some(key) && t - w.lastTimestamp < dedupeWindow
    ensures r.1 == Window(Some(key), t)
  {
    if w.lastKey == Some(key) && t - w.lastTimestamp < dedupeWindow then (false, w.(lastTimestamp := t))
    else (true, Window(Some(key), t))
  }

  /** Which of a run of same-key records are announced. */
  function Replay(w: Window, key: string, times: seq<int>, dedupeWindow: int): (flags: seq<bool>)
    ensures |flags| == |times|
    decreases |times|
  {
    if times == [] then []
    else
      var r := Admit(w, key, times[0], dedupeWindow);
      [r.0] + Replay(r.1, key, times[1..], dedupeWindow)
  }

  /** Each record follows the one before it by less than the window. */
  predicate Close(prev: int, times: seq<int>, dedupeWindow: int) {
    && (times != [] ==> times[0] - prev < dedupeWindow)
    && forall i :: 1 <= i < |times| ==> times[i] - times[i - 1] < dedupeWindow
  }

  /** Inside a burst of one key nothing is announced, however long the
      burst lasts: the window slides with every record. */
  lemma {:induction false} BurstIsSilent(key: string, prev: int, times: seq<int>, dedupeWindow: int)
    requires Close(prev, times, dedupeWindow)
    decreases |times|
    ensures forall i :: 0 <= i < |times| ==> !Replay(Window(Some(key), prev), key, times, dedupeWindow)[i]
  {
    if times != [] {
      var rest := times[1..];
      assert Close(times[0], rest, dedupeWindow) by {
        forall i | 1 <= i < |rest| ensures rest[i] - rest[i - 1] < dedupeWindow {
          assert rest[i] == times[i + 1] && rest[i - 1] == times[i];
        }
        if rest != [] { assert rest[0] == times[1]; }
      }
      BurstIsSilent(key, times[0], rest, dedupeWindow);
    }
  }

  /** A fresh notifier announces the first record of a burst and nothing
      after it. */
  lemma BurstNotifiesOnce(key: string, times: seq<int>, dedupeWindow: int)
    requires times != [] && Close(times[0], times[1..], dedupeWindow)
    ensures var flags := Replay(FreshWindow, key, times, dedupeWindow);
      flags[0] && forall i :: 1 <= i < |flags| ==> !flags[i]
  {
    var flags := Replay(FreshWindow, key, times, dedupeWindow);
    var tail := Replay(Window(Some(key), times[0]), key, times[1..], dedupeWindow);
    assert flags == [true] + tail;
    BurstIsSilent(key, times[0], times[1..], dedupeWindow);
    forall i | 1 <= i < |flags| ensures !flags[i] {
      assert flags[i] == tail[i - 1];
    }
  }

  /** Records at 0, 200 and 1500 ms with the default 1000 ms window: the
      second is a repeat, the third comes after the window has passed. */
  lemma RepeatedFailureTimeline(key: string)
    ensures Replay(FreshWindow, key, [0, 200, 1500], DefaultDedupeWindow) == [true, false, true]
  {
    var w1 := Window(Some(key), 0);
    var w2 := Window(Some(key), 200);
    assert [0, 200, 1500][1..] == [200, 1500];
    assert [200, 1500][1..] == [1500];
    assert Replay(w2, key, [1500], DefaultDedupeWindow) == [true];
    assert Replay(w1, key, [200, 1500], DefaultDedupeWindow) == [false, true];
  }

  // ---------------------------------------------------------------------
  // The monitor
  // ---------------------------------------------------------------------

  /** One monitor. listening says whether a target with addEventListener
      was found; without one, every record is announced. hasNotify says
      whether notify is a function; notifications are the messages it has
      been given. */
  class Monitor {
    const listening: bool
    const hasNotify: bool
    const maxStored: int
    const dedupeWindow: int
    var entries: seq<Entry>
    var window: Window
    var notifications: seq<string>
    /** Every entry ever stored, oldest first. */
    ghost var history: seq<Entry>

    /** The log holds the most recent entries, in arrival order. */
    ghost predicate Valid()
      reads this
    {
      entries == KeepLast(history, maxStored)
    }

    /** Whether a record of e at time t is announced, given the window. */
    predicate Announces(w: Window, e: Entry, t: int) {
      !listening || Admit(w, KeyOf(e), t, dedupeWindow).0
    }

    /** The window after a record of e at time t. */
    function NextWindow(w: Window, e: Entry, t: int): Window {
      if listening then Admit(w, KeyOf(e), t, dedupeWindow).1 else w
    }

    /** What notify is given for an announced entry. */
    function Notice(e: Entry): seq<string> {
      if hasNotify then [FormatMessage(PrefixFor(e.kind), e.message)] else []
    }

    constructor (listening: bool, hasNotify: bool, maxStored: int, dedupeWindow: int)
      ensures Valid()
      ensures this.listening == listening && this.hasNotify == hasNotify
      ensures this.maxStored == maxStored && this.dedupeWindow == dedupeWindow
      ensures entries == [] && history == [] && notifications == [] && window == FreshWindow
    {
      this.listening := listening;
      this.hasNotify := hasNotify;
      this.maxStored := maxStored;
      this.dedupeWindow := dedupeWindow;
      entries := [];
      history := [];
      notifications := [];
      window := FreshWindow;
    }

    method ShouldNotify(e: Entry, t: int) returns (notify: bool)
      modifies this`window
      ensures (notify, window) == Admit(old(window), KeyOf(e), t, dedupeWindow)
    {
      var key := KeyOf(e);
      if window.lastKey == Some(key) && t - window.lastTimestamp < dedupeWindow {
        window := window.(lastTimestamp := t);
        return false;
      }
      window := Window(Some(key), t);
      notify := true;
    }

    /** Appends the entry and drops the oldest beyond maxStored. */
    method Push(stamped: Entry)
      requires Valid()
      modifies this`entries, this`history
      ensures Valid()
      ensures history == old(history) + [stamped]
      ensures entries == KeepLast(old(entries) + [stamped], maxStored)
    {
      KeepLastAppend(history, stamped, maxStored);
      history := history + [stamped];
      entries := entries + [stamped];
      if |entries| > maxStored {
        // splice clamps the count it removes to the length
        var drop := |entries| - maxStored;
        entries := if drop < |entries| then entries[drop..] else [];
      }
    }

    /** Hands the entry to notify unless the window holds it back. */
    method Announce(stamped: Entry, t: int)
      modifies this`window, this`notifications
      ensures window == NextWindow(old(window), stamped, t)
      ensures notifications == old(notifications) + (if Announces(old(window), stamped, t) then Notice(stamped) else [])
    {
      var announce := true;
      if listening {
        announce := ShouldNotify(stamped, t);
      }
      if announce && hasNotify {
        notifications := notifications + [FormatMessage(PrefixFor(stamped.kind), stamped.message)];
      }
    }

    /** Stamps and stores the entry, then announces it unless the window
        holds it back. t is the notifier's clock, read only when
        listening. */
    method Record(e: Incoming, t: int, isoNow: string) returns (stamped: Entry)
      requires Valid()
      modifies this
      ensures Valid()
      ensures stamped == Stamp(e, isoNow)
      ensures history == old(history) + [stamped]
      ensures entries == KeepLast(old(entries) + [stamped], maxStored)
      ensures window == NextWindow(old(window), stamped, t)
      ensures notifications == old(notifications) + (if Announces(old(window), stamped, t) then Notice(stamped) else [])
    {
      stamped := Stamp(e, isoNow);
      Push(stamped);
      Announce(stamped, t);
    }

    /** An error event: recorded with type "error" and a fresh stamp. */
    method HandleError(thrown: ErrorLike, t: int, isoNow: string)
      requires Valid()
      modifies this
      ensures Valid()
      ensures var d := NormaliseError(thrown);
        var stamped := Entry(d.message, d.stack, Some(ErrorType), isoNow);
        && history == old(history) + [stamped]
        && entries == KeepLast(old(entries) + [stamped], maxStored)
        && window == NextWindow(old(window), stamped, t)
        && notifications == old(notifications) + (if Announces(old(window), stamped, t) then Notice(stamped) else [])
    {
      var d := NormaliseError(thrown);
      var _ := Record(Incoming(d.message, d.stack, Some(ErrorType), None), t, isoNow);
    }

    /** An unhandled rejection: recorded with type "unhandledrejection". */
    method HandleRejection(reason: ErrorLike, t: int, isoNow: string)
      requires Valid()
      modifies this
      ensures Valid()
      ensures var d := NormaliseError(reason);
        var stamped := Entry(d.message, d.stack, Some(RejectionType), isoNow);
        && history == old(history) + [stamped]
        && entries == KeepLast(old(entries) + [stamped], maxStored)
        && window == NextWindow(old(window), stamped, t)
        && notifications == old(notifications) + (if Announces(old(window), stamped, t) then Notice(stamped) else [])
    {
      var d := NormaliseError(reason);
      var _ := Record(Incoming(d.message, d.stack, Some(RejectionType), None), t, isoNow);
    }
  }

  /** A rejection is announced under its own prefix. */
  lemma RejectionNotice(m: Monitor, e: Entry)
    requires m.hasNotify && e.kind == Some(RejectionType)
    ensures |m.Notice(e)| == 1 && StartsWith(m.Notice(e)[0], RejectionPrefix)
  {}

  // ---------------------------------------------------------------------
  // The monitor's test scenarios
  // ---------------------------------------------------------------------

  /** The same failure thrown three times, at 0, 200 and 1500 ms, with the
      default window and log size: all three are stored, two are announced. */
  method RepeatedFailureScenario(message: string, stack: string) returns (stored: nat, announced: nat)
    ensures stored == 3 && announced == 2
  {
    var m := new Monitor(true, true, DefaultMaxStored, DefaultDedupeWindow);
    var failure := ErrorInstance(message, stack);
    var d := NormaliseError(failure);
    var e0 := Entry(d.message, d.stack, Some(ErrorType), "t0");
    m.HandleError(failure, 0, "t0");
    assert m.Announces(FreshWindow, e0, 0);
    assert |m.Notice(e0)| == 1;
    assert |m.notifications| == 1;
    m.HandleError(failure, 200, "t1");
    assert |m.notifications| == 1;
    m.HandleError(failure, 1500, "t2");
    stored, announced := |m.entries|, |m.notifications|;
  }

  /** With room for two entries, three records leave the last two. */
  method CappedLogScenario(first: string, second: string, third: string) returns (messages: seq<string>)
    requires second != [] && third != []
    ensures messages == [second, third]
  {
    var m := new Monitor(true, true, 2, 0);
    m.HandleError(ErrorInstance(first, "s1"), 0, "t0");
    m.HandleError(ErrorInstance(second, "s2"), 0, "t1");
    m.HandleError(ErrorInstance(third, "s3"), 0, "t2");
    assert |m.entries| == 2;
    messages := [m.entries[0].message, m.entries[1].message];
  }
}
