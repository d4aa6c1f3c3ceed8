/**
  The snapshot history and the event log of App.tsx.

  A snapshot holds a copy of the pivot offsets and the proportions.  The undo
  stack keeps the last 50 snapshots and saving a new one clears the redo
  stack; undo and redo move the current state across the two stacks.  The
  event log keeps the last 100 entries when a message is logged; snapshot
  entries are appended to it without a cap.
*/
module History {

  import opened Options
  import opened Skeleton

  /** The pose data a snapshot copies: pivot offsets and proportions. */
  datatype PoseState = PoseState(offsets: map<Joint, real>, props: map<Part, Proportion>)

  /** A full record: an angle for every joint and proportions for every part. */
  ghost predicate Complete(s: PoseState) {
    TotalOffsets(s.offsets) && TotalProps(s.props)
  }

  /**
    One HistoryState: the undo and redo stacks and the keyframes hold entries
    with a state; the recording log also holds plain messages (no state, a caption).
  */
  datatype Entry = Entry(state: Option<PoseState>, timestamp: int, caption: Option<string>)

  /** The most entries the undo stack keeps, and the most the log keeps after addLog. */
  const HistoryCap: nat := 50
  const LogCap: nat := 100

  /** slice(-n) for n > 0: the last n elements, or all of them when there are fewer. */
  function Tail<T>(s: seq<T>, n: nat): (r: seq<T>)
    ensures |r| == if |s| <= n then |s| else n
    ensures r == s[|s| - |r|..]
  {
    if |s| <= n then s else s[|s| - n..]
  }

  /** saveToHistory's new undo stack: the last 49 entries, then the new one. */
  function Commit(history: seq<Entry>, e: Entry): (h: seq<Entry>)
    ensures 0 < |h| <= HistoryCap && h[|h| - 1] == e
  {
    Tail(history, HistoryCap - 1) + [e]
  }

  /** addLog's new log: the last 99 entries, then the message. */
  function AppendLog(log: seq<Entry>, e: Entry): (l: seq<Entry>)
    ensures 0 < |l| <= LogCap && l[|l| - 1] == e
  {
    Tail(log, LogCap - 1) + [e]
  }

  /** A committed undo stack holds at most 50 entries, ends with the new entry and otherwise keeps the newest old entries, in order. */
  lemma CommitKeepsNewest(history: seq<Entry>, e: Entry)
    ensures var h := Commit(history, e);
      && |h| <= HistoryCap
      && h[|h| - 1] == e
      && h[..|h| - 1] == history[|history| - (|h| - 1)..]
  {
    var h := Commit(history, e);
    assert h[..|h| - 1] == Tail(history, HistoryCap - 1);
  }

  /** Below the cap nothing is dropped. */
  lemma CommitBelowCap(history: seq<Entry>, e: Entry)
    requires |history| < HistoryCap
    ensures Commit(history, e) == history + [e]
  {
  }

  /** At the cap exactly the oldest entry is dropped. */
  lemma CommitAtCap(history: seq<Entry>, e: Entry)
    requires |history| == HistoryCap
    ensures Commit(history, e) == history[1..] + [e]
  {
  }

  /** The log after addLog holds at most 100 entries, ends with the message and otherwise keeps the newest old entries, in order. */
  lemma AppendLogKeepsNewest(log: seq<Entry>, e: Entry)
    ensures var l := AppendLog(log, e);
      && |l| <= LogCap
      && l[|l| - 1] == e
      && l[..|l| - 1] == log[|log| - (|l| - 1)..]
  {
    var l := AppendLog(log, e);
    assert l[..|l| - 1] == Tail(log, LogCap - 1);
  }

  /** Committing the entries of es one after the other, as successive saveToHistory calls do. */
  function CommitAll(history: seq<Entry>, es: seq<Entry>): seq<Entry>
    decreases |es|
  {
    if es == [] then history else CommitAll(Commit(history, es[0]), es[1..])
  }

  /** Cutting s down to its last k before appending x loses nothing of the last n of the result. */
  lemma TailOfTail<T>(s: seq<T>, x: seq<T>, k: nat, n: nat)
    requires n <= k + |x|
    ensures Tail(Tail(s, k) + x, n) == Tail(s + x, n)
  {
    var a := Tail(s, k) + x;
    var b := s + x;
    if |s| > k {
      assert a == b[|b| - |a|..];
      var m := |Tail(a, n)|;
      assert a[|a| - m..] == b[|b| - m..];
    }
  }

  /**
    Any run of saves leaves the undo stack holding the newest 50 of the old
    entries followed by the saved ones, in order: old entries are dropped
    oldest first.
  */
  lemma {:induction false} CommitAllIsTail(history: seq<Entry>, es: seq<Entry>)
    requires |history| <= HistoryCap
    ensures CommitAll(history, es) == Tail(history + es, HistoryCap)
    decreases |es|
  {
    if es == [] {
      assert history + es == history;
    } else {
      var h := Commit(history, es[0]);
      CommitAllIsTail(h, es[1..]);
      assert h + es[1..] == Tail(history, HistoryCap - 1) + es;
      TailOfTail(history, es, HistoryCap - 1, HistoryCap);
    }
  }

  /** A plain log message: no pose, just the text. */
  function Message(text: string, now: int): (e: Entry)
    ensures e.state.None? && e.caption == Some(text)
  {
    Entry(None, now, Some(text))
  }

  /** filter((_, i) => i !== k): every entry but the one at k, the others in order. */
  function Without<T>(s: seq<T>, k: nat): (r: seq<T>)
    requires k < |s|
    ensures |r| == |s| - 1
    ensures forall i | 0 <= i < k :: r[i] == s[i]
    ensures forall i | k <= i < |r| :: r[i] == s[i + 1]
  {
    s[..k] + s[k + 1..]
  }

  /** Entries that all carry a full record (the undo and redo stacks, the keyframes). */
  ghost predicate Stored(es: seq<Entry>) {
    forall i | 0 <= i < |es| :: es[i].state.Some? && Complete(es[i].state.value)
  }

  /** Entries whose record, where they carry one, is full (the log). */
  ghost predicate LogStored(es: seq<Entry>) {
    forall i | 0 <= i < |es| :: es[i].state.Some? ==> Complete(es[i].state.value)
  }

  /** Cutting a stack down to its newest entries and pushing a full entry keeps every entry full. */
  lemma StoredCommit(history: seq<Entry>, e: Entry)
    requires Stored(history) && e.state.Some? && Complete(e.state.value)
    ensures Stored(Commit(history, e))
  {
    var t := Tail(history, HistoryCap - 1);
    assert forall i | 0 <= i < |t| :: t[i] == history[|history| - |t| + i];
  }

  /** Logging a message keeps the log's records full. */
  lemma LogStoredAppend(log: seq<Entry>, e: Entry)
    requires LogStored(log) && (e.state.Some? ==> Complete(e.state.value))
    ensures LogStored(AppendLog(log, e))
  {
    var t := Tail(log, LogCap - 1);
    assert forall i | 0 <= i < |t| :: t[i] == log[|log| - |t| + i];
  }

  // ---------------------------------------------------------------------
  // The selected log entry across addLog.

  /**
    addLog as written leaves the selected position alone.  When the log is
    full the entries move down by one, so the position then names the entry
    that followed the selected one...
  */
  lemma SelectionShiftsAsWritten(log: seq<Entry>, e: Entry, i: nat)
    requires |log| == LogCap && i + 1 < |log|
    ensures AppendLog(log, e)[i] == log[i + 1]
  {
  }

  /** ... and past a full log, which snapshots can make longer than 100, it can name no entry at all. */
  lemma SelectionOutOfRangeAsWritten(log: seq<Entry>, e: Entry)
    requires |log| > LogCap
    ensures |log| - 1 >= |AppendLog(log, e)|
  {
  }

  /** The selection corrected for addLog: moved down by the entries dropped, cleared when its own entry is dropped. */
  function ShiftSelection(log: seq<Entry>, sel: Option<nat>, e: Entry): (s: Option<nat>)
    ensures s.Some? ==> sel.Some? && sel.value < |log| && s.value < |AppendLog(log, e)|
    ensures s.Some? ==> AppendLog(log, e)[s.value] == log[sel.value]
    ensures sel.Some? && |log| - (LogCap - 1) <= sel.value < |log| ==> s.Some?
  {
    match sel
    case None => None
    case Some(i) =>
      var dropped := |log| - |Tail(log, LogCap - 1)|;
      if dropped <= i < |log| then Some(i - dropped) else None
  }

  // ---------------------------------------------------------------------
  // Undo and redo on the two stacks and the current state.

  /** The undo stack, the redo stack and the state on screen. */
  datatype Timeline = Timeline(history: seq<Entry>, redo: seq<Entry>, current: PoseState)

  /** An entry may be restored when it carries a state. */
  ghost predicate Restorable(es: seq<Entry>) {
    forall i | 0 <= i < |es| :: es[i].state.Some?
  }

  /**
    undo: with an undoable entry, the current state goes to the front of the
    redo stack (stamped now) and the last undo entry becomes current.
  */
  function Undo(t: Timeline, now: int): (r: Timeline)
    requires Restorable(t.history)
    ensures |r.history| + |r.redo| == |t.history| + |t.redo|
    ensures t.history == [] ==> r == t
  {
    if t.history == [] then t
    else
      var previous := t.history[|t.history| - 1];
      Timeline(t.history[..|t.history| - 1], [Entry(Some(t.current), now, None)] + t.redo, previous.state.value)
  }

  /** redo: symmetric, taking the front of the redo stack and pushing the current state on the undo stack. */
  function Redo(t: Timeline, now: int): (r: Timeline)
    requires Restorable(t.redo)
    ensures |r.history| + |r.redo| == |t.history| + |t.redo|
    ensures t.redo == [] ==> r == t
  {
    if t.redo == [] then t
    else
      Timeline(t.history + [Entry(Some(t.current), now, None)], t.redo[1..], t.redo[0].state.value)
  }

  /** Undo and redo keep every stacked entry and the state on screen a full record. */
  lemma TimelineStored(t: Timeline, now: int)
    requires Stored(t.history) && Stored(t.redo) && Complete(t.current)
    ensures var r := Undo(t, now); Stored(r.history) && Stored(r.redo) && Complete(r.current)
    ensures var r := Redo(t, now); Stored(r.history) && Stored(r.redo) && Complete(r.current)
  {
    var u := Undo(t, now);
    if t.history != [] {
      assert t.history[|t.history| - 1].state.Some?;
      assert forall i | 1 <= i < |u.redo| :: u.redo[i] == t.redo[i - 1];
    }
    var d := Redo(t, now);
    if t.redo != [] {
      assert t.redo[0].state.Some?;
      assert forall i | 0 <= i < |d.redo| :: d.redo[i] == t.redo[i + 1];
    }
  }

  /** The states an entry list carries, in order. */
  function States(es: seq<Entry>): seq<Option<PoseState>> {
    seq(|es|, i requires 0 <= i < |es| => es[i].state)
  }

  /** Undo followed by redo restores the state on screen and the redo stack, and the undo stack's states. */
  lemma UndoThenRedo(t: Timeline, now1: int, now2: int)
    requires Restorable(t.history) && Restorable(t.redo) && t.history != []
    ensures Restorable(Undo(t, now1).redo)
    ensures var r := Redo(Undo(t, now1), now2);
      && r.current == t.current
      && r.redo == t.redo
      && States(r.history) == States(t.history)
  {
    var u := Undo(t, now1);
    assert u.redo[0].state == Some(t.current);
    var r := Redo(u, now2);
    assert r.redo == t.redo;
  }

  /** Redo followed by undo restores the state on screen and the undo stack, and the redo stack's states. */
  lemma RedoThenUndo(t: Timeline, now1: int, now2: int)
    requires Restorable(t.history) && Restorable(t.redo) && t.redo != []
    ensures Restorable(Redo(t, now1).history)
    ensures var r := Undo(Redo(t, now1), now2);
      && r.current == t.current
      && r.history == t.history
      && States(r.redo) == States(t.redo)
  {
    var d := Redo(t, now1);
    assert d.history[..|d.history| - 1] == t.history;
  }
}
