/**
  The App component's state and its handlers (App.tsx), as one object whose
  methods update its fields.

  React's state setters are modelled as field assignments in the order the
  handler issues them.  Where a handler reads state through a closure made
  at an earlier render, the model reads the value that closure saw: the
  snapshots recorded by resetProps and setFixedPose hold the pose from
  before their own update, and the snapshot at the end of the calibration
  holds the pose from the moment it started.  Date.now() is the `now`
  parameter, and the animation frames' clock is the `time` parameter.
*/
module Studio {

  import opened Options
  import opened Skeleton
  import opened Hierarchy
  import opened Propagation
  import opened History
  import opened Animation
  import opened Text
  import Kinematics
  import opened Frames

  /** What a running calibration's frame callback captured when it started. */
  datatype CalibrationRun = CalibrationRun(startTime: real, startPose: map<Joint, real>, snapshot: PoseState)
  {
    /** The time since the calibration started, at frame time `time`. */
    function Elapsed(time: real): real {
      time - startTime
    }
  }

  /** What a running playback's frame callback captured when it started. */
  datatype PlaybackRun = PlaybackRun(startTime: real, keys: seq<PoseState>)
  {
    /** The time since the playback started, at frame time `time`. */
    function Elapsed(time: real): real {
      time - startTime
    }
  }

  /** handleModeChange: choosing a joint's current mode again switches it back to fk. */
  function ToggleMode(current: Mode, chosen: Mode): (m: Mode)
    ensures m == Fk <==> current == chosen || chosen == Fk
    ensures m != Fk ==> m == chosen
  {
    if current == chosen then Fk else chosen
  }

  /** handleDrag: the dragged joint follows the pointer at half a degree per pixel from where the drag started. */
  function DragValue(startOffset: real, startX: real, clientX: real): (v: real)
    ensures clientX == startX ==> v == startOffset
    ensures v - startOffset == (clientX - startX) / 2.0
  {
    startOffset + (clientX - startX) * 0.5
  }

  /** The name a deleted log entry is announced by: its caption, or "Pose @ <time>" when it has none or an empty one. */
  function EntryName(e: Entry, timeText: int -> string): (name: string)
    ensures e.caption.Some? && e.caption.value != "" ==> name == e.caption.value
    ensures e.caption.None? || e.caption.value == "" ==> name == "Pose @ " + timeText(e.timestamp)
  {
    if e.caption.Some? && e.caption.value != "" then e.caption.value else "Pose @ " + timeText(e.timestamp)
  }

  /** The log line for a new pin. */
  function PinMessage(k: Joint, now: int): (e: Entry)
    ensures e.state.None? && e.timestamp == now && e.caption.Some?
    ensures '_' !in e.caption.value
  {
    SpacedHasNoUnderscore(JointName(k));
    Message("PIN SET: Puppet now pivots on " + Spaced(JointName(k)) + ".", now)
  }

  /** The poses of a list of full entries, in order. */
  function KeyStates(es: seq<Entry>): (r: seq<PoseState>)
    requires Stored(es)
    ensures |r| == |es|
    ensures forall i | 0 <= i < |r| :: Some(r[i]) == es[i].state && Complete(r[i])
  {
    seq(|es|, i requires 0 <= i < |es| => es[i].state.value)
  }

  /** A proportion with one of its two factors replaced. */
  function WithAxis(p: Proportion, axis: Kinematics.Axis, v: real): (r: Proportion)
    ensures axis == Kinematics.W ==> r.w == v && r.h == p.h
    ensures axis == Kinematics.H ==> r.h == v && r.w == p.w
  {
    if axis == Kinematics.W then Proportion(v, p.h) else Proportion(p.w, v)
  }

  class Studio {
    var pivotOffsets: map<Joint, real>
    var props: map<Part, Proportion>
    var jointModes: map<Joint, Mode>
    var history: seq<Entry>
    var redoStack: seq<Entry>
    var recordingHistory: seq<Entry>
    var keyframes: seq<Entry>
    var selectedLogIndex: Option<nat>
    var isCalibrated: bool
    var isCalibrating: bool
    var isPlayingTimelapse: bool
    var isConsoleVisible: bool
    var draggingBoneKey: Option<Joint>
    var dragStartX: real
    var dragStartPivotOffset: real
    var pinnedJointKey: Joint
    var calibration: Option<CalibrationRun>
    var playback: Option<PlaybackRun>

    /** The pose on screen, as a snapshot copies it. */
    function State(): PoseState
      reads this`pivotOffsets, this`props
    {
      PoseState(pivotOffsets, props)
    }

    /** The records are full: an angle for every joint, proportions for every part, a mode for every joint. */
    ghost predicate PoseValid()
      reads this`pivotOffsets, this`props, this`jointModes
    {
      Complete(State()) && TotalModes(jointModes)
    }

    /** The two stacks hold at most 50 entries between them, and they and the keyframes hold only full records. */
    ghost predicate StacksValid()
      reads this`history, this`redoStack, this`keyframes
    {
      |history| + |redoStack| <= HistoryCap && Stored(history) && Stored(redoStack) && Stored(keyframes)
    }

    /**
      The log's records are full.  A selected log position need not name an
      entry: addLog leaves it where it was while the log moves under it.
    */
    ghost predicate LogValid()
      reads this`recordingHistory
    {
      LogStored(recordingHistory)
    }

    /** An animation runs exactly while its flag is set, from full records it captured. */
    ghost predicate RunsValid()
      reads this`isCalibrating, this`calibration, this`isPlayingTimelapse, this`playback
    {
      && (isCalibrating <==> calibration.Some?)
      && (calibration.Some? ==> TotalOffsets(calibration.value.startPose) && Complete(calibration.value.snapshot))
      && (isPlayingTimelapse <==> playback.Some?)
      && (playback.Some? ==> |playback.value.keys| >= 2
                             && forall i | 0 <= i < |playback.value.keys| :: Complete(playback.value.keys[i]))
    }

    ghost predicate Valid()
      reads this`pivotOffsets, this`props, this`jointModes, this`history, this`redoStack, this`keyframes,
            this`recordingHistory, this`isCalibrating, this`calibration,
            this`isPlayingTimelapse, this`playback
    {
      PoseValid() && StacksValid() && LogValid() && RunsValid()
    }

    /** The app as it mounts: the challenge pose, unit proportions, every joint in fk, empty stacks and log. */
    constructor ()
      ensures Valid()
      ensures pivotOffsets == InitialChallengePose() && props == AtomicProps() && jointModes == InitialJointModes()
      ensures history == [] && redoStack == [] && recordingHistory == [] && keyframes == []
      ensures selectedLogIndex == None && draggingBoneKey == None && pinnedJointKey == Joint.Waist
      ensures !isCalibrated && !isCalibrating && !isPlayingTimelapse && !isConsoleVisible
    {
      pivotOffsets := InitialChallengePose();
      props := AtomicProps();
      jointModes := InitialJointModes();
      history := [];
      redoStack := [];
      recordingHistory := [];
      keyframes := [];
      selectedLogIndex := None;
      isCalibrated := false;
      isCalibrating := false;
      isPlayingTimelapse := false;
      isConsoleVisible := false;
      draggingBoneKey := None;
      dragStartX := 0.0;
      dragStartPivotOffset := 0.0;
      pinnedJointKey := Joint.Waist;
      calibration := None;
      playback := None;
    }

    // -------------------------------------------------------------------
    // The log and the undo stack.

    /**
      addLog: the message goes last in a log of at most 100 entries.  The
      selected position is not touched, so on a full log it afterwards names
      the entry that followed the selected one (History.SelectionShiftsAsWritten).
    */
    method AddLog(text: string, now: int)
      requires Valid()
      modifies this`recordingHistory
      ensures Valid()
      ensures recordingHistory == AppendLog(old(recordingHistory), Message(text, now))
    {
      LogStoredAppend(recordingHistory, Message(text, now));
      recordingHistory := AppendLog(recordingHistory, Message(text, now));
    }

    /** recordSnapshot: a captioned copy of the captured pose goes last in the log, with no cap. */
    method RecordSnapshot(captured: PoseState, caption: string, now: int)
      requires Valid() && Complete(captured)
      modifies this`recordingHistory
      ensures Valid()
      ensures recordingHistory == old(recordingHistory) + [Entry(Some(captured), now, Some(caption))]
    {
      recordingHistory := recordingHistory + [Entry(Some(captured), now, Some(caption))];
    }

    /** saveToHistory: the pose on screen is pushed on the undo stack, capped at 50, and the redo stack is emptied. */
    method SaveToHistory(now: int)
      requires Valid()
      modifies this`history, this`redoStack
      ensures Valid()
      ensures history == Commit(old(history), Entry(Some(State()), now, None))
      ensures redoStack == []
    {
      var e := Entry(Some(State()), now, None);
      StoredCommit(history, e);
      history := Commit(history, e);
      redoStack := [];
    }

    /** undo: nothing without an undo entry or while the playback runs; otherwise History.Undo, then a log line. */
    method Undo(now: int)
      requires Valid()
      modifies this`history, this`redoStack, this`pivotOffsets, this`props, this`recordingHistory
      ensures Valid()
      ensures old(history) == [] || old(isPlayingTimelapse) ==> unchanged(this)
      ensures old(history) != [] && !old(isPlayingTimelapse) ==>
        var t := History.Undo(Timeline(old(history), old(redoStack), old(State())), now);
        && history == t.history && redoStack == t.redo && State() == t.current
        && recordingHistory == AppendLog(old(recordingHistory), Message("UNDO: System state reverted.", now))
    {
      if history == [] || isPlayingTimelapse {
        return;
      }
      var t := History.Undo(Timeline(history, redoStack, State()), now);
      TimelineStored(Timeline(history, redoStack, State()), now);
      history, redoStack := t.history, t.redo;
      pivotOffsets, props := t.current.offsets, t.current.props;
      AddLog("UNDO: System state reverted.", now);
    }

    /** redo: nothing without a redo entry or while the playback runs; otherwise History.Redo, then a log line. */
    method Redo(now: int)
      requires Valid()
      modifies this`history, this`redoStack, this`pivotOffsets, this`props, this`recordingHistory
      ensures Valid()
      ensures old(redoStack) == [] || old(isPlayingTimelapse) ==> unchanged(this)
      ensures old(redoStack) != [] && !old(isPlayingTimelapse) ==>
        var t := History.Redo(Timeline(old(history), old(redoStack), old(State())), now);
        && history == t.history && redoStack == t.redo && State() == t.current
        && recordingHistory == AppendLog(old(recordingHistory), Message("REDO: System state reapplied.", now))
    {
      if redoStack == [] || isPlayingTimelapse {
        return;
      }
      var t := History.Redo(Timeline(history, redoStack, State()), now);
      TimelineStored(Timeline(history, redoStack, State()), now);
      history, redoStack := t.history, t.redo;
      pivotOffsets, props := t.current.offsets, t.current.props;
      AddLog("REDO: System state reapplied.", now);
    }

    /** handleLogClick: the entry is selected; one that carries a pose also becomes the last keyframe, with a log line. */
    method HandleLogClick(index: nat, now: int)
      requires Valid() && index < |recordingHistory|
      modifies this`selectedLogIndex, this`keyframes, this`recordingHistory
      ensures Valid()
      ensures selectedLogIndex == Some(index)
      ensures old(recordingHistory)[index].state.None? ==>
        keyframes == old(keyframes) && recordingHistory == old(recordingHistory)
      ensures old(recordingHistory)[index].state.Some? ==>
        var m := Message("KEYFRAME ADDED: Pose from log #" + NatText(index + 1) + ".", now);
        && keyframes == old(keyframes) + [old(recordingHistory)[index]]
        && recordingHistory == AppendLog(old(recordingHistory), m)
    {
      var log := recordingHistory[index];
      selectedLogIndex := Some(index);
      if log.state.Some? {
        keyframes := keyframes + [log];
        AddLog("KEYFRAME ADDED: Pose from log #" + NatText(index + 1) + ".", now);
      }
    }

    /**
      The Delete key with a position selected.  When it names an entry, that
      entry leaves the log, the selection is cleared, and the deletion is
      logged.  When it is past the end of the log, the entry read is
      undefined: the filter removes nothing and the selection is cleared, and
      then reading the entry's label throws (`threw`), so no log line is
      written.
    */
    method DeleteSelectedLog(now: int, timeText: int -> string) returns (threw: bool)
      requires Valid()
      modifies this`recordingHistory, this`selectedLogIndex
      ensures Valid()
      ensures threw <==> old(selectedLogIndex).Some? && old(selectedLogIndex).value >= |old(recordingHistory)|
      ensures old(selectedLogIndex).None? ==> unchanged(this)
      ensures old(selectedLogIndex).Some? && old(selectedLogIndex).value < |old(recordingHistory)| ==>
        var deleted := old(recordingHistory)[old(selectedLogIndex).value];
        var rest := Without(old(recordingHistory), old(selectedLogIndex).value);
        && recordingHistory == AppendLog(rest, Message("LOG DELETED: \"" + EntryName(deleted, timeText) + "\" removed.", now))
        && selectedLogIndex == None
      ensures threw ==> recordingHistory == old(recordingHistory) && selectedLogIndex == None
    {
      threw := false;
      if selectedLogIndex.None? {
        return;
      }
      var i := selectedLogIndex.value;
      if i >= |recordingHistory| {
        selectedLogIndex := None;
        threw := true;
        return;
      }
      var deleted := recordingHistory[i];
      recordingHistory := Without(recordingHistory, i);
      selectedLogIndex := None;
      AddLog("LOG DELETED: \"" + EntryName(deleted, timeText) + "\" removed.", now);
    }

    // -------------------------------------------------------------------
    // Posing.

    /** handlePivotChange: the joint takes the new value and the change spreads through the tree by the joint modes. */
    method HandlePivotChange(key: Joint, newValue: real)
      requires Valid()
      modifies this`pivotOffsets
      ensures Valid()
      ensures pivotOffsets == PivotChange(KinematicTree(), old(pivotOffsets), jointModes, key, newValue)
    {
      var newOffsets := PivotUpdate(KinematicTree(), pivotOffsets, jointModes, key, newValue);
      pivotOffsets := newOffsets;
    }

    /** handleModeChange. */
    method HandleModeChange(key: Joint, mode: Mode)
      requires Valid()
      modifies this`jointModes
      ensures Valid()
      ensures jointModes == old(jointModes)[key := ToggleMode(old(jointModes)[key], mode)]
    {
      jointModes := jointModes[key := ToggleMode(jointModes[key], mode)];
    }

    /** handleSetPin: the figure now pivots on k, and the log says so with the key's underscores as spaces. */
    method SetPin(k: Joint, now: int)
      requires Valid()
      modifies this`pinnedJointKey, this`recordingHistory
      ensures Valid()
      ensures pinnedJointKey == k
      ensures recordingHistory == AppendLog(old(recordingHistory), PinMessage(k, now))
    {
      pinnedJointKey := k;
      AddLog(PinMessage(k, now).caption.value, now);
    }

    /**
      Mouse-down on a joint: ignored before calibration or during the
      playback; with shift it pins the figure on that joint; otherwise the
      pose is saved and recorded and the drag starts from the pointer's x
      and the joint's offset.
    */
    method DragStart(k: Joint, x: real, shift: bool, now: int)
      requires Valid()
      modifies this`pinnedJointKey, this`recordingHistory, this`history, this`redoStack,
               this`draggingBoneKey, this`dragStartX, this`dragStartPivotOffset
      ensures Valid()
      ensures !old(isCalibrated) || old(isPlayingTimelapse) ==> unchanged(this)
      ensures old(isCalibrated) && !old(isPlayingTimelapse) && shift ==>
        && pinnedJointKey == k && draggingBoneKey == old(draggingBoneKey)
        && dragStartX == old(dragStartX) && dragStartPivotOffset == old(dragStartPivotOffset)
        && history == old(history) && redoStack == old(redoStack)
        && recordingHistory == AppendLog(old(recordingHistory), PinMessage(k, now))
      ensures old(isCalibrated) && !old(isPlayingTimelapse) && !shift ==>
        && pinnedJointKey == old(pinnedJointKey)
        && history == Commit(old(history), Entry(Some(State()), now, None)) && redoStack == []
        && recordingHistory == old(recordingHistory) + [Entry(Some(State()), now, Some("START_DRAG_" + JointName(k)))]
       
        && draggingBoneKey == Some(k) && dragStartX == x && dragStartPivotOffset == pivotOffsets[k]
    {
      if !isCalibrated || isPlayingTimelapse {
        return;
      }
      if shift {
        SetPin(k, now);
      } else {
        BeginDrag(k, x, now);
      }
    }

    /** The unshifted mouse-down: save, record the start of the drag, and remember where it started. */
    method BeginDrag(k: Joint, x: real, now: int)
      requires Valid()
      modifies this`recordingHistory, this`history, this`redoStack, this`draggingBoneKey, this`dragStartX, this`dragStartPivotOffset
      ensures Valid()
      ensures history == Commit(old(history), Entry(Some(State()), now, None)) && redoStack == []
      ensures recordingHistory == old(recordingHistory) + [Entry(Some(State()), now, Some("START_DRAG_" + JointName(k)))]
      ensures draggingBoneKey == Some(k) && dragStartX == x && dragStartPivotOffset == pivotOffsets[k]
    {
      SaveToHistory(now);
      RecordSnapshot(State(), "START_DRAG_" + JointName(k), now);
      RememberDragStart(k, x);
    }

    /** The drag's starting point: the dragged joint, the pointer's x and the joint's offset. */
    method RememberDragStart(k: Joint, x: real)
      requires Valid()
      modifies this`draggingBoneKey, this`dragStartX, this`dragStartPivotOffset
      ensures Valid()
      ensures draggingBoneKey == Some(k) && dragStartX == x && dragStartPivotOffset == pivotOffsets[k]
    {
      draggingBoneKey, dragStartX, dragStartPivotOffset := Some(k), x, pivotOffsets[k];
    }

    /** Mouse-move while dragging (and not playing back): the dragged joint is set to the drag value, through handlePivotChange. */
    method Drag(clientX: real)
      requires Valid()
      modifies this`pivotOffsets
      ensures Valid()
      ensures draggingBoneKey.None? || isPlayingTimelapse ==> pivotOffsets == old(pivotOffsets)
      ensures draggingBoneKey.Some? && !isPlayingTimelapse ==>
        var v := DragValue(dragStartPivotOffset, dragStartX, clientX);
        && pivotOffsets == PivotChange(KinematicTree(), old(pivotOffsets), jointModes, draggingBoneKey.value, v)
        && pivotOffsets[draggingBoneKey.value] == v
    {
      if draggingBoneKey.Some? && !isPlayingTimelapse {
        var v := DragValue(dragStartPivotOffset, dragStartX, clientX);
        PivotChangeAt(KinematicTree(), pivotOffsets, jointModes, draggingBoneKey.value, v, draggingBoneKey.value);
        HandlePivotChange(draggingBoneKey.value, v);
      }
    }

    /** Mouse-up ending a drag: the pose reached is recorded and the drag ends. */
    method DragEnd(now: int)
      requires Valid()
      modifies this`recordingHistory, this`draggingBoneKey
      ensures Valid()
      ensures old(draggingBoneKey).None? ==> unchanged(this)
      ensures old(draggingBoneKey).Some? ==>
        && recordingHistory == old(recordingHistory) + [Entry(Some(State()), now, Some("END_DRAG_" + JointName(old(draggingBoneKey).value)))]
        && draggingBoneKey == None
    {
      if draggingBoneKey.None? {
        return;
      }
      RecordSnapshot(State(), "END_DRAG_" + JointName(draggingBoneKey.value), now);
      draggingBoneKey := None;
    }

    /** updateProp: one factor of one part, unless the playback runs. */
    method UpdateProp(key: Part, axis: Kinematics.Axis, v: real)
      requires Valid()
      modifies this`props
      ensures Valid()
      ensures isPlayingTimelapse ==> props == old(props)
      ensures !isPlayingTimelapse ==> props == old(props)[key := WithAxis(old(props)[key], axis, v)]
    {
      if isPlayingTimelapse {
        return;
      }
      props := props[key := WithAxis(props[key], axis, v)];
    }

    /** resetProps: unless the playback runs, save, reset every part to unit proportions, record and log. */
    method ResetProps(now: int)
      requires Valid()
      modifies this`history, this`redoStack, this`props, this`recordingHistory
      ensures Valid()
      ensures old(isPlayingTimelapse) ==> unchanged(this)
      ensures !old(isPlayingTimelapse) ==>
        && history == Commit(old(history), Entry(Some(old(State())), now, None)) && redoStack == []
        && props == AtomicProps()
        && recordingHistory == AppendLog(old(recordingHistory) + [Entry(Some(old(State())), now, Some("PROPS_RESET"))],
                                         Message("COMMAND: Anatomical proportions reset.", now))
    {
      if isPlayingTimelapse {
        return;
      }
      var seen := State();
      SaveToHistory(now);
      props := AtomicProps();
      RecordSnapshot(seen, "PROPS_RESET", now);
      AddLog("COMMAND: Anatomical proportions reset.", now);
    }

    /** setFixedPose: unless the playback runs, save, apply the pose, record and log under the pose's name. */
    method SetFixedPose(p: map<Joint, real>, name: string, now: int)
      requires Valid() && TotalOffsets(p)
      modifies this`history, this`redoStack, this`pivotOffsets, this`recordingHistory
      ensures Valid()
      ensures old(isPlayingTimelapse) ==> unchanged(this)
      ensures !old(isPlayingTimelapse) ==>
        && history == Commit(old(history), Entry(Some(old(State())), now, None)) && redoStack == []
        && pivotOffsets == p
        && recordingHistory == AppendLog(old(recordingHistory) + [Entry(Some(old(State())), now, Some("SET_POSE_" + Upper(name)))],
                                         Message("COMMAND: Applied " + name + " state.", now))
    {
      if isPlayingTimelapse {
        return;
      }
      var seen := State();
      SaveToHistory(now);
      pivotOffsets := p;
      RecordSnapshot(seen, "SET_POSE_" + Upper(name), now);
      AddLog("COMMAND: Applied " + name + " state.", now);
    }

    // -------------------------------------------------------------------
    // Calibration.

    /** startCalibration: once only, and not during the playback; saves, records, logs and starts the 250 ms transition. */
    method StartCalibration(time: real, now: int)
      requires Valid()
      modifies this`history, this`redoStack, this`recordingHistory, this`isCalibrating, this`calibration
      ensures Valid()
      ensures old(isCalibrated) || old(isCalibrating) || old(isPlayingTimelapse) ==> unchanged(this)
      ensures !old(isCalibrated) && !old(isCalibrating) && !old(isPlayingTimelapse) ==>
        && history == Commit(old(history), Entry(Some(State()), now, None)) && redoStack == []
        && recordingHistory == AppendLog(old(recordingHistory) + [Entry(Some(State()), now, Some("CALIBRATION_START"))],
                                         Message("SEQUENCE: CALIBRATION START...", now))
        && isCalibrating
        && calibration == Some(CalibrationRun(time, pivotOffsets, State()))
    {
      if isCalibrated || isCalibrating || isPlayingTimelapse {
        return;
      }
      SaveToHistory(now);
      RecordSnapshot(State(), "CALIBRATION_START", now);
      isCalibrating := true;
      calibration := Some(CalibrationRun(time, pivotOffsets, State()));
      AddLog("SEQUENCE: CALIBRATION START...", now);
    }

    /**
      One calibration frame at `time`: every joint eased from its start angle
      toward the T-pose; once 250 ms have passed the figure is in the T-pose,
      the app is calibrated for good, the console opens, and the end is
      recorded (with the pose captured at the start) and logged.
    */
    method CalibrationFrame(time: real, wave: real -> real, now: int)
      requires Valid() && isCalibrating && time >= calibration.value.startTime
      modifies this`pivotOffsets, this`isCalibrating, this`isCalibrated, this`isConsoleVisible,
               this`recordingHistory, this`calibration
      ensures Valid()
      ensures var run := old(calibration).value;
        pivotOffsets == CalibrationPose(run.startPose, SnapOutEase(CalibrationProgress(run.Elapsed(time)), wave))
      ensures old(calibration).value.Elapsed(time) < CalibrationDuration ==>
        && isCalibrating && calibration == old(calibration)
        && isCalibrated == old(isCalibrated) && isConsoleVisible == old(isConsoleVisible)
        && recordingHistory == old(recordingHistory)
      ensures old(calibration).value.Elapsed(time) >= CalibrationDuration ==>
        && pivotOffsets == TPose()
        && !isCalibrating && isCalibrated && isConsoleVisible && calibration == None
        && recordingHistory == AppendLog(old(recordingHistory) + [Entry(Some(old(calibration).value.snapshot), now, Some("CALIBRATION_END"))],
                                         Message("SEQUENCE: SYSTEM ALIGNED.", now))
    {
      var run := calibration.value;
      var nextPose, finished := CalibrationPoseAt(run.startPose, run.Elapsed(time), wave);
      if finished {
        FinishCalibration(now);
      }
      pivotOffsets := nextPose;
    }

    /** The state setters of an animation frame: the pose on screen becomes the frame's. */
    method ShowPose(next: PoseState)
      requires Valid() && Complete(next)
      modifies this`pivotOffsets, this`props
      ensures Valid()
      ensures State() == next
    {
      pivotOffsets := next.offsets;
      props := next.props;
    }

    /** The calibration's last frame: calibrated for good, console open, the end recorded with the pose captured at the start, and logged. */
    method FinishCalibration(now: int)
      requires Valid() && isCalibrating
      modifies this`isCalibrating, this`isCalibrated, this`isConsoleVisible, this`recordingHistory, this`calibration
      ensures Valid()
      ensures !isCalibrating && isCalibrated && isConsoleVisible && calibration == None
      ensures recordingHistory == AppendLog(old(recordingHistory) + [Entry(Some(old(calibration).value.snapshot), now, Some("CALIBRATION_END"))],
                                            Message("SEQUENCE: SYSTEM ALIGNED.", now))
    {
      var snapshot := calibration.value.snapshot;
      isCalibrating := false;
      isCalibrated := true;
      isConsoleVisible := true;
      calibration := None;
      RecordSnapshot(snapshot, "CALIBRATION_END", now);
      AddLog("SEQUENCE: SYSTEM ALIGNED.", now);
    }

    // -------------------------------------------------------------------
    // Keyframe playback.

    /** playTimelapse: with two keyframes or more and none running, starts the playback of the keyframes as they are now. */
    method PlayTimelapse(time: real, now: int)
      requires Valid()
      modifies this`isPlayingTimelapse, this`playback, this`recordingHistory
      ensures Valid()
      ensures |old(keyframes)| < 2 || old(isPlayingTimelapse) ==> unchanged(this)
      ensures |old(keyframes)| >= 2 && !old(isPlayingTimelapse) ==>
        && isPlayingTimelapse
        && playback == Some(PlaybackRun(time, KeyStates(keyframes)))
        && recordingHistory == AppendLog(old(recordingHistory),
                                         Message("SEQUENCE: RECREATION OF " + NatText(|keyframes|) + " KEYFRAMES.", now))
    {
      if |keyframes| < 2 || isPlayingTimelapse {
        return;
      }
      isPlayingTimelapse := true;
      playback := Some(PlaybackRun(time, KeyStates(keyframes)));
      AddLog("SEQUENCE: RECREATION OF " + NatText(|keyframes|) + " KEYFRAMES.", now);
    }

    /**
      One playback frame at `time`: the interpolated pose; when the playback
      is over it stops and says so.  A frame time before the start gives a
      negative step index, and reading that keyframe throws (`threw`) before
      any state is set and before the next frame is requested, so the
      playback flag stays set.
    */
    method PlaybackTick(time: real, now: int) returns (threw: bool)
      requires Valid() && isPlayingTimelapse
      modifies this`pivotOffsets, this`props, this`isPlayingTimelapse, this`playback, this`recordingHistory
      ensures Valid()
      ensures threw <==> time < old(playback).value.startTime
      ensures threw ==> unchanged(this) && isPlayingTimelapse
      ensures !threw ==> var run := old(playback).value; State() == PlaybackFrame(run.keys, run.Elapsed(time))
      ensures old(playback).value.Elapsed(time) < PlaybackDuration(|old(playback).value.keys|) ==>
        && isPlayingTimelapse && playback == old(playback)
        && recordingHistory == old(recordingHistory)
      ensures old(playback).value.Elapsed(time) >= PlaybackDuration(|old(playback).value.keys|) ==>
        && !isPlayingTimelapse && playback == None
        && recordingHistory == AppendLog(old(recordingHistory), Message("SEQUENCE: KEYFRAME PLAYBACK COMPLETE.", now))
    {
      var run := playback.value;
      threw := time < run.startTime;
      if threw {
        return;
      }
      var next, finished := PlaybackPose(run.keys, run.Elapsed(time));
      if finished {
        FinishPlayback(now);
      }
      ShowPose(next);
    }

    /** The playback's last frame: it stops and says so. */
    method FinishPlayback(now: int)
      requires Valid() && isPlayingTimelapse
      modifies this`isPlayingTimelapse, this`playback, this`recordingHistory
      ensures Valid()
      ensures !isPlayingTimelapse && playback == None
      ensures recordingHistory == AppendLog(old(recordingHistory), Message("SEQUENCE: KEYFRAME PLAYBACK COMPLETE.", now))
    {
      isPlayingTimelapse := false;
      playback := None;
      AddLog("SEQUENCE: KEYFRAME PLAYBACK COMPLETE.", now);
    }
  }
}
