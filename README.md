# Bitruvian Posing Puppet: the posing, history and playback engine in Dafny

This project models the core of the Bitruvian posing puppet. The puppet is an
articulated figure that is posed by dragging its joints, scaled per body part,
and whose poses are recorded, undone and replayed. The model covers:

- **Skeleton** (`skeleton.dfy`, `hierarchy.dfy`): the 18 joints and the 18
  body parts, the joint modes `fk`, `bend` and `stretch`, the constant poses
  (`T_POSE`, `INITIAL_CHALLENGE_POSE`, `DEFAULT_POSE`, `ATOMIC_PROPS`), and
  `KINEMATIC_TREE` as a parent/children table together with its subtree
  relation.
- **Joint-influence propagation** (`propagation.dfy`, `frames.dfy`):
  `handlePivotChange` and its recursive `applyRecursiveEffect`. It is written
  twice:
  - a recursive method that updates a working copy child by child, as the
    source does;
  - an independent closed form that reads off what reaches a joint along its
    parent chain.

  The two are proved equal. The listed properties are then proved from the
  closed form: a zero delta changes nothing, `fk` stops the push, bend and
  stretch pass the delta on, and nothing outside the subtree moves.
- **Forward kinematics** (`kinematics.dfy`, `posing.dfy`):
  - `globalTransforms` of `components/Mannequin.tsx`: the trunk, arm and leg
    chains, `getScaledDimension`, `getRot` and `addVec`, with `rotateVec` as
    a parameter.
  - A reference definition that reads every transform off the kinematic tree.
    The chains are proved to agree with it.
  - From that agreement: a part depends only on the offsets at and above its
    driving joint, the legs ignore the upper body, and the hips sit at the
    waist.
  - A dragged part turns in place by exactly the drag.
- **History** (`history.dfy`): the undo stack capped at 50, the redo stack,
  undo/redo and their inverse laws, and the event log capped at 100 by
  `addLog`.
- **Animation** (`animation.dfy`, `frames.dfy`): the calibration easing into
  the T-pose and the keyframe playback arithmetic (step index, fraction,
  interpolation). Both are proved to hit their keyframes exactly.
- **The pose string** (`text.dfy`, `pose_text.dfy`): `poseString`, with a
  parser for its `POSE[...]` section proved to read back every joint's rounded
  angle.
- **The App component** (`studio.dfy`): a class whose fields are the
  component's state. Each method is one handler or animation frame, with its
  guards, the order of its state updates and its log lines.

Clocks are parameters. `Date.now()` is `now`, and the animation frame time is
`time`. Angles and lengths are unbounded reals.

In these cases the code does something other than what the handler's name and
log line suggest, and the model follows the code:

- `resetProps` and `setFixedPose` call `recordSnapshot` after their own setter.
  That `recordSnapshot` still sees the pose from before the update. So the
  `PROPS_RESET` and `SET_POSE_*` entries hold the old pose.
- The `CALIBRATION_END` snapshot holds the pose captured when the calibration
  started, not the T-pose.
- The log is capped at 100 only by `addLog`. `recordSnapshot` appends without
  a cap, so the log can grow past 100 between messages.
- `addLog` never moves `selectedLogIndex`. When it drops the oldest entry the
  selection names the next one, and on a log grown past 100 by snapshots it can
  fall past the end, where the Delete key throws (`Studio.Studio.DeleteSelectedLog`
  reports that as `threw`). The corrected selection is under "## Findings".
- `redo` pushes onto the undo stack without slicing. The stack still never
  exceeds 50, because undo and redo only move entries between the two stacks
  (`Studio.Studio.Undo`, `Studio.Studio.Redo` keep `|history| + |redoStack| <= 50`).

## Model

| member | source | states |
|---|---|---|
| Skeleton.KeysComplete | App.tsx:45-51 | every joint appears in JOINT_KEYS and every part in PROP_KEYS |
| Skeleton.CanonicalOrdersDistinct | App.tsx:79-85 | JOINT_KEYS and PROP_KEYS each list 18 distinct keys |
| Skeleton.Children | App.tsx:57-76 | every child listed under a joint in KINEMATIC_TREE has that joint as its parent |
| Skeleton.Parent | App.tsx:57-76 | the waist is the only joint with no parent; a parent is exactly one level shallower than its child, so the tree is acyclic |
| Skeleton.ParentIsInverseOfChildren | App.tsx:57-76 | a joint is listed as a child of p exactly when p is its parent, and no children list repeats a joint |
| Skeleton.PartDriverBijection | App.tsx:89-95 | PIVOT_TO_PART_MAP pairs each joint with exactly one part and back |
| Skeleton.PartOf | App.tsx:89-95 | PIVOT_TO_PART_MAP: the part each joint drives |
| Skeleton.DriverOf | App.tsx:89-95 | the inverse of PIVOT_TO_PART_MAP: the joint that drives each part |
| Skeleton.JointName | App.tsx:45-51 | each joint's key string as listed in JOINT_KEYS |
| Skeleton.PartName | App.tsx:79-85 | each part's key string as listed in PROP_KEYS |
| Skeleton.Get | components/Mannequin.tsx:73 | a missing key reads as 0, a present key as its value |
| Skeleton.TPose | App.tsx:8-17 | T_POSE gives every joint the offset 0 |
| Skeleton.InitialChallengePose | App.tsx:19-25 | the starting pose gives every joint its listed angle and is total |
| Skeleton.DefaultPose | App.tsx:27-36 | the default pose is -75 at the left shoulder, 75 at the right, 0 elsewhere |
| Skeleton.AtomicProps | App.tsx:87 | ATOMIC_PROPS gives every part width 1 and height 1 |
| Skeleton.InitialJointModes | App.tsx:53-55 | every joint starts in fk mode |
| Hierarchy.KinematicTree | App.tsx:57-76 | KINEMATIC_TREE is a well-formed tree of height 5 whose parent and children tables are Parent and Children |
| Hierarchy.SubtreeDepth | App.tsx:57-76 | every joint of a subtree is at least as deep as its root, and only the root is as deep; this is why the traversal terminates |
| Hierarchy.SiblingSubtreesDisjoint | App.tsx:57-76 | the subtrees of two different children of one joint share no joint |
| Propagation.ApplyRecursiveEffect | App.tsx:429-449 | the recursive walk, updating the working copy child by child, computes Apply |
| Propagation.ChildDelta | App.tsx:436-441 | the delta a bend joint passes to its children is +delta, a stretch joint's -delta, and an fk joint passes none |
| Propagation.Apply | App.tsx:429-449 | applyRecursiveEffect as a function: an fk joint stops the push, otherwise the children are pushed with the delta passed through the joint's mode; no key is lost |
| Propagation.ApplyKids | App.tsx:436-447 | the children.forEach loop over a prefix of the children, each child adjusted and then pushed on; no key is lost |
| Propagation.PivotChange | App.tsx:419-452 | handlePivotChange's updater: a zero delta returns the offsets as they are, otherwise the target takes newValue and the push starts there; no key is lost |
| Propagation.ApplyAt | App.tsx:429-449 | the walk adds to every joint exactly the closed-form shift that reaches it along its parent chain |
| Propagation.PivotChangeAt | App.tsx:419-452 | after the handler the target holds exactly newValue and every other joint holds its old value plus its closed-form shift |
| Propagation.ZeroDeltaIsNoOp | App.tsx:422-425 | setting a joint to its current value returns the offsets unchanged |
| Propagation.FkTargetChangesAlone | App.tsx:430-431 | when the target is in fk mode no other joint changes |
| Propagation.DirectChildShift | App.tsx:436-442 | a direct child of a bend target gains +delta, of a stretch target -delta |
| Propagation.ChildFollowsParent | App.tsx:436-446 | below the target, each joint gains what its parent gained passed through the parent's mode, and nothing under a parent in fk mode |
| Propagation.FkJointShieldsDescendants | App.tsx:430-446 | a joint in fk mode inside the pushed subtree is itself adjusted, but nothing strictly below it changes |
| Propagation.OutsideSubtreeUnchanged | App.tsx:429-449 | joints outside the target's subtree never change |
| Propagation.ArriveThroughChild | App.tsx:443-446 | inside a child's subtree, the push from the parent equals the push the child starts with its own delta |
| Frames.PivotUpdate | App.tsx:420-451 | the updater passed to setPivotOffsets computes PivotChange |
| Frames.CalibrationPoseAt | App.tsx:391-399 | a calibration frame is the eased pose; it is finished exactly when 250 ms have passed, and then it is T_POSE |
| Frames.CalibrationFrameOffsets | App.tsx:394-397 | the JOINT_KEYS loop moves each joint from its start angle toward T_POSE by the eased progress |
| Frames.PlaybackPose | App.tsx:550-571 | a playback frame is PlaybackFrame; it is finished exactly when the elapsed time reaches (N-1)*250 ms |
| Frames.LerpFrameOffsets | App.tsx:558-561 | the JOINT_KEYS loop interpolates every joint between two keyframes |
| Frames.LerpFrameProps | App.tsx:562-568 | the PROP_KEYS loop interpolates every part's width and height between two keyframes |
| Animation.SnapOutEase | App.tsx:98-101 | the easing is 0 at 0 and 1 at 1 |
| Animation.Lerp | App.tsx:396 | interpolation gives a at 0 and b at 1, and stays between a and b for fractions in [0, 1] |
| Animation.Min | App.tsx:392 | Math.min of two numbers, as used for the calibration progress, the playback progress and the step index |
| Animation.CalibrationProgress | App.tsx:392 | progress is elapsed/250 capped at 1; it reaches 1 exactly when 250 ms have passed |
| Animation.CalibrationPose | App.tsx:394-397 | one calibration frame: every joint moved from its start angle toward T_POSE by the eased progress, and every joint present |
| Animation.CalibrationScalesStart | App.tsx:394-397 | since T_POSE is all zeros, each calibration frame is the start angle times (1 - eased) |
| Animation.CalibrationStartsAtStart | App.tsx:391-397 | the frame at 0 ms shows the start pose |
| Animation.CalibrationEndsInTPose | App.tsx:391-399 | from 250 ms on the frame is T_POSE, whatever the start pose |
| Animation.PlaybackPosition | App.tsx:551-553 | exactIndex lies in [0, N-1] and equals N-1 exactly when playback is over |
| Animation.PlaybackDuration | App.tsx:546-547 | a playback of N keyframes lasts (N-1) steps of 250 ms |
| Animation.PlaybackPositionAsWritten | App.tsx:547-553 | the source's progressTotal*totalSteps equals the elapsed time in steps, capped, and progressTotal < 1 exactly before the end |
| Animation.PlaybackStep | App.tsx:551-555 | the segment index stays in [0, N-2], the fraction in [0, 1], and the playback is finished exactly at (N-1)*250 ms |
| Animation.PlaybackReachesKeyframe | App.tsx:551-555 | at k*250 ms the step is k with fraction 0, or the last step with fraction 1 for the last keyframe |
| Animation.LerpEndpoints | App.tsx:558-568 | interpolating a whole pose at 0 gives the first keyframe and at 1 the second |
| Animation.FrameOfStep | App.tsx:554-568 | a frame is the interpolation between the two keyframes around its step |
| Animation.LerpOffsets | App.tsx:559-561 | every joint's angle interpolated between two keyframes, every joint present |
| Animation.LerpProps | App.tsx:562-567 | every part's width and height interpolated between two keyframes, every part present |
| Animation.PlaybackFrame | App.tsx:554-568 | one playback frame: the two keyframes around the step interpolated at its fraction, a full record |
| Animation.PlaybackShowsKeyframe | App.tsx:549-568 | at k*250 ms the playback shows keyframe k exactly: K0 at 0, K1 at 250 ms, K(N-1) at the end |
| Animation.PlaybackEndsOnLastKeyframe | App.tsx:571-575 | from the end of the playback on, the frame is the last keyframe |
| History.Tail | App.tsx:172 | slice(-n) keeps the last n elements, or all of them when there are fewer |
| History.Commit | App.tsx:224 | `[...prev.slice(-49), currentState]`: at most 50 entries, the new one last |
| History.AppendLog | App.tsx:172 | `[...prev.slice(-99), logEntry]`: at most 100 entries, the message last |
| History.CommitKeepsNewest | App.tsx:218-226 | saveToHistory's stack holds at most 50 entries, ends with the new one, and otherwise keeps the newest old entries in order |
| History.CommitBelowCap | App.tsx:224 | below 50 entries nothing is dropped |
| History.CommitAtCap | App.tsx:224 | at 50 entries exactly the oldest is dropped |
| History.CommitAllIsTail | App.tsx:218-226 | any run of saves leaves the newest 50 of old and new entries, so 60 saves keep 50 and drop the oldest 10 |
| History.AppendLogKeepsNewest | App.tsx:167-173 | addLog's log holds at most 100 entries, ends with the message, and otherwise keeps the newest old entries in order |
| History.Message | App.tsx:167-171 | a log message carries no pose, and its label is the text |
| History.Without | App.tsx:365 | deleting entry k keeps every other entry in order |
| History.Undo | App.tsx:322-335 | undo is the identity on an empty undo stack, and it preserves the total size of the two stacks |
| History.Redo | App.tsx:337-350 | redo is the identity on an empty redo stack, and it preserves the total size of the two stacks |
| History.UndoThenRedo | App.tsx:322-350 | undo then redo restores the pose on screen and the redo stack, and the states of the undo stack |
| History.RedoThenUndo | App.tsx:322-350 | redo then undo restores the pose on screen and the undo stack, and the states of the redo stack |
| History.TimelineStored | App.tsx:322-350 | undo and redo keep every stacked entry and the pose on screen a full record |
| History.SelectionShiftsAsWritten | App.tsx:167-173 | with a full log, the unchanged selected index names the entry after the selected one once addLog has run |
| History.SelectionOutOfRangeAsWritten | App.tsx:167-173 | with a log longer than 100, the last index names no entry once addLog has run |
| History.ShiftSelection | App.tsx:167-173 | the corrected selection still names the same entry after addLog, and it is cleared only when that entry is dropped |
| Text.Round | App.tsx:414 | Math.round gives the integer within half of x, with halves rounded up |
| Text.RoundOfInteger | App.tsx:414 | Math.round leaves an integer alone |
| Text.RoundMonotone | App.tsx:414 | Math.round is monotone |
| Text.IntTextRoundTrip | App.tsx:414 | an integer's decimal text parses back to the integer |
| Text.IntTextInjective | App.tsx:414 | distinct integers print differently |
| Text.NatText | App.tsx:356 | a natural number's decimal text: at least one digit, only digits, no leading zero |
| Text.IntText | App.tsx:414 | an integer's decimal text: a minus sign exactly for negatives, then digits |
| Text.Join | App.tsx:414-415 | `.join(';')`: the parts in order with the separator between each two |
| Text.SplitJoin | App.tsx:414 | splitting a join at a separator no part contains gives back the parts |
| Text.Upper | App.tsx:530 | toUpperCase maps lower-case ASCII letters to capitals and keeps every other character |
| Text.UpperIdempotent | App.tsx:530 | upper-cased text has no lower-case letters, and upper-casing it again changes nothing |
| Text.Spaced | App.tsx:486 | replace(/_/g, ' ') turns every underscore into a space and keeps every other character |
| Text.SpacedHasNoUnderscore | App.tsx:486 | the pin message's joint name holds no underscore |
| PoseText.PoseEntries | App.tsx:414 | one `key:rounded angle` entry per joint, in JOINT_KEYS order |
| PoseText.PoseEntry | App.tsx:414 | one joint's `key:Math.round(angle)` entry |
| PoseText.PropEntry | App.tsx:415 | one part's `key:h<height>,w<width>` entry, with toFixed(2) as a parameter |
| PoseText.PoseString | App.tsx:413-417 | the POSE section of `key:rounded angle` joint entries and the PROPS section of part entries, each joined by `;`; the POSE section reads back by PoseStringRoundTrip |
| PoseText.PropEntries | App.tsx:415 | one `key:h..,w..` entry per part, in PROP_KEYS order |
| PoseText.EntryRoundTrip | App.tsx:414 | a `key:angle` entry reads back as its key and angle, and holds neither `]` nor `;` |
| PoseText.PoseStringRoundTrip | App.tsx:413-417 | reading the POSE section of poseString gives every joint's key with its rounded angle, in order, whatever the PROPS section prints |
| PoseText.SamePoseStringSameRoundedAngles | App.tsx:413-417 | two poses with the same pose string agree on every joint's rounded angle |
| Kinematics.ActiveProps | components/Mannequin.tsx:65 | overrideProps, when given, replaces props |
| Kinematics.AddVec | components/Mannequin.tsx:58 | the componentwise sum of two vectors |
| Kinematics.Factor | components/Mannequin.tsx:67-69 | a part's scale is its proportion component, or 1 when the part or the component is missing or zero |
| Kinematics.ScaledDimension | components/Mannequin.tsx:67-69 | getScaledDimension: raw * baseUnitH * the part's factor; a missing part leaves raw * baseUnitH, and the result is zero only when raw * baseUnitH is |
| Kinematics.GetRot | components/Mannequin.tsx:73 | getRot: the base pose angle plus the offset, each missing key read as 0 |
| Kinematics.ShoulderX | components/Mannequin.tsx:91 | the shoulder's sideways offset from the collar centre, the side's rigging offset times baseUnitH |
| Kinematics.BaseTurn | components/Mannequin.tsx:92 | the quarter turn an upper arm adds to the collar's rotation: +90 on the left, -90 on the right |
| Kinematics.UnitScale | components/Mannequin.tsx:67-69 | at unit proportions, as under ATOMIC_PROPS, a scaled dimension is the raw length times the head unit |
| Kinematics.GlobalTransforms | components/Mannequin.tsx:71-123 | globalTransforms has a transform for every part |
| Kinematics.WaistAtOrigin | components/Mannequin.tsx:75-77 | the waist is at the origin, turned by pose.waist + offset.waist, where a missing key counts as 0 |
| Kinematics.Trunk | components/Mannequin.tsx:75-88 | the waist, torso, collar and head transforms, each rotation cumulative, each position the parent's end |
| Kinematics.Arm | components/Mannequin.tsx:90-104 | one side's upper arm, lower arm and hand transforms from the collar's end and the shoulder offset |
| Kinematics.Leg | components/Mannequin.tsx:106-120 | one side's upper leg, lower leg, foot and toe transforms from the waist |
| Kinematics.TrunkChain | components/Mannequin.tsx:79-88 | torso, collar and head rotations add their own local rotation to the parent's, and each position is the parent's plus rotateVec((0, -parentLen), parentRot) |
| Kinematics.ArmChain | components/Mannequin.tsx:90-104 | the upper arm is at the collar end plus rotateVec((sx, 0), collarRot), turned collarRot ±90 plus the shoulder offset; elbow and hand chain cumulatively with rotateVec((0, len), rot) |
| Kinematics.LegChain | components/Mannequin.tsx:106-120 | the hip is at the waist position, turned waistRot plus the hip offset; knee, foot and toe chain cumulatively with rotateVec((0, len), rot) |
| Kinematics.TrunkFrames | components/Mannequin.tsx:75-88 | each trunk transform is the one the kinematic tree implies for its joint |
| Kinematics.ArmFrames | components/Mannequin.tsx:90-104 | each arm transform is the one the kinematic tree implies for its joint |
| Kinematics.LegFrames | components/Mannequin.tsx:106-120 | each leg transform is the one the kinematic tree implies for its joint |
| Kinematics.TransformsFollowTree | components/Mannequin.tsx:71-123 | every part's global transform is the tree's position and absolute rotation for its driving joint |
| Kinematics.RotationDependsOnAncestors | components/Mannequin.tsx:71-123 | a joint's absolute rotation depends only on the offsets at and above it |
| Kinematics.PositionDependsOnAncestors | components/Mannequin.tsx:71-123 | a joint's position depends only on the offsets at and above it |
| Kinematics.PartDependsOnAncestors | components/Mannequin.tsx:71-123 | a part's transform depends only on the offsets of its driving joint and the joints above it |
| Kinematics.LegsIgnoreUpperBody | components/Mannequin.tsx:106-120 | the waist and leg transforms do not change when any torso, collar, neck or arm offset changes |
| Kinematics.HipsAtWaist | components/Mannequin.tsx:107-108 | both upper legs start at the waist's position |
| Posing.PivotChangeMovesOnlyItsSubtree | App.tsx:419-452 | a pivot change moves no part whose driving joint lies outside the changed joint's subtree |
| Posing.DraggedPartTurnsInPlace | App.tsx:419-452 | the part the changed joint drives stays where it is attached and turns by exactly newValue - old value |
| Studio.ToggleMode | App.tsx:534-540 | choosing a joint's current mode again gives fk; choosing another mode gives that mode |
| Studio.DragValue | App.tsx:459-460 | the dragged value is the start offset plus half the pointer's x travel |
| Studio.EntryName | App.tsx:367 | a deleted entry is named by its label, or by "Pose @ time" when the label is missing or empty |
| Studio.WithAxis | App.tsx:515 | updating one axis of a proportion keeps the other |
| Studio.PinMessage | App.tsx:486 | the pin log line carries no pose, is stamped now, and shows the joint's key with no underscore left |
| Studio.KeyStates | App.tsx:556-557 | the keyframes' poses, one per keyframe, in order |
| Studio.Studio.constructor | App.tsx:119-165 | the app mounts with the challenge pose, unit proportions, all joints fk, empty stacks and log, uncalibrated |
| Studio.Studio.AddLog | App.tsx:167-173 | the message goes last in a log of at most 100 entries; the selected position is left as it was, as the source leaves it |
| Studio.Studio.RecordSnapshot | App.tsx:208-216 | a labelled copy of the pose is appended to the log, with no cap |
| Studio.Studio.SaveToHistory | App.tsx:218-226 | the pose on screen is committed to the undo stack and the redo stack is emptied |
| Studio.Studio.Undo | App.tsx:322-335 | nothing changes with an empty undo stack or during playback; otherwise the state follows History.Undo and the undo is logged |
| Studio.Studio.Redo | App.tsx:337-350 | nothing changes with an empty redo stack or during playback; otherwise the state follows History.Redo and the redo is logged |
| Studio.Studio.HandleLogClick | App.tsx:352-358 | the entry's position is selected and stays selected through the log line; an entry with a pose also becomes the last keyframe, and that is logged |
| Studio.Studio.DeleteSelectedLog | App.tsx:362-368 | with a selection naming an entry, that entry leaves the log, the selection is cleared and the deletion is logged; with a selection past the end, the log is unchanged, the selection is cleared and the handler throws before logging; with none, nothing changes |
| Studio.Studio.HandlePivotChange | App.tsx:419-452 | the offsets become PivotChange of the old offsets under the current joint modes |
| Studio.Studio.HandleModeChange | App.tsx:534-540 | only the chosen joint's mode changes, and it toggles by ToggleMode |
| Studio.Studio.SetPin | App.tsx:484-487 | the figure pivots on the joint, and the log names it with spaces for underscores |
| Studio.Studio.DragStart | App.tsx:864-876 | ignored before calibration or during playback; with shift it pins; otherwise it saves, records START_DRAG and starts the drag from the pointer and the joint's offset |
| Studio.Studio.BeginDrag | App.tsx:871-875 | save, record START_DRAG with the current pose, remember the drag start |
| Studio.Studio.RememberDragStart | App.tsx:873-875 | the dragged joint, the pointer's x and the joint's current offset are remembered, and nothing else changes |
| Studio.Studio.Drag | App.tsx:454-464 | while dragging and not playing, the dragged joint is set to the drag value through the propagation, and holds exactly that value |
| Studio.Studio.DragEnd | App.tsx:467-469 | ending a drag records END_DRAG with the pose reached and clears the drag; without a drag nothing changes |
| Studio.Studio.UpdateProp | App.tsx:513-516 | unless playing, exactly one axis of one part changes |
| Studio.Studio.ResetProps | App.tsx:518-524 | unless playing: save, reset every part to unit proportions, record PROPS_RESET with the pose from before, and log |
| Studio.Studio.SetFixedPose | App.tsx:526-532 | unless playing: save, apply the pose, record SET_POSE_<NAME> with the pose from before, and log |
| Studio.Studio.StartCalibration | App.tsx:381-411 | a no-op when calibrated, calibrating or playing; otherwise it saves, records CALIBRATION_START, starts the run and logs |
| Studio.Studio.CalibrationFrame | App.tsx:390-408 | each frame shows the eased pose; at 250 ms it is T_POSE, the app is calibrated for good, the console opens, and the end is recorded and logged |
| Studio.Studio.FinishCalibration | App.tsx:401-407 | the calibrating flag is cleared, the calibrated flag set, CALIBRATION_END recorded with the start pose, and the end logged |
| Studio.Studio.ShowPose | App.tsx:569-570 | the pose on screen becomes the frame's pose |
| Studio.Studio.PlayTimelapse | App.tsx:542-548 | a no-op with fewer than 2 keyframes or while playing; otherwise it starts playback of the current keyframes and logs |
| Studio.Studio.PlaybackTick | App.tsx:549-577 | each frame shows PlaybackFrame; before the end nothing else changes; at the end playback stops and is logged; a frame time before the start throws on `keyframes[-1]` and changes nothing, so the playback flag stays set |
| Studio.Studio.FinishPlayback | App.tsx:573-576 | playback stops and its completion is logged |

## Left out

- The minigame (anomaly spawning, tokens, collision polling with intervals and timeouts): randomness and timers outside the posing engine.
- Image uploads, the clipboard copy, the pose-file and JSON exports, and the keydown listener's wiring: I/O. Undo and redo on Ctrl+Z/Ctrl+Y are the `Undo` and `Redo` methods themselves.
- `requestAnimationFrame`, `performance.now` and `Date.now`: frame times and timestamps are the parameters `time` and `now`. Each frame is one method call.
- `rotateVec`'s cosine and sine: `rotateVec` is a function parameter, so positions are proved for any rotation function.
- `snapOutEase`'s damped sine between 0 and 1: that part is the parameter `wave`, and only the endpoints the source pins are used.
- `toFixed(2)` in the PROPS section of `poseString`: a parameter. Only the POSE section is read back.
- The anatomy constants and rigging offsets (`ANATOMY_RAW_RELATIVE_TO_BASE_HEAD_UNIT`, `RIGGING`): constants.ts is not part of this model. They are the record parameter `Anatomy`.
- The mask, background, root-position and body-rotation transforms, the onion skin, pinned-joint position lookup, labels and pivots display: rendering only.
- components/Bone.tsx and components/SystemLogger.tsx: rendering and list UI.
- The `isInteractingRef` flag: it is set and cleared but nothing in the core reads it.
- Floating point: angles and lengths are exact reals, so rounding errors of JavaScript numbers are not modelled.
- Studio.Studio.CalibrationFrame: requires a frame time no earlier than the calibration's start time. The start is a `performance.now()` read in the click handler and the frame time is the animation frame's own timestamp, which some engines may place earlier. On such a frame the source computes a negative progress and shows the start pose moved by `snapOutEase` of that progress, a harmless overshoot that the next frame replaces. The model does not describe that frame. (The same early frame in the playback throws, and `Studio.Studio.PlaybackTick` models that.)
- Studio.Studio.HandleLogClick: requires an index inside the log, because the log panel only offers on-screen entries.
- Text.Upper: maps ASCII letters only. JavaScript's toUpperCase also capitalises other letters ('é' to 'É') and can change the length ('ß' to 'SS'). Every call of setFixedPose passes an ASCII name ('T-Pose', 'default', 'state', App.tsx:621, 632, 633), and for those the two agree; Studio.Studio.SetFixedPose still accepts any name.
- Studio.Studio.SetFixedPose: requires a pose with every joint, as all of its callers pass T_POSE, DEFAULT_POSE or INITIAL_CHALLENGE_POSE.

## Findings

| source | as written | input that shows it | evidently intended | confidence | as-written member | corrected member |
|---|---|---|---|---|---|---|
| App.tsx:167-173 | addLog drops the oldest entry of a log of 100 or more but leaves `selectedLogIndex` untouched, so the selection no longer names the entry the user picked | a log of 100 entries with entry 5 selected: after any logged action, index 5 names what was entry 6; the log panel highlights that entry (components/SystemLogger.tsx:94) and Delete removes it. A log grown past 100 by snapshots with its last entry selected: the next log line leaves the index past the end, and Delete then reads an undefined entry and throws a TypeError on its `label` (App.tsx:364-367), after the selection is cleared and before anything is logged | the selection follows its entry, or is cleared when that entry is dropped | not executed | History.SelectionShiftsAsWritten | History.ShiftSelection |
