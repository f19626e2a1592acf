/**
 * The wheel of prompts (pages/WheelGame.tsx) as a state machine. The refs of
 * the physics loop and the React state the handlers update are the fields of
 * one `Wheel` object; each handler is a method. Pointer positions enter as the
 * angle `getAngle` computes for them; a scheduled animation frame is the flag
 * `framePending` and its delivery the method `Tick`; a pending
 * `setTimeout(finalizeResult, RESULT_DELAY)` is an entry of `pendingResults`
 * holding the options that `finalizeResult` closes over, and its firing the
 * method `FireResultTimer`.
 */
module WheelGame {
  import opened Types
  import opened Wrappers
  import opened WheelPhysics
  import JsStrings
  import opened Sequences

  /** The source of the slices: three preset quest lists or the user's own entries. */
  datatype GameMode = Fun | Hot | Hard | Custom

  const CustomSlots: nat := 8

  /** A custom entry counts when something is left after `trim()`. */
  predicate HasText(t: string)
  {
    |JsStrings.Trim(t)| > 0
  }

  /** The custom entries `saveCustomMode` keeps, in order. */
  function ValidInputs(inputs: seq<string>): (valid: seq<string>)
    ensures IsSubsequence(valid, inputs)
    ensures forall t :: t in valid <==> t in inputs && HasText(t)
    ensures forall t {:trigger multiset(valid)[t]} :: multiset(valid)[t] == if HasText(t) then multiset(inputs)[t] else 0
  {
    if inputs == [] then []
    else
      var rest := ValidInputs(inputs[1..]);
      assert inputs == [inputs[0]] + inputs[1..];
      if HasText(inputs[0]) then
        assert ([inputs[0]] + rest)[1..] == rest;
        [inputs[0]] + rest
      else rest
  }

  /** Two equal entries count twice: `["x", "x"]` is enough to save a custom wheel. */
  lemma RepeatedEntryCountsTwice(t: string)
    requires HasText(t)
    ensures |ValidInputs([t, t])| == 2
  {
    var valid := ValidInputs([t, t]);
    assert multiset(valid)[t] == 2;
    assert |multiset(valid)| == |valid|;
    assert multiset(valid) == multiset{t, t};
  }

  /** An entry is kept exactly when it holds a character other than white space. */
  lemma KeptIffNotBlank(t: string)
    ensures HasText(t) <==> exists i :: 0 <= i < |t| && !JsStrings.IsJsWhitespace(t[i])
  {
    JsStrings.TrimEmptyIffBlank(t);
  }

  class Wheel {
    // refs of the physics loop
    var rotation: real
    var velocity: real
    var isDragging: bool
    var isSpinning: bool
    var needleAngle: real
    /** The angle of `lastMousePos`. */
    var lastAngle: real
    /** An animation frame is scheduled (`requestRef`). */
    var framePending: bool
    /** The result timeouts not yet fired, oldest first, each with the options its callback sees. */
    var pendingResults: seq<seq<WheelOption>>
    // React state
    var gameState: GameState
    var result: Option<WheelOption>
    var showHint: bool
    var showModeSelect: bool
    var currentMode: GameMode
    var options: seq<WheelOption>
    var customInputs: seq<string>

    /**
     * What every handler keeps: the stored pointer angle is one `getAngle` can
     * return, `isSpinning` mirrors the SPINNING state, and the speed is within
     * half a turn per frame while dragging and within MaxSpeed otherwise.
     */
    ghost predicate Valid()
      reads this
    {
      && IsPointerAngle(lastAngle)
      && (isSpinning <==> gameState == Spinning)
      && Abs(velocity) <= (if isDragging then HalfTurn else MaxSpeed)
    }

    /** The state `resetGame` leaves. */
    ghost predicate IsReset()
      reads this
    {
      result == None && gameState == Idle && velocity == 0.0 && needleAngle == 0.0 && !isSpinning
    }

    /**
     * What the game evidently intends on top of Valid(): the result is shown exactly in
     * the RESULT state, and a drag is in IDLE with no result timer left to
     * fire. handleStart as written does not keep the second part; see
     * StartCancellingResultTimer.
     */
    ghost predicate ResultConsistent()
      reads this
    {
      && (result.Some? <==> gameState == Result)
      && (isDragging ==> pendingResults == [] && gameState == Idle)
    }

    /** The initial render: the declared initial values of the state and the refs. */
    constructor ()
      ensures Valid() && IsReset() && ResultConsistent()
      ensures rotation == 0.0 && !isDragging && !framePending && pendingResults == []
      ensures showHint && !showModeSelect && currentMode == Fun && options == []
      ensures customInputs == seq(CustomSlots, _ => "")
    {
      rotation, velocity, isDragging, isSpinning := 0.0, 0.0, false, false;
      needleAngle, lastAngle, framePending, pendingResults := 0.0, 0.0, false, [];
      gameState, result, showHint, showModeSelect := Idle, None, true, false;
      currentMode, options, customInputs := Fun, [], seq(CustomSlots, _ => "");
    }

    /** `finalizeResult` over the options `opts` it closes over. */
    method FinalizeResult(opts: seq<WheelOption>)
      requires Valid()
      modifies this`isSpinning, this`velocity, this`result, this`gameState
      ensures Valid()
      ensures old(ResultConsistent()) && !isDragging ==> ResultConsistent()
      ensures |opts| == 0 ==> unchanged(this)
      ensures |opts| > 0 ==>
        && !isSpinning && velocity == 0.0 && gameState == Result
        && result == Some(opts[WinningIndex(rotation, |opts|)])
    {
      if |opts| == 0 {
        return;
      }
      var winningIndex := WinningIndex(rotation, |opts|);
      isSpinning := false;
      velocity := 0.0;
      result := Some(opts[winningIndex]);
      gameState := Result;
    }

    /** `handleStart`: grab the wheel, unless a result is shown or the mode dialog is open. */
    method Start(angle: real)
      requires Valid() && IsPointerAngle(angle)
      modifies this`isDragging, this`gameState, this`result, this`showHint, this`isSpinning,
               this`velocity, this`framePending, this`lastAngle
      ensures Valid()
      ensures old(gameState) == Result || old(showModeSelect) ==> unchanged(this)
      ensures old(gameState) != Result && !old(showModeSelect) ==>
        && isDragging && gameState == Idle && result == None && !showHint && !isSpinning
        && velocity == 0.0 && !framePending && lastAngle == angle
    {
      if gameState == Result || showModeSelect {
        return;
      }
      isDragging := true;
      gameState := Idle;
      result := None;
      showHint := false;
      isSpinning := false;
      velocity := 0.0;
      framePending := false;
      lastAngle := angle;
    }

    /**
     * handleStart with the correction it evidently needs: a drag also cancels
     * the result timers still pending, as it cancels the scheduled frame.
     */
    method StartCancellingResultTimer(angle: real)
      requires Valid() && IsPointerAngle(angle)
      modifies this`isDragging, this`gameState, this`result, this`showHint, this`isSpinning,
               this`velocity, this`framePending, this`lastAngle, this`pendingResults
      ensures Valid()
      ensures old(ResultConsistent()) ==> ResultConsistent()
      ensures old(gameState) == Result || old(showModeSelect) ==> unchanged(this)
      ensures old(gameState) != Result && !old(showModeSelect) ==>
        && isDragging && gameState == Idle && result == None && !showHint && !isSpinning
        && velocity == 0.0 && !framePending && lastAngle == angle && pendingResults == []
    {
      if gameState == Result || showModeSelect {
        return;
      }
      Start(angle);
      pendingResults := [];
    }

    /** `handleMove`: turn the wheel by the pointer's delta and take that delta as the velocity. */
    method Move(angle: real)
      requires Valid() && IsPointerAngle(angle)
      modifies this`rotation, this`velocity, this`lastAngle
      ensures Valid()
      ensures old(ResultConsistent()) ==> ResultConsistent()
      ensures !old(isDragging) ==> unchanged(this)
      ensures old(isDragging) ==>
        && velocity == MoveDelta(old(lastAngle), angle)
        && rotation == old(rotation) + velocity
        && lastAngle == angle
        && -HalfTurn <= velocity <= HalfTurn
    {
      if !isDragging {
        return;
      }
      MoveDeltaRange(lastAngle, angle);
      var delta := angle - lastAngle;
      if delta > 180.0 {
        delta := delta - 360.0;
      }
      if delta < -180.0 {
        delta := delta + 360.0;
      }
      rotation := rotation + delta;
      velocity := delta;
      lastAngle := angle;
    }

    /** `handleEnd`: a fast release throws the wheel; a slow one settles the result at once. */
    method Release()
      requires Valid()
      modifies this`isDragging, this`velocity, this`gameState, this`isSpinning, this`framePending,
               this`result
      ensures Valid()
      ensures old(ResultConsistent()) ==> ResultConsistent()
      ensures !old(isDragging) ==> unchanged(this)
      ensures old(isDragging) && Abs(old(velocity)) > ReleaseThreshold ==>
        && !isDragging && velocity == ThrownVelocity(old(velocity))
        && gameState == Spinning && isSpinning && framePending && result == old(result)
      ensures old(isDragging) && Abs(old(velocity)) <= ReleaseThreshold ==>
        && !isDragging && framePending == old(framePending)
        && (|options| == 0 ==>
              velocity == old(velocity) && gameState == old(gameState)
              && isSpinning == old(isSpinning) && result == old(result))
        && (|options| > 0 ==>
              velocity == 0.0 && gameState == Result && !isSpinning
              && result == Some(options[WinningIndex(rotation, |options|)]))
    {
      if !isDragging {
        return;
      }
      isDragging := false;
      if Abs(velocity) > 0.5 {
        velocity := velocity * 2.5;
        if velocity > 100.0 {
          velocity := 100.0;
        }
        if velocity < -100.0 {
          velocity := -100.0;
        }
        gameState := Spinning;
        isSpinning := true;
        framePending := true;
      } else {
        FinalizeResult(options);
      }
    }

    /**
     * One delivery of `animate`. While coasting it adds the velocity to the
     * rotation, applies friction and either stops (velocity exactly 0, result
     * timer started) or schedules the next frame. While dragging, or at rest,
     * it changes nothing and schedules nothing.
     */
    method Tick()
      requires Valid()
      modifies this`rotation, this`velocity, this`framePending, this`pendingResults
      ensures Valid()
      ensures old(ResultConsistent()) ==> ResultConsistent()
      ensures !old(isDragging) && old(velocity) != 0.0 ==>
        && rotation == old(rotation) + old(velocity)
        && velocity == Coasted(old(velocity))
        && framePending == (velocity != 0.0)
        && pendingResults == old(pendingResults) + (if velocity == 0.0 then [options] else [])
      ensures old(isDragging) || old(velocity) == 0.0 ==>
        && rotation == old(rotation) && velocity == old(velocity)
        && !framePending && pendingResults == old(pendingResults)
    {
      if !isDragging && Abs(velocity) > 0.0 {
        rotation := rotation + velocity;
        velocity := velocity * Friction;
        if Abs(velocity) < StopThreshold {
          velocity := 0.0;
          pendingResults := pendingResults + [options];
          framePending := false;
        } else {
          framePending := true;
        }
      } else {
        framePending := false;
      }
    }

    /**
     * Deliver animation frames for as long as the loop keeps rescheduling
     * itself. The stop rule is its only exit, and it is reached within
     * MaxCoastFrames frames.
     */
    method Coast() returns (frames: nat)
      requires Valid() && !isDragging
      modifies this`rotation, this`velocity, this`framePending, this`pendingResults
      ensures old(ResultConsistent()) ==> ResultConsistent()
      ensures Valid() && !framePending
      ensures frames <= MaxCoastFrames
      ensures old(framePending) ==> velocity == 0.0
      ensures velocity == CoastVelocity(old(velocity), frames)
      ensures rotation == old(rotation) + CoastDistance(old(velocity), frames)
      ensures pendingResults == old(pendingResults)
                                + (if old(framePending) && old(velocity) != 0.0 then [options] else [])
    {
      frames := 0;
      ghost var v0 := velocity;
      while framePending
        invariant Valid() && !isDragging
        invariant frames <= MaxCoastFrames
        invariant frames == 0 ==> framePending == old(framePending)
        invariant frames > 0 ==> old(framePending)
        invariant velocity == CoastVelocity(v0, frames)
        invariant rotation == old(rotation) + CoastDistance(v0, frames)
        invariant DecayBounded(velocity, frames)
        invariant frames > 0 ==> (framePending <==> velocity != 0.0)
        invariant pendingResults == old(pendingResults)
                                    + (if frames > 0 && v0 != 0.0 && !framePending then [options] else [])
        decreases MaxCoastFrames - frames
      {
        if frames > 0 {
          DecayBoundLimitsFrames(velocity, frames);
        }
        DecayBoundStep(velocity, frames);
        CoastOneMore(v0, frames);
        Tick();
        frames := frames + 1;
      }
    }

    /** The oldest `setTimeout(finalizeResult, RESULT_DELAY)` fires. */
    method FireResultTimer()
      requires Valid() && |pendingResults| > 0
      modifies this`pendingResults, this`isSpinning, this`velocity, this`result, this`gameState
      ensures Valid()
      ensures old(ResultConsistent()) ==> ResultConsistent()
      ensures pendingResults == old(pendingResults[1..])
      ensures var opts := old(pendingResults[0]);
        && (|opts| == 0 ==> velocity == old(velocity) && gameState == old(gameState)
                             && isSpinning == old(isSpinning) && result == old(result))
        && (|opts| > 0 ==> velocity == 0.0 && gameState == Result && !isSpinning
                            && result == Some(opts[WinningIndex(rotation, |opts|)]))
    {
      var opts := pendingResults[0];
      pendingResults := pendingResults[1..];
      FinalizeResult(opts);
    }

    /** `resetGame`: dismiss the result and stop the wheel where it is; a second reset changes nothing. */
    method Reset()
      requires Valid()
      modifies this`result, this`gameState, this`velocity, this`needleAngle, this`isSpinning
      ensures old(ResultConsistent()) ==> ResultConsistent()
      ensures Valid() && IsReset()
      ensures old(IsReset()) ==> unchanged(this)
    {
      result := None;
      gameState := Idle;
      velocity := 0.0;
      needleAngle := 0.0;
      isSpinning := false;
    }

    /** The settings button and the dialog's close button. */
    method SetModeSelectOpen(open: bool)
      modifies this`showModeSelect
      ensures showModeSelect == open
    {
      showModeSelect := open;
    }

    /**
     * `handleModeSelect`. Custom mode opens the dialog; a preset mode loads its
     * quests through `randomize`, closes the dialog and resets the game. New
     * options make React rebuild `animate`, whose effect cancels the scheduled
     * frame and schedules a new one.
     */
    method SelectMode(mode: GameMode, randomize: seq<string> -> seq<WheelOption>,
                      questsFor: GameMode -> seq<string>)
      requires Valid()
      modifies this`currentMode, this`showModeSelect, this`options, this`framePending,
               this`result, this`gameState, this`velocity, this`needleAngle, this`isSpinning
      ensures Valid()
      ensures old(ResultConsistent()) ==> ResultConsistent()
      ensures currentMode == mode
      ensures mode == Custom ==> showModeSelect && options == old(options) && framePending == old(framePending)
                                 && result == old(result) && gameState == old(gameState)
                                 && velocity == old(velocity) && isSpinning == old(isSpinning)
                                 && needleAngle == old(needleAngle)
      ensures mode != Custom ==> !showModeSelect && options == randomize(questsFor(mode))
                                 && IsReset() && framePending
    {
      currentMode := mode;
      if mode == Custom {
        showModeSelect := true;
        return;
      }
      options := randomize(questsFor(mode));
      showModeSelect := false;
      Reset();
      framePending := true;
    }

    /** The mount effects: load the FUN quests and schedule the first frame. */
    method Mount(randomize: seq<string> -> seq<WheelOption>, questsFor: GameMode -> seq<string>)
      requires Valid()
      modifies this`currentMode, this`showModeSelect, this`options, this`framePending,
               this`result, this`gameState, this`velocity, this`needleAngle, this`isSpinning
      ensures Valid() && IsReset()
      ensures old(ResultConsistent()) ==> ResultConsistent()
      ensures currentMode == Fun && !showModeSelect && options == randomize(questsFor(Fun)) && framePending
    {
      SelectMode(Fun, randomize, questsFor);
    }

    /** `updateCustomInput`: the dialog's field `index` now holds `value`. */
    method UpdateCustomInput(index: nat, value: string)
      requires index < |customInputs|
      modifies this`customInputs
      ensures customInputs == old(customInputs)[index := value]
    {
      customInputs := customInputs[index := value];
    }

    /**
     * `saveCustomMode`: with at least two entries that are not blank, play
     * those entries; otherwise warn (`saved` is false) and change nothing.
     */
    method SaveCustomMode(randomize: seq<string> -> seq<WheelOption>) returns (saved: bool)
      requires Valid()
      modifies this`currentMode, this`showModeSelect, this`options, this`framePending,
               this`result, this`gameState, this`velocity, this`needleAngle, this`isSpinning
      ensures Valid()
      ensures old(ResultConsistent()) ==> ResultConsistent()
      ensures saved <==> |ValidInputs(customInputs)| >= 2
      ensures !saved ==> unchanged(this)
      ensures saved ==> options == randomize(ValidInputs(customInputs)) && currentMode == Custom
                        && !showModeSelect && IsReset() && framePending
    {
      var validInputs := ValidInputs(customInputs);
      if |validInputs| < 2 {
        return false;
      }
      options := randomize(validInputs);
      currentMode := Custom;
      showModeSelect := false;
      Reset();
      framePending := true;
      return true;
    }
  }

  /**
   * handleStart as written leaves the result timer of the previous coast
   * pending: grabbing the wheel within RESULT_DELAY of it stopping lets the
   * timer show a result during the drag, and a throw then spins the wheel
   * with that result still on screen.
   */
  method ResultTimerOutlivesDragStart()
  {
    var slice := WheelOption(1, "drink", "#ffffff", "#000000");
    var w := new Wheel();
    w.Mount(_ => [slice], _ => ["drink"]);
    w.Start(0.0);
    w.Move(10.0);
    w.Release();
    var frames := w.Coast();
    assert w.pendingResults == [[slice]];
    w.Start(0.0);
    assert w.isDragging && w.result == None && w.ResultConsistent() == false;
    w.FireResultTimer();
    assert w.isDragging && w.gameState == Result && w.result == Some(slice);
    w.Move(20.0);
    w.Release();
    assert w.gameState == Spinning && w.result == Some(slice);
  }
}
