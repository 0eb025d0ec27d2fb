/**
 * The worker's loops: `engine_update` (one frame), the inner
 * `while (is_running) engine_update();` and the outer loop that calls the
 * user's `destroy` on every exit of the inner one and re-enters it when
 * `destroy` returns false.
 *
 * The window's close flag and the user's `update` and `destroy` results are
 * finite scripts; a loop whose script runs out reports that it is still
 * running instead of inventing further callback results.
 */
module EngineLoop {

  /** Observable effects of a run, in program order. `Present` stands for the
      clear, buffer swap and event poll that end a completed frame. */
  datatype Event = Create | Update | Present | Destroy | CleanUp

  /** One call of `engine_update`: whether the window asked to close, and
      what the user's `update` returns if it is reached. */
  datatype Frame = Frame(closeRequested: bool, updateOk: bool)

  /** A frame after which `is_running` is still true. */
  predicate Continues(f: Frame)
  {
    !f.closeRequested && f.updateOk
  }

  /** `n` completed frames. */
  function Rounds(n: nat): seq<Event>
  {
    if n == 0 then [] else [Update, Present] + Rounds(n - 1)
  }

  /** Every `Present` comes straight after an `Update`. */
  predicate PresentsFollowUpdates(t: seq<Event>)
  {
    forall i :: 0 <= i < |t| && t[i] == Present ==> 0 < i && t[i - 1] == Update
  }

  /** An `Update` that did not present is followed by nothing but `Destroy`. */
  predicate FailedUpdateThenDestroy(t: seq<Event>)
  {
    forall i :: 0 < i < |t| && t[i - 1] == Update && t[i] != Present ==> t[i] == Destroy
  }

  /** What one call of `engine_update` does and whether `is_running` survives it. */
  datatype Step = Step(events: seq<Event>, running: bool)

  /** `engine_update`: a close request returns before `update`; a failed
      `update` returns before the frame is presented. */
  function EngineUpdate(f: Frame): (s: Step)
    ensures s.running <==> Continues(f)
    ensures f.closeRequested ==> s.events == []
    ensures !f.closeRequested ==> |s.events| > 0 && s.events[0] == Update
    ensures Present in s.events <==> s.running
    ensures |s.events| <= 2 && Destroy !in s.events
  {
    if f.closeRequested then Step([], false)
    else if !f.updateOk then Step([Update], false)
    else Step([Update, Present], true)
  }

  /** The inner loop's outcome: its events, how many frames it consumed and
      whether it ended because `is_running` became false. */
  datatype Inner = Inner(trace: seq<Event>, used: nat, stopped: bool)
  {
    /** The frames that were presented. */
    function Completed(): int
    {
      if stopped then used - 1 else used
    }
  }

  /** `while (is_running) engine_update();`, entered with `is_running` true. */
  function FrameLoop(frames: seq<Frame>): (r: Inner)
    ensures r.used <= |frames|
    ensures !r.stopped ==> r.used == |frames|
    ensures r.stopped ==> 0 < r.used && !Continues(frames[r.used - 1])
    ensures forall j :: 0 <= j < r.Completed() ==> Continues(frames[j])
    decreases |frames|
  {
    if |frames| == 0 then Inner([], 0, false)
    else
      var step := EngineUpdate(frames[0]);
      if !step.running then Inner(step.events, 1, true)
      else
        var rest := FrameLoop(frames[1..]);
        Inner(step.events + rest.trace, rest.used + 1, rest.stopped)
  }

  /** The inner loop's events: `update` and a present for every completed
      frame, then the failed `update` of the stopping frame unless a close
      request came first. */
  lemma {:induction false} FrameLoopTrace(frames: seq<Frame>)
    ensures var r := FrameLoop(frames);
            r.trace == Rounds(r.Completed())
                       + (if r.stopped && !frames[r.used - 1].closeRequested then [Update] else [])
    decreases |frames|
  {
    if |frames| > 0 && Continues(frames[0]) {
      FrameLoopTrace(frames[1..]);
    }
  }

  /** How often `e` occurs in `t`. */
  function Count(t: seq<Event>, e: Event): nat
  {
    if |t| == 0 then 0 else (if t[0] == e then 1 else 0) + Count(t[1..], e)
  }

  lemma {:induction false} CountConcat(a: seq<Event>, b: seq<Event>, e: Event)
    ensures Count(a + b, e) == Count(a, e) + Count(b, e)
    decreases |a|
  {
    if |a| == 0 {
      assert a + b == b;
    } else {
      assert (a + b)[0] == a[0];
      assert (a + b)[1..] == a[1..] + b;
      CountConcat(a[1..], b, e);
    }
  }

  lemma CountSingle(x: Event, e: Event)
    ensures Count([x], e) == (if x == e then 1 else 0)
  {
    assert [x][1..] == [];
  }

  /** `n` completed frames call `update` and present `n` times each, and
      nothing else. */
  lemma {:induction false} RoundsCount(n: nat, e: Event)
    ensures Count(Rounds(n), e) == (if e == Update || e == Present then n else 0)
  {
    if n > 0 {
      RoundsCount(n - 1, e);
      CountConcat([Update, Present], Rounds(n - 1), e);
      assert Count([Update, Present], e) == (if e == Update || e == Present then 1 else 0) by {
        assert [Update, Present][1..] == [Present];
        assert [Present][1..] == [];
      }
    }
  }

  /** Gluing two well-ordered traces keeps them well ordered when the seam
      does not break a frame apart. */
  lemma OrderedConcat(a: seq<Event>, b: seq<Event>)
    requires PresentsFollowUpdates(a) && FailedUpdateThenDestroy(a)
    requires PresentsFollowUpdates(b) && FailedUpdateThenDestroy(b)
    requires |b| > 0 ==> b[0] != Present
    requires |a| > 0 && |b| > 0 && a[|a| - 1] == Update ==> b[0] == Destroy
    ensures PresentsFollowUpdates(a + b) && FailedUpdateThenDestroy(a + b)
  {
    var t := a + b;
    forall i | 0 <= i < |t| && t[i] == Present
      ensures 0 < i && t[i - 1] == Update
    {
      if i >= |a| {
        assert t[i] == b[i - |a|];
      }
    }
    forall i | 0 < i < |t| && t[i - 1] == Update && t[i] != Present
      ensures t[i] == Destroy
    {
      if i > |a| {
        assert t[i] == b[i - |a|] && t[i - 1] == b[i - 1 - |a|];
      }
    }
  }

  lemma {:induction false} RoundsOrdered(n: nat)
    ensures PresentsFollowUpdates(Rounds(n)) && FailedUpdateThenDestroy(Rounds(n))
    ensures n > 0 ==> Rounds(n)[0] == Update && Rounds(n)[|Rounds(n)| - 1] == Present
  {
    if n > 0 {
      RoundsOrdered(n - 1);
      OrderedConcat([Update, Present], Rounds(n - 1));
    }
  }

  /** Completed frames followed by a failed `update` are well ordered. */
  lemma RoundsThenUpdateOrdered(n: nat)
    ensures var t := Rounds(n) + [Update];
            PresentsFollowUpdates(t) && FailedUpdateThenDestroy(t) && t[0] == Update
  {
    RoundsOrdered(n);
    OrderedConcat(Rounds(n), [Update]);
    if n > 0 {
      assert (Rounds(n) + [Update])[0] == Rounds(n)[0];
    }
  }

  /** The events of one inner loop are well ordered and start with `Update`. */
  lemma InnerTraceOrdered(frames: seq<Frame>)
    ensures var t := FrameLoop(frames).trace;
            PresentsFollowUpdates(t) && FailedUpdateThenDestroy(t) && (|t| > 0 ==> t[0] == Update)
  {
    var r := FrameLoop(frames);
    FrameLoopTrace(frames);
    var failed := r.stopped && !frames[r.used - 1].closeRequested;
    var n: nat := r.Completed();
    if failed {
      assert r.trace == Rounds(n) + [Update];
      RoundsThenUpdateOrdered(n);
    } else {
      assert r.trace == Rounds(n);
      RoundsOrdered(n);
    }
  }

  /** The inner loop runs exactly up to the first frame that stops it. */
  lemma FrameLoopStopsAtFirst(frames: seq<Frame>, k: nat)
    requires k < |frames| && !Continues(frames[k])
    requires forall j :: 0 <= j < k ==> Continues(frames[j])
    ensures FrameLoop(frames).stopped && FrameLoop(frames).used == k + 1
    ensures FrameLoop(frames).trace == Rounds(k) + (if frames[k].closeRequested then [] else [Update])
  {
    FrameLoopTrace(frames);
  }

  /** The worker's outcome: its events, how much of each script it consumed,
      how often the inner loop exited, and whether the outer loop ended. */
  datatype Worker = Worker(trace: seq<Event>, framesUsed: nat, destroysUsed: nat, exits: nat, finished: bool)

  /** The outer loop of `engine_thread`, entered with `is_running` true: run
      frames until one stops, call `destroy`, and go round again while it
      returns false. */
  function WorkerLoop(frames: seq<Frame>, destroys: seq<bool>): (r: Worker)
    ensures r.framesUsed <= |frames| && r.destroysUsed <= |destroys|
    ensures r.finished <==> 0 < r.destroysUsed && destroys[r.destroysUsed - 1]
    ensures forall j :: 0 <= j < r.destroysUsed - 1 ==> !destroys[j]
    ensures r.exits == r.destroysUsed || (!r.finished && r.exits == r.destroysUsed + 1)
    ensures !r.finished ==> r.framesUsed == |frames| || r.destroysUsed == |destroys|
    ensures r.finished ==> |r.trace| > 0 && r.trace[|r.trace| - 1] == Destroy
    decreases |destroys|
  {
    var inner := FrameLoop(frames);
    if !inner.stopped || |destroys| == 0 then
      Worker(inner.trace, inner.used, 0, if inner.stopped then 1 else 0, false)
    else if destroys[0] then
      Worker(inner.trace + [Destroy], inner.used, 1, 1, true)
    else
      var rest := WorkerLoop(frames[inner.used..], destroys[1..]);
      Worker(inner.trace + [Destroy] + rest.trace, inner.used + rest.framesUsed,
             rest.destroysUsed + 1, rest.exits + 1, rest.finished)
  }

  /** An inner loop presents each completed frame once and calls neither
      `create`, `destroy` nor clean-up. */
  lemma InnerTraceCount(frames: seq<Frame>, e: Event)
    requires e != Update
    ensures Count(FrameLoop(frames).trace, e) == (if e == Present then FrameLoop(frames).Completed() else 0)
  {
    var inner := FrameLoop(frames);
    FrameLoopTrace(frames);
    RoundsCount(inner.Completed(), e);
    if inner.stopped && !frames[inner.used - 1].closeRequested {
      CountConcat(Rounds(inner.Completed()), [Update], e);
      CountSingle(Update, e);
    } else {
      assert inner.trace == Rounds(inner.Completed());
    }
  }

  /** What the worker's trace holds of each event other than `Update`. */
  function Expected(r: Worker, e: Event): int
  {
    match e
    case Destroy => r.destroysUsed
    case Present => r.framesUsed - r.exits
    case _ => 0
  }

  /** Each exit of the inner loop is answered by one `destroy` call, every
      consumed frame but the stopping ones is presented, and the worker never
      calls `create` or cleans up. */
  lemma {:induction false} WorkerTraceCounts(frames: seq<Frame>, destroys: seq<bool>, e: Event)
    requires e != Update
    ensures Count(WorkerLoop(frames, destroys).trace, e) == Expected(WorkerLoop(frames, destroys), e)
    decreases |destroys|
  {
    var inner := FrameLoop(frames);
    InnerTraceCount(frames, e);
    if inner.stopped && |destroys| > 0 {
      CountConcat(inner.trace, [Destroy], e);
      CountSingle(Destroy, e);
      if !destroys[0] {
        var rest := WorkerLoop(frames[inner.used..], destroys[1..]);
        WorkerTraceCounts(frames[inner.used..], destroys[1..], e);
        CountConcat(inner.trace + [Destroy], rest.trace, e);
      }
    }
  }

  /** The worker never presents a frame whose `update` was not reached or
      failed, and nothing but `destroy` follows a failed `update`. */
  lemma {:induction false} WorkerTraceOrdered(frames: seq<Frame>, destroys: seq<bool>)
    ensures PresentsFollowUpdates(WorkerLoop(frames, destroys).trace)
    ensures FailedUpdateThenDestroy(WorkerLoop(frames, destroys).trace)
    ensures var t := WorkerLoop(frames, destroys).trace;
            |t| > 0 ==> t[0] == Update || t[0] == Destroy
    decreases |destroys|
  {
    var inner := FrameLoop(frames);
    InnerTraceOrdered(frames);
    if inner.stopped && |destroys| > 0 {
      OrderedConcat(inner.trace, [Destroy]);
      if !destroys[0] {
        var rest := WorkerLoop(frames[inner.used..], destroys[1..]);
        WorkerTraceOrdered(frames[inner.used..], destroys[1..]);
        OrderedConcat(inner.trace + [Destroy], rest.trace);
      }
    }
  }

  /** A `destroy` that returns false sends the worker back into the frame
      loop: a worker that finishes afterwards has run at least one more frame
      and called `destroy` at least twice. */
  lemma RefusedDestroyReenters(frames: seq<Frame>, destroys: seq<bool>)
    requires FrameLoop(frames).stopped && |destroys| > 0 && !destroys[0]
    ensures var r := WorkerLoop(frames, destroys);
            var n := |FrameLoop(frames).trace|;
            && r.destroysUsed >= 1
            && n < |r.trace| && r.trace[..n + 1] == FrameLoop(frames).trace + [Destroy]
            && (r.finished ==> r.framesUsed > FrameLoop(frames).used && r.destroysUsed >= 2)
  {
    var inner := FrameLoop(frames);
    var rest := WorkerLoop(frames[inner.used..], destroys[1..]);
    var r := WorkerLoop(frames, destroys);
    assert r.trace == (inner.trace + [Destroy]) + rest.trace;
    assert r.trace[..|inner.trace| + 1] == inner.trace + [Destroy];
    if rest.finished {
      assert FrameLoop(frames[inner.used..]).stopped;
    }
  }

  /** The window's close flag stays set once it is set. */
  predicate CloseSticks(frames: seq<Frame>)
  {
    forall i, j :: 0 <= i <= j < |frames| && frames[i].closeRequested ==> frames[j].closeRequested
  }

  /** Once the window has asked to close, refusing `destroy` only leads to
      `destroy` being asked again: no further `update` runs and no frame is
      presented, and each `destroy` uses up one frame. */
  lemma {:induction false} ClosedWindowOnlyDestroys(frames: seq<Frame>, destroys: seq<bool>)
    requires CloseSticks(frames) && |frames| > 0 && frames[0].closeRequested
    ensures var r := WorkerLoop(frames, destroys);
            && (forall i :: 0 <= i < |r.trace| ==> r.trace[i] == Destroy)
            && (r.finished ==> r.framesUsed == r.destroysUsed)
    decreases |destroys|
  {
    assert FrameLoop(frames) == Inner([], 1, true);
    if |destroys| > 0 && !destroys[0] {
      var rest := WorkerLoop(frames[1..], destroys[1..]);
      assert WorkerLoop(frames, destroys).trace == [Destroy] + rest.trace;
      if |frames| > 1 {
        assert CloseSticks(frames[1..]) by {
          forall i, j | 0 <= i <= j < |frames| - 1 && frames[1..][i].closeRequested
            ensures frames[1..][j].closeRequested
          {
            assert frames[1..][i] == frames[i + 1] && frames[1..][j] == frames[j + 1];
          }
        }
        ClosedWindowOnlyDestroys(frames[1..], destroys[1..]);
      } else {
        assert frames[1..] == [];
        assert rest == Worker([], 0, 0, 0, false);
      }
    }
  }

  /** A failed `update`, a refused `destroy`, one completed frame, another
      failed `update` and an accepted `destroy`. */
  lemma RefusedDestroyWorker()
    ensures WorkerLoop([Frame(false, false), Frame(false, true), Frame(false, false)], [false, true])
            == Worker([Update, Destroy, Update, Present, Update, Destroy], 3, 2, 2, true)
  {
    var frames := [Frame(false, false), Frame(false, true), Frame(false, false)];
    var later := [Frame(false, true), Frame(false, false)];
    assert FrameLoop(frames) == Inner([Update], 1, true);
    assert frames[1..] == later && [false, true][1..] == [true];
    assert later[1..] == [Frame(false, false)];
    assert FrameLoop([Frame(false, false)]) == Inner([Update], 1, true);
    assert FrameLoop(later) == Inner([Update, Present, Update], 2, true);
    assert WorkerLoop(later, [true]) == Worker([Update, Present, Update, Destroy], 2, 1, 1, true);
  }
}
