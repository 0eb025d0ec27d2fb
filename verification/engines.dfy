/**
 * `pix_eng::Engine`: configuration, the guarded `initialise`, the blocking
 * `start` (backend preparation, the worker, clean-up), the default user
 * callbacks and the `point` drawing primitive.
 *
 * The worker thread is joined as soon as it is spawned, so a run is modelled
 * sequentially. Backend calls are boolean oracles and the user's callbacks
 * are scripts (see EngineLoop).
 */
module Engines {
  import opened Options
  import opened Pixels
  import opened Sprites
  import opened EngineLoop

  /** The engine's state. `isRunning` is the `is_running` flag; `canvas` is
      `canvas_sprite`, `None` while the pointer is null. */
  datatype Engine = Engine(screenWidth: int, screenHeight: int, engineName: string,
                           isRunning: bool, canvas: Option<Sprite>)

  /** A newly constructed engine: the member initialisers and the flag's
      static initial value. */
  const Fresh: Engine := Engine(640, 480, "Pixel Engine", false, None)

  /** A fresh engine has the default configuration, is not running, has no
      canvas, and accepts any non-negative configuration. */
  lemma FreshEngine(width: int, height: int, name: string)
    ensures Fresh.screenWidth == 640 && Fresh.screenHeight == 480 && Fresh.engineName == "Pixel Engine"
    ensures !Fresh.isRunning && Fresh.canvas.None?
    ensures Initialise(Fresh, width, height, name).ok <==> 0 <= width && 0 <= height
  {}

  predicate ValidEngine(e: Engine)
  {
    e.canvas.Some? ==> Sprites.Valid(e.canvas.value)
  }

  datatype Initialised = Initialised(ok: bool, engine: Engine)

  /** `initialise`: refuses negative sizes and a running engine; otherwise
      stores exactly the given configuration. */
  function Initialise(e: Engine, width: int, height: int, name: string): (r: Initialised)
    ensures r.ok <==> 0 <= width && 0 <= height && !e.isRunning
    ensures !r.ok ==> r.engine == e
    ensures r.ok ==> && r.engine.screenWidth == width && r.engine.screenHeight == height
                     && r.engine.engineName == name
                     && r.engine.isRunning == e.isRunning && r.engine.canvas == e.canvas
  {
    if width < 0 || height < 0 then Initialised(false, e)
    else if e.isRunning then Initialised(false, e)
    else Initialised(true, e.(screenWidth := width, screenHeight := height, engineName := name))
  }

  /** The backend's answers: `glfwInit` in `prepare`, and window creation and
      GL loading in `thread_prepare`. */
  datatype Backend = Backend(prepareOk: bool, windowOk: bool, glLoaded: bool)

  /** The user's callbacks: `create`'s result, one frame per `engine_update`
      call, one result per `destroy` call. */
  datatype User = User(createOk: bool, frames: seq<Frame>, destroys: seq<bool>)

  /** `construct_canvas` allocates nothing and reports success. */
  function ConstructCanvas(): bool { true }

  /** `construct_font` loads nothing and reports success. */
  function ConstructFont(): bool { true }

  /** `clean_up` terminates the backend and reports success. */
  function CleanUpResult(): bool { true }

  datatype Prepared = Prepared(ok: bool, running: bool)

  /** `thread_prepare`: a missing window or GL loader returns false before the
      canvas is built; a failed canvas or font only clears `is_running`. */
  function ThreadPrepare(b: Backend, canvasOk: bool, fontOk: bool, running: bool): (p: Prepared)
    ensures p.ok <==> b.windowOk && b.glLoaded
    ensures !p.ok ==> p.running == running
    ensures p.ok ==> (p.running <==> running && canvasOk && fontOk)
  {
    if !b.windowOk then Prepared(false, running)
    else if !b.glLoaded then Prepared(false, running)
    else if !canvasOk || !fontOk then Prepared(true, false)
    else Prepared(true, running)
  }

  /** `engine_thread`, entered with `is_running` true: thread preparation
      (whose result is ignored), `create`, then the loops while running. */
  function EngineThread(b: Backend, canvasOk: bool, fontOk: bool, u: User): (r: Worker)
    ensures |r.trace| > 0 && r.trace[0] == Create
    ensures !u.createOk ==> r == Worker([Create], 0, 0, 0, true)
    ensures b.windowOk && b.glLoaded && !(canvasOk && fontOk) ==> r == Worker([Create], 0, 0, 0, true)
    ensures r.framesUsed <= |u.frames| && r.destroysUsed <= |u.destroys|
    ensures !r.finished ==> r.framesUsed == |u.frames| || r.destroysUsed == |u.destroys|
    ensures r.finished && r.destroysUsed > 0 ==> u.destroys[r.destroysUsed - 1]
    ensures r.finished && r.destroysUsed == 0 ==> r.trace == [Create]
    ensures forall j :: 0 <= j < r.destroysUsed - 1 ==> !u.destroys[j]
  {
    var prepared := ThreadPrepare(b, canvasOk, fontOk, true);
    if !u.createOk || !prepared.running then Worker([Create], 0, 0, 0, true)
    else
      var w := WorkerLoop(u.frames, u.destroys);
      w.(trace := [Create] + w.trace)
  }

  /** The outcome of `start`: it returned, or the scripts ran out while the
      worker was still looping. */
  datatype Run = Returned(ok: bool, trace: seq<Event>, engine: Engine) | Unfinished(trace: seq<Event>)

  /** `start`: `prepare`, then the worker with `is_running` set, then
      `clean_up`, whose result is returned. */
  function Start(e: Engine, b: Backend, u: User): (r: Run)
    ensures !b.prepareOk ==> r == Returned(false, [], e)
    ensures r.Unfinished? ==> b.prepareOk
    ensures b.prepareOk ==> |r.trace| > 0 && r.trace[0] == Create
    ensures b.prepareOk && r.Returned? ==>
              && r.ok == CleanUpResult() == true
              && |r.trace| >= 2 && r.trace[|r.trace| - 1] == CleanUp
              && r.engine == e.(isRunning := false)
    ensures b.prepareOk && !u.createOk ==> r == Returned(true, [Create, CleanUp], e.(isRunning := false))
  {
    if !b.prepareOk then Returned(false, [], e)
    else
      var w := EngineThread(b, ConstructCanvas(), ConstructFont(), u);
      if !w.finished then Unfinished(w.trace)
      else Returned(CleanUpResult(), w.trace + [CleanUp], e.(isRunning := false))
  }

  /** `point`: a write through to the canvas, or nothing while it is null. */
  function Point(e: Engine, x: int, y: int, p: Pixel): (r: Engine)
    requires ValidEngine(e)
    ensures ValidEngine(r)
    ensures e.canvas.None? ==> r == e
    ensures e.canvas.Some? ==> r == e.(canvas := Some(SetPixel(e.canvas.value, x, y, p)))
  {
    match e.canvas
    case None => e
    case Some(c) => e.(canvas := Some(SetPixel(c, x, y, p)))
  }

  /** The base class's `create` reports that it was not overridden. */
  function DefaultCreate(): bool { false }

  /** The base class's `update` reports that it was not overridden. */
  function DefaultUpdate(): bool { false }

  /** The base class's `destroy` accepts the shutdown. */
  function DefaultDestroy(): bool { true }

  /** The worker calls `create` exactly once, `destroy` once per consumed
      `destroy` result, presents every consumed frame except those that
      stopped the inner loop, and never cleans up. */
  lemma ThreadCallCounts(b: Backend, canvasOk: bool, fontOk: bool, u: User)
    ensures var w := EngineThread(b, canvasOk, fontOk, u);
            && Count(w.trace, Create) == 1 && Count(w.trace, CleanUp) == 0
            && Count(w.trace, Destroy) == w.destroysUsed
            && Count(w.trace, Present) == w.framesUsed - w.exits
  {
    var w := EngineThread(b, canvasOk, fontOk, u);
    var prepared := ThreadPrepare(b, canvasOk, fontOk, true);
    if u.createOk && prepared.running {
      var inner := WorkerLoop(u.frames, u.destroys);
      assert w.trace == [Create] + inner.trace;
      WorkerTraceCounts(u.frames, u.destroys, Create);
      WorkerTraceCounts(u.frames, u.destroys, CleanUp);
      WorkerTraceCounts(u.frames, u.destroys, Destroy);
      WorkerTraceCounts(u.frames, u.destroys, Present);
      CountConcat([Create], inner.trace, Create);
      CountConcat([Create], inner.trace, CleanUp);
      CountConcat([Create], inner.trace, Destroy);
      CountConcat([Create], inner.trace, Present);
      CountSingle(Create, Create);
      CountSingle(Create, CleanUp);
      CountSingle(Create, Destroy);
      CountSingle(Create, Present);
    }
  }

  /** A started run calls `create` exactly once, and a returned one cleans up
      exactly once, as its last step. */
  lemma RunCallCounts(e: Engine, b: Backend, u: User)
    requires b.prepareOk
    ensures Count(Start(e, b, u).trace, Create) == 1
    ensures Start(e, b, u).Returned? ==> Count(Start(e, b, u).trace, CleanUp) == 1
  {
    var w := EngineThread(b, ConstructCanvas(), ConstructFont(), u);
    ThreadCallCounts(b, ConstructCanvas(), ConstructFont(), u);
    if w.finished {
      CountConcat(w.trace, [CleanUp], CleanUp);
      CountSingle(CleanUp, CleanUp);
      CountConcat(w.trace, [CleanUp], Create);
      CountSingle(CleanUp, Create);
    }
  }

  /** If the first frame that stops is frame `k` and `destroy` accepts, the run
      presents frames 0 .. k-1, calls `destroy` once, and no later frame runs. */
  lemma FirstStopEndsRun(e: Engine, b: Backend, u: User, k: nat)
    requires b.prepareOk && u.createOk
    requires k < |u.frames| && !Continues(u.frames[k])
    requires forall j :: 0 <= j < k ==> Continues(u.frames[j])
    requires |u.destroys| > 0 && u.destroys[0]
    ensures Start(e, b, u)
            == Returned(true,
                        [Create] + Rounds(k) + (if u.frames[k].closeRequested then [] else [Update])
                        + [Destroy, CleanUp],
                        e.(isRunning := false))
  {
    FrameLoopStopsAtFirst(u.frames, k);
    var inner := FrameLoop(u.frames);
    assert WorkerLoop(u.frames, u.destroys) == Worker(inner.trace + [Destroy], k + 1, 1, 1, true);
    var t := EngineThread(b, ConstructCanvas(), ConstructFont(), u);
    assert t.finished && t.trace == [Create] + (inner.trace + [Destroy]);
    assert Start(e, b, u) == Returned(true, t.trace + [CleanUp], e.(isRunning := false));
    EnclosedWorkerTrace(Rounds(k), if u.frames[k].closeRequested then [] else [Update]);
  }

  lemma EnclosedWorkerTrace(rounds: seq<Event>, tail: seq<Event>)
    ensures [Create] + ((rounds + tail) + [Destroy]) + [CleanUp] == [Create] + rounds + tail + [Destroy, CleanUp]
  {}

  /** A `destroy` that returns false sends the worker back into the frame
      loop: a run that returns after a refused first `destroy` has asked
      `destroy` at least twice. */
  lemma RefusedDestroyReentersFrames(e: Engine, b: Backend, u: User)
    requires b.prepareOk && u.createOk
    requires FrameLoop(u.frames).stopped && |u.destroys| > 0 && !u.destroys[0]
    ensures Start(e, b, u).Returned? ==> Count(Start(e, b, u).trace, Destroy) >= 2
  {
    var w := EngineThread(b, ConstructCanvas(), ConstructFont(), u);
    RefusedDestroyReenters(u.frames, u.destroys);
    ThreadCallCounts(b, ConstructCanvas(), ConstructFont(), u);
    if w.finished {
      CountConcat(w.trace, [CleanUp], Destroy);
      CountSingle(CleanUp, Destroy);
    }
  }

  /** Without an overridden `create` the run ends straight after it. */
  lemma DefaultCreateEndsRun(e: Engine, b: Backend, frames: seq<Frame>, destroys: seq<bool>)
    requires b.prepareOk
    ensures Start(e, b, User(DefaultCreate(), frames, destroys))
            == Returned(true, [Create, CleanUp], e.(isRunning := false))
  {}

  /** With `create` overridden but the default `update` and `destroy`, the run
      ends after the first frame. */
  lemma DefaultUpdateEndsRun(e: Engine, b: Backend, frames: seq<Frame>, destroys: seq<bool>)
    requires b.prepareOk
    requires |frames| > 0 && frames[0].updateOk == DefaultUpdate()
    requires |destroys| > 0 && destroys[0] == DefaultDestroy()
    ensures Start(e, b, User(true, frames, destroys))
            == Returned(true,
                        [Create] + (if frames[0].closeRequested then [] else [Update]) + [Destroy, CleanUp],
                        e.(isRunning := false))
  {
    FirstStopEndsRun(e, b, User(true, frames, destroys), 0);
    assert [Create] + Rounds(0) == [Create];
  }

  /** The result of `thread_prepare` is ignored: a missing window or GL loader
      leads to the same control flow as a fully prepared thread. */
  lemma ThreadPrepareResultIgnored(b: Backend, canvasOk: bool, fontOk: bool, u: User)
    requires !b.windowOk || !b.glLoaded
    ensures EngineThread(b, canvasOk, fontOk, u) == EngineThread(b.(windowOk := true, glLoaded := true), true, true, u)
  {}

  /** A returned run is well ordered: every presented frame ran `update`, a
      failed `update` is followed by `destroy`, and the worker's last call
      before clean-up is `create` or a `destroy` that accepted. */
  lemma RunTraceOrdered(e: Engine, b: Backend, u: User)
    requires b.prepareOk && Start(e, b, u).Returned?
    ensures var t := Start(e, b, u).trace;
            && PresentsFollowUpdates(t) && FailedUpdateThenDestroy(t)
            && |t| >= 2 && (t[|t| - 2] == Destroy || t == [Create, CleanUp])
  {
    var w := EngineThread(b, ConstructCanvas(), ConstructFont(), u);
    ThreadTraceOrdered(b, ConstructCanvas(), ConstructFont(), u);
    OrderedConcat(w.trace, [CleanUp]);
  }

  lemma ThreadTraceOrdered(b: Backend, canvasOk: bool, fontOk: bool, u: User)
    ensures var w := EngineThread(b, canvasOk, fontOk, u);
            && PresentsFollowUpdates(w.trace) && FailedUpdateThenDestroy(w.trace)
            && (w.finished ==> w.trace[|w.trace| - 1] == Create || w.trace[|w.trace| - 1] == Destroy)
  {
    var w := EngineThread(b, canvasOk, fontOk, u);
    var prepared := ThreadPrepare(b, canvasOk, fontOk, true);
    if u.createOk && prepared.running {
      var inner := WorkerLoop(u.frames, u.destroys);
      assert w.trace == [Create] + inner.trace && w.finished == inner.finished;
      WorkerTraceOrdered(u.frames, u.destroys);
      OrderedConcat([Create], inner.trace);
    } else {
      assert w.trace == [Create];
    }
  }

  /** After a run has returned, `is_running` is clear again, so the engine can
      be reconfigured. */
  lemma InitialiseAfterRun(e: Engine, b: Backend, u: User, width: int, height: int, name: string)
    requires Start(e, b, u).Returned?
    requires 0 <= width && 0 <= height
    requires !e.isRunning || b.prepareOk
    ensures Initialise(Start(e, b, u).engine, width, height, name).ok
  {}

  /** The calls a program can make on an engine. */
  datatype Call =
    | InitialiseCall(width: int, height: int, name: string)
    | StartCall(backend: Backend, user: User)
    | PointCall(x: int, y: int, p: Pixel)

  /** The engine after a sequence of calls; a run that does not return ends
      the sequence. */
  function Apply(e: Engine, calls: seq<Call>): (r: Engine)
    requires ValidEngine(e)
    ensures ValidEngine(r)
    ensures r.canvas.None? <==> e.canvas.None?
    decreases |calls|
  {
    if |calls| == 0 then e
    else match calls[0]
      case InitialiseCall(w, h, name) => Apply(Initialise(e, w, h, name).engine, calls[1..])
      case StartCall(b, u) =>
        var run := Start(e, b, u);
        if run.Unfinished? then e else Apply(run.engine, calls[1..])
      case PointCall(x, y, p) => Apply(Point(e, x, y, p), calls[1..])
  }

  /** Nothing allocates a canvas, so on any engine a program can reach from a
      fresh one `point` draws nothing. */
  lemma {:induction false} PointNeverDraws(calls: seq<Call>, x: int, y: int, p: Pixel)
    ensures Apply(Fresh, calls).canvas.None?
    ensures Point(Apply(Fresh, calls), x, y, p) == Apply(Fresh, calls)
  {}
}
