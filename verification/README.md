# pixel-engine, modelled in Dafny

This project models the pixel grid (`pix2d::Pixel`, `pix2d::Sprite`) and
the engine lifecycle (`pix_eng::Engine`) of a small pixel-framebuffer
engine, and proves properties of them.

- **The pixel grid.** `Pixel` holds four 8-bit channels. Its member
  initialisers make it opaque black, and it comes with eight named opaque
  colours. A `Sprite` is a `width × height` buffer of pixels, stored bottom
  row first so that `(0, 0)` is the top-left corner. A sprite can be empty
  (null storage), `w × h` default pixels, or converted from a decoded RGBA
  byte buffer. `get_pixel` and `set_pixel` absorb out-of-range coordinates
  and null storage silently. A write replaces the stored pixel.
- **The engine lifecycle.** `initialise` is a guarded configuration update.
  `start` runs `prepare`, then the worker (`engine_thread`), then
  `clean_up`. The worker runs `thread_prepare` and the user's `create`. It
  then enters nested loops: the inner loop calls `engine_update` while
  `is_running` holds, and the outer loop calls the user's `destroy` on every
  exit of the inner one and re-enters it when `destroy` returns false. The
  worker thread is joined as soon as it is spawned, so a run is modelled as
  a sequential function.

Modules follow the source: `Pixels` and `ByteLayout` (the `Pixel` struct and
its byte layout), `Sprites` (`sprite.cpp`), `EngineLoop` (the worker's
loops) and `Engines` (the rest of `engine.cpp`). `Options` is a small
nullable-pointer type.

Backend calls are boolean oracles. The `Backend` record holds `glfwInit`,
window creation and GL loading. The user's callbacks are finite scripts in
the `User` record: the result of `create`; one `Frame` per `engine_update`
call, holding the window's close flag and `update`'s result; and one result
per `destroy` call. A run produces a trace of events `Create`, `Update`,
`Present`, `Destroy` and `CleanUp`. `Present` stands for the clear, buffer
swap and event poll that end a completed frame. The loops terminate on the
lengths of the scripts. A run whose scripts run out while the worker still
loops is reported as `Unfinished`: in the program, `start` would not have
returned yet.

The model follows the code as written:
- `set_pixel` stores the given pixel in its slot as is.
- A default `Pixel` is `(0, 0, 0, 255)` (its member initialisers).
- `is_running` is a two-valued `std::atomic<bool>`, modelled as a `bool`.
- `engine_thread` ignores the result of `thread_prepare`: `create` runs
  even when the window or GL loader is missing, and the loop is entered if
  `create` succeeds.
- `construct_canvas` and `construct_font` return `true` without allocating
  anything, so `canvas_sprite` stays null and `point` never draws.
  `EngineThread` takes their results as parameters so that the failure
  branch of `thread_prepare` is modelled too; `Start` passes the source's
  constant `true`.

## Model

| member | source | states |
|---|---|---|
| Pixels.Rgb | src/sprite.cpp:8 | `Pixel(r, g, b)` stores the three colour channels and alpha keeps its initialiser, 255 |
| Pixels.DefaultIsOpaqueBlack | src/headers/sprite.h:12 | `Pixel()` is `(0, 0, 0, 255)`, the same as `BLACK` |
| Pixels.ConstructorsAgree | src/sprite.cpp:8-9 | `Pixel(r, g, b)` equals `Pixel(r, g, b, 255)`, and the four-channel constructor rebuilds any pixel exactly |
| Pixels.NamedColours | src/headers/sprite.h:19-22 | each named colour is opaque with its listed RGB triple |
| ByteLayout.DecodeRgba | src/sprite.cpp:28-34 | pixel `i` is built from bytes `4i`, `4i+1`, `4i+2`, `4i+3`, and there are exactly a quarter as many pixels as bytes |
| ByteLayout.EncodeRgba | src/headers/sprite.h:11-16 | a pixel array lays out four bytes per pixel, red, green, blue, alpha |
| ByteLayout.DecodeEncode | src/sprite.cpp:28-34 | converting the bytes of a pixel array gives the array back |
| ByteLayout.EncodeDecode | src/sprite.cpp:28-34 | the converted pixels lay out exactly the decoded bytes |
| Sprites.FlippedIndex | src/sprite.cpp:69-71 | the flipped slot `(height - y - 1) * width + x` of an in-range coordinate lies in `[0, width * height)` |
| Sprites.FlippedIndexInjective | src/sprite.cpp:78-80 | distinct in-range coordinates have distinct storage slots |
| Sprites.CoordinatesOf | src/sprite.cpp:68-74 | every storage slot of a grid with non-negative sides belongs to an in-range coordinate |
| Sprites.GetPixel | src/sprite.cpp:68-74 | an out-of-range coordinate or null storage reads as the default pixel |
| Sprites.SetPixel | src/sprite.cpp:77-82 | an out-of-range coordinate or null storage leaves the sprite unchanged; otherwise exactly the flipped slot becomes `p`, every other slot and the size stay |
| Sprites.EmptySprite | src/sprite.cpp:12-15 | `Sprite()` equals the member initialisers, has size 0 × 0 and no storage, reads as default everywhere and ignores every write |
| Sprites.NewSprite | src/sprite.cpp:42-51 | `Sprite(w, h)` reports width `w` and height `h` through `get_width`/`get_height` (`Width`, `Height`, src/sprite.cpp:59-65), and `get_data` (`Data`, src/sprite.cpp:90-92) holds `w * h` pixels, and every read gives the default pixel |
| Sprites.FromImage | src/sprite.cpp:18-39 | a failed load keeps the initialisers; a decoded image reports its size through `get_width`/`get_height` and has allocated `get_data` storage, and `(x, y)` reads the four bytes at the flipped slot |
| Sprites.NullStorageInert | src/sprite.cpp:68-82 | with null storage, whatever the size, every read is default and every write is a no-op |
| Sprites.ImageBytesRoundTrip | src/sprite.cpp:27-34 | the buffer of a loaded sprite lays out exactly the decoded bytes |
| Sprites.GetAfterSet | src/sprite.cpp:80 | an in-range write is read back exactly, whatever its alpha |
| Sprites.GetAfterSetElsewhere | src/sprite.cpp:77-82 | a write leaves the pixel at every other coordinate as it was |
| Sprites.SetPixelsCommute | src/sprite.cpp:77-82 | writes to distinct coordinates commute |
| Sprites.SetPixelOverwrites | src/sprite.cpp:80 | of two writes to one coordinate the last wins |
| Sprites.ReadsDetermineSprite | src/sprite.cpp:68-74 | two allocated sprites of the same size that read alike everywhere are equal |
| EngineLoop.EngineUpdate | src/engine.cpp:117-151 | a close request clears `is_running` before `update`; a failed `update` clears it before the frame is presented; only a frame with neither is presented and keeps running |
| EngineLoop.FrameLoop | src/engine.cpp:75 | the inner loop consumes frames up to and including the first one that stops it, and no further; it stops only on such a frame |
| EngineLoop.FrameLoopTrace | src/engine.cpp:75 | the inner loop's events are `Update, Present` per completed frame, then `Update` alone if the stopping frame's `update` failed |
| EngineLoop.FrameLoopStopsAtFirst | src/engine.cpp:75 | when frame `k` is the first that stops, the loop uses exactly `k + 1` frames and presents `k` |
| EngineLoop.InnerTraceOrdered | src/engine.cpp:117-151 | within an inner loop every `Present` follows an `Update`, and the loop's events start with `Update` |
| EngineLoop.InnerTraceCount | src/engine.cpp:133-150 | an inner loop presents once per completed frame and never calls `create`, `destroy` or clean-up |
| EngineLoop.WorkerLoop | src/engine.cpp:74-78 | the outer loop ends exactly when a `destroy` returns true, every earlier `destroy` returned false, each exit of the inner loop gets one `destroy`, and only an exhausted script leaves it unfinished |
| EngineLoop.WorkerTraceCounts | src/engine.cpp:74-78 | the worker's loops call `destroy` once per consumed result, present every consumed frame except the stopping ones, and never call `create` or clean up |
| EngineLoop.WorkerTraceOrdered | src/engine.cpp:74-78 | every `Present` follows an `Update`, and a failed `update` is followed directly by `destroy` |
| EngineLoop.RefusedDestroyReenters | src/engine.cpp:74-78 | whenever the inner loop stops and the first `destroy` refuses, the worker's events begin with the inner loop's events followed directly by `destroy`, and a worker that still finishes runs at least one more frame and calls `destroy` at least twice |
| EngineLoop.ClosedWindowOnlyDestroys | src/engine.cpp:117-121 | once the window asks to close and the flag stays set, the worker only calls `destroy`, one frame per call, until one accepts |
| EngineLoop.RefusedDestroyWorker | src/engine.cpp:74-77 | a failed `update`, a refused `destroy`, a completed frame, a failed `update` and an accepted `destroy` give exactly `Update, Destroy, Update, Present, Update, Destroy` |
| Engines.FreshEngine | src/headers/engine.h:78-84 | a fresh engine is 640 × 480, named "Pixel Engine", without canvas (`canvas_sprite` starts null), not running (`is_running` starts false, src/engine.cpp:213), and accepts any non-negative configuration |
| Engines.Initialise | src/engine.cpp:13-21 | succeeds exactly when both sizes are non-negative and the engine is not running; on success it stores exactly the given size and name, otherwise it changes nothing |
| Engines.ThreadPrepare | src/engine.cpp:90-114 | reports success exactly when the window and GL loader are available; a failure there leaves `is_running` as it was; after a success `is_running` holds exactly when it held before and both the canvas and the font were built |
| Engines.EngineThread | src/engine.cpp:66-81 | `create` always runs first; a failed `create`, canvas or font ends the worker at once with no `update` or `destroy`; a finished worker that called `destroy` ends on an accepting one |
| Engines.ThreadCallCounts | src/engine.cpp:66-81 | the worker calls `create` exactly once, `destroy` once per consumed result, and never cleans up |
| Engines.Start | src/engine.cpp:24-35 | a failed `prepare` returns false without running anything or touching the engine; otherwise a returned run starts with `create`, ends with clean-up, returns clean-up's `true` and leaves `is_running` clear |
| Engines.RunCallCounts | src/engine.cpp:24-35 | a started run calls `create` once and, once returned, cleans up once |
| Engines.FirstStopEndsRun | src/engine.cpp:117-136 | if frame `k` first stops and `destroy` accepts, the run presents frames before `k`, calls `destroy` once, and runs no later frame |
| Engines.RefusedDestroyReentersFrames | src/engine.cpp:74-78 | for every script whose first `destroy` refuses, a run that returns has called `destroy` at least twice |
| Engines.DefaultCreateEndsRun | src/engine.cpp:38-41 | with the base `create`, the run is `create` then clean-up |
| Engines.DefaultUpdateEndsRun | src/engine.cpp:44-52 | with the base `update` and `destroy`, the run ends after the first frame |
| Engines.ThreadPrepareResultIgnored | src/engine.cpp:68-71 | a missing window or GL loader gives the same control flow as a fully prepared thread |
| Engines.RunTraceOrdered | src/engine.cpp:24-35 | a returned run's trace is well ordered and its last worker event is `create` or an accepting `destroy` |
| Engines.InitialiseAfterRun | src/engine.cpp:13-21 | after a run has returned, `initialise` accepts any non-negative size again |
| Engines.Point | src/engine.cpp:165-168 | `point` does nothing while the canvas is null, and otherwise is `set_pixel` on the canvas |
| Engines.Apply | src/engine.cpp:154-156 | no sequence of `initialise`, `start` and `point` calls allocates a canvas |
| Engines.PointNeverDraws | src/engine.cpp:165-168 | on any engine reachable from a fresh one, `point` is a no-op |

## Left out

- OpenGL, GLFW and GLAD calls. Window creation, context, viewport, clear colour, swap and event polling are left out. Where a result matters, it is a boolean in `Backend` or a `Frame`.
- The calls made with a null window after a failed window creation, and the GL calls made through unloaded function pointers after a failed GL load (`glClearColor` and `glClear` in every completed frame), are not modelled either. Their effects are undefined in the source; the model follows only the control flow, and the close flag is a scripted oracle throughout.
- The GLFW close flag stays set once set. The frame script may choose each frame's flag freely; `EngineLoop.ClosedWindowOnlyDestroys` takes stickiness as a hypothesis (`CloseSticks`), and the other lemmas hold for every script.
- Image decoding (`stbi_load`, `stbi_image_free`, vertical flip on load). The model starts from the decoded buffer. A failed load is assumed to leave `width` and `height` at their initialisers.
- `std::thread` and `std::atomic`: the worker is joined at once, so the run is sequential. `is_running` is a static shared by all engines; the model keeps it as a field of the one engine value.
- User callbacks that write `is_running`, or that call `initialise` or `start` from inside a run. These re-entrant uses are not modelled.
- `delta_time` and `glfwGetTime`, which are floating-point timing. `update` is modelled by its boolean result only.
- Console output via `std::cout`.
- 32-bit `int` overflow of `width * height` and of the flipped index, because integers are unbounded here. `Sprites.NewSprite` requires `w * h >= 0`, because a negative allocation size throws in the source.
- The empty drawing stubs `line`, `circle`, `rect`, `triangle`, `sprite` and `text`, `Sprite::duplicate` (returns null), the empty `Engine` destructor, and `draw_canvas` (declared, not defined): none of them has behaviour.
- `clear` is declared but not defined, so it is not modelled.
- `Sprite` ownership: the destructor frees `sprite_data`, an implicit copy shares it (no copy constructor or assignment is declared, so two copies also free it twice), and `get_data` hands out the mutable buffer. The model treats a sprite as a value with a single owner, so a write through one copy is not seen through another.
- `src/main.cpp`: a demo program and a hand-written OpenGL test loop.
