# klogg session store and start-up decisions, in Dafny

This project models two pieces of the klogg log viewer:

- **`SessionInfo`** (`session_info.dfy`) is the in-memory session store. It keeps an insertion-ordered list of windows. Each window has an id, an opaque geometry blob and an ordered list of open files. Each open file has a name, a 64-bit top line, opaque timeline nodes and an opaque view context. The store is modelled as an immutable `Session(windows: seq<Window>)`, and each mutator returns the new session. Lookups go through `FindWindow`, which returns the first window with the id, as `std::find_if` does. The operations themselves do not assume ids are distinct. Distinct ids are a separate invariant, proved to be kept by every operation and by any sequence of operations (`RunKeepsInvariant`).
- **`Startup`** (`startup.dfy`) is the branch logic of `main`. It is a pure function, `MainActions`. Its inputs are the command-line parameters, the "load last session" setting and whether another instance is already primary. Its output is the sequence of calls issued to the application object and the window. The callees are uninterpreted actions: forwarding to the primary, reloading the session, creating/geometry-restoring/showing a window, resizing, loading a file, clearing inactive sessions, starting background tasks, and entering the event loop.
- `wrappers.dfy` holds the `Option` type used by lookups.

Behaviour of the code worth noting:

- `main` ends with `return app.exec()` on **both** paths (src/app/main.cpp:161). So a secondary instance also enters the event loop after forwarding its files. `MainActions` ends in `RunEventLoop` on both paths.
- At this call site a secondary forwards only the file names (src/app/main.cpp:127). No follow flag is passed, so `SendFilesToPrimary` carries only the names.
- `remove` returns `true` whenever more than one window exists, even if the id is not found (src/ui/include/sessioninfo.h:100-107). `Remove` returns exactly that flag.

## Model

| member | source | states |
|---|---|---|
| `SessionInfo.Ids` | src/ui/include/sessioninfo.h:113-120 | the id list has one entry per window, entry `i` is the id of window `i`, and an id is listed iff some window has it |
| `SessionInfo.Windows` | src/ui/include/sessioninfo.h:113-120 | `windows()` returns the ids in stored (creation) order; its length equals the number of windows |
| `SessionInfo.FindWindow` | src/ui/include/sessioninfo.h:156-168 | the lookup yields the first position holding the id; it finds nothing exactly when the id is not among the window ids |
| `SessionInfo.Add` | src/ui/include/sessioninfo.h:90-96 | a present id leaves the session unchanged; an absent id is appended at the end of the id list, with empty geometry and no open files, and every existing window is kept as it was |
| `SessionInfo.Remove` | src/ui/include/sessioninfo.h:98-111 | the result flag is true iff more than one window exists; a false flag or an unknown id leaves the session unchanged; a non-empty session never becomes empty; otherwise exactly the first window with the id is deleted, with the windows before and after it kept in order |
| `SessionInfo.Geometry` | src/ui/include/sessioninfo.h:122-126 | an unknown id gives the empty blob; a known id gives the geometry stored in the first window with that id |
| `SessionInfo.OpenFiles` | src/ui/include/sessioninfo.h:136-141 | an unknown id gives no files; a known id gives the file list of the first window with that id |
| `SessionInfo.SetGeometry` | src/ui/include/sessioninfo.h:128-134 | round trip: for a known id, reading the geometry back gives exactly the stored blob; an unknown id is a no-op; the window count, every window other than the first one with the id (including later windows sharing the id), the id list, the window's files, and every other id's geometry and files are unchanged |
| `SessionInfo.SetOpenFiles` | src/ui/include/sessioninfo.h:143-149 | round trip: for a known id, reading the files back gives exactly the stored list, in order and with all fields, including the empty list; an unknown id is a no-op; the window count, every window other than the first one with the id (including later windows sharing the id), the id list, the window's geometry, and every other id's geometry and files are unchanged |
| `SessionInfo.ReplaceAt` | src/ui/include/sessioninfo.h:128-149 | overwriting a window in place with one of the same id keeps the id list and every lookup, and leaves every other id's geometry and files unchanged |
| `SessionInfo.AddIdempotent` | src/ui/include/sessioninfo.h:90-96 | after `add` the id is present, and adding it a second time changes nothing |
| `SessionInfo.AddKeepsIdsUnique` | src/ui/include/sessioninfo.h:90-96 | with distinct ids, `add` keeps them distinct, and afterwards exactly one window holds the added id |
| `SessionInfo.DeleteAtKeepsIdsUnique` | src/ui/include/sessioninfo.h:104-106 | erasing one window from a list with distinct ids leaves the ids distinct |
| `SessionInfo.DeleteAtDropsId` | src/ui/include/sessioninfo.h:104-106 | with distinct ids, erasing a window removes exactly its id from the id list, and every other id stays listed |
| `SessionInfo.RemoveKeepsIdsUnique` | src/ui/include/sessioninfo.h:98-111 | with distinct ids, `remove` keeps them distinct; with more than one window, the ids afterwards are exactly the old ids minus the removed one |
| `SessionInfo.SettersKeepIdsUnique` | src/ui/include/sessioninfo.h:128-149 | setting a geometry or a file list keeps window ids distinct |
| `SessionInfo.RunKeepsInvariant` | src/ui/include/sessioninfo.h:90-149 | any sequence of add/remove/set calls keeps ids distinct, and a session with at least one window never drops to zero windows |
| `Startup.LoadActions` | src/app/main.cpp:150-152 | one load call per file name, in input order, each with the same follow flag, and nothing else |
| `Startup.MainActions` | src/app/main.cpp:125-161 | both paths end by entering the event loop |
| `Startup.ForwardOnlyFromSecondary` | src/app/main.cpp:125-128 | the file names are forwarded iff multi-instance mode is off and this process is secondary; any forward carries exactly the command-line names; on that path nothing but the forward and the event loop is issued |
| `Startup.SessionChoice` | src/app/main.cpp:132-144 | on the primary path the session is reloaded iff load-session is set or (no files, no new-session flag and the load-last-session setting on); otherwise a new window is created; exactly one of the two happens |
| `Startup.LoadSessionForcesReload` | src/app/main.cpp:134-138 | the load-session flag forces a reload and no new window, whatever file names are given |
| `Startup.ClearOnlyForNewSession` | src/app/main.cpp:132-156 | inactive sessions are cleared iff a new window was created, and never after a reload |
| `Startup.ResizeOnlyWhenPositive` | src/app/main.cpp:146-148 | a resize is issued iff on the primary path with width and height both positive, and every resize carries exactly those dimensions |
| `Startup.FilesLoadedInOrder` | src/app/main.cpp:150-152 | the load calls are exactly one per file name, in input order, all with the command-line follow flag; the forwarding path loads nothing |
| `Startup.LoadsOfMain` | src/app/main.cpp:150-152 | the load calls issued by start-up are the per-file loads on the primary path and none on the forwarding path |
| `Startup.BackgroundStartsLast` | src/app/main.cpp:154-161 | background tasks start exactly once on the primary path, as the last call before the event loop, and never on the forwarding path |
| `Startup.EventLoopOnce` | src/app/main.cpp:161 | the event loop is entered exactly once on either path |
| `Startup.StartupStagesInOrder` | src/app/main.cpp:129-161 | calls come in stage order: obtain the window first, then resize, then load files, then clear inactive sessions, then start background tasks, then enter the event loop |

## Left out

- `saveToStorage` / `retrieveFromStorage`: only declared in the header, and backed by the settings store. No persistence round trip is modelled or claimed.
- The `Persistable` base class and `persistableName`: configuration plumbing with no session behaviour.
- The `LOG_INFO` traces in `add` and `findWindow`, and the log lines in `main`: logging side effects only.
- The instance coordination itself: `isSecondary`, `primaryPid`, `sendFilesToPrimaryInstance`, `reloadSession`, `newWindow`, `clearInactiveSessions` and `startBackgroundTasks` belong to `KloggApp`, which is not part of this model. `isSecondary` is an input. The others are uninterpreted actions. Primary election, inter-process messaging and their failure handling are therefore not modelled.
- `setApplicationAttributes`, `StyleManager::applyStyle` (src/app/main.cpp:130), configuration loading, and logger and crash-handler start-up: toolkit and library calls that do not affect the decision.
- A null window returned by `reloadSession`: the model assumes both window paths yield a window.
- The widths of `window_width` / `window_height`: the command-line parser is not part of this model. They are unbounded integers here, and only their sign matters to the decision.
- The contents of timeline nodes, geometry blobs and view contexts are opaque: byte sequences and strings that the store only copies. String equality of ids is equality of character sequences. Qt's UTF-16 representation is not modelled.
