/**
  The start-up decisions of the log viewer's entry point. Given the parsed
  command line, the "load last session" setting and whether another instance
  already runs, it either forwards the files to that primary instance or
  restores / creates a window, applies the requested size, opens the files,
  prunes inactive sessions when a fresh session was started, and starts the
  background tasks. Every call into the application object or a window is an
  uninterpreted action; the decision is the sequence of actions issued.
 */
module Startup {

  /** The command-line parameters that the decision reads. */
  datatype Parameters = Parameters(
    multiInstance: bool,
    loadSession: bool,
    newSession: bool,
    filenames: seq<string>,
    followFile: bool,
    windowWidth: int,
    windowHeight: int)

  /** The calls issued, in order. */
  datatype Action =
    | SendFilesToPrimary(files: seq<string>)
    | ReloadSession
    | NewWindow
    | ReloadGeometry
    | Show
    | Resize(width: int, height: int)
    | LoadInitialFile(fileName: string, follow: bool)
    | ClearInactiveSessions
    | StartBackgroundTasks
    | RunEventLoop

  /** How many times `a` occurs in `acts`. */
  function Count(acts: seq<Action>, a: Action): (n: nat)
    ensures n <= |acts|
    ensures n == 0 <==> a !in acts
  {
    if acts == [] then 0 else (if acts[0] == a then 1 else 0) + Count(acts[1..], a)
  }

  lemma {:induction false} CountConcat(x: seq<Action>, y: seq<Action>, a: Action)
    ensures Count(x + y, a) == Count(x, a) + Count(y, a)
    decreases |x|
  {
    if x == [] {
      assert x + y == y;
    } else {
      assert (x + y)[1..] == x[1..] + y;
      CountConcat(x[1..], y, a);
    }
  }

  /** One file-loading call per name, in order, all with the same follow flag. */
  function LoadActions(files: seq<string>, follow: bool): (acts: seq<Action>)
    ensures |acts| == |files|
    ensures forall i :: 0 <= i < |files| ==> acts[i] == LoadInitialFile(files[i], follow)
    ensures forall a :: a in acts ==> a.LoadInitialFile? && a.fileName in files && a.follow == follow
  {
    if files == [] then [] else [LoadInitialFile(files[0], follow)] + LoadActions(files[1..], follow)
  }

  /** Obtaining the first window: restore the previous session, or create, size and show one. */
  function WindowActions(startNewSession: bool): seq<Action> {
    if startNewSession then [NewWindow, ReloadGeometry, Show] else [ReloadSession]
  }

  function ResizeActions(width: int, height: int): seq<Action> {
    if width > 0 && height > 0 then [Resize(width, height)] else []
  }

  function ClearActions(startNewSession: bool): seq<Action> {
    if startNewSession then [ClearInactiveSessions] else []
  }

  /** A new window is opened unless a reload is asked for, or implied by an empty file list. */
  predicate StartsNewSession(p: Parameters, loadLastSession: bool) {
    !(p.loadSession || (|p.filenames| == 0 && !p.newSession && loadLastSession))
  }

  /** The actions of the entry point, up to and including entering the event loop. */
  function MainActions(p: Parameters, loadLastSession: bool, isSecondary: bool): (acts: seq<Action>)
    ensures |acts| >= 2 && acts[|acts| - 1] == RunEventLoop
  {
    if !p.multiInstance && isSecondary then
      [SendFilesToPrimary(p.filenames), RunEventLoop]
    else
      var startNewSession := StartsNewSession(p, loadLastSession);
      WindowActions(startNewSession) + ResizeActions(p.windowWidth, p.windowHeight)
        + LoadActions(p.filenames, p.followFile) + ClearActions(startNewSession)
        + [StartBackgroundTasks, RunEventLoop]
  }

  /** The primary-path actions, as the sum of the segments they are built from. */
  lemma {:induction false} CountMain(p: Parameters, loadLastSession: bool, isSecondary: bool, a: Action)
    ensures Count(MainActions(p, loadLastSession, isSecondary), a) ==
      if !p.multiInstance && isSecondary then
        Count([SendFilesToPrimary(p.filenames), RunEventLoop], a)
      else
        Count(WindowActions(StartsNewSession(p, loadLastSession)), a)
        + Count(ResizeActions(p.windowWidth, p.windowHeight), a)
        + Count(LoadActions(p.filenames, p.followFile), a)
        + Count(ClearActions(StartsNewSession(p, loadLastSession)), a)
        + Count([StartBackgroundTasks, RunEventLoop], a)
  {
    if !(!p.multiInstance && isSecondary) {
      var n := StartsNewSession(p, loadLastSession);
      var w := WindowActions(n);
      var r := ResizeActions(p.windowWidth, p.windowHeight);
      var l := LoadActions(p.filenames, p.followFile);
      var c := ClearActions(n);
      var t := [StartBackgroundTasks, RunEventLoop];
      CountConcat(w, r, a);
      CountConcat(w + r, l, a);
      CountConcat(w + r + l, c, a);
      CountConcat(w + r + l + c, t, a);
    }
  }

  /** Files are forwarded exactly when single-instance mode meets a running primary; that path issues nothing else. */
  lemma ForwardOnlyFromSecondary(p: Parameters, loadLastSession: bool, isSecondary: bool)
    ensures SendFilesToPrimary(p.filenames) in MainActions(p, loadLastSession, isSecondary)
      <==> !p.multiInstance && isSecondary
    ensures forall a :: a in MainActions(p, loadLastSession, isSecondary) && a.SendFilesToPrimary? ==>
      a == SendFilesToPrimary(p.filenames)
    ensures !p.multiInstance && isSecondary ==>
      forall a :: a in MainActions(p, loadLastSession, isSecondary) ==>
        a == SendFilesToPrimary(p.filenames) || a == RunEventLoop
  {
    forall a | a in MainActions(p, loadLastSession, isSecondary)
      ensures !p.multiInstance && isSecondary ==> a == SendFilesToPrimary(p.filenames) || a == RunEventLoop
      ensures a.SendFilesToPrimary? ==> !p.multiInstance && isSecondary && a == SendFilesToPrimary(p.filenames)
    {
      CountMain(p, loadLastSession, isSecondary, a);
    }
  }

  /**
    On the primary path the previous session is restored exactly on an
    explicit request, or when no file is given, no new session is asked for
    and the setting is on; otherwise one new window is opened.
   */
  lemma SessionChoice(p: Parameters, loadLastSession: bool, isSecondary: bool)
    requires p.multiInstance || !isSecondary
    ensures ReloadSession in MainActions(p, loadLastSession, isSecondary) <==>
      p.loadSession || (|p.filenames| == 0 && !p.newSession && loadLastSession)
    ensures NewWindow in MainActions(p, loadLastSession, isSecondary) <==>
      !(p.loadSession || (|p.filenames| == 0 && !p.newSession && loadLastSession))
    ensures Count(MainActions(p, loadLastSession, isSecondary), ReloadSession)
      + Count(MainActions(p, loadLastSession, isSecondary), NewWindow) == 1
  {
    CountMain(p, loadLastSession, isSecondary, ReloadSession);
    CountMain(p, loadLastSession, isSecondary, NewWindow);
  }

  /** An explicit load-session flag restores the session even when files are given. */
  lemma LoadSessionForcesReload(p: Parameters, loadLastSession: bool, isSecondary: bool)
    requires p.multiInstance || !isSecondary
    requires p.loadSession
    ensures ReloadSession in MainActions(p, loadLastSession, isSecondary)
    ensures NewWindow !in MainActions(p, loadLastSession, isSecondary)
  {
    SessionChoice(p, loadLastSession, isSecondary);
  }

  /** Inactive sessions are cleared exactly when a new window, not a restored session, was opened. */
  lemma ClearOnlyForNewSession(p: Parameters, loadLastSession: bool, isSecondary: bool)
    ensures ClearInactiveSessions in MainActions(p, loadLastSession, isSecondary) <==>
      NewWindow in MainActions(p, loadLastSession, isSecondary)
    ensures ClearInactiveSessions in MainActions(p, loadLastSession, isSecondary) ==>
      ReloadSession !in MainActions(p, loadLastSession, isSecondary)
  {
    CountMain(p, loadLastSession, isSecondary, ClearInactiveSessions);
    CountMain(p, loadLastSession, isSecondary, NewWindow);
    CountMain(p, loadLastSession, isSecondary, ReloadSession);
  }

  /** A resize is issued exactly when both dimensions are positive, and only with those dimensions. */
  lemma ResizeOnlyWhenPositive(p: Parameters, loadLastSession: bool, isSecondary: bool)
    ensures Resize(p.windowWidth, p.windowHeight) in MainActions(p, loadLastSession, isSecondary) <==>
      (p.multiInstance || !isSecondary) && p.windowWidth > 0 && p.windowHeight > 0
    ensures forall a :: a in MainActions(p, loadLastSession, isSecondary) && a.Resize? ==>
      a == Resize(p.windowWidth, p.windowHeight)
  {
    forall a | a in MainActions(p, loadLastSession, isSecondary)
      ensures a.Resize? ==> a == Resize(p.windowWidth, p.windowHeight)
    {
      CountMain(p, loadLastSession, isSecondary, a);
    }
    CountMain(p, loadLastSession, isSecondary, Resize(p.windowWidth, p.windowHeight));
  }

  /** Background tasks start exactly once on the primary path, as the last call before the event loop, and never when forwarding. */
  lemma BackgroundStartsLast(p: Parameters, loadLastSession: bool, isSecondary: bool)
    ensures Count(MainActions(p, loadLastSession, isSecondary), StartBackgroundTasks) ==
      (if p.multiInstance || !isSecondary then 1 else 0)
    ensures p.multiInstance || !isSecondary ==>
      var acts := MainActions(p, loadLastSession, isSecondary);
      acts[|acts| - 2] == StartBackgroundTasks
  {
    CountMain(p, loadLastSession, isSecondary, StartBackgroundTasks);
  }

  /** The event loop is entered exactly once, on both paths. */
  lemma EventLoopOnce(p: Parameters, loadLastSession: bool, isSecondary: bool)
    ensures Count(MainActions(p, loadLastSession, isSecondary), RunEventLoop) == 1
  {
    CountMain(p, loadLastSession, isSecondary, RunEventLoop);
  }

  /** The file-loading calls of `acts`, in the order they are issued. */
  function Loads(acts: seq<Action>): seq<Action> {
    if acts == [] then []
    else (if acts[0].LoadInitialFile? then [acts[0]] else []) + Loads(acts[1..])
  }

  lemma {:induction false} LoadsConcat(x: seq<Action>, y: seq<Action>)
    ensures Loads(x + y) == Loads(x) + Loads(y)
    decreases |x|
  {
    if x == [] {
      assert x + y == y;
    } else {
      assert (x + y)[1..] == x[1..] + y;
      LoadsConcat(x[1..], y);
    }
  }

  /** A sequence made only of file-loading calls is its own list of loads. */
  lemma {:induction false} LoadsOfLoads(acts: seq<Action>)
    requires forall a :: a in acts ==> a.LoadInitialFile?
    ensures Loads(acts) == acts
    decreases |acts|
  {
    if acts != [] {
      assert forall a :: a in acts[1..] ==> a in acts;
      LoadsOfLoads(acts[1..]);
    }
  }

  lemma {:induction false} NoLoads(acts: seq<Action>)
    requires forall a :: a in acts ==> !a.LoadInitialFile?
    ensures Loads(acts) == []
    decreases |acts|
  {
    if acts != [] {
      assert forall a :: a in acts[1..] ==> a in acts;
      NoLoads(acts[1..]);
    }
  }

  /**
    On the primary path there is one load per file name, in the order the
    names were given, each with the command-line follow flag; forwarding loads
    nothing.
   */
  lemma FilesLoadedInOrder(p: Parameters, loadLastSession: bool, isSecondary: bool)
    ensures |Loads(MainActions(p, loadLastSession, isSecondary))| ==
      (if p.multiInstance || !isSecondary then |p.filenames| else 0)
    ensures forall i :: 0 <= i < |Loads(MainActions(p, loadLastSession, isSecondary))| ==>
      Loads(MainActions(p, loadLastSession, isSecondary))[i] == LoadInitialFile(p.filenames[i], p.followFile)
  {
    LoadsOfMain(p, loadLastSession, isSecondary);
  }

  lemma LoadsOfMain(p: Parameters, loadLastSession: bool, isSecondary: bool)
    ensures Loads(MainActions(p, loadLastSession, isSecondary)) ==
      if !p.multiInstance && isSecondary then [] else LoadActions(p.filenames, p.followFile)
  {
    if !p.multiInstance && isSecondary {
      NoLoads([SendFilesToPrimary(p.filenames), RunEventLoop]);
    } else {
      var n := StartsNewSession(p, loadLastSession);
      var w := WindowActions(n);
      var r := ResizeActions(p.windowWidth, p.windowHeight);
      var l := LoadActions(p.filenames, p.followFile);
      var c := ClearActions(n);
      var t := [StartBackgroundTasks, RunEventLoop];
      assert MainActions(p, loadLastSession, isSecondary) == w + r + l + c + t;
      NoLoads(w);
      NoLoads(r);
      NoLoads(c);
      NoLoads(t);
      LoadsOfLoads(l);
      LoadsConcat(w, r);
      assert Loads(w + r) == [];
      LoadsConcat(w + r, l);
      assert Loads(w + r + l) == l;
      LoadsConcat(w + r + l, c);
      assert Loads(w + r + l + c) == l;
      LoadsConcat(w + r + l + c, t);
    }
  }

  /** The stage of start-up an action belongs to. */
  function Stage(a: Action): nat {
    match a
    case SendFilesToPrimary(_) => 0
    case ReloadSession => 0
    case NewWindow => 0
    case ReloadGeometry => 0
    case Show => 0
    case Resize(_, _) => 1
    case LoadInitialFile(_, _) => 2
    case ClearInactiveSessions => 3
    case StartBackgroundTasks => 4
    case RunEventLoop => 5
  }

  ghost predicate StagesInOrder(acts: seq<Action>) {
    forall i, j :: 0 <= i < j < |acts| ==> Stage(acts[i]) <= Stage(acts[j])
  }

  ghost predicate StagesWithin(acts: seq<Action>, lo: nat, hi: nat) {
    forall i :: 0 <= i < |acts| ==> lo <= Stage(acts[i]) <= hi
  }

  /** A sequence whose every action is of one stage is in order. */
  lemma OneStage(acts: seq<Action>, k: nat)
    requires StagesWithin(acts, k, k)
    ensures StagesInOrder(acts)
  {
  }

  lemma ConcatInOrder(x: seq<Action>, y: seq<Action>, lo: nat, k: nat, hi: nat)
    requires lo <= k <= hi
    requires StagesInOrder(x) && StagesWithin(x, lo, k)
    requires StagesInOrder(y) && StagesWithin(y, k, hi)
    ensures StagesInOrder(x + y) && StagesWithin(x + y, lo, hi)
  {
    var xy := x + y;
    forall i, j | 0 <= i < j < |xy|
      ensures Stage(xy[i]) <= Stage(xy[j])
    {
      if j < |x| {
        assert xy[i] == x[i] && xy[j] == x[j];
      } else if i >= |x| {
        assert xy[i] == y[i - |x|] && xy[j] == y[j - |x|];
      } else {
        assert xy[i] == x[i] && xy[j] == y[j - |x|];
      }
    }
    forall i | 0 <= i < |xy|
      ensures lo <= Stage(xy[i]) <= hi
    {
      if i < |x| {
        assert xy[i] == x[i];
      } else {
        assert xy[i] == y[i - |x|];
      }
    }
  }

  lemma SegmentStages(p: Parameters, n: bool)
    ensures StagesInOrder(WindowActions(n)) && StagesWithin(WindowActions(n), 0, 0)
    ensures StagesInOrder(ResizeActions(p.windowWidth, p.windowHeight))
      && StagesWithin(ResizeActions(p.windowWidth, p.windowHeight), 1, 1)
    ensures StagesInOrder(LoadActions(p.filenames, p.followFile))
      && StagesWithin(LoadActions(p.filenames, p.followFile), 2, 2)
    ensures StagesInOrder(ClearActions(n)) && StagesWithin(ClearActions(n), 3, 3)
  {
    OneStage(WindowActions(n), 0);
    OneStage(ResizeActions(p.windowWidth, p.windowHeight), 1);
    OneStage(LoadActions(p.filenames, p.followFile), 2);
    OneStage(ClearActions(n), 3);
  }

  /**
    The calls come in stages: the window is obtained first, then resized, then
    the files are loaded, then inactive sessions are cleared, then background
    tasks start, and the event loop comes last.
   */
  lemma StartupStagesInOrder(p: Parameters, loadLastSession: bool, isSecondary: bool)
    ensures StagesInOrder(MainActions(p, loadLastSession, isSecondary))
    ensures p.multiInstance || !isSecondary ==> Stage(MainActions(p, loadLastSession, isSecondary)[0]) == 0
  {
    if !(!p.multiInstance && isSecondary) {
      var n := StartsNewSession(p, loadLastSession);
      var w := WindowActions(n);
      var r := ResizeActions(p.windowWidth, p.windowHeight);
      var l := LoadActions(p.filenames, p.followFile);
      var c := ClearActions(n);
      var t := [StartBackgroundTasks, RunEventLoop];
      SegmentStages(p, n);
      assert StagesInOrder(t) && StagesWithin(t, 4, 5);
      ConcatInOrder(w, r, 0, 0, 1);
      ConcatInOrder(w + r, l, 0, 2, 2);
      ConcatInOrder(w + r + l, c, 0, 3, 3);
      ConcatInOrder(w + r + l + c, t, 0, 4, 5);
      assert MainActions(p, loadLastSession, isSecondary) == w + r + l + c + t;
      assert MainActions(p, loadLastSession, isSecondary)[0] == w[0];
    }
  }
}
