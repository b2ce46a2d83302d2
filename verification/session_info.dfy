/**
  The session store of the log viewer: an in-memory, insertion-ordered list of
  windows, each holding an opaque geometry blob and the ordered list of files
  open in it. Every operation is keyed by window id; an id that is not present
  gives an empty result or leaves the session as it was.

  The store is a value here: each mutator returns the new session.
 */
module SessionInfo {
  import opened Wrappers

  type WindowId = string

  /** A byte array whose contents belong to the toolkit (QByteArray). */
  type Bytes = seq<bv8>

  /** The unsigned 64-bit range of `topLine`. */
  newtype u64 = x: int | 0 <= x < 0x1_0000_0000_0000_0000

  /** A timeline marker; the store only copies it, so its payload stays opaque. */
  datatype TimelineNodeInfo = TimelineNodeInfo(payload: Bytes)

  /** One log file open in a window, with the line shown at the top of its view. */
  datatype OpenFile = OpenFile(
    fileName: string,
    topLine: u64,
    timelineNodes: seq<TimelineNodeInfo>,
    viewContext: string)

  datatype Window = Window(id: WindowId, geometry: Bytes, openFiles: seq<OpenFile>)

  /** All windows of the session, in creation order. */
  datatype Session = Session(windows: seq<Window>)

  /** The session invariant the operations keep: no two windows share an id. */
  ghost predicate UniqueIds(s: Session) {
    forall i, j :: 0 <= i < j < |s.windows| ==> s.windows[i].id != s.windows[j].id
  }

  /** Index `i` holds the first window whose id is `id`. */
  ghost predicate FirstWithId(ws: seq<Window>, id: WindowId, i: int) {
    && 0 <= i < |ws|
    && ws[i].id == id
    && forall j :: 0 <= j < i ==> ws[j].id != id
  }

  /** The ids of `ws`, in the same order. */
  function Ids(ws: seq<Window>): (ids: seq<WindowId>)
    ensures |ids| == |ws|
    ensures forall i :: 0 <= i < |ws| ==> ids[i] == ws[i].id
    ensures forall id :: id in ids <==> exists i :: 0 <= i < |ws| && ws[i].id == id
  {
    if ws == [] then [] else [ws[0].id] + Ids(ws[1..])
  }

  /** The position of the first window with id `id`, as a linear search would find it. */
  function FindWindow(ws: seq<Window>, id: WindowId): (r: Option<nat>)
    ensures r.Some? ==> FirstWithId(ws, id, r.value)
    ensures r.None? <==> id !in Ids(ws)
  {
    if ws == [] then None
    else if ws[0].id == id then Some(0)
    else match FindWindow(ws[1..], id)
      case None => None
      case Some(k) => Some(k + 1)
  }

  /** The ids of all windows, in creation order. */
  function Windows(s: Session): (ids: seq<WindowId>)
    ensures |ids| == |s.windows|
    ensures forall i :: 0 <= i < |s.windows| ==> ids[i] == s.windows[i].id
  {
    Ids(s.windows)
  }

  /** Creates a window with no geometry and no files, unless the id is already taken. */
  function Add(s: Session, id: WindowId): (r: Session)
    ensures id in Windows(s) ==> r == s
    ensures id !in Windows(s) ==>
      && Windows(r) == Windows(s) + [id]
      && r.windows[..|s.windows|] == s.windows
      && Geometry(r, id) == []
      && OpenFiles(r, id) == []
  {
    match FindWindow(s.windows, id)
    case Some(_) => s
    case None => Session(s.windows + [Window(id, [], [])])
  }

  /**
    Removes the first window with id `id`, but only while more than one window
    exists. The flag tells whether the session had more than one window, not
    whether a window was found.
   */
  function Remove(s: Session, id: WindowId): (r: (bool, Session))
    ensures r.0 <==> |s.windows| > 1
    ensures !r.0 ==> r.1 == s
    ensures id !in Windows(s) ==> r.1 == s
    ensures 1 <= |s.windows| ==> 1 <= |r.1.windows|
    ensures r.0 && id in Windows(s) ==>
      exists i :: FirstWithId(s.windows, id, i)
        && |r.1.windows| == |s.windows| - 1
        && r.1.windows[..i] == s.windows[..i]
        && r.1.windows[i..] == s.windows[i + 1..]
  {
    if |s.windows| > 1 then
      match FindWindow(s.windows, id)
      case None => (true, s)
      case Some(i) => (true, Session(s.windows[..i] + s.windows[i + 1..]))
    else
      (false, s)
  }

  /** The geometry of window `id`, or the empty blob when there is none. */
  function Geometry(s: Session, id: WindowId): (g: Bytes)
    ensures id !in Windows(s) ==> g == []
    ensures forall i :: FirstWithId(s.windows, id, i) ==> g == s.windows[i].geometry
  {
    match FindWindow(s.windows, id)
    case None => []
    case Some(i) => s.windows[i].geometry
  }

  /** The files open in window `id`, in tab order, or none when there is no such window. */
  function OpenFiles(s: Session, id: WindowId): (fs: seq<OpenFile>)
    ensures id !in Windows(s) ==> fs == []
    ensures forall i :: FirstWithId(s.windows, id, i) ==> fs == s.windows[i].openFiles
  {
    match FindWindow(s.windows, id)
    case None => []
    case Some(i) => s.windows[i].openFiles
  }

  /** Stores `g` as the geometry of window `id`; an unknown id is ignored. */
  function SetGeometry(s: Session, id: WindowId, g: Bytes): (r: Session)
    ensures id !in Windows(s) ==> r == s
    ensures Windows(r) == Windows(s)
    ensures id in Windows(s) ==> Geometry(r, id) == g
    ensures OpenFiles(r, id) == OpenFiles(s, id)
    ensures |r.windows| == |s.windows|
    ensures forall j :: 0 <= j < |s.windows| && !FirstWithId(s.windows, id, j) ==> r.windows[j] == s.windows[j]
    ensures forall other :: other != id ==>
      Geometry(r, other) == Geometry(s, other) && OpenFiles(r, other) == OpenFiles(s, other)
  {
    match FindWindow(s.windows, id)
    case None => s
    case Some(i) =>
      var r := Session(s.windows[i := s.windows[i].(geometry := g)]);
      ReplaceAt(s, i, r.windows[i]);
      r
  }

  /** Replaces the whole file list of window `id` by `fs`; an unknown id is ignored. */
  function SetOpenFiles(s: Session, id: WindowId, fs: seq<OpenFile>): (r: Session)
    ensures id !in Windows(s) ==> r == s
    ensures Windows(r) == Windows(s)
    ensures id in Windows(s) ==> OpenFiles(r, id) == fs
    ensures Geometry(r, id) == Geometry(s, id)
    ensures |r.windows| == |s.windows|
    ensures forall j :: 0 <= j < |s.windows| && !FirstWithId(s.windows, id, j) ==> r.windows[j] == s.windows[j]
    ensures forall other :: other != id ==>
      Geometry(r, other) == Geometry(s, other) && OpenFiles(r, other) == OpenFiles(s, other)
  {
    match FindWindow(s.windows, id)
    case None => s
    case Some(i) =>
      var r := Session(s.windows[i := s.windows[i].(openFiles := fs)]);
      ReplaceAt(s, i, r.windows[i]);
      r
  }

  /**
    Replacing window `i` by one with the same id keeps every lookup where it
    was, and leaves what every other id resolves to untouched.
   */
  lemma ReplaceAt(s: Session, i: nat, w: Window)
    requires i < |s.windows| && w.id == s.windows[i].id
    ensures Windows(Session(s.windows[i := w])) == Windows(s)
    ensures forall id :: FindWindow(s.windows[i := w], id) == FindWindow(s.windows, id)
    ensures forall other :: other != w.id ==>
      && Geometry(Session(s.windows[i := w]), other) == Geometry(s, other)
      && OpenFiles(Session(s.windows[i := w]), other) == OpenFiles(s, other)
  {
    var r := Session(s.windows[i := w]);
    SameIdsSameLookup(s.windows, r.windows);
    forall other | other != w.id
      ensures Geometry(r, other) == Geometry(s, other) && OpenFiles(r, other) == OpenFiles(s, other)
    {
      match FindWindow(s.windows, other)
      case None =>
      case Some(j) => assert j != i;
    }
  }

  /** Two window lists with the same ids resolve every id to the same position. */
  lemma SameIdsSameLookup(a: seq<Window>, b: seq<Window>)
    requires |a| == |b|
    requires forall i :: 0 <= i < |a| ==> a[i].id == b[i].id
    ensures Ids(a) == Ids(b)
    ensures forall id :: FindWindow(a, id) == FindWindow(b, id)
  {
    forall id
      ensures FindWindow(a, id) == FindWindow(b, id)
    {
      FirstIsUnique(a, id);
      FirstIsUnique(b, id);
    }
  }

  /** The first window with a given id has only one position. */
  lemma FirstIsUnique(ws: seq<Window>, id: WindowId)
    ensures forall i, j :: FirstWithId(ws, id, i) && FirstWithId(ws, id, j) ==> i == j
  {
  }

  /** Adding an id that is already there changes nothing, so a second add is a no-op. */
  lemma AddIdempotent(s: Session, id: WindowId)
    ensures id in Windows(Add(s, id))
    ensures Add(Add(s, id), id) == Add(s, id)
  {
  }

  /** `add` keeps ids distinct, and afterwards the id is held by exactly one window. */
  lemma AddKeepsIdsUnique(s: Session, id: WindowId)
    requires UniqueIds(s)
    ensures UniqueIds(Add(s, id))
    ensures exists i :: 0 <= i < |Add(s, id).windows| && Add(s, id).windows[i].id == id
    ensures forall i, j :: 0 <= i < j < |Add(s, id).windows| ==>
      Add(s, id).windows[i].id != id || Add(s, id).windows[j].id != id
  {
  }

  /** After deleting position `i`, the windows before it stay put and the ones after it move down by one. */
  lemma DeleteShift(ws: seq<Window>, i: nat, rs: seq<Window>)
    requires i < |ws| && rs == ws[..i] + ws[i + 1..]
    ensures |rs| == |ws| - 1
    ensures forall k :: 0 <= k < i ==> rs[k] == ws[k]
    ensures forall k :: i <= k < |rs| ==> rs[k] == ws[k + 1]
  {
  }

  /** Deleting position `i` keeps ids distinct. */
  lemma DeleteAtKeepsIdsUnique(s: Session, i: nat)
    requires UniqueIds(s)
    requires i < |s.windows|
    ensures UniqueIds(Session(s.windows[..i] + s.windows[i + 1..]))
  {
    var ws := s.windows;
    var rs := ws[..i] + ws[i + 1..];
    DeleteShift(ws, i, rs);
    forall a, b | 0 <= a < b < |rs|
      ensures rs[a].id != rs[b].id
    {
      assert rs[a] == ws[if a < i then a else a + 1];
      assert rs[b] == ws[if b < i then b else b + 1];
    }
  }

  /** With distinct ids, deleting position `i` drops exactly its id from the id list. */
  lemma DeleteAtDropsId(s: Session, i: nat)
    requires UniqueIds(s)
    requires i < |s.windows|
    ensures forall x :: x in Windows(Session(s.windows[..i] + s.windows[i + 1..])) <==>
      x in Windows(s) && x != s.windows[i].id
  {
    var ws := s.windows;
    var rs := ws[..i] + ws[i + 1..];
    DeleteShift(ws, i, rs);
    var after := Windows(Session(rs));
    var before := Windows(s);
    forall x
      ensures x in after <==> x in before && x != ws[i].id
    {
      if x in after {
        var k :| 0 <= k < |after| && after[k] == x;
        var k' := if k < i then k else k + 1;
        assert rs[k] == ws[k'] && k' != i;
        assert before[k'] == x;
      }
      if x in before && x != ws[i].id {
        var k :| 0 <= k < |before| && before[k] == x;
        assert k != i;
        var k' := if k < i then k else k - 1;
        assert rs[k'] == ws[k];
        assert after[k'] == x;
      }
    }
  }

  /**
    With distinct ids, a removal from a multi-window session drops exactly the
    id `id` from the id list and keeps the ids distinct.
   */
  lemma RemoveKeepsIdsUnique(s: Session, id: WindowId)
    requires UniqueIds(s)
    ensures UniqueIds(Remove(s, id).1)
    ensures |s.windows| > 1 ==>
      forall x :: x in Windows(Remove(s, id).1) <==> x in Windows(s) && x != id
  {
    if |s.windows| > 1 {
      match FindWindow(s.windows, id)
      case None =>
      case Some(i) =>
        DeleteAtKeepsIdsUnique(s, i);
        DeleteAtDropsId(s, i);
    }
  }

  /** Setting a geometry or a file list never changes which ids exist. */
  lemma SettersKeepIdsUnique(s: Session, id: WindowId, g: Bytes, fs: seq<OpenFile>)
    requires UniqueIds(s)
    ensures UniqueIds(SetGeometry(s, id, g))
    ensures UniqueIds(SetOpenFiles(s, id, fs))
  {
  }

  /** The mutating calls a caller can make on the store. */
  datatype Command =
    | AddWindow(id: WindowId)
    | RemoveWindow(id: WindowId)
    | SetGeometryOf(id: WindowId, geometry: Bytes)
    | SetOpenFilesOf(id: WindowId, files: seq<OpenFile>)

  function Apply(s: Session, c: Command): Session {
    match c
    case AddWindow(id) => Add(s, id)
    case RemoveWindow(id) => Remove(s, id).1
    case SetGeometryOf(id, g) => SetGeometry(s, id, g)
    case SetOpenFilesOf(id, fs) => SetOpenFiles(s, id, fs)
  }

  function Run(s: Session, cs: seq<Command>): Session
    decreases |cs|
  {
    if cs == [] then s else Run(Apply(s, cs[0]), cs[1..])
  }

  /**
    Any sequence of calls keeps window ids distinct, and a session that has a
    window never loses its last one.
   */
  lemma {:induction false} RunKeepsInvariant(s: Session, cs: seq<Command>)
    requires UniqueIds(s)
    ensures UniqueIds(Run(s, cs))
    ensures 1 <= |s.windows| ==> 1 <= |Run(s, cs).windows|
    decreases |cs|
  {
    if cs != [] {
      match cs[0] {
        case AddWindow(id) => AddKeepsIdsUnique(s, id);
        case RemoveWindow(id) => RemoveKeepsIdsUnique(s, id);
        case SetGeometryOf(id, g) => SettersKeepIdsUnique(s, id, g, []);
        case SetOpenFilesOf(id, fs) => SettersKeepIdsUnique(s, id, [], fs);
      }
      RunKeepsInvariant(Apply(s, cs[0]), cs[1..]);
    }
  }
}
