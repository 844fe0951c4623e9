/**
 * The window session kernel: an ordered collection of windows plus the
 * stacking counter `highestZIndex`, the three window operations, and the
 * switchboard that maps an `Intent.Action` onto them. Every operation is a
 * pure state-to-state function.
 */
module OSState {
  import opened Wrappers
  import opened Intent

  datatype Window = Window(id: string, title: string, isOpen: bool, isFocused: bool, zIndex: int)

  datatype State = State(windows: seq<Window>, highestZIndex: int)

  /** The stacking level the counter starts from; windows are stacked strictly above it. */
  const BaseZIndex := 10
  /** Title used when `openApplication` is called without one. */
  const DefaultTitle := "New Window"
  /** Title the switchboard gives every window it opens for `open_application`. */
  const PlannerTitle := "Smart Study Planner"
  const ExplorerId := "file_explorer"

  /** The session at start-up: no windows, counter at the base level. */
  const Initial := State([], BaseZIndex)

  predicate HasWindow(ws: seq<Window>, id: string) {
    exists i :: 0 <= i < |ws| && ws[i].id == id
  }

  /** Number of windows whose `isFocused` is set. */
  function FocusedCount(ws: seq<Window>): nat {
    if ws == [] then 0 else (if ws[0].isFocused then 1 else 0) + FocusedCount(ws[1..])
  }

  /** Number of windows carrying the id `id`. */
  function IdCount(ws: seq<Window>, id: string): nat {
    if ws == [] then 0 else (if ws[0].id == id then 1 else 0) + IdCount(ws[1..], id)
  }

  predicate DistinctIds(ws: seq<Window>) {
    forall i, j :: 0 <= i < j < |ws| ==> ws[i].id != ws[j].id
  }

  /**
   * What the kernel keeps true: ids are unique, every stored window is open,
   * and stacking levels are pairwise distinct and lie in (BaseZIndex, highestZIndex].
   */
  predicate Valid(s: State) {
    && s.highestZIndex >= BaseZIndex
    && DistinctIds(s.windows)
    && (forall i :: 0 <= i < |s.windows| ==>
          s.windows[i].isOpen && BaseZIndex < s.windows[i].zIndex <= s.highestZIndex)
    && (forall i, j :: 0 <= i < j < |s.windows| ==> s.windows[i].zIndex != s.windows[j].zIndex)
  }

  /** The window mapping inside `focusApplication`: the target is raised to `z`, every window loses focus otherwise. */
  function RaiseAll(ws: seq<Window>, id: string, z: int): (r: seq<Window>)
    ensures |r| == |ws|
    ensures forall i :: 0 <= i < |ws| ==>
              && r[i].id == ws[i].id && r[i].title == ws[i].title && r[i].isOpen == ws[i].isOpen
              && (ws[i].id == id ==> r[i].isFocused && r[i].zIndex == z)
              && (ws[i].id != id ==> !r[i].isFocused && r[i].zIndex == ws[i].zIndex)
    ensures FocusedCount(r) == IdCount(ws, id)
  {
    if ws == [] then []
    else
      var w := ws[0];
      var w' := if w.id == id then w.(isFocused := true, zIndex := z) else w.(isFocused := false);
      [w'] + RaiseAll(ws[1..], id, z)
  }

  /**
   * `focusApplication`: bumps the counter even when no window has the id, gives
   * the matching window focus and the new top level, and clears focus elsewhere.
   */
  function Focus(s: State, appId: string): (r: State)
    ensures r.highestZIndex == s.highestZIndex + 1
    ensures |r.windows| == |s.windows|
    ensures forall i :: 0 <= i < |s.windows| ==>
              && r.windows[i].id == s.windows[i].id && r.windows[i].title == s.windows[i].title
              && r.windows[i].isOpen == s.windows[i].isOpen
              && (s.windows[i].id == appId ==> r.windows[i].isFocused && r.windows[i].zIndex == r.highestZIndex)
              && (s.windows[i].id != appId ==> !r.windows[i].isFocused && r.windows[i].zIndex == s.windows[i].zIndex)
    ensures !HasWindow(s.windows, appId) ==> FocusedCount(r.windows) == 0
  {
    var z := s.highestZIndex + 1;
    NoIdNoCount(s.windows, appId);
    State(RaiseAll(s.windows, appId, z), z)
  }

  /**
   * `openApplication`: an id already present is only focused; a new id gets one
   * window appended, open, focused and on the new top level. Other windows keep
   * their focus flag.
   */
  function Open(s: State, appId: string, title: Option<string>): (r: State)
    ensures r.highestZIndex == s.highestZIndex + 1
    ensures HasWindow(r.windows, appId)
    ensures HasWindow(s.windows, appId) ==> r == Focus(s, appId)
    ensures !HasWindow(s.windows, appId) ==>
              && |r.windows| == |s.windows| + 1
              && r.windows[..|s.windows|] == s.windows
              && r.windows[|s.windows|] == Window(appId, title.GetOr(DefaultTitle), true, true, r.highestZIndex)
  {
    if HasWindow(s.windows, appId) then
      var r := Focus(s, appId);
      var i :| 0 <= i < |s.windows| && s.windows[i].id == appId;
      assert r.windows[i].id == appId;
      r
    else
      var z := s.highestZIndex + 1;
      var w := Window(appId, title.GetOr(DefaultTitle), true, true, z);
      var r := State(s.windows + [w], z);
      assert r.windows[|s.windows|].id == appId;
      r
  }

  /** The window filter inside `closeApplication`. */
  function RemoveId(ws: seq<Window>, id: string): (r: seq<Window>)
    ensures |r| <= |ws|
    ensures forall w :: w in r <==> w in ws && w.id != id
    ensures !HasWindow(ws, id) ==> r == ws
  {
    if ws == [] then []
    else if ws[0].id == id then RemoveId(ws[1..], id)
    else
      var rest := RemoveId(ws[1..], id);
      [ws[0]] + rest
  }

  /** `closeApplication`: drops every window with the id and leaves the counter alone. */
  function Close(s: State, appId: string): (r: State)
    ensures r.highestZIndex == s.highestZIndex
    ensures !HasWindow(r.windows, appId)
    ensures forall w :: w in r.windows <==> w in s.windows && w.id != appId
    ensures !HasWindow(s.windows, appId) ==> r == s
  {
    State(RemoveId(s.windows, appId), s.highestZIndex)
  }

  /**
   * `executeOSCommand`: `open_application` with a truthy `app_id` opens that id
   * under the planner title, `search_virtual_file_system` with a truthy `query`
   * opens the file explorer titled by the query, and everything else — a
   * missing payload or field, an empty string, type `none`, an unknown type —
   * leaves the state as it is.
   */
  function Execute(s: State, action: Action): (r: State)
    ensures action.kind == OpenApplication && AppIdOf(action).Some? ==>
              r == Open(s, AppIdOf(action).value, Some(PlannerTitle))
    ensures action.kind == SearchFileSystem && QueryOf(action).Some? ==>
              r == Open(s, ExplorerId, Some("Search: " + QueryOf(action).value))
    ensures action.kind == OpenApplication && AppIdOf(action).None? ==> r == s
    ensures action.kind == SearchFileSystem && QueryOf(action).None? ==> r == s
    ensures action.kind != OpenApplication && action.kind != SearchFileSystem ==> r == s
  {
    if action.kind == OpenApplication then
      match AppIdOf(action)
      case Some(id) => Open(s, id, Some(PlannerTitle))
      case None => s
    else if action.kind == SearchFileSystem then
      match QueryOf(action)
      case Some(q) => Open(s, ExplorerId, Some("Search: " + q))
      case None => s
    else
      s
  }

  // ---------------------------------------------------------------------------
  // Counting helpers

  /** An id no window carries is counted zero times. */
  lemma {:induction false} NoIdNoCount(ws: seq<Window>, id: string)
    ensures !HasWindow(ws, id) ==> IdCount(ws, id) == 0
  {
    if ws != [] && !HasWindow(ws, id) {
      assert ws[0].id != id;
      NoIdNoCount(ws[1..], id);
    }
  }

  /** With unique ids, a present id is carried by exactly one window. */
  lemma {:induction false} DistinctIdCount(ws: seq<Window>, id: string)
    requires DistinctIds(ws)
    ensures IdCount(ws, id) == if HasWindow(ws, id) then 1 else 0
  {
    if ws == [] {
    } else if ws[0].id == id {
      NoIdNoCount(ws[1..], id);
    } else {
      assert HasWindow(ws, id) <==> HasWindow(ws[1..], id) by {
        if HasWindow(ws, id) {
          var k :| 0 <= k < |ws| && ws[k].id == id;
          assert ws[1..][k - 1].id == id;
        }
      }
      DistinctIdCount(ws[1..], id);
    }
  }
}
