/**
 * Properties of the window session kernel: the invariant every operation
 * keeps, what focus and open do to the focus flags and the stacking order,
 * and what close removes.
 */
module OSStateProps {
  import opened Wrappers
  import opened Intent
  import opened OSState

  /** The start-up session satisfies the invariant. */
  lemma InitialValid()
    ensures Valid(Initial)
    ensures Initial.highestZIndex == 10 && |Initial.windows| == 0
  {
  }

  /** Focus keeps ids unique, every window open, and stacking levels distinct and in range. */
  lemma FocusKeepsValid(s: State, appId: string)
    requires Valid(s)
    ensures Valid(Focus(s, appId))
  {
  }

  /** Open keeps the invariant, whether it focuses an existing window or mounts a new one. */
  lemma OpenKeepsValid(s: State, appId: string, title: Option<string>)
    requires Valid(s)
    ensures Valid(Open(s, appId, title))
  {
    if HasWindow(s.windows, appId) {
      FocusKeepsValid(s, appId);
    }
  }

  /** Dropping the first window keeps the invariant, and the first window clashes with none of the rest. */
  lemma ValidTail(ws: seq<Window>, h: int)
    requires Valid(State(ws, h)) && ws != []
    ensures Valid(State(ws[1..], h))
    ensures forall w :: w in ws[1..] ==> w.id != ws[0].id && w.zIndex != ws[0].zIndex
  {
    var tail := ws[1..];
    forall i, j | 0 <= i < j < |tail|
      ensures tail[i].id != tail[j].id && tail[i].zIndex != tail[j].zIndex
    {
      assert tail[i] == ws[i + 1] && tail[j] == ws[j + 1];
    }
    forall w | w in tail
      ensures w.id != ws[0].id && w.zIndex != ws[0].zIndex
    {
      var k :| 0 <= k < |tail| && tail[k] == w;
      assert ws[k + 1] == w;
    }
  }

  /** Putting a window in front of a valid list keeps the invariant when it clashes with none of them. */
  lemma ValidCons(w: Window, rest: seq<Window>, h: int)
    requires Valid(State(rest, h))
    requires w.isOpen && BaseZIndex < w.zIndex <= h
    requires forall x :: x in rest ==> x.id != w.id && x.zIndex != w.zIndex
    ensures Valid(State([w] + rest, h))
  {
    var r := [w] + rest;
    forall j | 0 < j < |r|
      ensures r[0].id != r[j].id && r[0].zIndex != r[j].zIndex
    {
      assert r[j] == rest[j - 1];
    }
    forall i, j | 0 < i < j < |r|
      ensures r[i].id != r[j].id && r[i].zIndex != r[j].zIndex
    {
      assert r[i] == rest[i - 1] && r[j] == rest[j - 1];
    }
  }

  /** The filter of `closeApplication` keeps unique ids and distinct levels below `h`. */
  lemma {:induction false} RemoveIdKeepsValid(ws: seq<Window>, id: string, h: int)
    requires Valid(State(ws, h))
    ensures Valid(State(RemoveId(ws, id), h))
  {
    if ws != [] {
      ValidTail(ws, h);
      RemoveIdKeepsValid(ws[1..], id, h);
      var rest := RemoveId(ws[1..], id);
      if ws[0].id != id {
        assert RemoveId(ws, id) == [ws[0]] + rest;
        ValidCons(ws[0], rest, h);
      }
    }
  }

  /** Close keeps the invariant. */
  lemma CloseKeepsValid(s: State, appId: string)
    requires Valid(s)
    ensures Valid(Close(s, appId))
  {
    RemoveIdKeepsValid(s.windows, appId, s.highestZIndex);
  }

  /** The switchboard keeps the invariant for every action. */
  lemma ExecuteKeepsValid(s: State, action: Action)
    requires Valid(s)
    ensures Valid(Execute(s, action))
  {
    if action.kind == OpenApplication && AppIdOf(action).Some? {
      OpenKeepsValid(s, AppIdOf(action).value, Some(PlannerTitle));
    } else if action.kind == SearchFileSystem && QueryOf(action).Some? {
      OpenKeepsValid(s, ExplorerId, Some("Search: " + QueryOf(action).value));
    }
  }

  /**
   * Right after focusing, exactly one window is focused when the id was
   * present and none when it was absent.
   */
  lemma FocusLeavesOneFocused(s: State, appId: string)
    requires DistinctIds(s.windows)
    ensures FocusedCount(Focus(s, appId).windows) == if HasWindow(s.windows, appId) then 1 else 0
  {
    DistinctIdCount(s.windows, appId);
  }

  /** A focused (or re-opened) window sits strictly above every other window. */
  lemma FocusRaisesToTop(s: State, appId: string)
    requires Valid(s)
    ensures var r := Focus(s, appId);
            forall i :: 0 <= i < |r.windows| ==>
              (r.windows[i].id == appId <==> r.windows[i].zIndex == r.highestZIndex)
  {
  }

  /** A newly mounted window sits strictly above every existing window. */
  lemma OpenNewOnTop(s: State, appId: string, title: Option<string>)
    requires Valid(s)
    requires !HasWindow(s.windows, appId)
    ensures var r := Open(s, appId, title);
            forall i :: 0 <= i < |s.windows| ==> r.windows[i].zIndex < r.windows[|s.windows|].zIndex
  {
  }

  lemma {:induction false} FocusedCountAppend(ws: seq<Window>, w: Window)
    ensures FocusedCount(ws + [w]) == FocusedCount(ws) + (if w.isFocused then 1 else 0)
  {
    if ws != [] {
      assert (ws + [w])[1..] == ws[1..] + [w];
      FocusedCountAppend(ws[1..], w);
    }
  }

  /**
   * Opening a new id does not unfocus anything: the number of focused windows
   * grows by one, so "at most one focused window" is not an invariant of open.
   */
  lemma OpenNewAddsFocused(s: State, appId: string, title: Option<string>)
    requires !HasWindow(s.windows, appId)
    ensures FocusedCount(Open(s, appId, title).windows) == FocusedCount(s.windows) + 1
  {
    var r := Open(s, appId, title);
    assert r.windows == s.windows + [r.windows[|s.windows|]];
    FocusedCountAppend(s.windows, r.windows[|s.windows|]);
  }

  /** Two fresh opens in a row leave two windows focused. */
  lemma TwoOpensTwoFocused()
    ensures FocusedCount(Open(Open(Initial, "a", None), "b", None).windows) == 2
  {
    var s1 := Open(Initial, "a", None);
    OpenNewAddsFocused(Initial, "a", None);
    assert !HasWindow(s1.windows, "b") by {
      assert s1.windows == [Window("a", DefaultTitle, true, true, 11)];
    }
    OpenNewAddsFocused(s1, "b", None);
  }

  /**
   * Opening the same id twice yields one window with that id; it keeps the
   * title of the first open and is focused.
   */
  lemma ReopenKeepsOneWindow(s: State, appId: string, t1: Option<string>, t2: Option<string>)
    requires Valid(s)
    requires !HasWindow(s.windows, appId)
    ensures var r := Open(Open(s, appId, t1), appId, t2);
            && IdCount(r.windows, appId) == 1
            && |r.windows| == |s.windows| + 1
            && r.windows[|s.windows|].id == appId
            && r.windows[|s.windows|].title == t1.GetOr(DefaultTitle)
            && r.windows[|s.windows|].isFocused
  {
    var s1 := Open(s, appId, t1);
    OpenKeepsValid(s, appId, t1);
    OpenKeepsValid(s1, appId, t2);
    DistinctIdCount(Open(s1, appId, t2).windows, appId);
  }

  /** The filter works piecewise on a concatenation. */
  lemma {:induction false} RemoveIdConcat(a: seq<Window>, b: seq<Window>, id: string)
    ensures RemoveId(a + b, id) == RemoveId(a, id) + RemoveId(b, id)
  {
    if a == [] {
      assert a + b == b;
    } else {
      assert (a + b)[1..] == a[1..] + b;
      RemoveIdConcat(a[1..], b, id);
    }
  }

  /** With unique ids, the windows on either side of window `k` do not carry its id. */
  lemma OthersLackId(ws: seq<Window>, k: nat)
    requires DistinctIds(ws)
    requires k < |ws|
    ensures !HasWindow(ws[..k], ws[k].id)
    ensures !HasWindow(ws[k + 1..], ws[k].id)
  {
    var pre, post := ws[..k], ws[k + 1..];
    forall i | 0 <= i < |pre|
      ensures pre[i].id != ws[k].id
    {
      assert pre[i] == ws[i];
    }
    forall i | 0 <= i < |post|
      ensures post[i].id != ws[k].id
    {
      assert post[i] == ws[k + 1 + i];
    }
  }

  /** Removing an id carried by one window only, with none of it on either side. */
  lemma RemoveIdSplice(pre: seq<Window>, w: Window, post: seq<Window>)
    requires !HasWindow(pre, w.id) && !HasWindow(post, w.id)
    ensures RemoveId(pre + ([w] + post), w.id) == pre + post
  {
    RemoveIdConcat(pre, [w] + post, w.id);
    RemoveIdConcat([w], post, w.id);
    assert RemoveId([w], w.id) == [];
  }

  /**
   * With unique ids, closing the id of window `k` removes exactly that window
   * and keeps the others in order.
   */
  lemma RemoveIdAt(ws: seq<Window>, k: nat)
    requires DistinctIds(ws)
    requires k < |ws|
    ensures RemoveId(ws, ws[k].id) == ws[..k] + ws[k + 1..]
  {
    OthersLackId(ws, k);
    RemoveIdOnly(ws, k);
  }

  /** Removing the id of window `k` when no window on either side carries it. */
  lemma RemoveIdOnly(ws: seq<Window>, k: nat)
    requires k < |ws|
    requires !HasWindow(ws[..k], ws[k].id) && !HasWindow(ws[k + 1..], ws[k].id)
    ensures RemoveId(ws, ws[k].id) == ws[..k] + ws[k + 1..]
  {
    SplitAround(ws, k);
    RemoveIdSplice(ws[..k], ws[k], ws[k + 1..]);
  }

  /** A sequence is its prefix, one element, and its suffix. */
  lemma SplitAround(ws: seq<Window>, k: nat)
    requires k < |ws|
    ensures ws == ws[..k] + ([ws[k]] + ws[k + 1..])
  {
  }

  /** Close of a present id removes just that window; of an absent id, nothing. */
  lemma CloseRemovesOne(s: State, k: nat)
    requires DistinctIds(s.windows)
    requires k < |s.windows|
    ensures Close(s, s.windows[k].id).windows == s.windows[..k] + s.windows[k + 1..]
  {
    RemoveIdAt(s.windows, k);
  }

  // ---------------------------------------------------------------------------
  // A whole session

  /** A direct window call or an action routed through the switchboard. */
  datatype Op =
    | OpenOp(appId: string, title: Option<string>)
    | CloseOp(appId: string)
    | FocusOp(appId: string)
    | CommandOp(action: Action)

  function Step(s: State, op: Op): State {
    match op
    case OpenOp(id, t) => Open(s, id, t)
    case CloseOp(id) => Close(s, id)
    case FocusOp(id) => Focus(s, id)
    case CommandOp(a) => Execute(s, a)
  }

  function Run(s: State, ops: seq<Op>): State
    decreases |ops|
  {
    if ops == [] then s else Run(Step(s, ops[0]), ops[1..])
  }

  /** Every single step keeps the invariant and never lowers the counter. */
  lemma StepKeepsValid(s: State, op: Op)
    requires Valid(s)
    ensures Valid(Step(s, op))
    ensures Step(s, op).highestZIndex >= s.highestZIndex
  {
    match op {
      case OpenOp(id, t) => OpenKeepsValid(s, id, t);
      case CloseOp(id) => CloseKeepsValid(s, id);
      case FocusOp(id) => FocusKeepsValid(s, id);
      case CommandOp(a) => ExecuteKeepsValid(s, a);
    }
  }

  /**
   * Over any sequence of operations the invariant holds after every step and
   * the counter never goes down, so a stacking level is never handed out twice.
   */
  lemma {:induction false} RunKeepsValid(s: State, ops: seq<Op>)
    requires Valid(s)
    ensures Valid(Run(s, ops))
    ensures Run(s, ops).highestZIndex >= s.highestZIndex
    decreases |ops|
  {
    if ops != [] {
      StepKeepsValid(s, ops[0]);
      RunKeepsValid(Step(s, ops[0]), ops[1..]);
    }
  }

  /** Dispatching `open_application` for the planner on a fresh session mounts one focused window. */
  lemma DispatchPlannerOnFreshSession()
    ensures var r := Execute(Initial, Action(OpenApplication, Some(Payload(Some("study_planner"), None))));
            && r.windows == [Window("study_planner", PlannerTitle, true, true, 11)]
            && r.highestZIndex == 11
  {
  }

  /** An `open_application` action without `app_id` changes nothing. */
  lemma DispatchWithoutAppId(s: State, query: Option<string>)
    ensures Execute(s, Action(OpenApplication, Some(Payload(None, query)))) == s
    ensures Execute(s, Action(OpenApplication, None)) == s
    ensures Execute(s, Action(OpenApplication, Some(Payload(Some(""), query)))) == s
  {
  }
}
