/**
 * The mock orchestrator behind the command endpoint: a prompt is lower-cased
 * and classified by substring tests into one of three actions, and a search
 * query is extracted with the regular expression `(?:search|find)\s+(.+)`.
 * The regular expression is modelled exactly as a backtracking matcher runs it
 * on ASCII text: the leftmost start wins, `\s+` is greedy and gives characters
 * back one at a time, and `.+` stops at the first line terminator.
 */
module OsCommand {
  import opened Wrappers
  import opened JsText
  import opened Intent

  /** The endpoint's answer: a 400 error body, or a dialogue line with an action. */
  datatype Response =
    | Rejected(status: int, error: string)
    | Answered(dialogue: string, action: Action)

  const BadRequest := 400
  const NoPromptError := "No prompt provided"
  const PlannerAppId := "study_planner"
  const FallbackQuery := "recent files"

  /**
   * One way the regular expression can match: the keyword (`search`, length 6,
   * or `find`, length 4) starts at `start`, `\s+` takes `spaces` characters,
   * and the capture group starts right after them.
   */
  datatype RegexMatch = RegexMatch(start: nat, keyword: nat, spaces: nat)

  /** Length of the keyword alternative that matches at `p`, or 0 when neither does. */
  function KeywordAt(s: string, p: nat): (r: nat)
    ensures r == 6 <==> OccursAt(s, p, "search")
    ensures r == 4 <==> OccursAt(s, p, "find")
    ensures r == 0 || r == 4 || r == 6
  {
    if OccursAt(s, p, "search") then
      assert s[p] == 's';
      6
    else if OccursAt(s, p, "find") then 4
    else 0
  }

  /** The start index of a match's capture group. */
  function CaptureStart(m: RegexMatch): nat {
    m.start + m.keyword + m.spaces
  }

  /** `m` is an accepting run of `(?:search|find)\s+.` on `s` (the capture group needs one character). */
  ghost predicate Matches(s: string, m: RegexMatch) {
    && (m.keyword == 6 || m.keyword == 4)
    && KeywordAt(s, m.start) == m.keyword
    && m.spaces >= 1
    && CaptureStart(m) < |s|
    && (forall i :: m.start + m.keyword <= i < CaptureStart(m) ==> IsSpace(s[i]))
    && !IsLineTerminator(s[CaptureStart(m)])
  }

  /** Number of white-space characters from index `q` on. */
  function SpaceRun(s: string, q: nat): (r: nat)
    requires q <= |s|
    ensures q + r <= |s|
    ensures forall i :: q <= i < q + r ==> IsSpace(s[i])
    ensures q + r < |s| ==> !IsSpace(s[q + r])
    decreases |s| - q
  {
    if q < |s| && IsSpace(s[q]) then 1 + SpaceRun(s, q + 1) else 0
  }

  /** Number of characters other than line terminators from index `q` on: what `.+` can take. */
  function LineRun(s: string, q: nat): (r: nat)
    requires q <= |s|
    ensures q + r <= |s|
    ensures forall i :: q <= i < q + r ==> !IsLineTerminator(s[i])
    ensures q + r < |s| ==> IsLineTerminator(s[q + r])
    decreases |s| - q
  {
    if q < |s| && !IsLineTerminator(s[q]) then 1 + LineRun(s, q + 1) else 0
  }

  /**
   * Backtracking of the greedy `\s+` at `q`: starting from `j` characters, give
   * one back until `.` can match the next character; 0 when even one white-space
   * character leaves nothing for `.`.
   */
  function GreedySpaces(s: string, q: nat, j: nat): (r: nat)
    requires q + j <= |s|
    ensures r <= j
    ensures r > 0 ==> q + r < |s| && !IsLineTerminator(s[q + r])
    ensures forall i :: q + r < i <= q + j && i < |s| ==> IsLineTerminator(s[i])
    ensures r == 0 ==> forall i :: q < i <= q + j && i < |s| ==> IsLineTerminator(s[i])
    decreases j
  {
    if j == 0 then 0
    else if q + j < |s| && !IsLineTerminator(s[q + j]) then j
    else GreedySpaces(s, q, j - 1)
  }

  /** The match the regular expression finds when it tries start position `p`, if any. */
  function MatchAt(s: string, p: nat): (r: Option<RegexMatch>)
    ensures r.Some? ==> Matches(s, r.value) && r.value.start == p
    ensures r.Some? ==> forall m :: Matches(s, m) && m.start == p ==> m.spaces <= r.value.spaces
    ensures r.None? ==> forall m :: Matches(s, m) ==> m.start != p
  {
    var k := KeywordAt(s, p);
    if k == 0 then None
    else
      var w := SpaceRun(s, p + k);
      var j := GreedySpaces(s, p + k, w);
      if j == 0 then None
      else Some(RegexMatch(p, k, j))
  }

  /** The leftmost match starting at `p` or later. */
  function FirstMatch(s: string, p: nat): (r: Option<RegexMatch>)
    ensures r.Some? ==> Matches(s, r.value) && p <= r.value.start
    ensures r.Some? ==> forall m :: Matches(s, m) && p <= m.start ==>
                          r.value.start < m.start || (r.value.start == m.start && m.spaces <= r.value.spaces)
    ensures r.None? ==> forall m :: Matches(s, m) ==> m.start < p
    decreases |s| - p
  {
    if p >= |s| then None
    else
      match MatchAt(s, p)
      case Some(m) => Some(m)
      case None => FirstMatch(s, p + 1)
  }

  /** The capture group `(.+)` of a match: everything up to the next line terminator. */
  function CaptureOf(s: string, m: RegexMatch): (r: string)
    requires CaptureStart(m) < |s| && !IsLineTerminator(s[CaptureStart(m)])
    ensures |r| >= 1
    ensures forall i :: 0 <= i < |r| ==> !IsLineTerminator(r[i])
  {
    var q := CaptureStart(m);
    s[q..q + LineRun(s, q)]
  }

  /** `s.match(/(?:search|find)\s+(.+)/)?.[1]`. */
  function SearchCapture(s: string): (r: Option<string>)
    ensures r.Some? ==> |r.value| >= 1
  {
    match FirstMatch(s, 0)
    case Some(m) => Some(CaptureOf(s, m))
    case None => None
  }

  /** The query a search action carries: the capture, or the fallback when nothing matches. */
  function SearchQuery(lower: string): (r: string)
    ensures r != ""
  {
    SearchCapture(lower).GetOr(FallbackQuery)
  }

  /**
   * The body of the endpoint's `POST` handler from the parsed prompt to the
   * response. A missing (`None`) or empty prompt is rejected with status 400;
   * otherwise "open" together with "planner" asks for the planner, failing that
   * "search" or "find" asks for a file-system search, and anything else is
   * answered with no action.
   */
  function Classify(prompt: Option<string>): (r: Response)
    ensures prompt.None? || prompt.value == "" <==> r.Rejected?
    ensures r.Rejected? ==> r.status == BadRequest && r.error == NoPromptError
    ensures r.Answered? ==> r.action.kind in {OpenApplication, SearchFileSystem, NoAction}
    ensures r.Answered? ==>
              var lower := ToLower(prompt.value);
              && (r.action.kind == OpenApplication <==> Contains(lower, "open") && Contains(lower, "planner"))
              && (r.action.kind == SearchFileSystem <==>
                    !(Contains(lower, "open") && Contains(lower, "planner"))
                    && (Contains(lower, "search") || Contains(lower, "find")))
    ensures r.Answered? && r.action.kind == OpenApplication ==>
              AppIdOf(r.action) == Some(PlannerAppId)
    ensures r.Answered? && r.action.kind == SearchFileSystem ==>
              QueryOf(r.action) == Some(SearchQuery(ToLower(prompt.value)))
    ensures r.Answered? && r.action.kind == NoAction ==> r.action.payload == None
  {
    if prompt.None? || prompt.value == "" then Rejected(BadRequest, NoPromptError)
    else
      var lower := ToLower(prompt.value);
      if Contains(lower, "open") && Contains(lower, "planner") then
        Answered("Opening the Study Planner application for you.",
                 Action(OpenApplication, Some(Payload(Some(PlannerAppId), None))))
      else if Contains(lower, "search") || Contains(lower, "find") then
        var query := SearchQuery(lower);
        Answered("Searching the virtual file system for: \"" + query + "\"",
                 Action(SearchFileSystem, Some(Payload(None, Some(query)))))
      else
        Answered("I heard you say: \"" + prompt.value + "\". How else can I assist?",
                 Action(NoAction, None))
  }
}
