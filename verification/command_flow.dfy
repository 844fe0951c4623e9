/**
 * The endpoint's answer fed to the kernel's switchboard: every action the mock
 * orchestrator produces passes the switchboard's guards, so a classified
 * prompt always either opens a window or deliberately does nothing.
 */
module CommandFlow {
  import opened Wrappers
  import opened JsText
  import opened Intent
  import opened OSState
  import opened OSStateProps
  import opened OsCommand

  lemma ClassifiedActionDispatch(s: State, prompt: Option<string>)
    requires Classify(prompt).Answered?
    ensures var a := Classify(prompt).action;
            var lower := ToLower(prompt.value);
            && (a.kind == OpenApplication ==> Execute(s, a) == Open(s, PlannerAppId, Some(PlannerTitle)))
            && (a.kind == SearchFileSystem ==>
                  Execute(s, a) == Open(s, ExplorerId, Some("Search: " + SearchQuery(lower))))
            && (a.kind == NoAction ==> Execute(s, a) == s)
            && (a.kind != NoAction ==> Execute(s, a).highestZIndex == s.highestZIndex + 1)
            && (Valid(s) ==> Valid(Execute(s, a)))
  {
    var a := Classify(prompt).action;
    if Valid(s) {
      ExecuteKeepsValid(s, a);
    }
  }
}
