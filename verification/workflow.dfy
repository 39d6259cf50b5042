/** The diagnostics run of `main` (app.py:195-217): fetch from the device,
    stop with the error when that fails, otherwise hand the sanitized
    transcript to the agent and keep both results in the session state that
    the report area reads. */
module Workflow {
  import opened Maybe
  import opened Ssh
  import opened Sanitizer
  import opened Fetch
  import opened Agent

  /** The label of the status box after a run. */
  datatype Status = Idle | ConnectionFailed | Completed

  /** The page's state across runs: `diagResult` and `aiResponse` are the
      two session-state entries, `shownError` the error box of the last run. */
  class Dashboard {
    var status: Status
    var shownError: Option<string>
    var diagResult: Option<FetchResult>
    var aiResponse: Option<string>

    /** A fresh page: nothing run yet, nothing stored. */
    constructor ()
      ensures status == Idle && shownError == None && diagResult == None && aiResponse == None
    {
      status := Idle;
      shownError := None;
      diagResult := None;
      aiResponse := None;
    }

    /** The button's branch of `main`. A failed fetch shows its error and
        returns before the agent is asked, leaving the stored results of an
        earlier run as they were; a successful one shows no error box and
        stores the fetch result and the agent's reply to the sanitized
        transcript. */
    method RunDiagnostics(d: Device, key: string, service: string -> ServiceReply)
      modifies this
      ensures Expected(d).FetchFailed? ==>
        && status == ConnectionFailed && shownError == Some(Expected(d).error)
        && diagResult == old(diagResult) && aiResponse == old(aiResponse)
      ensures Expected(d).Fetched? ==>
        && status == Completed && shownError == None
        && diagResult == Some(Fetched(Transcript(d), Sanitize(Transcript(d))))
        && aiResponse == Some(AskAgent(key, Sanitize(Transcript(d)), service))
    {
      var result, _ := ConnectAndFetch(d);
      if result.FetchFailed? {
        status := ConnectionFailed;
        shownError := Some(result.error);
        return;
      }
      var reply := AskAgent(key, result.sanitized, service);
      status := Completed;
      shownError := None;
      diagResult := Some(result);
      aiResponse := Some(reply);
    }
  }
}
