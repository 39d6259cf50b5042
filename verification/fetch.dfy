/** `connect_and_fetch` (app.py:74-112): open the session, enter privileged
    mode when needed, read the prompt, run the four fixed commands while
    building a transcript, close the session, and return the transcript with
    its sanitized copy; an exception anywhere becomes an error text instead. */
module Fetch {
  import opened Maybe
  import opened Ssh
  import opened Sanitizer

  /** The commands, in the order they are sent. */
  const Commands: seq<string> := ["terminal length 0", "show version", "show interface brief", "show ip route"]

  /** The rule drawn above each command's output: `'=' * 30`. */
  const Separator: string := "=============================="

  /** The first line of the transcript. */
  function Header(prompt: string): string {
    "Connected to: " + prompt + "\n"
  }

  /** The transcript entry for one command. */
  function Block(command: string, output: string): string {
    "\n" + Separator + "\n[Command] " + command + "\n" + output + "\n"
  }

  /** The pieces joined in order. */
  function Concat(parts: seq<string>): string
    decreases |parts|
  {
    if parts == [] then "" else Concat(parts[..|parts| - 1]) + parts[|parts| - 1]
  }

  /** The entry of each command of `cmds`, with the device's output. */
  function Entries(cmds: seq<string>, respond: string -> string): (r: seq<string>)
    ensures |r| == |cmds| && forall k :: 0 <= k < |cmds| ==> r[k] == Block(cmds[k], respond(cmds[k]))
  {
    seq(|cmds|, k requires 0 <= k < |cmds| => Block(cmds[k], respond(cmds[k])))
  }

  /** The entries for `cmds`, in order. */
  function Blocks(cmds: seq<string>, respond: string -> string): string {
    Concat(Entries(cmds, respond))
  }

  /** One more command, one more entry at the end. */
  lemma BlocksGrow(cmds: seq<string>, k: nat, respond: string -> string)
    requires k < |cmds|
    ensures Blocks(cmds[..k + 1], respond) == Blocks(cmds[..k], respond) + Block(cmds[k], respond(cmds[k]))
  {
    var parts := Entries(cmds[..k + 1], respond);
    assert parts[..k] == Entries(cmds[..k], respond);
  }

  /** The full transcript of a session on which nothing raised. */
  function Transcript(d: Device): string {
    Header(d.prompt) + Blocks(Commands, d.respond)
  }

  /** The returned dictionary: `success` is the constructor. */
  datatype FetchResult = Fetched(raw: string, sanitized: string) | FetchFailed(error: string)

  /** The two `except` clauses: the error text names the network exactly for
      timeouts and rejected logins, the system for everything else, and ends
      with the exception's own message. */
  function ErrorText(f: Failure): (e: string)
    ensures (f.kind == Timeout || f.kind == AuthenticationFailure) <==> "Network Error: " <= e
    ensures f.kind == OtherError <==> "System Error: " <= e
    ensures |f.message| <= |e| && e[|e| - |f.message|..] == f.message
    ensures |e| == |f.message| + if f.kind == OtherError then 14 else 15
  {
    var head := if f.kind == Timeout || f.kind == AuthenticationFailure then "Network Error: " else "System Error: ";
    assert (head + f.message)[0] == head[0] == if f.kind == OtherError then 'S' else 'N';
    assert (head + f.message)[|head|..] == f.message;
    head + f.message
  }

  /** The calls before the commands: open, the mode check, `enable` only
      when the device is not already privileged, and the prompt. */
  function Preamble(d: Device): seq<Call> {
    [Call.Open, Call.CheckEnableMode] + (if d.startsEnabled then [] else [Call.Enable]) + [Call.FindPrompt]
  }

  /** One `send_command` per command, in order. */
  function Sends(cmds: seq<string>): (r: seq<Call>)
    ensures |r| == |cmds| && forall k :: 0 <= k < |cmds| ==> r[k] == Call.SendCommand(cmds[k])
  {
    seq(|cmds|, k requires 0 <= k < |cmds| => Call.SendCommand(cmds[k]))
  }

  /** The calls of a session on which nothing raises, before it is closed. */
  function Plan(d: Device): seq<Call> {
    Preamble(d) + Sends(Commands)
  }

  /** The first of the calls at positions `0 .. n - 1` that raises. */
  function FirstFault(d: Device, n: nat): (r: Option<nat>)
    ensures r.Some? ==> r.value < n && r.value in d.faults
    ensures r.Some? ==> forall j :: 0 <= j < r.value ==> j !in d.faults
    ensures r.None? ==> forall j :: 0 <= j < n ==> j !in d.faults
  {
    if n == 0 then None
    else match FirstFault(d, n - 1)
      case Some(j) => Some(j)
      case None => if n - 1 in d.faults then Some(n - 1) else None
  }

  /** What `connect_and_fetch` returns for device `d`. */
  function Expected(d: Device): FetchResult {
    match FirstFault(d, |Plan(d)|)
    case Some(n) => FetchFailed(ErrorText(d.faults[n]))
    case None => Fetched(Transcript(d), Sanitize(Transcript(d)))
  }

  /** The calls the session receives: the plan up to and including the call
      that raises, then the close of the `with` block, which is reached only
      once the session is open. */
  function SessionCalls(d: Device): seq<Call> {
    match FirstFault(d, |Plan(d)|)
    case Some(n) => if n == 0 then [Call.Open] else Plan(d)[..n + 1] + [Call.Disconnect]
    case None => Plan(d) + [Call.Disconnect]
  }

  /** The first raising call is the first one after a stretch without any. */
  lemma {:induction false} FirstFaultIs(d: Device, n: nat, m: nat)
    requires FirstFault(d, n).None? && n in d.faults && n < m
    ensures FirstFault(d, m) == Some(n)
    decreases m
  {
    if m > n + 1 {
      FirstFaultIs(d, n, m - 1);
    }
  }

  /** The session has followed the plan so far, and nothing has raised. */
  ghost predicate OnPlan(ssh: Session, d: Device)
    reads ssh
  {
    && ssh.device == d && ssh.connected
    && |ssh.calls| <= |Plan(d)| && ssh.calls == Plan(d)[..|ssh.calls|]
    && FirstFault(d, |ssh.calls|).None?
  }

  /** Where each call stands in the plan. */
  lemma PlanLayout(d: Device)
    ensures |Plan(d)| == |Preamble(d)| + |Commands| && 3 <= |Preamble(d)| <= 4
    ensures Plan(d)[0] == Call.Open && Plan(d)[1] == Call.CheckEnableMode
    ensures !d.startsEnabled ==> Plan(d)[2] == Call.Enable
    ensures Plan(d)[|Preamble(d)| - 1] == Call.FindPrompt
    ensures forall k :: 0 <= k < |Commands| ==> Plan(d)[|Preamble(d)| + k] == Call.SendCommand(Commands[k])
  {
  }

  /** The calls in `before` followed the plan without raising, and the next
      planned call has just been made. */
  ghost predicate Stepped(ssh: Session, d: Device, before: seq<Call>)
    reads ssh
  {
    && |before| < |Plan(d)| && before == Plan(d)[..|before|] && FirstFault(d, |before|).None?
    && ssh.calls == before + [Plan(d)[|before|]]
  }

  /** The session is still open and its last call raised `f`: leaving the
      `with` block closes it, and the exception becomes the error text. */
  method Abort(ssh: Session, d: Device, f: Failure, ghost before: seq<Call>) returns (result: FetchResult)
    requires ssh.connected && Stepped(ssh, d, before) && 0 < |before| && FaultAt(d, |before|) == Some(f)
    modifies ssh
    ensures result == Expected(d) && ssh.calls == SessionCalls(d) && !ssh.connected
  {
    FirstFaultIs(d, |before|, |Plan(d)|);
    PlanPrefix(d, |before|);
    FailedOutcome(d, |before|);
    ssh.Disconnect();
    result := FetchFailed(ErrorText(f));
  }

  /** A prefix of the plan, one call longer. */
  lemma PlanPrefix(d: Device, n: nat)
    requires n < |Plan(d)|
    ensures Plan(d)[..n + 1] == Plan(d)[..n] + [Plan(d)[n]]
  {
  }

  /** The outcome when nothing raises. */
  lemma SucceededOutcome(d: Device)
    requires FirstFault(d, |Plan(d)|).None?
    ensures Expected(d) == Fetched(Transcript(d), Sanitize(Transcript(d)))
    ensures SessionCalls(d) == Plan(d) + [Call.Disconnect]
  {
  }

  /** The outcome when opening the session raises. */
  lemma RefusedOutcome(d: Device)
    requires FirstFault(d, |Plan(d)|) == Some(0)
    ensures Expected(d) == FetchFailed(ErrorText(d.faults[0]))
    ensures SessionCalls(d) == [Call.Open]
  {
  }

  /** The outcome when call `n`, after the session was opened, raises first. */
  lemma FailedOutcome(d: Device, n: nat)
    requires 0 < n && FirstFault(d, |Plan(d)|) == Some(n)
    ensures Expected(d) == FetchFailed(ErrorText(d.faults[n]))
    ensures SessionCalls(d) == Plan(d)[..n + 1] + [Call.Disconnect]
  {
  }

  /** The next planned call has just succeeded. */
  lemma Advance(ssh: Session, d: Device, before: seq<Call>)
    requires Stepped(ssh, d, before) && FaultAt(d, |before|).None?
    ensures |ssh.calls| <= |Plan(d)| && ssh.calls == Plan(d)[..|ssh.calls|] && FirstFault(d, |ssh.calls|).None?
  {
    PlanPrefix(d, |before|);
  }

  /** The start of the `with` block: privileged mode, then the prompt. An
      exception leaves the session open with the raising call last. */
  method Prepare(ssh: Session, d: Device) returns (r: Reply<string>, ghost before: seq<Call>)
    requires OnPlan(ssh, d) && ssh.calls == [Call.Open] && ssh.enabled == d.startsEnabled
    modifies ssh
    ensures r.Raised? ==> ssh.connected && Stepped(ssh, d, before) && 0 < |before| && FaultAt(d, |before|) == Some(r.failure)
    ensures r.Ok? ==> OnPlan(ssh, d) && |ssh.calls| == |Preamble(d)| && r.value == d.prompt
  {
    PlanLayout(d);
    before := ssh.calls;
    var mode := ssh.CheckEnableMode();
    if mode.Raised? {
      return Raised(mode.failure), before;
    }
    Advance(ssh, d, before);
    if !mode.value {
      before := ssh.calls;
      var raised := ssh.Enable();
      if raised.Raised? {
        return Raised(raised.failure), before;
      }
      Advance(ssh, d, before);
    }
    before := ssh.calls;
    r := ssh.FindPrompt();
    if r.Ok? {
      Advance(ssh, d, before);
    }
  }

  /** `send_command` for the `k`-th command, at its place in the plan. */
  method SendOne(ssh: Session, d: Device, k: nat) returns (r: Reply<string>, ghost before: seq<Call>)
    requires OnPlan(ssh, d) && k < |Commands| && |ssh.calls| == |Preamble(d)| + k
    modifies ssh
    ensures r.Raised? ==> ssh.connected && Stepped(ssh, d, before) && 0 < |before| && FaultAt(d, |before|) == Some(r.failure)
    ensures r.Ok? ==> OnPlan(ssh, d) && |ssh.calls| == |Preamble(d)| + k + 1 && r.value == d.respond(Commands[k])
  {
    PlanLayout(d);
    before := ssh.calls;
    r := ssh.SendCommand(Commands[k]);
    if r.Ok? {
      Advance(ssh, d, before);
    }
  }

  /** The loop over the commands: one entry per command, in order. An
      exception ends the loop with the session open and the raising call
      last. */
  method RunCommands(ssh: Session, d: Device) returns (r: Reply<string>, ghost before: seq<Call>)
    requires OnPlan(ssh, d) && |ssh.calls| == |Preamble(d)|
    modifies ssh
    ensures r.Raised? ==> ssh.connected && Stepped(ssh, d, before) && 0 < |before| && FaultAt(d, |before|) == Some(r.failure)
    ensures r.Ok? ==> OnPlan(ssh, d) && ssh.calls == Plan(d) && r.value == Blocks(Commands, d.respond)
  {
    before := [];
    var entries := "";
    for k := 0 to |Commands|
      invariant OnPlan(ssh, d) && |ssh.calls| == |Preamble(d)| + k
      invariant entries == Blocks(Commands[..k], d.respond)
    {
      var output;
      output, before := SendOne(ssh, d, k);
      if output.Raised? {
        return Raised(output.failure), before;
      }
      BlocksGrow(Commands, k, d.respond);
      entries := entries + Block(Commands[k], output.value);
    }
    PlanLayout(d);
    assert Commands[..|Commands|] == Commands;
    r := Ok(entries);
  }

  /** `connect_and_fetch`, run against device `d`; `ssh` is the session it
      used, returned so that its calls can be inspected. */
  method ConnectAndFetch(d: Device) returns (result: FetchResult, ssh: Session)
    ensures fresh(ssh) && !ssh.connected
    ensures result == Expected(d)
    ensures ssh.calls == SessionCalls(d)
  {
    ssh := new Session(d);
    var session := ssh.Open();
    if session.Raised? {
      FirstFaultIs(d, 0, |Plan(d)|);
      RefusedOutcome(d);
      result := FetchFailed(ErrorText(session.failure));
      return;
    }
    Advance(ssh, d, []);
    var prompt, before := Prepare(ssh, d);
    if prompt.Raised? {
      result := Abort(ssh, d, prompt.failure, before);
      return;
    }
    var raw := Header(prompt.value);
    var entries;
    entries, before := RunCommands(ssh, d);
    if entries.Raised? {
      result := Abort(ssh, d, entries.failure, before);
      return;
    }
    raw := raw + entries.value;
    SucceededOutcome(d);
    ssh.Disconnect();
    var sanitized := SanitizeOutput(raw);
    result := Fetched(raw, sanitized);
  }
}
