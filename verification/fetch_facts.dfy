/** What `connect_and_fetch` promises, stated over the outcome `Expected`
    and the calls `SessionCalls` that `Fetch.ConnectAndFetch` is proved to
    produce. */
module FetchFacts {
  import opened Maybe
  import opened Ssh
  import opened Sanitizer
  import opened Fetch

  /** The result is a transcript exactly when no planned call raises. */
  lemma FetchSucceedsIffNoFault(d: Device)
    ensures Expected(d).Fetched? <==> forall j :: 0 <= j < |Plan(d)| ==> j !in d.faults
    ensures Expected(d).Fetched? ==> Expected(d).raw == Transcript(d) && Expected(d).sanitized == Sanitize(Transcript(d))
  {
  }

  /** No planned call closes the session. */
  lemma PlanNeverCloses(d: Device)
    ensures Call.Disconnect !in Plan(d)
  {
    PlanLayout(d);
    forall j | 0 <= j < |Plan(d)| ensures Plan(d)[j] != Call.Disconnect {
      if j >= |Preamble(d)| {
        assert Plan(d)[|Preamble(d)| + (j - |Preamble(d)|)] == Call.SendCommand(Commands[j - |Preamble(d)|]);
      }
    }
  }

  /** The `with` block: the session is closed exactly once, as its last call,
      whenever it was opened; when opening raises, nothing else is sent. */
  lemma SessionReleased(d: Device)
    ensures SessionCalls(d)[0] == Call.Open
    ensures FirstFault(d, |Plan(d)|) == Some(0) ==> SessionCalls(d) == [Call.Open]
    ensures FirstFault(d, |Plan(d)|) != Some(0) ==>
      && SessionCalls(d)[|SessionCalls(d)| - 1] == Call.Disconnect
      && Call.Disconnect !in SessionCalls(d)[..|SessionCalls(d)| - 1]
  {
    PlanLayout(d);
    PlanNeverCloses(d);
    var calls := SessionCalls(d);
    match FirstFault(d, |Plan(d)|)
    case Some(n) =>
      if n > 0 {
        assert calls[..|calls| - 1] == Plan(d)[..n + 1];
        assert forall c :: c in Plan(d)[..n + 1] ==> c in Plan(d);
      }
    case None =>
      assert calls[..|calls| - 1] == Plan(d);
  }

  /** `enable` is sent exactly when the device is not already privileged and
      the session got as far as asking. */
  lemma EnableOnlyWhenNeeded(d: Device)
    ensures Call.Enable in SessionCalls(d) <==> !d.startsEnabled && 0 !in d.faults && 1 !in d.faults
  {
    PlanLayout(d);
    var calls := SessionCalls(d);
    var first := FirstFault(d, |Plan(d)|);
    forall j | 0 <= j < |Plan(d)| && j != 2 ensures Plan(d)[j] != Call.Enable {
      if j >= |Preamble(d)| {
        assert Plan(d)[|Preamble(d)| + (j - |Preamble(d)|)] == Call.SendCommand(Commands[j - |Preamble(d)|]);
      }
    }
    if !d.startsEnabled && 0 !in d.faults && 1 !in d.faults {
      match first
      case Some(n) =>
        assert n >= 2;
        assert calls[2] == Plan(d)[..n + 1][2] == Call.Enable;
      case None =>
        assert calls[2] == Call.Enable;
    }
    if Call.Enable in calls {
      var j :| 0 <= j < |calls| && calls[j] == Call.Enable;
      match first
      case Some(n) =>
        assert n > 0 && j <= n && calls[j] == Plan(d)[j];
        assert j == 2;
      case None =>
        assert j < |Plan(d)| && calls[j] == Plan(d)[j];
    }
  }

  /** The commands a list of calls sends, in order. */
  function SentCommands(calls: seq<Call>): seq<string>
    decreases |calls|
  {
    if calls == [] then []
    else
      SentCommands(calls[..|calls| - 1]) +
        match calls[|calls| - 1]
        case SendCommand(c) => [c]
        case _ => []
  }

  lemma {:induction false} SentAppend(a: seq<Call>, b: seq<Call>)
    ensures SentCommands(a + b) == SentCommands(a) + SentCommands(b)
    decreases |b|
  {
    if b == [] {
      assert a + b == a;
    } else {
      var n := |b| - 1;
      assert (a + b)[..|a + b| - 1] == a + b[..n];
      assert (a + b)[|a + b| - 1] == b[n];
      SentAppend(a, b[..n]);
    }
  }

  /** Calls with no `send_command` among them send nothing. */
  lemma {:induction false} SentNone(calls: seq<Call>)
    requires forall j :: 0 <= j < |calls| ==> !calls[j].SendCommand?
    ensures SentCommands(calls) == []
    decreases |calls|
  {
    if calls != [] {
      SentNone(calls[..|calls| - 1]);
    }
  }

  /** `send_command` calls for `cmds` send `cmds`. */
  lemma {:induction false} SentOfSends(cmds: seq<string>)
    ensures SentCommands(Sends(cmds)) == cmds
    decreases |cmds|
  {
    if cmds != [] {
      var n := |cmds| - 1;
      assert Sends(cmds)[..n] == Sends(cmds[..n]);
      SentOfSends(cmds[..n]);
      assert cmds == cmds[..n] + [cmds[n]];
    }
  }

  /** The part of the plan up to call `n` sends the first commands, in order. */
  lemma PlanPrefixSends(d: Device, m: nat)
    requires m <= |Plan(d)|
    ensures SentCommands(Plan(d)[..m]) <= Commands
    ensures m == |Plan(d)| ==> SentCommands(Plan(d)[..m]) == Commands
  {
    var pre := Preamble(d);
    var sends := Sends(Commands);
    if m <= |pre| {
      assert Plan(d)[..m] == pre[..m];
      SentNone(pre[..m]);
    } else {
      var k := m - |pre|;
      assert Plan(d)[..m] == pre + sends[..k];
      assert sends[..k] == Sends(Commands[..k]);
      SentNone(pre);
      SentAppend(pre, sends[..k]);
      SentOfSends(Commands[..k]);
      assert k == |Commands| ==> Commands[..k] == Commands;
    }
  }

  /** The commands go out in the listed order, none after an exception: the
      session sends a prefix of the list, and the whole list when the fetch
      succeeds. */
  lemma CommandsInOrder(d: Device)
    ensures SentCommands(SessionCalls(d)) <= Commands
    ensures Expected(d).Fetched? ==> SentCommands(SessionCalls(d)) == Commands
  {
    var calls := SessionCalls(d);
    match FirstFault(d, |Plan(d)|)
    case Some(n) =>
      if n == 0 {
        assert SentCommands(calls) == SentCommands([]) + [];
      } else {
        PlanPrefixSends(d, n + 1);
        SentAppend(Plan(d)[..n + 1], [Call.Disconnect]);
        assert SentCommands([Call.Disconnect]) == SentCommands([]) + [];
      }
    case None =>
      PlanPrefixSends(d, |Plan(d)|);
      assert Plan(d)[..|Plan(d)|] == Plan(d);
      SentAppend(Plan(d), [Call.Disconnect]);
      assert SentCommands([Call.Disconnect]) == SentCommands([]) + [];
  }

  /** One entry: a newline, a rule of thirty `=`, the command after
      `[Command] `, and the output on the lines after it. */
  lemma BlockLayout(command: string, output: string)
    ensures var b := Block(command, output);
      && |b| == |command| + |output| + 44
      && b[0] == '\n' && (forall i :: 1 <= i <= 30 ==> b[i] == '=')
      && b[31..42] == "\n[Command] " && b[42..42 + |command|] == command
      && b[42 + |command|] == '\n' && b[43 + |command|..43 + |command| + |output|] == output
      && b[|b| - 1] == '\n'
  {
    var b := Block(command, output);
    assert b == "\n" + Separator + "\n[Command] " + command + "\n" + output + "\n";
    assert forall i :: 1 <= i <= 30 ==> b[i] == Separator[i - 1];
  }

  /** Joining two lists of pieces one after the other. */
  lemma {:induction false} ConcatAppend(xs: seq<string>, ys: seq<string>)
    ensures Concat(xs + ys) == Concat(xs) + Concat(ys)
    decreases |ys|
  {
    if ys == [] {
      assert xs + ys == xs;
    } else {
      var n := |ys| - 1;
      assert (xs + ys)[..|xs + ys| - 1] == xs + ys[..n];
      ConcatAppend(xs, ys[..n]);
    }
  }

  /** Entries for consecutive command lists follow one another. */
  lemma BlocksAppend(a: seq<string>, b: seq<string>, respond: string -> string)
    ensures Blocks(a + b, respond) == Blocks(a, respond) + Blocks(b, respond)
  {
    assert Entries(a + b, respond) == Entries(a, respond) + Entries(b, respond);
    ConcatAppend(Entries(a, respond), Entries(b, respond));
  }

  /** A single command has its own entry. */
  lemma BlocksOne(command: string, respond: string -> string)
    ensures Blocks([command], respond) == Block(command, respond(command))
  {
    var e := Entries([command], respond);
    assert e[..0] == [];
    assert Concat(e) == Concat([]) + e[0];
  }

  /** Splitting a command list around command `k` splits its entries the
      same way. */
  lemma BlocksAround(c: seq<string>, k: nat, respond: string -> string)
    requires k < |c|
    ensures Blocks(c, respond)
      == Blocks(c[..k], respond) + Block(c[k], respond(c[k])) + Blocks(c[k + 1..], respond)
  {
    var rest := [c[k]] + c[k + 1..];
    assert c == c[..k] + rest;
    BlocksAppend(c[..k], rest, respond);
    BlocksAppend([c[k]], c[k + 1..], respond);
    BlocksOne(c[k], respond);
  }

  /** The transcript is the header, then one entry per command in the listed
      order: the entry of command `k` comes after those of the commands
      before it and before those of the commands after it. */
  lemma TranscriptOrder(d: Device, k: nat)
    requires k < |Commands|
    ensures Transcript(d) == Header(d.prompt) + Blocks(Commands[..k], d.respond)
      + Block(Commands[k], d.respond(Commands[k])) + Blocks(Commands[k + 1..], d.respond)
  {
    BlocksAround(Commands, k, d.respond);
  }
}
