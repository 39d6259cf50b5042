/** The SSH session `connect_and_fetch` opens to the switch (a netmiko
    `ConnectHandler`), reduced to what the function relies on: the session is
    opened, asked whether it is in privileged mode, possibly raised to it,
    asked for its prompt, sent commands, and closed. What the device answers
    is fixed by a `Device` value; which calls raise is fixed by its fault
    table, keyed by the position of the call in the session (0 for opening). */
module Ssh {
  import opened Maybe

  /** The exception classes `connect_and_fetch` tells apart. */
  datatype ErrorKind = Timeout | AuthenticationFailure | OtherError

  /** A raised exception: its class and its `str(e)`. */
  datatype Failure = Failure(kind: ErrorKind, message: string)

  /** What a session call gives back: a value, or the exception it raised. */
  datatype Reply<T> = Ok(value: T) | Raised(failure: Failure)

  /** The calls a session receives, in the order it receives them. */
  datatype Call = Open | CheckEnableMode | Enable | FindPrompt | SendCommand(command: string) | Disconnect

  /** The far end: whether it starts in privileged mode, its prompt, its
      answer to each command, and which calls raise. */
  datatype Device = Device(startsEnabled: bool, prompt: string, respond: string -> string, faults: map<nat, Failure>)

  /** The exception raised by the call at position `n`, if any. */
  function FaultAt(d: Device, n: nat): Option<Failure> {
    if n in d.faults then Some(d.faults[n]) else None
  }

  class Session {
    const device: Device
    var connected: bool
    var enabled: bool
    /** Every call received so far, including one that raised. */
    var calls: seq<Call>

    /** A handle on `device`, not yet connected. */
    constructor (device: Device)
      ensures this.device == device
      ensures !connected && enabled == device.startsEnabled && calls == []
    {
      this.device := device;
      connected := false;
      enabled := device.startsEnabled;
      calls := [];
    }

    /** The exception the next call raises, if any. */
    function NextFault(): Option<Failure>
      reads this
    {
      FaultAt(device, |calls|)
    }

    /** `ConnectHandler(**SANDBOX_DEVICE)`: log in, or raise. */
    method Open() returns (r: Reply<()>)
      requires !connected
      modifies this
      ensures calls == old(calls) + [Call.Open] && enabled == old(enabled)
      ensures old(NextFault()).Some? ==> r == Raised(old(NextFault()).value) && !connected
      ensures old(NextFault()).None? ==> r == Ok(()) && connected
    {
      var fault := NextFault();
      calls := calls + [Call.Open];
      if fault.Some? {
        r := Raised(fault.value);
      } else {
        connected := true;
        r := Ok(());
      }
    }

    /** `ssh.check_enable_mode()`: whether the session is privileged. */
    method CheckEnableMode() returns (r: Reply<bool>)
      requires connected
      modifies this
      ensures calls == old(calls) + [Call.CheckEnableMode] && connected && enabled == old(enabled)
      ensures old(NextFault()).Some? ==> r == Raised(old(NextFault()).value)
      ensures old(NextFault()).None? ==> r == Ok(enabled)
    {
      var fault := NextFault();
      calls := calls + [Call.CheckEnableMode];
      r := if fault.Some? then Raised(fault.value) else Ok(enabled);
    }

    /** `ssh.enable()`: enter privileged mode. */
    method Enable() returns (r: Reply<()>)
      requires connected
      modifies this
      ensures calls == old(calls) + [Call.Enable] && connected
      ensures old(NextFault()).Some? ==> r == Raised(old(NextFault()).value) && enabled == old(enabled)
      ensures old(NextFault()).None? ==> r == Ok(()) && enabled
    {
      var fault := NextFault();
      calls := calls + [Call.Enable];
      if fault.Some? {
        r := Raised(fault.value);
      } else {
        enabled := true;
        r := Ok(());
      }
    }

    /** `ssh.find_prompt()` */
    method FindPrompt() returns (r: Reply<string>)
      requires connected
      modifies this
      ensures calls == old(calls) + [Call.FindPrompt] && connected && enabled == old(enabled)
      ensures old(NextFault()).Some? ==> r == Raised(old(NextFault()).value)
      ensures old(NextFault()).None? ==> r == Ok(device.prompt)
    {
      var fault := NextFault();
      calls := calls + [Call.FindPrompt];
      r := if fault.Some? then Raised(fault.value) else Ok(device.prompt);
    }

    /** `ssh.send_command(command)`: the device's output for `command`. */
    method SendCommand(command: string) returns (r: Reply<string>)
      requires connected
      modifies this
      ensures calls == old(calls) + [Call.SendCommand(command)] && connected && enabled == old(enabled)
      ensures old(NextFault()).Some? ==> r == Raised(old(NextFault()).value)
      ensures old(NextFault()).None? ==> r == Ok(device.respond(command))
    {
      var fault := NextFault();
      calls := calls + [Call.SendCommand(command)];
      r := if fault.Some? then Raised(fault.value) else Ok(device.respond(command));
    }

    /** Leaving the `with` block: the session is closed; closing does not raise. */
    method Disconnect()
      requires connected
      modifies this
      ensures calls == old(calls) + [Call.Disconnect] && !connected && enabled == old(enabled)
    {
      calls := calls + [Call.Disconnect];
      connected := false;
    }
  }
}
