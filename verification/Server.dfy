/**
 The read side of a connection: bytes arrive in pieces, commands are dispatched
 as soon as they are complete.
 */
module Server {
  import opened Parser
  import opened Resp

  const READ_SIZE := 4096
  const MAX_BUFFER := 64 * 1024 * 1024

  /** Why the processing of one read came to an end. */
  datatype End = Waiting | Rejected | Flooded | Quit | Unsendable

  /** The commands dispatched, the bytes left in the buffer, and the reason. */
  datatype Outcome = Outcome(commands: seq<Command>, rest: string, end: End)

  /** A send is the n-th one of this read; `sends` says whether it succeeds. */
  function Drain(buffer: string, sends: nat -> bool, n: nat): Outcome
    decreases |buffer|, 0
  {
    if buffer == [] then Outcome([], buffer, Waiting)
    else match ParseCommand(buffer)
      case ProtocolError => Outcome([], buffer, Rejected)
      case NeedMore(c) =>
        if c == 0 then Outcome([], buffer, Waiting)
        else
          ParseConsumes(buffer);
          Drain(buffer[c..], sends, n)
      case Ok(command, c) =>
        ParseConsumes(buffer);
        Dispatched(command, buffer[c..], sends, n)
  }

  function Dispatched(command: Command, rest: string, sends: nat -> bool, n: nat): Outcome
    decreases |rest|, 1
  {
    if |rest| > MAX_BUFFER then Outcome([], rest, Flooded)
    else if command.name == "QUIT" then Outcome([], rest, Quit)
    else if !sends(n) then Outcome([command], rest, Unsendable)
    else
      var o := Drain(rest, sends, n + 1);
      o.(commands := [command] + o.commands)
  }

  /** Parsing makes progress, and never beyond what has been received. */
  lemma {:induction false} ParseConsumes(buffer: string)
    requires buffer != []
    ensures ParseCommand(buffer).Ok? ==> 0 < ParseCommand(buffer).consumed <= |buffer|
    ensures ParseCommand(buffer).NeedMore? ==> ParseCommand(buffer).consumed <= |buffer|
  {
    if buffer[0] == '*' && ParseCommand(buffer).Ok? { ConsumedReceived(buffer); }
  }

  // ---------------------------------------------------------------------
  // The code
  // ---------------------------------------------------------------------

  class Connection {
    var readBuffer: string

    constructor ()
      ensures readBuffer == ""
    {
      readBuffer := "";
    }

    method ProcessClient(bytes: string, sends: nat -> bool)
      returns (keep: bool, dispatched: seq<Command>, ghost end: End)
      modifies this
      ensures Outcome(dispatched, readBuffer, end) == Drain(old(readBuffer) + bytes, sends, 0)
      ensures keep <==> end == Waiting
    {
      readBuffer := readBuffer + bytes;
      dispatched := [];
      ghost var whole := Drain(readBuffer, sends, 0);
      assert [] + whole.commands == whole.commands;
      while readBuffer != []
        invariant whole == After(dispatched, Drain(readBuffer, sends, |dispatched|))
        decreases |readBuffer|
      {
        ParseConsumes(readBuffer);
        var parse := ParseCommand(readBuffer);
        match parse {
          case ProtocolError =>
            assert dispatched + [] == dispatched;
            return false, dispatched, Rejected;
          case NeedMore(consumed) =>
            if consumed > 0 {
              readBuffer := readBuffer[consumed..];
              continue;
            }
            break;
          case Ok(command, consumed) =>
            AfterOne(dispatched, command, Drain(readBuffer[consumed..], sends, |dispatched| + 1));
            assert dispatched + [] == dispatched;
            readBuffer := readBuffer[consumed..];
            if |readBuffer| > MAX_BUFFER { return false, dispatched, Flooded; }
            if command.name == "QUIT" { return false, dispatched, Quit; }
            dispatched := dispatched + [command];
            if !sends(|dispatched| - 1) { return false, dispatched, Unsendable; }
        }
      }
      assert dispatched + [] == dispatched;
      return true, dispatched, Waiting;
    }
  }

  function After(commands: seq<Command>, o: Outcome): Outcome {
    o.(commands := commands + o.commands)
  }

  lemma {:induction false} AfterOne(commands: seq<Command>, command: Command, o: Outcome)
    ensures After(commands, After([command], o)) == After(commands + [command], o)
  {
    assert commands + ([command] + o.commands) == commands + [command] + o.commands;
  }
}
