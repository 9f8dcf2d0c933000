/**
The two client-to-backend pumps of src/gateway/relay.rs as transducers: the message relay, which
forwards reassembled messages, and the TCP bridge, which writes every accepted data payload as it
comes.  Sockets are scripts: what arrives, when the reader fails, when the pump is cancelled and
how far each write gets.
*/
module Relay {
  import opened Wrappers
  import opened WebsocketMessage
  import opened MessageRuns

  /** How the write that an arriving frame causes ends. */
  datatype WriteFate = Completes | StopsAfter(bytes: nat, cancelled: bool)

  datatype Input = Arrives(frame: Frame, write: WriteFate) | ReadFails | Cancel

  datatype PumpEnd = Cancelled | PeerClosed | Failed

  /** What a pump put out, what message was still open, and how it ended. */
  datatype RelayOutput = RelayOutput(frames: seq<Frame>, open: Progress, end: PumpEnd)
  datatype TcpOutput = TcpOutput(bytes: seq<byte>, open: Progress, end: PumpEnd)

  // ---- specifications: one recursive pass over the script ----

  /** The message relay. */
  ghost function Relayed(maximum: nat, progress: Progress, inputs: seq<Input>): RelayOutput
    decreases |inputs|
  {
    if inputs == [] || inputs[0].Cancel? then RelayOutput([], progress, Cancelled)
    else if inputs[0].ReadFails? then RelayOutput([], progress, Failed)
    else match Check(maximum, progress, inputs[0].frame)
      case Err(_) => RelayOutput([], progress, Failed)
      case Ok(next) =>
        Forwarding(Emitted(progress, inputs[0].frame), inputs[0].write, next, Relayed(maximum, next, inputs[1..]))
  }

  /** One message in hand, given what the rest of the script leads to. */
  ghost function Forwarding(message: Option<Frame>, write: WriteFate, open: Progress, rest: RelayOutput): RelayOutput {
    if message.None? || message.value.opcode in {Ping, Pong, Continuation} then rest
    else if write.StopsAfter? then RelayOutput([], open, Failed)
    else if message.value.opcode.Close? then RelayOutput([message.value], open, PeerClosed)
    else rest.(frames := [message.value] + rest.frames)
  }

  /** The TCP bridge. */
  ghost function Bridged(maximum: nat, progress: Progress, inputs: seq<Input>): TcpOutput
    decreases |inputs|
  {
    if inputs == [] || inputs[0].Cancel? then TcpOutput([], progress, Cancelled)
    else if inputs[0].ReadFails? then TcpOutput([], progress, Failed)
    else match Check(maximum, progress, inputs[0].frame)
      case Err(_) => TcpOutput([], progress, Failed)
      case Ok(next) => Writing(inputs[0].frame, inputs[0].write, next, Bridged(maximum, next, inputs[1..]))
  }

  ghost function Writing(frame: Frame, write: WriteFate, open: Progress, rest: TcpOutput): TcpOutput {
    if frame.opcode.Close? then TcpOutput([], open, PeerClosed)
    else if frame.opcode.IsControl() then rest
    else match write
      case Completes => rest.(bytes := frame.payload + rest.bytes)
      case StopsAfter(n, cancelled) =>
        TcpOutput(Written(frame.payload, write), open, if cancelled then Cancelled else Failed)
  }

  /** The part of a payload that reaches the socket. */
  function Written(payload: seq<byte>, write: WriteFate): seq<byte> {
    if write.Completes? || write.bytes >= |payload| then payload else payload[..write.bytes]
  }

  // ---- the pumps ----

  datatype ReadOutcome = Message(frame: Frame, write: WriteFate) | Stopped(end: PumpEnd)

  class GatewayRead {
    const messages: BoundedMessages
    /** What the socket will still deliver. */
    var inputs: seq<Input>

    constructor (inputs: seq<Input>, maximum: nat)
      requires maximum <= USIZE_MAX
      ensures messages.Valid() && fresh(messages) && fresh(messages.sequence)
      ensures messages.sequence.maximum == maximum && messages.sequence.Progress() == Idle
      ensures this.inputs == inputs
    {
      messages := new BoundedMessages(maximum);
      this.inputs := inputs;
    }

    /** Reads frames until one completes a message or is control. */
    method ReadFrame() returns (r: ReadOutcome)
      requires messages.Valid()
      modifies this, messages, messages.sequence
      ensures var before := Relayed(messages.sequence.maximum, old(messages.sequence.Progress()), old(inputs));
        match r
        case Stopped(end) => before.frames == [] && before.end == end
        case Message(frame, write) =>
          && messages.Valid()
          && |inputs| < |old(inputs)|
          && before == Forwarding(Some(frame), write, messages.sequence.Progress(),
               Relayed(messages.sequence.maximum, messages.sequence.Progress(), inputs))
    {
      while |inputs| > 0
        invariant messages.Valid()
        invariant |inputs| <= |old(inputs)|
        invariant Relayed(messages.sequence.maximum, messages.sequence.Progress(), inputs) ==
          Relayed(messages.sequence.maximum, old(messages.sequence.Progress()), old(inputs))
        decreases |inputs|
      {
        var input := inputs[0];
        if input.Cancel? {
          return Stopped(Cancelled);
        }
        if input.ReadFails? {
          return Stopped(Failed);
        }
        var message := messages.Collect(input.frame, |input.frame.payload|);
        if message.Err? {
          return Stopped(Failed);
        }
        inputs := inputs[1..];
        if message.value.Some? {
          return Message(message.value.value, input.write);
        }
      }
      return Stopped(Cancelled);
    }
  }

  /** What is already forwarded, then what is to come. */
  ghost predicate Continues(whole: RelayOutput, forwarded: seq<Frame>, rest: RelayOutput) {
    whole.frames == forwarded + rest.frames && whole.end == rest.end
  }

  lemma ContinuesAfter(whole: RelayOutput, forwarded: seq<Frame>, m: Frame, write: WriteFate, open: Progress,
    rest: RelayOutput)
    requires Continues(whole, forwarded, Forwarding(Some(m), write, open, rest))
    ensures
      if m.opcode in {Ping, Pong, Continuation} then Continues(whole, forwarded, rest)
      else if write.StopsAfter? then whole.frames == forwarded && whole.end == Failed
      else if m.opcode.Close? then whole.frames == forwarded + [m] && whole.end == PeerClosed
      else Continues(whole, forwarded + [m], rest)
  {
    assert forwarded + ([m] + rest.frames) == forwarded + [m] + rest.frames;
  }

  method Pump(reader: GatewayRead) returns (forwarded: seq<Frame>, end: PumpEnd)
    requires reader.messages.Valid()
    modifies reader, reader.messages, reader.messages.sequence
    ensures var whole := Relayed(reader.messages.sequence.maximum, old(reader.messages.sequence.Progress()),
                                 old(reader.inputs));
      forwarded == whole.frames && end == whole.end
    ensures Calm(old(reader.inputs)) ==>
      var run := Run(reader.messages.sequence.maximum, old(reader.messages.sequence.Progress()),
                     Arrived(old(reader.inputs)));
      ForwardsMessages(run.messages, forwarded, end)
  {
    ghost var maximum := reader.messages.sequence.maximum;
    ghost var whole := Relayed(maximum, reader.messages.sequence.Progress(), reader.inputs);
    if Calm(reader.inputs) {
      RelayForwardsMessages(maximum, reader.messages.sequence.Progress(), reader.inputs);
    }
    forwarded := [];
    while true
      invariant reader.messages.Valid()
      invariant Continues(whole, forwarded, Relayed(maximum, reader.messages.sequence.Progress(), reader.inputs))
      decreases |reader.inputs|
    {
      var next := reader.ReadFrame();
      if next.Stopped? {
        return forwarded, next.end;
      }
      ContinuesAfter(whole, forwarded, next.frame, next.write, reader.messages.sequence.Progress(),
        Relayed(maximum, reader.messages.sequence.Progress(), reader.inputs));
      match next.frame.opcode {
        case Text | Binary =>
          if next.write.StopsAfter? {
            return forwarded, Failed;
          }
          forwarded := forwarded + [next.frame];
        case Close =>
          if next.write.StopsAfter? {
            return forwarded, Failed;
          }
          return forwarded + [next.frame], PeerClosed;
        case _ =>
      }
    }
  }

  /** One frame of the script, unfolded behind what is already written. */
  lemma BridgedStep(maximum: nat, progress: Progress, inputs: seq<Input>, written: seq<byte>)
    requires inputs != [] && inputs[0].Arrives?
    ensures var checked := Check(maximum, progress, inputs[0].frame);
      && (checked.Err? ==> Behind(written, Bridged(maximum, progress, inputs)) == TcpOutput(written, progress, Failed))
      && (checked.Ok? ==>
            var rest := Bridged(maximum, checked.value, inputs[1..]);
            Behind(written, Bridged(maximum, progress, inputs)) ==
              Behind(written, Writing(inputs[0].frame, inputs[0].write, checked.value, rest)))
  {
  }

  ghost function Behind(written: seq<byte>, rest: TcpOutput): TcpOutput {
    rest.(bytes := written + rest.bytes)
  }

  lemma BehindBoth(written: seq<byte>, more: seq<byte>, rest: TcpOutput)
    ensures Behind(written, rest.(bytes := more + rest.bytes)) == Behind(written + more, rest)
  {
    assert written + (more + rest.bytes) == written + more + rest.bytes;
  }

  method PumpWebsocketToTcp(inputs: seq<Input>, maximum: nat) returns (written: seq<byte>, end: PumpEnd)
    requires maximum <= USIZE_MAX
    ensures written == Bridged(maximum, Idle, inputs).bytes
    ensures end == Bridged(maximum, Idle, inputs).end
  {
    var messages := new MessageSequence(maximum);
    ghost var whole, progress := Bridged(maximum, Idle, inputs), messages.Progress();
    var next := 0;
    written := [];
    while next < |inputs|
      invariant next <= |inputs|
      invariant fresh(messages) && messages.Valid() && messages.maximum == maximum && progress == messages.Progress()
      invariant whole == Behind(written, Bridged(maximum, progress, inputs[next..]))
    {
      var input := inputs[next];
      assert inputs[next..][1..] == inputs[next + 1..];
      if input.Cancel? {
        return written, Cancelled;
      }
      if input.ReadFails? {
        return written, Failed;
      }
      BridgedStep(maximum, progress, inputs[next..], written);
      var checked := messages.Validate(input.frame);
      if checked.Err? {
        return written, Failed;
      }
      progress := messages.Progress();
      match input.frame.opcode {
        case Text | Binary | Continuation =>
          if input.write.StopsAfter? {
            return written + Written(input.frame.payload, input.write),
              if input.write.cancelled then Cancelled else Failed;
          }
          BehindBoth(written, input.frame.payload, Bridged(maximum, progress, inputs[next + 1..]));
          written := written + input.frame.payload;
        case Close =>
          return written, PeerClosed;
        case _ =>
      }
      next := next + 1;
    }
    return written, Cancelled;
  }

  // ---- what is forwarded, in terms of the messages that come out of reassembly ----

  predicate Calm(inputs: seq<Input>) {
    forall i | 0 <= i < |inputs| :: inputs[i].Arrives? ==> inputs[i].write.Completes?
  }

  /** The frames that arrive before the reader fails or the pump is cancelled. */
  function Arrived(inputs: seq<Input>): seq<Frame>
    decreases |inputs|
  {
    if inputs == [] || !inputs[0].Arrives? then [] else [inputs[0].frame] + Arrived(inputs[1..])
  }

  predicate NoClose(frames: seq<Frame>) {
    forall m | m in frames :: !m.opcode.Close?
  }

  /** Nobody closed: the data messages went out, as they are and in order. */
  ghost predicate ForwardsAll(messages: seq<Frame>, sent: seq<Frame>) {
    NoClose(messages) && sent == DataFrames(messages)
  }

  /** Message `k` is the first Close: the data messages before it went out, then the Close itself. */
  ghost predicate ForwardsToClose(messages: seq<Frame>, k: nat, sent: seq<Frame>) {
    && k < |messages| && messages[k].opcode.Close?
    && NoClose(messages[..k])
    && sent == DataFrames(messages[..k]) + [messages[k]]
  }

  ghost predicate ForwardsMessages(messages: seq<Frame>, sent: seq<Frame>, end: PumpEnd) {
    if end.PeerClosed? then exists k: nat :: ForwardsToClose(messages, k, sent) else ForwardsAll(messages, sent)
  }

  /** The output of a relay against the run of the reassembler on the same frames. */
  ghost predicate ForwardsRun(run: RunResult, out: RelayOutput) {
    && ForwardsMessages(run.messages, out.frames, out.end)
    && (!out.end.PeerClosed? ==> out.open == run.progress)
    && (out.end.Cancelled? ==> run.error.None?)
  }

  lemma ForwardsToCloseAfter(m: Frame, messages: seq<Frame>, k: nat, sent: seq<Frame>)
    requires ForwardsToClose(messages, k, sent) && !m.opcode.Close?
    ensures ForwardsToClose([m] + messages, k + 1, if m.opcode.IsControl() then sent else [m] + sent)
  {
    var all := [m] + messages;
    assert all[..k + 1] == [m] + messages[..k];
    assert all[..k + 1][1..] == messages[..k];
  }

  lemma ForwardsAllAfter(m: Frame, messages: seq<Frame>, sent: seq<Frame>)
    requires ForwardsAll(messages, sent) && !m.opcode.Close?
    ensures ForwardsAll([m] + messages, if m.opcode.IsControl() then sent else [m] + sent)
  {
    var all := [m] + messages;
    assert all[1..] == messages;
  }

  lemma ForwardsRunAfter(emitted: Option<Frame>, open: Progress, run: RunResult, out: RelayOutput)
    requires ForwardsRun(run, out)
    requires emitted.Some? && !emitted.value.opcode.IsControl() ==> emitted.value.opcode.StartsMessage()
    ensures ForwardsRun(After(emitted, run), Forwarding(emitted, Completes, open, out))
  {
    if emitted.None? {
      assert Listed(emitted) + run.messages == run.messages;
    } else {
      var m, whole := emitted.value, After(emitted, run);
      assert whole.messages == [m] + run.messages;
      if m.opcode.Close? {
        assert whole.messages[..0] == [];
        assert ForwardsToClose(whole.messages, 0, [m]);
      } else if out.end.PeerClosed? {
        var k: nat :| ForwardsToClose(run.messages, k, out.frames);
        ForwardsToCloseAfter(m, run.messages, k, out.frames);
      } else {
        ForwardsAllAfter(m, run.messages, out.frames);
      }
    }
  }

  /**
  With writes that complete, the relay forwards the data messages that come out of reassembly,
  unchanged and in order, up to the first Close, which is the last thing it forwards.
  */
  lemma {:induction false} RelayForwardsMessages(maximum: nat, progress: Progress, inputs: seq<Input>)
    requires Sane(maximum, progress) && Calm(inputs)
    ensures ForwardsRun(Run(maximum, progress, Arrived(inputs)), Relayed(maximum, progress, inputs))
    decreases |inputs|
  {
    if inputs != [] && inputs[0].Arrives? {
      var frame := inputs[0].frame;
      assert Arrived(inputs)[0] == frame && Arrived(inputs)[1..] == Arrived(inputs[1..]);
      if Check(maximum, progress, frame).Ok? {
        var next := Check(maximum, progress, frame).value;
        EmittedConserves(maximum, progress, frame);
        RelayForwardsMessages(maximum, next, inputs[1..]);
        RunStep(maximum, progress, Arrived(inputs), next);
        ForwardsRunAfter(Emitted(progress, frame), next, Run(maximum, next, Arrived(inputs[1..])),
          Relayed(maximum, next, inputs[1..]));
      }
    }
  }

  /** Whatever happens, only whole data messages and Close frames are forwarded: no Ping, Pong or fragment. */
  lemma {:induction false} OnlyMessagesForwarded(maximum: nat, progress: Progress, inputs: seq<Input>)
    requires Sane(maximum, progress)
    ensures forall m | m in Relayed(maximum, progress, inputs).frames :: m.opcode.Close? || IsMessage(maximum, m)
    decreases |inputs|
  {
    if inputs != [] && inputs[0].Arrives? && Check(maximum, progress, inputs[0].frame).Ok? {
      EmittedConserves(maximum, progress, inputs[0].frame);
      OnlyMessagesForwarded(maximum, Check(maximum, progress, inputs[0].frame).value, inputs[1..]);
    }
  }

  /** Control messages are the control frames themselves, so a run puts out no Close that did not come in. */
  lemma {:induction false} NoCloseComesOut(maximum: nat, progress: Progress, frames: seq<Frame>)
    requires Sane(maximum, progress) && NoClose(frames)
    ensures NoClose(Run(maximum, progress, frames).messages)
    decreases |frames|
  {
    if frames != [] && Check(maximum, progress, frames[0]).Ok? {
      EmittedConserves(maximum, progress, frames[0]);
      NoCloseComesOut(maximum, Check(maximum, progress, frames[0]).value, frames[1..]);
    }
  }

  /**
  End to end: messages cut in any way, with Pings and Pongs between the fragments, leave the relay
  whole, in order and under their own opcodes.
  */
  lemma MessagesRelayed(maximum: nat, messages: seq<Frame>, cuts: seq<seq<Frame>>, inputs: seq<Input>)
    requires AreCuts(maximum, messages, cuts) && NoClose(Flatten(cuts))
    requires Calm(inputs) && Arrived(inputs) == Flatten(cuts)
    ensures Relayed(maximum, Idle, inputs).frames == messages
    ensures Relayed(maximum, Idle, inputs).open == Idle
  {
    MessagesReassembled(maximum, messages, cuts);
    NoCloseComesOut(maximum, Idle, Flatten(cuts));
    RelayForwardsMessages(maximum, Idle, inputs);
  }

  lemma FirstCloseIsUnique(before: seq<Frame>, close: Frame, rest: seq<Frame>, k: nat, sent: seq<Frame>)
    requires NoClose(before) && close.opcode.Close? && ForwardsToClose(before + [close] + rest, k, sent)
    ensures sent == DataFrames(before) + [close]
  {
    var all := before + [close] + rest;
    assert all[|before|] == close;
    assert forall i | 0 <= i < |before| :: all[i] in before;
    forall n | |before| < n <= |all|
      ensures close in all[..n]
    {
      assert all[..n][|before|] == close;
    }
    assert all[..|before|] == before;
  }

  /** Nothing after a Close is forwarded: the messages before it, then the Close, and the pump ends. */
  lemma MessagesRelayedToClose(maximum: nat, messages: seq<Frame>, cuts: seq<seq<Frame>>, close: Frame,
      more: seq<Frame>, inputs: seq<Input>)
    requires AreCuts(maximum, messages, cuts) && NoClose(Flatten(cuts))
    requires close.opcode.Close? && |close.payload| <= MAX_CONTROL_PAYLOAD
    requires Calm(inputs) && Arrived(inputs) == Flatten(cuts) + [close] + more
    ensures Relayed(maximum, Idle, inputs).frames == messages + [close]
    ensures Relayed(maximum, Idle, inputs).end == PeerClosed
  {
    MessagesReassembled(maximum, messages, cuts);
    NoCloseComesOut(maximum, Idle, Flatten(cuts));
    var before, tail := Run(maximum, Idle, Flatten(cuts)), [close] + more;
    assert Arrived(inputs) == Flatten(cuts) + tail;
    RunAppend(maximum, Idle, Flatten(cuts), tail);
    RunStep(maximum, Idle, tail, Idle);
    assert tail[1..] == more;
    var later := Run(maximum, Idle, more).messages;
    var all := Run(maximum, Idle, Arrived(inputs)).messages;
    assert all == before.messages + [close] + later;
    assert all[|before.messages|] == close;
    RelayForwardsMessages(maximum, Idle, inputs);
    var out := Relayed(maximum, Idle, inputs);
    var k: nat :| ForwardsToClose(all, k, out.frames);
    FirstCloseIsUnique(before.messages, close, later, k, out.frames);
  }

  // ---- the bridge against the relay ----

  /** The same bytes left each pump, up to the message the relay is still holding back. */
  ghost predicate SameStream(tcp: TcpOutput, relay: RelayOutput, before: Progress) {
    && tcp.end == relay.end
    && tcp.open == relay.open
    && OpenBytes(before) + tcp.bytes == DataBytes(relay.frames) + OpenBytes(relay.open)
  }

  /**
  On the same frames the bridge writes the payloads the relay forwards, concatenated, then the
  bytes of the message still open; both stop at the same frame for the same reason.
  */
  lemma {:induction false} BridgeRefinesRelay(maximum: nat, progress: Progress, inputs: seq<Input>)
    requires Sane(maximum, progress) && Calm(inputs)
    ensures SameStream(Bridged(maximum, progress, inputs), Relayed(maximum, progress, inputs), progress)
    decreases |inputs|
  {
    if inputs != [] && inputs[0].Arrives? && Check(maximum, progress, inputs[0].frame).Ok? {
      var frame := inputs[0].frame;
      var next := Check(maximum, progress, frame).value;
      EmittedConserves(maximum, progress, frame);
      BridgeRefinesRelay(maximum, next, inputs[1..]);
      SameStreamAfter(progress, frame, Emitted(progress, frame), next,
        Bridged(maximum, next, inputs[1..]), Relayed(maximum, next, inputs[1..]));
      BothStep(maximum, progress, inputs, next);
    }
  }

  lemma BothStep(maximum: nat, progress: Progress, inputs: seq<Input>, next: Progress)
    requires inputs != [] && inputs[0].Arrives? && Check(maximum, progress, inputs[0].frame) == Ok(next)
    ensures var Arrives(frame, write) := inputs[0];
      && Bridged(maximum, progress, inputs) == Writing(frame, write, next, Bridged(maximum, next, inputs[1..]))
      && Relayed(maximum, progress, inputs) ==
           Forwarding(Emitted(progress, frame), write, next, Relayed(maximum, next, inputs[1..]))
  {
  }

  lemma SameStreamAfter(progress: Progress, frame: Frame, message: Option<Frame>, next: Progress, tcp: TcpOutput,
    relay: RelayOutput)
    requires SameStream(tcp, relay, next)
    requires DataBytes(Listed(message)) + OpenBytes(next) == OpenBytes(progress) + Carried(frame)
    requires frame.opcode.IsControl() ==> message == Some(frame) && next == progress
    requires !frame.opcode.IsControl() && message.Some? ==> message.value.opcode.StartsMessage()
    ensures SameStream(Writing(frame, Completes, next, tcp), Forwarding(message, Completes, next, relay), progress)
  {
    if frame.opcode.IsControl() {
      OneCarried(frame);
    } else {
      SameStreamAfterData(progress, frame, message, next, tcp, relay);
    }
  }

  lemma SameStreamAfterData(progress: Progress, frame: Frame, message: Option<Frame>, next: Progress, tcp: TcpOutput,
    relay: RelayOutput)
    requires SameStream(tcp, relay, next) && !frame.opcode.IsControl()
    requires DataBytes(Listed(message)) + OpenBytes(next) == OpenBytes(progress) + Carried(frame)
    requires message.Some? ==> message.value.opcode.StartsMessage()
    ensures SameStream(Writing(frame, Completes, next, tcp), Forwarding(message, Completes, next, relay), progress)
  {
    var out := Forwarding(message, Completes, next, relay);
    assert out.frames == Listed(message) + relay.frames && out.open == relay.open && out.end == relay.end;
    DataFramesAppend(Listed(message), relay.frames);
    JoinBytes(DataBytes(Listed(message)), DataBytes(relay.frames), OpenBytes(relay.open), OpenBytes(next), tcp.bytes,
      OpenBytes(progress), frame.payload);
  }

  lemma OneCarried(m: Frame)
    ensures DataBytes([m]) == Carried(m)
  {
    assert [m][1..] == [];
  }

  // ---- cancellation and failures ----

  /** After frames without a failure or a Close the bridge goes on from where they left off. */
  lemma {:induction false} BridgedAppend(maximum: nat, progress: Progress, before: seq<Input>, rest: seq<Input>)
    requires Uneventful(maximum, progress, before)
    ensures var open := Run(maximum, progress, Arrived(before)).progress;
      Bridged(maximum, progress, before + rest) ==
        Behind(DataBytes(Arrived(before)), Bridged(maximum, open, rest))
    decreases |before|
  {
    if before == [] {
      assert before + rest == rest;
    } else {
      var next := Check(maximum, progress, before[0].frame).value;
      assert (before + rest)[0] == before[0] && (before + rest)[1..] == before[1..] + rest;
      assert Arrived(before)[0] == before[0].frame && Arrived(before)[1..] == Arrived(before[1..]);
      RunStep(maximum, progress, Arrived(before), next);
      BridgedAppend(maximum, next, before[1..], rest);
      var open := Run(maximum, next, Arrived(before[1..])).progress;
      Associates(Carried(before[0].frame), DataBytes(Arrived(before[1..])), Bridged(maximum, open, rest).bytes);
    }
  }

  /** Accepted frames, none a Close, whose writes complete. */
  ghost predicate Uneventful(maximum: nat, progress: Progress, inputs: seq<Input>) {
    && (forall i | 0 <= i < |inputs| :: inputs[i].Arrives? && inputs[i].write.Completes?)
    && NoClose(Arrived(inputs)) && Run(maximum, progress, Arrived(inputs)).error.None?
  }

  /**
  Where a write stops, the backend has every payload before it and exactly the bytes of this one that were
  written; the pump ends as cancelled or failed, and nothing later is read.
  */
  lemma StoppedWriteExactly(maximum: nat, progress: Progress, before: seq<Input>, frame: Frame, n: nat,
    cancelled: bool, rest: seq<Input>)
    requires Uneventful(maximum, progress, before) && !frame.opcode.IsControl()
    requires Check(maximum, Run(maximum, progress, Arrived(before)).progress, frame).Ok?
    ensures var out := Bridged(maximum, progress, before + [Arrives(frame, StopsAfter(n, cancelled))] + rest);
      && out.bytes == DataBytes(Arrived(before)) + (if n < |frame.payload| then frame.payload[..n] else frame.payload)
      && out.end == (if cancelled then Cancelled else Failed)
  {
    var tail := [Arrives(frame, StopsAfter(n, cancelled))] + rest;
    assert before + [Arrives(frame, StopsAfter(n, cancelled))] + rest == before + tail;
    BridgedAppend(maximum, progress, before, tail);
  }

  lemma {:induction false} RelayedAppend(maximum: nat, progress: Progress, before: seq<Input>, rest: seq<Input>)
    requires Sane(maximum, progress) && Uneventful(maximum, progress, before)
    ensures var run := Run(maximum, progress, Arrived(before));
      && Relayed(maximum, progress, before + rest).frames ==
           DataFrames(run.messages) + Relayed(maximum, run.progress, rest).frames
      && Relayed(maximum, progress, before + rest).end == Relayed(maximum, run.progress, rest).end
      && Sane(maximum, run.progress)
    decreases |before|
  {
    if before == [] {
      assert before + rest == rest;
    } else {
      var frame := before[0].frame;
      var next := UneventfulStep(maximum, progress, before);
      assert (before + rest)[0] == before[0] && (before + rest)[1..] == before[1..] + rest;
      RelayedAppend(maximum, next, before[1..], rest);
      var run := Run(maximum, next, Arrived(before[1..]));
      ForwardsOne(Emitted(progress, frame), next, run, Relayed(maximum, next, before[1..] + rest),
        Relayed(maximum, run.progress, rest).frames);
      BothStep(maximum, progress, before + rest, next);
    }
  }

  lemma UneventfulStep(maximum: nat, progress: Progress, before: seq<Input>) returns (next: Progress)
    requires Sane(maximum, progress) && Uneventful(maximum, progress, before) && before != []
    ensures before[0].Arrives? && before[0].write.Completes?
    ensures Check(maximum, progress, before[0].frame) == Ok(next) && Sane(maximum, next)
    ensures Uneventful(maximum, next, before[1..])
    ensures Run(maximum, progress, Arrived(before)) ==
      After(Emitted(progress, before[0].frame), Run(maximum, next, Arrived(before[1..])))
    ensures var emitted := Emitted(progress, before[0].frame);
      emitted.Some? ==> !emitted.value.opcode.Close? && !emitted.value.opcode.Continuation?
  {
    var frame := before[0].frame;
    next := Check(maximum, progress, frame).value;
    assert Arrived(before)[0] == frame && Arrived(before)[1..] == Arrived(before[1..]);
    assert frame in Arrived(before);
    RunStep(maximum, progress, Arrived(before), next);
    EmittedConserves(maximum, progress, frame);
  }

  lemma ForwardsOne(emitted: Option<Frame>, open: Progress, run: RunResult, out: RelayOutput, more: seq<Frame>)
    requires out.frames == DataFrames(run.messages) + more
    requires emitted.Some? ==> !emitted.value.opcode.Close? && !emitted.value.opcode.Continuation?
    ensures Forwarding(emitted, Completes, open, out).frames == DataFrames(After(emitted, run).messages) + more
    ensures Forwarding(emitted, Completes, open, out).end == out.end
  {
    var listed := Listed(emitted);
    DataFramesAppend(listed, run.messages);
    Associates(DataFrames(listed), DataFrames(run.messages), more);
    assert listed != [] ==> listed[1..] == [];
  }

  /**
  Where the write of a message or of a Close stops, everything before it has been forwarded and nothing of it
  counts as forwarded; the pump ends as failed.
  */
  lemma StoppedForwardExactly(maximum: nat, progress: Progress, before: seq<Input>, frame: Frame, n: nat,
    cancelled: bool, rest: seq<Input>)
    requires Sane(maximum, progress) && Uneventful(maximum, progress, before)
    requires Check(maximum, Run(maximum, progress, Arrived(before)).progress, frame).Ok?
    requires !frame.opcode.Ping? && !frame.opcode.Pong? && (frame.opcode.Close? || frame.fin)
    ensures var out := Relayed(maximum, progress, before + [Arrives(frame, StopsAfter(n, cancelled))] + rest);
      out.frames == DataFrames(Run(maximum, progress, Arrived(before)).messages) && out.end == Failed
  {
    var tail := [Arrives(frame, StopsAfter(n, cancelled))] + rest;
    assert before + [Arrives(frame, StopsAfter(n, cancelled))] + rest == before + tail;
    RelayedAppend(maximum, progress, before, tail);
  }

  /** `inputs` is the undisturbed script up to some point, where a write, the reader or a cancellation stops it. */
  predicate DisturbedFrom(inputs: seq<Input>, calm: seq<Input>)
    decreases |inputs|
  {
    || inputs == []
    || !inputs[0].Arrives?
    || (calm != [] && calm[0] == Arrives(inputs[0].frame, Completes) && DisturbedFrom(inputs[1..], calm[1..]))
  }

  /** However the bridge is disturbed, what the backend got is a prefix of the undisturbed stream. */
  lemma {:induction false} DisturbedIsPrefix(maximum: nat, progress: Progress, inputs: seq<Input>, calm: seq<Input>)
    requires DisturbedFrom(inputs, calm)
    ensures Bridged(maximum, progress, inputs).bytes <= Bridged(maximum, progress, calm).bytes
    decreases |inputs|
  {
    if inputs != [] && inputs[0].Arrives? && Check(maximum, progress, inputs[0].frame).Ok? {
      DisturbedIsPrefix(maximum, Check(maximum, progress, inputs[0].frame).value, inputs[1..], calm[1..]);
    }
  }

  /** Likewise, what the relay forwarded is a prefix of what it would have forwarded undisturbed. */
  lemma {:induction false} DisturbedRelayIsPrefix(maximum: nat, progress: Progress, inputs: seq<Input>,
      calm: seq<Input>)
    requires DisturbedFrom(inputs, calm)
    ensures Relayed(maximum, progress, inputs).frames <= Relayed(maximum, progress, calm).frames
    decreases |inputs|
  {
    if inputs != [] && inputs[0].Arrives? && Check(maximum, progress, inputs[0].frame).Ok? {
      DisturbedRelayIsPrefix(maximum, Check(maximum, progress, inputs[0].frame).value, inputs[1..], calm[1..]);
    }
  }
}
