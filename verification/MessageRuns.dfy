/**
Reassembly of fragmented messages (the rest of src/gateway/websocket_message.rs) and what the
validator and the reassembler do over whole frame sequences, for every way of cutting messages.
*/
module MessageRuns {
  import opened Wrappers
  import opened WebsocketMessage
  import Utf8

  // ---- one frame ----

  /** The frame handed on once `frame` has been accepted, if it completes a message or is control. */
  ghost function Emitted(progress: Progress, frame: Frame): Option<Frame> {
    match frame.opcode
    case Text => if frame.fin then Some(frame) else None
    case Binary => if frame.fin then Some(frame) else None
    case Continuation =>
      if frame.fin && progress.Open? then Some(Frame(true, progress.opcode, progress.bytes + frame.payload)) else None
    case _ => Some(frame)
  }

  // ---- buffer growth ----

  /** The new capacity when `length` bytes do not fit in `capacity`. */
  function GrownCapacity(capacity: nat, length: nat, maximum: nat): nat {
    var doubled := if capacity * 2 <= USIZE_MAX then capacity * 2 else USIZE_MAX;
    var wanted := if length >= doubled then length else doubled;
    if wanted <= maximum then wanted else maximum
  }

  /** Bytes moved so far by reallocation stay below twice the final allocation. */
  ghost predicate GrowthPaid(moved: nat, capacity: nat, maximum: nat) {
    || moved == 0
    || (moved <= capacity < maximum)
    || (moved < 2 * maximum && maximum <= capacity)
  }

  lemma GrowthStep(moved: nat, capacity: nat, length: nat, maximum: nat)
    requires maximum <= USIZE_MAX && capacity < length <= maximum
    requires GrowthPaid(moved, capacity, maximum)
    ensures length <= GrownCapacity(capacity, length, maximum) <= maximum
    ensures GrowthPaid(moved + capacity, GrownCapacity(capacity, length, maximum), maximum)
  {
  }

  /** Bytes moved when fragments of the given sizes are appended one after the other. */
  function TotalMoved(capacity: nat, length: nat, sizes: seq<nat>, maximum: nat): nat
    decreases |sizes|
  {
    if sizes == [] then 0
    else if length + sizes[0] > capacity then
      capacity + TotalMoved(GrownCapacity(capacity, length + sizes[0], maximum), length + sizes[0], sizes[1..], maximum)
    else TotalMoved(capacity, length + sizes[0], sizes[1..], maximum)
  }

  function Sum(sizes: seq<nat>): nat {
    if sizes == [] then 0 else sizes[0] + Sum(sizes[1..])
  }

  lemma {:induction false} GrowthRun(moved: nat, capacity: nat, length: nat, sizes: seq<nat>, maximum: nat)
    requires maximum <= USIZE_MAX && length <= capacity && length + Sum(sizes) <= maximum
    requires GrowthPaid(moved, capacity, maximum)
    ensures moved + TotalMoved(capacity, length, sizes, maximum) < 2 * maximum
      || moved + TotalMoved(capacity, length, sizes, maximum) == 0
    decreases |sizes|
  {
    if sizes != [] {
      var next := length + sizes[0];
      if next > capacity {
        GrowthStep(moved, capacity, next, maximum);
        GrowthRun(moved + capacity, GrownCapacity(capacity, next, maximum), next, sizes[1..], maximum);
      } else {
        GrowthRun(moved, capacity, next, sizes[1..], maximum);
      }
    }
  }

  /** Over one message of any number of fragments, reallocation moves fewer than `2 * maximum` bytes. */
  lemma ReallocationBound(capacity: nat, sizes: seq<nat>, maximum: nat)
    requires maximum <= USIZE_MAX
    requires sizes != [] && sizes[0] <= capacity && Sum(sizes) <= maximum
    ensures TotalMoved(capacity, sizes[0], sizes[1..], maximum) < 2 * maximum
      || TotalMoved(capacity, sizes[0], sizes[1..], maximum) == 0
  {
    GrowthRun(0, capacity, sizes[0], sizes[1..], maximum);
  }

  datatype Fragments = Fragments(opcode: OpCode, buffer: seq<byte>, capacity: nat)

  class BoundedMessages {
    const sequence: MessageSequence
    var fragments: Option<Fragments>
    /** Bytes moved by reallocation for the latest fragmented message. */
    ghost var moved: nat

    ghost predicate Valid()
      reads this, sequence
    {
      && sequence.Valid()
      && BufferMirrors(sequence.Progress())
      && (moved == 0 || moved < 2 * sequence.maximum)
      && (fragments.Some? ==> GrowthPaid(moved, fragments.value.capacity, sequence.maximum))
    }

    /** The buffer exists exactly when a message is open, and holds its bytes. */
    ghost predicate BufferMirrors(progress: Progress)
      reads this
    {
      match progress
      case Idle => fragments.None?
      case Open(opcode, bytes) =>
        && fragments.Some?
        && fragments.value.opcode == opcode
        && fragments.value.buffer == bytes
        && |bytes| <= fragments.value.capacity
    }

    constructor (maximum: nat)
      requires maximum <= USIZE_MAX
      ensures Valid() && fresh(sequence)
      ensures sequence.maximum == maximum && sequence.Progress() == Idle
    {
      sequence := new MessageSequence(maximum);
      fragments := None;
      moved := 0;
    }

    /** `room` is the capacity of the vector the first fragment's payload is turned into. */
    method Collect(frame: Frame, room: nat) returns (r: Result<Option<Frame>, WebSocketError>)
      requires Valid() && |frame.payload| <= room
      modifies this, sequence
      ensures match Check(sequence.maximum, old(sequence.Progress()), frame)
        case Ok(progress) =>
          r == Ok(Emitted(old(sequence.Progress()), frame)) && Valid() && sequence.Progress() == progress
        case Err(error) => r == Err(error)
      ensures r.Ok? && old(fragments).Some? && fragments.Some? ==>
        fragments.value.capacity == old(fragments).value.capacity || fragments.value.capacity <= sequence.maximum
    {
      var checked := sequence.Validate(frame);
      if checked.Err? {
        return Err(checked.error);
      }
      match frame.opcode {
        case Text | Binary =>
          if !frame.fin {
            fragments := Some(Fragments(frame.opcode, frame.payload, room));
            moved := 0;
            return Ok(None);
          }
          return Ok(Some(frame));
        case Continuation =>
          if fragments.None? {
            return Err(InvalidContinuationFrame);
          }
          var Fragments(opcode, buffer, capacity) := fragments.value;
          if |buffer| + |frame.payload| > USIZE_MAX {
            return Err(FrameTooLarge);
          }
          var length := |buffer| + |frame.payload|;
          if length > sequence.maximum {
            return Err(FrameTooLarge);
          }
          if length > capacity {
            var wanted := GrownCapacity(capacity, length, sequence.maximum);
            GrowthStep(moved, capacity, length, sequence.maximum);
            var additional: nat := wanted - |buffer|;
            moved := moved + capacity;
            capacity := |buffer| + additional;
          }
          buffer := buffer + frame.payload;
          fragments := Some(Fragments(opcode, buffer, capacity));
          if frame.fin {
            fragments := None;
            return Ok(Some(Frame(true, opcode, buffer)));
          }
          return Ok(None);
        case _ =>
          return Ok(Some(frame));
      }
    }
  }

  // ---- whole frame sequences ----

  /** What came out, how many frames were accepted, what is still open, and why the run stopped. */
  datatype RunResult =
    RunResult(messages: seq<Frame>, accepted: nat, progress: Progress, error: Option<WebSocketError>)

  /** Feeds frames until the first rejection. */
  ghost function Run(maximum: nat, progress: Progress, frames: seq<Frame>): RunResult
    decreases |frames|
  {
    if frames == [] then RunResult([], 0, progress, None)
    else match Check(maximum, progress, frames[0])
      case Err(error) => RunResult([], 0, progress, Some(error))
      case Ok(next) => After(Emitted(progress, frames[0]), Run(maximum, next, frames[1..]))
  }

  /** The run with one accepted frame before it. */
  ghost function After(emitted: Option<Frame>, rest: RunResult): RunResult {
    rest.(messages := Listed(emitted) + rest.messages, accepted := 1 + rest.accepted)
  }

  /** One run continued by another. */
  ghost function Then(first: RunResult, second: RunResult): RunResult {
    second.(messages := first.messages + second.messages, accepted := first.accepted + second.accepted)
  }

  lemma ThenAfter(emitted: Option<Frame>, first: RunResult, second: RunResult)
    ensures Then(After(emitted, first), second) == After(emitted, Then(first, second))
  {
    assert Listed(emitted) + first.messages + second.messages == Listed(emitted) + (first.messages + second.messages);
  }

  lemma RunStep(maximum: nat, progress: Progress, frames: seq<Frame>, next: Progress)
    requires frames != [] && Check(maximum, progress, frames[0]) == Ok(next)
    ensures Run(maximum, progress, frames) == After(Emitted(progress, frames[0]), Run(maximum, next, frames[1..]))
  {
  }

  function Listed(frame: Option<Frame>): seq<Frame> {
    if frame.Some? then [frame.value] else []
  }

  /** The payloads of the data frames, concatenated. */
  function DataBytes(frames: seq<Frame>): seq<byte>
    decreases |frames|
  {
    if frames == [] then []
    else Carried(frames[0]) + DataBytes(frames[1..])
  }

  /** The message bytes a frame carries. */
  function Carried(frame: Frame): seq<byte> {
    if frame.opcode.IsControl() then [] else frame.payload
  }

  function Controls(frames: seq<Frame>): seq<Frame>
    decreases |frames|
  {
    if frames == [] then []
    else (if frames[0].opcode.IsControl() then [frames[0]] else []) + Controls(frames[1..])
  }

  function DataFrames(frames: seq<Frame>): seq<Frame>
    decreases |frames|
  {
    if frames == [] then []
    else (if frames[0].opcode.IsControl() then [] else [frames[0]]) + DataFrames(frames[1..])
  }

  /** `frames` is one way of sending (the rest of) a message: fragments in order, the last one
      final, empty fragments allowed, control frames of at most 125 bytes anywhere between. */
  predicate CutInto(frames: seq<Frame>, opcode: OpCode, payload: seq<byte>, started: bool)
    decreases |frames|
  {
    && frames != []
    && var f := frames[0];
      if f.opcode.IsControl() then
        |f.payload| <= MAX_CONTROL_PAYLOAD && CutInto(frames[1..], opcode, payload, started)
      else
        && f.opcode == (if started then Continuation else opcode)
        && f.payload <= payload
        && if f.fin then f.payload == payload && |frames| == 1
           else CutInto(frames[1..], opcode, payload[|f.payload|..], true)
  }

  /** What may have been received of a message so far. */
  ghost predicate Acceptable(maximum: nat, opcode: OpCode, bytes: seq<byte>, fin: bool) {
    |bytes| <= maximum && (opcode == Text ==> Plausible(bytes, fin))
  }

  ghost function At(started: bool, opcode: OpCode, before: seq<byte>): Progress {
    if started then Open(opcode, before) else Idle
  }

  /** The run over a cut message accepts exactly as long as the bytes so far are acceptable. */
  ghost predicate RunsAs(maximum: nat, opcode: OpCode, before: seq<byte>, frames: seq<Frame>, payload: seq<byte>,
    run: RunResult)
  {
    && AcceptsWhile(maximum, opcode, before, frames, run)
    && (run.error.None? <==> Acceptable(maximum, opcode, before + payload, true))
    && (run.error.None? ==>
          && run.progress == Idle
          && run.accepted == |frames|
          && run.messages == Controls(frames) + [Frame(true, opcode, before + payload)])
  }

  ghost predicate AcceptsWhile(maximum: nat, opcode: OpCode, before: seq<byte>, frames: seq<Frame>, run: RunResult) {
    && run.accepted <= |frames|
    && (forall k | 0 <= k < run.accepted && !frames[k].opcode.IsControl() ::
          AcceptableAt(maximum, opcode, before, frames, k))
    && (run.error.Some? ==>
          && run.error.value in {InvalidUtf8, FrameTooLarge}
          && run.accepted < |frames|
          && !frames[run.accepted].opcode.IsControl()
          && !AcceptableAt(maximum, opcode, before, frames, run.accepted))
  }

  /** The bytes received once frame `k` has arrived are acceptable. */
  ghost predicate AcceptableAt(maximum: nat, opcode: OpCode, before: seq<byte>, frames: seq<Frame>, k: nat)
    requires k < |frames|
  {
    Acceptable(maximum, opcode, before + DataBytes(frames[..k + 1]), frames[k].fin)
  }

  lemma AcceptableAtFirst(maximum: nat, opcode: OpCode, before: seq<byte>, frames: seq<Frame>)
    requires frames != []
    ensures AcceptableAt(maximum, opcode, before, frames, 0) <==>
      Acceptable(maximum, opcode, before + Carried(frames[0]), frames[0].fin)
  {
    assert frames[..1][1..] == [];
    assert DataBytes(frames[..1]) == Carried(frames[0]);
  }

  lemma AcceptableAtNext(maximum: nat, opcode: OpCode, before: seq<byte>, frames: seq<Frame>, k: nat)
    requires k + 1 < |frames|
    ensures AcceptableAt(maximum, opcode, before, frames, k + 1) <==>
      AcceptableAt(maximum, opcode, before + Carried(frames[0]), frames[1..], k)
  {
    assert frames[..k + 2][1..] == frames[1..][..k + 1];
    assert before + DataBytes(frames[..k + 2]) == before + Carried(frames[0]) + DataBytes(frames[1..][..k + 1]);
  }

  lemma AcceptsWhileAfter(maximum: nat, opcode: OpCode, before: seq<byte>, frames: seq<Frame>, inner: RunResult,
    run: RunResult)
    requires frames != []
    requires AcceptsWhile(maximum, opcode, before + Carried(frames[0]), frames[1..], inner)
    requires !frames[0].opcode.IsControl() ==>
      Acceptable(maximum, opcode, before + Carried(frames[0]), frames[0].fin)
    requires run.accepted == 1 + inner.accepted && run.error == inner.error
    ensures AcceptsWhile(maximum, opcode, before, frames, run)
  {
    forall k | 0 <= k < run.accepted && !frames[k].opcode.IsControl()
      ensures AcceptableAt(maximum, opcode, before, frames, k)
    {
      if k == 0 {
        AcceptableAtFirst(maximum, opcode, before, frames);
      } else {
        AcceptableAtNext(maximum, opcode, before, frames, k - 1);
      }
    }
    if run.error.Some? {
      AcceptableAtNext(maximum, opcode, before, frames, inner.accepted);
    }
  }

  /** One frame of a cut message that is not its last, given the run over the frames after it. */
  lemma RunsAsAfter(maximum: nat, opcode: OpCode, before: seq<byte>, frames: seq<Frame>, payload: seq<byte>,
    inner: RunResult)
    requires frames != [] && Carried(frames[0]) <= payload
    requires !frames[0].opcode.IsControl() ==>
      Acceptable(maximum, opcode, before + Carried(frames[0]), frames[0].fin)
    requires RunsAs(maximum, opcode, before + Carried(frames[0]), frames[1..], payload[|Carried(frames[0])|..], inner)
    ensures RunsAs(maximum, opcode, before, frames, payload,
              After(if frames[0].opcode.IsControl() then Some(frames[0]) else None, inner))
  {
    var f := frames[0];
    var run := After(if f.opcode.IsControl() then Some(f) else None, inner);
    AcceptsWhileAfter(maximum, opcode, before, frames, inner, run);
    assert before + payload == (before + Carried(f)) + payload[|Carried(f)|..];
  }

  lemma RunsAsLast(maximum: nat, opcode: OpCode, before: seq<byte>, f: Frame, progress: Progress)
    requires !f.opcode.IsControl() && f.fin
    requires Check(maximum, progress, f) == Ok(Idle)
    requires Emitted(progress, f) == Some(Frame(true, opcode, before + f.payload))
    requires Acceptable(maximum, opcode, before + f.payload, true)
    ensures RunsAs(maximum, opcode, before, [f], f.payload, Run(maximum, progress, [f]))
  {
    AcceptableAtFirst(maximum, opcode, before, [f]);
    assert [f][1..] == [];
    assert Run(maximum, Idle, []) == RunResult([], 0, Idle, None);
    assert Controls([f]) == [];
  }

  lemma RunsAsRejected(maximum: nat, opcode: OpCode, before: seq<byte>, frames: seq<Frame>, payload: seq<byte>,
    progress: Progress)
    requires frames != [] && !frames[0].opcode.IsControl() && frames[0].payload <= payload
    requires frames[0].fin ==> frames[0].payload == payload
    requires Check(maximum, progress, frames[0]).Err?
    requires Check(maximum, progress, frames[0]).error in {InvalidUtf8, FrameTooLarge}
    requires !Acceptable(maximum, opcode, before + frames[0].payload, frames[0].fin)
    ensures RunsAs(maximum, opcode, before, frames, payload, Run(maximum, progress, frames))
  {
    AcceptableAtFirst(maximum, opcode, before, frames);
    var bytes, rest := before + frames[0].payload, payload[|frames[0].payload|..];
    assert before + payload == bytes + rest;
    WholeUnacceptable(maximum, opcode, bytes, rest, frames[0].fin);
  }

  /** Once the bytes so far cannot be continued, the whole message is not acceptable either. */
  lemma WholeUnacceptable(maximum: nat, opcode: OpCode, bytes: seq<byte>, rest: seq<byte>, fin: bool)
    requires !Acceptable(maximum, opcode, bytes, fin)
    requires fin ==> rest == []
    ensures !Acceptable(maximum, opcode, bytes + rest, true)
  {
    if fin {
      assert bytes + rest == bytes;
    } else if Utf8.Valid(bytes + rest) {
      Utf8.ValidIsExtendable(bytes + rest);
      Utf8.ShorterIsExtendable(bytes, rest);
    }
  }

  lemma {:induction false} RunOnCut(
    maximum: nat, opcode: OpCode, before: seq<byte>, frames: seq<Frame>, payload: seq<byte>, started: bool)
    requires opcode.StartsMessage()
    requires CutInto(frames, opcode, payload, started)
    requires !started ==> before == []
    ensures RunsAs(maximum, opcode, before, frames, payload, Run(maximum, At(started, opcode, before), frames))
    decreases |frames|
  {
    var f, progress := frames[0], At(started, opcode, before);
    var bytes, rest := before + Carried(f), payload[|Carried(f)|..];
    if f.opcode.IsControl() {
      assert bytes == before && rest == payload;
      RunOnCut(maximum, opcode, before, frames[1..], payload, started);
      RunStep(maximum, progress, frames, progress);
      RunsAsAfter(maximum, opcode, before, frames, payload, Run(maximum, progress, frames[1..]));
    } else if !Acceptable(maximum, opcode, bytes, f.fin) {
      RunsAsRejected(maximum, opcode, before, frames, payload, progress);
    } else if f.fin {
      assert frames == [f];
      assert f.opcode != Continuation ==> before + f.payload == f.payload;
      RunsAsLast(maximum, opcode, before, f, progress);
    } else {
      RunOnCut(maximum, opcode, bytes, frames[1..], rest, true);
      RunStep(maximum, progress, frames, Open(opcode, bytes));
      RunsAsAfter(maximum, opcode, before, frames, payload, Run(maximum, Open(opcode, bytes), frames[1..]));
    }
  }

  /**
  However a message is cut into frames, the validator accepts every frame up to the final one
  exactly when the whole payload fits and (for text) is UTF-8; otherwise it stops at the first
  frame after which the bytes received cannot be continued.
  */
  lemma CutMessageAccepted(maximum: nat, frames: seq<Frame>, opcode: OpCode, payload: seq<byte>)
    requires opcode.StartsMessage() && CutInto(frames, opcode, payload, false)
    ensures RunsAs(maximum, opcode, [], frames, payload, Run(maximum, Idle, frames))
    ensures Run(maximum, Idle, frames).error.None? <==>
      |payload| <= maximum && (opcode == Text ==> Utf8.Valid(payload))
  {
    RunOnCut(maximum, opcode, [], frames, payload, false);
    assert [] + payload == payload;
  }

  // ---- several messages, and arbitrary frame sequences ----

  lemma {:induction false} RunAppend(maximum: nat, progress: Progress, a: seq<Frame>, b: seq<Frame>)
    requires Run(maximum, progress, a).error.None?
    ensures Run(maximum, progress, a).accepted == |a|
    ensures Run(maximum, progress, a + b) ==
      Then(Run(maximum, progress, a), Run(maximum, Run(maximum, progress, a).progress, b))
    decreases |a|
  {
    if a == [] {
      assert a + b == b;
    } else {
      assert (a + b)[1..] == a[1..] + b && (a + b)[0] == a[0];
      var next := Check(maximum, progress, a[0]).value;
      var first := Run(maximum, next, a[1..]);
      RunStep(maximum, progress, a, next);
      RunStep(maximum, progress, a + b, next);
      RunAppend(maximum, next, a[1..], b);
      assert Run(maximum, next, (a + b)[1..]) == Then(first, Run(maximum, first.progress, b));
      ThenAfter(Emitted(progress, a[0]), first, Run(maximum, first.progress, b));
    }
  }

  lemma {:induction false} DataFramesAppend(a: seq<Frame>, b: seq<Frame>)
    ensures DataFrames(a + b) == DataFrames(a) + DataFrames(b)
    ensures DataBytes(a + b) == DataBytes(a) + DataBytes(b)
    decreases |a|
  {
    if a == [] {
      assert a + b == b;
    } else {
      var rest := a[1..];
      assert (a + b)[0] == a[0] && (a + b)[1..] == rest + b;
      DataFramesAppend(rest, b);
      Associates(DataFrames([a[0]]), DataFrames(rest), DataFrames(b));
      Associates(Carried(a[0]), DataBytes(rest), DataBytes(b));
      DataFirstFrame(a);
      DataFirstFrame(a + b);
    }
  }

  lemma DataFirstFrame(frames: seq<Frame>)
    requires frames != []
    ensures DataFrames(frames) == DataFrames([frames[0]]) + DataFrames(frames[1..])
    ensures DataBytes(frames) == Carried(frames[0]) + DataBytes(frames[1..])
  {
    assert [frames[0]][1..] == [];
  }

  lemma Associates<T>(a: seq<T>, b: seq<T>, c: seq<T>)
    ensures a + (b + c) == a + b + c
  {
  }

  lemma {:induction false} NoDataInControls(frames: seq<Frame>)
    ensures DataFrames(Controls(frames)) == []
    decreases |frames|
  {
    if frames != [] {
      NoDataInControls(frames[1..]);
      if frames[0].opcode.IsControl() {
        assert Controls(frames)[1..] == Controls(frames[1..]);
      } else {
        assert Controls(frames) == Controls(frames[1..]);
      }
    }
  }

  function Flatten(cuts: seq<seq<Frame>>): seq<Frame> {
    if cuts == [] then [] else cuts[0] + Flatten(cuts[1..])
  }

  ghost predicate IsMessage(maximum: nat, message: Frame) {
    message.fin && message.opcode.StartsMessage() && Acceptable(maximum, message.opcode, message.payload, true)
  }

  /** Each message fits and is cut into the frames of the same index. */
  ghost predicate AreCuts(maximum: nat, messages: seq<Frame>, cuts: seq<seq<Frame>>) {
    && |cuts| == |messages|
    && forall i | 0 <= i < |messages| ::
         IsMessage(maximum, messages[i]) && CutInto(cuts[i], messages[i].opcode, messages[i].payload, false)
  }

  /** The run took every frame, left nothing open and put out exactly these data messages. */
  ghost predicate Delivers(run: RunResult, frames: seq<Frame>, messages: seq<Frame>) {
    && run.error.None?
    && run.progress == Idle
    && run.accepted == |frames|
    && DataFrames(run.messages) == messages
  }

  lemma MessageReassembled(maximum: nat, m: Frame, cut: seq<Frame>)
    requires IsMessage(maximum, m) && CutInto(cut, m.opcode, m.payload, false)
    ensures Delivers(Run(maximum, Idle, cut), cut, [m])
  {
    CutMessageAccepted(maximum, cut, m.opcode, m.payload);
    assert [] + m.payload == m.payload;
    NoDataInControls(cut);
    DataFramesAppend(Controls(cut), [m]);
    assert DataFrames([m]) == [m] by { assert [m][1..] == []; }
  }

  /**
  Round trip: any messages that fit, each cut in any way and sent one after the other, come out
  whole, in order and independent of the cuts.
  */
  lemma {:induction false} MessagesReassembled(maximum: nat, messages: seq<Frame>, cuts: seq<seq<Frame>>)
    requires AreCuts(maximum, messages, cuts)
    ensures Delivers(Run(maximum, Idle, Flatten(cuts)), Flatten(cuts), messages)
    decreases |messages|
  {
    if messages != [] {
      var later := Flatten(cuts[1..]);
      MessageReassembled(maximum, messages[0], cuts[0]);
      MessagesReassembled(maximum, messages[1..], cuts[1..]);
      RunAppend(maximum, Idle, cuts[0], later);
      DataFramesAppend(Run(maximum, Idle, cuts[0]).messages, Run(maximum, Idle, later).messages);
      assert messages == [messages[0]] + messages[1..];
    }
  }

  // ---- the converse: what is accepted is a sequence of cut messages ----

  ghost predicate AllControls(frames: seq<Frame>) {
    forall f | f in frames :: f.opcode.IsControl() && |f.payload| <= MAX_CONTROL_PAYLOAD
  }

  /** The frames are cut messages, one after the other, then control frames; the first may be under way. */
  ghost predicate ReadAs(opcode: OpCode, started: bool, frames: seq<Frame>, cuts: seq<seq<Frame>>, first: seq<byte>,
    trailing: seq<Frame>)
  {
    && AllControls(trailing)
    && frames == Flatten(cuts) + trailing
    && (forall i | 1 <= i < |cuts| :: IsCut(cuts[i]))
    && (started ==> cuts != [] && CutInto(cuts[0], opcode, first, true))
    && (!started && cuts != [] ==> IsCut(cuts[0]))
  }

  /** The frames of one whole message. */
  ghost predicate IsCut(cut: seq<Frame>) {
    exists opcode: OpCode, payload: seq<byte> :: opcode.StartsMessage() && CutInto(cut, opcode, payload, false)
  }

  lemma ControlFirst(opcode: OpCode, started: bool, frames: seq<Frame>, cuts: seq<seq<Frame>>, first: seq<byte>,
    trailing: seq<Frame>)
    returns (more: seq<seq<Frame>>, after: seq<Frame>)
    requires frames != [] && AllControls([frames[0]]) && ReadAs(opcode, started, frames[1..], cuts, first, trailing)
    ensures ReadAs(opcode, started, frames, more, first, after)
  {
    var f := frames[0];
    assert f in [f];
    assert frames == [f] + frames[1..];
    if cuts == [] {
      more, after := [], [f] + trailing;
    } else {
      more, after := [[f] + cuts[0]] + cuts[1..], trailing;
      assert more[1..] == cuts[1..] && ([f] + cuts[0])[1..] == cuts[0];
      assert Flatten(more) == [f] + Flatten(cuts);
      if !started {
        var o: OpCode, payload: seq<byte> :| o.StartsMessage() && CutInto(cuts[0], o, payload, false);
        assert CutInto(more[0], o, payload, false);
      }
    }
  }

  lemma DataFirst(opcode: OpCode, started: bool, frames: seq<Frame>, cuts: seq<seq<Frame>>, rest: seq<byte>,
    trailing: seq<Frame>)
    returns (more: seq<seq<Frame>>)
    requires frames != [] && !frames[0].opcode.IsControl() && opcode.StartsMessage()
    requires frames[0].opcode == if started then Continuation else opcode
    requires ReadAs(opcode, !frames[0].fin, frames[1..], cuts, rest, trailing)
    ensures ReadAs(opcode, started, frames, more, frames[0].payload + (if frames[0].fin then [] else rest), trailing)
  {
    var f := frames[0];
    assert frames == [f] + frames[1..];
    if f.fin {
      more := [[f]] + cuts;
      assert more[1..] == cuts && f.payload + [] == f.payload;
      assert CutInto([f], opcode, f.payload, started);
    } else {
      more := [[f] + cuts[0]] + cuts[1..];
      assert more[1..] == cuts[1..] && ([f] + cuts[0])[1..] == cuts[0];
      assert (f.payload + rest)[|f.payload|..] == rest;
      assert CutInto(more[0], opcode, f.payload + rest, started);
    }
  }

  lemma {:induction false} AcceptedIsRead(maximum: nat, opcode: OpCode, started: bool, bytes: seq<byte>,
    frames: seq<Frame>)
    returns (cuts: seq<seq<Frame>>, first: seq<byte>, trailing: seq<Frame>)
    requires opcode.StartsMessage()
    requires var run := Run(maximum, At(started, opcode, bytes), frames); run.error.None? && run.progress == Idle
    ensures ReadAs(opcode, started, frames, cuts, first, trailing)
    decreases |frames|
  {
    cuts, first, trailing := [], [], [];
    if frames != [] {
      var f, progress := frames[0], At(started, opcode, bytes);
      var next := Check(maximum, progress, f).value;
      RunStep(maximum, progress, frames, next);
      if f.opcode.IsControl() {
        cuts, first, trailing := AcceptedIsRead(maximum, opcode, started, bytes, frames[1..]);
        cuts, trailing := ControlFirst(opcode, started, frames, cuts, first, trailing);
      } else {
        var own := if started then opcode else f.opcode;
        var so := if started then bytes + f.payload else [] + f.payload;
        cuts, first, trailing := AcceptedIsRead(maximum, own, !f.fin, so, frames[1..]);
        cuts := DataFirst(own, started, frames, cuts, first, trailing);
        first := f.payload + (if f.fin then [] else first);
      }
    }
  }

  lemma {:induction false} RejectedStaysRejected(maximum: nat, progress: Progress, a: seq<Frame>, b: seq<Frame>)
    requires Run(maximum, progress, a).error.Some?
    ensures Run(maximum, progress, a + b).error.Some?
    decreases |a|
  {
    assert (a + b)[0] == a[0] && (a + b)[1..] == a[1..] + b;
    if Check(maximum, progress, a[0]).Ok? {
      RejectedStaysRejected(maximum, Check(maximum, progress, a[0]).value, a[1..], b);
    }
  }

  lemma {:induction false} ControlsAccepted(maximum: nat, progress: Progress, frames: seq<Frame>)
    requires AllControls(frames)
    ensures Run(maximum, progress, frames).error.None? && Run(maximum, progress, frames).progress == progress
    decreases |frames|
  {
    if frames != [] {
      ControlsAccepted(maximum, progress, frames[1..]);
    }
  }

  lemma {:induction false} AcceptedCutsFit(maximum: nat, cuts: seq<seq<Frame>>, trailing: seq<Frame>)
    returns (messages: seq<Frame>)
    requires forall i | 0 <= i < |cuts| :: IsCut(cuts[i])
    requires Run(maximum, Idle, Flatten(cuts) + trailing).error.None?
    ensures AreCuts(maximum, messages, cuts)
    decreases |cuts|
  {
    messages := [];
    if cuts != [] {
      var later := Flatten(cuts[1..]) + trailing;
      assert Flatten(cuts) + trailing == cuts[0] + later;
      var opcode: OpCode, payload: seq<byte> :| opcode.StartsMessage() && CutInto(cuts[0], opcode, payload, false);
      CutMessageAccepted(maximum, cuts[0], opcode, payload);
      if Run(maximum, Idle, cuts[0]).error.Some? {
        RejectedStaysRejected(maximum, Idle, cuts[0], later);
      }
      RunAppend(maximum, Idle, cuts[0], later);
      var rest := AcceptedCutsFit(maximum, cuts[1..], trailing);
      messages := [Frame(true, opcode, payload)] + rest;
    }
  }

  /** The frames are these messages, cut and sent one after the other, then control frames. */
  ghost predicate Sends(maximum: nat, frames: seq<Frame>, messages: seq<Frame>, cuts: seq<seq<Frame>>,
    trailing: seq<Frame>)
  {
    AreCuts(maximum, messages, cuts) && AllControls(trailing) && frames == Flatten(cuts) + trailing
  }

  /**
  From a fresh start, frames are accepted to the last with nothing left open exactly when they are
  bounded messages, each cut in some way and sent one after the other, with short control frames
  anywhere.  Any other order of frames is refused or leaves a message open.
  */
  lemma AcceptedExactly(maximum: nat, frames: seq<Frame>)
    ensures Run(maximum, Idle, frames).error.None? && Run(maximum, Idle, frames).progress == Idle <==>
      exists messages: seq<Frame>, cuts: seq<seq<Frame>>, trailing: seq<Frame> ::
        Sends(maximum, frames, messages, cuts, trailing)
  {
    var run := Run(maximum, Idle, frames);
    if run.error.None? && run.progress == Idle {
      var cuts, _, trailing := AcceptedIsRead(maximum, Text, false, [], frames);
      var messages := AcceptedCutsFit(maximum, cuts, trailing);
      assert Sends(maximum, frames, messages, cuts, trailing);
    }
    if messages: seq<Frame>, cuts: seq<seq<Frame>>, trailing: seq<Frame> :|
      Sends(maximum, frames, messages, cuts, trailing)
    {
      MessagesReassembled(maximum, messages, cuts);
      RunAppend(maximum, Idle, Flatten(cuts), trailing);
      ControlsAccepted(maximum, Idle, trailing);
    }
  }

  function OpenBytes(progress: Progress): seq<byte> {
    if progress.Open? then progress.bytes else []
  }

  ghost predicate Sane(maximum: nat, progress: Progress) {
    progress.Open? ==>
      progress.opcode.StartsMessage() && Acceptable(maximum, progress.opcode, progress.bytes, false)
  }

  /** Accepted bytes are exactly what came out and what is still open; what came out is whole. */
  ghost predicate Conserves(maximum: nat, progress: Progress, frames: seq<Frame>, run: RunResult) {
    && run.accepted <= |frames|
    && (run.error.None? ==> run.accepted == |frames|)
    && Sane(maximum, run.progress)
    && DataBytes(run.messages) + OpenBytes(run.progress) == OpenBytes(progress) + DataBytes(frames[..run.accepted])
    && forall m | m in run.messages :: m.opcode.IsControl() || IsMessage(maximum, m)
  }

  /**
  For any frames at all: no byte is lost or invented (what was emitted, then what is still open,
  is what arrived in accepted frames), and every emitted data frame is a whole, bounded message.
  */
  lemma {:induction false} RunConserves(maximum: nat, progress: Progress, frames: seq<Frame>)
    requires Sane(maximum, progress)
    ensures Conserves(maximum, progress, frames, Run(maximum, progress, frames))
    decreases |frames|
  {
    if frames != [] && Check(maximum, progress, frames[0]).Ok? {
      var next := Check(maximum, progress, frames[0]).value;
      EmittedConserves(maximum, progress, frames[0]);
      RunStep(maximum, progress, frames, next);
      RunConserves(maximum, next, frames[1..]);
      ConservesAfter(maximum, progress, frames, next, Emitted(progress, frames[0]), Run(maximum, next, frames[1..]));
    } else {
      assert frames[..0] == [];
    }
  }

  lemma ConservesAfter(maximum: nat, progress: Progress, frames: seq<Frame>, next: Progress, emitted: Option<Frame>,
    rest: RunResult)
    requires frames != [] && Conserves(maximum, next, frames[1..], rest)
    requires emitted.Some? ==> emitted.value.opcode.IsControl() || IsMessage(maximum, emitted.value)
    requires DataBytes(Listed(emitted)) + OpenBytes(next) == OpenBytes(progress) + Carried(frames[0])
    ensures Conserves(maximum, progress, frames, After(emitted, rest))
  {
    DataFramesAppend(Listed(emitted), rest.messages);
    assert frames[..1 + rest.accepted][1..] == frames[1..][..rest.accepted];
    var taken := DataBytes(frames[1..][..rest.accepted]);
    assert DataBytes(frames[..1 + rest.accepted]) == Carried(frames[0]) + taken;
    JoinBytes(DataBytes(Listed(emitted)), DataBytes(rest.messages), OpenBytes(rest.progress), OpenBytes(next), taken,
      OpenBytes(progress), Carried(frames[0]));
  }

  lemma JoinBytes(out: seq<byte>, later: seq<byte>, open: seq<byte>, middle: seq<byte>, taken: seq<byte>,
    start: seq<byte>, own: seq<byte>)
    requires later + open == middle + taken && out + middle == start + own
    ensures out + later + open == start + (own + taken)
  {
    assert out + later + open == out + (later + open);
    assert out + (middle + taken) == out + middle + taken;
    assert start + own + taken == start + (own + taken);
  }

  lemma EmittedConserves(maximum: nat, progress: Progress, frame: Frame)
    requires Sane(maximum, progress) && Check(maximum, progress, frame).Ok?
    ensures var next := Check(maximum, progress, frame).value;
      && Sane(maximum, next)
      && DataBytes(Listed(Emitted(progress, frame))) + OpenBytes(next) == OpenBytes(progress) + Carried(frame)
    ensures Emitted(progress, frame).Some? ==>
      Emitted(progress, frame).value.opcode.IsControl() || IsMessage(maximum, Emitted(progress, frame).value)
  {
    var listed := Listed(Emitted(progress, frame));
    if listed != [] {
      assert listed[1..] == [];
      assert DataBytes(listed) == Carried(listed[0]);
    }
  }
}
