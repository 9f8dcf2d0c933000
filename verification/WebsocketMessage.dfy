/**
The streaming WebSocket message validator and the bounded reassembler
(src/gateway/websocket_message.rs).

`Check` is the simple form: append the fragment to everything received of the message so far and
validate the whole once.  `MessageSequence.Validate` only keeps a byte count and an unfinished
code point, and is proved to give the same answers.
*/
module WebsocketMessage {
  import opened Wrappers
  import Utf8

  datatype OpCode = Continuation | Text | Binary | Close | Ping | Pong {
    predicate IsControl() { Close? || Ping? || Pong? }
    predicate StartsMessage() { Text? || Binary? }
  }

  datatype Frame = Frame(fin: bool, opcode: OpCode, payload: seq<byte>)

  datatype WebSocketError = InvalidFragment | InvalidContinuationFrame | FrameTooLarge | InvalidUtf8

  const MAX_CONTROL_PAYLOAD: nat := 125

  /** How far the message under way has come: nothing open, or the bytes received of it. */
  datatype Progress = Idle | Open(opcode: OpCode, bytes: seq<byte>)

  /** The simple form, one frame: concatenate, bound, validate the whole. */
  ghost function Check(maximum: nat, progress: Progress, frame: Frame): Result<Progress, WebSocketError> {
    match frame.opcode
    case Text => if progress.Open? then Err(InvalidFragment) else Extend(maximum, Text, [], frame)
    case Binary => if progress.Open? then Err(InvalidFragment) else Extend(maximum, Binary, [], frame)
    case Continuation =>
      if progress.Idle? then Err(InvalidContinuationFrame)
      else Extend(maximum, progress.opcode, progress.bytes, frame)
    case _ => if |frame.payload| <= MAX_CONTROL_PAYLOAD then Ok(progress) else Err(FrameTooLarge)
  }

  ghost function Extend(maximum: nat, opcode: OpCode, before: seq<byte>, frame: Frame)
    : Result<Progress, WebSocketError>
  {
    var bytes := before + frame.payload;
    if |bytes| > maximum then Err(FrameTooLarge)
    else if opcode == Text && !Plausible(bytes, frame.fin) then Err(InvalidUtf8)
    else Ok(if frame.fin then Idle else Open(opcode, bytes))
  }

  /** Text that is complete must be UTF-8; text under way must be a prefix of some UTF-8. */
  ghost predicate Plausible(bytes: seq<byte>, fin: bool) {
    if fin then Utf8.Valid(bytes) else Utf8.Extendable(bytes)
  }

  class MessageSequence {
    const maximum: nat
    var opcode: Option<OpCode>
    var bytes: nat
    var utf8Tail: seq<byte>
    /** The payload bytes of the open message. */
    ghost var text: seq<byte>

    ghost predicate Valid()
      reads this
    {
      && maximum <= USIZE_MAX
      && (opcode.None? ==> bytes == 0 && text == [] && utf8Tail == [])
      && (opcode.Some? ==>
        && opcode.value.StartsMessage()
        && bytes == |text| <= maximum
        && TailFits(opcode.value, text))
    }

    /** Between frames the tail is exactly the unfinished suffix of the text received. */
    ghost predicate TailFits(opcode: OpCode, text: seq<byte>)
      reads this
    {
      if opcode == Text then Utf8.Extendable(text) && utf8Tail == Utf8.Remainder(text) else utf8Tail == []
    }

    ghost function Progress(): Progress
      reads this
    {
      if opcode.None? then Idle else Open(opcode.value, text)
    }

    constructor (maximum: nat)
      requires maximum <= USIZE_MAX
      ensures Valid() && Progress() == Idle && this.maximum == maximum
    {
      this.maximum := maximum;
      opcode := None;
      bytes := 0;
      utf8Tail := [];
      text := [];
    }

    method Validate(frame: Frame) returns (r: Result<(), WebSocketError>)
      requires Valid()
      modifies this
      ensures match Check(maximum, old(Progress()), frame)
        case Ok(progress) => r.Ok? && Valid() && Progress() == progress
        case Err(error) => r == Err(error)
      ensures r.Err? && (frame.opcode.IsControl() || r.error in {InvalidFragment, InvalidContinuationFrame}) ==>
        unchanged(this)
    {
      ghost var before := text;
      match frame.opcode {
        case Text | Binary =>
          if opcode.Some? {
            return Err(InvalidFragment);
          }
          opcode := Some(frame.opcode);
          bytes := 0;
          utf8Tail := [];
          Utf8.RemainderOfFront([]);
        case Continuation =>
          if opcode.None? {
            return Err(InvalidContinuationFrame);
          }
        case _ =>
          return if |frame.payload| <= MAX_CONTROL_PAYLOAD then Ok(()) else Err(FrameTooLarge);
      }
      assert opcode.value == Text ==> Utf8.Extendable(text) && utf8Tail == Utf8.Remainder(text);
      if bytes + |frame.payload| > USIZE_MAX {
        return Err(FrameTooLarge);
      }
      bytes := bytes + |frame.payload|;
      if bytes > maximum {
        return Err(FrameTooLarge);
      }
      if opcode == Some(Text) {
        var checked := ValidateUtf8(frame.payload, frame.fin);
        if checked.Err? {
          return checked;
        }
      } else {
        text := text + frame.payload;
      }
      if frame.fin {
        opcode := None;
        bytes := 0;
        text := [];
      }
      return Ok(());
    }

    /** Completes the unfinished code point first, then validates the rest without copying it. */
    method ValidateUtf8(payload: seq<byte>, finalFragment: bool) returns (r: Result<(), WebSocketError>)
      requires Utf8.Extendable(text) && utf8Tail == Utf8.Remainder(text)
      modifies this`utf8Tail, this`text
      ensures text == old(text) + payload
      ensures r == if Plausible(text, finalFragment) then Ok(()) else Err(InvalidUtf8)
      ensures r.Ok? ==> Utf8.Extendable(text) && utf8Tail == Utf8.Remainder(text)
      ensures r.Ok? && finalFragment ==> utf8Tail == []
    {
      ghost var was := text;
      text := text + payload;
      var data := payload;
      ghost var whole := WholePart(was);
      if |utf8Tail| > 0 {
        var first := utf8Tail[0];
        var width := if first < 0xE0 then 2 else if first < 0xF0 then 3 else 4;
        var take := if width - |utf8Tail| <= |data| then width - |utf8Tail| else |data|;
        TailDecides(whole, utf8Tail, data, take, finalFragment);
        utf8Tail := utf8Tail + data[..take];
        data := data[take..];
        match Utf8.FromUtf8(utf8Tail) {
          case Accepted =>
            whole := whole + utf8Tail;
            utf8Tail := [];
          case Rejected(_, errorLen) =>
            if errorLen.None? && !finalFragment {
              return Ok(());
            }
            return Err(InvalidUtf8);
        }
      }
      assert text == whole + data;
      RestDecides(whole, data, finalFragment);
      match Utf8.FromUtf8(data) {
        case Accepted => return Ok(());
        case Rejected(validUpTo, errorLen) =>
          if errorLen.None? && !finalFragment {
            utf8Tail := utf8Tail + data[validUpTo..];
            return Ok(());
          }
          return Err(InvalidUtf8);
      }
    }
  }

  /** What the validator keeps after accepted bytes. */
  ghost predicate Keeps(text: seq<byte>, tail: seq<byte>, fin: bool) {
    Utf8.Extendable(text) && Utf8.Remainder(text) == tail && (fin ==> tail == [])
  }

  /** A rejection is only deferred when the input was cut and more is to come; `tail` is then kept. */
  ghost predicate Defers(verdict: Utf8.Verdict, text: seq<byte>, tail: seq<byte>, fin: bool)
    requires verdict.Rejected?
  {
    && (Plausible(text, fin) <==> verdict.errorLen.None? && !fin)
    && (Plausible(text, fin) ==> Keeps(text, tail, fin))
  }

  /** After valid bytes, the verdict on the rest is the verdict on everything. */
  lemma RestDecides(whole: seq<byte>, data: seq<byte>, fin: bool)
    requires Utf8.Valid(whole)
    ensures Utf8.FromUtf8(data).Accepted? ==> Plausible(whole + data, fin) && Keeps(whole + data, [], fin)
    ensures Utf8.FromUtf8(data).Rejected? ==>
      && Utf8.FromUtf8(data).validUpTo <= |data|
      && Defers(Utf8.FromUtf8(data), whole + data, data[Utf8.FromUtf8(data).validUpTo..], fin)
  {
    Utf8.VerdictMeans(data);
    Utf8.FromUtf8Contract(data);
    Utf8.ValidPrefix(whole, data);
    Utf8.ExtendablePrefix(whole, data);
    Utf8.ScanAfterValid(whole, data);
    if Utf8.FromUtf8(data).Rejected? {
      var v := Utf8.FromUtf8(data).validUpTo;
      assert (whole + data)[|whole| + v..] == data[v..];
    } else {
      Utf8.ValidIsExtendable(whole + data);
    }
  }

  /** What the verdict on the grown code point says of everything received. */
  lemma TailDecides(whole: seq<byte>, tail: seq<byte>, data: seq<byte>, take: nat, fin: bool)
    requires Utf8.Valid(whole) && Utf8.Unfinished(tail)
    requires |tail| < Utf8.LeadWidth(tail[0])
    requires take <= |data| && (take == |data| || |tail| + take == Utf8.LeadWidth(tail[0]))
    requires |tail| + take <= Utf8.LeadWidth(tail[0])
    ensures Utf8.FromUtf8(tail + data[..take]).Accepted? ==>
      && Utf8.Valid(whole + (tail + data[..take]))
      && whole + tail + data == whole + (tail + data[..take]) + data[take..]
    ensures Utf8.FromUtf8(tail + data[..take]).Rejected? ==>
      Defers(Utf8.FromUtf8(tail + data[..take]), whole + tail + data, tail + data[..take], fin)
  {
    var grown, rest := tail + data[..take], data[take..];
    assert whole + tail + data == whole + grown + rest;
    Utf8.GrownFront(tail, data[..take]);
    Utf8.VerdictMeans(grown);
    if Utf8.FromUtf8(grown).Accepted? {
      Utf8.ValidPrefix(whole, grown);
    } else if Utf8.FromUtf8(grown).errorLen.None? {
      assert whole + grown + rest == whole + grown;
      Utf8.RemainderUnique(whole, grown);
    } else {
      NothingFollows(whole, grown, rest);
    }
  }

  lemma WholePart(text: seq<byte>) returns (whole: seq<byte>)
    requires Utf8.Extendable(text)
    ensures Utf8.Valid(whole) && text == whole + Utf8.Remainder(text)
    ensures Utf8.Remainder(text) != [] ==>
      Utf8.Unfinished(Utf8.Remainder(text)) && |Utf8.Remainder(text)| < Utf8.LeadWidth(Utf8.Remainder(text)[0])
  {
    Utf8.RemainderSplits(text);
    whole := text[..|text| - |Utf8.Remainder(text)|];
    if Utf8.Remainder(text) != [] {
      Utf8.UnfinishedIsShort(Utf8.Remainder(text));
    }
  }

  lemma NothingFollows(whole: seq<byte>, bad: seq<byte>, rest: seq<byte>)
    requires Utf8.Valid(whole) && !Utf8.Extendable(bad)
    ensures !Utf8.Extendable(whole + bad + rest) && !Utf8.Valid(whole + bad + rest)
  {
    assert whole + bad + rest == whole + (bad + rest);
    Utf8.ExtendablePrefix(whole, bad + rest);
    if Utf8.Extendable(bad + rest) {
      Utf8.ShorterIsExtendable(bad, rest);
    }
    Utf8.VerdictMeans(whole + bad + rest);
  }
}
