/**
The path rules of src/http_proxy/routes.rs (`validate_http_path`) and what they buy: no accepted
path changes its segments when a backend percent-decodes it, once or twice.
*/
module HttpPath {
  import opened Wrappers

  type Path = seq<byte>

  const SLASH: byte := 47
  const DOT: byte := 46
  const PERCENT: byte := 37
  const QUESTION: byte := 63
  const SPACE: byte := 32
  const HASH: byte := 35
  const BACKSLASH: byte := 92
  const MAX_PATH_BYTES: nat := 8192

  datatype PathError = InvalidPath | RepeatedSeparators | DotSegment | InvalidPercent | ForbiddenEncoding

  // ---- bytes ----

  predicate IsDigit(b: byte) { 48 <= b <= 57 }
  predicate IsAlphanumeric(b: byte) { IsDigit(b) || 65 <= b <= 90 || 97 <= b <= 122 }
  predicate IsHex(b: byte) { IsDigit(b) || 65 <= b <= 70 || 97 <= b <= 102 }

  /** Section 2.3 of RFC 3986. */
  predicate IsUnreserved(b: byte) {
    IsAlphanumeric(b) || b == 45 || b == DOT || b == 95 || b == 126
  }

  function HexValue(b: byte): nat
    requires IsHex(b)
  {
    if IsDigit(b) then b - 48 else if b <= 70 then b - 55 else b - 87
  }

  function Octet(high: byte, low: byte): byte
    requires IsHex(high) && IsHex(low)
  {
    HexValue(high) * 16 + HexValue(low)
  }

  /** Encoded octets the gateway refuses: separators, `%`, unreserved and control bytes. */
  predicate Aliasing(value: byte) {
    value == SLASH || value == BACKSLASH || value == PERCENT || IsUnreserved(value) || value < 32 || value == 127
  }

  predicate Forbidden(b: byte) {
    b <= 32 || b == 127 || b == QUESTION || b == HASH || b == BACKSLASH
  }

  // ---- splitting on '/' ----

  function Split(path: seq<byte>): (segments: seq<seq<byte>>)
    ensures |segments| >= 1
  {
    if path == [] then [[]]
    else
      var rest := Split(path[1..]);
      if path[0] == SLASH then [[]] + rest else [[path[0]] + rest[0]] + rest[1..]
  }

  predicate IsDotSegment(segment: seq<byte>) {
    segment == [DOT] || segment == [DOT, DOT]
  }

  // ---- the rules, stated of the whole path ----

  predicate EncodedAt(s: seq<byte>, i: nat)
    requires i < |s|
  {
    i + 2 < |s| && IsHex(s[i + 1]) && IsHex(s[i + 2]) && !Aliasing(Octet(s[i + 1], s[i + 2]))
  }

  /** Every `%` starts a well-formed, permitted encoding. */
  predicate PercentsOk(s: seq<byte>) {
    forall i | 0 <= i < |s| :: s[i] == PERCENT ==> EncodedAt(s, i)
  }

  predicate NoRepeatedSlash(path: seq<byte>) {
    forall i | 0 <= i < |path| - 1 :: !(path[i] == SLASH && path[i + 1] == SLASH)
  }

  predicate NoDotSegments(path: seq<byte>) {
    forall segment | segment in Split(path) :: !IsDotSegment(segment)
  }

  predicate PlainBytes(path: seq<byte>) {
    forall i | 0 <= i < |path| :: !Forbidden(path[i])
  }

  /** Every rule but the length limit. */
  predicate WellFormed(path: Path) {
    && path != [] && path[0] == SLASH
    && PlainBytes(path)
    && NoRepeatedSlash(path)
    && NoDotSegments(path)
    && PercentsOk(path)
  }

  predicate ValidPath(path: Path) {
    WellFormed(path) && |path| <= MAX_PATH_BYTES
  }

  // ---- the validator ----

  /** The verdict on one segment, reading encodings from `index` on. */
  function ScanError(segment: seq<byte>, index: nat): Option<PathError>
    requires index <= |segment|
    decreases |segment| - index
  {
    if index == |segment| then None
    else if segment[index] != PERCENT then ScanError(segment, index + 1)
    else if index + 2 >= |segment| || !IsHex(segment[index + 1]) || !IsHex(segment[index + 2]) then Some(InvalidPercent)
    else if Aliasing(Octet(segment[index + 1], segment[index + 2])) then Some(ForbiddenEncoding)
    else ScanError(segment, index + 3)
  }

  function SegmentError(segment: seq<byte>): Option<PathError> {
    if IsDotSegment(segment) then Some(DotSegment) else ScanError(segment, 0)
  }

  /** The first segment in error decides. */
  function FirstSegmentError(segments: seq<seq<byte>>): Option<PathError> {
    if segments == [] then None
    else if SegmentError(segments[0]).Some? then SegmentError(segments[0])
    else FirstSegmentError(segments[1..])
  }

  method ValidateHttpPath(path: Path) returns (r: Result<(), PathError>)
    ensures r.Ok? <==> ValidPath(path)
    ensures r == Err(InvalidPath) <==>
      path == [] || path[0] != SLASH || |path| > MAX_PATH_BYTES || !PlainBytes(path)
    ensures r != Err(InvalidPath) ==> (r == Err(RepeatedSeparators) <==> !NoRepeatedSlash(path))
    ensures r.Err? && r.error !in {InvalidPath, RepeatedSeparators} ==>
      FirstSegmentError(Split(path)) == Some(r.error)
  {
    if path == [] || path[0] != SLASH || |path| > MAX_PATH_BYTES || !PlainBytes(path) {
      return Err(InvalidPath);
    }
    if !NoRepeatedSlash(path) {
      return Err(RepeatedSeparators);
    }
    var segments := Split(path);
    SegmentsDecide(path);
    for i := 0 to |segments|
      invariant FirstSegmentError(segments) == FirstSegmentError(segments[i..])
    {
      var bytes := segments[i];
      assert segments[i..][1..] == segments[i + 1..];
      if IsDotSegment(bytes) {
        return Err(DotSegment);
      }
      var index := 0;
      while index < |bytes|
        invariant index <= |bytes|
        invariant ScanError(bytes, 0) == ScanError(bytes, index)
      {
        if bytes[index] == PERCENT {
          if index + 2 >= |bytes| || !IsHex(bytes[index + 1]) || !IsHex(bytes[index + 2]) {
            return Err(InvalidPercent);
          }
          if Aliasing(Octet(bytes[index + 1], bytes[index + 2])) {
            return Err(ForbiddenEncoding);
          }
          index := index + 3;
        } else {
          index := index + 1;
        }
      }
    }
    return Ok(());
  }

  // ---- the segment-by-segment scan enforces the whole-path rules ----

  /** Jumping over an encoding skips no other `%`, since hex digits are not `%`. */
  lemma {:induction false} ScanComplete(segment: seq<byte>, index: nat)
    requires index <= |segment|
    ensures ScanError(segment, index).None? <==>
      forall i | index <= i < |segment| :: segment[i] == PERCENT ==> EncodedAt(segment, i)
    decreases |segment| - index
  {
    if index < |segment| {
      if segment[index] != PERCENT {
        ScanComplete(segment, index + 1);
      } else if EncodedAt(segment, index) {
        ScanComplete(segment, index + 3);
      }
    }
  }

  /** The first segment is the longest slash-free front. */
  lemma {:induction false} FirstSegment(s: seq<byte>)
    ensures |Split(s)[0]| <= |s| && s[..|Split(s)[0]|] == Split(s)[0]
    ensures SLASH !in Split(s)[0]
    ensures |Split(s)[0]| < |s| ==> s[|Split(s)[0]|] == SLASH
    decreases |s|
  {
    if s != [] && s[0] != SLASH {
      FirstSegment(s[1..]);
      assert s[..|Split(s)[0]|] == [s[0]] + s[1..][..|Split(s[1..])[0]|];
    }
  }

  lemma PercentsCons(c: byte, s: seq<byte>)
    ensures PercentsOk([c] + s) <==> (c == PERCENT ==> EncodedAt([c] + s, 0)) && PercentsOk(s)
  {
    var t := [c] + s;
    forall i | 0 <= i < |s|
      ensures t[i + 1] == s[i]
      ensures EncodedAt(t, i + 1) <==> EncodedAt(s, i)
    {
    }
    if PercentsOk(t) {
      forall i | 0 <= i < |s| && s[i] == PERCENT
        ensures EncodedAt(s, i)
      {
        assert t[i + 1] == PERCENT;
      }
    }
  }

  lemma {:induction false} PercentsBySegment(s: seq<byte>)
    ensures PercentsOk(s) <==> forall segment | segment in Split(s) :: PercentsOk(segment)
    decreases |s|
  {
    if s == [] {
      assert Split(s) == [[]];
    } else {
      var q := s[1..];
      var rest := Split(q);
      assert s == [s[0]] + q;
      PercentsBySegment(q);
      PercentsCons(s[0], q);
      assert rest == [rest[0]] + rest[1..];
      if s[0] == SLASH {
        assert forall segment :: segment in Split(s) <==> segment == [] || segment in rest;
      } else {
        FirstSegment(q);
        PercentsCons(s[0], rest[0]);
        var first := [s[0]] + rest[0];
        assert s[0] == PERCENT ==> (EncodedAt(s, 0) <==> EncodedAt(first, 0));
        assert forall segment :: segment in rest <==> segment == rest[0] || segment in rest[1..];
        assert forall segment :: segment in Split(s) <==> segment == first || segment in rest[1..];
      }
    }
  }

  lemma {:induction false} NoSegmentError(segments: seq<seq<byte>>)
    ensures FirstSegmentError(segments).None? <==>
      forall segment | segment in segments :: !IsDotSegment(segment) && PercentsOk(segment)
    decreases |segments|
  {
    if segments != [] {
      ScanComplete(segments[0], 0);
      NoSegmentError(segments[1..]);
      assert segments == [segments[0]] + segments[1..];
    }
  }

  lemma SegmentsDecide(path: Path)
    ensures FirstSegmentError(Split(path)).None? <==> NoDotSegments(path) && PercentsOk(path)
  {
    NoSegmentError(Split(path));
    PercentsBySegment(path);
  }

  // ---- percent-decoding, section 2.1 of RFC 3986 ----

  function Decode(s: seq<byte>): seq<byte>
    decreases |s|
  {
    if s == [] then []
    else if s[0] == PERCENT && |s| >= 3 && IsHex(s[1]) && IsHex(s[2]) then [Octet(s[1], s[2])] + Decode(s[3..])
    else [s[0]] + Decode(s[1..])
  }

  function DecodeEach(segments: seq<seq<byte>>): seq<seq<byte>> {
    if segments == [] then [] else [Decode(segments[0])] + DecodeEach(segments[1..])
  }

  lemma PercentsFrom(s: seq<byte>, k: nat)
    requires PercentsOk(s) && k <= |s|
    ensures PercentsOk(s[k..])
  {
    var rest := s[k..];
    forall i | 0 <= i < |rest| && rest[i] == PERCENT
      ensures EncodedAt(rest, i)
    {
      assert rest[i] == s[k + i] && EncodedAt(s, k + i);
    }
  }

  lemma PercentsTail(s: seq<byte>)
    requires PercentsOk(s) && s != []
    ensures PercentsOk(s[1..])
    ensures s[0] == PERCENT ==> EncodedAt(s, 0) && PercentsOk(s[3..])
  {
    PercentsFrom(s, 1);
    if s[0] == PERCENT {
      assert EncodedAt(s, 0);
      PercentsFrom(s, 3);
    }
  }

  /** Three bytes that are not separators extend the first segment. */
  lemma SplitEncoded(s: seq<byte>)
    requires |s| >= 3 && s[0] != SLASH && s[1] != SLASH && s[2] != SLASH
    ensures var rest := Split(s[3..]);
      Split(s) == [[s[0], s[1], s[2]] + rest[0]] + rest[1..]
  {
    var rest := Split(s[3..]);
    assert s[1..][1..] == s[2..] && s[2..][1..] == s[3..];
    assert Split(s[2..]) == [[s[2]] + rest[0]] + rest[1..];
    assert Split(s[1..]) == [[s[1]] + ([s[2]] + rest[0])] + rest[1..];
    assert [s[0]] + ([s[1]] + ([s[2]] + rest[0])) == [s[0], s[1], s[2]] + rest[0];
  }

  /** Decoding after splitting is splitting after decoding. */
  lemma {:induction false} DecodeCommutesWithSplit(s: seq<byte>)
    requires PercentsOk(s)
    ensures Split(Decode(s)) == DecodeEach(Split(s))
    decreases |s|
  {
    if s != [] {
      PercentsTail(s);
      if s[0] == PERCENT {
        var rest := Split(s[3..]);
        var value := Octet(s[1], s[2]);
        DecodeCommutesWithSplit(s[3..]);
        SplitEncoded(s);
        var first := [s[0], s[1], s[2]] + rest[0];
        assert first[3..] == rest[0];
        assert Decode(first) == [value] + Decode(rest[0]);
        assert Decode(s)[1..] == Decode(s[3..]);
      } else {
        var rest := Split(s[1..]);
        DecodeCommutesWithSplit(s[1..]);
        assert Decode(s)[1..] == Decode(s[1..]);
        if s[0] != SLASH {
          assert ([s[0]] + rest[0])[1..] == rest[0];
        }
      }
    }
  }

  lemma {:induction false} DecodedHasNoPercent(s: seq<byte>)
    requires PercentsOk(s)
    ensures PERCENT !in Decode(s)
    decreases |s|
  {
    if s != [] {
      PercentsTail(s);
      DecodedHasNoPercent(if s[0] == PERCENT then s[3..] else s[1..]);
    }
  }

  lemma {:induction false} DecodePlain(s: seq<byte>)
    requires PERCENT !in s
    ensures Decode(s) == s
    decreases |s|
  {
    if s != [] {
      DecodePlain(s[1..]);
      assert s == [s[0]] + s[1..];
    }
  }

  /** Decoding a second time changes nothing. */
  lemma DecodeTwice(s: seq<byte>)
    requires PercentsOk(s)
    ensures Decode(Decode(s)) == Decode(s)
  {
    DecodedHasNoPercent(s);
    DecodePlain(Decode(s));
  }

  lemma {:induction false} DecodedSlashes(s: seq<byte>)
    requires PercentsOk(s) && NoRepeatedSlash(s)
    ensures NoRepeatedSlash(Decode(s))
    ensures Decode(s) != [] && Decode(s)[0] == SLASH <==> s != [] && s[0] == SLASH
    decreases |s|
  {
    if s != [] {
      PercentsTail(s);
      var rest := if s[0] == PERCENT then s[3..] else s[1..];
      DecodedSlashes(rest);
      assert Decode(s)[1..] == Decode(rest);
    }
  }

  /** However its bytes are spelled, an accepted path decodes to no control byte, backslash or percent sign. */
  lemma {:induction false} DecodedBytes(s: seq<byte>)
    requires PercentsOk(s) && PlainBytes(s)
    ensures forall b | b in Decode(s) :: b >= 32 && b != 127 && b != 92 && b != 37
    decreases |s|
  {
    if s != [] {
      PercentsTail(s);
      var rest := if s[0] == PERCENT then s[3..] else s[1..];
      DecodedBytes(rest);
      assert forall b | b in Decode(s) :: b == Decode(s)[0] || b in Decode(rest);
    }
  }

  /** A path of unreserved bytes and separators. */
  predicate PlainSpelling(s: seq<byte>) {
    forall i | 0 <= i < |s| :: IsUnreserved(s[i]) || s[i] == SLASH
  }

  /** The first byte and where its spelling ends. */
  function Head(s: seq<byte>): (r: (byte, seq<byte>))
    requires s != []
    ensures |r.1| < |s|
  {
    if s[0] == PERCENT && |s| >= 3 && IsHex(s[1]) && IsHex(s[2]) then (Octet(s[1], s[2]), s[3..]) else (s[0], s[1..])
  }

  lemma DecodeHead(s: seq<byte>)
    requires s != []
    ensures Decode(s) == [Head(s).0] + Decode(Head(s).1)
    ensures Decode(s)[0] == Head(s).0 && Decode(s)[1..] == Decode(Head(s).1)
  {
  }

  /** Unreserved bytes and separators are not encoded. */
  lemma PlainHead(s: seq<byte>)
    requires s != [] && PercentsOk(s) && (IsUnreserved(Head(s).0) || Head(s).0 == SLASH)
    ensures Head(s) == (s[0], s[1..]) && PercentsOk(s[1..])
  {
    PercentsTail(s);
  }

  /** Bytes that decode to a plain spelling are that spelling: it has no accepted alias. */
  lemma {:induction false} NoAlias(s: seq<byte>)
    requires PercentsOk(s) && PlainSpelling(Decode(s))
    ensures Decode(s) == s
    decreases |s|
  {
    if s != [] {
      DecodeHead(s);
      PlainHead(s);
      assert forall i | 0 <= i < |Decode(s[1..])| :: Decode(s[1..])[i] == Decode(s)[i + 1];
      NoAlias(s[1..]);
      assert s == [s[0]] + s[1..];
    }
  }

  lemma {:induction false} DotsDecodeFromDots(segments: seq<seq<byte>>)
    requires forall segment | segment in segments :: PercentsOk(segment) && !IsDotSegment(segment)
    ensures forall segment | segment in DecodeEach(segments) :: !IsDotSegment(segment)
    decreases |segments|
  {
    if segments != [] {
      assert segments == [segments[0]] + segments[1..];
      DotsDecodeFromDots(segments[1..]);
      if IsDotSegment(Decode(segments[0])) {
        NoAlias(segments[0]);
      }
    }
  }

  /**
  An accepted path keeps its segments under decoding: they are the decoded segments, none is a dot
  segment, no separator appears or doubles, and decoding again changes nothing.
  */
  lemma DecodingKeepsStructure(path: Path)
    requires WellFormed(path)
    ensures Split(Decode(path)) == DecodeEach(Split(path))
    ensures NoDotSegments(Decode(path))
    ensures NoRepeatedSlash(Decode(path))
    ensures Decode(Decode(path)) == Decode(path)
  {
    DecodeCommutesWithSplit(path);
    PercentsBySegment(path);
    DotsDecodeFromDots(Split(path));
    DecodedSlashes(path);
    DecodeTwice(path);
  }

  // ---- which paths have one spelling only ----

  /**
  Bytes with one accepted spelling: the unreserved ones and the separator stand for themselves, a
  space is only `%20` and a hash only `%23`.
  */
  predicate OneSpelling(b: byte) {
    IsUnreserved(b) || b == SLASH || b == SPACE || b == HASH
  }

  lemma PlainTail(s: seq<byte>)
    requires s != [] && PercentsOk(s) && PlainBytes(s)
    ensures PercentsOk(Head(s).1) && PlainBytes(Head(s).1)
  {
    PercentsTail(s);
  }

  /** Two spellings of the same bytes, each of which has one spelling, are the same. */
  lemma {:induction false} SpelledOnce(s: seq<byte>, t: seq<byte>)
    requires PercentsOk(s) && PlainBytes(s) && PercentsOk(t) && PlainBytes(t)
    requires Decode(s) == Decode(t) && forall b | b in Decode(s) :: OneSpelling(b)
    ensures s == t
    decreases |s|
  {
    if s == [] || t == [] {
      assert Decode([]) == [];
      assert s != [] ==> Decode(s) != [];
      assert t != [] ==> Decode(t) != [];
    } else {
      DecodeHead(s);
      DecodeHead(t);
      PlainTail(s);
      PlainTail(t);
      assert Decode(s)[0] == Decode(t)[0] && Decode(s)[1..] == Decode(Head(s).1) && Decode(t)[1..] == Decode(Head(t).1);
      assert forall b | b in Decode(Head(s).1) :: b in Decode(s);
      SpelledOnce(Head(s).1, Head(t).1);
      HeadSpelledOnce(s, t);
    }
  }

  lemma HeadSpelledOnce(s: seq<byte>, t: seq<byte>)
    requires s != [] && t != [] && PercentsOk(s) && PlainBytes(s) && PercentsOk(t) && PlainBytes(t)
    requires Head(s).0 == Head(t).0 && OneSpelling(Head(s).0) && Head(s).1 == Head(t).1
    ensures s == t
  {
    PercentsTail(s);
    PercentsTail(t);
    if s[0] == PERCENT && t[0] == PERCENT {
      assert s == [s[0], s[1], s[2]] + s[3..] && t == [t[0], t[1], t[2]] + t[3..];
    } else if s[0] != PERCENT && t[0] != PERCENT {
      assert s == [s[0]] + s[1..] && t == [t[0]] + t[1..];
    }
  }

  function HexDigit(value: nat): byte
    requires value < 16
  {
    if value < 10 then 48 + value else 55 + value
  }

  /** The other letter case of a hex digit, where it has one. */
  function OtherCase(digit: byte): byte
    requires IsHex(digit)
  {
    if IsDigit(digit) then digit else if digit <= 70 then digit + 32 else digit - 32
  }

  /** Another spelling of the first byte, when it has one. */
  function RespelledHead(s: seq<byte>): seq<byte>
    requires s != [] && PercentsOk(s)
  {
    PercentsTail(s);
    if s[0] != PERCENT then [PERCENT, HexDigit(s[0] / 16), HexDigit(s[0] % 16)]
    else if Forbidden(Head(s).0) then [PERCENT, OtherCase(s[1]), OtherCase(s[2])]
    else [Head(s).0]
  }

  /** The same bytes, with the first that has several spellings written another way. */
  function Respelled(s: seq<byte>): seq<byte>
    requires PercentsOk(s) && PlainBytes(s)
    decreases |s|
  {
    if s == [] then []
    else
      PlainTail(s);
      var rest := Head(s).1;
      if OneSpelling(Head(s).0) then s[..|s| - |rest|] + Respelled(rest) else RespelledHead(s) + rest
  }

  lemma HeadRespells(s: seq<byte>)
    requires s != [] && PercentsOk(s) && PlainBytes(s) && !OneSpelling(Head(s).0)
    ensures var t := RespelledHead(s) + Head(s).1;
      t != s && Head(t) == Head(s) && PercentsOk(t) && PlainBytes(t)
  {
    PercentsTail(s);
    PlainTail(s);
    var spelling, rest := RespelledHead(s), Head(s).1;
    var t := spelling + rest;
    assert t[0] == spelling[0];
    if s[0] != PERCENT {
      assert t[1] == HexDigit(s[0] / 16) && t[2] == HexDigit(s[0] % 16) && t[3..] == rest;
      assert Octet(t[1], t[2]) == s[0];
    } else if Forbidden(Head(s).0) {
      assert t[1] == OtherCase(s[1]) && t[2] == OtherCase(s[2]) && t[3..] == rest;
      assert Octet(t[1], t[2]) == Octet(s[1], s[2]);
      assert Head(s).0 == QUESTION;
      assert s[2] != OtherCase(s[2]);
    } else {
      assert t[1..] == rest;
    }
    SpellingInFront(spelling, rest);
  }

  /** A permitted spelling can be put in front of permitted bytes. */
  lemma SpellingInFront(spelling: seq<byte>, rest: seq<byte>)
    requires PercentsOk(rest) && PlainBytes(rest) && PlainBytes(spelling)
    requires (|spelling| == 1 && spelling[0] != PERCENT)
      || (|spelling| == 3 && spelling[0] == PERCENT && EncodedAt(spelling, 0))
    ensures PercentsOk(spelling + rest) && PlainBytes(spelling + rest)
  {
    var t := spelling + rest;
    forall i | 0 <= i < |t| && t[i] == PERCENT
      ensures EncodedAt(t, i)
    {
      if i >= |spelling| {
        assert EncodedAt(rest, i - |spelling|);
      }
    }
  }

  lemma {:induction false} RespelledDiffers(s: seq<byte>)
    requires PercentsOk(s) && PlainBytes(s) && exists b :: b in Decode(s) && !OneSpelling(b)
    ensures var t := Respelled(s);
      && t != s && Decode(t) == Decode(s) && PercentsOk(t) && PlainBytes(t)
      && t != [] && (s[0] == SLASH ==> t[0] == SLASH)
    decreases |s|
  {
    DecodeHead(s);
    PlainTail(s);
    PercentsTail(s);
    var rest := Head(s).1;
    if OneSpelling(Head(s).0) {
      var b :| b in Decode(s) && !OneSpelling(b);
      assert b in Decode(rest);
      RespelledDiffers(rest);
      var spelling := s[..|s| - |rest|];
      assert s == spelling + rest;
      var t := spelling + Respelled(rest);
      SpellingInFront(spelling, Respelled(rest));
      assert t[|spelling|..] == Respelled(rest);
      assert Head(t) == (Head(s).0, Respelled(rest));
      DecodeHead(t);
    } else {
      HeadRespells(s);
      DecodeHead(Respelled(s));
    }
  }

  lemma {:induction false} SplitWithoutSlash(s: seq<byte>)
    requires SLASH !in s
    ensures Split(s) == [s]
    decreases |s|
  {
    if s != [] {
      SplitWithoutSlash(s[1..]);
      assert s == [s[0]] + s[1..];
    }
  }

  /** A separator cannot be encoded, so two in a row stay two in a row. */
  lemma {:induction false} SlashesWereThere(s: seq<byte>)
    requires PercentsOk(s) && NoRepeatedSlash(Decode(s))
    ensures NoRepeatedSlash(s)
    decreases |s|
  {
    if s != [] {
      DecodeHead(s);
      PercentsTail(s);
      var rest := Head(s).1;
      assert forall i | 0 <= i < |Decode(rest)| :: Decode(s)[i + 1] == Decode(rest)[i];
      SlashesWereThere(rest);
      if rest != [] {
        DecodeHead(rest);
        assert Decode(rest)[0] == Head(rest).0 && Decode(s)[1] == Head(rest).0;
      }
      var k := |s| - |rest|;
      forall i | 0 <= i < |s| - 1
        ensures !(s[i] == SLASH && s[i + 1] == SLASH)
      {
        if i >= k {
          assert s[i] == rest[i - k] && s[i + 1] == rest[i - k + 1];
        } else if s[0] == PERCENT {
          assert EncodedAt(s, 0) && i <= 2 && s[i] != SLASH;
        } else {
          assert i == 0 && s[1] == rest[0];
          assert Decode(s)[0] == s[0] && (rest[0] == SLASH ==> Decode(s)[1] == SLASH);
        }
      }
    }
  }

  lemma {:induction false} DecodedEach(segments: seq<seq<byte>>, segment: seq<byte>)
    requires segment in segments
    ensures Decode(segment) in DecodeEach(segments)
    decreases |segments|
  {
    if segment != segments[0] {
      DecodedEach(segments[1..], segment);
    }
  }

  /** The structural rules depend on the decoded bytes only. */
  lemma SameBytesWellFormed(s: Path, t: Path)
    requires WellFormed(s) && Decode(t) == Decode(s)
    requires PercentsOk(t) && PlainBytes(t) && t != [] && t[0] == SLASH
    ensures WellFormed(t)
  {
    DecodingKeepsStructure(s);
    SlashesWereThere(t);
    DecodeCommutesWithSplit(t);
    NoDotsFromDecoded(Split(t));
  }

  lemma NoDotsFromDecoded(segments: seq<seq<byte>>)
    requires forall segment | segment in DecodeEach(segments) :: !IsDotSegment(segment)
    ensures forall segment | segment in segments :: !IsDotSegment(segment)
  {
    forall segment | segment in segments
      ensures !IsDotSegment(segment)
    {
      DecodedEach(segments, segment);
      if IsDotSegment(segment) {
        DecodePlain(segment);
      }
    }
  }

  /**
  Exactly which accepted paths have no other accepted spelling: those whose decoded bytes are all
  unreserved bytes, separators, spaces and hashes.  Every other byte can be written raw or encoded,
  or with hex digits of either case.
  */
  lemma SpellingIsUnique(s: Path)
    requires WellFormed(s)
    ensures (forall t | WellFormed(t) && Decode(t) == Decode(s) :: t == s) <==>
      forall b | b in Decode(s) :: OneSpelling(b)
  {
    if forall b | b in Decode(s) :: OneSpelling(b) {
      forall t | WellFormed(t) && Decode(t) == Decode(s)
        ensures t == s
      {
        SpelledOnce(s, t);
      }
    } else {
      RespelledDiffers(s);
      SameBytesWellFormed(s, Respelled(s));
    }
  }

  // ---- the same with the length limit ----

  /** Every encoding stands for a byte that has no other spelling: none can be shortened or varied in place. */
  predicate NoSpareEncoding(s: seq<byte>)
    requires PercentsOk(s) && PlainBytes(s)
    decreases |s|
  {
    s == []
    || (PlainTail(s); (s[0] == PERCENT ==> OneSpelling(Head(s).0)) && NoSpareEncoding(Head(s).1))
  }

  lemma RespelledHeadLength(s: seq<byte>)
    requires s != [] && PercentsOk(s) && PlainBytes(s)
    ensures |s| - |Head(s).1| == (if s[0] == PERCENT then 3 else 1)
    ensures |RespelledHead(s)| <= (if s[0] == PERCENT then 3 else 1) + 2
    ensures s[0] == PERCENT ==> |RespelledHead(s)| <= 3
  {
    PercentsTail(s);
  }

  lemma {:induction false} RespelledLength(s: seq<byte>)
    requires PercentsOk(s) && PlainBytes(s)
    ensures |Respelled(s)| <= |s| + 2
    decreases |s|
  {
    if s != [] {
      PlainTail(s);
      RespelledHeadLength(s);
      if OneSpelling(Head(s).0) {
        RespelledLength(Head(s).1);
      }
    }
  }

  /** The same bytes with the first spare encoding shortened, or written in the other letter case. */
  function Shortened(s: seq<byte>): seq<byte>
    requires PercentsOk(s) && PlainBytes(s)
    decreases |s|
  {
    if s == [] then []
    else
      PlainTail(s);
      var rest := Head(s).1;
      if s[0] == PERCENT && !OneSpelling(Head(s).0) then RespelledHead(s) + rest
      else s[..|s| - |rest|] + Shortened(rest)
  }

  lemma {:induction false} ShortenedDiffers(s: seq<byte>)
    requires PercentsOk(s) && PlainBytes(s) && !NoSpareEncoding(s)
    ensures var t := Shortened(s);
      && t != s && Decode(t) == Decode(s) && PercentsOk(t) && PlainBytes(t) && |t| <= |s|
      && t != [] && (s[0] == SLASH ==> t[0] == SLASH)
    decreases |s|
  {
    DecodeHead(s);
    PlainTail(s);
    PercentsTail(s);
    RespelledHeadLength(s);
    var rest := Head(s).1;
    if s[0] == PERCENT && !OneSpelling(Head(s).0) {
      HeadRespells(s);
      DecodeHead(Shortened(s));
    } else {
      ShortenedDiffers(rest);
      KeepsHead(s, Shortened(rest));
    }
  }

  /** The first byte as it is spelled, before something else. */
  lemma KeepsHead(s: seq<byte>, after: seq<byte>)
    requires s != [] && PercentsOk(s) && PlainBytes(s) && PercentsOk(after) && PlainBytes(after)
    ensures var rest := Head(s).1;
      var spelling, t := s[..|s| - |rest|], s[..|s| - |rest|] + after;
      && s == spelling + rest && t[0] == s[0] && Head(t) == (Head(s).0, after) && PercentsOk(t) && PlainBytes(t)
      && Decode(t) == [Head(s).0] + Decode(after)
  {
    PercentsTail(s);
    var rest := Head(s).1;
    var spelling := s[..|s| - |rest|];
    assert s == spelling + rest;
    var t := spelling + after;
    SpellingInFront(spelling, after);
    assert t[|spelling|..] == after;
    DecodeHead(t);
  }

  /** A path without spare encodings is shorter than its other spellings by two bytes at least. */
  lemma {:induction false} OthersAreLonger(s: seq<byte>, t: seq<byte>)
    requires PercentsOk(s) && PlainBytes(s) && PercentsOk(t) && PlainBytes(t)
    requires NoSpareEncoding(s) && Decode(s) == Decode(t)
    ensures t == s || |t| >= |s| + 2
    decreases |s|
  {
    if s == [] || t == [] {
      assert Decode([]) == [];
      assert s != [] ==> Decode(s) != [];
      assert t != [] ==> Decode(t) != [];
    } else {
      DecodeHead(s);
      DecodeHead(t);
      PlainTail(s);
      PlainTail(t);
      RespelledHeadLength(s);
      RespelledHeadLength(t);
      OthersAreLonger(Head(s).1, Head(t).1);
      HeadsCompare(s, t);
    }
  }

  lemma HeadsCompare(s: seq<byte>, t: seq<byte>)
    requires s != [] && t != [] && PercentsOk(s) && PlainBytes(s) && PercentsOk(t) && PlainBytes(t)
    requires Head(s).0 == Head(t).0 && (s[0] == PERCENT ==> OneSpelling(Head(s).0))
    ensures s[0] == PERCENT ==> t[0] == PERCENT
    ensures (s[0] == PERCENT) == (t[0] == PERCENT) && Head(s).1 == Head(t).1 ==> s == t
  {
    PercentsTail(s);
    PercentsTail(t);
    if (s[0] == PERCENT) == (t[0] == PERCENT) && Head(s).1 == Head(t).1 {
      if s[0] == PERCENT {
        HeadSpelledOnce(s, t);
      } else {
        assert s == [s[0]] + s[1..] && t == [t[0]] + t[1..];
      }
    }
  }

  /**
  Exactly which accepted paths have no other accepted spelling, the length limit included: those whose
  decoded bytes have one spelling each, and those too long to encode one more byte in which nothing
  is encoded that could be written otherwise.
  */
  lemma AcceptedSpellingIsUnique(s: Path)
    requires ValidPath(s)
    ensures (forall t | ValidPath(t) && Decode(t) == Decode(s) :: t == s) <==>
      (forall b | b in Decode(s) :: OneSpelling(b)) || (|s| + 2 > MAX_PATH_BYTES && NoSpareEncoding(s))
  {
    if forall b | b in Decode(s) :: OneSpelling(b) {
      SpellingIsUnique(s);
    } else if !NoSpareEncoding(s) {
      ShortenedDiffers(s);
      SameBytesWellFormed(s, Shortened(s));
    } else if |s| + 2 <= MAX_PATH_BYTES {
      RespelledDiffers(s);
      RespelledLength(s);
      SameBytesWellFormed(s, Respelled(s));
    } else {
      forall t | ValidPath(t) && Decode(t) == Decode(s)
        ensures t == s
      {
        OthersAreLonger(s, t);
      }
    }
  }

  /** One that has two: `/!` and `/%21` are both accepted. */
  lemma SubDelimsAlias()
    ensures ValidPath([SLASH, 33]) && ValidPath([SLASH, PERCENT, 50, 49])
    ensures Decode([SLASH, PERCENT, 50, 49]) == Decode([SLASH, 33])
  {
    var plain, encoded := [SLASH, 33], [SLASH, PERCENT, 50, 49];
    SplitWithoutSlash([33]);
    SplitWithoutSlash([PERCENT, 50, 49]);
    assert plain[1..] == [33] && encoded[1..] == [PERCENT, 50, 49];
    assert Split(plain) == [[], [33]];
    assert Split(encoded) == [[], [PERCENT, 50, 49]];
    assert Decode([PERCENT, 50, 49]) == [33];
  }
}
