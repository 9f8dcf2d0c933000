/**
UTF-8 as section 4 of RFC 3629 defines it, and `std::str::from_utf8` written out beside it.

`Valid` is the grammar: a byte string is a concatenation of legal code points, whatever the cut.
`FromUtf8` is the library's left-to-right scan with its error report.  `FromUtf8Contract` ties
the two together; everything else in the project uses `FromUtf8` through that lemma.
*/
module Utf8 {
  import opened Wrappers

  predicate Continues(b: byte) {
    0x80 <= b <= 0xBF
  }

  /** One legal code point: a sentence of `UTF8-char`. */
  predicate IsChar(c: seq<byte>) {
    || (|c| == 1 && c[0] <= 0x7F)
    || (|c| == 2 && 0xC2 <= c[0] <= 0xDF && Continues(c[1]))
    || (|c| == 3 && SecondOfThree(c[0], c[1]) && Continues(c[2]))
    || (|c| == 4 && SecondOfFour(c[0], c[1]) && Continues(c[2]) && Continues(c[3]))
  }

  predicate SecondOfThree(first: byte, second: byte) {
    || (first == 0xE0 && 0xA0 <= second <= 0xBF)
    || (0xE1 <= first <= 0xEC && Continues(second))
    || (first == 0xED && 0x80 <= second <= 0x9F)
    || (0xEE <= first <= 0xEF && Continues(second))
  }

  predicate SecondOfFour(first: byte, second: byte) {
    || (first == 0xF0 && 0x90 <= second <= 0xBF)
    || (0xF1 <= first <= 0xF3 && Continues(second))
    || (first == 0xF4 && 0x80 <= second <= 0x8F)
  }

  /** `UTF8-octets`: any concatenation of code points. */
  ghost predicate Valid(s: seq<byte>)
    decreases |s|
  {
    || s == []
    || (Leads(s, 1) && Valid(s[1..]))
    || (Leads(s, 2) && Valid(s[2..]))
    || (Leads(s, 3) && Valid(s[3..]))
    || (Leads(s, 4) && Valid(s[4..]))
  }

  /** The first `k` bytes are one code point. */
  predicate Leads(s: seq<byte>, k: nat) {
    1 <= k <= |s| && IsChar(s[..k])
  }

  /** Some continuation makes the bytes valid. */
  ghost predicate Extendable(s: seq<byte>) {
    exists rest: seq<byte> :: CompletedBy(s, rest)
  }

  ghost predicate CompletedBy(s: seq<byte>, rest: seq<byte>) {
    Valid(s + rest)
  }

  /** A nonempty proper prefix of one legal code point. */
  ghost predicate Unfinished(s: seq<byte>) {
    s != [] && exists rest: seq<byte> :: FinishedBy(s, rest)
  }

  ghost predicate FinishedBy(s: seq<byte>, rest: seq<byte>) {
    rest != [] && IsChar(s + rest)
  }

  // ---- the library's scan ----

  /** How the scan classifies the front of its input. */
  datatype Front = Whole(width: nat) | Cut | Bad(length: nat)

  datatype Verdict = Accepted | Rejected(validUpTo: nat, errorLen: Option<nat>)

  function Classify(s: seq<byte>): Front
    requires s != []
  {
    var first := s[0];
    if first < 0x80 then Whole(1)
    else if 0xC2 <= first <= 0xDF then
      if |s| == 1 then Cut else if !Continues(s[1]) then Bad(1) else Whole(2)
    else if 0xE0 <= first <= 0xEF then
      if |s| == 1 then Cut
      else if !SecondOfThree(first, s[1]) then Bad(1)
      else if |s| == 2 then Cut
      else if !Continues(s[2]) then Bad(2)
      else Whole(3)
    else if 0xF0 <= first <= 0xF4 then
      if |s| == 1 then Cut
      else if !SecondOfFour(first, s[1]) then Bad(1)
      else if |s| == 2 then Cut
      else if !Continues(s[2]) then Bad(2)
      else if |s| == 3 then Cut
      else if !Continues(s[3]) then Bad(3)
      else Whole(4)
    else Bad(1)
  }

  function FromUtf8(s: seq<byte>): Verdict
    decreases |s|
  {
    if s == [] then Accepted
    else match Classify(s)
      case Cut => Rejected(0, None)
      case Bad(length) => Rejected(0, Some(length))
      case Whole(width) =>
        if |s| < width then Rejected(0, None)
        else Shift(width, FromUtf8(s[width..]))
  }

  function Shift(k: nat, verdict: Verdict): Verdict {
    match verdict
    case Accepted => Accepted
    case Rejected(v, e) => Rejected(k + v, e)
  }

  lemma ClassifyWhole(s: seq<byte>, k: nat)
    requires s != [] && 1 <= k <= |s|
    ensures Leads(s, k) <==> Classify(s) == Whole(k)
  {
    assert s[..k][0] == s[0];
    assert k >= 2 ==> s[..k][1] == s[1];
    assert k >= 3 ==> s[..k][2] == s[2];
    assert k >= 4 ==> s[..k][3] == s[3];
  }

  lemma ClassifyBounds(s: seq<byte>)
    requires s != []
    ensures Classify(s).Whole? ==> 1 <= Classify(s).width <= 4 && Classify(s).width <= |s|
    ensures Classify(s).Cut? ==> |s| <= 3
  {
  }

  lemma ClassifyCut(s: seq<byte>)
    requires s != []
    ensures Classify(s) == Cut <==> Unfinished(s)
  {
    if Classify(s) == Cut {
      assert FinishedBy(s, Completion(s));
    }
    if Unfinished(s) {
      var rest: seq<byte> :| FinishedBy(s, rest);
      var c := s + rest;
      assert c[0] == s[0];
      assert |s| >= 2 ==> c[1] == s[1];
      assert |s| >= 3 ==> c[2] == s[2];
    }
  }

  /** Bytes that finish a cut code point. */
  function Completion(s: seq<byte>): (rest: seq<byte>)
    requires s != [] && Classify(s) == Cut
    ensures rest != [] && IsChar(s + rest)
  {
    if s[0] <= 0xDF then [0x80]
    else if s[0] <= 0xEF then
      if |s| == 1 then (if s[0] == 0xE0 then [0xA0, 0x80] else [0x80, 0x80]) else [0x80]
    else if |s| == 1 then (if s[0] == 0xF0 then [0x90, 0x80, 0x80] else [0x80, 0x80, 0x80])
    else if |s| == 2 then [0x80, 0x80]
    else [0x80]
  }

  // ---- the grammar is prefix-free, so it can be read from the left ----

  /** The one code point that valid bytes start with. */
  lemma ValidSplit(s: seq<byte>) returns (k: nat)
    requires Valid(s) && s != []
    ensures 1 <= k <= 4 && Leads(s, k) && Valid(s[k..])
    ensures Classify(s) == Whole(k)
  {
    if Leads(s, 1) && Valid(s[1..]) { k := 1; }
    else if Leads(s, 2) && Valid(s[2..]) { k := 2; }
    else if Leads(s, 3) && Valid(s[3..]) { k := 3; }
    else { k := 4; }
    ClassifyWhole(s, k);
  }

  lemma {:induction false} ValidHead(c: seq<byte>, rest: seq<byte>)
    requires IsChar(c)
    ensures Valid(c + rest) <==> Valid(rest)
  {
    var s := c + rest;
    assert s[..|c|] == c && s[|c|..] == rest;
    ClassifyWhole(s, |c|);
    if Valid(s) {
      var k := ValidSplit(s);
      assert k == |c|;
    }
  }

  lemma {:induction false} ValidPrefix(a: seq<byte>, b: seq<byte>)
    requires Valid(a)
    ensures Valid(a + b) <==> Valid(b)
    decreases |a|
  {
    if a == [] {
      assert a + b == b;
    } else {
      var k := ValidSplit(a);
      assert a + b == a[..k] + (a[k..] + b);
      ValidHead(a[..k], a[k..] + b);
      ValidPrefix(a[k..], b);
    }
  }

  // ---- what the grammar says: code points are the numbers, encoded ----

  /** A Unicode scalar value: at most 21 bits and no surrogate (RFC 3629 section 3). */
  predicate IsScalar(v: nat) {
    v <= 0x10FFFF && !(0xD800 <= v <= 0xDFFF)
  }

  /** The shortest form, six bits to each byte after the first. */
  function Encode(v: nat): (c: seq<byte>)
    requires v <= 0x10FFFF
  {
    if v < 0x80 then [v]
    else if v < 0x800 then [0xC0 + v / 64, 0x80 + v % 64]
    else if v < 0x1_0000 then [0xE0 + v / 4096, 0x80 + v / 64 % 64, 0x80 + v % 64]
    else [0xF0 + v / 262144, 0x80 + v / 4096 % 64, 0x80 + v / 64 % 64, 0x80 + v % 64]
  }

  predicate Encodes(c: seq<byte>, v: nat) {
    IsScalar(v) && c == Encode(v)
  }

  /** What a byte carries on top of its marker bits. */
  function Bits(b: byte, marker: nat): nat
    requires marker <= b
  {
    b - marker
  }

  /** The number that the payload bits spell. */
  function Spelled(c: seq<byte>): nat
    requires IsChar(c)
  {
    match |c|
    case 1 => c[0]
    case 2 => Bits(c[0], 0xC0) * 64 + Bits(c[1], 0x80)
    case 3 => Bits(c[0], 0xE0) * 4096 + Bits(c[1], 0x80) * 64 + Bits(c[2], 0x80)
    case _ => Bits(c[0], 0xF0) * 262144 + Bits(c[1], 0x80) * 4096 + Bits(c[2], 0x80) * 64 + Bits(c[3], 0x80)
  }

  lemma DigitsOf(a: nat, b: nat, c: nat, d: nat)
    requires b < 64 && c < 64 && d < 64
    ensures var v := a * 262144 + b * 4096 + c * 64 + d;
      && v / 262144 == a && v / 4096 % 64 == b && v / 64 % 64 == c && v % 64 == d
      && v / 4096 == a * 64 + b && v / 64 == a * 4096 + b * 64 + c
  {
    var v := a * 262144 + b * 4096 + c * 64 + d;
    assert v / 64 == a * 4096 + b * 64 + c;
    assert v / 4096 == a * 64 + b;
  }

  lemma SpelledInThree(c: seq<byte>)
    requires IsChar(c) && |c| == 3
    ensures Encodes(c, Spelled(c))
  {
    DigitsOf(0, Bits(c[0], 0xE0), Bits(c[1], 0x80), Bits(c[2], 0x80));
  }

  lemma SpelledInFour(c: seq<byte>)
    requires IsChar(c) && |c| == 4
    ensures Encodes(c, Spelled(c))
  {
    DigitsOf(Bits(c[0], 0xF0), Bits(c[1], 0x80), Bits(c[2], 0x80), Bits(c[3], 0x80));
  }

  lemma SpelledEncodes(c: seq<byte>)
    requires IsChar(c)
    ensures Encodes(c, Spelled(c))
  {
    if |c| == 2 {
      DigitsOf(0, 0, Bits(c[0], 0xC0), Bits(c[1], 0x80));
    } else if |c| == 3 {
      SpelledInThree(c);
    } else if |c| == 4 {
      SpelledInFour(c);
    }
  }

  lemma EncodedIsChar(v: nat)
    requires IsScalar(v)
    ensures IsChar(Encode(v)) && Spelled(Encode(v)) == v
  {
    assert v / 64 / 64 == v / 4096 && v / 4096 / 64 == v / 262144;
  }

  /** The legal code points are exactly the encodings of the scalar values. */
  lemma CharsAreEncodings(c: seq<byte>)
    ensures IsChar(c) <==> exists v: nat :: Encodes(c, v)
  {
    if IsChar(c) {
      SpelledEncodes(c);
    }
    if v: nat :| Encodes(c, v) {
      EncodedIsChar(v);
    }
  }

  /** No scalar value's encoding starts another's, so no two are the same. */
  lemma EncodingsApart(v: nat, w: nat)
    requires IsScalar(v) && IsScalar(w) && Encode(v) <= Encode(w)
    ensures v == w
  {
    EncodedIsChar(v);
    EncodedIsChar(w);
    ClassifyWhole(Encode(w), |Encode(v)|);
    ClassifyWhole(Encode(w), |Encode(w)|);
    assert Encode(w)[..|Encode(w)|] == Encode(w);
  }

  ghost predicate AreScalars(text: seq<nat>) {
    forall v | v in text :: IsScalar(v)
  }

  function EncodeAll(text: seq<nat>): seq<byte>
    requires AreScalars(text)
  {
    if text == [] then []
    else
      assert IsScalar(text[0]);
      Encode(text[0]) + EncodeAll(text[1..])
  }

  ghost predicate Spells(s: seq<byte>, text: seq<nat>) {
    AreScalars(text) && s == EncodeAll(text)
  }

  lemma {:induction false} TextIsValid(text: seq<nat>)
    requires AreScalars(text)
    ensures Valid(EncodeAll(text))
  {
    if text != [] {
      TextIsValid(text[1..]);
      EncodedIsChar(text[0]);
      ValidHead(Encode(text[0]), EncodeAll(text[1..]));
    }
  }

  lemma {:induction false} ValidIsText(s: seq<byte>) returns (text: seq<nat>)
    requires Valid(s)
    ensures Spells(s, text)
    decreases |s|
  {
    text := [];
    if s != [] {
      var k := ValidSplit(s);
      var rest := ValidIsText(s[k..]);
      SpelledEncodes(s[..k]);
      text := [Spelled(s[..k])] + rest;
      assert text[1..] == rest;
    }
  }

  /** Bytes are valid exactly when they encode some sequence of scalar values, one after the other. */
  lemma ValidIsEncodedText(s: seq<byte>)
    ensures Valid(s) <==> exists text: seq<nat> :: Spells(s, text)
  {
    if Valid(s) {
      var text := ValidIsText(s);
    }
    if text: seq<nat> :| Spells(s, text) {
      TextIsValid(text);
    }
  }

  /** Encoded text can be read in one way only. */
  lemma {:induction false} TextIsUnique(a: seq<nat>, b: seq<nat>)
    requires AreScalars(a) && AreScalars(b) && EncodeAll(a) == EncodeAll(b)
    ensures a == b
  {
    if a != [] && b != [] {
      assert IsScalar(a[0]) && IsScalar(b[0]);
      var s, c, d := EncodeAll(a), Encode(a[0]), Encode(b[0]);
      assert s[..|c|] == c && s[..|d|] == d;
      assert if |c| <= |d| then c <= d else d <= c;
      if c <= d {
        EncodingsApart(a[0], b[0]);
      } else {
        EncodingsApart(b[0], a[0]);
      }
      assert s[|c|..] == EncodeAll(a[1..]) && s[|d|..] == EncodeAll(b[1..]);
      TextIsUnique(a[1..], b[1..]);
    }
  }

  lemma CompletedByPrefix(a: seq<byte>, b: seq<byte>, rest: seq<byte>)
    requires Valid(a)
    ensures CompletedBy(a + b, rest) <==> CompletedBy(b, rest)
  {
    assert a + b + rest == a + (b + rest);
    ValidPrefix(a, b + rest);
  }

  lemma ExtendablePrefix(a: seq<byte>, b: seq<byte>)
    requires Valid(a)
    ensures Extendable(a + b) <==> Extendable(b)
  {
    forall rest: seq<byte>
      ensures CompletedBy(a + b, rest) <==> CompletedBy(b, rest)
    {
      CompletedByPrefix(a, b, rest);
    }
  }

  lemma ValidIsExtendable(s: seq<byte>)
    requires Valid(s)
    ensures Extendable(s)
  {
    assert s + [] == s;
    assert CompletedBy(s, []);
  }

  lemma ShorterIsExtendable(a: seq<byte>, b: seq<byte>)
    requires Extendable(a + b)
    ensures Extendable(a)
  {
    var rest: seq<byte> :| CompletedBy(a + b, rest);
    assert a + b + rest == a + (b + rest);
    assert CompletedBy(a, b + rest);
  }

  /** Nothing can follow bytes the scan finds bad, and a cut front is not yet valid. */
  lemma FrontDecides(s: seq<byte>)
    requires s != []
    ensures Classify(s).Bad? ==> !Extendable(s)
    ensures Classify(s).Cut? ==> !Valid(s) && Extendable(s)
  {
    if Classify(s).Bad? && Extendable(s) {
      var rest: seq<byte> :| CompletedBy(s, rest);
      var k := ValidSplit(s + rest);
      assert false;
    }
    if Classify(s).Cut? {
      if Valid(s) {
        var k := ValidSplit(s);
      }
      var rest := Completion(s);
      ValidHead(s + rest, []);
      assert s + rest + [] == s + rest;
      assert CompletedBy(s, rest);
    }
  }

  /** The whole promise of `std::str::from_utf8` about one input and one verdict. */
  ghost predicate Reports(s: seq<byte>, verdict: Verdict) {
    match verdict
    case Accepted => Valid(s)
    case Rejected(v, errorLen) =>
      && v < |s|
      && Valid(s[..v])
      && !Valid(s)
      && (errorLen.None? ==> Unfinished(s[v..]) && |s| - v <= 3 && Extendable(s))
      && (errorLen.Some? ==> !Extendable(s))
  }

  lemma ReportsAfterChar(c: seq<byte>, x: seq<byte>, verdict: Verdict)
    requires IsChar(c) && Reports(x, verdict)
    ensures Reports(c + x, Shift(|c|, verdict))
  {
    ValidHead(c, x);
    ValidHead(c, []);
    assert c + [] == c;
    ExtendablePrefix(c, x);
    if verdict.Rejected? {
      var v := verdict.validUpTo;
      CutBehind(c, x, v);
      ValidHead(c, x[..v]);
    }
  }

  lemma CutBehind(c: seq<byte>, x: seq<byte>, v: nat)
    requires v <= |x|
    ensures (c + x)[..|c| + v] == c + x[..v] && (c + x)[|c| + v..] == x[v..]
  {
  }

  /** What `std::str::from_utf8` promises, proved of the scan above. */
  lemma {:induction false} FromUtf8Contract(s: seq<byte>)
    ensures Reports(s, FromUtf8(s))
    decreases |s|
  {
    if s != [] {
      ClassifyBounds(s);
      ClassifyCut(s);
      FrontDecides(s);
      match Classify(s) {
        case Cut => assert s[0..] == s;
        case Bad(_) => if Valid(s) { ValidIsExtendable(s); }
        case Whole(width) =>
          ClassifyWhole(s, width);
          var c, x := s[..width], s[width..];
          assert s == c + x;
          FromUtf8Contract(x);
          ReportsAfterChar(c, x, FromUtf8(x));
      }
    }
  }

  /** The unfinished suffix that an extendable byte string carries: at most three bytes. */
  function Remainder(s: seq<byte>): seq<byte> {
    match FromUtf8(s)
    case Accepted => []
    case Rejected(v, _) => if v <= |s| then s[v..] else []
  }

  lemma ScanAfterChar(c: seq<byte>, x: seq<byte>)
    requires IsChar(c)
    ensures FromUtf8(c + x) == Shift(|c|, FromUtf8(x))
  {
    var s := c + x;
    assert s[..|c|] == c && s[|c|..] == x;
    ClassifyWhole(s, |c|);
  }

  lemma {:induction false} ScanAfterValid(a: seq<byte>, b: seq<byte>)
    requires Valid(a)
    ensures FromUtf8(a + b) == Shift(|a|, FromUtf8(b))
    decreases |a|
  {
    if a == [] {
      assert a + b == b;
    } else {
      var k := ValidSplit(a);
      var c, x := a[..k], a[k..] + b;
      assert a + b == c + x;
      ScanAfterValid(a[k..], b);
      ScanAfterChar(c, x);
    }
  }

  lemma RemainderOfFront(b: seq<byte>)
    requires b == [] || Unfinished(b)
    ensures Extendable(b) && Remainder(b) == b
    ensures Valid(b) <==> b == []
  {
    if b == [] {
      ValidIsExtendable(b);
    } else {
      ClassifyCut(b);
      FrontDecides(b);
      assert b[0..] == b;
    }
  }

  /** `Remainder` is the only way to split extendable bytes into valid bytes and a cut code point. */
  lemma RemainderUnique(a: seq<byte>, b: seq<byte>)
    requires Valid(a)
    requires b == [] || Unfinished(b)
    ensures Extendable(a + b)
    ensures Remainder(a + b) == b
    ensures Valid(a + b) <==> b == []
  {
    RemainderOfFront(b);
    ScanAfterValid(a, b);
    ExtendablePrefix(a, b);
    ValidPrefix(a, b);
    if FromUtf8(b).Rejected? {
      assert (a + b)[|a|..] == b;
    }
  }

  lemma VerdictMeans(s: seq<byte>)
    ensures FromUtf8(s).Accepted? <==> Valid(s)
    ensures FromUtf8(s).Accepted? || FromUtf8(s).errorLen.None? <==> Extendable(s)
    ensures Valid(s) ==> Extendable(s)
  {
    FromUtf8Contract(s);
    if Valid(s) {
      ValidIsExtendable(s);
    }
  }

  /** Extendable bytes are valid bytes followed by their remainder, which is at most three bytes. */
  lemma RemainderSplits(s: seq<byte>)
    requires Extendable(s)
    ensures |Remainder(s)| <= 3 && |Remainder(s)| <= |s|
    ensures var v := |s| - |Remainder(s)|;
      Valid(s[..v]) && s[v..] == Remainder(s)
    ensures Remainder(s) == [] || Unfinished(Remainder(s))
  {
    FromUtf8Contract(s);
    if FromUtf8(s).Accepted? {
      assert s[..|s|] == s;
    }
  }

  // ---- completing a cut code point from the next bytes ----

  /** The width the validator reads off the first byte of a cut code point. */
  function LeadWidth(first: byte): nat {
    if first < 0xE0 then 2 else if first < 0xF0 then 3 else 4
  }

  lemma UnfinishedIsShort(s: seq<byte>)
    requires Unfinished(s)
    ensures 0 < |s| < LeadWidth(s[0])
    ensures Classify(s) == Cut
  {
    ClassifyCut(s);
  }

  /** A cut code point with bytes added up to its width is either cut still, finished or bad. */
  lemma GrownFront(s: seq<byte>, more: seq<byte>)
    requires Unfinished(s)
    requires |s + more| <= LeadWidth(s[0])
    ensures FromUtf8(s + more).Accepted? ==> |s + more| == LeadWidth(s[0])
    ensures FromUtf8(s + more).Rejected? && FromUtf8(s + more).errorLen.None? ==>
      |s + more| < LeadWidth(s[0]) && Unfinished(s + more)
  {
    UnfinishedIsShort(s);
    var grown := s + more;
    assert grown[0] == s[0];
    ClassifyCut(grown);
    if Classify(grown).Whole? {
      var width := Classify(grown).width;
      assert grown[width..] == [];
      assert FromUtf8(grown) == Shift(width, FromUtf8([]));
    }
  }
}
