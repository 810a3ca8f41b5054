/**
 Repairing byte strings into UTF-8 (section 4 of RFC 3629).  `Span` stands for the library function
 that measures the longest valid prefix.
 */
module Utf8 {
  import opened Octets
  import opened Options

  const QUESTION_MARK: Octet := 0x3F

  predicate IsTail(b: Octet) {
    0x80 <= b <= 0xBF
  }

  /** The number of bytes of the character that `s` begins with, zero if it begins with none. */
  function CharLength(s: seq<Octet>): (n: nat)
    ensures n <= |s|
  {
    if |s| >= 1 && s[0] <= 0x7F then 1
    else if |s| >= 2 && 0xC2 <= s[0] <= 0xDF && IsTail(s[1]) then 2
    else if |s| >= 3 && IsTail(s[2]) &&
            ((s[0] == 0xE0 && 0xA0 <= s[1] <= 0xBF) || (0xE1 <= s[0] <= 0xEC && IsTail(s[1])) ||
             (s[0] == 0xED && 0x80 <= s[1] <= 0x9F) || (0xEE <= s[0] <= 0xEF && IsTail(s[1]))) then 3
    else if |s| >= 4 && IsTail(s[2]) && IsTail(s[3]) &&
            ((s[0] == 0xF0 && 0x90 <= s[1] <= 0xBF) || (0xF1 <= s[0] <= 0xF3 && IsTail(s[1])) ||
             (s[0] == 0xF4 && 0x80 <= s[1] <= 0x8F)) then 4
    else 0
  }

  function Span(s: seq<Octet>): (n: nat)
    ensures n <= |s|
  {
    var k := CharLength(s);
    if k == 0 then 0 else k + Span(s[k..])
  }

  predicate Valid(s: seq<Octet>) {
    Span(s) == |s|
  }

  /** A character is recognised whatever follows it. */
  lemma CharLengthLocal(s: seq<Octet>, t: seq<Octet>)
    ensures CharLength(s) > 0 ==> CharLength(s + t) == CharLength(s)
    ensures 0 < CharLength(s + t) <= |s| ==> CharLength(s) == CharLength(s + t)
  {
  }

  lemma {:induction false} SpanOfConcat(s: seq<Octet>, t: seq<Octet>)
    requires Valid(s)
    ensures Span(s + t) == |s| + Span(t)
  {
    if s == [] {
      assert s + t == t;
    } else {
      var k := CharLength(s);
      CharLengthLocal(s, t);
      assert (s + t)[k..] == s[k..] + t;
      SpanOfConcat(s[k..], t);
    }
  }

  lemma {:induction false} SpanIsValid(s: seq<Octet>)
    ensures Valid(s[..Span(s)])
  {
    hide CharLength;
    var k := CharLength(s);
    if k > 0 {
      var rest := s[k..][..Span(s) - k];
      SpanIsValid(s[k..]);
      FirstChar(s);
      assert s[..Span(s)] == s[..k] + rest;
      SpanOfConcat(s[..k], rest);
    }
  }

  /** No valid prefix is longer than the span. */
  lemma {:induction false} SpanIsLongest(s: seq<Octet>, n: nat)
    requires n <= |s| && Valid(s[..n])
    ensures n <= Span(s)
  {
    hide CharLength;
    assert s == s[..n] + s[n..];
    SpanOfConcat(s[..n], s[n..]);
  }

  lemma FirstChar(s: seq<Octet>)
    requires CharLength(s) > 0
    ensures Valid(s[..CharLength(s)])
  {
    var k := CharLength(s);
    assert s[..k] + s[k..] == s;
    CharLengthLocal(s[..k], s[k..]);
    assert s[..k][k..] == [];
  }

  // ----- validity by the characters encoded

  /** The scalar values of Unicode. */
  predicate Scalar(c: int) {
    0 <= c < 0xD800 || 0xE000 <= c <= 0x10FFFF
  }

  /** The table of section 3 of RFC 3629. */
  function EncodeScalar(c: int): (s: seq<Octet>)
    requires Scalar(c)
  {
    if c < 0x80 then [c]
    else if c < 0x800 then [0xC0 + c / 64, 0x80 + c % 64]
    else if c < 0x10000 then [0xE0 + c / 4096, 0x80 + c / 64 % 64, 0x80 + c % 64]
    else [0xF0 + c / 262144, 0x80 + c / 4096 % 64, 0x80 + c / 64 % 64, 0x80 + c % 64]
  }

  function EncodeScalars(cs: seq<int>): seq<Octet>
    requires forall c :: c in cs ==> Scalar(c)
  {
    if cs == [] then [] else EncodeScalar(cs[0]) + EncodeScalars(cs[1..])
  }

  /** The encoding of a scalar value is recognised as one character. */
  lemma EncodingIsChar(c: int)
    requires Scalar(c)
    ensures CharLength(EncodeScalar(c)) == |EncodeScalar(c)| > 0
  {
  }

  /** The number that begins with `c` and goes on with the six bits of a tail byte. */
  function Tailed(c: int, b: Octet): int {
    c * 64 + (b - 0x80)
  }

  lemma TailedDigits(c: int, b: Octet)
    requires IsTail(b)
    ensures Tailed(c, b) / 64 == c && 0x80 + Tailed(c, b) % 64 == b
  {
  }

  function DecodeChar(s: seq<Octet>): int
    requires CharLength(s) > 0
  {
    match CharLength(s)
    case 1 => s[0]
    case 2 => Tailed(s[0] - 0xC0, s[1])
    case 3 => Tailed(Tailed(s[0] - 0xE0, s[1]), s[2])
    case _ => Tailed(Tailed(Tailed(s[0] - 0xF0, s[1]), s[2]), s[3])
  }

  lemma DividedTwice(c: int)
    ensures c / 4096 == c / 64 / 64 && c / 262144 == c / 64 / 64 / 64
  {
  }

  /** And whatever is recognised is the encoding of a scalar value. */
  lemma CharIsEncoding(s: seq<Octet>)
    requires CharLength(s) > 0
    ensures Scalar(DecodeChar(s)) && EncodeScalar(DecodeChar(s)) == s[..CharLength(s)]
  {
    var n, c := CharLength(s), DecodeChar(s);
    if n == 2 {
      TailedDigits(s[0] - 0xC0, s[1]);
    } else if n == 3 {
      ThreeBytes(s, c);
    } else if n == 4 {
      FourBytes(s, c);
    }
  }

  lemma ThreeBytes(s: seq<Octet>, c: int)
    requires CharLength(s) == 3 && c == Tailed(Tailed(s[0] - 0xE0, s[1]), s[2])
    ensures 0x800 <= c < 0x10000 && Scalar(c) && EncodeScalar(c) == s[..3]
  {
    var d: int := Tailed(s[0] - 0xE0, s[1]);
    assert 0x20 <= d < 0x400 && !(0x360 <= d < 0x380);
    TailedDigits(s[0] - 0xE0, s[1]);
    TailedDigits(d, s[2]);
    DividedTwice(c);
  }

  lemma FourBytes(s: seq<Octet>, c: int)
    requires CharLength(s) == 4 && c == Tailed(Tailed(Tailed(s[0] - 0xF0, s[1]), s[2]), s[3])
    ensures 0x10000 <= c <= 0x10FFFF && EncodeScalar(c) == s[..4]
  {
    var d: int := Tailed(s[0] - 0xF0, s[1]);
    var e: int := Tailed(d, s[2]);
    assert 0x10 <= d < 0x110;
    TailedDigits(s[0] - 0xF0, s[1]);
    TailedDigits(d, s[2]);
    TailedDigits(e, s[3]);
    DividedTwice(c);
  }

  lemma {:induction false} EncodingIsValid(cs: seq<int>)
    requires forall c :: c in cs ==> Scalar(c)
    ensures Valid(EncodeScalars(cs))
  {
    hide CharLength, EncodeScalar, Scalar;
    if cs != [] {
      var first, rest := EncodeScalar(cs[0]), EncodeScalars(cs[1..]);
      EncodingIsValid(cs[1..]);
      EncodingIsChar(cs[0]);
      assert first[|first|..] == [];
      SpanOfConcat(first, rest);
    }
  }

  lemma {:induction false} ValidIsEncoding(s: seq<Octet>) returns (cs: seq<int>)
    requires Valid(s)
    ensures (forall c :: c in cs ==> Scalar(c)) && EncodeScalars(cs) == s
  {
    hide CharLength, EncodeScalar, Scalar, DecodeChar;
    if s == [] {
      cs := [];
    } else {
      var k := CharLength(s);
      CharIsEncoding(s);
      var rest := ValidIsEncoding(s[k..]);
      cs := [DecodeChar(s)] + rest;
      assert cs[1..] == rest;
      assert s == s[..k] + s[k..];
    }
  }

  /** A byte string is valid exactly when it is the encoding of some scalar values. */
  lemma ValidExactly(s: seq<Octet>)
    ensures Valid(s) <==> exists cs: seq<int> :: (forall c :: c in cs ==> Scalar(c)) && EncodeScalars(cs) == s
  {
    hide Span, Scalar;
    if Valid(s) {
      var cs := ValidIsEncoding(s);
    }
    if cs: seq<int> :| (forall c :: c in cs ==> Scalar(c)) && EncodeScalars(cs) == s {
      EncodingIsValid(cs);
    }
  }

  /** The repair: a question mark wherever a valid span stops. */
  function Repaired(s: seq<Octet>): (r: seq<Octet>)
    ensures |r| == |s|
  {
    var n := Span(s);
    if n == |s| then s else s[..n] + [QUESTION_MARK] + Repaired(s[n + 1..])
  }

  lemma SpanAfterAscii(s: seq<Octet>)
    ensures Span([QUESTION_MARK] + s) == 1 + Span(s)
  {
    assert CharLength([QUESTION_MARK] + s) == 1;
    assert ([QUESTION_MARK] + s)[1..] == s;
  }

  lemma {:induction false} RepairedIsValid(s: seq<Octet>)
    ensures Valid(Repaired(s))
  {
    hide Span;
    var n := Span(s);
    if n < |s| {
      var rest := Repaired(s[n + 1..]);
      RepairedIsValid(s[n + 1..]);
      SpanIsValid(s);
      SpanAfterAscii(rest);
      assert Repaired(s) == s[..n] + ([QUESTION_MARK] + rest);
      SpanOfConcat(s[..n], [QUESTION_MARK] + rest);
    }
  }

  /** Positions where a valid span stops, counted from the position after the stop before. */
  ghost predicate Stops(s: seq<Octet>, i: int) {
    var n := Span(s);
    n < |s| && (i == n || Stops(s[n + 1..], i - n - 1))
  }

  /** Only the stops change, and they change to a question mark. */
  lemma {:induction false} RepairChangesStopsOnly(s: seq<Octet>, i: nat)
    requires i < |s|
    ensures Repaired(s)[i] == if Stops(s, i) then QUESTION_MARK else s[i]
    decreases |s|
  {
    hide Span;
    var n := Span(s);
    if n < |s| {
      if i > n {
        RepairChangesStopsOnly(s[n + 1..], i - n - 1);
      } else if i < n {
        NoStopBefore(s[n + 1..], i - n - 1);
      }
    }
  }

  lemma {:induction false} NoStopBefore(s: seq<Octet>, i: int)
    requires i < 0
    ensures !Stops(s, i)
    decreases |s|
  {
    hide Span;
    if Span(s) < |s| {
      NoStopBefore(s[Span(s) + 1..], i - Span(s) - 1);
    }
  }

  /** Nothing is returned exactly when the input is already valid. */
  method SanitizedUTF8(input: seq<Octet>) returns (result: Option<seq<Octet>>)
    ensures result.None? <==> Valid(input)
    ensures result.Some? ==> result.value == Repaired(input) && Valid(result.value)
  {
    hide Span, Repaired;
    var str := input;
    var len := Span(str);
    if len == |str| {
      return None;
    }
    var output := new Octet[|input|](k requires 0 <= k < |input| => input[k]);
    var i := len;
    ghost var from := 0;
    assert output[..] == input && output[..0] == [] && output[0..] == output[..];
    while i < output.Length
      invariant 0 <= from <= |input| && i == from + len
      invariant str == input[from..] && len == Span(str)
      invariant output[from..] == str
      invariant output[..from] + Repaired(str) == Repaired(input)
      decreases output.Length - i
    {
      ghost var front := output[..from];
      RepairStep(front, str);
      output[i] := QUESTION_MARK;
      assert output[..from] == front && output[from..i] == str[..len];
      assert output[..i + 1] == output[..from] + output[from..i] + [QUESTION_MARK];
      str := str[len + 1..];
      len := Span(str);
      from := i + 1;
      i := i + len + 1;
    }
    assert output[..] == output[..from] + output[from..];
    NothingToRepair(str);
    result := Some(output[..]);
    RepairedIsValid(input);
  }

  lemma NothingToRepair(s: seq<Octet>)
    requires Span(s) == |s|
    ensures Repaired(s) == s
  {
  }

  lemma RepairStep(front: seq<Octet>, s: seq<Octet>)
    requires Span(s) < |s|
    ensures front + Repaired(s) == front + s[..Span(s)] + [QUESTION_MARK] + Repaired(s[Span(s) + 1..])
  {
    hide Span;
    var n := Span(s);
    assert Repaired(s) == s[..n] + [QUESTION_MARK] + Repaired(s[n + 1..]);
    Assoc(front, s[..n], [QUESTION_MARK], Repaired(s[n + 1..]));
  }

  lemma Assoc(a: seq<Octet>, b: seq<Octet>, c: seq<Octet>, d: seq<Octet>)
    ensures a + (b + c + d) == a + b + c + d
  {
  }
}
