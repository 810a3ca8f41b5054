/**
 Base64 (section 4 of RFC 4648): the collector only decodes; the encoder is the specification it
 must invert.
 */
module Base64 {
  import opened Octets

  const UPPER := "ABCDEFGHIJKLMNOPQRSTUVWXYZ"
  const LOWER := "abcdefghijklmnopqrstuvwxyz"
  const REST := "0123456789+/"
  const CHARS := UPPER + LOWER + REST

  predicate IsBase64(c: char) {
    'A' <= c <= 'Z' || 'a' <= c <= 'z' || '0' <= c <= '9' || c == '+' || c == '/'
  }

  /** The first position of `c` in `s`, from `i` on; the length of `s` if there is none. */
  function FindFrom(s: string, c: char, i: nat): nat
    requires i <= |s|
    decreases |s| - i
  {
    if i == |s| || s[i] == c then i else FindFrom(s, c, i + 1)
  }

  /** `find` stored in a byte: a character outside the alphabet becomes 255. */
  function Sextet(c: char): Octet {
    var i := FindFrom(CHARS, c, 0);
    if i < |CHARS| && i < 64 then i else 255
  }

  // ----- the encoder

  function Letter(v: int): char
    requires 0 <= v < 64
  {
    CHARS[v]
  }

  function EncodeGroup(a: Octet, b: Octet, c: Octet): (s: string)
    ensures |s| == 4
  {
    [Letter(a / 4), Letter(a % 4 * 16 + b / 16), Letter(b % 16 * 4 + c / 64), Letter(c % 64)]
  }

  function EncodeFull(bytes: seq<Octet>): (s: string)
    requires |bytes| % 3 == 0
    ensures |s| == |bytes| / 3 * 4
  {
    if bytes == [] then ""
    else
      var n := |bytes|;
      EncodeFull(bytes[..n - 3]) + EncodeGroup(bytes[n - 3], bytes[n - 2], bytes[n - 1])
  }

  function EncodeTail(bytes: seq<Octet>): string
    requires |bytes| < 3
  {
    if |bytes| == 0 then ""
    else if |bytes| == 1 then EncodeGroup(bytes[0], 0, 0)[..2] + "=="
    else EncodeGroup(bytes[0], bytes[1], 0)[..3] + "="
  }

  function Encode(bytes: seq<Octet>): string {
    var n := |bytes| - |bytes| % 3;
    EncodeFull(bytes[..n]) + EncodeTail(bytes[n..])
  }

  // ----- the decoder on values

  /** Three bytes from four sextets, with the truncation of a byte store. */
  function DecodeGroup(a: Octet, b: Octet, c: Octet, d: Octet): (bytes: seq<Octet>)
    ensures |bytes| == 3
  {
    [(a * 4 + b / 16 % 4) % 256, b % 16 * 16 + c / 4 % 16, (c % 4 * 64 + d) % 256]
  }

  /** Four sextets and the three bytes they decode to are the same 24 bits. */
  lemma GroupIsNumber(a: Octet, b: Octet, c: Octet, d: Octet)
    requires a < 64 && b < 64 && c < 64 && d < 64
    ensures var bytes: seq<int> := DecodeGroup(a, b, c, d); var w: int, x: int, y: int := a, b, c;
            |bytes| == 3 && bytes[0] * 65536 + bytes[1] * 256 + bytes[2] == w * 262144 + x * 4096 + y * 64 + d
  {
    var x1: int, x0: int, y1: int, y0: int := b / 16, b % 16, c / 4, c % 4;
    assert b == 16 * x1 + x0 && c == 4 * y1 + y0 && x1 < 4 && y1 < 16;
    Unchanged(x1, 4);
    Unchanged(y1, 16);
    Unchanged(a * 4 + x1, 256);
    Unchanged(y0 * 64 + d, 256);
    assert DecodeGroup(a, b, c, d) == [a * 4 + x1, x0 * 16 + y1, y0 * 64 + d];
  }

  lemma Unchanged(n: int, d: int)
    requires 0 <= n < d
    ensures n % d == n
  {
  }

  function DecodeFull(s: string): seq<Octet>
    requires |s| % 4 == 0
  {
    if s == "" then []
    else
      var n := |s|;
      DecodeFull(s[..n - 4]) + DecodeGroup(Sextet(s[n - 4]), Sextet(s[n - 3]), Sextet(s[n - 2]), Sextet(s[n - 1]))
  }

  /** A last group of fewer than four characters, filled up with zero characters. */
  function DecodeTail(s: string): seq<Octet>
    requires |s| < 4
  {
    if |s| == 0 then []
    else
      var at := (i: nat) => if i < |s| then s[i] else 0 as char;
      DecodeGroup(Sextet(at(0)), Sextet(at(1)), Sextet(at(2)), Sextet(at(3)))[..|s| - 1]
  }

  function Decode(s: string): seq<Octet> {
    var n := |s| - |s| % 4;
    DecodeFull(s[..n]) + DecodeTail(s[n..])
  }

  /** The characters before the first one outside the alphabet. */
  function Body(s: string): string {
    if s == "" || !IsBase64(s[0]) then "" else [s[0]] + Body(s[1..])
  }

  // ----- the decoder as the code has it

  method ToSextets(four: array<Octet>)
    requires four.Length == 4
    modifies four
    ensures forall k :: 0 <= k < 4 ==> four[k] == Sextet(old(four[k]) as char)
  {
    hide Sextet;
    for i := 0 to 4
      invariant forall k :: 0 <= k < i ==> four[k] == Sextet(old(four[k]) as char)
      invariant forall k :: i <= k < 4 ==> four[k] == old(four[k])
    {
      four[i] := Sextet(four[i] as char);
    }
  }

  /** Turns four characters into sextets and those into three bytes. */
  method ConvertGroup(four: array<Octet>, three: array<Octet>)
    requires four.Length == 4 && three.Length == 3 && four != three
    modifies four, three
    ensures three[..] == old(DecodeGroup(Sextet(four[0] as char), Sextet(four[1] as char),
                                         Sextet(four[2] as char), Sextet(four[3] as char)))
  {
    hide Sextet, DecodeGroup;
    ToSextets(four);
    var a: int, b: int, c: int, d: int := four[0], four[1], four[2], four[3];
    GroupBytes(a, b, c, d);
    three[0] := (a * 4 + b / 16 % 4) % 256;
    three[1] := b % 16 * 16 + c / 4 % 16;
    three[2] := (c % 4 * 64 + d) % 256;
    assert three[..] == [three[0], three[1], three[2]];
  }

  lemma GroupBytes(a: Octet, b: Octet, c: Octet, d: Octet)
    ensures 0 <= b % 16 * 16 + c / 4 % 16 < 256
    ensures DecodeGroup(a, b, c, d) == [(a * 4 + b / 16 % 4) % 256, b % 16 * 16 + c / 4 % 16, (c % 4 * 64 + d) % 256]
  {
  }

  lemma IsOctet(c: char)
    requires IsBase64(c)
    ensures c as int < 256
  {
  }

  method Base64Decode(encoded: string) returns (ret: seq<Octet>)
    ensures ret == Decode(Body(encoded))
  {
    hide Sextet, DecodeGroup, DecodeFull, DecodeTail, Body, IsBase64, Decode;
    var four, three := new Octet[4](_ => 0), new Octet[3](_ => 0);
    EmptyIsEmpty();
    var inLen, i, at := |encoded|, 0, 0;
    ret := [];
    while inLen > 0 && encoded[at] != '=' && IsBase64(encoded[at])
      invariant 0 <= inLen == |encoded| - at && 0 <= i < 4 && i <= at && (at - i) % 4 == 0
      invariant forall k :: 0 <= k < at ==> IsBase64(encoded[k])
      invariant forall k :: 0 <= k < i ==> four[k] == encoded[at - i + k] as int
      invariant ret == DecodeFull(encoded[..at - i])
    {
      inLen := inLen - 1;
      IsOctet(encoded[at]);
      four[i] := encoded[at] as int;
      i, at := i + 1, at + 1;
      if i == 4 {
        ConvertGroup(four, three);
        ret := ret + three[..];
        FullGroup(encoded, at);
        i := 0;
      }
    }
    PaddingIsOutside();
    BodyIs(encoded, at);
    ghost var n := at - i;
    InParts(encoded, n, at);
    if i != 0 {
      var tail := ConvertTail(four, three, i, encoded[n..at]);
      ret := ret + tail;
    }
  }

  lemma PaddingIsOutside()
    ensures !IsBase64('=')
  {
  }

  /** The full groups and the rest of what was read. */
  lemma InParts(s: string, n: nat, at: nat)
    requires n <= at <= |s| && n % 4 == 0 && at - n < 4
    ensures Decode(s[..at]) == DecodeFull(s[..n]) + DecodeTail(s[n..at])
  {
    hide DecodeFull, DecodeTail;
    assert s[..at][..n] == s[..n] && s[..at][n..] == s[n..at];
  }

  /** The last, incomplete group: zeros fill it up, and one byte fewer than its characters counts. */
  method ConvertTail(four: array<Octet>, three: array<Octet>, i: nat, ghost tail: string) returns (bytes: seq<Octet>)
    requires four.Length == 4 && three.Length == 3 && four != three && 0 < i < 4
    requires |tail| == i && forall k :: 0 <= k < i ==> four[k] == tail[k] as int < 256
    modifies four, three
    ensures bytes == DecodeTail(tail)
  {
    hide Sextet, DecodeGroup;
    for j := i to 4
      invariant forall k :: 0 <= k < i ==> four[k] == tail[k] as int
      invariant forall k :: i <= k < j ==> four[k] == 0
    {
      four[j] := 0;
    }
    ConvertGroup(four, three);
    bytes := three[..i - 1];
  }

  lemma EmptyIsEmpty()
    ensures DecodeFull("") == [] && DecodeTail("") == [] && EncodeFull([]) == ""
  {
  }

  lemma FullGroup(s: string, at: nat)
    requires 4 <= at <= |s| && at % 4 == 0
    ensures DecodeFull(s[..at]) ==
            DecodeFull(s[..at - 4])
            + DecodeGroup(Sextet(s[at - 4]), Sextet(s[at - 3]), Sextet(s[at - 2]), Sextet(s[at - 1]))
  {
    assert s[..at][..at - 4] == s[..at - 4];
  }

  lemma {:induction false} BodyIs(s: string, n: nat)
    requires n <= |s| && (forall k :: 0 <= k < n ==> IsBase64(s[k])) && (n < |s| ==> !IsBase64(s[n]))
    ensures Body(s) == s[..n]
  {
    if n > 0 {
      BodyIs(s[1..], n - 1);
      assert s[..n] == [s[0]] + s[1..][..n - 1];
    }
  }

  // ----- the alphabet

  /** The alphabet in closed form. */
  function CodeOf(v: int): int {
    if v < 26 then 65 + v
    else if v < 52 then 97 + v - 26
    else if v < 62 then 48 + v - 52
    else if v == 62 then 43
    else 47
  }

  lemma LetterCode(v: int)
    requires 0 <= v < 64
    ensures Letter(v) as int == CodeOf(v)
  {
    if v < 26 {
      UpperCode(v);
    } else if v < 52 {
      LowerCode(v);
    } else {
      RestCode(v);
    }
    hide Letter;
  }

  lemma UpperCode(v: int)
    requires 0 <= v < 26
    ensures Letter(v) as int == 65 + v
  {
    assert CHARS[v] == UPPER[v];
  }

  lemma LowerCode(v: int)
    requires 26 <= v < 52
    ensures Letter(v) as int == 97 + v - 26
  {
    assert CHARS[v] == LOWER[v - 26];
  }

  lemma RestCode(v: int)
    requires 52 <= v < 64
    ensures Letter(v) as int == if v < 62 then 48 + v - 52 else if v == 62 then 43 else 47
  {
    assert CHARS[v] == REST[v - 52];
  }

  lemma LettersAreBase64(v: int)
    requires 0 <= v < 64
    ensures IsBase64(Letter(v))
  {
    LetterCode(v);
    hide Letter;
  }

  lemma {:induction false} FindLetter(v: int, i: nat)
    requires 0 <= v < 64 && i <= v
    ensures FindFrom(CHARS, Letter(v), i) == v
    decreases v - i
  {
    if i < v {
      LetterCode(v);
      LetterCode(i);
      FindLetter(v, i + 1);
    }
  }

  lemma SextetOfLetter(v: int)
    requires 0 <= v < 64
    ensures Sextet(Letter(v)) == v
  {
    FindLetter(v, 0);
  }

  // ----- the round trip

  lemma GroupRoundTrip(a: Octet, b: Octet, c: Octet)
    ensures var s := EncodeGroup(a, b, c);
            DecodeGroup(Sextet(s[0]), Sextet(s[1]), Sextet(s[2]), Sextet(s[3])) == [a, b, c]
    ensures forall k :: 0 <= k < 4 ==> IsBase64(EncodeGroup(a, b, c)[k])
  {
    var v0, v1, v2, v3 := a / 4, a % 4 * 16 + b / 16, b % 16 * 4 + c / 64, c % 64;
    SextetOfLetter(v0);
    SextetOfLetter(v1);
    SextetOfLetter(v2);
    SextetOfLetter(v3);
    LettersAreBase64(v0);
    LettersAreBase64(v1);
    LettersAreBase64(v2);
    LettersAreBase64(v3);
    hide Sextet, Letter, IsBase64;
    Regroup(a, b, c);
  }

  lemma FirstByte(a: Octet, s: int, v: int)
    requires 0 <= s < 16 && v == a % 4 * 16 + s
    ensures (a / 4 * 4 + v / 16 % 4) % 256 == a
  {
    Split(a % 4, s, 16);
  }

  lemma SecondByte(b: Octet, r: int, s: int, v: int, w: int)
    requires 0 <= r < 4 && 0 <= s < 4 && v == r * 16 + b / 16 && w == b % 16 * 4 + s
    ensures v % 16 * 16 + w / 4 % 16 == b
  {
    Split(r, b / 16, 16);
    Split(b % 16, s, 4);
  }

  lemma ThirdByte(c: Octet, s: int, w: int)
    requires 0 <= s < 16 && w == s * 4 + c / 64
    ensures (w % 4 * 64 + c % 64) % 256 == c
  {
    Split(s, c / 64, 4);
  }

  lemma Regroup(a: Octet, b: Octet, c: Octet)
    ensures DecodeGroup(a / 4, a % 4 * 16 + b / 16, b % 16 * 4 + c / 64, c % 64) == [a, b, c]
  {
    var v, w := a % 4 * 16 + b / 16, b % 16 * 4 + c / 64;
    FirstByte(a, b / 16, v);
    SecondByte(b, a % 4, c / 64, v, w);
    ThirdByte(c, b % 16, w);
  }

  lemma Split(high: int, low: int, d: int)
    requires d in {4, 16} && 0 <= low < d
    ensures (high * d + low) / d == high && (high * d + low) % d == low
  {
  }

  lemma EncodeStep(bytes: seq<Octet>)
    requires |bytes| % 3 == 0 && bytes != []
    ensures var n := |bytes|;
            EncodeFull(bytes) == EncodeFull(bytes[..n - 3]) + EncodeGroup(bytes[n - 3], bytes[n - 2], bytes[n - 1])
    ensures |EncodeFull(bytes)| % 4 == |EncodeFull(bytes[..|bytes| - 3])| % 4 == 0
  {
    hide EncodeGroup;
    TimesFour(|bytes| / 3);
    TimesFour(|bytes[..|bytes| - 3]| / 3);
  }

  lemma TimesFour(k: nat)
    ensures k * 4 % 4 == 0
  {
  }

  lemma {:induction false} FullRoundTrip(bytes: seq<Octet>)
    requires |bytes| % 3 == 0
    ensures |EncodeFull(bytes)| % 4 == 0 && DecodeFull(EncodeFull(bytes)) == bytes
    ensures forall k :: 0 <= k < |EncodeFull(bytes)| ==> IsBase64(EncodeFull(bytes)[k])
  {
    hide IsBase64, Sextet, DecodeGroup, EncodeGroup, DecodeFull, EncodeFull;
    if bytes == [] {
      EmptyIsEmpty();
    } else {
      var n := |bytes|;
      var a, b, c := bytes[n - 3], bytes[n - 2], bytes[n - 1];
      var front, group := EncodeFull(bytes[..n - 3]), EncodeGroup(a, b, c);
      FullRoundTrip(bytes[..n - 3]);
      GroupRoundTrip(a, b, c);
      EncodeStep(bytes);
      var s := front + group;
      FullGroup(s, |s|);
      assert s[..|front|] == front && s[..|s|] == s;
      assert bytes == bytes[..n - 3] + [a, b, c];
    }
  }

  /** The characters of an incomplete group, without its padding. */
  function TailLetters(bytes: seq<Octet>): string
    requires |bytes| < 3
  {
    if |bytes| == 0 then "" else EncodeTail(bytes)[..|bytes| + 1]
  }

  lemma TailRoundTrip(bytes: seq<Octet>)
    requires |bytes| < 3
    ensures |TailLetters(bytes)| == (if bytes == [] then 0 else |bytes| + 1) && DecodeTail(TailLetters(bytes)) == bytes
    ensures forall k :: 0 <= k < |TailLetters(bytes)| ==> IsBase64(TailLetters(bytes)[k])
    ensures TailLetters(bytes) <= EncodeTail(bytes)
    ensures |TailLetters(bytes)| < |EncodeTail(bytes)| ==> EncodeTail(bytes)[|TailLetters(bytes)|] == '='
  {
    hide IsBase64, Sextet, DecodeGroup, EncodeGroup, DecodeTail;
    EmptyIsEmpty();
    if bytes != [] {
      var b := if |bytes| == 2 then bytes[1] else 0;
      var full := EncodeGroup(bytes[0], b, 0);
      GroupRoundTrip(bytes[0], b, 0);
      assert TailLetters(bytes) == full[..|bytes| + 1];
      TailIgnoresRest(full, |bytes| + 1);
    }
  }

  /** The bytes that count do not depend on the characters that are missing. */
  lemma TailIgnoresRest(full: string, n: nat)
    requires |full| == 4 && 2 <= n <= 3
    ensures DecodeTail(full[..n]) ==
            DecodeGroup(Sextet(full[0]), Sextet(full[1]), Sextet(full[2]), Sextet(full[3]))[..n - 1]
  {
    hide Sextet;
  }

  /** For every byte string, whatever its length, decoding its encoding gives it back. */
  lemma RoundTrip(bytes: seq<Octet>)
    ensures Decode(Body(Encode(bytes))) == bytes
  {
    hide IsBase64, EncodeFull, EncodeTail, DecodeFull, DecodeTail, TailLetters, Body;
    var n := |bytes| - |bytes| % 3;
    var front, tail := EncodeFull(bytes[..n]), TailLetters(bytes[n..]);
    FullRoundTrip(bytes[..n]);
    TailRoundTrip(bytes[n..]);
    var body := front + tail;
    PaddingIsOutside();
    BodyIs(Encode(bytes), |body|);
    assert Encode(bytes)[..|body|] == body;
    assert |tail| < 4 && |body| - |body| % 4 == |front|;
    assert body[..|front|] == front && body[|front|..] == tail;
    assert bytes == bytes[..n] + bytes[n..];
  }
}
