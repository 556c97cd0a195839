/** Bytes and text: UTF-8 as defined in RFC 3629, and a decoder that puts U+FFFD for each longest part that
    cannot be completed, as the Encoding Standard of the WHATWG prescribes. */
module Utf8 {
  import opened Text

  type Octet = n: int | 0 <= n < 256

  type Bytes = seq<Octet>

  const REPLACEMENT: char := '\U{FFFD}'

  function EncodeChar(c: char): (r: Bytes)
    ensures 1 <= |r| <= 4
  {
    var n := c as int;
    if n < 0x80 then [n]
    else if n < 0x800 then [0xc0 + n / 64, 0x80 + n % 64]
    else if n < 0x10000 then [0xe0 + n / 4096, 0x80 + n / 64 % 64, 0x80 + n % 64]
    else [0xf0 + n / 262144, 0x80 + n / 4096 % 64, 0x80 + n / 64 % 64, 0x80 + n % 64]
  }

  function Encode(text: string): Bytes {
    if text == "" then [] else EncodeChar(text[0]) + Encode(text[1..])
  }

  // ---------------------------------------------------------------------------------------------
  // The decoder
  // ---------------------------------------------------------------------------------------------

  predicate IsTail(b: Octet) {
    0x80 <= b < 0xc0
  }

  /** The number of bytes that a first byte announces; zero if it cannot be one. */
  function Announced(b: Octet): nat {
    if b < 0x80 then 1
    else if 0xc2 <= b < 0xe0 then 2
    else if 0xe0 <= b < 0xf0 then 3
    else if 0xf0 <= b < 0xf5 then 4
    else 0
  }

  /** Neither overlong, nor a surrogate, nor beyond U+10FFFF. */
  predicate CanFollow(first: Octet, b: Octet) {
    && IsTail(b)
    && (first == 0xe0 ==> b >= 0xa0)
    && (first == 0xed ==> b < 0xa0)
    && (first == 0xf0 ==> b >= 0x90)
    && (first == 0xf4 ==> b < 0x90)
  }

  /** The length of the longest part at the head that is, or could be completed to, one character. */
  function PartLength(s: Bytes): (n: nat)
    requires s != []
    ensures 1 <= n <= |s|
    ensures Announced(s[0]) > 0 ==> n <= Announced(s[0])
    ensures forall i :: 1 <= i < n ==> IsTail(s[i])
  {
    var size := Announced(s[0]);
    if size < 2 || |s| < 2 || !CanFollow(s[0], s[1]) then 1
    else if size < 3 || |s| < 3 || !IsTail(s[2]) then 2
    else if size < 4 || |s| < 4 || !IsTail(s[3]) then 3
    else 4
  }

  predicate IsWhole(s: Bytes) {
    s != [] && Announced(s[0]) == PartLength(s)
  }

  function CharAt(s: Bytes): char
    requires IsWhole(s)
  {
    var a: int := s[0];
    if Announced(a) == 1 then a as char
    else
      var b: int := s[1] - 0x80;
      if Announced(a) == 2 then (64 * (a - 0xc0) + b) as char
      else
        var c: int := s[2] - 0x80;
        if Announced(a) == 3 then (4096 * (a - 0xe0) + 64 * b + c) as char
        else (262144 * (a - 0xf0) + 4096 * b + 64 * c + (s[3] - 0x80)) as char
  }

  function Decode(s: Bytes): string
    decreases |s|
  {
    if s == [] then ""
    else [if IsWhole(s) then CharAt(s) else REPLACEMENT] + Decode(s[PartLength(s)..])
  }

  // ---------------------------------------------------------------------------------------------
  // Round trip
  // ---------------------------------------------------------------------------------------------

  /** One character, and nothing but continuation bytes after its first one. */
  predicate IsCharacter(e: Bytes, c: char) {
    && IsWhole(e) && PartLength(e) == |e| && CharAt(e) == c
    && !IsTail(e[0]) && forall i :: 1 <= i < |e| ==> IsTail(e[i])
  }

  lemma EncodedIsCharacter(c: char)
    ensures IsCharacter(EncodeChar(c), c)
  {
    var n := c as int;
    if n < 0x80 {
    } else if n < 0x800 {
      TwoBytes(c);
    } else if n < 0x10000 {
      ThreeBytes(c);
    } else {
      FourBytes(c);
    }
  }

  lemma TwoBytes(c: char)
    requires 0x80 <= c as int < 0x800
    ensures IsCharacter(EncodeChar(c), c)
  {
  }

  lemma ThreeBytes(c: char)
    requires 0x800 <= c as int < 0x10000
    ensures IsCharacter(EncodeChar(c), c)
  {
    var n := c as int;
    assert n == 4096 * (n / 4096) + 64 * (n / 64 % 64) + n % 64;
    assert CanFollow(0xe0 + n / 4096, 0x80 + n / 64 % 64);
  }

  lemma FourBytes(c: char)
    requires 0x10000 <= c as int
    ensures IsCharacter(EncodeChar(c), c)
  {
    var n := c as int;
    FourDigits(n);
    assert CanFollow(0xf0 + n / 262144, 0x80 + n / 4096 % 64);
  }

  lemma FourDigits(n: nat)
    ensures n == 262144 * (n / 262144) + 4096 * (n / 4096 % 64) + 64 * (n / 64 % 64) + n % 64
  {
    var b := n / 64;
    var c := b / 64;
    assert n / 4096 == c && n / 262144 == c / 64;
    assert n == 64 * b + n % 64 && b == 64 * c + b % 64 && c == 64 * (c / 64) + c % 64;
  }

  /** Only the shortest form of a character is read as it: what is read as a whole is how it would be written. */
  lemma WholeIsEncoded(s: Bytes)
    requires IsWhole(s)
    ensures EncodeChar(CharAt(s)) == s[..PartLength(s)]
  {
    if PartLength(s) == 1 {
      assert s[..1] == [s[0]];
    } else if PartLength(s) == 2 {
      assert s[..2] == [s[0], s[1]];
    } else if PartLength(s) == 3 {
      assert s[..3] == [s[0], s[1], s[2]];
      ThreeDigitsBack(s[0] - 0xe0, s[1] - 0x80, s[2] - 0x80);
    } else {
      assert s[..4] == [s[0], s[1], s[2], s[3]];
      FourDigitsBack(s[0] - 0xf0, s[1] - 0x80, s[2] - 0x80, s[3] - 0x80);
    }
  }

  lemma ThreeDigitsBack(a: int, b: int, c: int)
    requires 0 <= a && 0 <= b < 64 && 0 <= c < 64
    ensures var n := 4096 * a + 64 * b + c; n / 4096 == a && n / 64 % 64 == b && n % 64 == c
  {
    var n := 4096 * a + 64 * b + c;
    assert n / 64 == 64 * a + b;
    assert n / 4096 == (64 * a + b) / 64;
  }

  lemma FourDigitsBack(a: int, b: int, c: int, d: int)
    requires 0 <= a && 0 <= b < 64 && 0 <= c < 64 && 0 <= d < 64
    ensures var n := 262144 * a + 4096 * b + 64 * c + d;
            n / 262144 == a && n / 4096 % 64 == b && n / 64 % 64 == c && n % 64 == d
  {
    var n := 262144 * a + 4096 * b + 64 * c + d;
    var high := 4096 * a + 64 * b + c;
    ThreeDigitsBack(a, b, c);
    assert n / 64 == high;
    assert n / 4096 == high / 64 && n / 262144 == high / 4096;
    assert high / 64 == 64 * a + b;
  }

  /** What follows a character does not change how it is read. */
  lemma PrefixDecides(e: Bytes, rest: Bytes, c: char)
    requires IsCharacter(e, c)
    ensures PartLength(e + rest) == |e| && IsWhole(e + rest) && CharAt(e + rest) == c
  {
    assert (e + rest)[..|e|] == e;
    assert forall i :: 0 <= i < |e| ==> (e + rest)[i] == e[i];
  }

  lemma DecodeCharThenRest(c: char, rest: Bytes)
    ensures Decode(EncodeChar(c) + rest) == [c] + Decode(rest)
  {
    var e := EncodeChar(c);
    EncodedIsCharacter(c);
    PrefixDecides(e, rest, c);
    assert (e + rest)[|e|..] == rest;
  }

  lemma {:induction false} DecodeOfEncoded(text: string, rest: Bytes)
    ensures Decode(Encode(text) + rest) == text + Decode(rest)
    decreases |text|
  {
    if text == "" {
      assert Encode(text) + rest == rest;
    } else {
      DecodeOfEncoded(text[1..], rest);
      DecodeOneMore(text[0], Encode(text[1..]), rest, text[1..] + Decode(rest));
      assert text == [text[0]] + text[1..];
      Assoc([text[0]], text[1..], Decode(rest));
    }
  }

  lemma DecodeOneMore(c: char, s: Bytes, rest: Bytes, text: string)
    requires Decode(s + rest) == text
    ensures Decode(EncodeChar(c) + s + rest) == [c] + text
  {
    Assoc(EncodeChar(c), s, rest);
    DecodeCharThenRest(c, s + rest);
  }

  lemma Assoc<T>(a: seq<T>, b: seq<T>, c: seq<T>)
    ensures a + b + c == a + (b + c)
  {
  }

  /** Every text comes back from its bytes. */
  lemma Utf8RoundTrip(text: string)
    ensures Decode(Encode(text)) == text
  {
    DecodeOfEncoded(text, []);
    assert Encode(text) + [] == Encode(text);
  }

  /** A character that is cut off is read as one replacement character. */
  lemma CutCharacter(c: char, n: nat)
    requires 0 < n < |EncodeChar(c)|
    ensures Decode(EncodeChar(c)[..n]) == "\U{FFFD}"
  {
    var e := EncodeChar(c);
    EncodedIsCharacter(c);
    assert PartLength(e[..n]) == n;
    assert e[..n][n..] == [] && Decode([]) == "";
  }

  // ---------------------------------------------------------------------------------------------
  // Decoding buffer by buffer
  // ---------------------------------------------------------------------------------------------

  function DecodeEach(buffers: seq<Bytes>): (texts: seq<string>)
    ensures |texts| == |buffers| && forall i :: 0 <= i < |buffers| ==> texts[i] == Decode(buffers[i])
  {
    if buffers == [] then [] else [Decode(buffers[0])] + DecodeEach(buffers[1..])
  }

  predicate StartsInside(buffer: Bytes) {
    buffer != [] && IsTail(buffer[0])
  }

  /** No buffer starts inside a character. */
  predicate CutsAreSafe(buffers: seq<Bytes>) {
    forall i :: 0 <= i < |buffers| ==> !StartsInside(buffers[i])
  }

  /** The number of bytes that are no continuation bytes. */
  function Heads(s: Bytes): nat {
    if s == [] then 0 else (if IsTail(s[0]) then 0 else 1) + Heads(s[1..])
  }

  lemma {:induction false} HeadsOfParts(a: Bytes, b: Bytes)
    ensures Heads(a + b) == Heads(a) + Heads(b)
    decreases |a|
  {
    if a == [] {
      assert a + b == b;
    } else {
      assert (a + b)[1..] == a[1..] + b;
      HeadsOfParts(a[1..], b);
    }
  }

  lemma {:induction false} TailsHaveNoHeads(s: Bytes)
    requires forall i :: 0 <= i < |s| ==> IsTail(s[i])
    ensures Heads(s) == 0
    decreases |s|
  {
    if s != [] { TailsHaveNoHeads(s[1..]); }
  }

  lemma HeadsOfOne(s: Bytes)
    requires s != [] && forall i :: 1 <= i < |s| ==> IsTail(s[i])
    ensures Heads(s) == if IsTail(s[0]) then 0 else 1
  {
    TailsHaveNoHeads(s[1..]);
  }

  lemma {:induction false} HeadsOfEncoded(text: string)
    ensures Heads(Encode(text)) == |text|
    decreases |text|
  {
    if text != "" {
      EncodedIsCharacter(text[0]);
      HeadsOfOne(EncodeChar(text[0]));
      HeadsOfParts(EncodeChar(text[0]), Encode(text[1..]));
      HeadsOfEncoded(text[1..]);
    }
  }

  /** Decoding gives a character for each of them, and one more for bytes that start inside a character. */
  lemma {:induction false} DecodedSize(s: Bytes)
    ensures |Decode(s)| >= Heads(s) + if StartsInside(s) then 1 else 0
    decreases |s|
  {
    if s != [] {
      var n := PartLength(s);
      assert s == s[..n] + s[n..];
      HeadsOfParts(s[..n], s[n..]);
      HeadsOfOne(s[..n]);
      DecodedSize(s[n..]);
    }
  }

  lemma {:induction false} DecodedSizeOfAll(buffers: seq<Bytes>)
    ensures |Concat(DecodeEach(buffers))| >= Heads(Concat(buffers)) + if CutsAreSafe(buffers) then 0 else 1
    decreases |buffers|
  {
    if buffers != [] {
      DecodedSize(buffers[0]);
      DecodedSizeOfAll(buffers[1..]);
      HeadsOfParts(buffers[0], Concat(buffers[1..]));
      assert DecodeEach(buffers)[1..] == DecodeEach(buffers[1..]);
      if !StartsInside(buffers[0]) && CutsAreSafe(buffers[1..]) {
        assert forall i :: 0 < i < |buffers| ==> buffers[i] == buffers[1..][i - 1];
      }
    }
  }

  /** Where a character starts, the bytes fall into those of two texts. */
  lemma {:induction false} CutText(text: string, a: Bytes, b: Bytes) returns (x: string, y: string)
    requires Encode(text) == a + b && !StartsInside(b)
    ensures text == x + y && a == Encode(x) && b == Encode(y)
    decreases |text|
  {
    if a == [] {
      assert a + b == b;
      return "", text;
    }
    var e, rest := EncodeChar(text[0]), Encode(text[1..]);
    EncodedIsCharacter(text[0]);
    if |a| < |e| {
      ShortCutIsInside(e, rest, a, b);
      assert false;
    }
    LongCut(e, rest, a, b);
    x, y := CutText(text[1..], a[|e|..], b);
    OneMoreChar(text[0], x);
    assert text == [text[0]] + text[1..];
    Assoc([text[0]], x, y);
    x := [text[0]] + x;
  }

  lemma ShortCutIsInside(e: Bytes, rest: Bytes, a: Bytes, b: Bytes)
    requires e + rest == a + b && 0 < |a| < |e| && forall i :: 1 <= i < |e| ==> IsTail(e[i])
    ensures StartsInside(b)
  {
    assert b != [] && b[0] == (a + b)[|a|] == (e + rest)[|a|];
  }

  lemma LongCut(e: Bytes, rest: Bytes, a: Bytes, b: Bytes)
    requires e + rest == a + b && |e| <= |a|
    ensures a == e + a[|e|..] && rest == a[|e|..] + b
  {
    assert a[..|e|] == (a + b)[..|e|] == (e + rest)[..|e|];
    assert rest == (e + rest)[|e|..];
  }

  lemma OneMoreChar(c: char, x: string)
    ensures Encode([c] + x) == EncodeChar(c) + Encode(x)
  {
    assert ([c] + x)[0] == c && ([c] + x)[1..] == x;
  }

  lemma {:induction false} SafeRestStartsOutside(buffers: seq<Bytes>)
    requires CutsAreSafe(buffers)
    ensures !StartsInside(Concat(buffers))
    decreases |buffers|
  {
    if buffers != [] {
      assert !StartsInside(buffers[0]);
      SafeRestStartsOutside(buffers[1..]);
      if buffers[0] == [] { assert Concat(buffers) == Concat(buffers[1..]); }
    }
  }

  lemma {:induction false} SafeCutsDecode(text: string, buffers: seq<Bytes>)
    requires Concat(buffers) == Encode(text) && CutsAreSafe(buffers)
    ensures Concat(DecodeEach(buffers)) == text
    decreases |buffers|
  {
    if buffers == [] {
      HeadsOfEncoded(text);
    } else {
      assert CutsAreSafe(buffers[1..]);
      SafeRestStartsOutside(buffers[1..]);
      var x, y := CutText(text, buffers[0], Concat(buffers[1..]));
      Utf8RoundTrip(x);
      SafeCutsDecode(y, buffers[1..]);
      assert DecodeEach(buffers)[1..] == DecodeEach(buffers[1..]);
    }
  }

  /** A text that arrives in buffers, each decoded by itself, is read as it is if and only if no buffer starts
      inside a character. */
  lemma DecodedIffCutsAreSafe(text: string, buffers: seq<Bytes>)
    requires Concat(buffers) == Encode(text)
    ensures Concat(DecodeEach(buffers)) == text <==> CutsAreSafe(buffers)
  {
    if CutsAreSafe(buffers) {
      SafeCutsDecode(text, buffers);
    } else {
      DecodedSizeOfAll(buffers);
      HeadsOfEncoded(text);
    }
  }
}
