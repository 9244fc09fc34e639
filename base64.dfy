/** `btoa` and `atob` as the cursor codec uses them: the base64 alphabet and
    padding of section 4 of RFC 4648 over a "binary string" (every character
    below U+0100), and the forgiving decoder browsers and workers implement,
    which drops ASCII whitespace, accepts missing padding and ignores the
    unused low bits of the last digit. */
module Base64 {
  import opened Common

  type Byte = b: int | 0 <= b < 256

  type Sextet = d: int | 0 <= d < 64

  /** A character `btoa` accepts: one that fits in a byte. */
  predicate IsBinaryChar(c: char) {
    c as int < 256
  }

  predicate IsBinaryString(s: string) {
    forall i :: 0 <= i < |s| ==> IsBinaryChar(s[i])
  }

  function ToBytes(s: string): (b: seq<Byte>)
    requires IsBinaryString(s)
    ensures |b| == |s| && forall i :: 0 <= i < |s| ==> b[i] == s[i] as int
  {
    seq(|s|, i requires 0 <= i < |s| => s[i] as int)
  }

  function FromBytes(b: seq<Byte>): (s: string)
    ensures |s| == |b| && IsBinaryString(s)
    ensures forall i :: 0 <= i < |b| ==> s[i] as int == b[i]
  {
    seq(|b|, i requires 0 <= i < |b| => b[i] as char)
  }

  /** A character of the alphabet of Table 1. */
  predicate IsDigit(c: char) {
    ('A' <= c <= 'Z') || ('a' <= c <= 'z') || ('0' <= c <= '9') || c == '+' || c == '/'
  }

  /** The value Table 1 gives a digit character. */
  function ValueOf(c: char): Sextet
    requires IsDigit(c)
  {
    if 'A' <= c <= 'Z' then c as int - 'A' as int
    else if 'a' <= c <= 'z' then c as int - 'a' as int + 26
    else if '0' <= c <= '9' then c as int - '0' as int + 52
    else if c == '+' then 62
    else 63
  }

  /** The character Table 1 gives a 6-bit value; `ValueOf` inverts it. */
  function Digit(d: Sextet): (c: char)
    ensures IsDigit(c) && ValueOf(c) == d
  {
    if d < 26 then ('A' as int + d) as char
    else if d < 52 then ('a' as int + d - 26) as char
    else if d < 62 then ('0' as int + d - 52) as char
    else if d == 62 then '+'
    else '/'
  }

  predicate AllDigits(s: string) {
    forall i :: 0 <= i < |s| ==> IsDigit(s[i])
  }

  /** The digits of `b` without padding: four per full 3-byte group, then
      two or three for a final group of one or two bytes. */
  function Unpadded(b: seq<Byte>): (s: string)
    ensures AllDigits(s)
    ensures |s| == 4 * Groups(|b|) + TailLength(|b|)
    decreases |b|
  {
    if |b| == 0 then ""
    else if |b| == 1 then Tail1(b[0])
    else if |b| == 2 then Tail2(b[0], b[1])
    else
      var g, r := Group(b[0], b[1], b[2]), Unpadded(b[3..]);
      AllDigitsConcat(g, r);
      GroupsStep(|b|);
      g + r
  }

  /** How many full 3-byte groups `n` bytes hold. */
  function Groups(n: nat): nat {
    if n < 3 then 0 else 1 + Groups(n - 3)
  }

  /** How many digits the final partial group of `n` bytes takes. */
  function TailLength(n: nat): nat {
    if n % 3 == 0 then 0 else n % 3 + 1
  }

  lemma GroupsStep(n: nat)
    requires n >= 3
    ensures Groups(n) == 1 + Groups(n - 3) && TailLength(n) == TailLength(n - 3)
  {
    assert (n - 3) % 3 == n % 3;
  }

  lemma AllDigitsConcat(a: string, b: string)
    requires AllDigits(a) && AllDigits(b)
    ensures AllDigits(a + b)
  {
    forall i | 0 <= i < |a + b| ensures IsDigit((a + b)[i]) {
      if i < |a| {
        assert (a + b)[i] == a[i];
      } else {
        assert (a + b)[i] == b[i - |a|];
      }
    }
  }

  /** Four digits for three bytes: 24 bits read six at a time. */
  function Group(b0: Byte, b1: Byte, b2: Byte): (s: string)
    ensures |s| == 4 && AllDigits(s)
  {
    [Digit(b0 / 4), Digit(b0 % 4 * 16 + b1 / 16), Digit(b1 % 16 * 4 + b2 / 64), Digit(b2 % 64)]
  }

  /** Two digits for a final single byte, the unused bits zero. */
  function Tail1(b0: Byte): (s: string)
    ensures |s| == 2 && AllDigits(s)
  {
    [Digit(b0 / 4), Digit(b0 % 4 * 16)]
  }

  /** Three digits for a final pair of bytes, the unused bits zero. */
  function Tail2(b0: Byte, b1: Byte): (s: string)
    ensures |s| == 3 && AllDigits(s)
  {
    [Digit(b0 / 4), Digit(b0 % 4 * 16 + b1 / 16), Digit(b1 % 16 * 4)]
  }

  /** `=` characters that bring the output to a multiple of four. */
  function Padding(n: nat): string {
    if n % 3 == 1 then "==" else if n % 3 == 2 then "=" else ""
  }

  /** RFC 4648 section 4 encoding with padding. */
  function Encode(b: seq<Byte>): string {
    Unpadded(b) + Padding(|b|)
  }

  /** `btoa(s)` for a binary string. */
  function Btoa(s: string): (r: string)
    requires IsBinaryString(s)
    ensures |r| % 4 == 0
  {
    EncodeLength(ToBytes(s));
    Encode(ToBytes(s))
  }

  /** The unpadded digits leave 0, 2 or 3 over a multiple of four. */
  lemma UnpaddedMod(b: seq<Byte>)
    ensures |Unpadded(b)| % 4 == TailLength(|b|) && TailLength(|b|) != 1
  {
    Mod4(Groups(|b|), TailLength(|b|));
  }

  lemma Mod4(k: nat, t: nat)
    requires t < 4
    ensures (4 * k + t) % 4 == t
  {
  }

  lemma EncodeLength(b: seq<Byte>)
    ensures |Encode(b)| % 4 == 0
  {
    var k, t := Groups(|b|), TailLength(|b|);
    assert |Unpadded(b)| == 4 * k + t;
    assert |Padding(|b|)| == (if t == 0 then 0 else 4 - t);
    assert |Encode(b)| == 4 * k + (if t == 0 then 0 else 4);
  }

  /** ASCII whitespace, which the forgiving decoder removes first. */
  predicate IsAsciiWhitespace(c: char) {
    c == '\t' || c == '\n' || c == '\U{000C}' || c == '\r' || c == ' '
  }

  function StripWhitespace(s: string): (r: string)
    ensures forall i :: 0 <= i < |r| ==> !IsAsciiWhitespace(r[i])
  {
    if s == [] then []
    else if IsAsciiWhitespace(s[0]) then StripWhitespace(s[1..])
    else [s[0]] + StripWhitespace(s[1..])
  }

  /** When the length is a multiple of four, one or two trailing `=` are dropped. */
  function StripPadding(s: string): (r: string)
    ensures r <= s && |s| - 2 <= |r|
    ensures forall k :: |r| <= k < |s| ==> s[k] == '='
  {
    if |s| % 4 == 0 && |s| >= 2 && s[|s| - 2..] == "==" then s[..|s| - 2]
    else if |s| % 4 == 0 && |s| >= 1 && s[|s| - 1] == '=' then s[..|s| - 1]
    else s
  }

  /** Decodes a digit string whose length is not 1 modulo 4. */
  function DecodeDigits(s: string): seq<Byte>
    requires AllDigits(s) && |s| % 4 != 1
  {
    if |s| == 0 then []
    else if |s| == 2 then [Byte1(ValueOf(s[0]), ValueOf(s[1]))]
    else if |s| == 3 then [Byte1(ValueOf(s[0]), ValueOf(s[1])), Byte2(ValueOf(s[1]), ValueOf(s[2]))]
    else
      var head := [Byte1(ValueOf(s[0]), ValueOf(s[1])), Byte2(ValueOf(s[1]), ValueOf(s[2])), Byte3(ValueOf(s[2]), ValueOf(s[3]))];
      DigitsRest(s);
      head + DecodeDigits(s[4..])
  }

  /** What follows a full group of digits is again a digit string of an acceptable length. */
  lemma DigitsRest(s: string)
    requires AllDigits(s) && |s| % 4 != 1 && |s| >= 4
    ensures AllDigits(s[4..]) && |s[4..]| % 4 != 1
  {
    assert |s[4..]| % 4 == |s| % 4;
    forall i | 0 <= i < |s| - 4 ensures IsDigit(s[4..][i]) {
      assert s[4..][i] == s[i + 4];
    }
  }

  /** The first byte of a group: six bits of the first digit, two of the second. */
  function Byte1(d0: Sextet, d1: Sextet): Byte { d0 * 4 + d1 / 16 }

  /** The second byte: four bits of the second digit, four of the third. */
  function Byte2(d1: Sextet, d2: Sextet): Byte { d1 % 16 * 16 + d2 / 4 }

  /** The third byte: two bits of the third digit, six of the fourth. */
  function Byte3(d2: Sextet, d3: Sextet): Byte { d2 % 4 * 64 + d3 }

  /** The bit arithmetic of one group read back. */
  lemma BitsRoundTrip(b0: Byte, b1: Byte, b2: Byte)
    ensures Byte1(b0 / 4, b0 % 4 * 16 + b1 / 16) == b0
    ensures Byte2(b0 % 4 * 16 + b1 / 16, b1 % 16 * 4 + b2 / 64) == b1
    ensures Byte3(b1 % 16 * 4 + b2 / 64, b2 % 64) == b2
    ensures Byte1(b0 / 4, b0 % 4 * 16) == b0
    ensures Byte2(b0 % 4 * 16 + b1 / 16, b1 % 16 * 4) == b1
  {
    var q0, r0 := b0 / 4, b0 % 4;
    var q1, r1 := b1 / 16, b1 % 16;
    var q2, r2 := b2 / 64, b2 % 64;
    assert (r0 * 16 + q1) / 16 == r0 && (r0 * 16 + q1) % 16 == q1;
    assert (r1 * 4 + q2) / 4 == r1 && (r1 * 4 + q2) % 4 == q2;
    assert (r0 * 16) / 16 == r0;
    assert (r1 * 4) / 4 == r1;
  }

  /** `atob(s)`: fails (throws) when the cleaned input leaves a single digit
      over or holds a character outside the alphabet; otherwise the binary string. */
  function Atob(s: string): (r: Option<string>)
    ensures r.Some? ==> IsBinaryString(r.value)
  {
    var t := StripPadding(StripWhitespace(s));
    if |t| % 4 == 1 || !AllDigits(t) then None
    else Some(FromBytes(DecodeDigits(t)))
  }

  lemma {:induction false} StripWhitespaceNone(s: string)
    requires forall i :: 0 <= i < |s| ==> !IsAsciiWhitespace(s[i])
    ensures StripWhitespace(s) == s
  {
    if s != [] {
      StripWhitespaceNone(s[1..]);
    }
  }

  /** One full group decodes to its three bytes, and decoding goes on after it. */
  lemma DecodeGroup(b0: Byte, b1: Byte, b2: Byte, rest: string)
    requires AllDigits(rest) && |rest| % 4 != 1
    ensures DecodeDigits(Group(b0, b1, b2) + rest) == [b0, b1, b2] + DecodeDigits(rest)
  {
    var g := Group(b0, b1, b2);
    var s := g + rest;
    var d0, d1, d2, d3 := b0 / 4, b0 % 4 * 16 + b1 / 16, b1 % 16 * 4 + b2 / 64, b2 % 64;
    assert s[0] == Digit(d0) && s[1] == Digit(d1) && s[2] == Digit(d2) && s[3] == Digit(d3);
    assert ValueOf(s[0]) == d0 && ValueOf(s[1]) == d1 && ValueOf(s[2]) == d2 && ValueOf(s[3]) == d3;
    assert s[4..] == rest;
    BitsRoundTrip(b0, b1, b2);
    assert |s| >= 4;
  }

  /** A final single byte decodes from its two digits. */
  lemma DecodeTail1(b0: Byte)
    ensures DecodeDigits(Tail1(b0)) == [b0]
  {
    var s := Tail1(b0);
    assert ValueOf(s[0]) == b0 / 4 && ValueOf(s[1]) == b0 % 4 * 16;
    BitsRoundTrip(b0, 0, 0);
  }

  /** A final pair of bytes decodes from its three digits. */
  lemma DecodeTail2(b0: Byte, b1: Byte)
    ensures DecodeDigits(Tail2(b0, b1)) == [b0, b1]
  {
    var s := Tail2(b0, b1);
    assert ValueOf(s[0]) == b0 / 4 && ValueOf(s[1]) == b0 % 4 * 16 + b1 / 16;
    assert ValueOf(s[2]) == b1 % 16 * 4;
    BitsRoundTrip(b0, b1, 0);
  }

  /** Decoding the unpadded digits gives back the bytes. */
  lemma {:induction false} DecodeUnpadded(b: seq<Byte>)
    ensures |Unpadded(b)| % 4 != 1
    ensures DecodeDigits(Unpadded(b)) == b
    decreases |b|
  {
    UnpaddedMod(b);
    if |b| == 1 {
      DecodeTail1(b[0]);
    } else if |b| == 2 {
      DecodeTail2(b[0], b[1]);
    } else if |b| >= 3 {
      var rest := Unpadded(b[3..]);
      assert Unpadded(b) == Group(b[0], b[1], b[2]) + rest;
      DecodeUnpadded(b[3..]);
      UnpaddedMod(b[3..]);
      DecodeGroup(b[0], b[1], b[2], rest);
      SplitGroup(b);
    }
  }

  lemma SplitGroup(b: seq<Byte>)
    requires |b| >= 3
    ensures b == [b[0], b[1], b[2]] + b[3..]
  {
    assert b[..3] == [b[0], b[1], b[2]];
    assert b == b[..3] + b[3..];
  }

  /** The encoding holds no whitespace: only digits and `=`. */
  lemma EncodeNoWhitespace(b: seq<Byte>)
    ensures StripWhitespace(Encode(b)) == Encode(b)
  {
    var u, p := Unpadded(b), Padding(|b|);
    forall i | 0 <= i < |u + p| ensures !IsAsciiWhitespace((u + p)[i]) {
      if i < |u| {
        assert (u + p)[i] == u[i] && IsDigit(u[i]);
      } else {
        assert (u + p)[i] == p[i - |u|] == '=';
      }
    }
    StripWhitespaceNone(u + p);
  }

  /** Stripping the padding leaves the digits. */
  lemma EncodeStripPadding(b: seq<Byte>)
    ensures StripPadding(Encode(b)) == Unpadded(b)
  {
    UnpaddedMod(b);
    StripPaddingOf(Unpadded(b), Padding(|b|));
  }

  /** Digits followed by the padding their length calls for lose exactly that padding. */
  lemma StripPaddingOf(u: string, p: string)
    requires AllDigits(u)
    requires (|u| % 4 == 0 && p == "") || (|u| % 4 == 2 && p == "==") || (|u| % 4 == 3 && p == "=")
    ensures StripPadding(u + p) == u
  {
    var e := u + p;
    if p == "==" {
      assert e[|e| - 2..] == "==";
      assert e[..|e| - 2] == u;
    } else if p == "=" {
      assert e[|e| - 2] == u[|u| - 1];
      assert e[|e| - 1] == '=';
      assert e[..|e| - 1] == u;
    } else {
      assert e == u;
      assert |e| >= 1 ==> IsDigit(e[|e| - 1]);
    }
  }

  /** Round trip of the codec: `atob(btoa(s)) == s` for every binary string. */
  lemma AtobBtoa(s: string)
    requires IsBinaryString(s)
    ensures Atob(Btoa(s)) == Some(s)
  {
    var b := ToBytes(s);
    EncodeNoWhitespace(b);
    EncodeStripPadding(b);
    DecodeUnpadded(b);
    assert FromBytes(b) == s;
  }

  /** A character that is neither whitespace, `=`, nor a digit makes `atob` fail. */
  lemma {:induction false} AtobRejectsForeign(s: string, i: nat)
    requires i < |s| && !IsAsciiWhitespace(s[i]) && !IsDigit(s[i]) && s[i] != '='
    ensures Atob(s) == None
  {
    var w := StripWhitespace(s);
    var j := StripWhitespaceKeeps(s, i);
    var t := StripPadding(w);
    assert j < |t|;
    assert t[j] == w[j];
    assert !AllDigits(t);
  }

  /** A character that is not whitespace survives the stripping, at some position. */
  lemma {:induction false} StripWhitespaceKeeps(s: string, i: nat) returns (j: nat)
    requires i < |s| && !IsAsciiWhitespace(s[i])
    ensures j < |StripWhitespace(s)| && StripWhitespace(s)[j] == s[i]
  {
    if i == 0 {
      j := 0;
    } else {
      var k := StripWhitespaceKeeps(s[1..], i - 1);
      j := if IsAsciiWhitespace(s[0]) then k else k + 1;
    }
  }
}
