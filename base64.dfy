/** `btoa`: base64 encoding of a string of Latin-1 characters, with the
    alphabet and padding of section 4 of RFC 4648. A character above U+00FF
    makes `btoa` throw, which is `None` here. */
module Base64 {
  import opened Wrappers

  /** The character for a 6-bit group: A-Z, a-z, 0-9, '+', '/'. */
  function Digit(n: nat): (c: char)
    requires n < 64
    ensures DigitValue(c) == Some(n) && c != '='
  {
    if n < 26 then ('A' as int + n) as char
    else if n < 52 then ('a' as int + (n - 26)) as char
    else if n < 62 then ('0' as int + (n - 52)) as char
    else if n == 62 then '+'
    else '/'
  }

  /** The 6-bit group a character of the alphabet stands for. */
  function DigitValue(c: char): Option<nat> {
    if 'A' <= c <= 'Z' then Some(c as int - 'A' as int)
    else if 'a' <= c <= 'z' then Some(c as int - 'a' as int + 26)
    else if '0' <= c <= '9' then Some(c as int - '0' as int + 52)
    else if c == '+' then Some(62)
    else if c == '/' then Some(63)
    else None
  }

  predicate IsAlphabetOrPad(c: char) {
    DigitValue(c).Some? || c == '='
  }

  predicate IsLatin1(s: string) {
    forall i :: 0 <= i < |s| ==> s[i] as int < 256
  }

  /** Encoding of a Latin-1 string, three characters to four digits, the
      last group padded with '='. */
  function Encode(s: string): (r: string)
    requires IsLatin1(s)
    ensures forall i :: 0 <= i < |r| ==> IsAlphabetOrPad(r[i])
    decreases |s|
  {
    if |s| == 0 then ""
    else if |s| == 1 then
      var x := s[0] as int;
      [Digit(x / 4), Digit((x % 4) * 16), '=', '=']
    else if |s| == 2 then
      var x, y := s[0] as int, s[1] as int;
      [Digit(x / 4), Digit((x % 4) * 16 + y / 16), Digit((y % 16) * 4), '=']
    else Group(s[0], s[1], s[2]) + Encode(s[3..])
  }

  /** The four digits of three Latin-1 characters: 24 bits cut into four
      6-bit groups, most significant first. */
  function Group(a: char, b: char, c: char): (r: string)
    requires a as int < 256 && b as int < 256 && c as int < 256
    ensures |r| == 4
    ensures forall i :: 0 <= i < 4 ==> DigitValue(r[i]).Some? && r[i] != '='
  {
    var x, y, z := a as int, b as int, c as int;
    [Digit(x / 4), Digit((x % 4) * 16 + y / 16), Digit((y % 16) * 4 + z / 64), Digit(z % 64)]
  }

  /** Four digits for every three characters, the last group rounded up. */
  lemma {:induction false} EncodeLength(s: string)
    requires IsLatin1(s)
    ensures |Encode(s)| == 4 * ((|s| + 2) / 3)
    decreases |s|
  {
    if |s| > 2 {
      EncodeLength(s[3..]);
      assert (|s| + 2) / 3 == (|s[3..]| + 2) / 3 + 1;
    }
  }

  /** `btoa(s)`: defined exactly on Latin-1 strings. */
  function Btoa(s: string): (r: Option<string>)
    ensures r.Some? <==> IsLatin1(s)
  {
    if IsLatin1(s) then Some(Encode(s)) else None
  }

  /** One group of four digits back to its characters; '=' padding is
      accepted only in the last group. */
  function DecodeGroupOf(a: char, b: char, c: char, d: char, last: bool): Option<string> {
    var d0, d1, d2, d3 := DigitValue(a), DigitValue(b), DigitValue(c), DigitValue(d);
    if d0.None? || d1.None? then None
    else if last && c == '=' && d == '=' then
      Some([(d0.value * 4 + d1.value / 16) as char])
    else if d2.None? then None
    else if last && d == '=' then
      Some([(d0.value * 4 + d1.value / 16) as char, ((d1.value % 16) * 16 + d2.value / 4) as char])
    else if d3.None? then None
    else
      Some([(d0.value * 4 + d1.value / 16) as char,
            ((d1.value % 16) * 16 + d2.value / 4) as char,
            ((d2.value % 4) * 64 + d3.value) as char])
  }

  /** Strict decoding, the inverse the encoding is checked against: only
      groups of four, padding only at the end. */
  function Decode(t: string): Option<string>
    decreases |t|
  {
    if |t| == 0 then Some("")
    else if |t| < 4 then None
    else
      match DecodeGroupOf(t[0], t[1], t[2], t[3], |t| == 4)
      case None => None
      case Some(g) =>
        match Decode(t[4..])
        case None => None
        case Some(rest) => Some(g + rest)
  }

  /** The bit arithmetic of one full group is undone by decoding. */
  lemma GroupArithmetic(x: int, y: int, z: int)
    requires 0 <= x < 256 && 0 <= y < 256 && 0 <= z < 256
    ensures x / 4 * 4 + ((x % 4) * 16 + y / 16) / 16 == x
    ensures (((x % 4) * 16 + y / 16) % 16) * 16 + ((y % 16) * 4 + z / 64) / 4 == y
    ensures (((y % 16) * 4 + z / 64) % 4) * 64 + z % 64 == z
  {
  }

  /** The same for a last group of two characters and of one. */
  lemma TailArithmetic(x: int, y: int)
    requires 0 <= x < 256 && 0 <= y < 256
    ensures x / 4 * 4 + ((x % 4) * 16 + y / 16) / 16 == x
    ensures (((x % 4) * 16 + y / 16) % 16) * 16 + ((y % 16) * 4) / 4 == y
    ensures x / 4 * 4 + ((x % 4) * 16) / 16 == x
  {
  }

  lemma DecodeOne(x: char)
    requires x as int < 256
    ensures Decode(Encode([x])) == Some([x])
  {
    var n := x as int;
    TailArithmetic(n, 0);
    var e := Encode([x]);
    assert e == [Digit(n / 4), Digit((n % 4) * 16), '=', '='];
    assert DecodeGroupOf(e[0], e[1], e[2], e[3], true) == Some([x]);
    assert e[4..] == [] && [x] + "" == [x];
  }

  lemma DecodeTwo(x: char, y: char)
    requires x as int < 256 && y as int < 256
    ensures Decode(Encode([x, y])) == Some([x, y])
  {
    var m, n := x as int, y as int;
    var e := Encode([x, y]);
    assert e == [Digit(m / 4), Digit((m % 4) * 16 + n / 16), Digit((n % 16) * 4), '='];
    DecodeTwoDigits(x, y);
    assert e[4..] == [] && [x, y] + "" == [x, y];
  }

  lemma DecodeTwoDigits(x: char, y: char)
    requires x as int < 256 && y as int < 256
    ensures var m, n := x as int, y as int;
      DecodeGroupOf(Digit(m / 4), Digit((m % 4) * 16 + n / 16), Digit((n % 16) * 4), '=', true) == Some([x, y])
  {
    TailArithmetic(x as int, y as int);
  }

  lemma DecodeGroup(x: char, y: char, z: char, last: bool)
    requires x as int < 256 && y as int < 256 && z as int < 256
    ensures
      var g := Group(x, y, z);
      DecodeGroupOf(g[0], g[1], g[2], g[3], last) == Some([x, y, z])
  {
    GroupArithmetic(x as int, y as int, z as int);
  }

  /** A group of four digits in front of a decodable rest decodes to its
      three characters in front of the decoded rest. */
  lemma DecodeAfterGroup(x: char, y: char, z: char, restEnc: string, restDec: string)
    requires x as int < 256 && y as int < 256 && z as int < 256
    requires Decode(restEnc) == Some(restDec)
    ensures Decode(Group(x, y, z) + restEnc) == Some([x, y, z] + restDec)
  {
    var t := Group(x, y, z) + restEnc;
    DecodeGroup(x, y, z, |t| == 4);
    assert t[4..] == restEnc;
    assert t[..4] == Group(x, y, z);
  }

  /** Decoding the encoding of a Latin-1 string gives the string back. */
  lemma {:induction false} DecodeEncode(s: string)
    requires IsLatin1(s)
    ensures Decode(Encode(s)) == Some(s)
    decreases |s|
  {
    if |s| == 1 {
      DecodeOne(s[0]);
      assert [s[0]] == s;
    } else if |s| == 2 {
      DecodeTwo(s[0], s[1]);
      assert [s[0], s[1]] == s;
    } else if |s| > 2 {
      DecodeEncode(s[3..]);
      DecodeAfterGroup(s[0], s[1], s[2], Encode(s[3..]), s[3..]);
      SplitThree(s);
    }
  }

  lemma SplitThree(s: string)
    requires |s| > 2
    ensures [s[0], s[1], s[2]] + s[3..] == s
  {
  }

  /** What `btoa` produces decodes back to its input, and has four
      characters for every three, rounded up. */
  lemma BtoaDecodes(s: string)
    requires IsLatin1(s)
    ensures Btoa(s).Some?
    ensures Decode(Btoa(s).value) == Some(s)
    ensures |Btoa(s).value| == 4 * ((|s| + 2) / 3)
  {
    DecodeEncode(s);
    EncodeLength(s);
  }
}
