/**
 Base64 (section 4 of RFC 4648), from octets to text and back. An octet is a char below 256, as strings of
 either are kept in the same buffers.
 */
module Base64 {
  import opened Wrappers

  const PAD: char := '='

  predicate Octets(s: string) {
    forall i :: 0 <= i < |s| ==> s[i] as int < 256
  }

  function Letter(v: nat): char
    requires v < 64
  {
    if v < 26 then ('A' as int + v) as char
    else if v < 52 then ('a' as int + v - 26) as char
    else if v < 62 then ('0' as int + v - 52) as char
    else if v == 62 then '+' else '/'
  }

  function ValueOf(c: char): (v: Option<nat>)
    ensures v.Some? ==> v.value < 64
  {
    if 'A' <= c <= 'Z' then Some(c as int - 'A' as int)
    else if 'a' <= c <= 'z' then Some(c as int - 'a' as int + 26)
    else if '0' <= c <= '9' then Some(c as int - '0' as int + 52)
    else if c == '+' then Some(62) else if c == '/' then Some(63) else None
  }

  lemma {:induction false} LettersHaveValues(v: nat)
    requires v < 64
    ensures ValueOf(Letter(v)) == Some(v) && Letter(v) != PAD
  {}

  /** The four letters of three octets. */
  function Group(a: nat, b: nat, c: nat): (r: string)
    requires a < 256 && b < 256 && c < 256
    ensures |r| == 4
  {
    [Letter(a / 4), Letter(a % 4 * 16 + b / 16), Letter(b % 16 * 4 + c / 64), Letter(c % 64)]
  }

  function Encode(s: string): (r: string)
    requires Octets(s)
    ensures |r| == (|s| + 2) / 3 * 4
  {
    if |s| == 0 then ""
    else if |s| == 1 then Group(s[0] as int, 0, 0)[..2] + [PAD, PAD]
    else if |s| == 2 then Group(s[0] as int, s[1] as int, 0)[..3] + [PAD]
    else Group(s[0] as int, s[1] as int, s[2] as int) + Encode(s[3..])
  }

  /** The octets of four letters of values p to s. */
  function Ungroup(p: nat, q: nat, r: nat, s: nat): (t: string)
    requires p < 64 && q < 64 && r < 64 && s < 64
    ensures |t| == 3 && Octets(t)
  {
    [(p * 4 + q / 16) as char, (q % 16 * 16 + r / 4) as char, (r % 4 * 64 + s) as char]
  }

  /** Decodes text that is padded, and ends, as the standard wants it to. */
  function Decode(s: string): (r: Option<string>)
    ensures r.Some? ==> Octets(r.value)
  {
    if s == "" then Some("")
    else if |s| < 4 then None
    else
      var p, q := ValueOf(s[0]), ValueOf(s[1]);
      var r, t := ValueOf(s[2]), ValueOf(s[3]);
      if p == None || q == None then None
      else if |s| == 4 && s[2] == PAD && s[3] == PAD then
        if q.value % 16 == 0 then Some(Ungroup(p.value, q.value, 0, 0)[..1]) else None
      else if r == None then None
      else if |s| == 4 && s[3] == PAD then
        if r.value % 4 == 0 then Some(Ungroup(p.value, q.value, r.value, 0)[..2]) else None
      else if t == None then None
      else
        var rest := Decode(s[4..]);
        if rest == None then None else Some(Ungroup(p.value, q.value, r.value, t.value) + rest.value)
  }

  lemma {:induction false} GroupInverts(a: nat, b: nat, c: nat)
    requires a < 256 && b < 256 && c < 256
    ensures Ungroup(a / 4, a % 4 * 16 + b / 16, b % 16 * 4 + c / 64, c % 64) == [a as char, b as char, c as char]
  {
    var q, r := a % 4 * 16 + b / 16, b % 16 * 4 + c / 64;
    assert q / 16 == a % 4 && q % 16 == b / 16;
    assert r / 4 == b % 16 && r % 4 == c / 64;
    assert a / 4 * 4 + a % 4 == a && b / 16 * 16 + b % 16 == b && c / 64 * 64 + c % 64 == c;
  }

  lemma {:induction false} DecodesOne(a: nat)
    requires a < 256
    ensures Decode(Encode([a as char])) == Some([a as char])
  {
    GroupInverts(a, 0, 0);
    LettersHaveValues(a / 4);
    LettersHaveValues(a % 4 * 16);
    hide Letter, ValueOf, Ungroup;
    var s := [a as char];
    assert Encode(s) == [Letter(a / 4), Letter(a % 4 * 16), PAD, PAD];
    assert [a as char, 0 as char, 0 as char][..1] == s;
  }

  lemma {:induction false} DecodesTwo(a: nat, b: nat)
    requires a < 256 && b < 256
    ensures Decode(Encode([a as char, b as char])) == Some([a as char, b as char])
  {
    GroupInverts(a, b, 0);
    LettersHaveValues(a / 4);
    LettersHaveValues(a % 4 * 16 + b / 16);
    LettersHaveValues(b % 16 * 4);
    PadHasNoValue();
    hide Letter, ValueOf, Ungroup;
    var s := [a as char, b as char];
    assert Encode(s) == [Letter(a / 4), Letter(a % 4 * 16 + b / 16), Letter(b % 16 * 4), PAD];
    assert [a as char, b as char, 0 as char][..2] == s;
  }

  lemma {:induction false} DecodeLetters(l: string, rest: string, p: nat, q: nat, r: nat, t: nat)
    requires |l| == 4 && p < 64 && q < 64 && r < 64 && t < 64 && l[2] != PAD && l[3] != PAD
    requires ValueOf(l[0]) == Some(p) && ValueOf(l[1]) == Some(q)
    requires ValueOf(l[2]) == Some(r) && ValueOf(l[3]) == Some(t)
    ensures Decode(l + rest) == if Decode(rest) == None then None else Some(Ungroup(p, q, r, t) + Decode(rest).value)
  {}

  lemma {:induction false} DecodesThree(a: nat, b: nat, c: nat, rest: string)
    requires a < 256 && b < 256 && c < 256
    ensures Decode(Group(a, b, c) + rest) ==
      if Decode(rest) == None then None else Some([a as char, b as char, c as char] + Decode(rest).value)
  {
    hide Letter, ValueOf, Ungroup, Decode;
    GroupInverts(a, b, c);
    LettersHaveValues(a / 4);
    LettersHaveValues(a % 4 * 16 + b / 16);
    LettersHaveValues(b % 16 * 4 + c / 64);
    LettersHaveValues(c % 64);
    DecodeLetters(Group(a, b, c), rest, a / 4, a % 4 * 16 + b / 16, b % 16 * 4 + c / 64, c % 64);
  }

  lemma {:induction false} EncodeStep(s: string)
    requires Octets(s) && |s| > 2
    ensures s[0] as int < 256 && s[1] as int < 256 && s[2] as int < 256 && Octets(s[3..])
    ensures Encode(s) == Group(s[0] as int, s[1] as int, s[2] as int) + Encode(s[3..])
  {}

  lemma {:induction false} ThreeAndRest(s: string)
    requires |s| > 2 && s[0] as int < 256 && s[1] as int < 256 && s[2] as int < 256
    ensures [s[0] as int as char, s[1] as int as char, s[2] as int as char] + s[3..] == s
  {}

  lemma {:induction false} DecodesFew(s: string)
    requires Octets(s) && |s| <= 2
    ensures Decode(Encode(s)) == Some(s)
  {
    if s == "" {
      assert Encode(s) == "";
    } else {
      hide Decode, Encode;
      if |s| == 1 {
        DecodesOne(s[0] as int);
        assert s == [s[0] as int as char];
      } else {
        DecodesTwo(s[0] as int, s[1] as int);
        assert s == [s[0] as int as char, s[1] as int as char];
      }
    }
  }

  /** Decoding gives back what was encoded. */
  lemma {:induction false} DecodeInverts(s: string)
    requires Octets(s)
    ensures Decode(Encode(s)) == Some(s)
    decreases |s|
  {
    if |s| <= 2 {
      DecodesFew(s);
    } else {
      EncodeStep(s);
      hide Decode, Group, Encode, Octets;
      DecodeInverts(s[3..]);
      DecodesThree(s[0] as int, s[1] as int, s[2] as int, Encode(s[3..]));
      ThreeAndRest(s);
    }
  }

  lemma {:induction false} PadHasNoValue()
    ensures ValueOf(PAD) == None
  {}

  /** A character that may stand in encoded text. */
  predicate Encoded(c: char) {
    ValueOf(c).Some? || c == PAD
  }

  lemma {:induction false} EncodeIsPlain(s: string)
    requires Octets(s)
    ensures forall i :: 0 <= i < |Encode(s)| ==> Encoded(Encode(s)[i])
    decreases |s|
  {
    if |s| > 0 {
      var a := s[0] as int;
      var b := if |s| > 1 then s[1] as int else 0;
      var c := if |s| > 2 then s[2] as int else 0;
      LettersHaveValues(a / 4);
      LettersHaveValues(a % 4 * 16 + b / 16);
      LettersHaveValues(b % 16 * 4 + c / 64);
      LettersHaveValues(c % 64);
      if |s| > 2 {
        EncodeIsPlain(s[3..]);
      }
    }
  }

  // ---- The alphabet and the padding ----

  /** Table 1 of section 4 of RFC 4648: capitals, small letters, digits, "+" and "/", each in their order. */
  lemma {:induction false} LettersAreInOrder(v: nat)
    requires v < 63
    ensures Letter(0) == 'A' && Letter(25) == 'Z' && Letter(26) == 'a' && Letter(51) == 'z'
    ensures Letter(52) == '0' && Letter(61) == '9' && Letter(62) == '+' && Letter(63) == '/'
    ensures v != 25 && v != 51 && v < 61 ==> Letter(v + 1) as int == Letter(v) as int + 1
  {}

  /** Three octets are one number of 24 bits, written in four digits of base 64, the highest first. */
  lemma {:induction false} GroupIsOneNumber(a: nat, b: nat, c: nat)
    requires a < 256 && b < 256 && c < 256
    ensures var n := a * 65536 + b * 256 + c;
      && n / 262144 < 64
      && Group(a, b, c) == [Letter(n / 262144), Letter(n / 4096 % 64), Letter(n / 64 % 64), Letter(n % 64)]
  {
    HighDigits(a, b * 256 + c);
    LowDigits(a, b, c);
    hide Letter;
  }

  lemma {:induction false} HighestDigit(a: nat, low: nat)
    requires a < 256 && low < 65536
    ensures (a * 65536 + low) / 262144 == a / 4
  {
    var p, q := a / 4, a % 4;
    assert a * 65536 + low == 262144 * p + (65536 * q + low) && 65536 * q + low < 262144;
  }

  lemma {:induction false} DigitAbove(n: nat, high: nat, rest: nat)
    requires n == 4096 * high + rest && rest < 4096
    ensures n / 4096 == high
  {}

  lemma {:induction false} DigitBelow(n: nat, high: nat, digit: nat)
    requires n == 64 * high + digit && digit < 64
    ensures n % 64 == digit
  {}

  lemma {:induction false} HighDigits(a: nat, low: nat)
    requires a < 256 && low < 65536
    ensures (a * 65536 + low) / 262144 == a / 4
    ensures (a * 65536 + low) / 4096 % 64 == a % 4 * 16 + low / 4096
  {
    HighestDigit(a, low);
    var p, q, r, s := a / 4, a % 4, low / 4096, low % 4096;
    assert a == 4 * p + q && q < 4 && low == 4096 * r + s && s < 4096 && r < 16;
    DigitAbove(a * 65536 + low, 64 * p + (16 * q + r), s);
    DigitBelow(64 * p + (16 * q + r), p, 16 * q + r);
  }

  lemma {:induction false} LowDigits(a: nat, b: nat, c: nat)
    requires a < 256 && b < 256 && c < 256
    ensures (b * 256 + c) / 4096 == b / 16
    ensures var n := a * 65536 + (b * 256 + c);
      n / 64 % 64 == b % 16 * 4 + c / 64 && n % 64 == c % 64
  {
    var r, s, t, u := b / 16, b % 16, c / 64, c % 64;
    assert b * 256 + c == 4096 * r + (256 * s + c) && 256 * s + c < 4096;
    var n := a * 65536 + (b * 256 + c);
    assert n == 64 * (1024 * a + 64 * r + 4 * s + t) + u;
    assert n / 64 == 64 * (16 * a + r) + (4 * s + t);
  }

  /** Encoding goes by threes; of one or two octets left the digits that are 0 for want of more are padded. */
  lemma {:induction false} EncodeIsByThrees(s: string)
    requires Octets(s)
    ensures |s| >= 3 ==> Encode(s) == Encode(s[..3]) + Encode(s[3..])
    ensures |s| == 3 ==> Encode(s) == Group(s[0] as int, s[1] as int, s[2] as int)
    ensures |s| == 2 ==> Encode(s) == Group(s[0] as int, s[1] as int, 0)[..3] + "="
    ensures |s| == 1 ==> Encode(s) == Group(s[0] as int, 0, 0)[..2] + "=="
  {
    if |s| >= 3 {
      EncodeStep(s);
      EncodeStep(s[..3]);
      assert s[..3][3..] == "" && Encode("") == "";
      hide Encode, Group;
      assert Group(s[0] as int, s[1] as int, s[2] as int) + "" == Group(s[0] as int, s[1] as int, s[2] as int);
    }
  }
}
