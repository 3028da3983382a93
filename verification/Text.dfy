/** Splitting text, and numbers written in it. */
module Text {
  import opened Wrappers

  /** Where c first is in s, or the length of s. */
  function Find(s: string, c: char): (i: nat)
    ensures i <= |s|
    ensures i < |s| ==> s[i] == c
    ensures forall j :: 0 <= j < i ==> s[j] != c
  {
    if s == [] || s[0] == c then 0 else 1 + Find(s[1..], c)
  }

  /** Where c last is in s, or the length of s. */
  function FindLast(s: string, c: char): (i: nat)
    ensures i <= |s|
    ensures i < |s| ==> s[i] == c && c !in s[i + 1..]
    ensures i == |s| <==> c !in s
  {
    if s == [] then 0
    else if s[|s| - 1] == c then |s| - 1
    else
      var i := FindLast(s[..|s| - 1], c);
      if i == |s| - 1 then |s| else i
  }

  lemma {:induction false} FindLastIs(s: string, i: nat, c: char)
    requires i < |s| && s[i] == c && c !in s[i + 1..]
    ensures FindLast(s, c) == i
    decreases |s|
  {}

  /** The parts of s between the places where c is. */
  function Split(s: string, c: char): (r: seq<string>)
    ensures r != []
    decreases |s|
  {
    var i := Find(s, c);
    if i == |s| then [s] else [s[..i]] + Split(s[i + 1..], c)
  }

  function Count(s: string, c: char): nat {
    if s == [] then 0 else Count(s[..|s| - 1], c) + if s[|s| - 1] == c then 1 else 0
  }

  lemma {:induction false} CountSplit(s: string, t: string, c: char)
    ensures Count(s + t, c) == Count(s, c) + Count(t, c)
    decreases |t|
  {
    if t == [] {
      assert s + t == s;
    } else {
      CountSplit(s, t[..|t| - 1], c);
      assert (s + t)[..|s + t| - 1] == s + t[..|t| - 1];
    }
  }

  lemma {:induction false} CountZero(s: string, c: char)
    ensures Count(s, c) == 0 <==> c !in s
  {
    if s != [] {
      CountZero(s[..|s| - 1], c);
      assert s == s[..|s| - 1] + [s[|s| - 1]];
    }
  }

  /** Text up to its first separator and past it. */
  lemma {:induction false} SplitStep(s: string, i: nat, c: char)
    requires i < |s| && s[i] == c && c !in s[..i]
    ensures Split(s, c) == [s[..i]] + Split(s[i + 1..], c)
  {}

  lemma {:induction false} SplitLast(s: string, c: char)
    requires c !in s
    ensures Split(s, c) == [s]
  {}

  // ---- Decimal numbers ----

  predicate Digit(c: char) {
    '0' <= c <= '9'
  }

  predicate AllDigits(s: string) {
    forall i :: 0 <= i < |s| ==> Digit(s[i])
  }

  function Value(s: string): nat
    requires AllDigits(s)
  {
    if s == [] then 0 else 10 * Value(s[..|s| - 1]) + (s[|s| - 1] as int - '0' as int)
  }

  function Decimal(n: nat): (s: string)
    ensures s != [] && AllDigits(s)
  {
    (if n < 10 then [] else Decimal(n / 10)) + ['0' + (n % 10) as char]
  }

  lemma {:induction false} ValueOfDecimal(n: nat)
    ensures Value(Decimal(n)) == n
  {
    var s := Decimal(n);
    var init := if n < 10 then [] else Decimal(n / 10);
    assert s[..|s| - 1] == init;
    if n >= 10 {
      ValueOfDecimal(n / 10);
    }
  }

  // ---- Ports ----

  const MAX_PORT: nat := 65535
  const ULONG_RANGE: nat := 0x1_0000_0000_0000_0000

  predicate Space(c: char) {
    c == ' ' || '\t' <= c <= '\r'
  }

  /** s without its leading white space. */
  function Unspaced(s: string): string {
    if s != [] && Space(s[0]) then Unspaced(s[1..]) else s
  }

  function Unsigned(s: string): string {
    if s != [] && (s[0] == '+' || s[0] == '-') then s[1..] else s
  }

  predicate Negative(s: string) {
    s != [] && s[0] == '-'
  }

  /** Whether all of s is a number to the C library. */
  predicate Numeric(s: string) {
    Unsigned(Unspaced(s)) != [] && AllDigits(Unsigned(Unspaced(s)))
  }

  function Magnitude(s: string): nat
    requires Numeric(s)
  {
    Value(Unsigned(Unspaced(s)))
  }

  /** The port s stands for when it is read with strtol. */
  function SignedPort(s: string): Option<nat> {
    if Numeric(s) && !Negative(Unspaced(s)) && 1 <= Magnitude(s) <= MAX_PORT then Some(Magnitude(s)) else None
  }

  /** The port s stands for when it is read with strtoul, which negates a number below 2^64 that has a minus sign. */
  function UnsignedPort(s: string): Option<nat> {
    if !Numeric(s) || Magnitude(s) >= ULONG_RANGE then None
    else
      var v := if Negative(Unspaced(s)) then (ULONG_RANGE - Magnitude(s)) % ULONG_RANGE else Magnitude(s);
      if 1 <= v <= MAX_PORT then Some(v) else None
  }

  /** The two readings differ exactly on negative numbers within 65535 of -2^64. */
  lemma {:induction false} ReadingsDiffer(s: string)
    ensures SignedPort(s) != UnsignedPort(s) <==>
      Numeric(s) && Negative(Unspaced(s)) && ULONG_RANGE - MAX_PORT <= Magnitude(s) < ULONG_RANGE
  {}

  lemma {:induction false} PortOfDecimal(n: nat)
    requires 1 <= n <= MAX_PORT
    ensures SignedPort(Decimal(n)) == UnsignedPort(Decimal(n)) == Some(n)
    ensures Decimal(n)[0] != '*'
  {
    var s := Decimal(n);
    assert Digit(s[0]);
    assert Unspaced(s) == s && Unsigned(s) == s;
    ValueOfDecimal(n);
  }

  /** Inputs of which they differ: the negatives of 2^64 - 65535 to 2^64 - 1, such as -18446744073709551615 for 1. */
  lemma {:induction false} NegativeIsAPort(n: nat)
    requires 1 <= n <= MAX_PORT
    ensures UnsignedPort("-" + Decimal(ULONG_RANGE - n)) == Some(n)
    ensures SignedPort("-" + Decimal(ULONG_RANGE - n)) == None
  {
    var digits := Decimal(ULONG_RANGE - n);
    var s := "-" + digits;
    ValueOfDecimal(ULONG_RANGE - n);
    hide Decimal, Value;
    assert s[1..] == digits && Unspaced(s) == s && Unsigned(s) == digits;
  }

  /** The white space of the C library: space, tab, newline, vertical tab, form feed and carriage return. */
  lemma {:induction false} SpaceExactly(c: char)
    ensures Space(c) <==> c as int in {9, 10, 11, 12, 13, 32}
  {}

  /** White space in front of a port is skipped by both readings, and anything but a number is none. */
  lemma {:induction false} SpacedPort(lead: string, n: nat)
    requires 1 <= n <= MAX_PORT && forall i :: 0 <= i < |lead| ==> lead[i] as int in {9, 10, 11, 12, 13, 32}
    ensures SignedPort(lead + Decimal(n)) == UnsignedPort(lead + Decimal(n)) == Some(n)
  {
    PortOfDecimal(n);
    forall i | 0 <= i < |lead| ensures Space(lead[i]) {
      SpaceExactly(lead[i]);
    }
    UnspacedSkips(lead, Decimal(n));
    hide Decimal, Unspaced;
  }

  lemma {:induction false} UnspacedSkips(lead: string, rest: string)
    requires forall i :: 0 <= i < |lead| ==> Space(lead[i])
    ensures Unspaced(lead + rest) == Unspaced(rest)
  {
    if lead != "" {
      UnspacedSkips(lead[1..], rest);
      assert (lead + rest)[1..] == lead[1..] + rest;
    } else {
      assert lead + rest == rest;
    }
  }
}
