/**
 Compact JSON objects whose strings need no escapes (RFC 8259): how they are printed, and a parser for them
 that refuses what would need one.
 */
module Json {
  import opened Wrappers

  datatype Value = Text(text: string) | Object(members: Members)

  datatype Members = End | Member(key: string, value: Value, rest: Members)

  /** A character that JSON takes as it is (section 7), and that is printable. */
  predicate Plain(c: char) {
    32 <= c as int <= 126 && c != '"' && c != '\\'
  }

  predicate AllPlain(s: string) {
    forall i :: 0 <= i < |s| ==> Plain(s[i])
  }

  predicate PlainValue(v: Value) {
    match v
    case Text(text) => AllPlain(text)
    case Object(members) => PlainMembers(members)
  }

  predicate PlainMembers(m: Members) {
    match m
    case End => true
    case Member(key, value, rest) => AllPlain(key) && PlainValue(value) && PlainMembers(rest)
  }

  function Quoted(s: string): string {
    "\"" + s + "\""
  }

  function Print(v: Value): string {
    match v
    case Text(text) => Quoted(text)
    case Object(members) => "{" + (if members.End? then "}" else PrintMembers(members))
  }

  /** The members and the brace after them. */
  function PrintMembers(m: Members): string
    requires m.Member?
  {
    Quoted(m.key) + ":" + Print(m.value) + if m.rest.End? then "}" else "," + PrintMembers(m.rest)
  }

  /** The characters before the first that isn't plain. */
  function PlainLength(s: string): (n: nat)
    ensures n <= |s| && AllPlain(s[..n]) && (n < |s| ==> !Plain(s[n]))
  {
    if s == [] || !Plain(s[0]) then 0 else 1 + PlainLength(s[1..])
  }

  /** A string in quotes, and what is after it. */
  function ParseString(s: string): (r: Option<(string, string)>)
    ensures r.Some? ==> |r.value.1| < |s|
  {
    if s == [] || s[0] != '"' then None
    else
      var n := PlainLength(s[1..]);
      if n == |s| - 1 || s[1 + n] != '"' then None else Some((s[1..1 + n], s[n + 2..]))
  }

  function ParseValue(s: string): (r: Option<(Value, string)>)
    ensures r.Some? ==> |r.value.1| < |s|
    decreases |s|, 1
  {
    if s != [] && s[0] == '{' then
      if |s| > 1 && s[1] == '}' then Some((Object(End), s[2..]))
      else
        var m := ParseMembers(s[1..]);
        if m == None then None else Some((Object(m.value.0), m.value.1))
    else
      var t := ParseString(s);
      if t == None then None else Some((Text(t.value.0), t.value.1))
  }

  /** Members, and what is after the brace that ends them. */
  function ParseMembers(s: string): (r: Option<(Members, string)>)
    ensures r.Some? ==> |r.value.1| < |s|
    decreases |s|, 0
  {
    var key := ParseString(s);
    if key == None || key.value.1 == [] || key.value.1[0] != ':' then None
    else
      var value := ParseValue(key.value.1[1..]);
      if value == None || value.value.1 == [] then None
      else
        var next, after := value.value.1[0], value.value.1[1..];
        if next == '}' then Some((Member(key.value.0, value.value.0, End), after))
        else if next == ',' then
          var rest := ParseMembers(after);
          if rest == None then None else Some((Member(key.value.0, value.value.0, rest.value.0), rest.value.1))
        else None
  }

  lemma {:induction false} PlainPrefix(s: string, t: string)
    requires AllPlain(s) && (t == [] || !Plain(t[0]))
    ensures PlainLength(s + t) == |s|
  {
    if s == [] {
      assert s + t == t;
    } else {
      assert (s + t)[1..] == s[1..] + t;
      PlainPrefix(s[1..], t);
    }
  }

  lemma {:induction false} ParseInvertsQuoted(s: string, after: string)
    requires AllPlain(s)
    ensures ParseString(Quoted(s) + after) == Some((s, after))
  {
    var u := Quoted(s) + after;
    assert u[1..] == s + ("\"" + after);
    PlainPrefix(s, "\"" + after);
    assert u[1..1 + |s|] == s && u[|s| + 2..] == after;
  }

  /** Parsing gives back the value that was printed, whatever is after it. */
  lemma {:induction false} ParseInvertsPrint(v: Value, after: string)
    requires PlainValue(v)
    ensures ParseValue(Print(v) + after) == Some((v, after))
    decreases v, 1
  {
    var u := Print(v) + after;
    match v
    case Text(text) => ParseInvertsQuoted(text, after);
    case Object(members) =>
      if members.End? {
        assert u[2..] == after;
      } else {
        assert u[1..] == PrintMembers(members) + after;
        ParseInvertsMembers(members, after);
        assert u[1] == '"';
      }
  }

  lemma {:induction false} ParseInvertsMembers(m: Members, after: string)
    requires m.Member? && PlainMembers(m)
    ensures ParseMembers(PrintMembers(m) + after) == Some((m, after))
    decreases m, 0
  {
    hide Print, PrintMembers, ParseString, ParseValue, ParseMembers, Quoted;
    MembersText(m, after);
    var tail := Tail(m, after);
    var text := Print(m.value) + tail;
    assert ":" + Print(m.value) + tail == ":" + text;
    ParseInvertsQuoted(m.key, ":" + text);
    ParseInvertsPrint(m.value, tail);
    if m.rest.End? {
      LastMember(PrintMembers(m) + after, m.key, text, m.value, after);
    } else {
      ParseInvertsMembers(m.rest, after);
      NextMember(PrintMembers(m) + after, m.key, text, m.value, PrintMembers(m.rest) + after, m.rest, after);
    }
  }

  lemma {:induction false} LastMember(s: string, key: string, text: string, value: Value, after: string)
    requires ParseString(s) == Some((key, ":" + text)) && ParseValue(text) == Some((value, "}" + after))
    ensures ParseMembers(s) == Some((Member(key, value, End), after))
  {}

  lemma {:induction false} NextMember(
    s: string, key: string, text: string, value: Value, more: string, rest: Members, after: string)
    requires ParseString(s) == Some((key, ":" + text)) && ParseValue(text) == Some((value, "," + more))
    requires ParseMembers(more) == Some((rest, after))
    ensures ParseMembers(s) == Some((Member(key, value, rest), after))
  {}

  /** What follows the first of some members. */
  function Tail(m: Members, after: string): string
    requires m.Member?
  {
    if m.rest.End? then "}" + after else "," + (PrintMembers(m.rest) + after)
  }

  lemma {:induction false} MembersText(m: Members, after: string)
    requires m.Member?
    ensures PrintMembers(m) + after == Quoted(m.key) + (":" + Print(m.value) + Tail(m, after))
  {}

  lemma {:induction false} PrintedIsAscii(v: Value)
    requires PlainValue(v)
    ensures forall i :: 0 <= i < |Print(v)| ==> 32 <= Print(v)[i] as int <= 126
    decreases v, 1
  {
    match v
    case Text(text) =>
    case Object(members) =>
      if members.Member? {
        PrintedMembersAreAscii(members);
      }
  }

  lemma {:induction false} PrintedMembersAreAscii(m: Members)
    requires m.Member? && PlainMembers(m)
    ensures forall i :: 0 <= i < |PrintMembers(m)| ==> 32 <= PrintMembers(m)[i] as int <= 126
    decreases m, 0
  {
    PrintedIsAscii(m.value);
    if m.rest.Member? {
      PrintedMembersAreAscii(m.rest);
    }
  }
}
