/**
 The request on the control channel that opens a session, as the C srv takes it apart with strtok_r and as the
 ESP32 does by looking for colons.
 */
module ConnectMessage {
  import opened Wrappers
  import opened Text
  import opened SessionKeys

  const PREFIX: string := "connect:"

  /** What a session is to be encrypted with: nothing, one key, or one for each direction. */
  datatype Connect = Plain | Keyed(c2d: Keys, d2c: Option<Keys>)

  predicate Blank(c: char) {
    c == ' ' || c == '\n'
  }

  // ---- The C srv ----

  function WithoutLeading(s: string): string {
    if s != "" && Blank(s[0]) then WithoutLeading(s[1..]) else s
  }

  function WithoutTrailing(s: string): string {
    if s != "" && Blank(s[|s| - 1]) then WithoutTrailing(s[..|s| - 1]) else s
  }

  /** strtok_r with a colon for its only delimiter: the next token, and what is after the colon that ends it. */
  function NextToken(s: string): (r: Option<(string, string)>)
    ensures r.Some? ==> |r.value.1| < |s|
  {
    if s == "" then None
    else if s[0] == ':' then NextToken(s[1..])
    else
      var i := Find(s, ':');
      Some((s[..i], if i < |s| then s[i + 1..] else ""))
  }

  /** All the tokens. */
  function AllTokens(s: string): seq<string>
    decreases |s|
  {
    match NextToken(s)
    case None => []
    case Some((token, rest)) => [token] + AllTokens(rest)
  }

  /** A connect request: what is made of the tokens of a message. */
  function FromTokens(tokens: seq<string>): Option<Connect> {
    if |tokens| < 3 || |tokens| == 4 || tokens[0] != "connect" then None
    else if tokens[1] == "no" && tokens[2] == "encrypt" then Some(Plain)
    else Some(Keyed(Keys(tokens[1], tokens[2]), if |tokens| > 4 then Some(Keys(tokens[3], tokens[4])) else None))
  }

  function ParsedByC(message: string): Option<Connect> {
    FromTokens(AllTokens(WithoutTrailing(WithoutLeading(message))))
  }

  // ---- The ESP32 ----

  /** The first fields of s, up to k of them: the last is all that is left. */
  function Fields(s: string, k: nat): (r: seq<string>)
    requires k > 0
    ensures 0 < |r| <= k
    decreases k
  {
    var i := Find(s, ':');
    if k == 1 || i == |s| then [s] else [s[..i]] + Fields(s[i + 1..], k - 1)
  }

  function FromFields(fields: seq<string>): Option<Connect> {
    if |fields| < 2 then None
    else Some(Keyed(Keys(fields[0], fields[1]), if |fields| >= 4 then Some(Keys(fields[2], fields[3])) else None))
  }

  function ParsedByEsp(message: string): Option<Connect> {
    if !(PREFIX <= message) then None
    else
      var data := message[|PREFIX|..];
      if data == "no:encrypt" || data == "" then Some(Plain) else FromFields(Fields(data, 4))
  }

  // ---- What each makes of any message ----

  /** The parts that aren't empty. */
  function Filled(parts: seq<string>): seq<string> {
    if parts == [] then [] else Fill(parts[0]) + Filled(parts[1..])
  }

  function Fill(part: string): seq<string> {
    if part == "" then [] else [part]
  }

  /** Tokens are the parts between colons, without the empty ones. */
  lemma {:induction false} TokensAreFilledParts(s: string)
    ensures AllTokens(s) == Filled(Split(s, ':'))
    decreases |s|
  {
    var i := Find(s, ':');
    if i < |s| {
      TokensAreFilledParts(s[i + 1..]);
      assert s[..i] == "" <==> i == 0;
      assert Split(s, ':')[1..] == Split(s[i + 1..], ':');
    } else {
      assert Split(s, ':') == [s] && s[..i] == s && Split(s, ':')[1..] == [];
    }
  }

  lemma {:induction false} TrimmedPastPrefix(p: string, s: string)
    requires p != "" && !Blank(p[|p| - 1])
    ensures WithoutTrailing(p + s) == p + WithoutTrailing(s)
    decreases |s|
  {
    if s != "" && Blank(s[|s| - 1]) {
      TrimmedPastPrefix(p, s[..|s| - 1]);
      assert (p + s)[..|p + s| - 1] == p + s[..|s| - 1];
    }
  }

  function LastTrimmed(parts: seq<string>): seq<string>
    requires parts != []
  {
    parts[|parts| - 1 := WithoutTrailing(parts[|parts| - 1])]
  }

  lemma {:induction false} TrimmedHasNoColon(s: string)
    requires ':' !in s
    ensures ':' !in WithoutTrailing(s)
  {
    if s != "" && Blank(s[|s| - 1]) {
      TrimmedHasNoColon(s[..|s| - 1]);
    }
  }

  lemma {:induction false} OnePartTrimmed(s: string)
    requires ':' !in s
    ensures Split(WithoutTrailing(s), ':') == LastTrimmed(Split(s, ':'))
  {
    SplitLast(s, ':');
    TrimmedHasNoColon(s);
    SplitLast(WithoutTrailing(s), ':');
    hide Split, WithoutTrailing;
  }

  /** A part and a colon in front of more. */
  lemma {:induction false} PartInFront(s: string, i: nat, trimmed: string)
    requires i < |s| && s[i] == ':' && ':' !in s[..i]
    requires WithoutTrailing(s[i + 1..]) == trimmed && Split(trimmed, ':') == LastTrimmed(Split(s[i + 1..], ':'))
    ensures Split(s[..i + 1] + trimmed, ':') == LastTrimmed(Split(s, ':'))
  {
    var t := s[..i + 1] + trimmed;
    assert t[..i] == s[..i] && t[i + 1..] == trimmed;
    SplitStep(t, i, ':');
    SplitStep(s, i, ':');
    hide Split, WithoutTrailing;
    assert LastTrimmed([s[..i]] + Split(s[i + 1..], ':')) == [s[..i]] + LastTrimmed(Split(s[i + 1..], ':'));
  }

  /** Trimming reaches into the last part only. */
  lemma {:induction false} PartsOfTrimmed(s: string)
    ensures Split(WithoutTrailing(s), ':') == LastTrimmed(Split(s, ':'))
    decreases |s|
  {
    hide Split, WithoutTrailing, LastTrimmed;
    var i := Find(s, ':');
    if i < |s| {
      TrimmedPastPrefix(s[..i + 1], s[i + 1..]);
      PartsOfTrimmed(s[i + 1..]);
      assert s == s[..i + 1] + s[i + 1..];
      PartInFront(s, i, WithoutTrailing(s[i + 1..]));
    } else {
      OnePartTrimmed(s);
    }
  }

  predicate AllBlank(s: string) {
    forall i :: 0 <= i < |s| ==> s[i] == ' ' || s[i] == '\n'
  }

  lemma {:induction false} LeadingCut(s: string) returns (k: nat)
    ensures k <= |s| && AllBlank(s[..k]) && WithoutLeading(s) == s[k..]
    ensures WithoutLeading(s) != "" ==> WithoutLeading(s)[0] != ' ' && WithoutLeading(s)[0] != '\n'
  {
    k := 0;
    if s != "" && Blank(s[0]) {
      k := LeadingCut(s[1..]);
      assert s[..k + 1] == [s[0]] + s[1..][..k];
      k := k + 1;
    }
  }

  lemma {:induction false} TrailingCut(s: string) returns (k: nat)
    ensures k <= |s| && AllBlank(s[k..]) && WithoutTrailing(s) == s[..k]
    ensures k > 0 ==> s[k - 1] != ' ' && s[k - 1] != '\n'
  {
    k := |s|;
    if s != "" && Blank(s[|s| - 1]) {
      k := TrailingCut(s[..|s| - 1]);
      assert s[k..] == s[..|s| - 1][k..] + [s[|s| - 1]];
    }
  }

  /** Trimming takes off just the spaces and newlines at both ends. */
  lemma {:induction false} TrimmedExactly(message: string) returns (from: nat, to: nat)
    ensures from <= to <= |message| && WithoutTrailing(WithoutLeading(message)) == message[from..to]
    ensures AllBlank(message[..from]) && AllBlank(message[to..])
    ensures from < to ==> message[from] !in [' ', '\n'] && message[to - 1] !in [' ', '\n']
  {
    from := LeadingCut(message);
    var k := TrailingCut(message[from..]);
    to := from + k;
    assert message[from..][..k] == message[from..to] && message[from..][k..] == message[to..];
    hide WithoutLeading, WithoutTrailing;
  }

  lemma {:induction false} TrimmedMessage(data: string)
    ensures WithoutTrailing(WithoutLeading(PREFIX + data)) == PREFIX + WithoutTrailing(data)
  {
    TrimmedPastPrefix(PREFIX, data);
    assert WithoutLeading(PREFIX + data) == PREFIX + data;
  }

  lemma {:induction false} PartsAfterWord(s: string)
    ensures Split(PREFIX + s, ':') == ["connect"] + Split(s, ':')
  {
    assert (PREFIX + s)[..7] == "connect" && (PREFIX + s)[8..] == s;
    SplitStep(PREFIX + s, 7, ':');
    hide Split;
  }

  /** What the C srv makes of a message: trailing blanks and empty parts don't count. */
  lemma {:induction false} TokensOfMessage(data: string)
    ensures ParsedByC(PREFIX + data) == FromTokens(["connect"] + Filled(LastTrimmed(Split(data, ':'))))
  {
    TrimmedMessage(data);
    PartsOfTrimmed(data);
    PartsAfterWord(WithoutTrailing(data));
    TokensAreFilledParts(PREFIX + WithoutTrailing(data));
    FilledStep("connect", Split(WithoutTrailing(data), ':'));
    hide Split, WithoutTrailing, WithoutLeading, Filled, LastTrimmed, AllTokens, FromTokens;
  }

  function Joined(fields: seq<string>): string {
    if fields == [] then ""
    else if |fields| == 1 then fields[0]
    else fields[0] + ":" + Joined(fields[1..])
  }

  lemma {:induction false} JoinedParts(s: string)
    ensures Joined(Split(s, ':')) == s
    decreases |s|
  {
    var i := Find(s, ':');
    if i < |s| {
      JoinedParts(s[i + 1..]);
      assert s == s[..i] + ":" + s[i + 1..];
      assert Split(s, ':')[1..] == Split(s[i + 1..], ':');
    }
  }

  /** The first parts, the last of them running on to the end of the message. */
  function FirstParts(parts: seq<string>, k: nat): seq<string>
    requires k > 0
    decreases k
  {
    if k == 1 then [Joined(parts)]
    else if |parts| <= 1 then parts
    else [parts[0]] + FirstParts(parts[1..], k - 1)
  }

  lemma {:induction false} FieldsAreFirstParts(s: string, k: nat)
    requires k > 0
    ensures Fields(s, k) == FirstParts(Split(s, ':'), k)
    decreases k
  {
    var i := Find(s, ':');
    JoinedParts(s);
    if k > 1 && i < |s| {
      FieldsAreFirstParts(s[i + 1..], k - 1);
      assert Split(s, ':')[1..] == Split(s[i + 1..], ':');
    }
  }

  /** What the first four parts of a message are. */
  lemma {:induction false} FirstFour(parts: seq<string>)
    requires parts != []
    ensures var r := FirstParts(parts, 4);
      && |r| == (if |parts| < 4 then |parts| else 4)
      && (forall i :: 0 <= i < 3 && i < |parts| ==> r[i] == parts[i])
      && (|parts| > 3 ==> r[3] == Joined(parts[3..]))
      && (|parts| == 4 ==> r[3] == parts[3])
  {}

  /** What the ESP32 makes of it: every part counts, and the fourth takes in all that is left. */
  lemma {:induction false} FieldsOfMessage(data: string)
    ensures ParsedByEsp(PREFIX + data) ==
      if data == "no:encrypt" || data == "" then Some(Plain) else FromFields(FirstParts(Split(data, ':'), 4))
  {
    assert (PREFIX + data)[|PREFIX|..] == data;
    FieldsAreFirstParts(data, 4);
  }

  // ---- When they agree ----

  predicate Whole(part: string) {
    part != "" && WithoutTrailing(part) == part
  }

  /** A key or two, each in parts that aren't empty, with nothing but blanks behind. */
  predicate PlainlyKeyed(parts: seq<string>) {
    match |parts|
    case 2 => parts[0] != "" && Whole(parts[1])
    case 3 => parts[0] != "" && parts[1] != "" && WithoutTrailing(parts[2]) == ""
    case 4 => parts[0] != "" && parts[1] != "" && parts[2] != "" && Whole(parts[3])
    case _ => false
  }

  predicate NoEncrypt(parts: seq<string>) {
    |parts| >= 2 && parts[0] == "no" && parts[1] == "encrypt"
  }

  /** The tokens after the word. */
  lemma {:induction false} WordFirst(tokens: seq<string>)
    ensures FromTokens(["connect"] + tokens) ==
      if |tokens| < 2 || |tokens| == 3 then None
      else if NoEncrypt(tokens) then Some(Plain)
      else Some(Keyed(Keys(tokens[0], tokens[1]), if |tokens| > 3 then Some(Keys(tokens[2], tokens[3])) else None))
  {
    var all := ["connect"] + tokens;
    assert all[0] == "connect" && |all| == |tokens| + 1 && forall i :: 0 <= i < |tokens| ==> all[i + 1] == tokens[i];
  }

  lemma {:induction false} FilledStep(part: string, parts: seq<string>)
    ensures Filled([part] + parts) == Fill(part) + Filled(parts)
  {
    assert ([part] + parts)[1..] == parts;
  }

  /** What is left of up to four parts. */
  lemma {:induction false} FilledFew(parts: seq<string>)
    ensures |parts| == 1 ==> Filled(parts) == Fill(parts[0])
    ensures |parts| == 2 ==> Filled(parts) == Fill(parts[0]) + Fill(parts[1])
    ensures |parts| == 3 ==> Filled(parts) == Fill(parts[0]) + Fill(parts[1]) + Fill(parts[2])
    ensures |parts| == 4 ==> Filled(parts) == Fill(parts[0]) + Fill(parts[1]) + Fill(parts[2]) + Fill(parts[3])
    decreases |parts|
  {
    if 0 < |parts| <= 4 {
      FilledFew(parts[1..]);
      FilledStep(parts[0], parts[1..]);
      assert parts == [parts[0]] + parts[1..];
    }
  }

  lemma {:induction false} FewPartsAgree(parts: seq<string>)
    requires 2 <= |parts| <= 4
    ensures FromTokens(["connect"] + Filled(LastTrimmed(parts))) == FromFields(FirstParts(parts, 4)) <==>
      PlainlyKeyed(parts) && !NoEncrypt(parts)
  {
    WordFirst(Filled(LastTrimmed(parts)));
    FilledFew(LastTrimmed(parts));
    FirstFour(parts);
    hide WithoutTrailing, Filled, FirstParts, FromTokens, Joined;
  }

  predicate NoColons(parts: seq<string>) {
    forall i :: 0 <= i < |parts| ==> ':' !in parts[i]
  }

  lemma {:induction false} PartsHaveNoColons(s: string)
    ensures NoColons(Split(s, ':'))
    decreases |s|
  {
    var i := Find(s, ':');
    if i < |s| {
      PartsHaveNoColons(s[i + 1..]);
    }
  }

  lemma {:induction false} FilledHaveNoColons(parts: seq<string>)
    requires NoColons(parts)
    ensures NoColons(Filled(parts))
  {
    if parts != [] {
      FilledHaveNoColons(parts[1..]);
    }
  }

  /** Of more than four the ESP32 runs the rest together, which no token is. */
  lemma {:induction false} ManyPartsDiffer(parts: seq<string>)
    requires |parts| > 4 && NoColons(parts)
    ensures FromTokens(["connect"] + Filled(LastTrimmed(parts))) != FromFields(FirstParts(parts, 4))
  {
    TrimmedHasNoColon(parts[|parts| - 1]);
    FilledHaveNoColons(LastTrimmed(parts));
    WordFirst(Filled(LastTrimmed(parts)));
    FirstFour(parts);
    assert Joined(parts[3..])[|parts[3]|] == ':';
    hide WithoutTrailing, Filled, FirstParts, FromTokens, Joined, LastTrimmed;
  }

  /**
   The two take the same from a message exactly when it is the one for no encryption; or one part, which both refuse;
   or a key or two, in parts that aren't empty with no more than blanks behind, that don't start with the words for no
   encryption. Of three parts the ESP32 takes two, and of more than four it runs the rest together.
   */
  lemma {:induction false} ParsersAgreeExactly(data: string)
    ensures ParsedByC(PREFIX + data) == ParsedByEsp(PREFIX + data) <==>
      || data == "no:encrypt"
      || (data != "" && ':' !in data)
      || (PlainlyKeyed(Split(data, ':')) && !NoEncrypt(Split(data, ':')))
  {
    hide ParsedByC, ParsedByEsp;
    var parts := Split(data, ':');
    TokensOfMessage(data);
    FieldsOfMessage(data);
    if |parts| == 1 {
      OnePart(data);
    } else if data == "no:encrypt" {
      NoEncryptParts();
    } else {
      PartsHaveNoColons(data);
      ColonInParts(data);
      hide Split, FromTokens, Filled, FromFields, FirstParts, PlainlyKeyed;
      if |parts| <= 4 {
        FewPartsAgree(parts);
      } else {
        ManyPartsDiffer(parts);
        ManyAreNotPlain(parts);
      }
    }
  }

  lemma {:induction false} OnePart(data: string)
    requires |Split(data, ':')| == 1
    ensures ':' !in data && Split(data, ':') == [data]
    ensures FromTokens(["connect"] + Filled(LastTrimmed([data]))) == None && FromFields(FirstParts([data], 4)) == None
    ensures !PlainlyKeyed([data])
  {
    JoinedParts(data);
    PartsHaveNoColons(data);
    FilledFew(LastTrimmed([data]));
    WordFirst(Filled(LastTrimmed([data])));
  }

  lemma {:induction false} ColonInParts(data: string)
    requires |Split(data, ':')| > 1
    ensures ':' in data && data != ""
  {}

  lemma {:induction false} ManyAreNotPlain(parts: seq<string>)
    requires |parts| > 4
    ensures !PlainlyKeyed(parts)
  {}

  lemma {:induction false} NoEncryptParts()
    ensures FromTokens(["connect"] + Filled(LastTrimmed(Split("no:encrypt", ':')))) == Some(Plain)
  {
    SplitNoEncrypt();
    EncryptIsWhole();
    var parts := ["no", "encrypt"];
    FilledFew(parts);
    WordFirst(parts);
    hide Split, Filled, FromTokens, WithoutTrailing;
    assert LastTrimmed(parts) == parts;
    assert Fill("no") == ["no"] && Fill("encrypt") == ["encrypt"];
    assert Filled(parts) == parts;
  }

  lemma {:induction false} EncryptIsWhole()
    ensures WithoutTrailing("encrypt") == "encrypt"
  {}

  lemma {:induction false} SplitNoEncrypt()
    ensures Split("no:encrypt", ':') == ["no", "encrypt"]
  {
    hide Split;
    SplitStep("no:encrypt", 2, ':');
    assert "no:encrypt"[..2] == "no" && "no:encrypt"[3..] == "encrypt";
    SplitLast("encrypt", ':');
  }

  // ---- What is sent ----

  predicate Parted(keys: Keys) {
    keys.key64 != "" && keys.iv64 != "" && ':' !in keys.key64 && ':' !in keys.iv64
  }

  /** Keys that aren't mistaken for the words for no encryption, without blanks at the end of the message. */
  predicate Sendable(c: Connect) {
    c.Keyed? ==>
      && Parted(c.c2d) && !(c.c2d.key64 == "no" && c.c2d.iv64 == "encrypt")
      && if c.d2c.None? then Whole(c.c2d.iv64) else Parted(c.d2c.value) && Whole(c.d2c.value.iv64)
  }

  function Data(c: Connect): string {
    match c
    case Plain => "no:encrypt"
    case Keyed(c2d, None) => c2d.key64 + ":" + c2d.iv64
    case Keyed(c2d, Some(d2c)) => c2d.key64 + ":" + (c2d.iv64 + ":" + (d2c.key64 + ":" + d2c.iv64))
  }

  lemma {:induction false} PartFirst(part: string, rest: string)
    requires ':' !in part
    ensures Split(part + ":" + rest, ':') == [part] + Split(rest, ':')
  {
    var s := part + ":" + rest;
    assert s[..|part|] == part && s[|part| + 1..] == rest;
    SplitStep(s, |part|, ':');
  }

  lemma {:induction false} PartsOfData(c: Connect)
    requires c.Keyed? && Sendable(c)
    ensures Split(Data(c), ':') == [c.c2d.key64, c.c2d.iv64] +
      if c.d2c.None? then [] else [c.d2c.value.key64, c.d2c.value.iv64]
  {
    hide Split, Whole;
    var c2d := c.c2d;
    if c.d2c.Some? {
      var d2c := c.d2c.value;
      SplitLast(d2c.iv64, ':');
      PartFirst(d2c.key64, d2c.iv64);
      PartFirst(c2d.iv64, d2c.key64 + ":" + d2c.iv64);
      PartFirst(c2d.key64, c2d.iv64 + ":" + (d2c.key64 + ":" + d2c.iv64));
    } else {
      SplitLast(c2d.iv64, ':');
      PartFirst(c2d.key64, c2d.iv64);
    }
  }

  /** Both take from a message just what it was made to say. */
  lemma {:induction false} BothReadWhatIsSent(c: Connect)
    requires Sendable(c)
    ensures ParsedByC(PREFIX + Data(c)) == ParsedByEsp(PREFIX + Data(c)) == Some(c)
  {
    ParsersAgreeExactly(Data(c));
    if c.Keyed? {
      KeyedIsRead(c);
      PartsOfData(c);
      hide ParsedByC, ParsedByEsp, Split, Data, FirstParts, Joined, WithoutTrailing;
      KeyedParts(c, Split(Data(c), ':'));
    } else {
      FieldsOfMessage("no:encrypt");
      hide ParsedByC, ParsedByEsp;
    }
  }

  lemma {:induction false} KeyedIsRead(c: Connect)
    requires c.Keyed? && Sendable(c)
    ensures ParsedByEsp(PREFIX + Data(c)) == Some(c)
  {
    var data := Data(c);
    FieldsOfMessage(data);
    PartsOfData(c);
    hide ParsedByEsp, Split, Data, FirstParts, FromFields, Sendable;
    OtherWords(data);
    KeyedParts(c, Split(data, ':'));
  }

  lemma {:induction false} OtherWords(data: string)
    ensures Split(data, ':') != ["no", "encrypt"] && Split(data, ':') != [""] ==> data != "no:encrypt" && data != ""
  {
    SplitNoEncrypt();
    SplitLast("", ':');
    hide Split;
  }

  lemma {:induction false} KeyedParts(c: Connect, parts: seq<string>)
    requires c.Keyed? && Sendable(c)
    requires parts == [c.c2d.key64, c.c2d.iv64] +
      if c.d2c.None? then [] else [c.d2c.value.key64, c.d2c.value.iv64]
    ensures PlainlyKeyed(parts) && !NoEncrypt(parts) && parts != ["no", "encrypt"] && parts != [""]
    ensures FromFields(FirstParts(parts, 4)) == Some(c)
  {
    FirstFour(parts);
    hide WithoutTrailing, FirstParts, Joined;
  }

  /** Takes a message apart the way the C srv does. */
  method ParseControlMessage(message: string) returns (ok: bool, kind: string, c2d: Keys, d2c: Option<Keys>)
    ensures ok && kind == "connect" ==>
      ParsedByC(message) == Some(if c2d == Keys("no", "encrypt") then Plain else Keyed(c2d, d2c))
    ensures !(ok && kind == "connect") ==> ParsedByC(message) == None
  {
    ok, kind, c2d, d2c := false, "", Keys("", ""), None;
    var rest := TrimMessage(message);
    ghost var all := AllTokens(rest);
    var tokens: seq<string> := [];
    for i := 0 to 3
      invariant |tokens| == i && all == tokens + AllTokens(rest)
    {
      var next := NextToken(rest);
      if next == None {
        assert all == tokens;
        return;
      }
      tokens, rest := tokens + [next.value.0], next.value.1;
    }
    kind, c2d := tokens[0], Keys(tokens[1], tokens[2]);
    assert all[0] == tokens[0] && all[1] == tokens[1] && all[2] == tokens[2];
    var key := NextToken(rest);
    if key.Some? {
      var iv := NextToken(key.value.1);
      if iv == None {
        assert AllTokens(rest) == [key.value.0];
        return;
      }
      d2c := Some(Keys(key.value.0, iv.value.0));
      assert AllTokens(rest) == [key.value.0] + ([iv.value.0] + AllTokens(iv.value.1));
      assert all[3] == key.value.0 && all[4] == iv.value.0;
    }
    ok := true;
  }

  method TrimMessage(message: string) returns (r: string)
    ensures r == WithoutTrailing(WithoutLeading(message))
  {
    var start := 0;
    assert message[0..] == message;
    while start < |message| && Blank(message[start])
      invariant start <= |message| && WithoutLeading(message) == WithoutLeading(message[start..])
    {
      assert message[start..][1..] == message[start + 1..];
      start := start + 1;
    }
    r := message[start..];
    var len := |r|;
    assert r[..len] == r;
    while len > 0 && Blank(r[len - 1])
      invariant len <= |r| && WithoutTrailing(r) == WithoutTrailing(r[..len])
    {
      assert r[..len][..len - 1] == r[..len - 1];
      len := len - 1;
    }
    r := r[..len];
  }
}
