/**
 The response to the relay's challenge: a signed JSON payload in an envelope that is padded and encrypted, each
 layer in base64. RSA and AES are functions that nothing is known about.
 */
module Escr {
  import opened Wrappers
  import opened Base64
  import opened Json
  import Strings = Text
  import CtrStream
  import opened SessionKeys

  const NUL: char := '\0'
  const MAX_LINE: nat := 4096
  const SIG_BYTES: nat := 256
  const SIG_BUFFER: nat := 512
  const IV_BUFFER: nat := 32
  const BLOCK: nat := 16

  type Signature = s: string | |s| == 256 && Octets(s) witness seq(256, _ => NUL)

  /** The libraries: aes is keyed by 32 octets; an encoder wants slack more than the text and its terminator. */
  datatype Library = Library(sign: string -> Option<Signature>, aes: string -> CtrStream.Cipher, slack: nat)

  datatype Inputs = Inputs(
    sid: string, challenge: string, key64: string, uri: string, modulus: string, sideA: bool, iv: Iv)

  // ---- The layers ----

  function Side(sideA: bool): string {
    if sideA then "a" else "b"
  }

  function PayloadText(i: Inputs): string {
    "{\"sid\":\"" + (i.sid + ("\",\"c\":\"" + (i.challenge + ("\",\"side\":\"" + (Side(i.sideA) + "\"}")))))
  }

  function EnvelopeText(payload: string, sig64: string, uri: string): string {
    "{\"p\":" + (payload + (",\"s\":\"" + (sig64 +
      ("\",\"ha\":\"sha256\",\"sa\":\"rsa2048\",\"sk\":\"" + (uri + "\"}")))))
  }

  function OuterText(iv64: string, enc64: string): string {
    "{\"iv\":\"" + (iv64 + ("\",\"e\":\"" + (enc64 + "\"}")))
  }

  function PadLength(n: nat): (k: nat)
    ensures 1 <= k <= BLOCK && (n + k) % BLOCK == 0
  {
    BLOCK - n % BLOCK
  }

  /** PKCS #7 padding (section 6.3 of RFC 5652). */
  function Padded(s: string): (r: string)
    ensures |r| == |s| + PadLength(|s|)
  {
    s + seq(PadLength(|s|), _ => PadLength(|s|) as char)
  }

  function Unpadded(s: string): Option<string> {
    if s == "" || |s| % BLOCK != 0 then None
    else
      var k := s[|s| - 1] as int;
      if !(1 <= k <= BLOCK && k <= |s|) || (exists j :: |s| - k <= j < |s| && s[j] as int != k) then None
      else Some(s[..|s| - k])
  }

  function ToBytes(s: string): (r: seq<CtrStream.Byte>)
    requires Octets(s)
    ensures |r| == |s|
  {
    seq(|s|, i requires 0 <= i < |s| => s[i] as int as bv8)
  }

  function FromBytes(b: seq<CtrStream.Byte>): (r: string)
    ensures |r| == |b| && Octets(r)
  {
    seq(|b|, i requires 0 <= i < |b| => b[i] as int as char)
  }

  function Encrypted(c: CtrStream.Cipher, iv: Iv, s: string): (r: string)
    requires Octets(s)
    ensures |r| == |s| && Octets(r)
  {
    FromBytes(CtrStream.Crypt(CtrStream.Start(c, BigEndian(iv)), ToBytes(s)).1)
  }

  predicate Safe(i: Inputs) {
    AllPlain(i.sid) && AllPlain(i.challenge) && AllPlain(i.uri)
  }

  function Envelope(i: Inputs, sig: Signature): string {
    EnvelopeText(PayloadText(i), Encode(sig), i.uri)
  }

  function Envelope64(i: Inputs, sig: Signature): (r: string)
    requires Safe(i)
    ensures Octets(r)
  {
    EnvelopeIsAscii(i, sig);
    EncodeIsOctets(Envelope(i, sig));
    Encode(Envelope(i, sig))
  }

  function Ciphertext(i: Inputs, sig: Signature, c: CtrStream.Cipher): (r: string)
    requires Safe(i)
    ensures Octets(r)
  {
    Encrypted(c, i.iv, Padded(Envelope64(i, sig)))
  }

  function Outer(i: Inputs, sig: Signature, c: CtrStream.Cipher): (r: string)
    requires Safe(i)
    ensures Octets(r)
  {
    var iv64, enc64 := Encode(i.iv), Encode(Ciphertext(i, sig, c));
    EncodeIsOctets(i.iv);
    EncodeIsOctets(Ciphertext(i, sig, c));
    OuterIsOctets(iv64, enc64);
    OuterText(iv64, enc64)
  }

  lemma {:induction false} OuterIsOctets(iv64: string, enc64: string)
    requires Octets(iv64) && Octets(enc64)
    ensures Octets(OuterText(iv64, enc64))
  {}

  /** The whole response line. */
  function Line(i: Inputs, sig: Signature, c: CtrStream.Cipher): string
    requires Safe(i)
  {
    i.sid + ":" + Encode(Outer(i, sig, c))
  }

  lemma {:induction false} EncodeIsOctets(s: string)
    requires Octets(s)
    ensures Octets(Encode(s)) && AllPlain(Encode(s))
  {
    EncodeIsPlain(s);
  }

  // ---- The layers as JSON ----

  function PayloadJson(i: Inputs): Value {
    Object(Member("sid", Text(i.sid), Member("c", Text(i.challenge), Member("side", Text(Side(i.sideA)), End))))
  }

  function EnvelopeJson(payload: Value, sig64: string, uri: string): Value {
    Object(Member("p", payload, Member("s", Text(sig64), Algorithms(uri))))
  }

  /** The names of the algorithms, and the key. */
  function Algorithms(uri: string): (m: Members)
    ensures m.Member?
  {
    Member("ha", Text("sha256"), Member("sa", Text("rsa2048"), Member("sk", Text(uri), End)))
  }

  function OuterJson(iv64: string, enc64: string): Value {
    Object(Member("iv", Text(iv64), Member("e", Text(enc64), End)))
  }

  function Pair(key: string, text: string): string {
    Quoted(key) + ":" + Quoted(text)
  }

  lemma {:induction false} PrintPair(key: string, text: string, rest: Members)
    ensures PrintMembers(Member(key, Text(text), rest)) ==
      Pair(key, text) + if rest.End? then "}" else "," + PrintMembers(rest)
    ensures PlainMembers(Member(key, Text(text), rest)) <==> AllPlain(key) && AllPlain(text) && PlainMembers(rest)
  {}

  /** The last pair of an object, with its key written out as in a format. */
  lemma {:induction false} LastPair(key: string, text: string, prefix: string)
    requires prefix == "\"" + key + "\":\""
    ensures PrintMembers(Member(key, Text(text), End)) == prefix + (text + "\"}")
  {}

  /** A pair before others, which start with next; between is what is between the two texts. */
  lemma {:induction false} PairBefore(
    key: string, text: string, prefix: string, rest: Members, next: string, more: string, between: string)
    requires rest.Member? && prefix == "\"" + key + "\":\"" && between == "\"," + next
    requires PrintMembers(rest) == next + more
    ensures PrintMembers(Member(key, Text(text), rest)) == prefix + (text + (between + more))
  {}

  lemma {:induction false} PayloadIsJson(i: Inputs)
    ensures PayloadText(i) == Print(PayloadJson(i))
  {
    hide PrintMembers;
    var side := Member("side", Text(Side(i.sideA)), End);
    var c := Member("c", Text(i.challenge), side);
    var sideText := Side(i.sideA) + "\"}";
    var cText := i.challenge + ("\",\"side\":\"" + sideText);
    LastPair("side", Side(i.sideA), "\"side\":\"");
    PairBefore("c", i.challenge, "\"c\":\"", side, "\"side\":\"", sideText, "\",\"side\":\"");
    PairBefore("sid", i.sid, "\"sid\":\"", c, "\"c\":\"", cText, "\",\"c\":\"");
    var sidText := i.sid + ("\",\"c\":\"" + cText);
    assert "{" + ("\"sid\":\"" + sidText) == "{\"sid\":\"" + sidText;
  }

  lemma {:induction false} PayloadIsPlain(i: Inputs)
    requires Safe(i)
    ensures PlainValue(PayloadJson(i))
  {
    var side := Member("side", Text(Side(i.sideA)), End);
    var c := Member("c", Text(i.challenge), side);
    PrintPair("side", Side(i.sideA), End);
    PrintPair("c", i.challenge, side);
    PrintPair("sid", i.sid, c);
  }

  lemma {:induction false} AlgorithmsAreJson(uri: string)
    ensures PrintMembers(Algorithms(uri)) == "\"ha\":\"sha256\",\"sa\":\"rsa2048\",\"sk\":\"" + (uri + "\"}")
  {
    hide PrintMembers;
    var sk := Member("sk", Text(uri), End);
    var sa := Member("sa", Text("rsa2048"), sk);
    var more := uri + "\"}";
    LastPair("sk", uri, "\"sk\":\"");
    PairBefore("sa", "rsa2048", "\"sa\":\"", sk, "\"sk\":\"", more, "\",\"sk\":\"");
    var saText := "rsa2048" + ("\",\"sk\":\"" + more);
    PairBefore("ha", "sha256", "\"ha\":\"", sa, "\"sa\":\"", saText, "\",\"sa\":\"");
    Regroup5("\"ha\":\"", "sha256", "\",\"sa\":\"", "rsa2048", "\",\"sk\":\"", more);
    AlgorithmsText();
  }

  lemma {:induction false} AlgorithmsText()
    ensures "\"ha\":\"" + "sha256" + "\",\"sa\":\"" + "rsa2048" + "\",\"sk\":\""
      == "\"ha\":\"sha256\",\"sa\":\"rsa2048\",\"sk\":\""
  {}

  lemma {:induction false} Regroup5(a: string, b: string, c: string, d: string, e: string, f: string)
    ensures a + (b + (c + (d + (e + f)))) == a + b + c + d + e + f
  {}

  lemma {:induction false} EnvelopeIsJson(payload: Value, sig64: string, uri: string)
    ensures EnvelopeText(Print(payload), sig64, uri) == Print(EnvelopeJson(payload, sig64, uri))
  {
    var ha := Algorithms(uri);
    var s := Member("s", Text(sig64), ha);
    var front, more := "\"ha\":\"sha256\",\"sa\":\"rsa2048\",\"sk\":\"", uri + "\"}";
    AlgorithmsAreJson(uri);
    PairBefore("s", sig64, "\"s\":\"", ha, front, more, "\"," + front);
    assert "\"," + front == "\",\"ha\":\"sha256\",\"sa\":\"rsa2048\",\"sk\":\"";
    PrintFirst(payload, s);
    hide PrintMembers, Algorithms;
    var rest := sig64 + ("\"," + front + more);
    assert "," + ("\"s\":\"" + rest) == ",\"s\":\"" + rest;
  }

  lemma {:induction false} PrintFirst(payload: Value, rest: Members)
    requires rest.Member?
    ensures Print(Object(Member("p", payload, rest))) == "{\"p\":" + (Print(payload) + ("," + PrintMembers(rest)))
  {}

  lemma {:induction false} EnvelopeIsPlain(payload: Value, sig64: string, uri: string)
    requires PlainValue(payload) && AllPlain(sig64) && AllPlain(uri)
    ensures PlainValue(EnvelopeJson(payload, sig64, uri))
  {
    var sk := Member("sk", Text(uri), End);
    var sa := Member("sa", Text("rsa2048"), sk);
    PrintPair("sk", uri, End);
    PrintPair("sa", "rsa2048", sk);
    PrintPair("ha", "sha256", sa);
    PrintPair("s", sig64, Algorithms(uri));
    PlainFirst(payload, Member("s", Text(sig64), Algorithms(uri)));
  }

  lemma {:induction false} PlainFirst(payload: Value, rest: Members)
    ensures PlainMembers(Member("p", payload, rest)) <==> PlainValue(payload) && PlainMembers(rest)
  {}

  lemma {:induction false} OuterIsJson(iv64: string, enc64: string)
    ensures OuterText(iv64, enc64) == Print(OuterJson(iv64, enc64))
  {
    hide PrintMembers;
    var e := Member("e", Text(enc64), End);
    var more := enc64 + "\"}";
    LastPair("e", enc64, "\"e\":\"");
    PairBefore("iv", iv64, "\"iv\":\"", e, "\"e\":\"", more, "\",\"e\":\"");
    var ivText := iv64 + ("\",\"e\":\"" + more);
    assert "{" + ("\"iv\":\"" + ivText) == "{\"iv\":\"" + ivText;
  }

  lemma {:induction false} OuterIsPlain(iv64: string, enc64: string)
    requires AllPlain(iv64) && AllPlain(enc64)
    ensures PlainValue(OuterJson(iv64, enc64))
  {
    PrintPair("e", enc64, End);
    PrintPair("iv", iv64, Member("e", Text(enc64), End));
  }

  lemma {:induction false} EnvelopeIsAscii(i: Inputs, sig: Signature)
    requires Safe(i)
    ensures Octets(Envelope(i, sig)) && Octets(PayloadText(i))
  {
    EncodeIsOctets(sig);
    PayloadIsJson(i);
    PayloadIsPlain(i);
    EnvelopeIsJson(PayloadJson(i), Encode(sig), i.uri);
    EnvelopeIsPlain(PayloadJson(i), Encode(sig), i.uri);
    PrintedIsAscii(PayloadJson(i));
    PrintedIsAscii(EnvelopeJson(PayloadJson(i), Encode(sig), i.uri));
  }

  // ---- Reading a line ----

  /** What a response says; signed is the text under its signature. */
  datatype Response = Response(
    session: string, sid: string, challenge: string, side: string, uri: string, signature: string, signed: string)

  function Get(m: Members, key: string): Option<Value> {
    if m.End? then None else if m.key == key then Some(m.value) else Get(m.rest, key)
  }

  function GetText(m: Members, key: string): Option<string> {
    match Get(m, key)
    case Some(Text(text)) => Some(text)
    case _ => None
  }

  function GetOctets(m: Members, key: string): Option<string> {
    match GetText(m, key)
    case Some(text) => Decode(text)
    case None => None
  }

  /** A whole text that is an object. */
  function ReadObject(s: string): Option<Members> {
    match ParseValue(s)
    case Some((Object(members), "")) => Some(members)
    case _ => None
  }

  function ReadPayload(session: string, uri: string, signature: string, payload: Value): Option<Response> {
    if !payload.Object? then None
    else
      var sid, challenge := GetText(payload.members, "sid"), GetText(payload.members, "c");
      var side := GetText(payload.members, "side");
      if sid == None || challenge == None || side == None then None
      else
        Some(Response(session, sid.value, challenge.value, side.value, uri, signature, Print(payload)))
  }

  function ReadEnvelope(session: string, m: Members): Option<Response> {
    var payload, signature, uri := Get(m, "p"), GetOctets(m, "s"), GetText(m, "sk");
    if payload == None || signature == None || uri == None then None
    else if GetText(m, "ha") != Some("sha256") || GetText(m, "sa") != Some("rsa2048") then None
    else ReadPayload(session, uri.value, signature.value, payload.value)
  }

  /** Decrypts and unpads the base64 of an envelope, which is then decoded. */
  function ReadCiphertext(c: CtrStream.Cipher, iv: Iv, e: string): Option<Members>
    requires Octets(e)
  {
    var env64 := Unpadded(Encrypted(c, iv, e));
    if env64 == None then None
    else
      var env := Decode(env64.value);
      if env == None then None else ReadObject(env.value)
  }

  /** Reads a line with the key's cipher: its session is what is before the last colon. */
  function ReadLine(line: string, c: CtrStream.Cipher): Option<Response> {
    var colon := Strings.FindLast(line, ':');
    if colon == |line| then None
    else
      var text := Decode(line[colon + 1..]);
      var outer := if text == None then None else ReadObject(text.value);
      if outer == None then None
      else
        var iv, e := GetOctets(outer.value, "iv"), GetOctets(outer.value, "e");
        if iv == None || e == None || |iv.value| != 16 then None
        else
          var env := ReadCiphertext(c, iv.value, e.value);
          if env == None then None else ReadEnvelope(line[..colon], env.value)
  }

  lemma {:induction false} UnpadInverts(s: string)
    ensures Unpadded(Padded(s)) == Some(s)
  {}

  lemma {:induction false} OctetsThroughBytes(s: string)
    requires Octets(s)
    ensures FromBytes(ToBytes(s)) == s
  {
    forall i | 0 <= i < |s| ensures FromBytes(ToBytes(s))[i] == s[i] {
      OctetThroughByte(s[i]);
      assert ToBytes(s)[i] == s[i] as int as bv8;
    }
  }

  lemma {:induction false} OctetThroughByte(c: char)
    requires c as int < 256
    ensures (c as int as bv8) as int as char == c
  {}

  lemma {:induction false} BytesThroughOctets(b: seq<CtrStream.Byte>)
    ensures ToBytes(FromBytes(b)) == b
  {}

  /** Encrypting twice with the same iv gives back the text. */
  lemma {:induction false} DecryptInverts(c: CtrStream.Cipher, iv: Iv, s: string)
    requires Octets(s)
    ensures Encrypted(c, iv, Encrypted(c, iv, s)) == s
  {
    BigEndianIsCounter(iv, 16);
    CountersFit();
    var start := CtrStream.Start(c, BigEndian(iv));
    var out := CtrStream.Crypt(start, ToBytes(s)).1;
    BytesThroughOctets(out);
    OctetsThroughBytes(s);
    hide BigEndian, Power256;
    CtrStream.CryptIsCtrMode(start, c, BigEndian(iv), 0, ToBytes(s));
    CtrStream.CryptIsCtrMode(start, c, BigEndian(iv), 0, out);
    CtrStream.XoredTwice(c, BigEndian(iv), 0, ToBytes(s));
  }

  lemma {:induction false} PaddedIsOctets(s: string)
    requires Octets(s)
    ensures Octets(Padded(s))
  {}

  lemma {:induction false} ReadsCiphertext(i: Inputs, sig: Signature, c: CtrStream.Cipher)
    requires Safe(i)
    ensures ReadCiphertext(c, i.iv, Ciphertext(i, sig, c)) ==
      Some(EnvelopeJson(PayloadJson(i), Encode(sig), i.uri).members)
  {
    hide Padded, Unpadded, Encrypted, Print, ParseValue, Decode, Encode, EnvelopeText, PayloadText;
    var env64 := Envelope64(i, sig);
    PaddedIsOctets(env64);
    DecryptInverts(c, i.iv, Padded(env64));
    UnpadInverts(env64);
    EnvelopeIsAscii(i, sig);
    DecodeInverts(Envelope(i, sig));
    EncodeIsOctets(sig);
    PayloadIsJson(i);
    PayloadIsPlain(i);
    var json := EnvelopeJson(PayloadJson(i), Encode(sig), i.uri);
    EnvelopeIsJson(PayloadJson(i), Encode(sig), i.uri);
    EnvelopeIsPlain(PayloadJson(i), Encode(sig), i.uri);
    ParseInvertsPrint(json, "");
    assert Print(json) + "" == Print(json);
  }

  lemma {:induction false} ReadsEnvelope(session: string, i: Inputs, sig: Signature)
    ensures ReadEnvelope(session, EnvelopeJson(PayloadJson(i), Encode(sig), i.uri).members) ==
      Some(Response(session, i.sid, i.challenge, Side(i.sideA), i.uri, sig, PayloadText(i)))
  {
    hide Decode, Encode, PayloadText, Print;
    var m := EnvelopeJson(PayloadJson(i), Encode(sig), i.uri).members;
    DecodeInverts(sig);
    PayloadIsJson(i);
    GetsEnvelope(PayloadJson(i), Encode(sig), i.uri);
    GetsPayload(i);
  }

  lemma {:induction false} GetsPayload(i: Inputs)
    ensures var m := PayloadJson(i).members;
      && GetText(m, "sid") == Some(i.sid) && GetText(m, "c") == Some(i.challenge)
      && GetText(m, "side") == Some(Side(i.sideA))
  {
    var m := PayloadJson(i).members;
    assert |"sid"| == 3 && |"c"| == 1 && |"side"| == 4;
    assert Get(m.rest, "c") == Some(Text(i.challenge)) && Get(m, "c") == Get(m.rest, "c");
    assert Get(m.rest.rest, "side") == Some(Text(Side(i.sideA)));
    assert Get(m.rest, "side") == Get(m.rest.rest, "side");
  }

  lemma {:induction false} GetsEnvelope(payload: Value, sig64: string, uri: string)
    ensures var m := EnvelopeJson(payload, sig64, uri).members;
      && Get(m, "p") == Some(payload) && GetText(m, "s") == Some(sig64)
      && GetText(m, "ha") == Some("sha256") && GetText(m, "sa") == Some("rsa2048") && GetText(m, "sk") == Some(uri)
  {
    var m := EnvelopeJson(payload, sig64, uri).members;
    var ha := m.rest.rest;
    assert "p"[0] != "s"[0] && Get(m.rest, "s") == Some(Text(sig64)) && Get(m, "s") == Get(m.rest, "s");
    assert Get(ha.rest.rest, "sk") == Some(Text(uri));
    assert Get(ha.rest, "sk") == Get(ha.rest.rest, "sk") && Get(ha.rest, "sa") == Some(Text("rsa2048"));
    assert Get(ha, "sk") == Get(ha.rest, "sk") && Get(ha, "sa") == Get(ha.rest, "sa");
    assert Get(ha, "ha") == Some(Text("sha256"));
    assert Get(m.rest, "sk") == Get(ha, "sk");
    assert Get(m.rest, "sa") == Get(ha, "sa") && Get(m.rest, "ha") == Get(ha, "ha");
  }

  lemma {:induction false} ReadsOuter(i: Inputs, sig: Signature, c: CtrStream.Cipher)
    requires Safe(i)
    ensures var m := ReadObject(Outer(i, sig, c));
      m.Some? && GetOctets(m.value, "iv") == Some(i.iv) && GetOctets(m.value, "e") == Some(Ciphertext(i, sig, c))
  {
    hide Decode, Encode, Print, ParseValue, OuterText, Ciphertext;
    var e := Ciphertext(i, sig, c);
    EncodeIsOctets(i.iv);
    EncodeIsOctets(e);
    DecodeInverts(i.iv);
    DecodeInverts(e);
    var json := OuterJson(Encode(i.iv), Encode(e));
    OuterIsJson(Encode(i.iv), Encode(e));
    OuterIsPlain(Encode(i.iv), Encode(e));
    ParseInvertsPrint(json, "");
    assert Print(json) + "" == Print(json);
    assert Get(json.members.rest, "e") == Some(Text(Encode(e)));
  }

  lemma {:induction false} SplitsAtLastColon(sid: string, payload64: string)
    requires AllPlain(payload64) && ':' !in payload64
    ensures var line := sid + ":" + payload64;
      && Strings.FindLast(line, ':') == |sid| && line[..|sid|] == sid && line[|sid| + 1..] == payload64
  {
    var line := sid + ":" + payload64;
    assert line[|sid| + 1..] == payload64;
    Strings.FindLastIs(line, |sid|, ':');
  }

  /** The relay, with the same key, reads back just what went into the line, and the text that was signed. */
  lemma {:induction false} LineReadsBack(i: Inputs, sig: Signature, c: CtrStream.Cipher)
    requires Safe(i)
    ensures ReadLine(Line(i, sig, c), c) ==
      Some(Response(i.sid, i.sid, i.challenge, if i.sideA then "a" else "b", i.uri, sig, PayloadText(i)))
  {
    hide Decode, Encode, Outer, ReadObject, GetOctets;
    hide ReadCiphertext, ReadEnvelope, Ciphertext, EnvelopeJson, PayloadText;
    var outer := Outer(i, sig, c);
    EncodeIsOctets(outer);
    EncodeIsPlain(outer);
    assert ':' !in Encode(outer) by {
      assert !Encoded(':');
    }
    SplitsAtLastColon(i.sid, Encode(outer));
    DecodeInverts(outer);
    ReadsOuter(i, sig, c);
    ReadsCiphertext(i, sig, c);
    ReadsEnvelope(i.sid, i, sig);
  }

  // ---- Building it ----

  /** A number without its leading zero octets. */
  function Significant(n: string): (r: string)
    ensures r == "" || r[0] != NUL
  {
    if n != "" && n[0] == NUL then Significant(n[1..]) else n
  }

  /** The line that is built: the only limit that matters is that on the whole line. */
  function Built(i: Inputs, lib: Library): Option<string> {
    if !Safe(i) || |Significant(i.modulus)| != SIG_BYTES then None
    else
      var sig, key := lib.sign(PayloadText(i)), Decode(i.key64);
      if sig == None || key == None || |key.value| != KEY_BYTES then None
      else
        var line := Line(i, sig.value, lib.aes(key.value));
        if |line| < MAX_LINE then Some(line) else None
  }

  /** The number without its leading zeros is what is left of it. */
  lemma {:induction false} SignificantIsRest(n: string)
    ensures |Significant(n)| <= |n| && Significant(n) == n[|n| - |Significant(n)|..]
    ensures forall i :: 0 <= i < |n| - |Significant(n)| ==> n[i] == NUL
  {
    if n != "" && n[0] == NUL {
      SignificantIsRest(n[1..]);
      assert forall i :: 1 <= i < |n| ==> n[i] == n[1..][i - 1];
    }
  }

  /**
   A line comes of it exactly when the texts need no escape, the key's modulus is of 256 octets, a signature is made,
   the other key decodes to 32 octets and the whole line is below 4096 characters.
   */
  lemma {:induction false} BuiltExactly(i: Inputs, lib: Library)
    ensures Built(i, lib).Some? <==>
      && AllPlain(i.sid) && AllPlain(i.challenge) && AllPlain(i.uri)
      && |Significant(i.modulus)| == 256
      && lib.sign(PayloadText(i)).Some?
      && Decode(i.key64).Some? && |Decode(i.key64).value| == 32
      && |Line(i, lib.sign(PayloadText(i)).value, lib.aes(Decode(i.key64).value))| < 4096
  {
    hide Line, PayloadText, Decode, Significant, AllPlain;
  }

  /** A line that says, to one with the key, just what went in, over the signature of the text it was made on. */
  predicate ReadsBack(i: Inputs, lib: Library, line: string) {
    var key, sig := Decode(i.key64), lib.sign(PayloadText(i));
    && key.Some? && sig.Some?
    && ReadLine(line, lib.aes(key.value)) ==
      Some(Response(i.sid, i.sid, i.challenge, if i.sideA then "a" else "b", i.uri, sig.value, PayloadText(i)))
  }

  /** What is built reads back. */
  lemma {:induction false} BuiltReadsBack(i: Inputs, lib: Library)
    ensures Built(i, lib).Some? ==> ReadsBack(i, lib, Built(i, lib).value)
  {
    hide Line, ReadLine, PayloadText, Decode;
    if Built(i, lib).Some? {
      LineReadsBack(i, lib.sign(PayloadText(i)).value, lib.aes(Decode(i.key64).value));
    }
  }

  /** Every layer is shorter than the next, by enough for an encoder that wants one more. */
  lemma {:induction false} LayersGrow(i: Inputs, sig: Signature, c: CtrStream.Cipher)
    requires Safe(i)
    ensures |PayloadText(i)| < |Envelope(i, sig)| < |Envelope64(i, sig)| < |Ciphertext(i, sig, c)|
    ensures |Ciphertext(i, sig, c)| < |Encode(Ciphertext(i, sig, c))| < |Outer(i, sig, c)|
    ensures |Outer(i, sig, c)| < |Encode(Outer(i, sig, c))| < |Line(i, sig, c)|
  {}

  /** Whether a string can be embedded in JSON as it is. */
  method JsonSafe(s: string) returns (safe: bool)
    ensures safe == AllPlain(s)
    ensures safe <==> forall i :: 0 <= i < |s| ==> 32 <= s[i] as int < 127 && s[i] != '"' && s[i] != '\\'
  {
    for k := 0 to |s|
      invariant AllPlain(s[..k])
    {
      if (s[k] as int) < 32 || s[k] as int > 126 || s[k] == '"' || s[k] == '\\' {
        return false;
      }
    }
    assert s[..|s|] == s;
    safe := true;
  }

  /** The number of octets of a number without its leading zeros. */
  method SignificantLength(n: string) returns (len: nat)
    ensures len == |Significant(n)|
  {
    var k := 0;
    len := |n|;
    assert n[0..] == n;
    while len > 0 && n[k] == NUL
      invariant k + len == |n| && Significant(n) == Significant(n[k..])
    {
      assert n[k..][1..] == n[k + 1..];
      k, len := k + 1, len - 1;
    }
  }

  /** Formats text into a buffer of its own, with a terminator; nothing when it is cut short. */
  method FormatInto(size: nat, text: string) returns (r: Option<string>)
    requires size > 0
    ensures r == if |text| < size then Some(text) else None
  {
    var buffer := new char[size];
    var n := 0;
    while n < |text| && n < size - 1
      invariant 0 <= n <= |text| && n <= size - 1 && buffer[..n] == text[..n]
    {
      buffer[n] := text[n];
      n := n + 1;
    }
    buffer[n] := NUL;
    assert n == |text| ==> text[..n] == text;
    r := if |text| >= size then None else Some(buffer[..n]);
  }

  /** Encodes octets into a buffer of their own, with a terminator, if they fit. */
  method EncodeInto(size: nat, src: string, slack: nat) returns (r: Option<string>)
    requires size > 0 && Octets(src)
    ensures r == if |Encode(src)| + slack <= size - 1 then Some(Encode(src)) else None
  {
    var text := Encode(src);
    if |text| + slack > size - 1 {
      return None;
    }
    var dst := new char[size];
    for k := 0 to |text|
      invariant dst[..k] == text[..k]
    {
      dst[k] := text[k];
    }
    dst[|text|] := NUL;
    assert text[..|text|] == text;
    r := Some(dst[..|text|]);
  }

  /** Pads text into a buffer with room for one block more. */
  method PadInto(s: string) returns (r: string)
    requires |s| < MAX_LINE
    ensures r == Padded(s)
  {
    var padded := new char[MAX_LINE + BLOCK];
    var pad := BLOCK - |s| % BLOCK;
    for k := 0 to |s|
      invariant padded[..k] == s[..k]
    {
      padded[k] := s[k];
    }
    for k := 0 to pad
      invariant padded[..|s|] == s
      invariant forall j :: |s| <= j < |s| + k ==> padded[j] == pad as char
    {
      padded[|s| + k] := pad as char;
    }
    r := padded[..|s| + pad];
  }

  /** Encrypts padded text, in buffers of the same size. */
  method EncryptInto(c: CtrStream.Cipher, iv: Iv, s: string) returns (r: string)
    requires Octets(s) && |s| <= MAX_LINE + BLOCK
    ensures r == Encrypted(c, iv, s)
  {
    hide BigEndian;
    var padded, encrypted := new bv8[MAX_LINE + BLOCK], new bv8[MAX_LINE + BLOCK];
    for k := 0 to |s|
      invariant padded[..k] == ToBytes(s)[..k]
    {
      padded[k] := s[k] as int as bv8;
    }
    assert padded[..|s|] == ToBytes(s);
    var transformer := new CtrStream.Transformer(c, BigEndian(iv));
    transformer.Transform(|s|, padded, encrypted);
    r := FromBytes(encrypted[..|s|]);
  }

  /** Pads, encrypts and wraps the base64 of an envelope; nothing when a buffer is too small. */
  method Wrap(i: Inputs, sig: Signature, c: CtrStream.Cipher, slack: nat) returns (r: Option<string>)
    requires Safe(i) && slack <= 1 && |Envelope64(i, sig)| < MAX_LINE
    ensures r.Some? ==> r.value == Encode(Outer(i, sig, c))
    ensures r == None ==> |Line(i, sig, c)| >= MAX_LINE
  {
    hide Encode, Padded, Encrypted, Envelope64, PayloadText, OuterText;
    LayersGrow(i, sig, c);
    EncodeIsOctets(i.iv);
    PaddedIsOctets(Envelope64(i, sig));
    var padded := PadInto(Envelope64(i, sig));
    var encrypted := EncryptInto(c, i.iv, padded);
    var iv64 := EncodeInto(IV_BUFFER, i.iv, slack);
    var enc64 := EncodeInto(MAX_LINE, encrypted, slack);
    if iv64 == None || enc64 == None {
      return None;
    }
    var outer := FormatInto(MAX_LINE, OuterText(iv64.value, enc64.value));
    if outer == None {
      return None;
    }
    r := EncodeInto(MAX_LINE, outer.value, slack);
  }

  /**
   Builds the line; memory says whether there is any for it, and an encoder may want one character more than
   its text.
   */
  method BuildResponse(i: Inputs, lib: Library, memory: bool) returns (line: Option<string>)
    requires lib.slack <= 1
    ensures line == if memory then Built(i, lib) else None
  {
    hide Encode, Decode, Outer, Significant, PayloadText, EnvelopeText;
    var sidSafe := JsonSafe(i.sid);
    var challengeSafe := JsonSafe(i.challenge);
    var uriSafe := JsonSafe(i.uri);
    if !sidSafe || !challengeSafe || !uriSafe {
      return None;
    }
    var p := FormatInto(MAX_LINE, PayloadText(i));
    var n := SignificantLength(i.modulus);
    if p == None || n != SIG_BYTES {
      TooLong(i, lib);
      return None;
    }
    var sig := lib.sign(p.value);
    if sig == None {
      return None;
    }
    var sig64 := EncodeInto(SIG_BUFFER, sig.value, lib.slack);
    EnvelopeIsAscii(i, sig.value);
    var env := FormatInto(MAX_LINE, EnvelopeText(p.value, sig64.value, i.uri));
    if env == None {
      TooLong(i, lib);
      return None;
    }
    var env64 := EncodeInto(MAX_LINE, env.value, lib.slack);
    if env64 == None {
      TooLong(i, lib);
      return None;
    }
    var key := Decode(i.key64);
    if key == None || |key.value| != KEY_BYTES {
      return None;
    }
    var payload64 := Wrap(i, sig.value, lib.aes(key.value), lib.slack);
    if payload64 == None || !memory {
      return None;
    }
    var text := i.sid + ":" + payload64.value;
    line := if |text| > MAX_LINE - 1 then None else Some(text);
  }

  /** A layer that doesn't fit its buffer means a line that is over the limit. */
  lemma {:induction false} TooLong(i: Inputs, lib: Library)
    requires Safe(i) && lib.slack <= 1
    ensures Built(i, lib).Some? ==>
      var sig := lib.sign(PayloadText(i)).value;
      && |PayloadText(i)| < MAX_LINE && |Envelope(i, sig)| < MAX_LINE
      && |Envelope64(i, sig)| + lib.slack < MAX_LINE
  {}
}
