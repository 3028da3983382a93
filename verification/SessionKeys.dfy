/** The transformers of a session, made from the base64 of its keys and ivs. */
module SessionKeys {
  import opened Wrappers
  import opened Base64
  import opened Chunks
  import opened CtrStream

  const KEY_BYTES: nat := 32

  type Iv = s: string | |s| == 16 && Octets(s) witness seq(16, _ => '\0')

  /** An iv read as the first counter, its first octet the most significant. */
  function BigEndian(s: string): nat
    requires Octets(s)
  {
    if s == "" then 0 else BigEndian(s[..|s| - 1]) * 256 + s[|s| - 1] as int
  }

  lemma {:induction false} BigEndianIsCounter(s: string, n: nat)
    requires Octets(s) && |s| == n <= 16
    ensures BigEndian(s) < Power256(n)
  {
    if n > 0 {
      BigEndianIsCounter(s[..n - 1], n - 1);
    }
  }

  function Power256(n: nat): nat {
    if n == 0 then 1 else 256 * Power256(n - 1)
  }

  lemma {:induction false} PowersGrow(n: nat)
    ensures Power256(n) > 0 && Power256(n + 1) == 256 * Power256(n)
  {
    if n > 0 {
      PowersGrow(n - 1);
    }
  }

  lemma {:induction false} DigitsBelow(high: nat, low: nat, p: nat)
    requires p > 0 && low < 256
    ensures (high * 256 + low) / (256 * p) == high / p
  {
    var q, r := high / p, high % p;
    assert high * 256 + low == 256 * p * q + (256 * r + low);
    assert 256 * r + low < 256 * p;
    DivisionIs(high * 256 + low, 256 * p, q, 256 * r + low);
  }

  lemma {:induction false} DivisionIs(a: nat, d: nat, q: nat, r: nat)
    requires r < d && a == d * q + r
    ensures a / d == q
  {
    SmallMultiple(d, q - a / d);
    assert d * (q - a / d) == d * q - d * (a / d);
  }

  lemma {:induction false} SmallMultiple(d: int, x: int)
    requires d > 0
    ensures -d < d * x < d ==> x == 0
  {
    if x > 0 {
      assert d * x >= d;
    } else if x < 0 {
      assert d * x <= -d;
    }
  }

  lemma {:induction false} LowestDigit(high: nat, low: nat)
    requires low < 256
    ensures (high * 256 + low) / 1 % 256 == low
  {}

  /** Each octet of the iv is the digit of its place in the counter, the first octet's the highest. */
  lemma {:induction false} OctetIsDigit(s: string, i: nat)
    requires Octets(s) && i < |s|
    ensures Power256(|s| - 1 - i) > 0 && BigEndian(s) / Power256(|s| - 1 - i) % 256 == s[i] as int
    decreases |s|
  {
    var init, last, k := s[..|s| - 1], s[|s| - 1], |s| - 1 - i;
    var high := BigEndian(init);
    assert BigEndian(s) == high * 256 + last as int && last as int < 256;
    assert Power256(0) == 1;
    hide BigEndian, Power256;
    if k == 0 {
      LowestDigit(high, last as int);
    } else {
      OctetIsDigit(init, i);
      PowersGrow(k - 1);
      DigitsBelow(high, last as int, Power256(k - 1));
      assert init[i] == s[i];
    }
  }

  /** The next counter is that of the iv with its last octet one more, if that is an octet. */
  lemma {:induction false} LastOctetCounts(s: string, c: char)
    requires Octets(s) && s != "" && c as int == s[|s| - 1] as int + 1 < 256
    ensures Octets(s[|s| - 1 := c]) && BigEndian(s[|s| - 1 := c]) == BigEndian(s) + 1
  {
    assert s[|s| - 1 := c][..|s| - 1] == s[..|s| - 1];
  }

  lemma {:induction false} CountersFit()
    ensures Power256(16) == CtrStream.COUNTERS
  {
    assert Power256(4) == 0x1_0000_0000;
    assert Power256(8) == 0x1_0000_0000 * Power256(4);
    assert Power256(12) == 0x1_0000_0000 * Power256(8);
  }

  /** A transformer in its first state, if the key and the iv are of the right sizes. */
  function Created(key64: string, iv64: string, aes: string -> Cipher): Option<Ctr> {
    var key, iv := Decode(key64), Decode(iv64);
    if key == None || |key.value| != KEY_BYTES || iv == None || |iv.value| != BLOCK_LEN then None
    else Some(Start(aes(key.value), BigEndian(iv.value)))
  }

  /** A key and its iv, as a session is given them. */
  datatype Keys = Keys(key64: string, iv64: string)

  datatype Pair = Pair(encrypter: Ctr, decrypter: Ctr)

  /** The keys of what the daemon sends: its own ones when there are two, otherwise the client's. */
  function Sending(c2d: Keys, d2c: Option<Keys>): Keys {
    if d2c.Some? then d2c.value else c2d
  }

  function CreatedPair(c2d: Keys, d2c: Option<Keys>, aes: string -> Cipher): Option<Pair> {
    var decrypter := Created(c2d.key64, c2d.iv64, aes);
    var encrypter := Created(Sending(c2d, d2c).key64, Sending(c2d, d2c).iv64, aes);
    if decrypter == None || encrypter == None then None else Some(Pair(encrypter.value, decrypter.value))
  }

  /** Exactly keys that encode 32 octets and ivs that encode 16 make a transformer, with that key and first counter. */
  lemma {:induction false} CreatedFromEncoded(key: string, iv: string, aes: string -> Cipher)
    requires Octets(key) && Octets(iv)
    ensures Created(Encode(key), Encode(iv), aes).Some? <==> |key| == KEY_BYTES && |iv| == BLOCK_LEN
    ensures |key| == KEY_BYTES && |iv| == BLOCK_LEN ==>
      Created(Encode(key), Encode(iv), aes) == Some(Ctr(aes(key), BigEndian(iv), ZERO_BLOCK, 0))
  {
    DecodeInverts(key);
    DecodeInverts(iv);
  }

  lemma {:induction false} CreatedRecovers(
    key64: string, iv64: string, aes: string -> Cipher, sent: seq<seq<Byte>>, received: seq<seq<Byte>>)
    requires Created(key64, iv64, aes).Some?
    requires Flatten(received) == CryptAll(Created(key64, iv64, aes).value, sent).1
    ensures CryptAll(Created(key64, iv64, aes).value, received).1 == Flatten(sent)
  {
    var iv := Decode(iv64).value;
    BigEndianIsCounter(iv, 16);
    CountersFit();
    hide BigEndian, Power256;
    PeerRecovers(aes(Decode(key64).value), BigEndian(iv), sent, received);
  }

  /**
   A client that makes its transformers from the same texts the daemon does understands it, and is understood, in
   both directions, with one key or two, whatever chunks each end reads and writes.
   */
  lemma {:induction false} SessionRecovers(
    c2d: Keys, d2c: Option<Keys>, aes: string -> Cipher, up: seq<seq<Byte>>, upRead: seq<seq<Byte>>,
    down: seq<seq<Byte>>, downRead: seq<seq<Byte>>)
    requires CreatedPair(c2d, d2c, aes).Some?
    requires Flatten(upRead) == CryptAll(Created(c2d.key64, c2d.iv64, aes).value, up).1
    requires Flatten(downRead) == CryptAll(CreatedPair(c2d, d2c, aes).value.encrypter, down).1
    ensures CryptAll(CreatedPair(c2d, d2c, aes).value.decrypter, upRead).1 == Flatten(up)
    ensures var keys := if d2c.Some? then d2c.value else c2d;
      CryptAll(Created(keys.key64, keys.iv64, aes).value, downRead).1 == Flatten(down)
  {
    hide Created;
    CreatedRecovers(c2d.key64, c2d.iv64, aes, up, upRead);
    var keys := Sending(c2d, d2c);
    CreatedRecovers(keys.key64, keys.iv64, aes, down, downRead);
  }

  /** Sets up a transformer; nothing when a text doesn't decode to the right size. */
  method CreateTransformer(key64: string, iv64: string, aes: string -> Cipher) returns (t: Transformer?)
    ensures t != null <==> Created(key64, iv64, aes).Some?
    ensures t != null ==> fresh(t) && t.Valid() && t.View() == Created(key64, iv64, aes).value
  {
    hide BigEndian, Decode;
    var key := Decode(key64);
    if key == None || |key.value| != KEY_BYTES {
      return null;
    }
    var iv := Decode(iv64);
    if iv == None || |iv.value| != BLOCK_LEN {
      return null;
    }
    t := new Transformer(aes(key.value), BigEndian(iv.value));
  }

  /** Sets up both transformers of a session, or neither. */
  method CreateEncrypterAndDecrypter(c2d: Keys, d2c: Option<Keys>, aes: string -> Cipher)
    returns (encrypter: Transformer?, decrypter: Transformer?)
    ensures encrypter != null && decrypter != null <==> CreatedPair(c2d, d2c, aes).Some?
    ensures encrypter == null <==> decrypter == null
    ensures encrypter != null ==>
      && encrypter.Valid() && decrypter.Valid() && encrypter != decrypter
      && Pair(encrypter.View(), decrypter.View()) == CreatedPair(c2d, d2c, aes).value
  {
    hide Created;
    decrypter := CreateTransformer(c2d.key64, c2d.iv64, aes);
    if decrypter == null {
      return null, null;
    }
    if d2c.Some? {
      encrypter := CreateTransformer(d2c.value.key64, d2c.value.iv64, aes);
    } else {
      encrypter := CreateTransformer(c2d.key64, c2d.iv64, aes);
    }
    if encrypter == null {
      decrypter := null;
    }
  }
}
