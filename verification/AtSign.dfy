/** The canonical form of an atSign: one leading '@', lower case, no dots. */
module AtSign {
  import opened Wrappers

  const RESERVED: string := "!*'`();:&=+$,/?#[]{}"
  const BUFFER_LEN: nat := 57

  /** A character no atSign may hold past its leading '@'. */
  predicate Forbidden(c: char) {
    c == '@' || c as int <= 0x20 || c as int == 0x7F || c in RESERVED
  }

  function Lower(c: char): char {
    if 'A' <= c <= 'Z' then (c as int + 32) as char else c
  }

  /** What is kept of the characters after the leading '@'. */
  function Kept(s: string): (r: string)
    ensures |r| <= |s|
  {
    if s == [] then []
    else Kept(s[..|s| - 1]) + if s[|s| - 1] == '.' then [] else [Lower(s[|s| - 1])]
  }

  function Body(s: string): string {
    if s != [] && s[0] == '@' then s[1..] else s
  }

  /** The canonical form, when it is a string that fits in a buffer of len characters with its terminator. */
  function Normalized(s: string, len: nat): Option<string> {
    if len < 2 || (exists i :: 0 <= i < |Body(s)| && Forbidden(Body(s)[i])) then None
    else if 1 <= |Kept(Body(s))| <= len - 2 then Some("@" + Kept(Body(s)))
    else None
  }

  /** Whether two atSigns are the same but for a leading '@'. */
  predicate SamePlain(a: string, b: string) {
    Body(a) == Body(b)
  }

  predicate Canonical(s: string) {
    && |s| >= 2 && s[0] == '@'
    && forall i :: 1 <= i < |s| ==> !Forbidden(s[i]) && s[i] != '.' && Lower(s[i]) == s[i]
  }

  lemma {:induction false} KeptIsCanonical(s: string)
    requires forall i :: 0 <= i < |s| ==> !Forbidden(s[i])
    ensures forall i :: 0 <= i < |Kept(s)| ==>
      !Forbidden(Kept(s)[i]) && Kept(s)[i] != '.' && Lower(Kept(s)[i]) == Kept(s)[i]
  {
    if s != [] {
      KeptIsCanonical(s[..|s| - 1]);
      LowerIsFine(s[|s| - 1]);
    }
  }

  lemma {:induction false} LowerIsFine(c: char)
    ensures Lower(Lower(c)) == Lower(c)
    ensures !Forbidden(c) ==> !Forbidden(Lower(c))
    ensures c != '.' ==> Lower(c) != '.'
  {}

  lemma {:induction false} KeptOfCanonical(s: string)
    requires forall i :: 0 <= i < |s| ==> s[i] != '.' && Lower(s[i]) == s[i]
    ensures Kept(s) == s
  {
    if s != [] {
      KeptOfCanonical(s[..|s| - 1]);
    }
  }

  /** A canonical form is canonical, fits the buffer with its terminator, and is its own canonical form. */
  lemma {:induction false} NormalizedIsCanonical(s: string, len: nat)
    requires Normalized(s, len).Some?
    ensures var n := Normalized(s, len).value;
      Canonical(n) && |n| + 1 <= len && Normalized(n, len) == Some(n)
  {
    var n := Normalized(s, len).value;
    KeptIsCanonical(Body(s));
    assert Body(n) == Kept(Body(s));
    KeptOfCanonical(Body(n));
  }

  // ---- Which canonical form it is ----

  function Undotted(s: string): (r: string)
    ensures |r| <= |s|
  {
    if s == [] then [] else Undotted(s[..|s| - 1]) + if s[|s| - 1] == '.' then [] else [s[|s| - 1]]
  }

  /** The same character, or the same letter in the other case. */
  predicate Alike(c: char, d: char) {
    || c == d
    || ('A' <= c <= 'Z' && 'a' <= d <= 'z' && c as int - 'A' as int == d as int - 'a' as int)
    || ('A' <= d <= 'Z' && 'a' <= c <= 'z' && d as int - 'A' as int == c as int - 'a' as int)
  }

  lemma {:induction false} KeptIsLowered(s: string)
    ensures |Kept(s)| == |Undotted(s)|
    ensures forall i :: 0 <= i < |Kept(s)| ==> Kept(s)[i] == Lower(Undotted(s)[i])
  {
    if s != [] {
      KeptIsLowered(s[..|s| - 1]);
    }
  }

  /** The canonical form has each character but the dots, in order, in lower case if it is a letter. */
  lemma {:induction false} FormKeepsLetters(s: string, len: nat)
    requires Normalized(s, len).Some?
    ensures var n, u := Normalized(s, len).value, Undotted(Body(s));
      |n| == |u| + 1 && n[0] == '@' && forall i :: 0 <= i < |u| ==> Alike(n[i + 1], u[i]) && !('A' <= n[i + 1] <= 'Z')
  {
    KeptIsLowered(Body(s));
    hide Body, Kept, Undotted, Forbidden;
    var n := Normalized(s, len).value;
    assert forall i :: 0 <= i < |n| - 1 ==> n[i + 1] == Kept(Body(s))[i];
  }

  predicate AllAlike(a: string, b: string) {
    |a| == |b| && forall i :: 0 <= i < |a| ==> Alike(a[i], b[i])
  }

  /** Two atSigns have the same form exactly when they differ in case, dots and a leading '@' only. */
  lemma {:induction false} SameFormExactly(a: string, b: string, len: nat)
    requires Normalized(a, len).Some? && Normalized(b, len).Some?
    ensures Normalized(a, len) == Normalized(b, len) <==> AllAlike(Undotted(Body(a)), Undotted(Body(b)))
  {
    var k, l := Kept(Body(a)), Kept(Body(b));
    var u, v := Undotted(Body(a)), Undotted(Body(b));
    KeptIsLowered(Body(a));
    KeptIsLowered(Body(b));
    assert Normalized(a, len) == Normalized(b, len) <==> k == l by {
      assert ("@" + k)[1..] == k && ("@" + l)[1..] == l;
    }
    hide Body, Kept, Undotted, Normalized;
    assert forall c, d :: Lower(c) == Lower(d) <==> Alike(c, d);
    if AllAlike(u, v) {
      assert forall i :: 0 <= i < |k| ==> k[i] == l[i];
    }
  }

  /** A character that an atSign may have after its leading '@'. */
  predicate Permissible(c: char) {
    c as int > 32 && c as int != 127 && c !in "@!*'`();:&=+$,/?#[]{}"
  }

  /** There is a canonical form exactly when all characters are allowed and those that aren't dots fit, and are any. */
  lemma {:induction false} FormExistsExactly(s: string, len: nat)
    ensures Normalized(s, len).Some? <==>
      && (forall i :: 0 <= i < |Body(s)| ==> Permissible(Body(s)[i]))
      && 1 <= |Undotted(Body(s))| <= len - 2
  {
    KeptIsLowered(Body(s));
    hide Body, Kept, Undotted;
    assert forall c :: Forbidden(c) <==> !Permissible(c);
    hide Forbidden, Permissible;
  }

  /**
   Writes what is kept of body to out, from position 1 on; ok is false at a character that is forbidden or too
   many.
   */
  method WriteKept(body: string, out: array<char>) returns (o: nat, ok: bool, ghost bad: nat)
    requires out.Length >= 2
    modifies out
    ensures o <= out.Length && out[0] == old(out[0])
    ensures ok ==>
      && (forall j :: 0 <= j < |body| ==> !Forbidden(body[j]))
      && o == |Kept(body)| + 1 <= out.Length - 1 && out[1..o] == Kept(body)
    ensures !ok ==> bad < |body| && (Forbidden(body[bad]) || |Kept(body[..bad + 1])| > out.Length - 2)
  {
    assert Kept(body[..0]) == [];
    hide Forbidden, Lower, Kept;
    o, ok, bad := 1, false, 0;
    for i := 0 to |body|
      invariant o == |Kept(body[..i])| + 1 <= out.Length - 1
      invariant out[0] == old(out[0]) && out[1..o] == Kept(body[..i])
      invariant forall j :: 0 <= j < i ==> !Forbidden(body[j])
    {
      KeptStep(body, i);
      bad := i;
      if Forbidden(body[i]) {
        return;
      }
      if body[i] == '.' {
        continue;
      }
      if o + 1 >= out.Length {
        return;
      }
      out[o] := Lower(body[i]);
      o := o + 1;
    }
    assert body[..|body|] == body;
    ok := true;
  }

  /** Writes the canonical form of input to out, one character at a time; n is its length, or 0 when there is none. */
  method Normalize(input: string, out: array<char>) returns (n: nat)
    modifies out
    ensures n == match Normalized(input, out.Length) case None => 0 case Some(s) => |s|
    ensures n > 0 ==> n < out.Length && out[..n] == Normalized(input, out.Length).value && out[n] == '\0'
  {
    if out.Length < 2 || |input| == 0 {
      return 0;
    }
    var body := Body(input);
    hide Normalized, Forbidden, Body, Kept;
    out[0] := '@';
    var o, ok, bad := WriteKept(body, out);
    if !ok {
      NotNormalized(input, out.Length, bad);
      return 0;
    }
    NormalizedIs(input, out.Length);
    if o == 1 {
      return 0;
    }
    out[o] := '\0';
    assert out[..o] == "@" + out[1..o];
    n := o;
  }

  lemma {:induction false} KeptStep(s: string, k: nat)
    requires k < |s|
    ensures Kept(s[..k + 1]) == Kept(s[..k]) + if s[k] == '.' then [] else [Lower(s[k])]
  {
    assert s[..k + 1][..k] == s[..k];
  }

  lemma {:induction false} NotNormalized(s: string, len: nat, k: nat)
    requires k < |Body(s)|
    requires Forbidden(Body(s)[k]) || |Kept(Body(s)[..k + 1])| > len - 2
    ensures Normalized(s, len) == None
  {
    KeptGrows(Body(s), k + 1);
  }

  lemma {:induction false} NormalizedIs(s: string, len: nat)
    requires len >= 2 && forall i :: 0 <= i < |Body(s)| ==> !Forbidden(Body(s)[i])
    ensures Normalized(s, len) == if 1 <= |Kept(Body(s))| <= len - 2 then Some("@" + Kept(Body(s))) else None
  {}

  lemma {:induction false} KeptGrows(s: string, k: nat)
    requires k <= |s|
    ensures |Kept(s[..k])| <= |Kept(s)|
    decreases |s|
  {
    if k < |s| {
      KeptGrows(s[..|s| - 1], k);
      assert s[..|s| - 1][..k] == s[..k];
    } else {
      assert s[..k] == s;
    }
  }
}
