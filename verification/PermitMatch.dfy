/**
 Whether a host and port may be opened: by the daemon's own list of entries, by the policy service's list of
 rules as the daemon reads it, and by that list as the ESP32 reads it.
 */
module PermitMatch {
  import opened Wrappers
  import opened Text
  import opened PermitOpen

  const HOST_BUFFER: nat := 128

  predicate HostPermits(rule: string, host: string) {
    rule == "*" || rule == host
  }

  predicate EntryPermits(e: Entry, host: string, port: nat) {
    HostPermits(e.host, host) && (e.port == 0 || e.port == port)
  }

  /** Some entry of the list is for the host and the port, or for any. */
  predicate Permits(list: seq<Entry>, host: string, port: nat) {
    exists i :: 0 <= i < |list| && EntryPermits(list[i], host, port)
  }

  /** A rule is split at its last colon; its port is read by read. */
  predicate RulePermits(rule: string, host: string, port: nat, read: string -> Option<nat>) {
    var colon := FindLast(rule, ':');
    && colon < |rule|
    && HostPermits(rule[..colon], host)
    && (rule[colon + 1..] == "*" || read(rule[colon + 1..]) == Some(port))
  }

  predicate PolicyPermits(rules: seq<string>, host: string, port: nat) {
    exists i :: 0 <= i < |rules| && RulePermits(rules[i], host, port, UnsignedPort)
  }

  /** The ESP32 skips a rule whose host doesn't fit its buffer. */
  predicate EspRulePermits(rule: string, host: string, port: nat) {
    FindLast(rule, ':') < HOST_BUFFER && RulePermits(rule, host, port, SignedPort)
  }

  predicate EspPermits(rules: seq<string>, host: string, port: nat) {
    exists i :: 0 <= i < |rules| && EspRulePermits(rules[i], host, port)
  }

  method ShouldPermitOpen(list: seq<Entry>, host: string, port: nat) returns (permitted: bool)
    ensures permitted == Permits(list, host, port)
  {
    for i := 0 to |list|
      invariant forall j :: 0 <= j < i ==>
        !EntryPermits(list[j], host, port)
    {
      if list[i].port == 0 || list[i].port == port {
        if |list[i].host| >= 1 && list[i].host[0] == '*' && |list[i].host| == 1 {
          return true;
        }
        if list[i].host == host {
          return true;
        }
      }
    }
    permitted := false;
  }

  method PolicyPermitsOpen(rules: seq<string>, host: string, port: nat) returns (permitted: bool)
    ensures permitted == PolicyPermits(rules, host, port)
  {
    hide UnsignedPort;
    for i := 0 to |rules|
      invariant forall j :: 0 <= j < i ==> !RulePermits(rules[j], host, port, UnsignedPort)
    {
      var rule := rules[i];
      var colon := FindLast(rule, ':');
      if colon == |rule| {
        continue;
      }
      var hostMatches := (colon == 1 && rule[0] == '*') || (|host| == colon && rule[..colon] == host);
      var portText := rule[colon + 1..];
      var portMatches := portText == "*";
      if !portMatches {
        var read := UnsignedPort(portText);
        if read == None {
          continue;
        }
        portMatches := read.value == port;
      }
      if hostMatches && portMatches {
        assert RulePermits(rules[i], host, port, UnsignedPort);
        return true;
      }
    }
    permitted := false;
  }

  method EspPermitsOpen(rules: seq<string>, host: string, port: nat) returns (permitted: bool)
    ensures permitted == EspPermits(rules, host, port)
  {
    hide SignedPort;
    permitted := false;
    var i := 0;
    while i < |rules| && !permitted
      invariant 0 <= i <= |rules|
      invariant permitted == EspPermits(rules[..i], host, port)
    {
      var more := EspRule(rules[i], host, port);
      assert rules[..i + 1][..i] == rules[..i] && rules[..i + 1][i] == rules[i];
      OneMoreRule(rules[..i], rules[i], host, port);
      assert rules[..i + 1] == rules[..i] + [rules[i]];
      permitted := more;
      i := i + 1;
    }
    if permitted {
      assert rules[..i] <= rules;
    } else {
      assert rules[..i] == rules;
    }
  }

  lemma {:induction false} OneMoreRule(rules: seq<string>, rule: string, host: string, port: nat)
    ensures EspPermits(rules + [rule], host, port) <==>
      EspPermits(rules, host, port) || EspRulePermits(rule, host, port)
  {
    var more := rules + [rule];
    assert more[|rules|] == rule && forall i :: 0 <= i < |rules| ==> more[i] == rules[i];
  }

  method EspRule(rule: string, host: string, port: nat) returns (permitted: bool)
    ensures permitted == EspRulePermits(rule, host, port)
  {
    hide SignedPort;
    var colon := FindLast(rule, ':');
    if colon == |rule| || colon >= HOST_BUFFER {
      return false;
    }
    var h, portText := rule[..colon], rule[colon + 1..];
    var wildcard := portText == "*";
    var p := if wildcard then Some(0) else SignedPort(portText);
    if p == None {
      return false;
    }
    permitted := (h == "*" || h == host) && (wildcard || p.value == port);
  }

  // ---- The three agree ----

  lemma {:induction false} LastColon(host: string, port: string)
    requires ':' !in port
    ensures FindLast(host + ":" + port, ':') == |host|
  {
    var s := host + ":" + port;
    assert s[|host| + 1..] == port;
    FindLastIs(s, |host|, ':');
  }

  /** A printed entry permits as a rule what it permits in the list. */
  lemma {:induction false} PrintedRule(e: Entry, host: string, port: nat, read: string -> Option<nat>)
    requires e.port <= MAX_PORT && (e.port > 0 ==> read(Decimal(e.port)) == Some(e.port))
    ensures RulePermits(EntryText(e), host, port, read) <==>
      EntryPermits(e, host, port)
  {
    PortTextIsPlain(e.port);
    LastColon(e.host, PortText(e.port));
    var s, colon := EntryText(e), |e.host|;
    assert s[..colon] == e.host && s[colon + 1..] == PortText(e.port);
    if e.port > 0 {
      PortOfDecimal(e.port);
    }
    hide EntryText, HostPermits, Decimal;
    assert e.port > 0 ==> PortText(e.port) != "*" && read(PortText(e.port)) == Some(e.port);
  }

  lemma {:induction false} TextAt(list: seq<Entry>, i: nat)
    requires i < |list|
    ensures Texts(list)[i] == EntryText(list[i])
  {
    if i > 0 {
      TextAt(list[1..], i - 1);
    }
  }

  /** The daemon's list and the same list sent as rules permit the same, whatever is asked for. */
  lemma {:induction false} ListAndPolicyAgree(list: seq<Entry>, host: string, port: nat)
    requires forall i :: 0 <= i < |list| ==> list[i].port <= MAX_PORT
    ensures PolicyPermits(Texts(list), host, port) <==> Permits(list, host, port)
  {
    forall i | 0 <= i < |list|
      ensures RulePermits(Texts(list)[i], host, port, UnsignedPort) <==>
        EntryPermits(list[i], host, port)
    {
      TextAt(list, i);
      if list[i].port > 0 {
        PortOfDecimal(list[i].port);
      }
      PrintedRule(list[i], host, port, UnsignedPort);
    }
  }

  function Short(list: seq<Entry>): seq<Entry> {
    if list == [] then []
    else
      var init, last := Short(list[..|list| - 1]), list[|list| - 1];
      if |last.host| < HOST_BUFFER then init + [last] else init
  }

  lemma {:induction false} PermitsMore(list: seq<Entry>, e: Entry, host: string, port: nat)
    ensures Permits(list + [e], host, port) <==> Permits(list, host, port) || EntryPermits(e, host, port)
  {
    var more := list + [e];
    assert more[|list|] == e && forall i :: 0 <= i < |list| ==> more[i] == list[i];
  }

  /** Some entry whose host isn't too long permits it. */
  predicate ShortPermit(list: seq<Entry>, host: string, port: nat) {
    exists i :: 0 <= i < |list| && |list[i].host| < HOST_BUFFER && EntryPermits(list[i], host, port)
  }

  lemma {:induction false} ShortPermits(list: seq<Entry>, host: string, port: nat)
    ensures Permits(Short(list), host, port) <==> ShortPermit(list, host, port)
    decreases |list|
  {
    if list != [] {
      var init, last := list[..|list| - 1], list[|list| - 1];
      ShortPermits(init, host, port);
      PermitsMore(Short(init), last, host, port);
      assert ShortPermit(list, host, port) <==>
        ShortPermit(init, host, port) || (|last.host| < HOST_BUFFER && EntryPermits(last, host, port)) by {
        assert list[|list| - 1] == last && forall i :: 0 <= i < |init| ==> list[i] == init[i];
      }
    }
  }

  /**
   The ESP32 permits what the list does without the entries whose hosts are too long for it: with none, the
   same.
   */
  lemma {:induction false} ListAndEspAgree(list: seq<Entry>, host: string, port: nat)
    requires forall i :: 0 <= i < |list| ==> list[i].port <= MAX_PORT
    ensures EspPermits(Texts(list), host, port) <==> Permits(Short(list), host, port)
    ensures (forall i :: 0 <= i < |list| ==> |list[i].host| < HOST_BUFFER) ==>
      (EspPermits(Texts(list), host, port) <==> Permits(list, host, port))
  {
    ShortPermits(list, host, port);
    forall i | 0 <= i < |list|
      ensures EspRulePermits(Texts(list)[i], host, port) <==>
        |list[i].host| < HOST_BUFFER && EntryPermits(list[i], host, port)
    {
      TextAt(list, i);
      PortTextIsPlain(list[i].port);
      LastColon(list[i].host, PortText(list[i].port));
      if list[i].port > 0 {
        PortOfDecimal(list[i].port);
      }
      PrintedRule(list[i], host, port, SignedPort);
    }
  }

  // ---- Which hosts and ports ----

  /** A list that names neither the host nor "*" permits nothing of it; nor does one without the port or 0. */
  lemma {:induction false} OthersPermitNothing(list: seq<Entry>, host: string, port: nat)
    ensures (forall i :: 0 <= i < |list| ==>
               (list[i].host != "*" && list[i].host != host) || (list[i].port != 0 && list[i].port != port)) <==>
      !Permits(list, host, port)
  {
    assert forall i :: 0 <= i < |list| ==>
      (EntryPermits(list[i], host, port) <==>
         (list[i].host == "*" || list[i].host == host) && (list[i].port == 0 || list[i].port == port));
    if forall i :: 0 <= i < |list| ==>
        (list[i].host != "*" && list[i].host != host) || (list[i].port != 0 && list[i].port != port) {
    } else {
      var i :| 0 <= i < |list|
        && !((list[i].host != "*" && list[i].host != host) || (list[i].port != 0 && list[i].port != port));
      assert EntryPermits(list[i], host, port);
    }
  }

  /** A single entry permits its own host and port, and "*" and 0 in their places permit any. */
  lemma {:induction false} EntryIsForItsOwn(host: string, port: nat)
    ensures Permits([Entry(host, port)], host, port) && Permits([Entry("*", port)], host, port)
    ensures Permits([Entry(host, 0)], host, port) && Permits([Entry("*", 0)], host, port)
  {
    assert EntryPermits([Entry(host, port)][0], host, port) && EntryPermits([Entry("*", port)][0], host, port);
    assert EntryPermits([Entry(host, 0)][0], host, port) && EntryPermits([Entry("*", 0)][0], host, port);
  }

  /** A rule of a host and a port is for that host, or any if it is "*", and for the port that the text is read as. */
  lemma {:induction false} RuleIsForItsOwn(h: string, p: string, host: string, port: nat)
    requires ':' !in p
    ensures RulePermits(h + ":" + p, host, port, UnsignedPort) <==>
      (h == "*" || h == host) && (p == "*" || UnsignedPort(p) == Some(port))
    ensures EspRulePermits(h + ":" + p, host, port) <==>
      |h| < HOST_BUFFER && (h == "*" || h == host) && (p == "*" || SignedPort(p) == Some(port))
  {
    LastColon(h, p);
    hide UnsignedPort, SignedPort;
    assert (h + ":" + p)[..|h|] == h && (h + ":" + p)[|h| + 1..] == p;
  }

  lemma {:induction false} DecimalIsPlain(n: nat)
    ensures ':' !in Decimal(n) && Decimal(n) != "*"
  {
    assert Digit(Decimal(n)[0]);
  }

  /** Written in decimal, just that port. */
  lemma {:induction false} DecimalRuleIsForItsOwn(h: string, n: nat, host: string, port: nat)
    requires 1 <= n <= MAX_PORT
    ensures RulePermits(h + ":" + Decimal(n), host, port, UnsignedPort) <==> (h == "*" || h == host) && n == port
    ensures EspRulePermits(h + ":" + Decimal(n), host, port) <==>
      |h| < HOST_BUFFER && (h == "*" || h == host) && n == port
  {
    DecimalIsPlain(n);
    PortOfDecimal(n);
    RuleIsForItsOwn(h, Decimal(n), host, port);
    hide UnsignedPort, SignedPort, Decimal, RulePermits, EspRulePermits;
  }

  // ---- Wildcards ----

  /** The text of a rule's port: what follows its last colon. */
  function RulePort(rule: string): string
    requires ':' in rule
  {
    rule[FindLast(rule, ':') + 1..]
  }

  /** A port of 0 is no wildcard: a rule that has it, however written, permits nothing to either reader. */
  lemma {:induction false} PortZeroPermitsNothing(rule: string, host: string, port: nat)
    requires ':' in rule && Numeric(RulePort(rule)) && Magnitude(RulePort(rule)) == 0
    ensures !RulePermits(rule, host, port, UnsignedPort) && !EspRulePermits(rule, host, port)
  {}

  lemma {:induction false} ZeroIsNumeric()
    ensures Numeric("0") && Magnitude("0") == 0
  {
    assert Unsigned(Unspaced("0")) == "0" && Value("0"[..0]) == 0;
  }

  lemma {:induction false} HostAndZeroPermitNothing(h: string, host: string, port: nat)
    ensures !RulePermits(h + ":" + "0", host, port, UnsignedPort) && !EspRulePermits(h + ":" + "0", host, port)
  {
    LastColon(h, "0");
    ZeroIsNumeric();
    hide Numeric, Magnitude, Unspaced, Unsigned;
    assert RulePort(h + ":" + "0") == "0";
    PortZeroPermitsNothing(h + ":" + "0", host, port);
  }

  /** The rule is for the host, and its port is the one wildcard. */
  predicate AnyPort(rule: string, host: string) {
    ':' in rule && HostPermits(rule[..FindLast(rule, ':')], host) && RulePort(rule) == "*"
  }

  /** A rule permits all ports of a host exactly when its port is "*"; to the ESP32, also only if its host fits. */
  lemma {:induction false} OnlyStarIsAnyPort(rule: string, host: string)
    ensures (forall port | 1 <= port <= MAX_PORT :: RulePermits(rule, host, port, UnsignedPort)) <==>
      AnyPort(rule, host)
    ensures (forall port | 1 <= port <= MAX_PORT :: EspRulePermits(rule, host, port)) <==>
      AnyPort(rule, host) && FindLast(rule, ':') < HOST_BUFFER
  {
    hide UnsignedPort, SignedPort;
    // a number is one port only
    assert RulePermits(rule, host, 1, UnsignedPort) && RulePermits(rule, host, 2, UnsignedPort) ==> AnyPort(rule, host);
    assert EspRulePermits(rule, host, 1) && EspRulePermits(rule, host, 2) ==> AnyPort(rule, host);
  }

  /**
   Of rules written by anyone, the ESP32 permits no more than the daemon, and less exactly where a host is too long
   for it or a port is a negative number that strtoul takes for a port.
   */
  lemma {:induction false} EspIsStricter(rule: string, host: string, port: nat)
    ensures EspRulePermits(rule, host, port) <==>
      && RulePermits(rule, host, port, UnsignedPort)
      && FindLast(rule, ':') < HOST_BUFFER
      && (var text := rule[FindLast(rule, ':') + 1..];
          !(Numeric(text) && Negative(Unspaced(text)) && ULONG_RANGE - MAX_PORT <= Magnitude(text) < ULONG_RANGE))
  {}
}
