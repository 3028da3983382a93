/**
 The --permit-open argument: a list of host:port entries, cut up in place by putting terminators where its
 separators are.
 */
module PermitOpen {
  import opened Wrappers
  import opened Text

  const NUL: char := '\0'

  /** A port of 0 stands for any. */
  datatype Entry = Entry(host: string, port: nat)

  predicate Quote(c: char) {
    c == '"' || c == '\''
  }

  /** s without the quotes around it. */
  function Lead(s: string): (i: nat)
    ensures i <= |s|
  {
    if s != [] && Quote(s[0]) then 1 + Lead(s[1..]) else 0
  }

  function Unquoted(s: string): string {
    var t := s[Lead(s)..];
    t[..Kept(t)]
  }

  function Kept(s: string): (i: nat)
    ensures i <= |s|
  {
    if s != [] && Quote(s[|s| - 1]) then Kept(s[..|s| - 1]) else |s|
  }

  predicate AllQuotes(s: string) {
    forall i :: 0 <= i < |s| ==> s[i] == '"' || s[i] == '\''
  }

  lemma {:induction false} LeadIsQuotes(s: string)
    ensures AllQuotes(s[..Lead(s)]) && (Lead(s) < |s| ==> s[Lead(s)] != '"' && s[Lead(s)] != '\'')
  {
    if s != [] && Quote(s[0]) {
      LeadIsQuotes(s[1..]);
      assert s[..Lead(s)] == [s[0]] + s[1..][..Lead(s[1..])];
    }
  }

  lemma {:induction false} KeptLeavesQuotes(s: string)
    ensures AllQuotes(s[Kept(s)..]) && (Kept(s) > 0 ==> s[Kept(s) - 1] != '"' && s[Kept(s) - 1] != '\'')
  {
    if s != [] && Quote(s[|s| - 1]) {
      var init := s[..|s| - 1];
      KeptLeavesQuotes(init);
      assert s[Kept(s)..] == init[Kept(init)..] + [s[|s| - 1]];
    }
  }

  /** Just the quotes at both ends are taken off, of either kind and however many. */
  lemma {:induction false} UnquotedExactly(s: string) returns (from: nat, to: nat)
    ensures from <= to <= |s| && Unquoted(s) == s[from..to] && AllQuotes(s[..from]) && AllQuotes(s[to..])
    ensures from < to ==> s[from] !in ['"', '\''] && s[to - 1] !in ['"', '\'']
  {
    from := Lead(s);
    LeadIsQuotes(s);
    var t := s[from..];
    KeptLeavesQuotes(t);
    to := from + Kept(t);
    assert t[..Kept(t)] == s[from..to] && t[Kept(t)..] == s[to..];
    hide Lead, Kept, Quote;
    assert from < to ==> t[0] == s[from] && t[Kept(t) - 1] == s[to - 1];
  }

  /** A port as it may be written. */
  function PortOf(s: string): Option<nat> {
    if s != [] && s[0] == '*' then (if |s| == 1 then Some(0) else None) else SignedPort(s)
  }

  // ---- What the list means ----

  predicate EntriesOk(entries: seq<string>) {
    forall i :: 0 <= i < |entries| ==> entries[i] == "" || Count(entries[i], ':') == 1
  }

  /** The entries that aren't empty, each a host and a port. */
  function FromEntries(entries: seq<string>): Result<seq<Entry>> {
    if entries == [] then Ok([])
    else if entries[0] == "" then FromEntries(entries[1..])
    else
      var parts, rest := Split(entries[0], ':'), FromEntries(entries[1..]);
      if |parts| != 2 || PortOf(parts[1]) == None || rest.Err? then Err
      else Ok([Entry(parts[0], PortOf(parts[1]).value)] + rest.value)
  }

  /** What an argument says: its entries, of which there must be one. */
  function Meaning(s: string): Result<seq<Entry>> {
    var r := FromEntries(Split(Unquoted(s), ','));
    if r.Ok? && r.value != [] then r else Err
  }

  // ---- What the parser makes of it ----

  /** The parts of some entries, in a row. */
  function Tokens(entries: seq<string>): seq<string> {
    if entries == [] then [] else Split(entries[0], ':') + Tokens(entries[1..])
  }

  /** The first k pairs of tokens, taken for hosts and ports. */
  function FromTokens(tokens: seq<string>, k: nat): (r: Result<seq<Entry>>)
    requires |tokens| >= 2 * k
    ensures r.Ok? ==> |r.value| == k
    decreases k
  {
    if k == 0 then Ok([])
    else
      var rest := FromTokens(tokens[2..], k - 1);
      if PortOf(tokens[1]) == None || rest.Err? then Err
      else Ok([Entry(tokens[0], PortOf(tokens[1]).value)] + rest.value)
  }

  function NonEmpty(entries: seq<string>): nat {
    if entries == [] then 0 else NonEmpty(entries[1..]) + if entries[0] == "" then 0 else 1
  }

  function Parsed(s: string): Result<seq<Entry>> {
    var entries := Split(Unquoted(s), ',');
    if !EntriesOk(entries) || NonEmpty(entries) == 0 then Err
    else
      EnoughTokens(entries);
      FromTokens(Tokens(entries), NonEmpty(entries))
  }

  lemma {:induction false} EnoughTokens(entries: seq<string>)
    requires EntriesOk(entries)
    ensures |Tokens(entries)| >= 2 * NonEmpty(entries)
  {
    if entries != [] {
      EnoughTokens(entries[1..]);
      if entries[0] != "" {
        OneColon(entries[0]);
      }
    }
  }

  lemma {:induction false} CountAround(s: string, i: nat, c: char)
    requires i < |s| && s[i] == c
    ensures Count(s, c) == Count(s[..i], c) + 1 + Count(s[i + 1..], c)
  {
    assert s == s[..i] + [c] + s[i + 1..];
    CountSplit(s[..i] + [c], s[i + 1..], c);
    CountSplit(s[..i], [c], c);
    assert Count([c], c) == Count([], c) + 1;
  }

  lemma {:induction false} OneColon(s: string)
    ensures Count(s, ':') == 1 <==> |Split(s, ':')| == 2
  {
    var i := Find(s, ':');
    CountZero(s[..i], ':');
    if i < |s| {
      var rest := s[i + 1..];
      CountAround(s, i, ':');
      CountZero(rest, ':');
      assert |Split(s, ':')| == 1 + |Split(rest, ':')|;
      assert |Split(rest, ':')| == 1 <==> Find(rest, ':') == |rest|;
      assert ':' !in rest <==> Find(rest, ':') == |rest|;
    } else {
      assert s[..i] == s;
    }
  }

  /** No empty entry is before one that isn't. */
  predicate NoGap(entries: seq<string>) {
    entries == [] || (if entries[0] == "" then NonEmpty(entries) == 0 else NoGap(entries[1..]))
  }

  lemma {:induction false} NoEntries(entries: seq<string>)
    requires NonEmpty(entries) == 0
    ensures EntriesOk(entries) && FromEntries(entries) == Ok([])
  {
    if entries != [] {
      NoEntries(entries[1..]);
    }
  }

  lemma {:induction false} WithoutGap(entries: seq<string>)
    requires EntriesOk(entries) && NoGap(entries)
    ensures |Tokens(entries)| >= 2 * NonEmpty(entries)
    ensures FromTokens(Tokens(entries), NonEmpty(entries)) == FromEntries(entries)
  {
    EnoughTokens(entries);
    if entries != [] {
      if entries[0] == "" {
        NoEntries(entries);
      } else {
        WithoutGap(entries[1..]);
        OneColon(entries[0]);
        assert Tokens(entries)[2..] == Tokens(entries[1..]);
      }
    }
  }

  lemma {:induction false} WithGap(entries: seq<string>)
    requires EntriesOk(entries) && !NoGap(entries) && FromEntries(entries).Ok?
    ensures |Tokens(entries)| >= 2 * NonEmpty(entries)
    ensures FromTokens(Tokens(entries), NonEmpty(entries)) != FromEntries(entries)
  {
    EnoughTokens(entries);
    if entries[0] == "" {
      GapFirst(entries);
    } else {
      WithGap(entries[1..]);
      OneColon(entries[0]);
      assert Tokens(entries)[2..] == Tokens(entries[1..]);
      var rest, rest' := FromTokens(Tokens(entries)[2..], NonEmpty(entries) - 1), FromEntries(entries[1..]);
      assert rest.Ok? ==> ([FromEntries(entries).value[0]] + rest.value)[1..] == rest.value;
      assert FromEntries(entries).value[1..] == rest'.value;
    }
  }

  /** An empty entry in front: its token is taken for a host, and a host for a port. */
  lemma {:induction false} GapFirst(entries: seq<string>)
    requires EntriesOk(entries) && entries != [] && entries[0] == "" && NonEmpty(entries) > 0
    requires FromEntries(entries).Ok?
    ensures |Tokens(entries)| >= 2 * NonEmpty(entries)
    ensures FromTokens(Tokens(entries), NonEmpty(entries)) != FromEntries(entries)
  {
    EnoughTokens(entries);
    var rest := entries[1..];
    assert Split("", ':') == [""];
    assert Tokens(entries)[0] == "" && Tokens(entries)[1] == Split(rest[0], ':')[0];
    assert PortOf("") == None;
    if rest[0] == "" {
      assert Tokens(entries)[1] == "";
    } else {
      OneColon(rest[0]);
      assert FromEntries(entries).value[0].host == Tokens(entries)[1];
    }
  }

  lemma {:induction false} MeantIsOk(entries: seq<string>)
    requires FromEntries(entries).Ok?
    ensures EntriesOk(entries) && |FromEntries(entries).value| == NonEmpty(entries)
  {
    if entries != [] {
      MeantIsOk(entries[1..]);
      OneColon(entries[0]);
      assert entries == [entries[0]] + entries[1..];
    }
  }

  /** The parser gives what the argument means whenever no empty entry is before one that isn't. */
  lemma {:induction false} ParsedIsMeaning(s: string)
    requires NoGap(Split(Unquoted(s), ','))
    ensures Parsed(s) == Meaning(s)
  {
    var entries := Split(Unquoted(s), ',');
    if FromEntries(entries).Ok? {
      MeantIsOk(entries);
    }
    if EntriesOk(entries) {
      WithoutGap(entries);
    }
  }

  /** And of an argument that means anything it gives that only then. */
  lemma {:induction false} ParsedIsMeaningOnlyWithoutGap(s: string)
    requires Meaning(s).Ok?
    ensures Parsed(s) == Meaning(s) <==> NoGap(Split(Unquoted(s), ','))
  {
    var entries := Split(Unquoted(s), ',');
    MeantIsOk(entries);
    if NoGap(entries) {
      ParsedIsMeaning(s);
    } else {
      WithGap(entries);
    }
  }

  predicate PairHasPort(tokens: seq<string>, i: nat) {
    2 * i + 1 < |tokens| && PortOf(tokens[2 * i + 1]).Some?
  }

  /** Of the first k pairs of tokens each second one is a port. */
  predicate PairsHavePorts(tokens: seq<string>, k: nat) {
    forall i :: 0 <= i < k ==> PairHasPort(tokens, i)
  }

  lemma {:induction false} PairsAreTaken(tokens: seq<string>, k: nat)
    requires |tokens| >= 2 * k
    ensures FromTokens(tokens, k).Ok? <==> PairsHavePorts(tokens, k)
    decreases k
  {
    if k > 0 {
      var rest := tokens[2..];
      PairsAreTaken(rest, k - 1);
      hide PortOf;
      assert PairHasPort(tokens, 0) <==> PortOf(tokens[1]).Some?;
      forall i | 0 <= i < k - 1 ensures PairHasPort(rest, i) <==> PairHasPort(tokens, i + 1) {
        assert rest[2 * i + 1] == tokens[2 * (i + 1) + 1];
      }
      hide PairHasPort;
      assert PairsHavePorts(tokens, k) <==> PairHasPort(tokens, 0) && PairsHavePorts(rest, k - 1) by {
        assert forall i :: 1 <= i < k ==> (PairHasPort(rest, i - 1) <==> PairHasPort(tokens, i));
      }
    }
  }

  /** Each entry that isn't empty has one colon, and what the walk over the tokens takes for ports are ports. */
  predicate Walkable(entries: seq<string>) {
    EntriesOk(entries) && PairsHavePorts(Tokens(entries), NonEmpty(entries))
  }

  /**
   Exactly when the parser gives what an argument means: when it has no gap; or when it means nothing, and the tokens
   taken for ports aren't all ports, so that it is refused.
   */
  lemma {:induction false} ParsedIsMeaningExactly(s: string)
    ensures var entries := Split(Unquoted(s), ',');
      Parsed(s) == Meaning(s) <==> NoGap(entries) || (Meaning(s).Err? && !Walkable(entries))
  {
    var entries := Split(Unquoted(s), ',');
    if NoGap(entries) {
      ParsedIsMeaning(s);
    } else {
      GapHasEntries(entries);
      if EntriesOk(entries) {
        EnoughTokens(entries);
        PairsAreTaken(Tokens(entries), NonEmpty(entries));
      }
      hide Split, Unquoted, NoGap, EntriesOk, FromTokens, PairsHavePorts, FromEntries;
      if Meaning(s).Ok? {
        ParsedIsMeaningOnlyWithoutGap(s);
      }
    }
  }

  lemma {:induction false} GapHasEntries(entries: seq<string>)
    requires !NoGap(entries)
    ensures NonEmpty(entries) > 0
  {
    if entries[0] != "" {
      GapHasEntries(entries[1..]);
    }
  }

  /** An argument of which the parser makes something else: an empty entry, and then a host taken for a port. */
  lemma {:induction false} GapChangesMeaning()
    ensures Meaning(",22:80") == Ok([Entry("22", 80)])
    ensures Parsed(",22:80") == Ok([Entry("", 22)])
  {
    hide Split, PortOf, EntriesOk, Unquoted, Count;
    var s := ",22:80";
    PlainIsUnquoted(s);
    SplitStep(s, 0, ',');
    assert s[1..] == "22:80" && s[..0] == "";
    SplitLast("22:80", ',');
    assert Split(s, ',') == ["", "22:80"];
    SplitExample();
    assert FromEntries(["22:80"][1..]) == Ok([]);
    assert ["", "22:80"][1..] == ["22:80"];
    assert [Entry("22", 80)] + [] == [Entry("22", 80)] && [Entry("", 22)] + [] == [Entry("", 22)];
    assert FromEntries(["", "22:80"]) == FromEntries(["22:80"]) == Ok([Entry("22", 80)]);
    MeantIsOk(["", "22:80"]);
    assert "22:80" == "22:" + "80";
    TokensAfterGap("80");
    assert FromTokens(["", "22", "80"][2..], 0) == Ok([]);
  }

  lemma {:induction false} SplitExample()
    ensures Split("22:80", ':') == ["22", "80"] && PortOf("22") == Some(22) && PortOf("80") == Some(80)
  {
    assert "22:80" == "22:" + "80";
    SplitPair("80");
    TwoDigits("80", 8, 0);
  }

  /** A malformed argument that is accepted: what is no port at all is never taken for one. */
  lemma {:induction false} GapHidesBadPort(bad: string)
    requires PortOf(bad) == None && ',' !in bad && ':' !in bad && (bad != "" ==> !Quote(bad[|bad| - 1]))
    ensures Meaning(",22:" + bad) == Err && Parsed(",22:" + bad) == Ok([Entry("", 22)])
  {
    var s, entry := ",22:" + bad, "22:" + bad;
    hide Split, PortOf, EntriesOk, Unquoted, Count, Meaning;
    PlainIsUnquoted(s);
    SplitStep(s, 0, ',');
    assert s[1..] == entry && s[..0] == "";
    SplitLast(entry, ',');
    assert Split(s, ',') == ["", entry];
    SplitPair(bad);
    assert ["", entry][1..] == [entry];
    assert FromEntries(["", entry]) == FromEntries([entry]) == Err by {
      assert |Split(entry, ':')| == 2;
    }
    TokensAfterGap(bad);
    OneColon(entry);
    assert EntriesOk(["", entry]) by {
      TwoEntriesOk(entry);
    }
    assert ["", "22", bad][2..] == [bad] && [Entry("", 22)] + [] == [Entry("", 22)];
    MeansNothing(s);
  }

  lemma {:induction false} SplitPair(bad: string)
    requires ':' !in bad
    ensures Split("22:" + bad, ':') == ["22", bad] && PortOf("22") == Some(22)
  {
    SplitStep("22:" + bad, 2, ':');
    assert ("22:" + bad)[..2] == "22" && ("22:" + bad)[3..] == bad;
    SplitLast(bad, ':');
    TwoDigits("22", 2, 2);
  }

  lemma {:induction false} TokensAfterGap(bad: string)
    requires ':' !in bad
    ensures Tokens(["", "22:" + bad]) == ["", "22", bad] && NonEmpty(["", "22:" + bad]) == 1
  {
    var entry := "22:" + bad;
    hide Split;
    SplitPair(bad);
    SplitLast("", ':');
    assert ["", entry][1..] == [entry] && [entry][1..] == [];
    assert Tokens([entry]) == ["22", bad] + Tokens([]);
    assert NonEmpty([entry]) == NonEmpty([]) + 1;
  }

  lemma {:induction false} TwoEntriesOk(entry: string)
    requires Count(entry, ':') == 1
    ensures EntriesOk(["", entry])
  {}

  lemma {:induction false} MeansNothing(s: string)
    requires FromEntries(Split(Unquoted(s), ',')) == Err
    ensures Meaning(s) == Err
  {}

  lemma {:induction false} PlainIsUnquoted(s: string)
    requires s != "" && !Quote(s[0]) && !Quote(s[|s| - 1])
    ensures Unquoted(s) == s
  {}

  lemma {:induction false} TwoDigits(s: string, tens: nat, ones: nat)
    requires |s| == 2 && tens < 10 && ones < 10 && 0 < tens
    requires s[0] as int == '0' as int + tens && s[1] as int == '0' as int + ones
    ensures PortOf(s) == Some(10 * tens + ones)
  {
    assert Unspaced(s) == s && Unsigned(s) == s;
    assert s[..1][..0] == [] && Value(s[..1]) == tens;
  }

  // ---- Printing ----

  function PortText(port: nat): string {
    if port == 0 then "*" else Decimal(port)
  }

  function EntryText(e: Entry): string {
    e.host + ":" + PortText(e.port)
  }

  /** A list as it is written. */
  function Printed(list: seq<Entry>): string {
    if list == [] then ""
    else if |list| == 1 then EntryText(list[0])
    else EntryText(list[0]) + "," + Printed(list[1..])
  }

  function Texts(list: seq<Entry>): (r: seq<string>)
    ensures |r| == |list|
  {
    if list == [] then [] else [EntryText(list[0])] + Texts(list[1..])
  }

  predicate Printable(e: Entry) {
    ',' !in e.host && ':' !in e.host && NUL !in e.host && e.port <= MAX_PORT
  }

  lemma {:induction false} PortTextIsPlain(port: nat)
    ensures PortText(port) != "" && ',' !in PortText(port) && ':' !in PortText(port) && NUL !in PortText(port)
    ensures !Quote(PortText(port)[|PortText(port)| - 1])
    ensures port <= MAX_PORT ==> PortOf(PortText(port)) == Some(port)
  {
    if 0 < port <= MAX_PORT {
      PortOfDecimal(port);
    }
    if port > 0 {
      assert AllDigits(Decimal(port));
      assert Digit(PortText(port)[|PortText(port)| - 1]);
    }
  }

  lemma {:induction false} EntryTextSplits(e: Entry)
    requires Printable(e)
    ensures Split(EntryText(e), ':') == [e.host, PortText(e.port)]
    ensures EntryText(e) != "" && ',' !in EntryText(e)
    ensures PortOf(PortText(e.port)) == Some(e.port)
  {
    PortTextIsPlain(e.port);
    var s, i := EntryText(e), |e.host|;
    assert s[..i] == e.host && s[i + 1..] == PortText(e.port);
    SplitStep(s, i, ':');
    SplitLast(PortText(e.port), ':');
  }

  lemma {:induction false} PrintedSplits(list: seq<Entry>)
    requires list != [] && forall i :: 0 <= i < |list| ==> Printable(list[i])
    ensures Split(Printed(list), ',') == Texts(list)
  {
    EntryTextSplits(list[0]);
    var s := Printed(list);
    if |list| == 1 {
      SplitLast(s, ',');
      assert list[1..] == [];
    } else {
      var i := |EntryText(list[0])|;
      assert s[..i] == EntryText(list[0]) && s[i + 1..] == Printed(list[1..]);
      SplitStep(s, i, ',');
      PrintedSplits(list[1..]);
    }
  }

  lemma {:induction false} TextsMean(list: seq<Entry>)
    requires forall i :: 0 <= i < |list| ==> Printable(list[i])
    ensures FromEntries(Texts(list)) == Ok(list) && NoGap(Texts(list))
  {
    if list != [] {
      EntryTextSplits(list[0]);
      TextsMean(list[1..]);
      assert Texts(list)[1..] == Texts(list[1..]);
      assert list == [list[0]] + list[1..];
      assert list[0] == Entry(list[0].host, list[0].port);
    }
  }

  lemma {:induction false} PrintedEndsPlain(list: seq<Entry>)
    requires list != []
    ensures Printed(list) != "" && !Quote(Printed(list)[|Printed(list)| - 1])
  {
    PortTextIsPlain(list[0].port);
    if |list| > 1 {
      PrintedEndsPlain(list[1..]);
    }
  }

  /**
   Parsing gives back every list that was printed, of hosts without separators, the first of which doesn't
   start with a quote.
   */
  lemma {:induction false} ParsingInvertsPrinting(list: seq<Entry>)
    requires list != [] && forall i :: 0 <= i < |list| ==> Printable(list[i])
    requires list[0].host == "" || !Quote(list[0].host[0])
    ensures Parsed(Printed(list)) == Ok(list)
  {
    var s := Printed(list);
    PrintedEndsPlain(list);
    assert EntryText(list[0]) <= s;
    assert s[0] == EntryText(list[0])[0];
    PlainIsUnquoted(s);
    hide Printed, Unquoted, Split, FromEntries, NoGap, Parsed;
    PrintedSplits(list);
    TextsMean(list);
    ParsedIsMeaning(s);
  }

  // ---- In place ----

  /** Separators turned into terminators. */
  function Cut(s: string): (r: string)
    ensures |r| == |s|
    ensures forall i :: 0 <= i < |s| ==> r[i] == if s[i] == ',' || s[i] == ':' then NUL else s[i]
  {
    seq(|s|, i requires 0 <= i < |s| => if s[i] == ',' || s[i] == ':' then NUL else s[i])
  }

  /**
   Whether the rest of the text is well formed, the entry it starts in having had some colons and characters
   already.
   */
  predicate ShapeOk(s: string, colons: nat, len: nat) {
    if s == [] then len == 0 || colons == 1
    else if s[0] == ',' then (len == 0 || colons == 1) && ShapeOk(s[1..], 0, 0)
    else ShapeOk(s[1..], colons + if s[0] == ':' then 1 else 0, len + 1)
  }

  lemma {:induction false} ShapeOfEntries(s: string, colons: nat, len: nat)
    ensures var entries := Split(s, ',');
      ShapeOk(s, colons, len) <==>
      (len + |entries[0]| == 0 || colons + Count(entries[0], ':') == 1) && EntriesOk(entries[1..])
  {
    var entries := Split(s, ',');
    if s != [] {
      var rest := Split(s[1..], ',');
      if s[0] == ',' {
        ShapeOfEntries(s[1..], 0, 0);
        SplitStep(s, 0, ',');
        assert entries == [""] + rest && entries[1..] == rest;
        assert rest == [rest[0]] + rest[1..];
      } else {
        ShapeOfEntries(s[1..], colons + if s[0] == ':' then 1 else 0, len + 1);
        assert Find(s, ',') == 1 + Find(s[1..], ',');
        assert s[..Find(s, ',')] == [s[0]] + s[1..][..Find(s[1..], ',')];
        assert entries[0] == [s[0]] + rest[0] && entries[1..] == rest[1..];
        CountSplit([s[0]], rest[0], ':');
        assert Count([s[0]], ':') == Count([], ':') + if s[0] == ':' then 1 else 0;
      }
    } else {
      assert entries == [""];
    }
  }

  /** Text without terminators, once cut, is the tokens of its entries with a terminator after each. */
  lemma {:induction false} CutIntoTokens(s: string)
    requires NUL !in s
    ensures Split(Cut(s), NUL) == Tokens(Split(s, ','))
    decreases |s|
  {
    hide Split;
    var i := Find(s, ',');
    var entry := s[..i];
    CutEntry(entry);
    if i == |s| {
      assert s[..i] == s;
      SplitLast(s, ',');
      TokensOfOne(s);
    } else {
      var rest := s[i + 1..];
      CutIntoTokens(rest);
      CutAround(s, i);
      SplitConcat(Cut(entry), Cut(rest), NUL);
      SplitStep(s, i, ',');
      assert ([entry] + Split(rest, ','))[1..] == Split(rest, ',');
    }
  }

  lemma {:induction false} TokensOfOne(s: string)
    ensures Tokens([s]) == Split(s, ':')
  {}

  lemma {:induction false} CutAround(s: string, i: nat)
    requires i < |s| && s[i] == ','
    ensures Cut(s) == Cut(s[..i]) + [NUL] + Cut(s[i + 1..])
  {}

  lemma {:induction false} UncutPrefix(s: string, i: nat)
    requires i <= |s| && NUL !in s && ',' !in s && ':' !in s[..i]
    ensures Cut(s)[..i] == s[..i] && NUL !in Cut(s)[..i]
  {}

  lemma {:induction false} CutEntry(s: string)
    requires NUL !in s && ',' !in s
    ensures Split(Cut(s), NUL) == Split(s, ':')
    decreases |s|
  {
    hide Split;
    var i := Find(s, ':');
    UncutPrefix(s, i);
    if i < |s| {
      SplitStep(Cut(s), i, NUL);
      CutEntry(s[i + 1..]);
      SplitStep(s, i, ':');
      assert Cut(s)[i + 1..] == Cut(s[i + 1..]);
    } else {
      assert s[..i] == s && Cut(s)[..i] == Cut(s);
      SplitLast(s, NUL);
      SplitLast(s, ':');
    }
  }

  lemma {:induction false} SplitConcat(s: string, t: string, c: char)
    ensures Split(s + [c] + t, c) == Split(s, c) + Split(t, c)
    decreases |s|
  {
    hide Split;
    var u, i := s + [c] + t, Find(s, c);
    assert u[..i] == s[..i];
    SplitStep(u, i, c);
    if i == |s| {
      assert u[i + 1..] == t && s[..i] == s;
      SplitLast(s, c);
    } else {
      assert u[i + 1..] == s[i + 1..] + [c] + t;
      SplitConcat(s[i + 1..], t, c);
      SplitStep(s, i, c);
    }
  }

  lemma {:induction false} EmptyCount()
    ensures Count("", ':') == 0
  {}

  lemma {:induction false} OneEntry(s: string)
    ensures NonEmpty([s]) == if s == "" then 0 else 1
    ensures EntriesOk([s]) ==> Count(s, ':') == NonEmpty([s])
  {}

  lemma {:induction false} CountAround2(s: string, i: nat)
    requires i < |s| && s[i] == ','
    ensures Count(s, ':') == Count(s[..i], ':') + Count(s[i + 1..], ':')
  {
    assert s == s[..i] + [','] + s[i + 1..];
    CountSplit(s[..i] + [','], s[i + 1..], ':');
    CountSplit(s[..i], [','], ':');
    assert Count([','], ':') == Count([], ':');
  }

  lemma {:induction false} ColonsAreEntries(s: string)
    requires EntriesOk(Split(s, ','))
    ensures Count(s, ':') == NonEmpty(Split(s, ','))
    decreases |s|
  {
    hide Split, Count;
    var i := Find(s, ',');
    if i == |s| {
      assert s[..i] == s;
      SplitLast(s, ',');
      OneEntry(s);
    } else {
      var rest := Split(s[i + 1..], ',');
      SplitStep(s, i, ',');
      assert Split(s, ',')[0] == s[..i] && Split(s, ',')[1..] == rest;
      EmptyCount();
      ColonsAreEntries(s[i + 1..]);
      CountAround2(s, i);
    }
  }

  /** A string filling a buffer, its terminator last. */
  predicate IsString(buffer: seq<char>) {
    buffer != [] && buffer[|buffer| - 1] == NUL && NUL !in buffer[..|buffer| - 1]
  }

  /** The string at position p of a buffer. */
  function StringAt(buffer: seq<char>, p: nat): string
    requires p <= |buffer|
  {
    buffer[p..][..Find(buffer[p..], NUL)]
  }

  /** Past the leading quotes. */
  method TrimStart(a: array<char>, end: nat) returns (start: nat)
    requires end <= a.Length
    ensures start == Lead(a[..end])
  {
    start := 0;
    ghost var s := a[..end];
    assert s[0..] == s;
    while start < end && Quote(a[start])
      invariant start <= end == |s| && Lead(s) == start + Lead(s[start..])
    {
      assert s[start..][1..] == s[start + 1..];
      start := start + 1;
    }
  }

  /** Before the trailing quotes. */
  method TrimEnd(a: array<char>, start: nat, n: nat) returns (end: nat)
    requires start <= n <= a.Length
    ensures end == start + Kept(a[start..n])
  {
    end := n;
    ghost var t := a[start..n];
    while end > start && Quote(a[end - 1])
      invariant start <= end <= n && Kept(t) == Kept(a[start..end])
    {
      ghost var u := a[start..end];
      assert u[|u| - 1] == a[end - 1] && u[..|u| - 1] == a[start..end - 1];
      end := end - 1;
    }
  }

  /** Finds the ends of the text within the quotes. */
  method Trim(a: array<char>) returns (start: nat, end: nat)
    requires IsString(a[..])
    ensures start <= end < a.Length && a[start..end] == Unquoted(a[..a.Length - 1])
  {
    ghost var s := a[..a.Length - 1];
    start := TrimStart(a, a.Length - 1);
    end := TrimEnd(a, start, a.Length - 1);
    assert s[start..] == a[start..a.Length - 1];
    assert s[start..][..end - start] == a[start..end];
  }

  /** Whether every entry that isn't empty has one colon. */
  method CheckShape(a: array<char>, start: nat, end: nat) returns (ok: bool)
    requires start <= end <= a.Length
    ensures ok == EntriesOk(Split(a[start..end], ','))
  {
    ghost var s := a[start..end];
    ShapeOfEntries(s, 0, 0);
    assert ShapeOk(s, 0, 0) == EntriesOk(Split(s, ',')) by {
      assert forall e :: Count(e, ':') == 1 ==> e != "";
    }
    hide Split, EntriesOk;
    var colons, len := 0, 0;
    assert s[0..] == s;
    for i := start to end + 1
      invariant i <= end ==> ShapeOk(s, 0, 0) == ShapeOk(s[i - start..], colons, len)
      invariant i > end ==> ShapeOk(s, 0, 0)
    {
      assert i < end ==> s[i - start..][1..] == s[i + 1 - start..];
      var c := if i == end then ',' else a[i];
      if c == ',' {
        if len > 0 && colons != 1 {
          return false;
        }
        colons, len := 0, 0;
      } else {
        colons, len := colons + if c == ':' then 1 else 0, len + 1;
      }
    }
    ok := true;
  }

  lemma {:induction false} CountStep(s: string, k: nat, c: char)
    requires k < |s|
    ensures Count(s[..k + 1], c) == Count(s[..k], c) + if s[k] == c then 1 else 0
  {
    assert s[..k + 1][..k] == s[..k];
  }

  /** Puts a terminator where each separator is; colons counts the pairs. */
  method CutUp(a: array<char>, start: nat, end: nat) returns (colons: nat)
    requires start <= end <= a.Length
    modifies a
    ensures a[start..end] == Cut(old(a[start..end])) && a[end..] == old(a[end..])
    ensures colons == Count(old(a[start..end]), ':')
  {
    colons := 0;
    ghost var s, rest := a[start..end], a[end..];
    assert Count(s[..0], ':') == 0;
    hide Count, Cut;
    for i := start to end
      invariant forall j :: i <= j < a.Length ==> a[j] == old(a[j])
      invariant a[end..] == rest
      invariant a[start..i] == Cut(s)[..i - start]
      invariant colons == Count(s[..i - start], ':')
    {
      CountStep(s, i - start, ':');
      assert s[i - start] == a[i];
      ghost var done := a[start..i];
      if a[i] == ':' {
        colons := colons + 1;
        a[i] := NUL;
      }
      if a[i] == ',' {
        a[i] := NUL;
      }
      assert a[start..i + 1] == done + [a[i]];
    }
    assert s[..end - start] == s && Cut(s)[..end - start] == Cut(s);
  }

  /** The length of the string at pos. */
  method Length(a: array<char>, pos: nat) returns (n: nat)
    requires pos < a.Length && a[a.Length - 1] == NUL
    ensures pos + n < a.Length && a[pos + n] == NUL && forall j :: pos <= j < pos + n ==> a[j] != NUL
  {
    n := 0;
    while a[pos + n] != NUL
      invariant pos + n < a.Length && forall j :: pos <= j < pos + n ==> a[j] != NUL
      decreases a.Length - pos - n
    {
      n := n + 1;
    }
  }

  lemma {:induction false} StringFound(s: seq<char>, p: nat, n: nat)
    requires p + n < |s| && s[p + n] == NUL && forall j :: p <= j < p + n ==> s[j] != NUL
    ensures StringAt(s, p) == s[p..p + n]
  {}

  /** Reads a port written at pos. */
  method ReadPort(a: array<char>, pos: nat) returns (port: Option<nat>)
    requires pos < a.Length && a[a.Length - 1] == NUL
    ensures port == PortOf(StringAt(a[..], pos))
  {
    var n := Length(a, pos);
    StringFound(a[..], pos, n);
    var s := a[pos..pos + n];
    if a[pos] == '*' {
      port := if a[pos + 1] != NUL then None else Some(0);
    } else {
      port := SignedPort(s);
    }
  }

  /** What is still to be read at pos, of the tokens that end at end. */
  predicate Remaining(s: seq<char>, pos: nat, end: nat, tokens: seq<string>) {
    end < |s| && s[end] == NUL && (tokens != [] ==> pos <= end && tokens == Split(s[pos..end], NUL))
  }

  lemma {:induction false} NextToken(s: seq<char>, pos: nat, end: nat, tokens: seq<string>)
    requires Remaining(s, pos, end, tokens) && tokens != []
    ensures StringAt(s, pos) == tokens[0]
    ensures pos + |tokens[0]| <= end
    ensures s[pos + |tokens[0]|] == NUL
    ensures Remaining(s, pos + |tokens[0]| + 1, end, tokens[1..])
  {
    var t := s[pos..end];
    var n := Find(t, NUL);
    assert forall j :: pos <= j < pos + n ==> s[j] == t[j - pos];
    StringFound(s, pos, n);
    assert t[..n] == s[pos..pos + n];
    if n < |t| {
      assert t[n + 1..] == s[pos + n + 1..end];
      assert tokens == [t[..n]] + Split(t[n + 1..], NUL);
    } else {
      assert tokens == [t];
    }
  }

  /** Past the string at pos. */
  method Skip(a: array<char>, pos: nat) returns (next: nat)
    requires pos < a.Length && a[a.Length - 1] == NUL
    ensures next == pos + |StringAt(a[..], pos)| + 1
  {
    var n := Length(a, pos);
    StringFound(a[..], pos, n);
    next := pos + n + 1;
  }

  function HostToken(tokens: seq<string>, i: nat): string
    requires 2 * i < |tokens|
  {
    tokens[2 * i]
  }

  function PortToken(tokens: seq<string>, i: nat): string
    requires 2 * i + 1 < |tokens|
  {
    tokens[2 * i + 1]
  }

  /** The first pairs of tokens are the hosts, at positions of the buffer, and the ports. */
  predicate PairsRead(s: seq<char>, tokens: seq<string>, hosts: seq<nat>, ports: seq<nat>) {
    && |hosts| == |ports| && 2 * |hosts| <= |tokens|
    && forall i :: 0 <= i < |hosts| ==>
      hosts[i] <= |s| && HostToken(tokens, i) == StringAt(s, hosts[i]) && PortOf(PortToken(tokens, i)) == Some(ports[i])
  }

  lemma {:induction false} AnotherPair(
    s: seq<char>, tokens: seq<string>, hosts: seq<nat>, ports: seq<nat>, host: nat, port: nat)
    requires PairsRead(s, tokens, hosts, ports) && 2 * |hosts| + 2 <= |tokens| && host <= |s|
    requires var rest := tokens[2 * |hosts|..]; rest[0] == StringAt(s, host) && PortOf(rest[1]) == Some(port)
    ensures PairsRead(s, tokens, hosts + [host], ports + [port])
  {}

  /** Reads the host at pos and the port after it. */
  method ReadPair(a: array<char>, pos: nat, ghost end: nat, ghost tokens: seq<string>)
    returns (port: Option<nat>, next: nat)
    requires Remaining(a[..], pos, end, tokens) && |tokens| >= 2 && a[a.Length - 1] == NUL
    ensures pos <= a.Length && tokens[0] == StringAt(a[..], pos) && port == PortOf(tokens[1])
    ensures Remaining(a[..], next, end, tokens[2..])
  {
    hide Split, StringAt, PortOf;
    NextToken(a[..], pos, end, tokens);
    var portAt := Skip(a, pos);
    NextToken(a[..], portAt, end, tokens[1..]);
    port := ReadPort(a, portAt);
    next := Skip(a, portAt);
    assert tokens[1..][1..] == tokens[2..];
  }

  /** Walks the tokens, a host and a port at a time. */
  method Walk(
    a: array<char>, start: nat, end: nat, k: nat, ghost tokens: seq<string>, hosts: array<nat>, ports: array<nat>)
    returns (ok: bool)
    requires start <= end < a.Length && a[end] == NUL && a[a.Length - 1] == NUL
    requires tokens == Split(a[start..end], NUL) && |tokens| >= 2 * k && k == hosts.Length == ports.Length
    requires hosts != ports
    modifies hosts, ports
    ensures ok == FromTokens(tokens, k).Ok?
    ensures ok ==> Listed(a[..], FromTokens(tokens, k).value, hosts[..], ports[..])
  {
    ghost var s := a[..];
    var pos := start;
    assert Remaining(s, pos, end, tokens[2 * 0..]) by {
      assert s[start..end] == a[start..end] && tokens[2 * 0..] == tokens;
    }
    hide Split, StringAt, PortOf, FromTokens, Remaining, Listed, PairsRead;
    assert PairsRead(s, tokens, hosts[..0], ports[..0]) by {
      NoPairs(s, tokens);
    }
    for i := 0 to k
      invariant a[..] == s
      invariant Remaining(s, pos, end, tokens[2 * i..])
      invariant PairsRead(s, tokens, hosts[..i], ports[..i])
    {
      var port, next := ReadPair(a, pos, end, tokens[2 * i..]);
      if port == None {
        BadPair(tokens, k, i);
        return false;
      }
      AnotherPair(s, tokens, hosts[..i], ports[..i], pos, port.value);
      hosts[i], ports[i] := pos, port.value;
      assert hosts[..i + 1] == hosts[..i] + [pos] && ports[..i + 1] == ports[..i] + [port.value];
      pos := next;
      assert tokens[2 * i..][2..] == tokens[2 * (i + 1)..];
    }
    assert hosts[..k] == hosts[..] && ports[..k] == ports[..];
    GoodPairs(s, tokens, k, hosts[..], ports[..]);
    ok := true;
  }

  lemma {:induction false} NoPairs(s: seq<char>, tokens: seq<string>)
    ensures PairsRead(s, tokens, [], [])
  {}

  /** The list whose hosts are the strings at some positions of the buffer. */
  predicate Listed(s: seq<char>, list: seq<Entry>, hosts: seq<nat>, ports: seq<nat>) {
    && |hosts| == |ports| == |list|
    && forall i :: 0 <= i < |list| ==> hosts[i] <= |s| && list[i] == Entry(StringAt(s, hosts[i]), ports[i])
  }

  lemma {:induction false} BadPair(tokens: seq<string>, k: nat, i: nat)
    requires |tokens| >= 2 * k && i < k && PortOf(PortToken(tokens, i)) == None
    ensures FromTokens(tokens, k) == Err
    decreases k
  {
    if i > 0 {
      assert PortToken(tokens[2..], i - 1) == PortToken(tokens, i);
      BadPair(tokens[2..], k - 1, i - 1);
    }
  }

  lemma {:induction false} GoodPairs(s: seq<char>, tokens: seq<string>, k: nat, hosts: seq<nat>, ports: seq<nat>)
    requires |tokens| >= 2 * k && k == |hosts| && PairsRead(s, tokens, hosts, ports)
    ensures FromTokens(tokens, k).Ok? && Listed(s, FromTokens(tokens, k).value, hosts, ports)
  {
    hide StringAt, PortOf;
    PairsGiven(tokens, k);
  }

  /** The pairs of tokens one by one. */
  lemma {:induction false} PairsGiven(tokens: seq<string>, k: nat)
    requires |tokens| >= 2 * k && forall i :: 0 <= i < k ==> PortOf(PortToken(tokens, i)).Some?
    ensures FromTokens(tokens, k).Ok?
    ensures forall i :: 0 <= i < k ==>
      FromTokens(tokens, k).value[i] == Entry(HostToken(tokens, i), PortOf(PortToken(tokens, i)).value)
    decreases k
  {
    hide PortOf;
    if k > 0 {
      var rest := tokens[2..];
      assert forall i :: 0 <= i < k - 1 ==> PortToken(rest, i) == PortToken(tokens, i + 1);
      assert forall i :: 0 <= i < k - 1 ==> HostToken(rest, i) == HostToken(tokens, i + 1);
      PairsGiven(rest, k - 1);
      assert PortOf(PortToken(tokens, 0)).Some?;
    }
  }

  /**
   Parses the string in a, which is cut up on the way. Every access to the buffer is within it, whatever the
   string holds. The hosts are positions in the buffer; memory says whether there is any for the result.
   */
  method Parse(a: array<char>, memory: bool) returns (ok: bool, hosts: array<nat>, ports: array<nat>)
    requires IsString(a[..])
    modifies a
    ensures ok == (memory && Parsed(old(a[..a.Length - 1])).Ok?)
    ensures ok ==> Listed(a[..], Parsed(old(a[..a.Length - 1])).value, hosts[..], ports[..])
  {
    hosts, ports := new nat[0], new nat[0];
    var start, end := Trim(a);
    ghost var s := a[start..end];
    assert NUL !in s by {
      assert forall j :: 0 <= j < |s| ==> s[j] == a[..a.Length - 1][start + j];
    }
    a[end] := NUL;
    assert a[start..end] == s;
    var shape := CheckShape(a, start, end);
    if !shape {
      return false, hosts, ports;
    }
    var k := CutUp(a, start, end);
    ColonsAreEntries(s);
    if k == 0 || !memory {
      return false, hosts, ports;
    }
    EnoughTokens(Split(s, ','));
    CutIntoTokens(s);
    hosts, ports := new nat[k], new nat[k];
    ok := Walk(a, start, end, k, Tokens(Split(s, ',')), hosts, ports);
  }
}
