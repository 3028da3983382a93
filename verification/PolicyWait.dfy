/**
 The daemon's wait for the policy service: messages are read until a final answer to its request comes, or the
 deadline passes, which acknowledgements put off, but never past a cap.
 */
module PolicyWait {
  import opened Wrappers
  import opened AtSign
  import opened PolicyCache
  import PolicySlot

  const WAIT_MS: nat := 10000
  const WAIT_CAP_MS: nat := 30000

  /** Copied is None when a success can't be copied for want of memory. */
  datatype Reply = Ack | Success(copied: Option<Decision>) | Refusal

  /** keyIds are the request ids the key may be taken for; valueId is the one in the value. */
  datatype Message =
    | Nothing
    | Notification(from: string, isRpc: bool, keyIds: set<int>, valueId: Option<int>, reply: Option<Reply>)

  /** A round of the wait: the clock when it starts, what is read, and the clock after that. */
  datatype Round = Round(at: int, message: Message, readAt: int)

  datatype Outcome = Decided(decision: Decision) | TimedOut | Waiting

  function Deadline(started: int, progress: int): int {
    var deadline, cap := progress + WAIT_MS, started + WAIT_CAP_MS;
    if deadline < cap then deadline else cap
  }

  /** The answer a message gives to the request, if it is one from the policy service to just that request. */
  function Answer(m: Message, policy: string, id: int): Option<Reply> {
    if m.Nothing? || !SamePlain(m.from, policy) || !m.isRpc || id !in m.keyIds || m.valueId != Some(id) then None
    else if m.reply == Some(Success(None)) then None
    else m.reply
  }

  function DecisionOf(r: Reply): Decision {
    if r.Success? && r.copied.Some? then r.copied.value else NO_DECISION
  }

  /** The wait over some rounds, of which it may need only the first few. */
  function Waited(policy: string, id: int, started: int, progress: int, rounds: seq<Round>): Outcome
    decreases |rounds|
  {
    if rounds == [] then Waiting
    else if rounds[0].at >= Deadline(started, progress) then TimedOut
    else
      match Answer(rounds[0].message, policy, id)
      case None => Waited(policy, id, started, progress, rounds[1..])
      case Some(Ack) => Waited(policy, id, started, rounds[0].readAt, rounds[1..])
      case Some(reply) => Decided(DecisionOf(reply))
  }

  /** Whatever was acknowledged, no round starts past the cap: a wait that gets there is over. */
  lemma {:induction false} NoRoundPastTheCap(
    policy: string, id: int, started: int, progress: int, rounds: seq<Round>, k: nat)
    requires k < |rounds| && rounds[k].at >= started + WAIT_CAP_MS
    ensures Waited(policy, id, started, progress, rounds) == Waited(policy, id, started, progress, rounds[..k + 1])
    ensures !Waited(policy, id, started, progress, rounds).Waiting?
    decreases k
  {
    var first := rounds[..k + 1];
    if k > 0 {
      assert first[1..] == rounds[1..][..k];
      NoRoundPastTheCap(policy, id, started, progress, rounds[1..], k - 1);
      NoRoundPastTheCap(policy, id, started, rounds[0].readAt, rounds[1..], k - 1);
    }
  }

  /** How far the wait had got, by the start of round k, in acknowledged progress. */
  function Progress(policy: string, id: int, progress: int, rounds: seq<Round>, k: nat): int
    requires k <= |rounds|
  {
    if k == 0 then progress
    else if Answer(rounds[k - 1].message, policy, id) == Some(Ack) then rounds[k - 1].readAt
    else Progress(policy, id, progress, rounds, k - 1)
  }

  /** The answer that decides the wait, in time. */
  predicate Decides(
    policy: string, id: int, started: int, progress: int, rounds: seq<Round>, k: nat, decision: Decision)
    requires k < |rounds|
  {
    && var answer := Answer(rounds[k].message, policy, id);
    && answer.Some? && !answer.value.Ack? && decision == DecisionOf(answer.value)
    && rounds[k].at < Deadline(started, Progress(policy, id, progress, rounds, k))
  }

  lemma {:induction false} ProgressOfRest(policy: string, id: int, progress: int, rounds: seq<Round>, k: nat)
    requires k < |rounds|
    ensures Progress(policy, id, progress, rounds, k + 1) ==
      Progress(policy, id, Progress(policy, id, progress, rounds, 1), rounds[1..], k)
  {
    if k > 0 {
      ProgressOfRest(policy, id, progress, rounds, k - 1);
      assert rounds[1..][k - 1] == rounds[k];
    }
  }

  /**
   A wait ends with a decision only by the first final answer to its request, read in a round that started in
   time.
   */
  lemma {:induction false} DecidedByFirstAnswer(
    policy: string, id: int, started: int, progress: int, rounds: seq<Round>)
    returns (k: nat)
    requires Waited(policy, id, started, progress, rounds).Decided?
    ensures k < |rounds|
    ensures Decides(policy, id, started, progress, rounds, k, Waited(policy, id, started, progress, rounds).decision)
    ensures forall j :: 0 <= j < k ==>
      Answer(rounds[j].message, policy, id) == None || Answer(rounds[j].message, policy, id) == Some(Ack)
    decreases |rounds|
  {
    var answer := Answer(rounds[0].message, policy, id);
    if answer == None || answer == Some(Ack) {
      assert Progress(policy, id, progress, rounds, 0) == progress;
      var next := Progress(policy, id, progress, rounds, 1);
      assert next == if answer == None then progress else rounds[0].readAt;
      k := DecidedByFirstAnswer(policy, id, started, next, rounds[1..]);
      ProgressOfRest(policy, id, progress, rounds, k);
      assert rounds[1..][k] == rounds[k + 1];
      forall j | 0 <= j < k + 1
        ensures Answer(rounds[j].message, policy, id) == None || Answer(rounds[j].message, policy, id) == Some(Ack)
      {
        assert j > 0 ==> rounds[j] == rounds[1..][j - 1];
      }
      k := k + 1;
    } else {
      k := 0;
    }
  }

  /** The message is the policy service's answer to the request: the sender is compared but for a leading '@'. */
  predicate Says(m: Message, policy: string, id: int, reply: Reply) {
    && m.Notification? && Body(m.from) == Body(policy) && m.isRpc
    && id in m.keyIds && m.valueId == Some(id) && m.reply == Some(reply)
  }

  /** A wait says authorized only by a success, from the policy service, to the very request, that says so. */
  lemma {:induction false} AuthorizedOnlyBySuccess(
    policy: string, id: int, started: int, progress: int, rounds: seq<Round>)
    returns (k: nat)
    requires Waited(policy, id, started, progress, rounds).Decided?
    requires Waited(policy, id, started, progress, rounds).decision.authorized
    ensures k < |rounds|
    ensures var decision := Waited(policy, id, started, progress, rounds).decision;
      Says(rounds[k].message, policy, id, Success(Some(decision)))
  {
    k := DecidedByFirstAnswer(policy, id, started, progress, rounds);
  }

  /** Round k starts before the deadline, and so did all those before, none of which brought an answer. */
  ghost predicate StillWaiting(policy: string, id: int, started: int, progress: int, rounds: seq<Round>, k: nat) {
    && k < |rounds|
    && (forall j :: 0 <= j <= k ==> rounds[j].at < Deadline(started, Progress(policy, id, progress, rounds, j)))
    && forall j, reply :: 0 <= j < k && Says(rounds[j].message, policy, id, reply) ==>
      reply.Ack? || reply == Success(None)
  }

  lemma {:induction false} WaitGoesOn(
    policy: string, id: int, started: int, progress: int, rounds: seq<Round>, k: nat)
    requires StillWaiting(policy, id, started, progress, rounds, k) && k > 0
    ensures var next := Progress(policy, id, progress, rounds, 1);
      && Waited(policy, id, started, progress, rounds) == Waited(policy, id, started, next, rounds[1..])
      && StillWaiting(policy, id, started, next, rounds[1..], k - 1)
  {
    var next, rest := Progress(policy, id, progress, rounds, 1), rounds[1..];
    assert Progress(policy, id, progress, rounds, 0) == progress;
    var first := Answer(rounds[0].message, policy, id);
    assert first.Some? ==> Says(rounds[0].message, policy, id, first.value);
    assert next == if first == Some(Ack) then rounds[0].readAt else progress;
    hide Answer, Waited, Says;
    forall j | 0 <= j <= k - 1 ensures rest[j].at < Deadline(started, Progress(policy, id, next, rest, j)) {
      ProgressOfRest(policy, id, progress, rounds, j);
      assert rest[j] == rounds[j + 1];
    }
    forall j, reply | 0 <= j < k - 1 && Says(rest[j].message, policy, id, reply)
      ensures reply.Ack? || reply == Success(None)
    {
      assert rest[j] == rounds[j + 1];
    }
  }

  /** The first answer in time decides: a success that can be copied by its decision, a refusal as a denial. */
  lemma {:induction false} FirstAnswerDecides(
    policy: string, id: int, started: int, progress: int, rounds: seq<Round>, k: nat, reply: Reply)
    requires StillWaiting(policy, id, started, progress, rounds, k) && Says(rounds[k].message, policy, id, reply)
    ensures reply.Success? && reply.copied.Some? ==>
      Waited(policy, id, started, progress, rounds) == Decided(reply.copied.value)
    ensures reply.Refusal? ==>
      exists p :: Waited(policy, id, started, progress, rounds) == Decided(Decision(false, p))
    decreases k
  {
    if k == 0 {
      assert Progress(policy, id, progress, rounds, 0) == progress;
      assert reply.Refusal? ==> Waited(policy, id, started, progress, rounds) == Decided(Decision(false, []));
    } else {
      WaitGoesOn(policy, id, started, progress, rounds, k);
      var next := Progress(policy, id, progress, rounds, 1);
      hide StillWaiting, Says, Waited;
      assert rounds[1..][k - 1] == rounds[k];
      FirstAnswerDecides(policy, id, started, next, rounds[1..], k - 1, reply);
    }
  }

  /** What the ESP32 waits is the same to the millisecond: it stops one past the deadline. */
  lemma {:induction false} TwinStopsOnePast(started: int, progress: int, now: int)
    ensures PolicySlot.WaitOver(started, progress, now) <==> now - 1 >= Deadline(started, progress)
  {}

  /** Waits for the rounds to come; a wait that isn't over when they end goes on. */
  method AuthCheck(policy: string, id: int, started: int, rounds: seq<Round>)
    returns (outcome: Outcome)
    ensures outcome == Waited(policy, id, started, started, rounds)
  {
    var lastProgress, k := started, 0;
    assert rounds[0..] == rounds;
    while k < |rounds| && rounds[k].at < Deadline(started, lastProgress)
      invariant k <= |rounds|
      invariant Waited(policy, id, started, started, rounds) == Waited(policy, id, started, lastProgress, rounds[k..])
      decreases |rounds| - k
    {
      assert rounds[k..][1..] == rounds[k + 1..];
      var answer := Answer(rounds[k].message, policy, id);
      if answer.Some? {
        if answer.value.Ack? {
          lastProgress := rounds[k].readAt;
        } else {
          return Decided(DecisionOf(answer.value));
        }
      }
      k := k + 1;
    }
    outcome := if k < |rounds| then TimedOut else Waiting;
  }
}
