/** Manual cutoffs: HTTP callers hand triggers to the one loop of a shard, which answers each
    (internal/pipeline/manual_cutoff_times.go, internal/pipeline/aggregate.go). */
module CutoffTriggers {
  import opened Text

  const TRIGGER_CAPACITY := 1
  const REPLY_CAPACITY := 1

  /** `Sending` blocks while the trigger channel is full. */
  datatype Phase = Sending | Handed | Answered

  /** `reply` is the buffer of the caller's own channel, `replies` counts all that went through it. */
  datatype Caller = Caller(phase: Phase, reply: nat, replies: nat)

  /** The loop waits in its select, runs a cutoff on schedule or for a caller, is stuck because a
      send would block, or has stopped. */
  datatype Loop = Idle | Scheduled | Manual(caller: nat) | Stuck | Stopped

  datatype Mark = Begins | Ends

  /** `triggers` is the buffer of the trigger channel, `taken` logs what the loop took out of it,
      `log` when cutoffs of the shard begin and end. */
  datatype State = State(callers: seq<Caller>, triggers: seq<nat>, loop: Loop, taken: seq<nat>, log: seq<Mark>)

  datatype Action =
    | Call
    | Hand(k: nat)
    | TakeSchedule
    | TakeTrigger
    | Finish
    | Panic
    | PickUp(k: nat)
    | Shutdown

  const INIT: State := State([], [], Idle, [], [])

  function Step(s: State, a: Action): State {
    match a
    case Call => s.(callers := s.callers + [Caller(Sending, 0, 0)])
    case Hand(k) =>
      if k < |s.callers| && s.callers[k].phase == Sending && |s.triggers| < TRIGGER_CAPACITY
      then s.(triggers := s.triggers + [k], callers := s.callers[k := s.callers[k].(phase := Handed)])
      else s
    case TakeSchedule => if s.loop == Idle then s.(loop := Scheduled, log := s.log + [Begins]) else s
    case TakeTrigger =>
      if s.loop == Idle && s.triggers != []
      then s.(loop := Manual(s.triggers[0]), triggers := s.triggers[1..], taken := s.taken + [s.triggers[0]],
          log := s.log + [Begins])
      else s
    case Finish =>
      if s.loop == Scheduled then s.(loop := Idle, log := s.log + [Ends])
      else if s.loop.Manual? && s.loop.caller < |s.callers| then
        var c := s.callers[s.loop.caller];
        if c.reply < REPLY_CAPACITY
        then s.(loop := Idle, log := s.log + [Ends],
                callers := s.callers[s.loop.caller := c.(reply := c.reply + 1, replies := c.replies + 1)])
        else s.(loop := Stuck)
      else s
    case Panic => if s.loop == Scheduled || s.loop.Manual? then s.(loop := Stopped) else s
    case PickUp(k) =>
      if k < |s.callers| && s.callers[k].phase == Handed && s.callers[k].reply > 0
      then s.(callers := s.callers[k := s.callers[k].(phase := Answered, reply := s.callers[k].reply - 1)])
      else s
    case Shutdown => if s.loop == Idle then s.(loop := Stopped) else s
  }

  function After(actions: seq<Action>): State {
    if actions == [] then INIT else Step(After(actions[..|actions| - 1]), actions[|actions| - 1])
  }

  predicate Distinct(s: seq<nat>) {
    forall i, j | 0 <= i < j < |s| :: s[i] != s[j]
  }

  /** Each caller hands over one trigger: it is in the channel or was taken, never both nor twice. */
  ghost predicate HandedOnce(s: State) {
    && Distinct(s.taken + s.triggers)
    && (forall k | k in s.taken + s.triggers :: k < |s.callers| && s.callers[k].phase != Sending)
    && (forall k | 0 <= k < |s.callers| && s.callers[k].phase != Sending :: k in s.taken + s.triggers)
  }

  /** A caller has had its one reply exactly if its trigger was taken and its cutoff has ended. */
  ghost predicate AnsweredOnce(s: State) {
    && (s.loop.Manual? ==> s.taken != [] && s.loop.caller == s.taken[|s.taken| - 1])
    && (forall k | 0 <= k < |s.callers| ::
          && s.callers[k].reply <= s.callers[k].replies <= 1
          && (s.callers[k].phase == Answered <==> s.callers[k].reply < s.callers[k].replies)
          && (s.callers[k].replies == 1 ==> k in s.taken)
          && (s.loop == Manual(k) ==> s.callers[k].replies == 0)
          && (k in s.taken && s.loop != Manual(k) && s.loop != Stopped ==> s.callers[k].replies == 1))
  }

  /** Cutoffs follow one another: one ends before the next begins. */
  predicate Alternates(log: seq<Mark>) {
    forall i | 0 <= i < |log| :: log[i] == if i % 2 == 0 then Begins else Ends
  }

  ghost predicate OneAtATime(s: State) {
    && Alternates(s.log)
    && (s.loop == Idle ==> |s.log| % 2 == 0)
    && (s.loop == Scheduled || s.loop.Manual? ==> |s.log| % 2 == 1)
  }

  ghost predicate Inv(s: State) {
    HandedOnce(s) && AnsweredOnce(s) && OneAtATime(s) && s.loop != Stuck && |s.triggers| <= TRIGGER_CAPACITY
  }

  lemma StepKeepsHanded(s: State, a: Action)
    requires HandedOnce(s)
    ensures HandedOnce(Step(s, a))
  {
    var u := Step(s, a);
    if a.TakeTrigger? {
      assert u.taken + u.triggers == s.taken + s.triggers;
    } else if a.Hand? && u != s {
      assert u.taken + u.triggers == s.taken + s.triggers + [a.k];
    }
  }

  lemma StepKeepsAnswered(s: State, a: Action)
    requires HandedOnce(s) && AnsweredOnce(s)
    ensures AnsweredOnce(Step(s, a))
  {
    var u := Step(s, a);
    if a.TakeTrigger? && u != s { FirstIsNew(s); }
  }

  lemma FirstIsNew(s: State)
    requires HandedOnce(s) && s.triggers != []
    ensures s.triggers[0] !in s.taken
  {
    var all := s.taken + s.triggers;
    assert all[|s.taken|] == s.triggers[0];
    assert forall i | 0 <= i < |s.taken| :: s.taken[i] == all[i];
  }

  lemma StepKeepsInv(s: State, a: Action)
    requires Inv(s)
    ensures Inv(Step(s, a))
  {
    StepKeepsHanded(s, a);
    StepKeepsAnswered(s, a);
  }

  lemma {:induction false} AlwaysInv(actions: seq<Action>)
    ensures Inv(After(actions))
  {
    if actions != [] {
      AlwaysInv(actions[..|actions| - 1]);
      StepKeepsInv(After(actions[..|actions| - 1]), actions[|actions| - 1]);
    }
  }

  /** Whatever any number of callers do, the loop never blocks on a reply, each trigger it took gets
      exactly one reply once its cutoff is over, no caller gets more than one, and cutoffs of the
      shard never overlap. */
  lemma EveryTriggerAnsweredOnce(actions: seq<Action>)
    ensures var s := After(actions);
            && s.loop != Stuck
            && (forall k | k in s.taken ::
                k < |s.callers| && (s.loop != Manual(k) && s.loop != Stopped ==> s.callers[k].replies == 1))
            && (forall k | 0 <= k < |s.callers| :: s.callers[k].replies <= 1)
            && Alternates(s.log)
  {
    AlwaysInv(actions);
  }

  /** And things do happen: while the loop waits, a trigger in the channel can be taken, its cutoff run
      from begin to end, and the caller answered; the others see nothing of it. */
  lemma PendingTriggerServed(actions: seq<Action>)
    requires var s := After(actions); s.loop == Idle && s.triggers != []
    ensures var s := After(actions);
            var k := s.triggers[0];
            var u := After(actions + [TakeTrigger] + [Finish] + [PickUp(k)]);
            && k < |s.callers| && s.callers[k].phase == Handed
            && u.loop == Idle && u.triggers == s.triggers[1..] && u.taken == s.taken + [k]
            && u.log == s.log + [Begins] + [Ends]
            && u.callers == s.callers[k := Caller(Answered, 0, 1)]
  {
    var s := After(actions);
    AlwaysInv(actions);
    FirstIsWaiting(s);
    RoundServes(s);
    AfterMore(actions, TakeTrigger);
    AfterMore(actions + [TakeTrigger], Finish);
    AfterMore(actions + [TakeTrigger] + [Finish], PickUp(s.triggers[0]));
  }

  /** A caller whose trigger is still in the channel has no reply yet. */
  lemma FirstIsWaiting(s: State)
    requires Inv(s) && s.triggers != []
    ensures s.triggers[0] < |s.callers| && s.callers[s.triggers[0]] == Caller(Handed, 0, 0)
  {
    var k := s.triggers[0];
    assert (s.taken + s.triggers)[|s.taken|] == k && k in s.taken + s.triggers;
    FirstIsNew(s);
  }

  lemma RoundServes(s: State)
    requires s.loop == Idle && s.triggers != []
    requires s.triggers[0] < |s.callers| && s.callers[s.triggers[0]] == Caller(Handed, 0, 0)
    ensures var k := s.triggers[0];
            Step(Step(Step(s, TakeTrigger), Finish), PickUp(k)) ==
            State(s.callers[k := Caller(Answered, 0, 1)], s.triggers[1..], Idle, s.taken + [k],
                  s.log + [Begins] + [Ends])
  {
  }

  /** A new caller hands its trigger over as soon as the channel is empty. */
  lemma NewCallerHandsOver(actions: seq<Action>)
    requires After(actions).triggers == []
    ensures var s := After(actions);
            var u := After(actions + [Call] + [Hand(|s.callers|)]);
            u == s.(callers := s.callers + [Caller(Handed, 0, 0)], triggers := [|s.callers|])
  {
    AfterMore(actions, Call);
    AfterMore(actions + [Call], Hand(|After(actions).callers|));
  }

  /** On schedule a cutoff runs without any caller. */
  lemma ScheduledCutoffRuns(actions: seq<Action>)
    requires After(actions).loop == Idle
    ensures var s := After(actions);
            After(actions + [TakeSchedule] + [Finish]) == s.(log := s.log + [Begins] + [Ends])
  {
    ScheduledSteps(After(actions));
    AfterMore(actions, TakeSchedule);
    AfterMore(actions + [TakeSchedule], Finish);
  }

  lemma ScheduledSteps(s: State)
    requires s.loop == Idle
    ensures Step(Step(s, TakeSchedule), Finish) == s.(log := s.log + [Begins] + [Ends])
  {
  }

  /** A loop that has panicked or was shut down stays so, and whoever hands over later waits for ever. */
  lemma {:induction false} StoppedStays(actions: seq<Action>, later: seq<Action>)
    requires After(actions).loop == Stopped
    ensures var s, u := After(actions), After(actions + later);
            u.loop == Stopped && u.taken == s.taken && u.log == s.log
    decreases |later|
  {
    if later == [] {
      assert actions + later == actions;
    } else {
      var n := |later| - 1;
      assert actions + later == actions + later[..n] + [later[n]];
      StoppedStays(actions, later[..n]);
      AfterMore(actions + later[..n], later[n]);
    }
  }

  /** A shutdown waits for the cutoff that runs, and only a cutoff can panic. */
  lemma StopsBetweenCutoffs(actions: seq<Action>)
    ensures var s := After(actions);
            && After(actions + [Shutdown]) == (if s.loop == Idle then s.(loop := Stopped) else s)
            && After(actions + [Panic]) ==
               (if s.loop == Scheduled || s.loop.Manual? then s.(loop := Stopped) else s)
  {
    StoppingSteps(After(actions));
    AfterMore(actions, Shutdown);
    AfterMore(actions, Panic);
  }

  lemma StoppingSteps(s: State)
    ensures Step(s, Shutdown) == if s.loop == Idle then s.(loop := Stopped) else s
    ensures Step(s, Panic) == if s.loop == Scheduled || s.loop.Manual? then s.(loop := Stopped) else s
  {
  }

  /** Without room for the reply the loop would block, so that it never does is more than a word. */
  lemma FullReplyBlocks(s: State)
    requires s.loop.Manual? && s.loop.caller < |s.callers| && s.callers[s.loop.caller].reply >= REPLY_CAPACITY
    ensures Step(s, Finish).loop == Stuck && Step(Step(s, Finish), Finish) == Step(s, Finish)
  {
  }

  lemma AfterMore(actions: seq<Action>, a: Action)
    ensures After(actions + [a]) == Step(After(actions), a)
  {
    assert (actions + [a])[..|actions|] == actions;
  }

  // The request that triggers the shards it names, one after another

  /** What the handler records for the i-th name: an unknown shard, or the reply of its cutoff. */
  function AnswerTo(shardNames: seq<string>, known: set<string>, reply: nat -> Option<string>, i: nat): Option<string>
    requires i < |shardNames|
  {
    if shardNames[i] in known then reply(i) else Some("unknown shard " + shardNames[i])
  }

  /** The last mention of a shard among the first `n` names. */
  ghost predicate LastNamed(shardNames: seq<string>, n: nat, i: int)
    requires n <= |shardNames|
  {
    0 <= i < n && forall j | i < j < n :: shardNames[j] != shardNames[i]
  }

  /** The responses answer for the first `n` names, each shard by its last mention. */
  ghost predicate Answers(shardNames: seq<string>, known: set<string>, reply: nat -> Option<string>, n: nat,
      responses: map<string, Option<string>>)
    requires n <= |shardNames|
  {
    && (forall name :: name in responses <==> name in shardNames[..n])
    && (forall i | LastNamed(shardNames, n, i) :: responses[shardNames[i]] == AnswerTo(shardNames, known, reply, i))
  }

  lemma AnswerOne(shardNames: seq<string>, known: set<string>, reply: nat -> Option<string>, n: nat,
      responses: map<string, Option<string>>)
    requires n < |shardNames| && Answers(shardNames, known, reply, n, responses)
    ensures Answers(shardNames, known, reply, n + 1, responses[shardNames[n] := AnswerTo(shardNames, known, reply, n)])
  {
    assert shardNames[..n + 1] == shardNames[..n] + [shardNames[n]];
    forall i | LastNamed(shardNames, n + 1, i)
      ensures i == n || (LastNamed(shardNames, n, i) && shardNames[i] != shardNames[n])
    {
    }
  }

  lemma {:induction false} LastMention(shardNames: seq<string>, n: nat, name: string) returns (i: nat)
    requires n <= |shardNames| && name in shardNames[..n]
    ensures LastNamed(shardNames, n, i) && shardNames[i] == name
  {
    if shardNames[n - 1] == name {
      i := n - 1;
    } else {
      i := LastMention(shardNames, n - 1, name);
    }
  }

  lemma UnknownFail(shardNames: seq<string>, known: set<string>, reply: nat -> Option<string>,
                    responses: map<string, Option<string>>)
    requires Answers(shardNames, known, reply, |shardNames|, responses)
    ensures forall name | name in responses && name !in known :: responses[name] == Some("unknown shard " + name)
  {
    forall name | name in responses && name !in known ensures responses[name] == Some("unknown shard " + name) {
      var i := LastMention(shardNames, |shardNames|, name);
    }
  }

  method HasErrors(responses: map<string, Option<string>>) returns (found: bool)
    ensures found <==> exists name | name in responses :: responses[name].Some?
  {
    var rest := responses.Keys;
    while rest != {}
      invariant rest <= responses.Keys
      invariant forall name | name in responses && name !in rest :: responses[name].None?
    {
      var name :| name in rest;
      if responses[name].Some? { return true; }
      rest := rest - {name};
    }
    return false;
  }

  /** Every shard named is answered for, by its last mention; the request succeeds if it named one
      and none of them failed. */
  method TriggerManualCutoff(shardNames: seq<string>, known: set<string>, reply: nat -> Option<string>)
    returns (status: nat, responses: map<string, Option<string>>)
    ensures Answers(shardNames, known, reply, |shardNames|, responses)
    ensures forall name :: name in responses <==> name in shardNames
    ensures forall i | LastNamed(shardNames, |shardNames|, i) && shardNames[i] in known ::
              responses[shardNames[i]] == reply(i)
    ensures forall name | name in responses && name !in known :: responses[name] == Some("unknown shard " + name)
    ensures (exists name | name in shardNames :: name !in known) ==> status == 400
    ensures status == if shardNames != [] && forall name | name in responses :: responses[name].None? then 200 else 400
  {
    responses := map[];
    if |shardNames| == 0 { return 400, responses; }
    for i := 0 to |shardNames|
      invariant Answers(shardNames, known, reply, i, responses)
    {
      AnswerOne(shardNames, known, reply, i, responses);
      responses := responses[shardNames[i] := AnswerTo(shardNames, known, reply, i)];
    }
    assert shardNames[..|shardNames|] == shardNames;
    UnknownFail(shardNames, known, reply, responses);
    var failed := HasErrors(responses);
    status := if failed then 400 else 200;
  }
}
