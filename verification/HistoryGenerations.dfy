/** A repair follows its chart's generation: its own commits move it on, and no later
    chunk is refused for that. */
module HistoryGenerations {
  import opened Wrappers
  import opened HistoryContract
  import opened HistoryChunks
  import opened HistoryAttempt
  import opened HistoryRuns

  /** The attempt ends as stale before anything is committed. */
  predicate RefusedByFence(attempted: Attempted) {
    attempted.call.None? && attempted.outcome.status.StaleGeneration?
  }

  /** The chart is at this generation before and after the fetch. */
  predicate Sees(env: Environment, generation: nat) {
    env.generation == generation == env.generationAfter
  }

  /** The generation the chart has, as far as this outcome tells. */
  function Reported(intent: Intent, outcome: Outcome): nat {
    if outcome.generation.Some? then outcome.generation.value else intent.canonicalGeneration
  }

  lemma OwnGenerationIsNotRefused(authority: bool, intent: Intent, env: Environment)
    requires Sees(env, intent.canonicalGeneration)
    ensures !RefusedByFence(Execute(authority, intent, env))
  {
    if Execute(authority, intent, env).call.None? {
      EndsBeforeCommit(authority, intent, env);
    }
  }

  /** The next chunk is fetched under the generation its predecessor's commit reported,
      so a chart that is there does not refuse it. */
  lemma NextIsNotRefused(authority: bool, intent: Intent, outcome: Outcome, env: Environment, generation: nat)
    requires Continuation(intent, outcome).Some?
    requires outcome.generation == Some(generation) && Sees(env, generation)
    ensures !RefusedByFence(Execute(authority, Continuation(intent, outcome).value, env))
  {
    OwnGenerationIsNotRefused(authority, Continuation(intent, outcome).value, env);
  }

  /** A chart anywhere else refuses it, unless something ends the attempt sooner. */
  lemma NextIsRefusedElsewhere(authority: bool, intent: Intent, outcome: Outcome, env: Environment, generation: nat)
    requires Continuation(intent, outcome).Some?
    requires outcome.generation == Some(generation) && env.generation != generation && Opens(env)
    ensures RefusedByFence(Execute(authority, Continuation(intent, outcome).value, env))
  {
    var next := Continuation(intent, outcome).value;
    AttemptIsFenced(authority, next, env);
    EndsBeforeCommit(authority, next, env);
  }

  /** Where no generation is reported the chunk keeps its own. */
  lemma UnreportedKeepsOwn(authority: bool, intent: Intent, outcome: Outcome, env: Environment)
    requires Continuation(intent, outcome).Some? && outcome.generation.None?
    ensures
      var attempted := Execute(authority, Continuation(intent, outcome).value, env);
      && (Sees(env, intent.canonicalGeneration) ==> !RefusedByFence(attempted))
      && (Opens(env) && env.generation != intent.canonicalGeneration ==> RefusedByFence(attempted))
  {
    var next := Continuation(intent, outcome).value;
    AttemptIsFenced(authority, next, env);
    if Execute(authority, next, env).call.None? {
      EndsBeforeCommit(authority, next, env);
    }
  }

  // ----- over a whole repair -----------------------------------------------

  /** The first attempt meets the generation it was asked for, every later one the
      generation its predecessor reported. */
  ghost predicate Follows(tries: seq<Try>) {
    && (tries != [] ==> Sees(tries[0].env, tries[0].chunk.canonicalGeneration))
    && forall i :: 0 < i < |tries| ==> Sees(tries[i].env, Reported(tries[i - 1].chunk, Attempt(tries[i - 1]).outcome))
  }

  /** Every attempt carries the generation its predecessor reported. */
  lemma {:induction false} TriesCarry(intent: Intent, envs: seq<Environment>, i: nat)
    requires 0 < i < |Tries(intent, envs)|
    ensures
      var before := Tries(intent, envs)[i - 1];
      Tries(intent, envs)[i].chunk.canonicalGeneration == Reported(before.chunk, Attempt(before).outcome)
    decreases |envs|
  {
    var first := Try(intent, envs[0]);
    var next := Continuation(intent, Attempt(first).outcome);
    var rest := Tries(next.value, envs[1..]);
    assert Tries(intent, envs) == [first] + rest;
    if i > 1 {
      TriesCarry(next.value, envs[1..], i - 1);
    } else {
      assert rest[0].chunk == next.value;
    }
  }

  /** A repair whose own commits are all that moves its chart on is never refused for
      a stale generation. */
  lemma OwnCommitsNeverRefuse(intent: Intent, envs: seq<Environment>)
    requires Follows(Tries(intent, envs))
    ensures forall i :: 0 <= i < |Tries(intent, envs)| ==> !RefusedByFence(Attempt(Tries(intent, envs)[i]))
  {
    var tries := Tries(intent, envs);
    forall i | 0 <= i < |tries| ensures !RefusedByFence(Attempt(tries[i])) {
      if i > 0 {
        TriesCarry(intent, envs, i);
      }
      OwnGenerationIsNotRefused(true, tries[i].chunk, tries[i].env);
    }
  }
}
