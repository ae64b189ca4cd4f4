/** The recorded-event collision guard, and the review tasks through which a person answers it. */
module MergeReview {
  import opened Basics
  import opened Rows
  import opened Publication
  import opened Identity
  import opened Admission
  import F = Featured

  datatype TaskStatus = Open | InProgress | Resolved | Dismissed

  /** A MERGE-REVIEW task of one candidate's identity claim, about one publication. */
  datatype MergeTask = MergeTask(claim: nat, context: Option<nat>, status: TaskStatus)

  predicate Active(task: MergeTask) {
    task.status.Open? || task.status.InProgress?
  }

  /** _task_concerns: the same events, not the same manifest; a task with no subject concerns nothing. */
  predicate Concerns(gov: Governance, rows: seq<Manifest>, task: MergeTask, events: set<nat>) {
    task.context.Some? && task.context.value < |rows| && EventsBehind(gov, rows[task.context.value].evidence) == events
  }

  predicate Reusable(gov: Governance, rows: seq<Manifest>, task: MergeTask, claim: nat, events: set<nat>) {
    task.claim == claim && Active(task) && Concerns(gov, rows, task, events)
  }

  /** The first active task of this claim about exactly these events, from k on. */
  function FirstReusable(gov: Governance, rows: seq<Manifest>, tasks: seq<MergeTask>, claim: nat, events: set<nat>,
                         k: nat): (r: Option<nat>)
    requires k <= |tasks|
    ensures r.Some? ==> k <= r.value < |tasks| && Reusable(gov, rows, tasks[r.value], claim, events)
    ensures forall i :: k <= i < (if r.Some? then r.value else |tasks|) ==>
      !Reusable(gov, rows, tasks[i], claim, events)
    decreases |tasks| - k
  {
    if k == |tasks| then None
    else if Reusable(gov, rows, tasks[k], claim, events) then Some(k)
    else FirstReusable(gov, rows, tasks, claim, events, k + 1)
  }

  /** This claim's active tasks before n are dismissed. */
  function DismissedBefore(tasks: seq<MergeTask>, claim: nat, n: nat): seq<MergeTask>
    requires n <= |tasks|
  {
    seq(|tasks|, i requires 0 <= i < |tasks| =>
      if i < n && tasks[i].claim == claim && Active(tasks[i]) then tasks[i].(status := Dismissed) else tasks[i])
  }

  /** Reuse the task about this collision, or retire the stale ones and open one. */
  function EnsureTask(gov: Governance, rows: seq<Manifest>, tasks: seq<MergeTask>, claim: nat, manifest: nat,
                      events: set<nat>): (seq<MergeTask>, nat) {
    var found := FirstReusable(gov, rows, tasks, claim, events, 0);
    if found.Some? then (DismissedBefore(tasks, claim, found.value), found.value)
    else (DismissedBefore(tasks, claim, |tasks|) + [MergeTask(claim, Some(manifest), Open)], |tasks|)
  }

  /** Asking again about the same collision opens nothing, retires nothing and names the same task. */
  lemma AskingTwiceOpensOnce(gov: Governance, rows: seq<Manifest>, tasks: seq<MergeTask>, claim: nat, manifest: nat,
                             again: nat, events: set<nat>)
    requires manifest < |rows| && EventsBehind(gov, rows[manifest].evidence) == events
    ensures var (after, task) := EnsureTask(gov, rows, tasks, claim, manifest, events);
      && task < |after| && Reusable(gov, rows, after[task], claim, events)
      && EnsureTask(gov, rows, after, claim, again, events) == (after, task)
      && (forall i :: 0 <= i < task ==> after[i].claim == claim ==> !Active(after[i]))
  {
    var (after, task) := EnsureTask(gov, rows, tasks, claim, manifest, events);
    assert Reusable(gov, rows, after[task], claim, events);
    forall i | 0 <= i < task ensures !Reusable(gov, rows, after[i], claim, events) {
      assert after[i].claim == claim ==> !Active(after[i]);
    }
    assert FirstReusable(gov, rows, after, claim, events, 0) == Some(task);
    assert DismissedBefore(after, claim, task) == after;
  }

  /** An open or started task of this claim about exactly these events. */
  predicate Awaits(gov: Governance, rows: seq<Manifest>, task: MergeTask, claim: nat, events: set<nat>) {
    && task.claim == claim && task.status in {Open, InProgress}
    && exists i: nat :: i < |rows| && task.context == Some(i) && EventsBehind(gov, rows[i].evidence) == events
  }

  /**
    Asking about a collision names a task that awaits an answer about exactly its events, opening one only if none did;
    it retires this claim's other waiting tasks before that one, and touches no other task.
  */
  lemma AskingNamesAWaitingTask(gov: Governance, rows: seq<Manifest>, tasks: seq<MergeTask>, claim: nat, manifest: nat,
                                events: set<nat>)
    requires manifest < |rows| && EventsBehind(gov, rows[manifest].evidence) == events
    ensures var (after, task) := EnsureTask(gov, rows, tasks, claim, manifest, events);
      && task < |after| && Awaits(gov, rows, after[task], claim, events)
      && (if exists k :: 0 <= k < |tasks| && Awaits(gov, rows, tasks[k], claim, events) then |after| == |tasks|
          else task == |tasks| && |after| == |tasks| + 1)
      && forall k :: 0 <= k < |tasks| ==>
           after[k] == if k < task && tasks[k].claim == claim && tasks[k].status in {Open, InProgress}
                       then tasks[k].(status := Dismissed) else tasks[k]
  {
    forall k | 0 <= k < |tasks|
      ensures Awaits(gov, rows, tasks[k], claim, events) <==> Reusable(gov, rows, tasks[k], claim, events)
    {
    }
  }

  datatype Guard = Pass | Blocked(decision: Adjudication) | Referred(task: nat)

  /** What lets a candidate publish beside these events: a current human `distinct_event` against each of them. */
  predicate GuardOpen(rulings: seq<Adjudication>, event: nat, others: set<nat>) {
    others != {} && forall o :: o in others ==> AdjudicatedDistinct(rulings, event, o)
  }

  /**
    The guard follows the latest answer about each pair: after a person answers about one of the events, in
    either argument order, it is open exactly when the answer was `distinct_event` and it was open for the rest.
  */
  lemma GuardFollowsTheAnswer(rulings: seq<Adjudication>, times: map<nat, F.Span>, event: nat, o: nat,
                              others: set<nat>, answer: Answer)
    requires Refuses(times, event, o, answer).None? && o in others && event !in others
    ensures var after := Answering(rulings, times[event].start, event, o, answer);
      && after == Answering(rulings, times[o].start, o, event, answer)
      && (GuardOpen(after, event, others) <==>
            answer.decision.DistinctEvent? && forall x :: x in others && x != o ==>
              AdjudicatedDistinct(rulings, event, x))
  {
    var after := Answering(rulings, times[event].start, event, o, answer);
    AnswerGoverns(rulings, times, event, o, answer);
    forall x | x in others && x != o
      ensures AdjudicatedDistinct(after, event, x) <==> AdjudicatedDistinct(rulings, event, x)
    {
      assert Canonical(event, x) != Canonical(event, o);
      assert LatestFor(after, event, x) == LatestFor(rulings, event, x);
    }
  }
}
