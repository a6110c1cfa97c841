/**
 Scheduling in the Kubernetes glue: tasks are pulled from the queues in priority order, kept visible in a
 pending queue while they are launched, and put back at the front of their queue when the cluster's resource
 quota is used up.
 */
module GlueQueues {
  import opened Options
  import opened Sequences

  datatype Status = Queued | Stopped | Failed | Other

  datatype LogEntry = LogEntry(task: string, text: string)

  // The server's queues in priority order, the pending queue, the status of the tasks, the reason last
  // logged for each waiting task, and what was written to the tasks' logs.
  datatype State = State(
    queues: seq<seq<string>>, pending: seq<string>, status: map<string, Status>,
    reasons: map<string, string>, log: seq<LogEntry>)

  // ---------------------------------------------------------------- what happens outside the glue

  datatype PodSearch = FreePod | CountFailed | AllTaken

  datatype Applied = Launched | Quota(reason: string) | Rejected

  // The fate of one launch: whether the push into the pending queue works, what the pod search and
  // kubectl say, whether a user changes the task's status meanwhile, and which of the later calls work.
  datatype Fate = Fate(
    sameTenant: bool, stopFirst: bool, pushed: bool, search: PodSearch, enqueued: bool, template: bool,
    applied: Applied, userSet: Option<Status>, statusRead: bool, added: bool, moved: bool)

  datatype Read = Unreadable | Readable(ownerKnown: bool)

  // One turn of the loop: the pod limit, for each queue whether the agent is suspended, whether the queue is
  // schedulable and can be read, the fate of the launch, and the tasks that users append to each queue.
  datatype Turn = Turn(
    limited: bool, suspended: seq<bool>, schedulable: seq<bool>, answers: seq<Read>, fate: Fate,
    arrivals: seq<seq<string>>)

  predicate Shaped(t: Turn, n: nat) {
    |t.suspended| == n && |t.schedulable| == n && |t.answers| == n && |t.arrivals| == n
  }

  // ---------------------------------------------------------------- queue operations of the server

  function Remove(q: seq<string>, t: string): (r: seq<string>)
    ensures t !in r && forall u :: u != t ==> (u in r <==> u in q)
  {
    if q == [] then []
    else
      assert q == [q[0]] + q[1..];
      if q[0] == t then Remove(q[1..], t) else [q[0]] + Remove(q[1..], t)
  }

  lemma {:induction false} RemoveAbsent(q: seq<string>, t: string)
    requires t !in q
    ensures Remove(q, t) == q
  {
    if q != [] {
      assert q == [q[0]] + q[1..];
      RemoveAbsent(q[1..], t);
    }
  }

  lemma {:induction false} RemoveLast(q: seq<string>, t: string)
    ensures Remove(q + [t], t) == Remove(q, t)
  {
    if q != [] {
      assert (q + [t])[0] == q[0] && (q + [t])[1..] == q[1..] + [t];
      RemoveLast(q[1..], t);
    }
  }

  function Append(s: State, i: nat, t: string): State
    requires i < |s.queues|
  {
    s.(queues := s.queues[i := s.queues[i] + [t]], status := s.status[t := Queued])
  }

  function MoveToFront(s: State, i: nat, t: string): State
    requires i < |s.queues|
  {
    s.(queues := s.queues[i := [t] + Remove(s.queues[i], t)])
  }

  // ---------------------------------------------------------------- one launch

  // run_one_task up to the answer of kubectl; the second part is the exception that asks for a re-enqueue.
  function Launch(s: State, i: nat, t: string, f: Fate): (r: (State, Option<string>))
    requires i < |s.queues|
    ensures |r.0.queues| == |s.queues|
  {
    var stopped := if f.stopFirst then s.(status := s.status[t := Stopped]) else s;
    if f.sameTenant && !f.pushed then
      (stopped.(pending := Remove(s.pending, t)), None)
    else
      var s1 := if f.sameTenant
        then stopped.(pending := Remove(s.pending, t) + [t], status := stopped.status[t := Queued])
        else s;
      if !f.search.FreePod? then
        var s2 := s1.(status := s1.status[t := Stopped]);
        (if f.enqueued then Append(s2, i, t) else s2, None)
      else if !f.template then (s1, None)
      else
        match f.applied
        case Launched => (s1, None)
        case Quota(reason) => (s1, Some(reason))
        case Rejected => (s1.(pending := Remove(s1.pending, t), status := s1.status[t := Failed]), None)
  }

  function Intervene(s: State, t: string, f: Fate): State {
    if f.userSet.Some? then s.(status := s.status[t := f.userSet.value]) else s
  }

  function ReEnqueue(s: State, i: nat, t: string, f: Fate): (r: (State, bool))
    requires i < |s.queues|
    ensures |r.0.queues| == |s.queues|
  {
    var s1 := s.(pending := Remove(s.pending, t));
    if f.statusRead && t in s1.status && !s1.status[t].Queued? then (s1, false)
    else if !f.added then (s1.(status := s1.status[t := Failed]), false)
    else
      var s2 := Append(s1, i, t);
      (if f.moved then MoveToFront(s2, i, t) else s2, true)
  }

  const MAX_REASONS: nat := 1000

  function Report(s: State, t: string, reason: string): State {
    if t in s.reasons && s.reasons[t] == reason then s
    else
      var kept := if |s.reasons| > MAX_REASONS then map[] else s.reasons;
      s.(reasons := kept[t := reason], log := s.log + [LogEntry(t, reason)])
  }

  const PULLED: string := "pulled"

  // The pulled task, launched or put back; a task that waits was logged as pulled before.
  function Handle(s: State, i: nat, t: string, f: Fate): (r: State)
    requires i < |s.queues|
    ensures |r.queues| == |s.queues|
  {
    Resolve(s.(log := s.log + (if t in s.reasons then [] else [LogEntry(t, PULLED)])), i, t, f)
  }

  function Resolve(s: State, i: nat, t: string, f: Fate): (r: State)
    requires i < |s.queues|
    ensures |r.queues| == |s.queues|
  {
    var (s1, raised) := Launch(s, i, t, f);
    if raised.None? then s1.(reasons := s1.reasons - {t})
    else
      var (s2, waiting) := ReEnqueue(Intervene(s1, t, f), i, t, f);
      if waiting then Report(s2, t, raised.value) else s2.(reasons := s2.reasons - {t})
  }

  // ---------------------------------------------------------------- one turn of the loop

  datatype Pull = Pull(queue: nat, task: string)

  function Pop(s: State, i: nat): State
    requires i < |s.queues| && s.queues[i] != []
  {
    s.(queues := s.queues[i := s.queues[i][1..]])
  }

  // From queue i on: the state after the turn and the task that was handled, if any.
  function Walk(s: State, turn: Turn, i: nat): (r: (State, Option<Pull>))
    requires Shaped(turn, |s.queues|) && i <= |s.queues|
    ensures |r.0.queues| == |s.queues|
    ensures r.1.Some? ==> i <= r.1.value.queue < |s.queues|
    decreases |s.queues| - i
  {
    if i == |s.queues| || turn.suspended[i] then (s, None)
    else if !turn.schedulable[i] || turn.answers[i].Unreadable? || s.queues[i] == [] then Walk(s, turn, i + 1)
    else
      var t := s.queues[i][0];
      var popped := Pop(s, i);
      if !turn.answers[i].ownerKnown then Walk(popped.(status := popped.status[t := Failed]), turn, i + 1)
      else (Handle(popped, i, t, turn.fate), Some(Pull(i, t)))
  }

  function Arrive(queues: seq<seq<string>>, arrivals: seq<seq<string>>): (r: seq<seq<string>>)
    requires |queues| == |arrivals|
    ensures |r| == |queues| && forall i :: 0 <= i < |queues| ==> r[i] == queues[i] + arrivals[i]
  {
    seq(|queues|, i requires 0 <= i < |queues| => queues[i] + arrivals[i])
  }

  function TurnStep(s: State, turn: Turn): (r: (State, Option<Pull>))
    requires Shaped(turn, |s.queues|)
    ensures |r.0.queues| == |s.queues|
  {
    var (s1, pull) := if turn.limited then (s, None) else Walk(s, turn, 0);
    (s1.(queues := Arrive(s1.queues, turn.arrivals)), pull)
  }

  class Glue {
    var state: State

    constructor (s: State) ensures state == s { state := s; }

    method GetNextTask(i: nat) returns (task: Option<string>)
      requires i < |state.queues|
      modifies this
      ensures old(state).queues[i] == [] ==> task.None? && state == old(state)
      ensures old(state).queues[i] != [] ==> task == Some(old(state).queues[i][0]) && state == Pop(old(state), i)
    {
      if state.queues[i] == [] {
        return None;
      }
      task := Some(state.queues[i][0]);
      state := Pop(state, i);
    }

    // Returns the reason of the exception that asks for a re-enqueue, if it is raised.
    method RunOneTask(i: nat, t: string, f: Fate) returns (raised: Option<string>)
      requires i < |state.queues|
      modifies this
      ensures (state, raised) == Launch(old(state), i, t, f)
    {
      if f.sameTenant {
        if f.stopFirst {
          state := state.(status := state.status[t := Stopped]);
        }
        state := state.(pending := Remove(state.pending, t));
        if !f.pushed {
          return None;
        }
        state := state.(pending := state.pending + [t], status := state.status[t := Queued]);
      }
      if !f.search.FreePod? {
        state := state.(status := state.status[t := Stopped]);
        if f.enqueued {
          state := Append(state, i, t);
        }
        return None;
      }
      if !f.template {
        return None;
      }
      match f.applied {
        case Launched => raised := None;
        case Quota(reason) => raised := Some(reason);
        case Rejected =>
          state := state.(pending := Remove(state.pending, t), status := state.status[t := Failed]);
          raised := None;
      }
    }

    method ReEnqueueTask(i: nat, t: string, f: Fate) returns (waiting: bool)
      requires i < |state.queues|
      modifies this
      ensures (state, waiting) == ReEnqueue(old(state), i, t, f)
    {
      state := state.(pending := Remove(state.pending, t));
      if f.statusRead && t in state.status && !state.status[t].Queued? {
        return false;
      }
      if !f.added {
        state := state.(status := state.status[t := Failed]);
        return false;
      }
      state := Append(state, i, t);
      if f.moved {
        state := MoveToFront(state, i, t);
      }
      waiting := true;
    }

    method ReportReenqueuedTask(t: string, reason: string)
      modifies this
      ensures state == Report(old(state), t, reason)
    {
      if t in state.reasons && state.reasons[t] == reason {
        return;
      }
      if |state.reasons| > MAX_REASONS {
        state := state.(reasons := map[]);
      }
      state := state.(reasons := state.reasons[t := reason], log := state.log + [LogEntry(t, reason)]);
    }

    method RunTurn(turn: Turn) returns (pull: Option<Pull>)
      requires Shaped(turn, |state.queues|)
      modifies this
      ensures (state, pull) == TurnStep(old(state), turn)
    {
      pull := None;
      if !turn.limited {
        var i := 0;
        while i < |state.queues|
          invariant |state.queues| == old(|state.queues|) && i <= |state.queues| && pull.None?
          invariant Walk(state, turn, i) == Walk(old(state), turn, 0)
        {
          if turn.suspended[i] {
            break;
          }
          if !turn.schedulable[i] || turn.answers[i].Unreadable? {
            i := i + 1;
            continue;
          }
          var task := GetNextTask(i);
          if task.None? {
            i := i + 1;
            continue;
          }
          var t := task.value;
          if !turn.answers[i].ownerKnown {
            state := state.(status := state.status[t := Failed]);
            i := i + 1;
            continue;
          }
          assert state.log + [] == state.log;
          if t !in state.reasons {
            state := state.(log := state.log + [LogEntry(t, PULLED)]);
          }
          pull := Some(Pull(i, t));
          var raised := RunOneTask(i, t, turn.fate);
          if raised.Some? {
            state := Intervene(state, t, turn.fate);
            var waiting := ReEnqueueTask(i, t, turn.fate);
            if waiting {
              ReportReenqueuedTask(t, raised.value);
            } else {
              state := state.(reasons := state.reasons - {t});
            }
          } else {
            state := state.(reasons := state.reasons - {t});
          }
          break;
        }
      }
      state := state.(queues := Arrive(state.queues, turn.arrivals));
    }
  }

  // ---------------------------------------------------------------- a launch that hits the quota

  // The launch gets as far as kubectl and is rejected for quota.
  predicate HitsQuota(f: Fate) {
    (f.sameTenant ==> f.pushed) && f.search.FreePod? && f.template && f.applied.Quota?
  }

  // The status that the re-enqueue goes by is still "queued", or could not be read.
  predicate StillQueued(s: State, t: string, f: Fate) {
    || !f.statusRead
    || (f.userSet.Some? && f.userSet.value.Queued?)
    || (f.userSet.None? && (f.sameTenant || t !in s.status || s.status[t].Queued?))
  }

  lemma LaunchHitsQuota(s: State, i: nat, t: string, f: Fate)
    requires i < |s.queues| && HitsQuota(f)
    ensures
      var (s1, raised) := Launch(s, i, t, f);
      && raised == Some(f.applied.reason)
      && s1.queues == s.queues && s1.reasons == s.reasons && Remove(s1.pending, t) == Remove(s.pending, t)
      && s1.status == if f.sameTenant then s1.status[t := Queued] else s.status
  {
    RemoveLast(Remove(s.pending, t), t);
    RemoveAbsent(Remove(s.pending, t), t);
  }

  lemma PutBack(s: State, i: nat, t: string, f: Fate)
    requires i < |s.queues| && t !in s.queues[i]
    ensures
      var (s', waiting) := ReEnqueue(s, i, t, f);
      var held := f.statusRead && t in s.status && !s.status[t].Queued?;
      && s'.pending == Remove(s.pending, t)
      && (forall j :: 0 <= j < |s.queues| && j != i ==> s'.queues[j] == s.queues[j])
      && s'.queues[i] ==
           if held || !f.added then s.queues[i]
           else if f.moved then [t] + s.queues[i]
           else s.queues[i] + [t]
  {
    RemoveLast(s.queues[i], t);
    RemoveAbsent(s.queues[i], t);
  }

  // What a quota rejection leaves behind, for every combination of later failures.
  lemma QuotaOutcome(s: State, i: nat, f: Fate)
    requires i < |s.queues| && s.queues[i] != [] && HitsQuota(f)
    requires s.queues[i][0] !in s.queues[i][1..]
    ensures
      var q, t := s.queues[i], s.queues[i][0];
      var s' := Handle(Pop(s, i), i, t, f);
      && s'.pending == Remove(s.pending, t)
      && (forall j :: 0 <= j < |s.queues| && j != i ==> s'.queues[j] == s.queues[j])
      && s'.queues[i] ==
           (if !StillQueued(s, t, f) || !f.added then q[1..]
            else if f.moved then q
            else q[1..] + [t])
      && (StillQueued(s, t, f) ==> t in s'.status && s'.status[t] == if f.added then Queued else Failed)
      && (!StillQueued(s, t, f) ==>
            && t in s'.status && t !in s'.reasons
            && s'.status[t] == if f.userSet.Some? then f.userSet.value else s.status[t])
  {
    var t := s.queues[i][0];
    assert [t] + s.queues[i][1..] == s.queues[i];
    HandleQuota(Pop(s, i), i, t, f);
    QuotaStatus(Pop(s, i), i, t, f);
  }

  lemma ReEnqueueStatus(s: State, i: nat, t: string, f: Fate, reason: string)
    requires i < |s.queues|
    ensures
      var held := f.statusRead && t in s.status && !s.status[t].Queued?;
      var (s', waiting) := ReEnqueue(s, i, t, f);
      && waiting == (!held && f.added)
      && (held ==> s'.status == s.status) && (!held ==> t in s'.status)
      && (!held ==> s'.status[t] == if f.added then Queued else Failed)
      && Report(s', t, reason).status == s'.status
  {
  }

  lemma QuotaStatus(s: State, i: nat, t: string, f: Fate)
    requires i < |s.queues| && HitsQuota(f)
    ensures
      var s' := Handle(s, i, t, f);
      && (StillQueued(s, t, f) ==> t in s'.status && s'.status[t] == if f.added then Queued else Failed)
      && (!StillQueued(s, t, f) ==>
            && t in s'.status && t !in s'.reasons
            && s'.status[t] == if f.userSet.Some? then f.userSet.value else s.status[t])
  {
    var s0 := s.(log := s.log + (if t in s.reasons then [] else [LogEntry(t, PULLED)]));
    LaunchHitsQuota(s0, i, t, f);
    var s1 := Intervene(Launch(s0, i, t, f).0, t, f);
    ReEnqueueStatus(s1, i, t, f, f.applied.reason);
    assert StillQueued(s, t, f) <==> !(f.statusRead && t in s1.status && !s1.status[t].Queued?);
  }

  // The state after the re-enqueue, and what the log and the reasons are told afterwards.
  lemma HandleQuota(s: State, i: nat, t: string, f: Fate)
    requires i < |s.queues| && t !in s.queues[i] && HitsQuota(f)
    ensures
      var s' := Handle(s, i, t, f);
      && s'.pending == Remove(s.pending, t)
      && (forall j :: 0 <= j < |s.queues| && j != i ==> s'.queues[j] == s.queues[j])
      && s'.queues[i] ==
           (if !StillQueued(s, t, f) || !f.added then s.queues[i]
            else if f.moved then [t] + s.queues[i]
            else s.queues[i] + [t])
  {
    var s0 := s.(log := s.log + (if t in s.reasons then [] else [LogEntry(t, PULLED)]));
    LaunchHitsQuota(s0, i, t, f);
    PutBack(Intervene(Launch(s0, i, t, f).0, t, f), i, t, f);
  }

  // What a queue holds after a task was removed: the tasks around it.
  lemma {:induction false} RemoveMeaning(a: seq<string>, t: string, b: seq<string>)
    requires t !in a && t !in b
    ensures Remove(a + [t] + b, t) == a + b
  {
    if a == [] {
      RemoveAbsent(b, t);
      assert [] + [t] + b == [t] + b && ([t] + b)[1..] == b && [] + b == b;
    } else {
      assert (a + [t] + b)[0] == a[0] && (a + [t] + b)[1..] == a[1..] + [t] + b;
      RemoveMeaning(a[1..], t, b);
    }
  }

  lemma OtherStatus(s: State, i: nat, t: string, f: Fate)
    requires i < |s.queues| && !HitsQuota(f)
    ensures
      var s' := Handle(s, i, t, f);
      var before := if t in s.status then Some(s.status[t]) else None;
      var after := if t in s'.status then Some(s'.status[t]) else None;
      && (forall u :: u != t ==> (u in s'.status <==> u in s.status) && (u in s.status ==> s'.status[u] == s.status[u]))
      && after ==
           if f.sameTenant && !f.pushed then (if f.stopFirst then Some(Stopped) else before)
           else if f.search == AllTaken || f.search == CountFailed then Some(if f.enqueued then Queued else Stopped)
           else if !f.template || f.applied == Launched then (if f.sameTenant then Some(Queued) else before)
           else Some(Failed)
  {
  }

  lemma OtherQueues(s: State, i: nat, t: string, f: Fate)
    requires i < |s.queues| && !HitsQuota(f)
    ensures
      var s' := Handle(s, i, t, f);
      var pushed := if f.sameTenant then Remove(s.pending, t) + [t] else s.pending;
      && (forall j :: 0 <= j < |s.queues| && j != i ==> s'.queues[j] == s.queues[j])
      && s'.reasons == s.reasons - {t}
      && if f.sameTenant && !f.pushed then s'.queues[i] == s.queues[i] && s'.pending == Remove(s.pending, t)
         else if f.search == AllTaken || f.search == CountFailed then
           s'.queues[i] == (if f.enqueued then s.queues[i] + [t] else s.queues[i]) && s'.pending == pushed
         else if !f.template || f.applied == Launched then s'.queues[i] == s.queues[i] && s'.pending == pushed
         else f.applied == Rejected && s'.queues[i] == s.queues[i] && s'.pending == Remove(s.pending, t)
  {
    RemoveLast(Remove(s.pending, t), t);
    RemoveAbsent(Remove(s.pending, t), t);
  }

  // Every other end of a launch: the source queue, the pending queue and the status of the task. A push into the
  // pending queue is made for tasks of the own tenant only.
  lemma OtherOutcomes(s: State, i: nat, f: Fate)
    requires i < |s.queues| && s.queues[i] != [] && !HitsQuota(f)
    ensures
      var q, t := s.queues[i], s.queues[i][0];
      var s' := Handle(Pop(s, i), i, t, f);
      var before := if t in s.status then Some(s.status[t]) else None;
      var after := if t in s'.status then Some(s'.status[t]) else None;
      var pushed := if f.sameTenant then Remove(s.pending, t) + [t] else s.pending;
      && (forall j :: 0 <= j < |s.queues| && j != i ==> s'.queues[j] == s.queues[j])
      && (forall u :: u != t ==> (u in s'.status <==> u in s.status) && (u in s.status ==> s'.status[u] == s.status[u]))
      && s'.reasons == s.reasons - {t}
      && if f.sameTenant && !f.pushed then
           // the push failed
           && s'.queues[i] == q[1..] && s'.pending == Remove(s.pending, t)
           && after == (if f.stopFirst then Some(Stopped) else before)
         else if f.search == AllTaken || f.search == CountFailed then
           // no free pod
           && s'.queues[i] == (if f.enqueued then q[1..] + [t] else q[1..]) && s'.pending == pushed
           && after == Some(if f.enqueued then Queued else Stopped)
         else if !f.template || f.applied == Launched then
           // no template, or kubectl took the pod: the task is left where the push has put it
           && s'.queues[i] == q[1..] && s'.pending == pushed
           && after == (if f.sameTenant then Some(Queued) else before)
         else
           // kubectl rejected the pod
           && f.applied == Rejected
           && s'.queues[i] == q[1..] && s'.pending == Remove(s.pending, t)
           && after == Some(Failed)
  {
    var t := s.queues[i][0];
    OtherStatus(Pop(s, i), i, t, f);
    OtherQueues(Pop(s, i), i, t, f);
  }

  // An accepted pod leaves its task waiting at the end of the pending queue, a rejected one leaves it nowhere.
  lemma AcceptedOrRejected(s: State, i: nat, f: Fate)
    requires i < |s.queues| && s.queues[i] != [] && s.queues[i][0] !in s.queues[i][1..]
    requires f.sameTenant && f.pushed && f.search == FreePod && f.template && !f.applied.Quota?
    ensures
      var t := s.queues[i][0];
      var s' := Handle(Pop(s, i), i, t, f);
      && t !in s'.queues[i]
      && (f.applied == Launched ==>
            s'.pending != [] && s'.pending[|s'.pending| - 1] == t && t in s'.status && s'.status[t] == Queued)
      && (f.applied == Rejected ==> t !in s'.pending && t in s'.status && s'.status[t] == Failed)
  {
    OtherOutcomes(s, i, f);
  }

  // The source queue is exactly as it was before the pull, when the task's status was left alone and both
  // calls that put it back succeeded; and only then, except that a task alone in its queue needs no move.
  lemma QueueRestoredExactlyWhen(s: State, i: nat, f: Fate)
    requires i < |s.queues| && s.queues[i] != [] && HitsQuota(f)
    requires s.queues[i][0] !in s.queues[i][1..]
    ensures
      var t := s.queues[i][0];
      var s' := Handle(Pop(s, i), i, t, f);
      && t !in s'.pending
      && (s'.queues == s.queues <==> StillQueued(s, t, f) && f.added && (f.moved || |s.queues[i]| == 1))
  {
    var q, t := s.queues[i], s.queues[i][0];
    var s' := Handle(Pop(s, i), i, t, f);
    QuotaOutcome(s, i, f);
    assert [t] + q[1..] == q;
    if |q| == 1 {
      assert q[1..] + [t] == q;
    } else {
      assert (q[1..] + [t])[0] == q[1];
      assert q[1] in q[1..];
    }
    assert |q[1..]| < |q|;
    if s'.queues[i] == s.queues[i] {
      assert s'.queues == s.queues;
    }
  }

  // ---------------------------------------------------------------- strict priority over a run

  predicate Serves(s: State, turn: Turn, j: nat)
    requires Shaped(turn, |s.queues|) && j < |s.queues|
  {
    turn.schedulable[j] && turn.answers[j] == Readable(true) && s.queues[j] != []
  }

  predicate Skips(s: State, turn: Turn, j: nat)
    requires Shaped(turn, |s.queues|) && j < |s.queues|
  {
    !turn.schedulable[j] || turn.answers[j] == Unreadable || s.queues[j] == [] || turn.answers[j] == Readable(false)
  }

  lemma WalkStep(s: State, turn: Turn, from: nat)
    requires Shaped(turn, |s.queues|) && from < |s.queues|
    ensures turn.suspended[from] ==> Walk(s, turn, from).1 == None
    ensures !turn.suspended[from] && Skips(s, turn, from) ==>
      var next := if Loses(s, turn, from) then Orphaned(s, from) else s;
      Walk(s, turn, from) == Walk(next, turn, from + 1)
    ensures !turn.suspended[from] && Serves(s, turn, from) ==>
      Walk(s, turn, from).1 == Some(Pull(from, s.queues[from][0]))
    ensures Serves(s, turn, from) != Skips(s, turn, from)
  {
  }

  lemma {:induction false} WalkServes(s: State, turn: Turn, from: nat, k: nat, u: string)
    requires Shaped(turn, |s.queues|) && from <= k < |s.queues|
    ensures Walk(s, turn, from).1 == Some(Pull(k, u)) <==>
      && (forall j :: from <= j <= k ==> !turn.suspended[j])
      && Serves(s, turn, k) && u == s.queues[k][0] && forall j :: from <= j < k ==> Skips(s, turn, j)
    decreases |s.queues| - from
  {
    WalkStep(s, turn, from);
    if from < k && !turn.suspended[from] && Skips(s, turn, from) {
      var next := if Loses(s, turn, from) then Orphaned(s, from) else s;
      WalkServes(next, turn, from + 1, k, u);
      assert forall j :: from < j <= k ==> (Skips(next, turn, j) <==> Skips(s, turn, j));
    }
  }

  // The walk handles the head u of queue k exactly when no queue up to k is suspended, k can be scheduled and read
  // and the owner of u is known, and every earlier queue is skipped: it cannot be scheduled or read, it is empty, or
  // the owner of its head is not known. Of the queues that are passed, only such heads are lost, and these fail.
  lemma WalkMeaning(s: State, turn: Turn, from: nat, k: nat, u: string)
    requires Shaped(turn, |s.queues|) && from <= k < |s.queues|
    ensures Walk(s, turn, from).1 == Some(Pull(k, u)) <==>
      && (forall j :: from <= j <= k ==> !turn.suspended[j])
      && turn.schedulable[k] && turn.answers[k] == Readable(true) && s.queues[k] != [] && u == s.queues[k][0]
      && forall j :: from <= j < k ==>
           || !turn.schedulable[j] || turn.answers[j] == Unreadable || s.queues[j] == []
           || turn.answers[j] == Readable(false)
  {
    WalkServes(s, turn, from, k, u);
    forall j | from <= j < k
      ensures Skips(s, turn, j) <==>
        || !turn.schedulable[j] || turn.answers[j] == Unreadable || s.queues[j] == []
        || turn.answers[j] == Readable(false)
    {
    }
  }

  // The head of a queue was pulled and its owner is not known.
  function Orphaned(s: State, i: nat): (r: State)
    requires i < |s.queues| && s.queues[i] != []
    ensures |r.queues| == |s.queues| && forall j :: 0 <= j < |s.queues| && j != i ==> r.queues[j] == s.queues[j]
  {
    Pop(s, i).(status := s.status[s.queues[i][0] := Failed])
  }

  predicate Loses(s: State, turn: Turn, j: nat)
    requires Shaped(turn, |s.queues|) && j < |s.queues|
  {
    turn.schedulable[j] && turn.answers[j] == Readable(false) && s.queues[j] != []
  }

  // What a turn does to the queues it passes: all of them when nothing is handled and no queue is suspended.
  lemma {:induction false} WalkPasses(s: State, turn: Turn, from: nat, j: nat)
    requires Shaped(turn, |s.queues|) && from <= j < |s.queues|
    requires forall k :: from <= k <= j ==> !turn.suspended[k]
    requires Walk(s, turn, from).1.Some? ==> j < Walk(s, turn, from).1.value.queue
    ensures Walk(s, turn, from).0.queues[j] == if Loses(s, turn, j) then s.queues[j][1..] else s.queues[j]
    decreases |s.queues| - from
  {
    if !turn.schedulable[from] || turn.answers[from].Unreadable? || s.queues[from] == [] {
      if from < j { WalkPasses(s, turn, from + 1, j); } else { WalkLeaves(s, turn, from + 1, j); }
    } else if !turn.answers[from].ownerKnown {
      if from < j { WalkPasses(Orphaned(s, from), turn, from + 1, j); }
      else { WalkLeaves(Orphaned(s, from), turn, from + 1, j); }
    } else {
      assert false;
    }
  }

  // A walk leaves the queues before its start alone.
  lemma {:induction false} WalkLeaves(s: State, turn: Turn, from: nat, j: nat)
    requires Shaped(turn, |s.queues|) && j < from <= |s.queues|
    ensures Walk(s, turn, from).0.queues[j] == s.queues[j]
    decreases |s.queues| - from
  {
    if from < |s.queues| && !turn.suspended[from] {
      if !turn.schedulable[from] || turn.answers[from].Unreadable? || s.queues[from] == [] {
        WalkLeaves(s, turn, from + 1, j);
      } else if !turn.answers[from].ownerKnown {
        WalkLeaves(Orphaned(s, from), turn, from + 1, j);
      } else {
        HandleTouchesOneQueue(Pop(s, from), from, s.queues[from][0], turn.fate, j);
      }
    }
  }

  // Task t is at the head of queue i, and nowhere else in it.
  predicate Waiting(s: State, i: nat, t: string) {
    i < |s.queues| && s.queues[i] != [] && s.queues[i][0] == t && t !in s.queues[i][1..]
  }

  // All queues are schedulable and all queue reads succeed.
  predicate Healthy(turn: Turn) {
    (forall i :: 0 <= i < |turn.schedulable| ==> turn.schedulable[i])
    && (forall i :: 0 <= i < |turn.answers| ==> turn.answers[i] == Readable(true))
  }

  lemma LaunchTouchesOneQueue(s: State, i: nat, t: string, f: Fate, j: nat)
    requires i < |s.queues| && j < |s.queues| && i != j
    ensures Launch(s, i, t, f).0.queues[j] == s.queues[j]
    ensures ReEnqueue(s, i, t, f).0.queues[j] == s.queues[j]
  {
  }

  lemma HandleTouchesOneQueue(s: State, i: nat, t: string, f: Fate, j: nat)
    requires i < |s.queues| && j < |s.queues| && i != j
    ensures Handle(s, i, t, f).queues[j] == s.queues[j]
  {
    var s0 := s.(log := s.log + (if t in s.reasons then [] else [LogEntry(t, PULLED)]));
    LaunchTouchesOneQueue(s0, i, t, f, j);
    LaunchTouchesOneQueue(Intervene(Launch(s0, i, t, f).0, t, f), i, t, f, j);
  }

  lemma {:induction false} WalkServesHead(s: State, turn: Turn, from: nat, i: nat, t: string)
    requires Shaped(turn, |s.queues|) && Healthy(turn) && Waiting(s, i, t) && from <= i
    ensures
      var (s', pull) := Walk(s, turn, from);
      match pull
      case None => s' == s
      case Some(Pull(j, u)) =>
        && from <= j <= i && s.queues[j] != [] && u == s.queues[j][0]
        && s' == Handle(Pop(s, j), j, u, turn.fate)
        && (j == i ==> u == t)
    decreases |s.queues| - from
  {
    if !turn.suspended[from] && s.queues[from] == [] {
      WalkServesHead(s, turn, from + 1, i, t);
    }
  }

  // In one turn, a task at the head of its queue is passed over only for a higher-priority queue. It keeps
  // its place unless it is itself pulled, and even then if the quota rejects it and it is put back.
  lemma TurnServesHead(s: State, turn: Turn, i: nat, t: string)
    requires Shaped(turn, |s.queues|) && Healthy(turn) && Waiting(s, i, t)
    ensures
      var (s', pull) := TurnStep(s, turn);
      && (pull.Some? ==> pull.value.queue < i || pull == Some(Pull(i, t)))
      && (t !in turn.arrivals[i] && (pull == Some(Pull(i, t)) ==> Restoring(turn.fate)) ==> Waiting(s', i, t))
  {
    if !turn.limited {
      WalkServesHead(s, turn, 0, i, t);
      var (s1, pull) := Walk(s, turn, 0);
      if pull.Some? && pull.value.queue < i {
        HandleTouchesOneQueue(Pop(s, pull.value.queue), pull.value.queue, pull.value.task, turn.fate, i);
      } else if pull.Some? && Restoring(turn.fate) {
        QuotaOutcome(s, i, turn.fate);
      }
      if s1.queues[i] == s.queues[i] && t !in turn.arrivals[i] {
        ArrivalsGoBehind(s.queues[i], turn.arrivals[i], t);
      }
    } else if t !in turn.arrivals[i] {
      ArrivalsGoBehind(s.queues[i], turn.arrivals[i], t);
    }
  }

  lemma ArrivalsGoBehind(q: seq<string>, arrivals: seq<string>, t: string)
    requires q != [] && q[0] == t && t !in q[1..] && t !in arrivals
    ensures (q + arrivals)[0] == t && t !in (q + arrivals)[1..]
  {
    assert (q + arrivals)[1..] == q[1..] + arrivals;
  }

  // The launch is rejected for quota, the later calls succeed and no user touches the task.
  predicate Restoring(f: Fate) { HitsQuota(f) && f.sameTenant && f.userSet.None? && f.added && f.moved }

  // The state after the turns of a run.
  function Run(s: State, turns: seq<Turn>): (r: State)
    requires forall k :: 0 <= k < |turns| ==> Shaped(turns[k], |s.queues|)
    ensures |r.queues| == |s.queues|
  {
    if turns == [] then s else TurnStep(Run(s, turns[..|turns| - 1]), turns[|turns| - 1]).0
  }

  function LastPull(s: State, turns: seq<Turn>): Option<Pull>
    requires turns != [] && forall j :: 0 <= j < |turns| ==> Shaped(turns[j], |s.queues|)
  {
    TurnStep(Run(s, turns[..|turns| - 1]), turns[|turns| - 1]).1
  }

  // The task waits throughout the run: whenever it is pulled the quota rejects it again and it is put back,
  // and nobody appends it a second time.
  predicate RejectedThroughout(s: State, turns: seq<Turn>, i: nat, t: string)
    requires forall k :: 0 <= k < |turns| ==> Shaped(turns[k], |s.queues|)
  {
    turns == [] ||
    (var last := turns[|turns| - 1];
     && RejectedThroughout(s, turns[..|turns| - 1], i, t)
     && (i < |last.arrivals| ==> t !in last.arrivals[i])
     && (LastPull(s, turns) == Some(Pull(i, t)) ==> Restoring(last.fate)))
  }

  // Strict priority: as long as the task waits for quota, every task pulled comes from a queue of higher
  // priority or is that task itself, whatever users append meanwhile. As the run may end at any turn,
  // this holds of every pull of every run.
  lemma {:induction false} LowerQueuesWait(s: State, turns: seq<Turn>, i: nat, t: string)
    requires forall j :: 0 <= j < |turns| ==> Shaped(turns[j], |s.queues|) && Healthy(turns[j])
    requires Waiting(s, i, t) && RejectedThroughout(s, turns, i, t)
    ensures Waiting(Run(s, turns), i, t)
    ensures turns != [] && LastPull(s, turns).Some? ==>
      LastPull(s, turns).value.queue < i || LastPull(s, turns) == Some(Pull(i, t))
  {
    if turns != [] {
      var init, last := turns[..|turns| - 1], turns[|turns| - 1];
      LowerQueuesWait(s, init, i, t);
      TurnServesHead(Run(s, init), last, i, t);
    }
  }

  // ---------------------------------------------------------------- what a waiting task's log says

  // What becomes of a task that was pulled: it goes back to wait for a reason, or it leaves.
  datatype Note = Waits(task: string, reason: string) | Leaves(task: string)

  function NoteOf(s: State, i: nat, t: string, f: Fate): (n: Note)
    requires i < |s.queues|
    ensures n.task == t
  {
    var (s1, raised) := Launch(s, i, t, f);
    if raised.Some? && ReEnqueue(Intervene(s1, t, f), i, t, f).1 then Waits(t, raised.value) else Leaves(t)
  }

  function WalkNote(s: State, turn: Turn, i: nat): Option<Note>
    requires Shaped(turn, |s.queues|) && i <= |s.queues|
    decreases |s.queues| - i
  {
    if i == |s.queues| || turn.suspended[i] then None
    else if !turn.schedulable[i] || turn.answers[i].Unreadable? || s.queues[i] == [] then WalkNote(s, turn, i + 1)
    else
      var t, popped := s.queues[i][0], Pop(s, i);
      if !turn.answers[i].ownerKnown then WalkNote(popped.(status := popped.status[t := Failed]), turn, i + 1)
      else Some(NoteOf(popped, i, t, turn.fate))
  }

  function TurnNote(s: State, turn: Turn): Option<Note>
    requires Shaped(turn, |s.queues|)
  {
    if turn.limited then None else WalkNote(s, turn, 0)
  }

  // The report of this note empties the table of reasons.
  predicate Clears(reasons: map<string, string>, n: Note) {
    !IsKnown(reasons, n) && |reasons| > MAX_REASONS
  }

  // The table and the log after a note.
  function TableAfter(reasons: map<string, string>, n: Note): map<string, string> {
    match n
    case Leaves(t) => reasons - {t}
    case Waits(t, r) => (if Clears(reasons, n) then map[] else reasons)[t := r]
  }

  predicate IsKnown(reasons: map<string, string>, n: Note) {
    n.Leaves? || (n.task in reasons && reasons[n.task] == n.reason)
  }

  function PullEntry(reasons: map<string, string>, n: Note): seq<LogEntry> {
    if n.task in reasons then [] else [LogEntry(n.task, PULLED)]
  }

  function ReasonEntry(reasons: map<string, string>, n: Note): seq<LogEntry> {
    if IsKnown(reasons, n) then [] else [LogEntry(n.task, n.reason)]
  }

  function Entries(reasons: map<string, string>, n: Note): seq<LogEntry> {
    PullEntry(reasons, n) + ReasonEntry(reasons, n)
  }

  lemma LaunchIgnoresLog(s: State, log: seq<LogEntry>, i: nat, t: string, f: Fate)
    requires i < |s.queues|
    ensures Launch(s.(log := log), i, t, f) == (Launch(s, i, t, f).0.(log := log), Launch(s, i, t, f).1)
    ensures Launch(s, i, t, f).0.reasons == s.reasons && Launch(s, i, t, f).0.log == s.log
  {
  }

  lemma ReEnqueueIgnoresLog(s: State, log: seq<LogEntry>, i: nat, t: string, f: Fate)
    requires i < |s.queues|
    ensures ReEnqueue(s.(log := log), i, t, f) == (ReEnqueue(s, i, t, f).0.(log := log), ReEnqueue(s, i, t, f).1)
    ensures ReEnqueue(s, i, t, f).0.reasons == s.reasons && ReEnqueue(s, i, t, f).0.log == s.log
  {
  }

  lemma HandleNotes(s: State, i: nat, t: string, f: Fate)
    requires i < |s.queues|
    ensures
      var s', n := Handle(s, i, t, f), NoteOf(s, i, t, f);
      s'.reasons == TableAfter(s.reasons, n) && s'.log == s.log + Entries(s.reasons, n)
  {
    var log := s.log + PullEntry(s.reasons, NoteOf(s, i, t, f));
    NoteIgnoresLog(s, log, i, t, f);
    ResolveNotes(s.(log := log), i, t, f);
    assert log + ReasonEntry(s.reasons, NoteOf(s, i, t, f)) == s.log + Entries(s.reasons, NoteOf(s, i, t, f));
  }

  lemma NoteIgnoresLog(s: State, log: seq<LogEntry>, i: nat, t: string, f: Fate)
    requires i < |s.queues|
    ensures NoteOf(s.(log := log), i, t, f) == NoteOf(s, i, t, f)
  {
    var s1 := Launch(s, i, t, f).0;
    LaunchIgnoresLog(s, log, i, t, f);
    assert Intervene(s1.(log := log), t, f) == Intervene(s1, t, f).(log := log);
    ReEnqueueIgnoresLog(Intervene(s1, t, f), log, i, t, f);
  }

  lemma ReportNotes(s: State, t: string, reason: string)
    ensures Report(s, t, reason).reasons == TableAfter(s.reasons, Waits(t, reason))
    ensures Report(s, t, reason).log == s.log + ReasonEntry(s.reasons, Waits(t, reason))
  {
    assert s.log + [] == s.log;
    if t in s.reasons && s.reasons[t] == reason { assert s.reasons[t := reason] == s.reasons; }
  }

  lemma ResolveNotes(s: State, i: nat, t: string, f: Fate)
    requires i < |s.queues|
    ensures
      var s', n := Resolve(s, i, t, f), NoteOf(s, i, t, f);
      s'.reasons == TableAfter(s.reasons, n) && s'.log == s.log + ReasonEntry(s.reasons, n)
  {
    var (s1, raised) := Launch(s, i, t, f);
    LaunchIgnoresLog(s, s.log, i, t, f);
    assert s.log + [] == s.log;
    if raised.Some? {
      var (s2, waiting) := ReEnqueue(Intervene(s1, t, f), i, t, f);
      ReEnqueueIgnoresLog(Intervene(s1, t, f), s.log, i, t, f);
      ReportNotes(s2, t, raised.value);
    }
  }

  lemma {:induction false} WalkNotes(s: State, turn: Turn, i: nat)
    requires Shaped(turn, |s.queues|) && i <= |s.queues|
    ensures
      var s', n := Walk(s, turn, i).0, WalkNote(s, turn, i);
      if n.None? then s'.reasons == s.reasons && s'.log == s.log
      else s'.reasons == TableAfter(s.reasons, n.value) && s'.log == s.log + Entries(s.reasons, n.value)
    decreases |s.queues| - i
  {
    if i < |s.queues| && !turn.suspended[i] {
      if !turn.schedulable[i] || turn.answers[i].Unreadable? || s.queues[i] == [] {
        WalkNotes(s, turn, i + 1);
      } else {
        var t, popped := s.queues[i][0], Pop(s, i);
        if !turn.answers[i].ownerKnown {
          WalkNotes(popped.(status := popped.status[t := Failed]), turn, i + 1);
        } else {
          HandleNotes(popped, i, t, turn.fate);
        }
      }
    }
  }

  lemma TurnNotes(s: State, turn: Turn)
    requires Shaped(turn, |s.queues|)
    ensures
      var s', n := TurnStep(s, turn).0, TurnNote(s, turn);
      if n.None? then s'.reasons == s.reasons && s'.log == s.log
      else s'.reasons == TableAfter(s.reasons, n.value) && s'.log == s.log + Entries(s.reasons, n.value)
  {
    if !turn.limited { WalkNotes(s, turn, 0); }
  }

  // The entries of one task.
  function Said(log: seq<LogEntry>, t: string): seq<string> {
    if log == [] then []
    else
      var n := |log| - 1;
      Said(log[..n], t) + (if log[n].task == t then [log[n].text] else [])
  }

  lemma {:induction false} SaidConcat(a: seq<LogEntry>, b: seq<LogEntry>, t: string)
    ensures Said(a + b, t) == Said(a, t) + Said(b, t)
  {
    if b == [] {
      assert a + b == a && Said(a, t) + [] == Said(a, t);
    } else {
      var n := |b| - 1;
      assert (a + b)[..|a| + n] == a + b[..n];
      SaidConcat(a, b[..n], t);
    }
  }

  function Logged(s: State, t: string): Option<string> {
    if t in s.reasons then Some(s.reasons[t]) else None
  }

  // The reason for which a task was last put back, if it has not left since, and whether the table of reasons
  // was emptied for the sake of another task since then.
  datatype Wait = Wait(reason: Option<string>, forgotten: bool)

  function WaitAfter(s: State, turns: seq<Turn>, t: string): Wait
    requires forall k :: 0 <= k < |turns| ==> Shaped(turns[k], |s.queues|)
  {
    if turns == [] then Wait(Logged(s, t), false)
    else
      var init := turns[..|turns| - 1];
      var before, w, note := WaitAfter(s, init, t), Run(s, init), TurnNote(Run(s, init), turns[|turns| - 1]);
      match note
      case None => before
      case Some(Leaves(u)) => if u == t then Wait(None, false) else before
      case Some(Waits(u, r)) =>
        if u == t then Wait(Some(r), false) else before.(forgotten := before.forgotten || Clears(w.reasons, note.value))
  }

  // What the log of the task should say: that it was pulled, when a wait begins, and every change of the reason.
  function Due(s: State, turns: seq<Turn>, t: string): seq<string>
    requires forall k :: 0 <= k < |turns| ==> Shaped(turns[k], |s.queues|)
  {
    if turns == [] then []
    else
      var init := turns[..|turns| - 1];
      var note := TurnNote(Run(s, init), turns[|turns| - 1]);
      Due(s, init, t)
      + (if note.None? || note.value.task != t then [] else NewsOf(WaitAfter(s, init, t).reason, note.value))
  }

  function NewsOf(last: Option<string>, n: Note): seq<string> {
    (if last.None? then [PULLED] else [])
    + (if n.Leaves? || last == Some(n.reason) then [] else [n.reason])
  }

  // The task is never pulled again after it was forgotten while it waited.
  predicate Remembered(s: State, turns: seq<Turn>, t: string)
    requires forall k :: 0 <= k < |turns| ==> Shaped(turns[k], |s.queues|)
  {
    turns == [] ||
    (var init := turns[..|turns| - 1];
     var before, note := WaitAfter(s, init, t), TurnNote(Run(s, init), turns[|turns| - 1]);
     Remembered(s, init, t)
     && (note.Some? && note.value.task == t ==> !(before.reason.Some? && before.forgotten)))
  }

  lemma {:induction false} TableTellsWait(s: State, turns: seq<Turn>, t: string)
    requires forall k :: 0 <= k < |turns| ==> Shaped(turns[k], |s.queues|)
    ensures
      var w := WaitAfter(s, turns, t);
      Logged(Run(s, turns), t) == if w.forgotten then None else w.reason
  {
    if turns != [] {
      var init, last := turns[..|turns| - 1], turns[|turns| - 1];
      TableTellsWait(s, init, t);
      TurnNotes(Run(s, init), last);
    }
  }

  lemma SaidOfOne(log: seq<LogEntry>, t: string)
    requires |log| <= 1
    ensures Said(log, t) == if log != [] && log[0].task == t then [log[0].text] else []
  {
    if log != [] {
      assert log[..0] == [];
      assert Said([], t) + (if log[0].task == t then [log[0].text] else [])
        == if log[0].task == t then [log[0].text] else [];
    }
  }

  lemma SaidOfNote(reasons: map<string, string>, n: Note, t: string)
    ensures n.task != t ==> Said(Entries(reasons, n), t) == []
    ensures n.task == t ==>
      Said(Entries(reasons, n), t) ==
        (if t in reasons then [] else [PULLED]) + (if IsKnown(reasons, n) then [] else [n.reason])
  {
    SaidConcat(PullEntry(reasons, n), ReasonEntry(reasons, n), t);
    SaidOfOne(PullEntry(reasons, n), t);
    SaidOfOne(ReasonEntry(reasons, n), t);
  }

  // Over any run of turns, with any other tasks in between, the log of a task says that it was pulled when a
  // wait begins and names each change of the reason, and nothing else, exactly when the task was never forgotten
  // while it waited and then pulled again. Otherwise it says more.
  lemma {:induction false} LoggedOncePerReason(s: State, turns: seq<Turn>, t: string)
    requires forall k :: 0 <= k < |turns| ==> Shaped(turns[k], |s.queues|)
    ensures Remembered(s, turns, t) ==> Said(Run(s, turns).log, t) == Said(s.log, t) + Due(s, turns, t)
    ensures !Remembered(s, turns, t) ==> |Said(Run(s, turns).log, t)| > |Said(s.log, t)| + |Due(s, turns, t)|
  {
    if turns == [] {
      assert Said(s.log, t) + [] == Said(s.log, t);
    } else {
      var init, last := turns[..|turns| - 1], turns[|turns| - 1];
      var w, note := Run(s, init), TurnNote(Run(s, init), last);
      LoggedOncePerReason(s, init, t);
      TableTellsWait(s, init, t);
      TurnNotes(w, last);
      if note.Some? {
        SaidConcat(w.log, Entries(w.reasons, note.value), t);
        SaidOfNote(w.reasons, note.value, t);
        if note.value.task == t {
          NewsIsSaid(w.reasons, WaitAfter(s, init, t), note.value);
          Reassociate(Said(s.log, t), Due(s, init, t), NewsOf(WaitAfter(s, init, t).reason, note.value));
        }
      }
      assert Said(w.log, t) + [] == Said(w.log, t) && Due(s, init, t) + [] == Due(s, init, t);
    }
  }

  // What is logged for a task is what is due, unless it was forgotten; then it is more.
  lemma NewsIsSaid(reasons: map<string, string>, wait: Wait, n: Note)
    requires (if n.task in reasons then Some(reasons[n.task]) else None)
      == (if wait.forgotten then None else wait.reason)
    ensures
      var said, due := Said(Entries(reasons, n), n.task), NewsOf(wait.reason, n);
      if wait.reason.Some? && wait.forgotten then |said| > |due| else said == due
  {
    SaidOfNote(reasons, n, n.task);
  }

  // n tasks waiting for the same reason.
  function Crowd(n: nat): (reasons: map<string, string>)
    ensures |reasons| == n && forall t :: t in reasons <==> 1 <= |t| <= n && t == Name(|t|)
    ensures forall t :: t in reasons ==> reasons[t] == "quota"
  {
    if n == 0 then map[] else Crowd(n - 1)[Name(n) := "quota"]
  }

  function Name(n: nat): (t: string)
    ensures |t| == n
  {
    seq(n, _ => 't')
  }

  const NO_QUOTA := Fate(false, false, true, FreePod, true, true, Quota("quota"), None, false, true, true)

  // A turn over two queues, of which the second and perhaps the first can be served, with a launch that is
  // rejected for quota.
  function QuotaTurn(first: bool): Turn {
    Turn(false, [false, false], [first, true], [Readable(true), Readable(true)], NO_QUOTA, [[], []])
  }

  lemma QuotaTurnNotes(s: State, first: bool)
    requires |s.queues| == 2 && |s.queues[0]| == 1 && |s.queues[1]| == 1
    ensures TurnNote(s, QuotaTurn(first)) == Some(Waits(s.queues[if first then 0 else 1][0], "quota"))
    ensures TurnStep(s, QuotaTurn(first)).0.queues == s.queues
  {
    var turn, i := QuotaTurn(first), if first then 0 else 1;
    var t, popped := s.queues[i][0], Pop(s, i);
    assert s.queues[i] == [t] && popped.queues[i] == [];
    assert WalkNote(s, turn, i) == Some(NoteOf(popped, i, t, NO_QUOTA));
    assert Walk(s, turn, i) == (Handle(popped, i, t, NO_QUOTA), Some(Pull(i, t)));
    QuotaOutcome(s, i, NO_QUOTA);
    assert Handle(popped, i, t, NO_QUOTA).queues == s.queues;
    forall j | 0 <= j < 2 ensures Arrive(s.queues, turn.arrivals)[j] == s.queues[j] {
      assert turn.arrivals[j] == [] && s.queues[j] + [] == s.queues[j];
    }
  }

  // A pull and a rejection of a task that the table does not have.
  lemma NewTaskNotes(s: State, first: bool, t: string)
    requires |s.queues| == 2 && |s.queues[0]| == 1 && |s.queues[1]| == 1
    requires t == s.queues[if first then 0 else 1][0] && t !in s.reasons
    ensures
      var s' := TurnStep(s, QuotaTurn(first)).0;
      && s'.queues == s.queues && s'.log == s.log + [LogEntry(t, PULLED), LogEntry(t, "quota")]
      && s'.reasons == (if |s.reasons| > MAX_REASONS then map[] else s.reasons)[t := "quota"]
  {
    QuotaTurnNotes(s, first);
    TurnNotes(s, QuotaTurn(first));
    assert Entries(s.reasons, Waits(t, "quota")) == [LogEntry(t, PULLED)] + [LogEntry(t, "quota")];
  }

  lemma RunOfTwo(s: State, one: Turn, two: Turn)
    requires Shaped(one, |s.queues|) && Shaped(two, |s.queues|)
    ensures Run(s, [one]) == TurnStep(s, one).0
    ensures Run(s, [one, two]) == TurnStep(TurnStep(s, one).0, two).0
  {
    assert [one, two][..1] == [one] && [one][..0] == [];
  }

  lemma NothingDue(s: State, one: Turn, two: Turn, t: string, u: string)
    requires Shaped(one, |s.queues|) && Shaped(two, |s.queues|) && t != u && Logged(s, t) == Some("quota")
    requires TurnNote(s, one) == Some(Waits(u, "quota"))
    requires TurnNote(TurnStep(s, one).0, two) == Some(Waits(t, "quota"))
    ensures Due(s, [one, two], t) == []
  {
    RunOfTwo(s, one, two);
    assert [one, two][..1] == [one] && [one][..0] == [];
    assert WaitAfter(s, [one], t).reason == WaitAfter(s, [], t).reason == Some("quota");
    assert Due(s, [one], t) == Due(s, [], t) + [] == [];
  }

  // The table holds more than a thousand tasks when one more, u, is put back in one turn, and in the next turn t
  // is pulled and put back for the reason it had before: nothing is due, but the pull and the reason are logged
  // again.
  lemma FullTableForgets(s: State, n: nat, t: string, u: string)
    requires n > 1000 && s.reasons == Crowd(n) && t in Crowd(n) && u !in Crowd(n)
    requires s.queues == [[u], [t]]
    ensures
      var turns := [QuotaTurn(true), QuotaTurn(false)];
      && Due(s, turns, t) == []
      && Run(s, turns).log ==
           s.log + [LogEntry(u, PULLED), LogEntry(u, "quota")] + [LogEntry(t, PULLED), LogEntry(t, "quota")]
  {
    var one, two := QuotaTurn(true), QuotaTurn(false);
    var s1 := TurnStep(s, one).0;
    NewTaskNotes(s, true, u);
    NewTaskNotes(s1, false, t);
    QuotaTurnNotes(s, true);
    QuotaTurnNotes(s1, false);
    RunOfTwo(s, one, two);
    NothingDue(s, one, two, t, u);
  }
}
