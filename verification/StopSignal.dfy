/**
 The task stop monitor: it is polled while a task runs and says whether, and why, the task must stop.

 A reset has to be seen repeatedly before it counts, and a task with a registered abort callback is given a
 bounded time to run it.
 */
module StopSignal {
  import opened Options
  import opened Sequences

  datatype Status =
    | Created | Queued | InProgress | Stopped | Published | Publishing | Closed | Failed | Completed | Unknown

  datatype Reason = NoStop | StopRequested | Reset | StatusChanged | Exception | NotFound

  // The server's answer to the poll.
  datatype Reply = Missing | Unavailable | Task(status: Status, message: Option<string>)

  // A runtime property of the task as it is read back: absent, not a number, or a number. The properties are
  // stored as text, so a registered "0" is present. An empty text counts as absent for the timeout, and is not
  // a number for the poll frequency.
  datatype Property = Unset | Malformed | Number(value: real)

  datatype Stat = Stat(timeout: Property, frequency: Property, completed: bool)

  // Everything one poll gets from outside: the version check (None: it raised), the server's answer, the
  // clock, whether the callback is reported complete, the registered properties, the clock when the wait
  // is started, and whether the callback thread has ended since the last poll.
  datatype Poll = Poll(
    version: Option<bool>, reply: Reply, now: real, completed: bool, stat: Stat, armedAt: real, threadEnded: bool)

  datatype Config = Config(maxTimeout: real, bashCallback: bool)

  // `since` and `timeout` are the start and the length of the wait; `launches` counts the threads started.
  datatype State = State(
    counter: nat, supported: Option<bool>, since: Option<real>, timeout: real, thread: bool, launches: nat)

  const RESET_TESTS: nat := 4

  const INITIAL := State(0, None, None, 0.0, false, 0)

  predicate Unexpected(s: Status) {
    s.Closed? || s.Stopped? || s.Failed? || s.Published? || s.Queued?
  }

  datatype Kind =
    | Broken       // the poll failed
    | Immediate    // the task has to stop now
    | SawCreated
    | Neutral

  // What a poll sees; with no status message on a running task the check itself raises.
  function KindOf(supported: Option<bool>, p: Poll): Kind {
    if supported.None? && p.version.None? then Broken
    else if !p.reply.Task? then Broken
    else if p.reply.status.InProgress? && p.reply.message.None? then Broken
    else if p.reply.status.InProgress? && Contains(p.reply.message.value, "stopping") then Immediate
    else if Unexpected(p.reply.status) then Immediate
    else if p.reply.status.Created? then SawCreated
    else Neutral
  }

  // ---------------------------------------------------------------- the wait for the abort callback

  datatype Wait = NoCallback | Hold | Done

  function Min(a: real, b: real): real { if a <= b then a else b }

  predicate Usable(stat: Stat) { stat.timeout.Number? && !stat.frequency.Malformed? }

  function Budget(stat: Stat, max: real): real
    requires Usable(stat)
  {
    Min(stat.timeout.value + (if stat.frequency.Number? then stat.frequency.value else 0.0), max)
  }

  function WaitStep(cfg: Config, s: State, p: Poll): (State, Wait) {
    if s.supported != Some(true) then (s, NoCallback)
    else if s.since.Some? then
      (s, if p.now - s.since.value < s.timeout && !p.completed then Hold else Done)
    else if !Usable(p.stat) then (s, NoCallback)
    else
      var launch := cfg.bashCallback && !s.thread;
      (s.(since := Some(p.armedAt), timeout := Budget(p.stat, cfg.maxTimeout),
          thread := s.thread || launch, launches := s.launches + (if launch then 1 else 0)),
       if p.stat.completed then Done else Hold)
  }

  // ---------------------------------------------------------------- one poll

  function Begin(s: State, p: Poll): State {
    var s1 := if p.threadEnded then s.(thread := false) else s;
    if s1.supported.None? then s1.(supported := p.version) else s1
  }

  function ImmediateReason(p: Poll): Reason
    requires p.reply.Task?
  {
    if p.reply.status.InProgress? then StopRequested
    else if p.reply.status.Failed? then Exception
    else StatusChanged
  }

  function PollStep(cfg: Config, s: State, p: Poll): (State, Reason) {
    var s1 := Begin(s, p);
    match KindOf(s.supported, p)
    case Broken => (s1, if s1.supported.Some? && p.reply.Missing? then NotFound else NoStop)
    case Immediate =>
      var (s2, wait) := WaitStep(cfg, s1, p);
      (s2, if wait.Hold? then NoStop else ImmediateReason(p))
    case SawCreated =>
      if s1.counter >= RESET_TESTS then
        var (s2, wait) := WaitStep(cfg, s1, p);
        (s2, if wait.Hold? then NoStop else Reset)
      else (s1.(counter := s1.counter + 1), NoStop)
    case Neutral => (s1.(counter := 0), NoStop)
  }

  class TaskStopSignal {
    const cfg: Config
    var counter: nat
    var supported: Option<bool>
    var since: Option<real>
    var timeout: real
    var thread: bool
    var launches: nat

    function Now(): State reads this { State(counter, supported, since, timeout, thread, launches) }

    constructor (cfg: Config)
      ensures Now() == INITIAL && this.cfg == cfg
    {
      this.cfg := cfg;
      counter, supported, since, timeout, thread, launches := 0, None, None, 0.0, false, 0;
    }

    method WaitForAbortCallback(p: Poll) returns (wait: Wait)
      modifies this
      ensures (Now(), wait) == WaitStep(cfg, old(Now()), p)
    {
      if supported != Some(true) {
        return NoCallback;
      }
      if since.Some? {
        if p.now - since.value < timeout {
          if !p.completed {
            return Hold;
          }
        }
        return Done;
      }
      if p.stat.timeout.Unset? || p.stat.timeout.Malformed? || p.stat.frequency.Malformed? {
        return NoCallback;
      }
      var budget := Budget(p.stat, cfg.maxTimeout);
      if cfg.bashCallback && !thread {
        thread := true;
        launches := launches + 1;
      }
      since := Some(p.armedAt);
      timeout := budget;
      wait := if p.stat.completed then Done else Hold;
    }

    method Test(p: Poll) returns (reason: Reason)
      modifies this
      ensures (Now(), reason) == PollStep(cfg, old(Now()), p)
    {
      if p.threadEnded {
        thread := false;
      }
      if supported.None? {
        supported := p.version;
        if supported.None? {
          return NoStop;
        }
      }
      if p.reply.Missing? {
        return NotFound;
      }
      if p.reply.Unavailable? {
        return NoStop;
      }
      var status, message := p.reply.status, p.reply.message;
      if status.InProgress? && message.None? {
        return NoStop;
      }
      var wait: Wait;
      if status.InProgress? && Contains(message.value, "stopping") {
        wait := WaitForAbortCallback(p);
        if wait.Hold? {
          return NoStop;
        }
        return StopRequested;
      }
      if Unexpected(status) {
        wait := WaitForAbortCallback(p);
        if wait.Hold? {
          return NoStop;
        }
        return if status.Failed? then Exception else StatusChanged;
      }
      if status.Created? {
        if counter >= RESET_TESTS {
          wait := WaitForAbortCallback(p);
          if wait.Hold? {
            return NoStop;
          }
          return Reset;
        }
        counter := counter + 1;
      } else {
        counter := 0;
      }
      reason := NoStop;
    }
  }

  // ---------------------------------------------------------------- runs

  function Run(cfg: Config, polls: seq<Poll>): State {
    if polls == [] then INITIAL
    else PollStep(cfg, Run(cfg, polls[..|polls| - 1]), polls[|polls| - 1]).0
  }

  // The answer of the last poll of a run.
  function Answer(cfg: Config, polls: seq<Poll>): Reason
    requires polls != []
  {
    PollStep(cfg, Run(cfg, polls[..|polls| - 1]), polls[|polls| - 1]).1
  }

  function LastKind(cfg: Config, polls: seq<Poll>): Kind
    requires polls != []
  {
    KindOf(Run(cfg, polls[..|polls| - 1]).supported, polls[|polls| - 1])
  }

  // How many polls saw `created` since the last successful poll with a neutral status.
  function CreatedSinceNeutral(cfg: Config, polls: seq<Poll>): nat {
    if polls == [] then 0
    else
      var before := CreatedSinceNeutral(cfg, polls[..|polls| - 1]);
      match LastKind(cfg, polls)
      case SawCreated => before + 1
      case Neutral => 0
      case Immediate => before
      case Broken => before
  }

  // The counter is that number, up to four; polls that fail or see an immediate stop condition leave it alone,
  // held back or not.
  lemma {:induction false} CounterMeaning(cfg: Config, polls: seq<Poll>)
    ensures
      var n := CreatedSinceNeutral(cfg, polls);
      Run(cfg, polls).counter == if n <= RESET_TESTS then n else RESET_TESTS
    ensures polls != [] && (LastKind(cfg, polls).Broken? || LastKind(cfg, polls).Immediate?) ==>
      Run(cfg, polls).counter == Run(cfg, polls[..|polls| - 1]).counter
  {
    if polls != [] {
      CounterMeaning(cfg, polls[..|polls| - 1]);
    }
  }

  // Whether the last poll of a run is held back by the wait for the callback.
  function HeldBack(cfg: Config, polls: seq<Poll>): bool
    requires polls != []
  {
    var p := polls[|polls| - 1];
    WaitStep(cfg, Begin(Run(cfg, polls[..|polls| - 1]), p), p).1.Hold?
  }

  // A poll reports reset exactly when it sees `created` after at least four earlier polls did since the
  // last neutral one, and the callback does not hold it back.
  lemma ResetExactlyAfterFour(cfg: Config, polls: seq<Poll>)
    requires polls != []
    ensures Answer(cfg, polls) == Reset <==>
      && LastKind(cfg, polls).SawCreated?
      && CreatedSinceNeutral(cfg, polls[..|polls| - 1]) >= RESET_TESTS
      && !HeldBack(cfg, polls)
  {
    CounterMeaning(cfg, polls[..|polls| - 1]);
  }

  // ---------------------------------------------------------------- what a poll answers

  // The poll got through to the task's status and message: the server's version is known by then, the task was
  // read, and the check of the message of a running task did not raise.
  predicate Arrived(polls: seq<Poll>)
    requires polls != []
  {
    var reply := polls[|polls| - 1].reply;
    && (exists i :: 0 <= i < |polls| && polls[i].version.Some?)
    && reply.Task? && !(reply.status == InProgress && reply.message == None)
  }

  // How many polls found the task created since the last that found it neither created nor to be stopped.
  function Sightings(polls: seq<Poll>): nat {
    if polls == [] then 0
    else
      var before, reply := Sightings(polls[..|polls| - 1]), polls[|polls| - 1].reply;
      if !Arrived(polls) then before
      else
        match reply.status
        case Created => before + 1
        case InProgress => if Contains(reply.message.value, "stopping") then before else 0
        case Closed => before
        case Stopped => before
        case Failed => before
        case Published => before
        case Queued => before
        case Publishing => 0
        case Completed => 0
        case Unknown => 0
  }

  lemma {:induction false} VersionIsKnown(cfg: Config, polls: seq<Poll>)
    ensures Run(cfg, polls).supported.Some? <==> exists i :: 0 <= i < |polls| && polls[i].version.Some?
  {
    if polls != [] {
      var n := |polls| - 1;
      VersionIsKnown(cfg, polls[..n]);
      assert forall i :: 0 <= i < n ==> polls[..n][i] == polls[i];
    }
  }

  lemma ArrivedMeaning(cfg: Config, polls: seq<Poll>)
    requires polls != []
    ensures Arrived(polls) <==> !LastKind(cfg, polls).Broken?
  {
    var n := |polls| - 1;
    VersionIsKnown(cfg, polls[..n]);
    assert forall i :: 0 <= i < n ==> polls[..n][i] == polls[i];
  }

  lemma {:induction false} SightingsMeaning(cfg: Config, polls: seq<Poll>)
    ensures Sightings(polls) == CreatedSinceNeutral(cfg, polls)
  {
    if polls != [] {
      SightingsMeaning(cfg, polls[..|polls| - 1]);
      ArrivedMeaning(cfg, polls);
    }
  }

  // What a poll answers when no callback holds it back.
  lemma AnswerMeaning(cfg: Config, polls: seq<Poll>)
    requires polls != [] && Arrived(polls) && !HeldBack(cfg, polls)
    ensures
      var reply := polls[|polls| - 1].reply;
      Answer(cfg, polls) ==
        match reply.status
        case InProgress => if Contains(reply.message.value, "stopping") then StopRequested else NoStop
        case Failed => Exception
        case Closed => StatusChanged
        case Stopped => StatusChanged
        case Published => StatusChanged
        case Queued => StatusChanged
        case Created => if Sightings(polls[..|polls| - 1]) < 4 then NoStop else Reset
        case Publishing => NoStop
        case Completed => NoStop
        case Unknown => NoStop
  {
    var init := polls[..|polls| - 1];
    ArrivedMeaning(cfg, polls);
    SightingsMeaning(cfg, init);
    CounterMeaning(cfg, init);
  }

  // A poll that does not get that far never stops the task, except that a missing task is reported once the
  // version is known; the callback is not asked, and nothing but the version and the thread is noted.
  lemma FailedPollAnswers(cfg: Config, polls: seq<Poll>)
    requires polls != [] && !Arrived(polls)
    ensures
      var known := exists i :: 0 <= i < |polls| && polls[i].version.Some?;
      Answer(cfg, polls) == if known && polls[|polls| - 1].reply == Missing then NotFound else NoStop
    ensures
      var before, after := Run(cfg, polls[..|polls| - 1]), Run(cfg, polls);
      after.counter == before.counter && after.since == before.since && after.timeout == before.timeout
      && after.launches == before.launches
  {
    ArrivedMeaning(cfg, polls);
    VersionIsKnown(cfg, polls);
  }

  // Whether a poll is held back, told from the polls: the backend supports callbacks, and the wait runs, or starts
  // with this poll.
  lemma HeldBackMeaning(cfg: Config, polls: seq<Poll>)
    requires polls != [] && Arrived(polls)
    ensures
      var s, p := Run(cfg, polls[..|polls| - 1]), polls[|polls| - 1];
      HeldBack(cfg, polls) <==>
        && Supported(polls)
        && if s.since.Some? then p.now < s.since.value + s.timeout && !p.completed
           else p.stat.timeout.Number? && !p.stat.frequency.Malformed? && !p.stat.completed
  {
    SupportedMeaning(cfg, polls);
  }

  // The first version check that did not raise said that callbacks are supported.
  predicate Supported(polls: seq<Poll>) {
    polls != [] &&
    (Supported(polls[..|polls| - 1])
     || (polls[|polls| - 1].version == Some(true)
         && forall i :: 0 <= i < |polls| - 1 ==> polls[i].version == None))
  }

  lemma StepKeepsSupport(cfg: Config, s: State, p: Poll)
    ensures PollStep(cfg, s, p).0.supported == if s.supported.None? then p.version else s.supported
    ensures Begin(s, p).supported == PollStep(cfg, s, p).0.supported
  {
  }

  lemma {:induction false} SupportedMeaning(cfg: Config, polls: seq<Poll>)
    ensures Run(cfg, polls).supported == Some(true) <==> Supported(polls)
    ensures polls != [] ==>
      Begin(Run(cfg, polls[..|polls| - 1]), polls[|polls| - 1]).supported == Run(cfg, polls).supported
  {
    if polls != [] {
      var n := |polls| - 1;
      SupportedMeaning(cfg, polls[..n]);
      VersionIsKnown(cfg, polls[..n]);
      StepKeepsSupport(cfg, Run(cfg, polls[..n]), polls[n]);
      assert Run(cfg, polls[..n]).supported.None? <==> forall i :: 0 <= i < n ==> polls[i].version == None by {
        assert forall i :: 0 <= i < n ==> polls[..n][i] == polls[i];
      }
    }
  }

  // ---------------------------------------------------------------- the wait over a run

  predicate LaunchesOk(cfg: Config, s: State) {
    && (s.since.None? ==> s.launches == 0 && !s.thread)
    && (s.since.Some? ==> s.timeout <= cfg.maxTimeout && s.launches == (if cfg.bashCallback then 1 else 0))
  }

  lemma StepKeepsLaunches(cfg: Config, s: State, p: Poll)
    requires LaunchesOk(cfg, s)
    ensures LaunchesOk(cfg, PollStep(cfg, s, p).0)
  {
  }

  // The callback thread is started at most once, only together with the wait, and the recorded timeout
  // never exceeds the configured maximum.
  lemma {:induction false} CallbackStartsOnce(cfg: Config, polls: seq<Poll>)
    ensures Run(cfg, polls).launches <= 1 && LaunchesOk(cfg, Run(cfg, polls))
  {
    if polls != [] {
      CallbackStartsOnce(cfg, polls[..|polls| - 1]);
      StepKeepsLaunches(cfg, Run(cfg, polls[..|polls| - 1]), polls[|polls| - 1]);
    }
  }

  lemma StepKeepsWait(cfg: Config, s: State, p: Poll)
    requires s.since.Some?
    ensures
      var s' := PollStep(cfg, s, p).0;
      s'.since == s.since && s'.timeout == s.timeout && s'.launches == s.launches
  {
  }

  // Once started, the wait keeps its start and its timeout, whatever is polled afterwards.
  lemma {:induction false} WaitNeverRestarts(cfg: Config, polls: seq<Poll>, more: seq<Poll>)
    requires Run(cfg, polls).since.Some?
    ensures Run(cfg, polls + more).since == Run(cfg, polls).since
    ensures Run(cfg, polls + more).timeout == Run(cfg, polls).timeout
    ensures Run(cfg, polls + more).launches == Run(cfg, polls).launches
  {
    if more == [] {
      assert polls + more == polls;
    } else {
      var n := |more| - 1;
      WaitNeverRestarts(cfg, polls, more[..n]);
      assert (polls + more)[..|polls + more| - 1] == polls + more[..n];
      StepKeepsWait(cfg, Run(cfg, polls + more[..n]), more[n]);
    }
  }

  lemma {:induction false} WaitIsSupported(cfg: Config, polls: seq<Poll>)
    ensures Run(cfg, polls).since.Some? ==> Run(cfg, polls).supported == Some(true)
  {
    if polls != [] {
      WaitIsSupported(cfg, polls[..|polls| - 1]);
    }
  }

  // After the wait has started, a poll that sees an immediate stop condition lets the task run on exactly
  // while the timeout is not over and the callback is not reported complete.
  lemma StopsByTimeout(cfg: Config, polls: seq<Poll>, more: seq<Poll>)
    requires Run(cfg, polls).since.Some? && more != []
    requires LastKind(cfg, polls + more).Immediate?
    ensures
      var s := Run(cfg, polls);
      var p := more[|more| - 1];
      Answer(cfg, polls + more) == NoStop <==> p.now < s.since.value + s.timeout && !p.completed
    ensures
      more[|more| - 1].now >= Run(cfg, polls).since.value + cfg.maxTimeout ==> Answer(cfg, polls + more) != NoStop
  {
    var n := |more| - 1;
    var all := polls + more;
    assert all[..|all| - 1] == polls + more[..n] && all[|all| - 1] == more[n];
    WaitNeverRestarts(cfg, polls, more[..n]);
    WaitIsSupported(cfg, polls + more[..n]);
    CallbackStartsOnce(cfg, polls);
  }

  // Before a wait has started, an immediate stop condition is held back exactly when a callback is registered, with
  // numbers, and not complete yet. The wait starts with the first such poll, complete or not; it lasts as long as
  // the registered timeout and polling frequency together, but no longer than the maximum.
  lemma FirstStopHeldExactlyWhen(cfg: Config, polls: seq<Poll>)
    requires polls != [] && LastKind(cfg, polls).Immediate? && Run(cfg, polls[..|polls| - 1]).since.None?
    ensures
      var p, after := polls[|polls| - 1], Run(cfg, polls);
      var registered := Supported(polls) && p.stat.timeout.Number? && !p.stat.frequency.Malformed?;
      && (Answer(cfg, polls) == NoStop <==> registered && !p.stat.completed)
      && (after.since.Some? <==> registered)
      && (registered ==>
            var wish := p.stat.timeout.value + (if p.stat.frequency.Number? then p.stat.frequency.value else 0.0);
            && after.since == Some(p.armedAt)
            && after.timeout == (if wish <= cfg.maxTimeout then wish else cfg.maxTimeout)
            && after.launches == if cfg.bashCallback then 1 else 0)
  {
    SupportedMeaning(cfg, polls);
    CallbackStartsOnce(cfg, polls);
  }
}
