/**
 Pod numbers and pod limits in the Kubernetes glue: before a task is launched the glue looks for a free pod
 number (ports mode) or checks the limit on the number of pods.
 */
module GluePods {

  // `services` is the number of configured services; a limit of 0 means no limit. In ports mode the limit
  // is not used.
  datatype Config = Config(portsMode: bool, base: int, services: int, limit: nat)

  // The live pods: the pod of a task is named after it, and labelled with its number.
  type Pods = map<string, int>

  datatype Search = Free(number: int) | AllTaken | CountFailed

  function Numbered(pods: Pods, number: int): set<string> {
    set t | t in pods && pods[t] == number
  }

  function Limit(cfg: Config): nat { if cfg.portsMode then 0 else cfg.limit }

  // The number of values the search may try.
  function Range(cfg: Config): nat { if cfg.services >= 1 then cfg.services else 1 }

  lemma RangeMeaning(cfg: Config)
    ensures cfg.services >= 1 ==> Range(cfg) == cfg.services
    ensures cfg.services < 1 ==> Range(cfg) == 1
  {
  }

  // The search from the count-th number on; `fails` tells at which counts kubectl cannot be read.
  function FindFrom(cfg: Config, pods: Pods, fails: nat -> bool, count: nat): Search
    requires cfg.portsMode && count < Range(cfg)
    decreases Range(cfg) - count
  {
    if fails(count) then CountFailed
    else if Numbered(pods, cfg.base + count) == {} then Free(cfg.base + count)
    else if count + 1 == Range(cfg) then AllTaken
    else FindFrom(cfg, pods, fails, count + 1)
  }

  function Find(cfg: Config, pods: Pods, fails: nat -> bool): Search {
    if cfg.portsMode then FindFrom(cfg, pods, fails, 0)
    else if cfg.limit == 0 then Free(cfg.base)
    else if fails(0) then CountFailed
    else if |pods| == 0 || |pods| < cfg.limit then Free(cfg.base)
    else AllTaken
  }

  // In ports mode a found number is the least one in the configured range that no live pod has, and
  // nothing is found exactly when every number of the range is taken (or kubectl cannot be read).
  lemma {:induction false} FindFromMeaning(cfg: Config, pods: Pods, fails: nat -> bool, count: nat)
    requires cfg.portsMode && count < Range(cfg)
    ensures
      match FindFrom(cfg, pods, fails, count)
      case Free(n) =>
        && cfg.base + count <= n < cfg.base + Range(cfg)
        && n !in pods.Values
        && forall m :: cfg.base + count <= m < n ==> m in pods.Values
      case AllTaken => forall m :: cfg.base + count <= m < cfg.base + Range(cfg) ==> m in pods.Values
      case CountFailed => exists k :: count <= k < Range(cfg) && fails(k)
    decreases Range(cfg) - count
  {
    var n := cfg.base + count;
    if !fails(count) {
      if Numbered(pods, n) == {} {
        forall t | t in pods ensures pods[t] != n {
          assert t !in Numbered(pods, n);
        }
      } else {
        var t :| t in Numbered(pods, n);
        assert pods[t] in pods.Values;
        if count + 1 < Range(cfg) {
          FindFromMeaning(cfg, pods, fails, count + 1);
        }
      }
    }
  }

  datatype Launch = Launched(number: int) | SentBack | NotApplied

  // A launch: `applied` is whether kubectl accepts the pod.
  function LaunchStep(cfg: Config, pods: Pods, task: string, fails: nat -> bool, applied: bool): (Pods, Launch) {
    match Find(cfg, pods, fails)
    case Free(n) => if applied then (pods[task := n], Launched(n)) else (pods, NotApplied)
    case AllTaken => (pods, SentBack)
    case CountFailed => (pods, SentBack)
  }

  class PodPool {
    const cfg: Config
    var pods: Pods

    constructor (cfg: Config)
      ensures this.cfg == cfg && pods == map[]
    {
      this.cfg := cfg;
      pods := map[];
    }

    method SearchPod(fails: nat -> bool) returns (r: Search)
      ensures r == Find(cfg, pods, fails)
    {
      var podCount: nat := 0;
      var limit := Limit(cfg);
      while cfg.portsMode || limit > 0
        invariant cfg.portsMode ==>
          podCount < Range(cfg) && FindFrom(cfg, pods, fails, podCount) == Find(cfg, pods, fails)
        invariant !cfg.portsMode ==> podCount == 0
        decreases Range(cfg) - podCount
      {
        if fails(podCount) {
          return CountFailed;
        }
        var items := if cfg.portsMode then |Numbered(pods, cfg.base + podCount)| else |pods|;
        if items == 0 {
          break;
        }
        var current, most := podCount, cfg.services - 1;
        if limit > 0 {
          current, most := items, limit;
        }
        if current >= most {
          return AllTaken;
        } else if limit > 0 {
          break;
        }
        podCount := podCount + 1;
      }
      r := Free(cfg.base + podCount);
    }

    method LaunchPod(task: string, fails: nat -> bool, applied: bool) returns (r: Launch)
      modifies this
      ensures (pods, r) == LaunchStep(cfg, old(pods), task, fails, applied)
    {
      var search := SearchPod(fails);
      if !search.Free? {
        return SentBack;
      }
      if !applied {
        return NotApplied;
      }
      pods := pods[task := search.number];
      r := Launched(search.number);
    }
  }

  // ---------------------------------------------------------------- runs

  datatype Step = Run(task: string, fails: nat -> bool, applied: bool) | Delete(tasks: set<string>)

  function After(cfg: Config, steps: seq<Step>): Pods {
    if steps == [] then map[]
    else
      var pods := After(cfg, steps[..|steps| - 1]);
      match steps[|steps| - 1]
      case Run(task, fails, applied) => LaunchStep(cfg, pods, task, fails, applied).0
      case Delete(tasks) => pods - tasks
  }

  ghost predicate DistinctNumbers(pods: Pods) {
    forall t, u :: t in pods && u in pods && t != u ==> pods[t] != pods[u]
  }

  ghost predicate InRange(cfg: Config, pods: Pods) {
    forall t :: t in pods ==> cfg.base <= pods[t] < cfg.base + Range(cfg)
  }

  lemma LaunchKeepsNumbers(cfg: Config, pods: Pods, task: string, fails: nat -> bool, applied: bool)
    requires cfg.portsMode && DistinctNumbers(pods) && InRange(cfg, pods)
    ensures
      var pods' := LaunchStep(cfg, pods, task, fails, applied).0;
      DistinctNumbers(pods') && InRange(cfg, pods')
  {
    FindFromMeaning(cfg, pods, fails, 0);
    assert forall t :: t in pods ==> pods[t] in pods.Values;
  }

  // In ports mode, over any run of launches and deletions, live pods have distinct numbers, all of them in
  // the configured range.
  lemma {:induction false} NumbersStayDistinct(cfg: Config, steps: seq<Step>)
    requires cfg.portsMode
    ensures DistinctNumbers(After(cfg, steps)) && InRange(cfg, After(cfg, steps))
  {
    if steps != [] {
      var init := steps[..|steps| - 1];
      NumbersStayDistinct(cfg, init);
      match steps[|steps| - 1] {
        case Run(task, fails, applied) => LaunchKeepsNumbers(cfg, After(cfg, init), task, fails, applied);
        case Delete(tasks) =>
      }
    }
  }

  // kubectl cannot be read at the count-th number or a later one before a free number is found.
  predicate FailsBeforeFree(cfg: Config, pods: Pods, fails: nat -> bool) {
    exists k :: 0 <= k < Range(cfg) && fails(k) && forall m :: cfg.base <= m < cfg.base + k ==> m in pods.Values
  }

  // A launch is sent back exactly when every number of the range is taken, or the pods of a number cannot be
  // read and all numbers below it are taken.
  lemma SentBackExactlyWhen(cfg: Config, pods: Pods, task: string, fails: nat -> bool, applied: bool)
    requires cfg.portsMode
    ensures LaunchStep(cfg, pods, task, fails, applied).1.SentBack? <==>
      || (forall m :: cfg.base <= m < cfg.base + Range(cfg) ==> m in pods.Values)
      || FailsBeforeFree(cfg, pods, fails)
  {
    SearchOutcome(cfg, pods, fails, 0);
  }

  lemma {:induction false} SearchOutcome(cfg: Config, pods: Pods, fails: nat -> bool, count: nat)
    requires cfg.portsMode && count < Range(cfg)
    requires forall m :: cfg.base <= m < cfg.base + count ==> m in pods.Values
    requires forall k :: 0 <= k < count ==> !fails(k)
    ensures !FindFrom(cfg, pods, fails, count).Free? <==>
      || (forall m :: cfg.base <= m < cfg.base + Range(cfg) ==> m in pods.Values)
      || FailsBeforeFree(cfg, pods, fails)
    decreases Range(cfg) - count
  {
    var n := cfg.base + count;
    TakenMeaning(pods, n);
    if !fails(count) && n in pods.Values && count + 1 < Range(cfg) {
      SearchOutcome(cfg, pods, fails, count + 1);
    }
  }

  lemma TakenMeaning(pods: Pods, n: int)
    ensures Numbered(pods, n) == {} <==> n !in pods.Values
  {
    if n in pods.Values {
      var t :| t in pods && pods[t] == n;
      assert t in Numbered(pods, n);
    }
  }

  // Without ports the launch goes through exactly when there is no limit, or the pods can be counted and are fewer
  // than the limit; it then runs under the base number if kubectl accepts the pod.
  lemma LaunchedExactlyBelowLimit(cfg: Config, pods: Pods, task: string, fails: nat -> bool, applied: bool)
    requires !cfg.portsMode
    ensures
      var (pods', r) := LaunchStep(cfg, pods, task, fails, applied);
      var room := cfg.limit == 0 || (!fails(0) && |pods| < cfg.limit);
      && (room && applied ==> r == Launched(cfg.base) && pods' == pods[task := cfg.base])
      && (room && !applied ==> r == NotApplied && pods' == pods)
      && (!room ==> r == SentBack && pods' == pods)
  {
  }

  // With ports a launch that is not sent back runs under the number found, if kubectl accepts the pod.
  lemma LaunchedUnderLeastFree(cfg: Config, pods: Pods, task: string, fails: nat -> bool, applied: bool)
    requires cfg.portsMode
    ensures
      var (pods', r) := LaunchStep(cfg, pods, task, fails, applied);
      match r
      case Launched(n) =>
        && applied && pods' == pods[task := n] && cfg.base <= n < cfg.base + Range(cfg) && n !in pods.Values
        && forall m :: cfg.base <= m < n ==> m in pods.Values
      case NotApplied => !applied && pods' == pods
      case SentBack => pods' == pods
  {
    FindFromMeaning(cfg, pods, fails, 0);
  }

  // With a pod limit, live pods never exceed it.
  lemma {:induction false} LimitIsKept(cfg: Config, steps: seq<Step>)
    requires !cfg.portsMode && cfg.limit > 0
    ensures |After(cfg, steps)| <= cfg.limit
  {
    if steps != [] {
      var init := steps[..|steps| - 1];
      var pods := After(cfg, init);
      LimitIsKept(cfg, init);
      match steps[|steps| - 1] {
        case Run(task, fails, applied) =>
          assert task in pods ==> pods[task := cfg.base].Keys == pods.Keys;
          assert task !in pods ==> pods[task := cfg.base].Keys == pods.Keys + {task};
        case Delete(tasks) =>
          assert (pods - tasks).Keys == pods.Keys - tasks;
          assert |pods.Keys - tasks| <= |pods.Keys|;
      }
    }
  }
}
