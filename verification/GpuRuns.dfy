/**
 Runs of the dynamic-GPU protocol in which every child registers at once and stays: they reach every order of
 slices that the queues allow.
 */
module GpuRuns {
  import opened Options
  import opened GpuNames
  import opened GpuTally
  import opened GpuGrant
  import opened GpuStacks
  import opened GpuProtocol
  import opened Sequences

  // ---------------------------------------------------------------- single steps

  lemma AfterStep(cfg: Config, events: seq<Event>, w: World, e: Event)
    requires After(cfg, events) == Some(w) && Enabled(cfg, w, e)
    ensures After(cfg, events + [e]) == Some(Apply(cfg, w, e))
    ensures RegularRun(cfg, events) && (e.Pull? ==> Regular(w.view.value, e.range)) ==> RegularRun(cfg, events + [e])
  {
    assert (events + [e])[..|events|] == events;
  }

  // ---------------------------------------------------------------- settled states

  ghost function AllSlots(children: seq<Child>): seq<Slot> {
    if children == [] then []
    else AllSlots(children[..|children| - 1]) + children[|children| - 1].slots
  }

  function Everyone(n: nat): (r: seq<nat>)
    ensures |r| == n && forall i :: 0 <= i < n ==> r[i] == i
  {
    seq(n, i => i)
  }

  lemma {:induction false} ConcatSnoc(children: seq<Child>, listed: seq<nat>, c: nat)
    requires InRange(listed, children) && c < |children|
    ensures InRange(listed + [c], children)
    ensures Concat(children, listed + [c]) == Concat(children, listed) + children[c].slots
  {
    if listed == [] {
      assert [c][1..] == [] && [] + [c] == [c];
      assert children[c].slots + [] == children[c].slots;
    } else {
      assert (listed + [c])[1..] == listed[1..] + [c];
      ConcatSnoc(children, listed[1..], c);
    }
  }

  lemma {:induction false} ConcatOfPrefix(children: seq<Child>, n: nat, listed: seq<nat>)
    requires n <= |children| && InRange(listed, children[..n])
    ensures InRange(listed, children) && Concat(children, listed) == Concat(children[..n], listed)
  {
    if listed != [] {
      ConcatOfPrefix(children, n, listed[1..]);
    }
  }

  lemma {:induction false} ConcatEveryone(children: seq<Child>)
    ensures Concat(children, Everyone(|children|)) == AllSlots(children)
  {
    if children != [] {
      var n := |children| - 1;
      ConcatEveryone(children[..n]);
      ConcatOfPrefix(children, n, Everyone(n));
      ConcatSnoc(children, Everyone(n), n);
      assert Everyone(n + 1) == Everyone(n) + [n];
    }
  }

  ghost predicate AllWellFormed(slots: seq<Slot>) { forall s :: s in slots ==> WellFormed(s) }

  ghost predicate Exactly(registry: set<nat>, n: nat) { forall c: nat :: c in registry <==> c < n }

  lemma OneMore(registry: set<nat>, n: nat)
    requires Exactly(registry, n)
    ensures Exactly(registry + {n}, n + 1)
  {
  }

  // Nothing is going on: every child is registered, and nothing is reserved but for registered children.
  ghost predicate Settled(cfg: Config, w: World) {
    && w.now == 0.0 && w.view.None? && w.snapshot.None?
    && Exactly(w.registry, |w.children|)
    && (forall c :: 0 <= c < |w.children| ==>
          w.children[c].phase.Registered? && AllWellFormed(w.children[c].slots))
    && forall r :: r in w.reservations ==> r.slot in AllSlots(w.children)
  }

  // Every child was given what its names say.
  ghost predicate Honest(children: seq<Child>) { forall c :: 0 <= c < |children| ==> TrueToName(children[c]) }

  // What the daemon sees when exactly these slots are registered.
  function ViewOf(cfg: Config, slots: seq<Slot>): View { PollView(cfg.gpus, slots, []) }

  lemma ViewOfSlots(cfg: Config, slots: seq<Slot>)
    requires cfg.Valid()
    ensures
      var view := ViewOf(cfg, slots);
      && Sound(view.available)
      && (forall s :: s in view.names <==> s in slots)
      && (forall f :: f in view.available ==>
            && f.gpu in cfg.gpus && IsIndex(f.gpu) && Static(f.gpu) !in slots
            && f.amount == 1.0 - SumOn(slots, f.gpu) <= 1.0 - SumOn(view.names, f.gpu))
      && (forall g :: g in cfg.gpus && Static(g) !in slots && SumOn(slots, g) < 1.0 ==>
            Free(g, 1.0 - SumOn(slots, g)) in view.available)
  {
    var view := ViewOf(cfg, slots);
    assert view.names == Keys(slots) + [];
    FreeGpusAreDistinct(cfg.gpus, Tally(slots));
    forall g ensures Static(g) !in slots ==> Used(Tally(slots), g) == SumOn(slots, g)
      ensures Static(g) in slots ==> Used(Tally(slots), g) >= 1.0
      ensures SumOn(view.names, g) <= SumOn(slots, g)
    {
      TallyMeaning(slots, g);
      SumOnSubset(view.names, slots, g);
    }
  }

  lemma {:induction false} NothingPending(rs: seq<Reservation>, registered: seq<Slot>, now: real, ttl: real)
    requires forall r :: r in rs ==> r.slot in registered || now - r.at >= ttl
    ensures Pending(rs, registered, now, ttl) == []
  {
    if rs != [] {
      assert rs[0] in rs && forall r :: r in rs[1..] ==> r in rs;
      NothingPending(rs[1..], registered, now, ttl);
    }
  }

  // A poll in a settled state.
  lemma Poll(cfg: Config, events: seq<Event>, w: World) returns (events': seq<Event>, w': World)
    requires cfg.Valid() && After(cfg, events) == Some(w) && Settled(cfg, w)
    ensures After(cfg, events') == Some(w') && (RegularRun(cfg, events) ==> RegularRun(cfg, events'))
    ensures w' == w.(reservations := [], view := Some(ViewOf(cfg, AllSlots(w.children))))
  {
    var all := Everyone(|w.children|);
    forall c: nat ensures c in all <==> c < |w.children| {
      assert c < |w.children| ==> all[c] == c;
    }
    AfterStep(cfg, events, w, Query(all));
    var w1 := Apply(cfg, w, Query(all));
    assert Enabled(cfg, w1, Account);
    AfterStep(cfg, events + [Query(all)], w1, Account);
    RegistryIsReadBack(cfg, w.children, all);
    ConcatEveryone(w.children);
    NothingPending(w.reservations, Keys(AllSlots(w.children)), 0.0, cfg.ttl);
    events', w' := events + [Query(all)] + [Account], Apply(cfg, w1, Account);
  }

  // ---------------------------------------------------------------- pulls in settled states

  ghost predicate CanPull(cfg: Config, slots: seq<Slot>, range: Range) {
    var available := ViewOf(cfg, slots).available;
    && range in cfg.queues && available != [] && GateOpen(available, range)
    && Launches(Choose(available, range))
  }

  ghost function GrantOf(cfg: Config, slots: seq<Slot>, range: Range): Grant {
    Choose(ViewOf(cfg, slots).available, range)
  }

  ghost function NewSlots(cfg: Config, slots: seq<Slot>, range: Range): seq<Slot> {
    GrantSlots(GrantOf(cfg, slots, range), ViewOf(cfg, slots).names)
  }

  // A pull whose child registers at once.
  lemma LaunchAndRegister(cfg: Config, events: seq<Event>, w: World, range: Range)
    returns (events': seq<Event>, w': World)
    requires After(cfg, events) == Some(w) && Enabled(cfg, w, Pull(range))
    ensures After(cfg, events') == Some(w') && w'.view.None?
    ensures RegularRun(cfg, events) && Regular(w.view.value, range) ==> RegularRun(cfg, events')
    ensures
      var grant := Choose(w.view.value.available, range);
      var slots := GrantSlots(grant, w.view.value.names);
      && w'.children == w.children + [Child(grant, slots, Registered, w.now)]
      && w'.registry == w.registry + {|w.children|} && w'.now == w.now && w'.snapshot == w.snapshot
      && w'.reservations == ReserveAll(w.reservations, slots, GrantFractions(grant), w.now)
  {
    AfterStep(cfg, events, w, Pull(range));
    var w1 := Apply(cfg, w, Pull(range));
    AfterStep(cfg, events + [Pull(range)], w1, Register(|w.children|));
    events', w' := events + [Pull(range)] + [Register(|w.children|)], Apply(cfg, w1, Register(|w.children|));
  }

  lemma OnlyNewReserved(slots: seq<Slot>, fractions: seq<real>, now: real)
    requires |slots| == |fractions|
    ensures forall r :: r in ReserveAll([], slots, fractions, now) ==> r.slot in slots
  {
    ReserveAllMeaning([], slots, fractions, now);
  }

  lemma AllSlotsSnoc(children: seq<Child>, c: Child)
    ensures AllSlots(children + [c]) == AllSlots(children) + c.slots
  {
    assert (children + [c])[..|children|] == children;
  }

  lemma BareIsWellFormed(gpu: string, digits: string)
    requires IsIndex(gpu) && AllDigits(digits)
    ensures WellFormed(Static(gpu)) && WellFormed(Static(gpu + "." + digits))
  {
    var t := gpu + "." + digits;
    DigitRunStops(gpu, "." + digits);
    assert t == gpu + ("." + digits) && t[|gpu| + 1..] == digits;
    DigitRunStops(gpu, "");
    assert gpu + "" == gpu;
  }

  lemma GrantIsFromView(available: seq<Free>, range: Range)
    requires Sound(available) && ValidRange(range)
    ensures
      match Choose(available, range)
      case Wholes(gpus) => Distinct(gpus) && forall g :: g in gpus ==> Free(g, 1.0) in available
      case Fraction(gpu, digits) => range.max == Part(digits) && exists f :: f in available && f.gpu == gpu
      case Overrun(gpu) => exists f :: f in available && f.gpu == gpu && f.amount < 1.0
      case _ => true
  {
    var grant := Choose(available, range);
    if grant.Wholes? && range.max.Count? && WholeFree(available) != [] {
      WholeFreeDistinct(available);
      forall g | g in grant.gpus ensures Free(g, 1.0) in available {
        assert g in WholeFree(available);
        var f :| f in available && f.gpu == g && f.amount >= 1.0;
        assert f == Free(g, 1.0);
      }
    } else if grant.Wholes? {
      ShareOfWhole(available, range);
      var f :| f in available && f.gpu == grant.gpus[0] && f.amount >= 1.0;
      assert f == Free(grant.gpus[0], 1.0);
    } else if grant.Fraction? {
      FractionIsBestFit(available, range);
    } else if grant.Overrun? {
      var f := ShrinkTakesLargest(available, range);
    }
  }

  lemma NewSlotsAreWellFormed(cfg: Config, slots: seq<Slot>, range: Range)
    requires cfg.Valid() && range in cfg.queues
    ensures AllWellFormed(NewSlots(cfg, slots, range))
  {
    var view := ViewOf(cfg, slots);
    var grant := GrantOf(cfg, slots, range);
    ViewOfSlots(cfg, slots);
    GrantIsFromView(view.available, range);
    match grant {
      case Wholes(gpus) =>
        forall s | s in NewSlots(cfg, slots, range) ensures WellFormed(s) {
          assert s.name in gpus && Free(s.name, 1.0) in view.available;
          BareIsWellFormed(s.name, "");
        }
      case Fraction(gpu, digits) => BareIsWellFormed(gpu, digits);
      case Overrun(gpu) => BareIsWellFormed(gpu, "");
      case NoCandidate =>
      case ZeroShare =>
    }
  }

  // The state after a pull whose child registers at once is settled again.
  lemma PullRound(cfg: Config, events: seq<Event>, w: World, range: Range)
    returns (events': seq<Event>, w': World)
    requires cfg.Valid() && After(cfg, events) == Some(w) && Settled(cfg, w)
    requires CanPull(cfg, AllSlots(w.children), range)
    ensures After(cfg, events') == Some(w')
    ensures
      var slots := AllSlots(w.children);
      && w'.children == w.children + [Child(GrantOf(cfg, slots, range), NewSlots(cfg, slots, range), Registered, 0.0)]
      && AllSlots(w'.children) == slots + NewSlots(cfg, slots, range)
    ensures RegularRun(cfg, events) && Regular(ViewOf(cfg, AllSlots(w.children)), range) ==> RegularRun(cfg, events')
    ensures Settled(cfg, w')
  {
    var slots := AllSlots(w.children);
    var child := Child(GrantOf(cfg, slots, range), NewSlots(cfg, slots, range), Registered, 0.0);
    var events1, w1 := Poll(cfg, events, w);
    events', w' := LaunchAndRegister(cfg, events1, w1, range);
    OneMore(w.registry, |w.children|);
    OnlyNewReserved(NewSlots(cfg, slots, range), GrantFractions(GrantOf(cfg, slots, range)), 0.0);
    NewSlotsAreWellFormed(cfg, slots, range);
    AllSlotsSnoc(w.children, child);
    forall c | 0 <= c < |w'.children|
      ensures w'.children[c].phase.Registered? && AllWellFormed(w'.children[c].slots)
    {
      if c < |w.children| { assert w'.children[c] == w.children[c]; } else { assert w'.children[c] == child; }
    }
  }

  lemma RegularPullIsHonest(cfg: Config, slots: seq<Slot>, range: Range)
    requires cfg.Valid() && range in cfg.queues && Regular(ViewOf(cfg, slots), range)
    ensures forall s :: s in NewSlots(cfg, slots, range) ==> s !in slots
    ensures TrueToName(Child(GrantOf(cfg, slots, range), NewSlots(cfg, slots, range), Registered, 0.0))
  {
    ViewOfSlots(cfg, slots);
    GrantFits(ViewOf(cfg, slots), range);
    assert TrueToName(Child(GrantOf(cfg, slots, range), NewSlots(cfg, slots, range), Launched, 0.0));
    forall g ensures Given(GrantOf(cfg, slots, range), g) == SumOn(NewSlots(cfg, slots, range), g) {
      assert Given(Child(GrantOf(cfg, slots, range), NewSlots(cfg, slots, range), Launched, 0.0).grant, g)
        == SumOn(NewSlots(cfg, slots, range), g);
    }
  }

  lemma RegularRound(cfg: Config, events: seq<Event>, w: World, range: Range)
    returns (events': seq<Event>, w': World)
    requires cfg.Valid() && After(cfg, events) == Some(w) && RegularRun(cfg, events)
    requires Settled(cfg, w) && Honest(w.children)
    requires CanPull(cfg, AllSlots(w.children), range) && Regular(ViewOf(cfg, AllSlots(w.children)), range)
    ensures After(cfg, events') == Some(w') && Settled(cfg, w') && RegularRun(cfg, events')
    ensures Honest(w'.children)
    ensures AllSlots(w'.children) == AllSlots(w.children) + NewSlots(cfg, AllSlots(w.children), range)
  {
    events', w' := PullRound(cfg, events, w, range);
    RegularPullIsHonest(cfg, AllSlots(w.children), range);
  }
}
