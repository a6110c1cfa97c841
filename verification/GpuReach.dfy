/**
 What the runs of the dynamic-GPU protocol can reach: the slices on a GPU always lie in an order in which the
 queues could have asked for them, and every such order is reached by a run.
 */
module GpuReach {
  import opened Options
  import opened GpuNames
  import opened GpuTally
  import opened GpuGrant
  import opened GpuStacks
  import opened GpuProtocol
  import opened Sequences

  // ---------------------------------------------------------------- what may be known to the daemon

  predicate HeldBy(w: World, c: nat, s: Slot) { c < |w.children| && s in w.children[c].slots }

  // The name is held by a child, or by one the server listed, or it is reserved or known from the last poll.
  ghost predicate Present(w: World, s: Slot) {
    || (exists c :: c in Tracked(w) && HeldBy(w, c, s))
    || (w.snapshot.Some? && exists c :: c in w.snapshot.value.listed && HeldBy(w, c, s))
    || (exists r :: r in w.reservations && r.slot == s)
    || (w.view.Some? && s in w.view.value.names)
  }

  ghost predicate Covers(cfg: Config, w: World, gpu: string, stack: seq<Slot>) {
    && Laid(cfg.queues, gpu, stack) && Distinct(stack)
    && forall s: Slot :: s.Slice? && s.gpu == gpu && Present(w, s) ==> s in stack
  }

  ghost predicate Coverable(cfg: Config, w: World, gpu: string) { exists stack :: Covers(cfg, w, gpu, stack) }

  ghost predicate StacksOk(cfg: Config, w: World) { forall gpu :: Coverable(cfg, w, gpu) }

  lemma FewerPresent(cfg: Config, w: World, w': World)
    requires StacksOk(cfg, w) && forall s :: Present(w', s) ==> Present(w, s)
    ensures StacksOk(cfg, w')
  {
    forall gpu ensures Coverable(cfg, w', gpu) {
      assert Coverable(cfg, w, gpu);
      var stack :| Covers(cfg, w, gpu, stack);
      assert Covers(cfg, w', gpu, stack);
    }
  }

  // On a GPU that is listed free, the known slices lie in a possible order, and they weigh what is taken.
  lemma StackOfFree(cfg: Config, w: World, f: Free) returns (stack: seq<Slot>)
    requires Inv(cfg, w) && StacksOk(cfg, w) && w.view.Some? && f in w.view.value.available
    ensures Laid(cfg.queues, f.gpu, stack) && Distinct(stack)
    ensures SumOn(stack, f.gpu) == 1.0 - f.amount
    ensures forall s :: s in stack <==> s in w.view.value.names && s.Slice? && s.gpu == f.gpu
  {
    var names := w.view.value.names;
    assert Coverable(cfg, w, f.gpu);
    var cover :| Covers(cfg, w, f.gpu, cover);
    stack := Kept(cover, names);
    KeptIsLaid(cfg.queues, f.gpu, cover, names);
    KeptIsDistinct(cover, names);
    forall s | s in names && KeyOf(s) == f.gpu ensures s in stack {
      assert IndexSlot(s);
      if s.Static? {
        SumOnMember(names, s);
      }
    }
    LaidOnGpu(cfg.queues, f.gpu, stack);
    SumOnSubset(stack, names, f.gpu);
    SumOnSubset(names, stack, f.gpu);
  }

  // ---------------------------------------------------------------- every step keeps the order

  lemma QuietStepKeepsStacks(cfg: Config, w: World, e: Event)
    requires cfg.Valid() && Inv(cfg, w) && StacksOk(cfg, w) && Enabled(cfg, w, e) && !e.Pull? && !e.Account?
    ensures StacksOk(cfg, Apply(cfg, w, e))
  {
    var w' := Apply(cfg, w, e);
    assert Tracked(w') <= Tracked(w);
    assert SameSlots(w.children, w'.children);
    forall s | Present(w', s) ensures Present(w, s) {
      if w'.snapshot.Some? && exists c :: c in w'.snapshot.value.listed && HeldBy(w', c, s) {
        var c :| c in w'.snapshot.value.listed && HeldBy(w', c, s);
        assert HeldBy(w, c, s);
        assert e.Query? ==> c in Tracked(w);
      } else if exists c :: c in Tracked(w') && HeldBy(w', c, s) {
        var c :| c in Tracked(w') && HeldBy(w', c, s);
        assert HeldBy(w, c, s);
      }
    }
    FewerPresent(cfg, w, w');
  }

  lemma AccountKeepsStacks(cfg: Config, w: World)
    requires cfg.Valid() && Inv(cfg, w) && StacksOk(cfg, w) && Enabled(cfg, w, Account)
    ensures StacksOk(cfg, Apply(cfg, w, Account))
  {
    var w' := Apply(cfg, w, Account);
    assert Tracked(w') == Tracked(w);
    NamesOfAccount(cfg, w);
    PendingMembers(w.reservations, Keys(ListedSlots(cfg, w)), w.now, cfg.ttl);
    forall s | Present(w', s) ensures Present(w, s) {
      if s in w'.view.value.names {
        if exists c :: c in w.snapshot.value.listed && s in w.children[c].slots {
          var c :| c in w.snapshot.value.listed && s in w.children[c].slots;
          assert HeldBy(w, c, s);
        }
      } else if exists c :: c in Tracked(w') && HeldBy(w', c, s) {
        var c :| c in Tracked(w') && HeldBy(w', c, s);
        assert HeldBy(w, c, s);
      }
    }
    FewerPresent(cfg, w, w');
  }

  // After a pull nothing is present but what the view knew and what the child was given.
  lemma PresentAfterPull(cfg: Config, w: World, range: Range, s: Slot)
    requires Inv(cfg, w) && Enabled(cfg, w, Pull(range)) && Present(Apply(cfg, w, Pull(range)), s)
    ensures s in w.view.value.names || s in GrantSlots(Choose(w.view.value.available, range), w.view.value.names)
  {
    var w' := Apply(cfg, w, Pull(range));
    assert w.snapshot.None?;
    if exists c :: c in Tracked(w') && HeldBy(w', c, s) {
      var c :| c in Tracked(w') && HeldBy(w', c, s);
      if c < |w.children| {
        assert w'.children[c] == w.children[c] && c in Tracked(w);
      }
    } else {
      ReservedAfterPull(cfg, w, range, s);
    }
  }

  lemma ReservedAfterPull(cfg: Config, w: World, range: Range, s: Slot)
    requires Inv(cfg, w) && Enabled(cfg, w, Pull(range))
    requires exists r :: r in Apply(cfg, w, Pull(range)).reservations && r.slot == s
    ensures s in w.view.value.names || s in GrantSlots(Choose(w.view.value.available, range), w.view.value.names)
  {
    var grant := Choose(w.view.value.available, range);
    ReserveAllMeaning(w.reservations, GrantSlots(grant, w.view.value.names), GrantFractions(grant), w.now);
  }

  // The slices beside which a fraction is put leave what the range needs.
  lemma StackBelowFraction(cfg: Config, w: World, range: Range) returns (stack: seq<Slot>)
    requires cfg.Valid() && Inv(cfg, w) && StacksOk(cfg, w) && w.view.Some? && range in cfg.queues
    requires Choose(w.view.value.available, range).Fraction?
    ensures
      var grant := Choose(w.view.value.available, range);
      && range.max == Part(grant.digits)
      && Laid(cfg.queues, grant.gpu, stack) && Distinct(stack) && SumOn(stack, grant.gpu) + Need(range) <= 1.0
      && forall s :: s in stack <==> s in w.view.value.names && s.Slice? && s.gpu == grant.gpu
  {
    var view := w.view.value;
    FractionIsBestFit(view.available, range);
    var f :| f in view.available && f.gpu == Choose(view.available, range).gpu && f.amount >= Need(range);
    stack := StackOfFree(cfg, w, f);
  }

  lemma PulledSliceIsLaid(cfg: Config, w: World, range: Range) returns (stack: seq<Slot>)
    requires cfg.Valid() && Inv(cfg, w) && StacksOk(cfg, w)
    requires Enabled(cfg, w, Pull(range)) && Regular(w.view.value, range)
    requires Choose(w.view.value.available, range).Fraction?
    ensures
      var grant := Choose(w.view.value.available, range);
      && Laid(cfg.queues, grant.gpu, stack) && Distinct(stack)
      && SliceName(grant.gpu, grant.digits, w.view.value.names) in stack
      && forall s: Slot :: s.Slice? && s.gpu == grant.gpu && s in w.view.value.names ==> s in stack
  {
    var grant := Choose(w.view.value.available, range);
    var slot := SliceName(grant.gpu, grant.digits, w.view.value.names);
    var known := StackBelowFraction(cfg, w, range);
    stack := known + [slot];
    LaidSnoc(cfg.queues, grant.gpu, known, slot);
    DistinctConcat(known, [slot]);
  }

  lemma PullKeepsStacks(cfg: Config, w: World, range: Range)
    requires cfg.Valid() && Inv(cfg, w) && StacksOk(cfg, w)
    requires Enabled(cfg, w, Pull(range)) && Regular(w.view.value, range)
    ensures StacksOk(cfg, Apply(cfg, w, Pull(range)))
  {
    var w' := Apply(cfg, w, Pull(range));
    var grant := Choose(w.view.value.available, range);
    forall gpu ensures Coverable(cfg, w', gpu) {
      var stack;
      if grant.Fraction? && grant.gpu == gpu {
        stack := PulledSliceIsLaid(cfg, w, range);
      } else {
        assert Coverable(cfg, w, gpu);
        stack :| Covers(cfg, w, gpu, stack);
      }
      forall s: Slot | s.Slice? && s.gpu == gpu && Present(w', s) ensures s in stack {
        PresentAfterPull(cfg, w, range, s);
      }
      assert Covers(cfg, w', gpu, stack);
    }
  }

  lemma StepKeepsStacks(cfg: Config, w: World, e: Event)
    requires cfg.Valid() && Inv(cfg, w) && StacksOk(cfg, w) && Enabled(cfg, w, e)
    requires e.Pull? ==> Regular(w.view.value, e.range)
    ensures StacksOk(cfg, Apply(cfg, w, e))
  {
    match e {
      case Account => AccountKeepsStacks(cfg, w);
      case Pull(range) => PullKeepsStacks(cfg, w, range);
      case Tick(_) => QuietStepKeepsStacks(cfg, w, e);
      case Register(_) => QuietStepKeepsStacks(cfg, w, e);
      case Die(_) => QuietStepKeepsStacks(cfg, w, e);
      case Forget(_) => QuietStepKeepsStacks(cfg, w, e);
      case Query(_) => QuietStepKeepsStacks(cfg, w, e);
    }
  }

  // ---------------------------------------------------------------- what the order rules out

  // A pull shrinks only if some pulls of the queues leave a gap on one GPU.
  lemma ShrinkNeedsGap(cfg: Config, w: World, range: Range)
    requires Inv(cfg, w) && StacksOk(cfg, w) && w.view.Some? && range in cfg.queues
    requires Choose(w.view.value.available, range).Overrun? || Choose(w.view.value.available, range).ZeroShare?
    ensures CanShrink(cfg.queues)
    ensures Choose(w.view.value.available, range).Overrun? ==> CanOverrun(cfg.queues)
  {
    var f := ShrinkTakesLargest(w.view.value.available, range);
    var stack := StackOfFree(cfg, w, f);
    var parts := PartsOf(cfg.queues, f.gpu, stack);
    assert LeavesGap(parts, range);
  }

  // A slice is left without a letter only if some pulls of the queues put 27 of its size on one GPU.
  lemma BareNameNeedsCrowd(cfg: Config, w: World, range: Range)
    requires cfg.Valid() && Inv(cfg, w) && StacksOk(cfg, w) && w.view.Some? && range in cfg.queues
    requires Choose(w.view.value.available, range).Fraction? && !Regular(w.view.value, range)
    ensures CanCrowd(cfg.queues)
  {
    var grant := Choose(w.view.value.available, range);
    var stack := StackBelowFraction(cfg, w, range);
    SameLetters(grant.gpu, grant.digits, w.view.value.names, stack, 0);
    CrowdAbove(cfg.queues, grant.gpu, grant.digits, stack, range);
  }

  lemma {:induction false} RegularRunsKeep(cfg: Config, events: seq<Event>)
    requires cfg.Valid() && cfg.deadline + cfg.latency < cfg.ttl
    requires After(cfg, events).Some? && RegularRun(cfg, events)
    ensures Inv(cfg, After(cfg, events).value) && StacksOk(cfg, After(cfg, events).value)
  {
    if events == [] {
      forall gpu ensures Coverable(cfg, INITIAL, gpu) {
        assert Covers(cfg, INITIAL, gpu, []);
      }
    } else {
      var init, e := events[..|events| - 1], events[|events| - 1];
      RegularRunsKeep(cfg, init);
      StepKeeps(cfg, After(cfg, init).value, e);
      StepKeepsStacks(cfg, After(cfg, init).value, e);
    }
  }

  lemma {:induction false} RunsAreRegular(cfg: Config, events: seq<Event>)
    requires cfg.Valid() && cfg.deadline + cfg.latency < cfg.ttl
    requires !CanOverrun(cfg.queues) && !CanCrowd(cfg.queues) && After(cfg, events).Some?
    ensures RegularRun(cfg, events)
  {
    if events != [] {
      var init, e := events[..|events| - 1], events[|events| - 1];
      RunsAreRegular(cfg, init);
      RegularRunsKeep(cfg, init);
      var w := After(cfg, init).value;
      if e.Pull? && !Regular(w.view.value, e.range) {
        if Choose(w.view.value.available, e.range).Overrun? {
          ShrinkNeedsGap(cfg, w, e.range);
        } else {
          BareNameNeedsCrowd(cfg, w, e.range);
        }
      }
    }
  }
}
