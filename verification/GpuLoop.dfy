/**
 One turn of the daemon's polling loop in dynamic-GPU mode: poll, walk the queues in priority order behind
 the gate, and launch at most one child.
 */
module GpuLoop {
  import opened Options
  import opened Sequences
  import opened GpuNames
  import opened GpuTally
  import opened GpuGrant
  import P = GpuProtocol

  // What the server and the configuration answer for one queue during the turn.
  datatype QueueState =
    | Inactive     // outside its active hours
    | PeekFailed   // the queue could not be looked into
    | Empty
    | Unreadable   // not empty, but the pull failed or returned no task
    | NoOwner      // a task was pulled but its owner could not be impersonated
    | Ready        // a task was pulled

  datatype Queue = Queue(state: QueueState, range: Range)

  datatype Turn =
    | Nothing
    | Crashed(queue: nat)                                // an exception of the shrink-to-fit branch
    | Started(queue: nat, slots: seq<Slot>, workerId: string)

  // The turn goes on to the next queue.
  predicate Passes(available: seq<Free>, q: Queue)
    requires available != []
  {
    q.state.Inactive? || q.state.Empty? || ((q.state.Unreadable? || q.state.NoOwner?) && GateOpen(available, q.range))
  }

  predicate Pulls(available: seq<Free>, q: Queue)
    requires available != []
  {
    q.state.Ready? && GateOpen(available, q.range)
  }

  // The queue the turn pulls its task from: the first that it does not pass, if that one can be served.
  function PulledFrom(available: seq<Free>, queues: seq<Queue>, i: nat): (r: Option<nat>)
    requires available != [] && i <= |queues|
    ensures r.Some? ==> i <= r.value < |queues|
    decreases |queues| - i
  {
    if i == |queues| then None
    else if Passes(available, queues[i]) then PulledFrom(available, queues, i + 1)
    else if Pulls(available, queues[i]) then Some(i)
    else None
  }

  lemma {:induction false} PulledFromMeaning(available: seq<Free>, queues: seq<Queue>, i: nat, k: nat)
    requires available != [] && i <= k < |queues|
    ensures PulledFrom(available, queues, i) == Some(k) <==>
      Pulls(available, queues[k]) && forall j :: i <= j < k ==> Passes(available, queues[j])
    decreases |queues| - i
  {
    if Passes(available, queues[i]) && i < k {
      PulledFromMeaning(available, queues, i + 1, k);
    }
  }

  // A queue that holds a task the daemon cannot fit keeps every lower-priority queue waiting.
  lemma GatedQueueBlocksLowerOnes(available: seq<Free>, queues: seq<Queue>, blocked: nat, k: nat)
    requires available != [] && blocked < k < |queues|
    requires !queues[blocked].state.Inactive? && !queues[blocked].state.Empty?
    requires !GateOpen(available, queues[blocked].range)
    ensures PulledFrom(available, queues, 0) != Some(k)
  {
    PulledFromMeaning(available, queues, 0, k);
  }

  function TurnOf(view: View, queues: seq<Queue>, own: string): Turn {
    if view.available == [] then Nothing
    else
      var from := PulledFrom(view.available, queues, 0);
      if from.None? then Nothing
      else
        var grant := Choose(view.available, queues[from.value].range);
        if grant.NoCandidate? || grant.ZeroShare? then Crashed(from.value)
        else
          var slots := GrantSlots(grant, view.names);
          Started(from.value, slots, WorkerId(own, slots))
  }

  // ---------------------------------------------------------------- what a turn does

  // The gate: some GPU has the minimum free, or as many GPUs are free as a whole.
  lemma GateMeaning(available: seq<Free>, range: Range)
    requires Sound(available) && available != []
    ensures GateOpen(available, range) <==>
      || (exists f :: f in available && f.amount >= Amount(range.min))
      || Amount(range.min) <= |set f | f in available && f.amount == 1.0 :: f.gpu| as real
  {
    WholeTotalIsCount(available);
    WholeFreeDistinct(available);
    var whole := WholeFree(available);
    var gpus := set f | f in available && f.amount == 1.0 :: f.gpu;
    forall g ensures g in gpus <==> g in whole {
      if g in whole {
        var f :| f in available && f.gpu == g && f.amount >= 1.0;
        assert f.amount == 1.0;
      }
    }
    DistinctSize(whole, gpus);
  }

  lemma {:induction false} DistinctSize<T>(s: seq<T>, all: set<T>)
    requires Distinct(s) && forall x :: x in all <==> x in s
    ensures |all| == |s|
    decreases |s|
  {
    if s != [] {
      assert s[0] in all;
      forall x ensures x in all - {s[0]} <==> x in s[1..] {
        assert s == [s[0]] + s[1..];
        if x in s[1..] {
          var i :| 0 <= i < |s[1..]| && s[1..][i] == x;
          assert x == s[i + 1];
        }
      }
      DistinctSize(s[1..], all - {s[0]});
    } else {
      assert all == {};
    }
  }

  // A turn takes its task from queue k exactly when a task of k was pulled and its gate is open, and every
  // queue before it is outside its hours or empty, or its gate is open but no task could be had from it.
  lemma TurnMeaning(view: View, queues: seq<Queue>, own: string, k: nat)
    requires view.available != [] && k < |queues|
    ensures
      var turn := TurnOf(view, queues, own);
      !turn.Nothing? && turn.queue == k <==>
        && queues[k].state == Ready && GateOpen(view.available, queues[k].range)
        && forall j :: 0 <= j < k ==>
             || queues[j].state == Inactive
             || queues[j].state == Empty
             || (queues[j].state == Unreadable && GateOpen(view.available, queues[j].range))
             || (queues[j].state == NoOwner && GateOpen(view.available, queues[j].range))
  {
    PulledFromMeaning(view.available, queues, 0, k);
  }

  // It does nothing exactly when there is no such queue, or no GPU is free.
  lemma NothingMeaning(view: View, queues: seq<Queue>, own: string)
    ensures TurnOf(view, queues, own) == Nothing <==>
      view.available == [] ||
      forall k :: 0 <= k < |queues| && queues[k].state == Ready && GateOpen(view.available, queues[k].range) ==>
        exists j :: 0 <= j < k
          && queues[j].state != Inactive
          && queues[j].state != Empty
          && (queues[j].state == PeekFailed || queues[j].state == Ready
              || !GateOpen(view.available, queues[j].range))
  {
    if view.available != [] {
      var from := PulledFrom(view.available, queues, 0);
      forall k | 0 <= k < |queues| {
        PulledFromMeaning(view.available, queues, 0, k);
      }
      if from.Some? {
        PulledFromMeaning(view.available, queues, 0, from.value);
        assert queues[from.value].state == Ready;
      }
    }
  }

  // The child of a turn is given what the choice for that queue gives it, under a worker id that says so; only a
  // choice that ends in an exception crashes.
  lemma TurnOutcome(view: View, queues: seq<Queue>, own: string)
    requires !TurnOf(view, queues, own).Nothing?
    ensures
      var turn := TurnOf(view, queues, own);
      && turn.queue < |queues|
      && var grant := Choose(view.available, queues[turn.queue].range);
         match turn
         case Crashed(_) => grant == NoCandidate || grant == ZeroShare
         case Started(_, slots, id) =>
           && (grant.Wholes? || grant.Fraction? || grant.Overrun?)
           && slots == GrantSlots(grant, view.names) && id == WorkerId(own, slots)
  {
  }

  // The walk over the queues, up to the pull.
  method WalkQueues(available: seq<Free>, queues: seq<Queue>) returns (from: Option<nat>)
    requires available != []
    ensures from == PulledFrom(available, queues, 0)
  {
    from := None;
    var i := 0;
    while i < |queues|
      invariant 0 <= i <= |queues| && from.None?
      invariant PulledFrom(available, queues, i) == PulledFrom(available, queues, 0)
    {
      var q := queues[i];
      if q.state.Inactive? {
        i := i + 1;
        continue;
      }
      if q.state.PeekFailed? {
        break;
      }
      if q.state.Empty? {
        i := i + 1;
        continue;
      }
      if !GateOpen(available, q.range) {
        break;
      }
      if q.state.Unreadable? || q.state.NoOwner? {
        i := i + 1;
        continue;
      }
      return Some(i);
    }
  }

  // `polled` is the clock at the accounting, `launched` the clock at the launch.
  method RunTurn(ledger: GpuLedger, indexes: seq<string>, response: Option<seq<string>>, queues: seq<Queue>,
                 polled: real, launched: real) returns (turn: Turn)
    requires ledger.Valid()
    modifies ledger`reservations
    ensures ledger.Valid()
    ensures response.None? ==> turn == Nothing && ledger.reservations == old(ledger.reservations)
    ensures response.Some? ==>
      var registered := SlotsOf(response.value, ledger.workerName, ledger.workerId);
      var pending := Pending(old(ledger.reservations), Keys(registered), polled, ledger.ttl);
      var view := PollView(indexes, registered, pending);
      && turn == TurnOf(view, queues, ledger.workerId)
      && (!turn.Started? ==> ledger.reservations == pending)
      && (turn.Started? ==>
            var grant := Choose(view.available, queues[turn.queue].range);
            ledger.reservations == ReserveAll(pending, turn.slots, GrantFractions(grant), launched))
  {
    var polling := ledger.GetAvailable(indexes, response, polled);
    if polling.None? || polling.value.available == [] {
      return Nothing;
    }
    var view := polling.value;
    var from := WalkQueues(view.available, queues);
    if from.None? {
      return Nothing;
    }
    var grant := Choose(view.available, queues[from.value].range);
    if grant.NoCandidate? || grant.ZeroShare? {
      return Crashed(from.value);
    }
    var slots := NameGrant(grant, view.names);
    ledger.Reserve(slots, GrantFractions(grant), launched);
    turn := Started(from.value, slots, WorkerId(ledger.workerId, slots));
  }

  // On the protocol's view, a turn of the loop starts a child exactly when the protocol can pull.
  lemma TurnStartsExactlyWhenEnabled(cfg: P.Config, w: P.World, queues: seq<Queue>, k: nat)
    requires w.view.Some? && w.view.value.available != [] && k < |queues| && queues[k].range in cfg.queues
    requires PulledFrom(w.view.value.available, queues, 0) == Some(k)
    ensures TurnOf(w.view.value, queues, cfg.Own()).Started? <==> P.Enabled(cfg, w, P.Pull(queues[k].range))
  {
    PulledFromMeaning(w.view.value.available, queues, 0, k);
    TurnMeaning(w.view.value, queues, cfg.Own(), k);
    TurnOutcome(w.view.value, queues, cfg.Own());
  }

  lemma TurnOfPull(view: View, queues: seq<Queue>, own: string, k: nat)
    requires view.available != [] && k < |queues| && PulledFrom(view.available, queues, 0) == Some(k)
    requires P.Launches(Choose(view.available, queues[k].range))
    ensures
      var slots := GrantSlots(Choose(view.available, queues[k].range), view.names);
      TurnOf(view, queues, own) == Started(k, slots, WorkerId(own, slots))
  {
    TurnMeaning(view, queues, own, k);
    PulledFromMeaning(view.available, queues, 0, k);
    TurnOutcome(view, queues, own);
  }

  // Then it starts the protocol's child and leaves the ledger with the protocol's reservations.
  lemma TurnIsProtocolPull(cfg: P.Config, w: P.World, queues: seq<Queue>, k: nat)
    requires w.view.Some? && w.view.value.available != [] && k < |queues|
    requires PulledFrom(w.view.value.available, queues, 0) == Some(k)
    requires P.Enabled(cfg, w, P.Pull(queues[k].range))
    ensures
      var w2 := P.Apply(cfg, w, P.Pull(queues[k].range));
      var grant := Choose(w.view.value.available, queues[k].range);
      var turn := TurnOf(w.view.value, queues, cfg.Own());
      && turn.Started? && turn.queue == k && turn.workerId == WorkerId(cfg.Own(), turn.slots)
      && w2.children == w.children + [P.Child(grant, turn.slots, P.Launched, w.now)]
      && w2.reservations == ReserveAll(w.reservations, turn.slots, GrantFractions(grant), w.now)
  {
    TurnOfPull(w.view.value, queues, cfg.Own(), k);
  }

  // For a steady range whose bounds are in order, the gate alone decides whether the protocol can pull.
  lemma GateMakesPullPossible(cfg: P.Config, w: P.World, range: Range)
    requires P.Inv(cfg, w) && w.view.Some? && w.view.value.available != []
    requires SteadyRange(range) && range in cfg.queues && Amount(range.min) <= Amount(range.max)
    ensures P.Enabled(cfg, w, P.Pull(range)) <==> GateOpen(w.view.value.available, range)
  {
    if GateOpen(w.view.value.available, range) {
      GatedPullIsServed(w.view.value.available, range);
    }
  }
}
