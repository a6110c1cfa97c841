/**
 The dynamic-GPU daemon and its children as a protocol.

 The daemon asks the server for the registered workers (Query), a moment later folds in its own
 reservations and computes what is free (Account), and may then pull one task and launch a child (Pull).
 A child registers with the server, ends, or dies before it registered; the server keeps a finished
 worker listed until it forgets it. The clock moves on between any two of these steps.
 */
module GpuProtocol {
  import opened Options
  import opened GpuNames
  import opened GpuTally
  import opened GpuGrant
  import opened Sequences

  datatype Phase = Launched | Registered | Dead

  // A child with what it was given, the names it registers under, and the time of its launch.
  datatype Child = Child(grant: Grant, slots: seq<Slot>, phase: Phase, since: real)

  // The children listed in the server's answer, and when the server made the list.
  datatype Snapshot = Snapshot(listed: seq<nat>, at: real)

  datatype World = World(
    now: real,
    children: seq<Child>,
    registry: set<nat>,
    reservations: seq<Reservation>,
    snapshot: Option<Snapshot>,
    view: Option<View>)

  // `queues`: the ranges of the queues the daemon serves.
  // `deadline`: a child has registered that long after its launch, or it is dead.
  // `latency`: the accounting happens at most that long after the server made its list.
  datatype Config = Config(
    gpus: seq<string>, queues: seq<Range>, workerName: string, tail: string, ttl: real, deadline: real, latency: real)
  {
    // The daemon's own worker id.
    function Own(): string { workerName + ":" + tail }

    predicate Valid() {
      && gpus != [] && (forall g :: g in gpus ==> IsIndex(g)) && (forall q :: q in queues ==> ValidRange(q))
      && ':' !in tail && !("gpu" <= tail)
      && 0.0 <= deadline && 0.0 <= latency
    }
  }

  datatype Event =
    | Tick(to: real)
    | Register(c: nat)
    | Die(c: nat)
    | Forget(c: nat)
    | Query(order: seq<nat>)
    | Account
    | Pull(range: Range)

  // ---------------------------------------------------------------- steps

  predicate InRange(listed: seq<nat>, children: seq<Child>) {
    forall i :: 0 <= i < |listed| ==> listed[i] < |children|
  }

  function WorkerIds(cfg: Config, children: seq<Child>, listed: seq<nat>): (ids: seq<string>)
    requires InRange(listed, children)
  {
    seq(|listed|, i requires 0 <= i < |listed| => WorkerId(cfg.Own(), children[listed[i]].slots))
  }

  // The pull ends in a launch and not in an exception.
  predicate Launches(grant: Grant) { grant.Wholes? || grant.Fraction? || grant.Overrun? }

  ghost predicate Enabled(cfg: Config, w: World, e: Event) {
    match e
    case Tick(to) =>
      && w.now <= to
      && forall c :: 0 <= c < |w.children| && w.children[c].phase.Launched? ==> to <= w.children[c].since + cfg.deadline
    case Register(c) => c < |w.children| && w.children[c].phase.Launched?
    case Die(c) => c < |w.children| && !w.children[c].phase.Dead?
    case Forget(c) => c in w.registry && c < |w.children| && w.children[c].phase.Dead?
    case Query(order) => Distinct(order) && (forall c :: c in order <==> c in w.registry) && InRange(order, w.children)
    case Account =>
      && w.snapshot.Some? && w.now <= w.snapshot.value.at + cfg.latency
      && InRange(w.snapshot.value.listed, w.children)
    case Pull(range) =>
      && w.view.Some? && w.view.value.available != [] && GateOpen(w.view.value.available, range)
      && range in cfg.queues && Launches(Choose(w.view.value.available, range))
  }

  ghost function SetPhase(children: seq<Child>, c: nat, phase: Phase): seq<Child>
    requires c < |children|
  {
    children[c := children[c].(phase := phase)]
  }

  ghost function ListedSlots(cfg: Config, w: World): seq<Slot>
    requires Enabled(cfg, w, Account)
  {
    SlotsOf(WorkerIds(cfg, w.children, w.snapshot.value.listed), cfg.workerName, cfg.Own())
  }

  ghost function Apply(cfg: Config, w: World, e: Event): World
    requires Enabled(cfg, w, e)
  {
    match e
    case Tick(to) => w.(now := to)
    case Register(c) => w.(children := SetPhase(w.children, c, Registered), registry := w.registry + {c})
    case Die(c) => w.(children := SetPhase(w.children, c, Dead))
    case Forget(c) => w.(registry := w.registry - {c})
    case Query(order) => w.(snapshot := Some(Snapshot(order, w.now)), view := None)
    case Account =>
      var pending := Pending(w.reservations, Keys(ListedSlots(cfg, w)), w.now, cfg.ttl);
      w.(reservations := pending, snapshot := None, view := Some(PollView(cfg.gpus, ListedSlots(cfg, w), pending)))
    case Pull(range) =>
      var grant := Choose(w.view.value.available, range);
      var slots := GrantSlots(grant, w.view.value.names);
      w.(children := w.children + [Child(grant, slots, Launched, w.now)],
         reservations := ReserveAll(w.reservations, slots, GrantFractions(grant), w.now),
         view := None)
  }

  const INITIAL := World(0.0, [], {}, [], None, None)

  // The state after a run, if every event was possible when it happened.
  ghost function After(cfg: Config, events: seq<Event>): Option<World> {
    if events == [] then Some(INITIAL)
    else
      var before := After(cfg, events[..|events| - 1]);
      var e := events[|events| - 1];
      if before.Some? && Enabled(cfg, before.value, e) then Some(Apply(cfg, before.value, e)) else None
  }

  // ---------------------------------------------------------------- safety

  function Live(children: seq<Child>): set<nat> {
    set c | 0 <= c < |children| && !children[c].phase.Dead?
  }

  // All slots of some of the children.
  ghost function Held(children: seq<Child>, which: set<nat>): seq<Slot> {
    if children == [] then []
    else
      var n := |children| - 1;
      Held(children[..n], which) + (if n in which then children[n].slots else [])
  }

  ghost predicate Disjoint(a: seq<Slot>, b: seq<Slot>) { forall s :: s in a ==> s !in b }

  ghost predicate PairwiseDisjoint(children: seq<Child>, which: set<nat>) {
    forall i, j :: i in which && j in which && i < |children| && j < |children| && i != j ==>
      Disjoint(children[i].slots, children[j].slots)
  }

  // How much of GPU g a child was given, whatever it is named.
  function Given(grant: Grant, g: string): real {
    match grant
    case Wholes(gpus) => if g in gpus then 1.0 else 0.0
    case Fraction(gpu, digits) => if g == gpu then Value(digits) else 0.0
    case Overrun(gpu) => if g == gpu then 1.0 else 0.0
    case NoCandidate => 0.0
    case ZeroShare => 0.0
  }

  ghost function Load(children: seq<Child>, which: set<nat>, g: string): (r: real)
    ensures r >= 0.0
  {
    if children == [] then 0.0
    else
      var n := |children| - 1;
      Load(children[..n], which, g) + (if n in which then Given(children[n].grant, g) else 0.0)
  }

  // Live children were never given more than a whole GPU on any GPU, and no two of them share a slice name.
  ghost predicate Safe(w: World) {
    && (forall g :: Load(w.children, Live(w.children), g) <= 1.0)
    && PairwiseDisjoint(w.children, Live(w.children))
  }

  // Neither the shrink-to-fit branch nor a slice left without a letter.
  predicate Regular(view: View, range: Range) {
    var grant := Choose(view.available, range);
    grant.Wholes? || (grant.Fraction? && SliceName(grant.gpu, grant.digits, view.names).Slice?)
  }

  ghost predicate RegularRun(cfg: Config, events: seq<Event>) {
    events == [] ||
    (var before, e := After(cfg, events[..|events| - 1]), events[|events| - 1];
     && RegularRun(cfg, events[..|events| - 1])
     && (before.Some? && e.Pull? && Enabled(cfg, before.value, e) ==> Regular(before.value.view.value, e.range)))
  }

  // ---------------------------------------------------------------- sums over children

  lemma {:induction false} HeldMonotone(children: seq<Child>, a: set<nat>, b: set<nat>, g: string)
    requires a <= b
    ensures SumOn(Held(children, a), g) <= SumOn(Held(children, b), g)
  {
    if children != [] {
      var n := |children| - 1;
      HeldMonotone(children[..n], a, b, g);
      SumOnConcat(Held(children[..n], a), if n in a then children[n].slots else [], g);
      SumOnConcat(Held(children[..n], b), if n in b then children[n].slots else [], g);
    }
  }

  predicate SameSlots(a: seq<Child>, b: seq<Child>) {
    |a| == |b| && forall i :: 0 <= i < |a| ==> a[i].slots == b[i].slots
  }

  lemma {:induction false} HeldDependsOnSlots(a: seq<Child>, b: seq<Child>, which: set<nat>)
    requires SameSlots(a, b)
    ensures Held(a, which) == Held(b, which)
  {
    if a != [] {
      HeldDependsOnSlots(a[..|a| - 1], b[..|b| - 1], which);
    }
  }

  lemma {:induction false} HeldMember(children: seq<Child>, which: set<nat>, s: Slot) returns (c: nat)
    requires s in Held(children, which)
    ensures c in which && c < |children| && s in children[c].slots
  {
    var n := |children| - 1;
    if s in Held(children[..n], which) {
      c := HeldMember(children[..n], which, s);
    } else {
      c := n;
    }
  }

  lemma DistinctConcat<T>(a: seq<T>, b: seq<T>)
    requires Distinct(a) && Distinct(b) && forall x :: x in a ==> x !in b
    ensures Distinct(a + b)
  {
    forall i, j | 0 <= i < j < |a + b| ensures (a + b)[i] != (a + b)[j] {
      if i < |a| && |a| <= j {
        assert a[i] in a && b[j - |a|] in b;
      }
    }
  }

  lemma {:induction false} HeldDistinct(children: seq<Child>, which: set<nat>)
    requires PairwiseDisjoint(children, which)
    requires forall c :: 0 <= c < |children| ==> Distinct(children[c].slots)
    ensures Distinct(Held(children, which))
  {
    if children != [] {
      var n := |children| - 1;
      var init := children[..n];
      HeldDistinct(init, which);
      if n in which {
        forall s | s in Held(init, which) ensures s !in children[n].slots {
          var c := HeldMember(init, which, s);
          assert Disjoint(children[c].slots, children[n].slots);
        }
        DistinctConcat(Held(init, which), children[n].slots);
      }
    }
  }

  lemma {:induction false} SumOnMember(slots: seq<Slot>, s: Slot)
    requires s in slots
    ensures SumOn(slots, KeyOf(s)) >= Weight(s)
  {
    if slots[0] != s {
      SumOnMember(slots[1..], s);
    }
  }

  // ---------------------------------------------------------------- reading the registry back

  function Concat(children: seq<Child>, listed: seq<nat>): seq<Slot>
    requires InRange(listed, children)
  {
    if listed == [] then [] else children[listed[0]].slots + Concat(children, listed[1..])
  }

  lemma {:induction false} ConcatMembers(children: seq<Child>, listed: seq<nat>, s: Slot)
    requires InRange(listed, children)
    ensures s in Concat(children, listed) <==> exists c :: c in listed && s in children[c].slots
  {
    if listed != [] {
      ConcatMembers(children, listed[1..], s);
      assert listed == [listed[0]] + listed[1..];
    }
  }

  // Every child's id is recognised as one of the daemon's own workers.
  lemma ChildIdIsOurs(cfg: Config, slots: seq<Slot>)
    requires cfg.Valid()
    ensures IsOurs(WorkerId(cfg.Own(), slots), cfg.workerName, cfg.Own())
  {
    var last := "gpu" + Join(Texts(slots), ',');
    var parts := Split(cfg.workerName, ':');
    SplitLast(cfg.workerName, cfg.tail, ':');
    assert (parts + [cfg.tail])[..|parts|] == parts;
    JoinSnoc(parts, last, ':');
    JoinSplit(cfg.workerName, ':');
    var id := WorkerId(cfg.Own(), slots);
    assert id == cfg.workerName + ":" + last;
    assert cfg.workerName + ":gpu" == id[..|cfg.workerName| + 4];
    assert id[|cfg.workerName| + 1..] == last && cfg.Own()[|cfg.workerName| + 1..] == cfg.tail;
    assert "gpu" <= last;
  }

  // The worker ids in the server's answer give back exactly the slots of the listed children.
  lemma {:induction false} RegistryIsReadBack(cfg: Config, children: seq<Child>, listed: seq<nat>)
    requires cfg.Valid()
    requires InRange(listed, children)
    requires forall c :: 0 <= c < |children| ==> forall s :: s in children[c].slots ==> WellFormed(s)
    ensures SlotsOf(WorkerIds(cfg, children, listed), cfg.workerName, cfg.Own()) == Concat(children, listed)
  {
    if listed != [] {
      RegistryIsReadBack(cfg, children, listed[1..]);
      var slots := children[listed[0]].slots;
      ChildIdIsOurs(cfg, slots);
      DecodeWorkerId(cfg.Own(), slots);
      assert WorkerIds(cfg, children, listed)[1..] == WorkerIds(cfg, children, listed[1..]);
    }
  }

  // ---------------------------------------------------------------- the invariant

  // Children that are alive, or still listed by the server.
  function Tracked(w: World): set<nat> {
    set c | 0 <= c < |w.children| && (!w.children[c].phase.Dead? || c in w.registry)
  }

  predicate IndexSlot(s: Slot) { WellFormed(s) && !s.Undotted? && (s.Static? ==> IsIndex(s.name)) }

  ghost predicate Reserved(reservations: seq<Reservation>, c: Child) {
    forall s :: s in c.slots ==> exists r :: r in reservations && r.slot == s && r.at == c.since
  }

  // The names say what the child was given.
  ghost predicate TrueToName(c: Child) { forall g :: Given(c.grant, g) == SumOn(c.slots, g) }

  ghost predicate ChildrenOk(cfg: Config, w: World) {
    forall c :: 0 <= c < |w.children| ==>
      var child := w.children[c];
      && Distinct(child.slots) && (forall s :: s in child.slots ==> IndexSlot(s)) && TrueToName(child)
      && (child.phase.Registered? ==> c in w.registry)
      && (child.phase.Launched? ==>
            c !in w.registry && w.now <= child.since + cfg.deadline && Reserved(w.reservations, child))
  }

  ghost predicate SharesOk(w: World) {
    && PairwiseDisjoint(w.children, Tracked(w))
    && forall g :: SumOn(Held(w.children, Tracked(w)), g) <= 1.0
  }

  ghost predicate ReservationsOk(w: World) {
    DistinctSlots(w.reservations) && forall r :: r in w.reservations ==> Faithful(r) && IndexSlot(r.slot)
  }

  ghost predicate SnapshotOk(cfg: Config, w: World) {
    w.snapshot.Some? ==>
      var snap := w.snapshot.value;
      && w.view.None?
      && InRange(snap.listed, w.children)
      && (forall c :: c in snap.listed ==> !w.children[c].phase.Launched?)
      && (forall c :: c in Tracked(w) ==>
            || c in snap.listed
            || (snap.at <= w.children[c].since + cfg.deadline && Reserved(w.reservations, w.children[c])))
      && Distinct(snap.listed)
      && (forall c, d :: (c in Tracked(w) || c in snap.listed) && d in snap.listed && c != d ==>
            Disjoint(w.children[c].slots, w.children[d].slots))
  }

  ghost predicate ViewOk(cfg: Config, w: World) {
    w.view.Some? ==>
      && Sound(w.view.value.available)
      && (forall f :: f in w.view.value.available ==>
            f.gpu in cfg.gpus && IsIndex(f.gpu) && f.amount == 1.0 - SumOn(w.view.value.names, f.gpu))
      && Distinct(w.view.value.names) && (forall s :: s in w.view.value.names ==> IndexSlot(s))
      && (forall c, s :: c in Tracked(w) && s in w.children[c].slots ==> s in w.view.value.names)
      && (forall r :: r in w.reservations ==> r.slot in w.view.value.names)
  }

  ghost predicate Inv(cfg: Config, w: World) {
    && (forall c :: c in w.registry ==> c < |w.children|)
    && ChildrenOk(cfg, w) && SharesOk(w) && ReservationsOk(w) && SnapshotOk(cfg, w) && ViewOk(cfg, w)
  }

  // ---------------------------------------------------------------- steps that launch nothing

  lemma FewerTracked(w: World, w': World)
    requires SharesOk(w) && SameSlots(w.children, w'.children) && Tracked(w') <= Tracked(w)
    ensures SharesOk(w')
  {
    HeldDependsOnSlots(w.children, w'.children, Tracked(w'));
    forall g ensures SumOn(Held(w'.children, Tracked(w')), g) <= 1.0 {
      HeldMonotone(w.children, Tracked(w'), Tracked(w), g);
    }
  }

  lemma TickKeeps(cfg: Config, w: World, to: real)
    requires Inv(cfg, w) && Enabled(cfg, w, Tick(to))
    ensures Inv(cfg, Apply(cfg, w, Tick(to)))
  {
    var w' := Apply(cfg, w, Tick(to));
    assert Tracked(w') == Tracked(w);
  }

  lemma PhaseChangeKeeps(cfg: Config, w: World, e: Event)
    requires Inv(cfg, w) && Enabled(cfg, w, e) && (e.Register? || e.Die? || e.Forget?)
    ensures Inv(cfg, Apply(cfg, w, e))
  {
    var w' := Apply(cfg, w, e);
    assert SameSlots(w.children, w'.children);
    assert forall c :: 0 <= c < |w.children| ==> w'.children[c].since == w.children[c].since;
    assert Tracked(w') <= Tracked(w);
    FewerTracked(w, w');
    KnownKeeps(cfg, w, w');
  }

  // What is known from the server stays right when fewer children are tracked and none is launched.
  lemma KnownKeeps(cfg: Config, w: World, w': World)
    requires SnapshotOk(cfg, w) && ViewOk(cfg, w)
    requires SameSlots(w.children, w'.children) && Tracked(w') <= Tracked(w)
    requires forall c :: 0 <= c < |w.children| ==>
      w'.children[c].since == w.children[c].since && (w'.children[c].phase.Launched? ==> w.children[c].phase.Launched?)
    requires w'.snapshot == w.snapshot && w'.view == w.view && w'.reservations == w.reservations
    ensures SnapshotOk(cfg, w') && ViewOk(cfg, w')
  {
  }

  lemma QueryKeeps(cfg: Config, w: World, order: seq<nat>)
    requires Inv(cfg, w) && Enabled(cfg, w, Query(order))
    ensures Inv(cfg, Apply(cfg, w, Query(order)))
  {
    var w' := Apply(cfg, w, Query(order));
    assert Tracked(w') == Tracked(w);
  }

  // ---------------------------------------------------------------- the accounting step

  // A child that has not registered is neither in the server's list nor past the TTL, so its
  // reservations survive.
  lemma LaunchedStaysReserved(cfg: Config, w: World, c: nat)
    requires cfg.Valid() && Inv(cfg, w) && Enabled(cfg, w, Account) && cfg.deadline + cfg.latency < cfg.ttl
    requires c < |w.children| && w.children[c].phase.Launched?
    ensures Reserved(Apply(cfg, w, Account).reservations, w.children[c])
  {
    var child := w.children[c];
    var listed := w.snapshot.value.listed;
    RegistryIsReadBack(cfg, w.children, listed);
    PendingMembers(w.reservations, Keys(ListedSlots(cfg, w)), w.now, cfg.ttl);
    forall s | s in child.slots
      ensures exists r :: r in Apply(cfg, w, Account).reservations && r.slot == s && r.at == child.since
    {
      var r :| r in w.reservations && r.slot == s && r.at == child.since;
      ConcatMembers(w.children, listed, s);
      assert c in Tracked(w) && c !in listed;
      assert forall d :: d in listed ==> Disjoint(child.slots, w.children[d].slots);
      assert Keep(r, Keys(ListedSlots(cfg, w)), w.now, cfg.ttl);
    }
  }

  // Whatever a tracked child holds is known to the daemon after the accounting.
  lemma TrackedIsCounted(cfg: Config, w: World, c: nat, s: Slot)
    requires cfg.Valid() && Inv(cfg, w) && Enabled(cfg, w, Account) && cfg.deadline + cfg.latency < cfg.ttl
    requires c in Tracked(w) && s in w.children[c].slots
    ensures s in Apply(cfg, w, Account).view.value.names
  {
    var listed := w.snapshot.value.listed;
    var registered := ListedSlots(cfg, w);
    var pending := Apply(cfg, w, Account).reservations;
    RegistryIsReadBack(cfg, w.children, listed);
    ConcatMembers(w.children, listed, s);
    PendingMembers(w.reservations, Keys(registered), w.now, cfg.ttl);
    if c !in listed && s !in registered {
      var r :| r in w.reservations && r.slot == s && r.at == w.children[c].since;
      assert Keep(r, Keys(registered), w.now, cfg.ttl);
      var i :| 0 <= i < |pending| && pending[i] == r;
      assert SlotsIn(pending)[i] == s;
    }
  }

  lemma {:induction false} ConcatDistinct(children: seq<Child>, listed: seq<nat>)
    requires InRange(listed, children) && Distinct(listed)
    requires forall c :: c in listed ==> Distinct(children[c].slots)
    requires forall c, d :: c in listed && d in listed && c != d ==> Disjoint(children[c].slots, children[d].slots)
    ensures Distinct(Concat(children, listed))
  {
    if listed != [] {
      var rest := listed[1..];
      assert listed == [listed[0]] + rest;
      ConcatDistinct(children, rest);
      forall s | s in children[listed[0]].slots ensures s !in Concat(children, rest) {
        ConcatMembers(children, rest, s);
      }
      DistinctConcat(children[listed[0]].slots, Concat(children, rest));
    }
  }

  lemma NamesOfBooks(registered: seq<Slot>, rs: seq<Reservation>, now: real, ttl: real)
    requires DistinctSlots(rs)
    ensures
      var slots := SlotsIn(Pending(rs, Keys(registered), now, ttl));
      && Distinct(Keys(registered) + slots)
      && forall s :: s in slots ==> exists r :: r in rs && r.slot == s
  {
    var pending := Pending(rs, Keys(registered), now, ttl);
    PendingMembers(rs, Keys(registered), now, ttl);
    forall s | s in SlotsIn(pending) ensures s !in Keys(registered) && exists r :: r in rs && r.slot == s {
      var i :| 0 <= i < |pending| && SlotsIn(pending)[i] == s;
      assert pending[i] in pending;
    }
    DistinctConcat(Keys(registered), SlotsIn(pending));
  }

  // The names of the view: no two are the same, and each is the name of a listed child or a reservation.
  lemma NamesOfAccount(cfg: Config, w: World)
    requires cfg.Valid() && Inv(cfg, w) && Enabled(cfg, w, Account)
    ensures
      var names := Apply(cfg, w, Account).view.value.names;
      && Distinct(ListedSlots(cfg, w)) && Distinct(names)
      && forall s :: s in names ==>
           IndexSlot(s) && ((exists c :: c in w.snapshot.value.listed && s in w.children[c].slots)
                            || exists r :: r in w.reservations && r.slot == s)
  {
    var listed := w.snapshot.value.listed;
    var registered := ListedSlots(cfg, w);
    RegistryIsReadBack(cfg, w.children, listed);
    ConcatDistinct(w.children, listed);
    NamesOfBooks(registered, w.reservations, w.now, cfg.ttl);
    forall s | s in Keys(registered) ensures exists c :: c in listed && s in w.children[c].slots {
      ConcatMembers(w.children, listed, s);
    }
  }

  lemma AccountView(cfg: Config, w: World)
    requires cfg.Valid() && Inv(cfg, w) && Enabled(cfg, w, Account) && cfg.deadline + cfg.latency < cfg.ttl
    ensures ViewOk(cfg, Apply(cfg, w, Account))
  {
    var w' := Apply(cfg, w, Account);
    assert Tracked(w') == Tracked(w);
    var registered := ListedSlots(cfg, w);
    NamesOfAccount(cfg, w);
    PendingMembers(w.reservations, Keys(registered), w.now, cfg.ttl);
    forall c, s | c in Tracked(w') && s in w'.children[c].slots ensures s in w'.view.value.names {
      TrackedIsCounted(cfg, w, c, s);
    }
    forall r | r in w'.reservations ensures r.slot in w'.view.value.names {
      var i :| 0 <= i < |w'.reservations| && w'.reservations[i] == r;
      assert SlotsIn(w'.reservations)[i] == r.slot;
    }
    forall f | f in w'.view.value.available
      ensures 0.0 < f.amount <= 1.0 && IsIndex(f.gpu) && f.amount == 1.0 - SumOn(w'.view.value.names, f.gpu)
    {
      FreeIsWhatNamesLeave(cfg.gpus, registered, w'.reservations, f);
    }
    FreeGpusAreDistinct(cfg.gpus, AddReserved(Tally(registered), w'.reservations));
  }

  lemma AccountKeeps(cfg: Config, w: World)
    requires cfg.Valid() && Inv(cfg, w) && Enabled(cfg, w, Account) && cfg.deadline + cfg.latency < cfg.ttl
    ensures Inv(cfg, Apply(cfg, w, Account))
  {
    var w' := Apply(cfg, w, Account);
    assert Tracked(w') == Tracked(w);
    AccountView(cfg, w);
    PendingMembers(w.reservations, Keys(ListedSlots(cfg, w)), w.now, cfg.ttl);
    forall c | 0 <= c < |w.children| && w.children[c].phase.Launched?
      ensures Reserved(w'.reservations, w.children[c])
    {
      LaunchedStaysReserved(cfg, w, c);
    }
  }

  // ---------------------------------------------------------------- the launching step

  // What the child of a pull holds: new names only, and on every GPU no more than the known names leave.
  ghost predicate Fits(slots: seq<Slot>, names: seq<Slot>) {
    && Distinct(slots)
    && (forall s :: s in slots ==> IndexSlot(s) && s !in names)
    && forall g :: SumOn(slots, g) == 0.0 || SumOn(slots, g) <= 1.0 - SumOn(names, g)
  }

  lemma {:induction false} StaticSum(gpus: seq<string>, g: string)
    requires Distinct(gpus)
    ensures SumOn(StaticNames(gpus), g) == if g in gpus then 1.0 else 0.0
  {
    if gpus != [] {
      StaticSum(gpus[1..], g);
      assert StaticNames(gpus)[1..] == StaticNames(gpus[1..]);
      assert gpus == [gpus[0]] + gpus[1..];
    }
  }

  lemma WholesFit(available: seq<Free>, names: seq<Slot>, gpus: seq<string>)
    requires Distinct(gpus)
    requires forall g :: g in gpus ==> exists f :: f in available && f.gpu == g && f.amount >= 1.0
    requires forall f :: f in available ==> IsIndex(f.gpu) && f.amount <= 1.0 - SumOn(names, f.gpu)
    ensures Fits(StaticNames(gpus), names)
    ensures TrueToName(Child(Wholes(gpus), StaticNames(gpus), Launched, 0.0))
  {
    var slots := StaticNames(gpus);
    forall i | 0 <= i < |slots| ensures IndexSlot(slots[i]) && slots[i] !in names {
      assert gpus[i] in gpus;
      var f :| f in available && f.gpu == gpus[i] && f.amount >= 1.0;
      assert AllDigits(f.gpu) && DigitRun(f.gpu) == |f.gpu| by {
        DigitRunStops(f.gpu, "");
        assert f.gpu + "" == f.gpu;
      }
      if slots[i] in names {
        SumOnMember(names, slots[i]);
      }
    }
    forall g
      ensures SumOn(slots, g) == if g in gpus then 1.0 else 0.0
      ensures SumOn(slots, g) == 0.0 || SumOn(slots, g) <= 1.0 - SumOn(names, g)
    {
      StaticSum(gpus, g);
    }
  }

  lemma FractionFits(f: Free, digits: string, names: seq<Slot>)
    requires PlainFraction(digits) && IsIndex(f.gpu) && SliceName(f.gpu, digits, names).Slice?
    requires Value(digits) <= f.amount <= 1.0 - SumOn(names, f.gpu)
    ensures Fits([SliceName(f.gpu, digits, names)], names)
    ensures TrueToName(Child(Fraction(f.gpu, digits), [SliceName(f.gpu, digits, names)], Launched, 0.0))
  {
    var s := SliceName(f.gpu, digits, names);
    forall g ensures SumOn([s], g) == if g == f.gpu then Value(digits) else 0.0 {
      SumOnOne(s, g);
    }
  }

  // A fractional request cannot be served with whole GPUs here: the choice names one only if it is whole.
  lemma ShareOfWhole(available: seq<Free>, range: Range)
    requires ChooseShare(available, range).Wholes? && ValidRange(range)
    ensures |ChooseShare(available, range).gpus| == 1
    ensures exists f :: f in available && f.gpu == ChooseShare(available, range).gpus[0] && f.amount >= 1.0
  {
    var f := BestFit(available, Amount(range.min), Min(Amount(range.max), 1.0));
  }

  lemma GrantFits(view: View, range: Range)
    requires Sound(view.available) && ValidRange(range) && Regular(view, range)
    requires forall f :: f in view.available ==> IsIndex(f.gpu) && f.amount <= 1.0 - SumOn(view.names, f.gpu)
    ensures
      var grant := Choose(view.available, range);
      && Fits(GrantSlots(grant, view.names), view.names)
      && TrueToName(Child(grant, GrantSlots(grant, view.names), Launched, 0.0))
  {
    var grant := Choose(view.available, range);
    if grant.Wholes? {
      if range.max.Count? && WholeFree(view.available) != [] {
        WholeFreeDistinct(view.available);
        forall g | g in grant.gpus ensures g in WholeFree(view.available) {
        }
      } else {
        ShareOfWhole(view.available, range);
      }
      WholesFit(view.available, view.names, grant.gpus);
    } else {
      FractionIsBestFit(view.available, range);
      var f :| f in view.available && f.gpu == grant.gpu && f.amount >= Amount(range.max);
      FractionFits(f, grant.digits, view.names);
    }
  }

  lemma {:induction false} ReserveAllMeaning(rs: seq<Reservation>, slots: seq<Slot>, fractions: seq<real>, now: real)
    requires |slots| == |fractions| && DistinctSlots(rs)
    ensures forall r :: r in ReserveAll(rs, slots, fractions, now) ==>
      r in rs || exists i :: 0 <= i < |slots| && r == Reservation(slots[i], ReservedOn(slots[i]), fractions[i], now)
    ensures forall r :: r in rs && r.slot !in slots ==> r in ReserveAll(rs, slots, fractions, now)
    ensures forall s :: s in slots ==>
      exists r :: r in ReserveAll(rs, slots, fractions, now) && r.slot == s && r.at == now
  {
    if slots != [] {
      var n := |slots| - 1;
      var before := ReserveAll(rs, slots[..n], fractions[..n], now);
      var r0 := Reservation(slots[n], ReservedOn(slots[n]), fractions[n], now);
      ReserveAllMeaning(rs, slots[..n], fractions[..n], now);
      var after := ReserveAll(rs, slots, fractions, now);
      assert after == Put(before, r0);
      forall r | r in after ensures r == r0 || r in before {
        var i :| 0 <= i < |after| && after[i] == r;
        if i < |before| && i != Find(before, r0.slot) { assert before[i] == r; }
      }
      forall r | r in before && r.slot != slots[n] ensures r in after {
        PutKeepsOthers(before, r0, r);
      }
      forall s | s in slots ensures exists r :: r in after && r.slot == s && r.at == now {
        if s == slots[n] {
          assert r0 in after;
        } else {
          assert s in slots[..n];
          var r :| r in before && r.slot == s && r.at == now;
          assert r in after;
        }
      }
    }
  }

  lemma ReservationsOfGrant(w: World, range: Range)
    requires ReservationsOk(w) && w.view.Some? && Regular(w.view.value, range)
    requires forall s :: s in GrantSlots(Choose(w.view.value.available, range), w.view.value.names) ==> IndexSlot(s)
    ensures
      var grant := Choose(w.view.value.available, range);
      forall r :: r in ReserveAll(w.reservations, GrantSlots(grant, w.view.value.names), GrantFractions(grant), w.now)
        ==> Faithful(r) && IndexSlot(r.slot)
  {
    var grant := Choose(w.view.value.available, range);
    var slots := GrantSlots(grant, w.view.value.names);
    ReserveAllMeaning(w.reservations, slots, GrantFractions(grant), w.now);
    forall i | 0 <= i < |slots|
      ensures Faithful(Reservation(slots[i], ReservedOn(slots[i]), GrantFractions(grant)[i], w.now))
    {
      assert slots[i] in slots;
      ReservedWhereCounted(slots[i]);
    }
  }

  lemma PullKeeps(cfg: Config, w: World, range: Range)
    requires cfg.Valid() && Inv(cfg, w) && Enabled(cfg, w, Pull(range)) && Regular(w.view.value, range)
    ensures Inv(cfg, Apply(cfg, w, Pull(range)))
  {
    var w' := Apply(cfg, w, Pull(range));
    var view := w.view.value;
    var grant := Choose(view.available, range);
    var slots := GrantSlots(grant, view.names);
    GrantFits(view, range);
    ReservationsOfGrant(w, range);
    ReserveAllMeaning(w.reservations, slots, GrantFractions(grant), w.now);
    LaunchKeepsShares(cfg, w, w', grant, slots);
    LaunchKeepsChildren(cfg, w, w', grant, slots);
  }

  lemma LaunchKeepsChildren(cfg: Config, w: World, w': World, grant: Grant, slots: seq<Slot>)
    requires cfg.Valid() && Inv(cfg, w) && w.view.Some? && Fits(slots, w.view.value.names)
    requires w'.children == w.children + [Child(grant, slots, Launched, w.now)]
    requires w'.registry == w.registry && w'.now == w.now && TrueToName(Child(grant, slots, Launched, 0.0))
    requires forall r :: r in w.reservations && r.slot !in slots ==> r in w'.reservations
    requires forall s :: s in slots ==> exists r :: r in w'.reservations && r.slot == s && r.at == w.now
    ensures ChildrenOk(cfg, w')
  {
    var n := |w.children|;
    forall c | 0 <= c < n && w.children[c].phase.Launched?
      ensures Reserved(w'.reservations, w.children[c])
    {
      assert c in Tracked(w);
    }
    forall c | 0 <= c < |w'.children|
      ensures
        var child := w'.children[c];
        && Distinct(child.slots) && (forall s :: s in child.slots ==> IndexSlot(s)) && TrueToName(child)
        && (child.phase.Registered? ==> c in w'.registry)
        && (child.phase.Launched? ==>
              c !in w'.registry && w'.now <= child.since + cfg.deadline && Reserved(w'.reservations, child))
    {
      if c < n {
        assert w'.children[c] == w.children[c];
      } else {
        assert w'.children[c] == Child(grant, slots, Launched, w.now);
      }
    }
  }

  lemma LaunchKeepsShares(cfg: Config, w: World, w': World, grant: Grant, slots: seq<Slot>)
    requires SharesOk(w) && ViewOk(cfg, w) && w.view.Some? && Fits(slots, w.view.value.names)
    requires forall c :: 0 <= c < |w.children| ==> Distinct(w.children[c].slots)
    requires w'.children == w.children + [Child(grant, slots, Launched, w.now)] && w'.registry == w.registry
    ensures SharesOk(w')
  {
    var n := |w.children|;
    var names := w.view.value.names;
    assert w'.children[..n] == w.children;
    assert forall c :: 0 <= c < n ==> w'.children[c] == w.children[c];
    assert Tracked(w') == Tracked(w) + {n};
    HeldIgnores(w.children, Tracked(w), n);
    HeldDistinct(w.children, Tracked(w));
    var held := Held(w.children, Tracked(w));
    forall s | s in held ensures s in names {
      var c := HeldMember(w.children, Tracked(w), s);
    }
    forall g ensures SumOn(Held(w'.children, Tracked(w')), g) <= 1.0 {
      SumOnConcat(held, slots, g);
      SumOnSubset(held, names, g);
    }
  }

  lemma {:induction false} HeldIgnores(children: seq<Child>, which: set<nat>, n: nat)
    requires n >= |children|
    ensures Held(children, which + {n}) == Held(children, which)
  {
    if children != [] {
      HeldIgnores(children[..|children| - 1], which, n);
    }
  }

  // ---------------------------------------------------------------- every run

  lemma StepKeeps(cfg: Config, w: World, e: Event)
    requires cfg.Valid() && cfg.deadline + cfg.latency < cfg.ttl
    requires Inv(cfg, w) && Enabled(cfg, w, e) && (e.Pull? ==> Regular(w.view.value, e.range))
    ensures Inv(cfg, Apply(cfg, w, e))
  {
    match e {
      case Tick(to) => TickKeeps(cfg, w, to);
      case Register(_) => PhaseChangeKeeps(cfg, w, e);
      case Die(_) => PhaseChangeKeeps(cfg, w, e);
      case Forget(_) => PhaseChangeKeeps(cfg, w, e);
      case Query(order) => QueryKeeps(cfg, w, order);
      case Account => AccountKeeps(cfg, w);
      case Pull(range) => PullKeeps(cfg, w, range);
    }
  }

  lemma {:induction false} RunKeeps(cfg: Config, events: seq<Event>)
    requires cfg.Valid() && cfg.deadline + cfg.latency < cfg.ttl
    requires After(cfg, events).Some? && RegularRun(cfg, events)
    ensures Inv(cfg, After(cfg, events).value)
  {
    if events != [] {
      RunKeeps(cfg, events[..|events| - 1]);
      StepKeeps(cfg, After(cfg, events[..|events| - 1]).value, events[|events| - 1]);
    }
  }

  lemma {:induction false} LoadIsHeld(children: seq<Child>, which: set<nat>, g: string)
    requires forall c :: 0 <= c < |children| ==> TrueToName(children[c])
    ensures Load(children, which, g) == SumOn(Held(children, which), g)
  {
    if children != [] {
      var n := |children| - 1;
      LoadIsHeld(children[..n], which, g);
      SumOnConcat(Held(children[..n], which), if n in which then children[n].slots else [], g);
    }
  }

  lemma InvIsSafe(cfg: Config, w: World)
    requires Inv(cfg, w)
    ensures Safe(w)
  {
    assert Live(w.children) <= Tracked(w);
    forall g ensures Load(w.children, Live(w.children), g) <= 1.0 {
      LoadIsHeld(w.children, Live(w.children), g);
      HeldMonotone(w.children, Live(w.children), Tracked(w), g);
    }
  }
}
