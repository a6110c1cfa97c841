/**
 When no GPU is handed out twice: the exact condition on the daemon's timing and on the ranges of its queues,
 with a run that breaks safety for every way of missing it.
 */
module GpuSafety {
  import opened Options
  import opened GpuNames
  import opened GpuTally
  import opened GpuGrant
  import opened GpuStacks
  import opened GpuProtocol
  import opened GpuReach
  import opened GpuRuns
  import opened Sequences

  // ---------------------------------------------------------------- filling one GPU

  ghost predicate AllOn(slots: seq<Slot>, gpu: string) { forall s :: s in slots ==> s.Slice? && s.gpu == gpu }

  // A GPU with room for the fraction is enough for the pull; the one taken has no more left.
  lemma ServedFraction(available: seq<Free>, range: Range, f: Free) returns (best: Free)
    requires ValidRange(range) && range.max.Part? && f in available && f.amount >= Need(range)
    ensures GateOpen(available, range) && Choose(available, range).Fraction?
    ensures Choose(available, range).digits == range.max.digits
    ensures best in available && best.gpu == Choose(available, range).gpu && best.amount <= f.amount
  {
    PlainFractionIsPositive(range.max.digits);
    assert HasFree(available, Need(range));
    ShareCases(available, range);
    FractionIsBestFit(available, range);
    best :| best in available && best.gpu == Choose(available, range).gpu && best.amount >= Need(range)
      && best.amount <= f.amount;
  }

  // A fraction is put beside the slices of the GPU that is in use, if it fits there.
  lemma StackedPull(cfg: Config, slots: seq<Slot>, gpu: string, range: Range)
    requires cfg.Valid() && range in cfg.queues && range.max.Part? && gpu in cfg.gpus
    requires AllOn(slots, gpu) && SumOn(slots, gpu) + Need(range) <= 1.0
    ensures CanPull(cfg, slots, range)
    ensures GrantOf(cfg, slots, range).Fraction? && GrantOf(cfg, slots, range).digits == range.max.digits
    ensures GrantOf(cfg, slots, range).gpu in cfg.gpus
    ensures SumOn(slots, gpu) > 0.0 ==> GrantOf(cfg, slots, range).gpu == gpu
  {
    PlainFractionIsPositive(range.max.digits);
    ViewOfSlots(cfg, slots);
    var best := ServedFraction(ViewOf(cfg, slots).available, range, Free(gpu, 1.0 - SumOn(slots, gpu)));
    if best.gpu != gpu { NothingElsewhere(slots, gpu, best.gpu); }
  }

  lemma {:induction false} NothingElsewhere(slots: seq<Slot>, gpu: string, other: string)
    requires AllOn(slots, gpu) && other != gpu
    ensures SumOn(slots, other) == 0.0
  {
    if slots != [] {
      assert slots[0] in slots && forall s :: s in slots[1..] ==> s in slots;
      NothingElsewhere(slots[1..], gpu, other);
    }
  }

  // The slices of each size carry the first letters.
  ghost predicate Spelled(slots: seq<Slot>, gpu: string, parts: seq<Range>) {
    forall d, k: nat :: k < LETTERS ==> (Slice(gpu, d, Letter(k)) in slots <==> k < CountOf(parts, d))
  }

  ghost predicate Uncrowded(parts: seq<Range>) { forall d :: CountOf(parts, d) <= LETTERS }

  // Serving the pulls one after the other has put all of them on this GPU.
  ghost predicate Filled(slots: seq<Slot>, gpu: string, parts: seq<Range>) {
    && AllOn(slots, gpu) && Spelled(slots, gpu, parts) && Uncrowded(parts) && SumOn(slots, gpu) == Total(parts)
    && (parts == [] ==> slots == [])
  }

  // A pull of this range would leave a slice without a letter.
  ghost predicate LacksLetter(cfg: Config, slots: seq<Slot>, range: Range) {
    && CanPull(cfg, slots, range) && GrantOf(cfg, slots, range).Fraction?
    && AllTaken(GrantOf(cfg, slots, range).gpu, GrantOf(cfg, slots, range).digits, slots)
  }

  lemma LacksLetterMeaning(cfg: Config, slots: seq<Slot>, range: Range)
    requires cfg.Valid() && GrantOf(cfg, slots, range).Fraction?
    ensures Regular(ViewOf(cfg, slots), range) <==>
      !AllTaken(GrantOf(cfg, slots, range).gpu, GrantOf(cfg, slots, range).digits, slots)
  {
    ViewOfSlots(cfg, slots);
    var grant := GrantOf(cfg, slots, range);
    SameLetters(grant.gpu, grant.digits, ViewOf(cfg, slots).names, slots, 0);
  }

  lemma SpelledMore(slots: seq<Slot>, gpu: string, parts: seq<Range>, last: Range, k: nat)
    requires Spelled(slots, gpu, parts) && last.max.Part? && k < LETTERS && k == CountOf(parts, last.max.digits)
    ensures Spelled(slots + [Slice(gpu, last.max.digits, Letter(k))], gpu, parts + [last])
  {
    var s := Slice(gpu, last.max.digits, Letter(k));
    assert (parts + [last])[..|parts|] == parts;
    forall d, j: nat | j < LETTERS
      ensures Slice(gpu, d, Letter(j)) in slots + [s] <==> j < CountOf(parts + [last], d)
    {
      assert Slice(gpu, d, Letter(j)) in slots <==> j < CountOf(parts, d);
      assert Letter(j) == Letter(k) <==> j == k;
    }
  }

  lemma NextLetter(slots: seq<Slot>, gpu: string, parts: seq<Range>, digits: string, names: seq<Slot>)
    requires Spelled(slots, gpu, parts) && CountOf(parts, digits) <= LETTERS
    requires forall s :: s in names <==> s in slots
    ensures FreeLetter(gpu, digits, names, 0) == CountOf(parts, digits)
  {
    var n := CountOf(parts, digits);
    assert n < LETTERS ==> Slice(gpu, digits, Letter(n)) !in slots && Slice(gpu, digits, Letter(n)) !in names;
  }

  lemma FilledMore(slots: seq<Slot>, gpu: string, parts: seq<Range>, last: Range, names: seq<Slot>)
    requires Filled(slots, gpu, parts) && last.max.Part? && !AllTaken(gpu, last.max.digits, names)
    requires forall s :: s in names <==> s in slots
    ensures Filled(slots + [SliceName(gpu, last.max.digits, names)], gpu, parts + [last])
  {
    var digits := last.max.digits;
    var s := SliceName(gpu, digits, names);
    NextLetter(slots, gpu, parts, digits, names);
    SpelledMore(slots, gpu, parts, last, CountOf(parts, digits));
    assert s == Slice(gpu, digits, Letter(CountOf(parts, digits)));
    assert (parts + [last])[..|parts|] == parts;
    assert (slots + [s])[..|slots|] == slots && (slots + [s])[|slots|] == s;
    SumOnSnoc(slots + [s], gpu);
    assert Total(parts + [last]) == Total(parts) + Amount(last.max);
  }

  lemma {:induction false} TotalIsPositive(queues: seq<Range>, parts: seq<Range>)
    requires Stacks(queues, parts) && parts != [] && forall q :: q in queues ==> ValidRange(q)
    ensures Total(parts) > 0.0
  {
    var n := |parts| - 1;
    PlainFractionIsPositive(parts[n].max.digits);
    if n > 0 { TotalIsPositive(queues, parts[..n]); }
  }

  lemma FillStep(cfg: Config, events: seq<Event>, w: World, gpu: string, parts: seq<Range>, last: Range)
    returns (events': seq<Event>, w': World, gpu': string, stuck: Option<Range>)
    requires cfg.Valid() && Stacks(cfg.queues, parts + [last]) && gpu in cfg.gpus
    requires After(cfg, events) == Some(w) && RegularRun(cfg, events) && Settled(cfg, w) && Honest(w.children)
    requires Filled(AllSlots(w.children), gpu, parts)
    ensures After(cfg, events') == Some(w') && RegularRun(cfg, events') && Settled(cfg, w') && Honest(w'.children)
    ensures gpu' in cfg.gpus
    ensures match stuck
      case Some(range) => LacksLetter(cfg, AllSlots(w'.children), range) && !Uncrowded(parts + [last])
      case None => Filled(AllSlots(w'.children), gpu', parts + [last])
  {
    var slots := AllSlots(w.children);
    assert (parts + [last])[..|parts|] == parts;
    StackedPull(cfg, slots, gpu, last);
    gpu' := GrantOf(cfg, slots, last).gpu;
    if parts != [] { TotalIsPositive(cfg.queues, parts); }
    assert Filled(slots, gpu', parts);
    LacksLetterMeaning(cfg, slots, last);
    if AllTaken(gpu', last.max.digits, slots) {
      events', w', stuck := events, w, Some(last);
      NextLetter(slots, gpu', parts, last.max.digits, slots);
      assert CountOf(parts + [last], last.max.digits) > LETTERS;
    } else {
      events', w' := RegularRound(cfg, events, w, last);
      stuck := None;
      NewSlotFills(cfg, slots, gpu', parts, last);
    }
  }

  lemma NewSlotFills(cfg: Config, slots: seq<Slot>, gpu: string, parts: seq<Range>, last: Range)
    requires cfg.Valid() && Filled(slots, gpu, parts) && last.max.Part?
    requires GrantOf(cfg, slots, last) == Fraction(gpu, last.max.digits) && Regular(ViewOf(cfg, slots), last)
    ensures Filled(slots + NewSlots(cfg, slots, last), gpu, parts + [last])
  {
    ViewOfSlots(cfg, slots);
    FilledMore(slots, gpu, parts, last, ViewOf(cfg, slots).names);
  }

  // Whatever the queues can stack on a GPU is reached, unless a slice is left without a letter before.
  lemma {:induction false} Fill(cfg: Config, parts: seq<Range>)
    returns (events: seq<Event>, w: World, gpu: string, stuck: Option<Range>)
    requires cfg.Valid() && Stacks(cfg.queues, parts)
    ensures After(cfg, events) == Some(w) && RegularRun(cfg, events) && Settled(cfg, w) && Honest(w.children)
    ensures gpu in cfg.gpus
    ensures match stuck
      case Some(range) => LacksLetter(cfg, AllSlots(w.children), range) && !Uncrowded(parts)
      case None => Filled(AllSlots(w.children), gpu, parts)
  {
    if parts == [] {
      events, w, gpu, stuck := [], INITIAL, cfg.gpus[0], None;
    } else {
      var init, last := parts[..|parts| - 1], parts[|parts| - 1];
      assert init + [last] == parts;
      events, w, gpu, stuck := Fill(cfg, init);
      CrowdGrows(init, last);
      if stuck.None? {
        events, w, gpu, stuck := FillStep(cfg, events, w, gpu, init, last);
      }
    }
  }

  lemma CrowdGrows(parts: seq<Range>, last: Range)
    ensures Uncrowded(parts + [last]) ==> Uncrowded(parts)
  {
    assert (parts + [last])[..|parts|] == parts;
    assert forall d :: CountOf(parts, d) <= CountOf(parts + [last], d);
  }

  // ---------------------------------------------------------------- a slice without a letter

  lemma {:induction false} SameFree(indexes: seq<string>, a: map<string, real>, b: map<string, real>)
    requires forall g :: g in indexes ==> Used(a, g) == Used(b, g)
    ensures FreeOn(indexes, a) == FreeOn(indexes, b)
  {
    if indexes != [] {
      SameFree(indexes[..|indexes| - 1], a, b);
    }
  }

  // A slice without a letter is named like a static one of its own, so the GPU it is on looks as before.
  lemma BareNameIsOverlooked(cfg: Config, slots: seq<Slot>, gpu: string, digits: string)
    requires cfg.Valid() && IsIndex(gpu)
    ensures
      var more := slots + [Static(gpu + "." + digits)];
      && ViewOf(cfg, more).available == ViewOf(cfg, slots).available
      && (forall k :: 0 <= k < LETTERS ==>
            (Slice(gpu, digits, Letter(k)) in more <==> Slice(gpu, digits, Letter(k)) in slots))
  {
    var bare := Static(gpu + "." + digits);
    TallyFromConcat(map[], [], slots, [bare]);
    assert Tally(slots + [bare]) == TallyFrom(Book(Tally(slots), bare), [bare][1..]) == Book(Tally(slots), bare);
    assert bare.name !in cfg.gpus by {
      assert bare.name[|gpu|] == '.';
    }
    SameFree(cfg.gpus, Tally(slots), Tally(slots + [bare]));
  }

  lemma BareAgain(cfg: Config, slots: seq<Slot>, range: Range)
    requires cfg.Valid() && LacksLetter(cfg, slots, range)
    ensures
      var more := slots + NewSlots(cfg, slots, range);
      && CanPull(cfg, more, range) && NewSlots(cfg, more, range) == NewSlots(cfg, slots, range) != []
  {
    var grant := GrantOf(cfg, slots, range);
    var gpu, digits := grant.gpu, grant.digits;
    ViewOfSlots(cfg, slots);
    GrantIsFromView(ViewOf(cfg, slots).available, range);
    BareNameIsOverlooked(cfg, slots, gpu, digits);
    var more := slots + [Static(gpu + "." + digits)];
    ViewOfSlots(cfg, more);
    SameLetters(gpu, digits, slots, ViewOf(cfg, slots).names, 0);
    SameLetters(gpu, digits, slots, ViewOf(cfg, more).names, 0);
  }

  ghost predicate Unsafe(cfg: Config, events: seq<Event>) {
    After(cfg, events).Some? && !Safe(After(cfg, events).value)
  }

  lemma TwinsAreUnsafe(w: World, i: nat, j: nat)
    requires i < j < |w.children| && !w.children[i].phase.Dead? && !w.children[j].phase.Dead?
    requires w.children[i].slots == w.children[j].slots != []
    ensures !Safe(w)
  {
    assert i in Live(w.children) && j in Live(w.children);
    assert w.children[i].slots[0] in w.children[i].slots;
  }

  // Two pulls without a letter give two live children the same name.
  lemma BareNameIsUnsafe(cfg: Config, events: seq<Event>, w: World, range: Range) returns (events': seq<Event>)
    requires cfg.Valid() && After(cfg, events) == Some(w) && Settled(cfg, w)
    requires LacksLetter(cfg, AllSlots(w.children), range)
    ensures Unsafe(cfg, events')
  {
    var slots := AllSlots(w.children);
    BareAgain(cfg, slots, range);
    var events1, w1 := PullRound(cfg, events, w, range);
    var w2;
    events', w2 := PullRound(cfg, events1, w1, range);
    TwinsAreUnsafe(w2, |w.children|, |w.children| + 1);
  }

  // ---------------------------------------------------------------- a pull that shrinks

  // One GPU has room for the minimum of the range but not for its (capped) maximum.
  predicate GapOn(slots: seq<Slot>, gpu: string, range: Range) {
    Static(gpu) !in slots && Amount(range.min) <= 1.0 - SumOn(slots, gpu) < Min(Amount(range.max), 1.0)
  }

  // The names that pulls of the range can give.
  function Names(cfg: Config, range: Range): set<Slot> {
    if range.max.Count? then set g | g in cfg.gpus :: Static(g)
    else set g, k | g in cfg.gpus && 0 <= k < LETTERS :: Slice(g, range.max.digits, Letter(k))
  }

  function Unused(cfg: Config, slots: seq<Slot>, range: Range): set<Slot> {
    set s | s in Names(cfg, range) && s !in slots
  }

  lemma AmountIsPositive(b: Bound)
    requires ValidBound(b)
    ensures Amount(b) > 0.0
  {
    if b.Part? { PlainFractionIsPositive(b.digits); }
  }

  // As long as another GPU has room for the maximum, a pull is served there.
  lemma WholesElsewhere(cfg: Config, slots: seq<Slot>, gpu: string, range: Range)
    requires cfg.Valid() && range in cfg.queues && gpu in cfg.gpus && GapOn(slots, gpu, range) && range.max.Count?
    requires HasFree(ViewOf(cfg, slots).available, 1.0)
    ensures CanPull(cfg, slots, range) && GrantOf(cfg, slots, range).Wholes?
    ensures
      var gpus := GrantOf(cfg, slots, range).gpus;
      gpus != [] && gpu !in gpus && Distinct(gpus) && forall g :: g in gpus ==> g in cfg.gpus && Static(g) !in slots
  {
    AmountIsPositive(range.min);
    ViewOfSlots(cfg, slots);
    ServedWholes(ViewOf(cfg, slots).available, range, Free(gpu, 1.0 - SumOn(slots, gpu)));
  }

  lemma ServedWholes(available: seq<Free>, range: Range, f: Free)
    requires Sound(available) && ValidRange(range) && range.max.Count? && HasFree(available, 1.0)
    requires f in available && f.amount >= Amount(range.min)
    ensures GateOpen(available, range) && Choose(available, range).Wholes?
    ensures
      var gpus := Choose(available, range).gpus;
      gpus != [] && Distinct(gpus) && forall g :: g in gpus ==> Free(g, 1.0) in available
  {
    var whole :| whole in available && whole.amount >= 1.0;
    assert whole.gpu in WholeFree(available);
    GrantIsFromView(available, range);
  }

  lemma FractionElsewhere(cfg: Config, slots: seq<Slot>, gpu: string, range: Range)
    requires cfg.Valid() && range in cfg.queues && gpu in cfg.gpus && GapOn(slots, gpu, range) && range.max.Part?
    requires HasFree(ViewOf(cfg, slots).available, Amount(range.max))
    ensures CanPull(cfg, slots, range) && GrantOf(cfg, slots, range).Fraction?
    ensures
      var grant := GrantOf(cfg, slots, range);
      grant.gpu != gpu && grant.digits == range.max.digits && grant.gpu in cfg.gpus
  {
    var available := ViewOf(cfg, slots).available;
    ViewOfSlots(cfg, slots);
    var f :| f in available && f.amount >= Amount(range.max);
    var best := ServedFraction(available, range, f);
    FractionIsBestFit(available, range);
    var g :| g in available && g.gpu == GrantOf(cfg, slots, range).gpu && g.amount >= Need(range);
  }

  // Such a pull leaves the gap as it is and uses up a name.
  lemma PullElsewhere(cfg: Config, slots: seq<Slot>, gpu: string, range: Range)
    requires cfg.Valid() && range in cfg.queues && gpu in cfg.gpus && GapOn(slots, gpu, range)
    requires HasFree(ViewOf(cfg, slots).available, Min(Amount(range.max), 1.0))
    ensures CanPull(cfg, slots, range)
    ensures Regular(ViewOf(cfg, slots), range) || LacksLetter(cfg, slots, range)
    ensures Regular(ViewOf(cfg, slots), range) ==>
      var more := slots + NewSlots(cfg, slots, range);
      && GapOn(more, gpu, range) && SumOn(more, gpu) == SumOn(slots, gpu)
      && Unused(cfg, more, range) < Unused(cfg, slots, range)
  {
    var added := NewSlots(cfg, slots, range);
    if range.max.Count? {
      WholesElsewhere(cfg, slots, gpu, range);
      StaticSum(GrantOf(cfg, slots, range).gpus, gpu);
      AddedElsewhere(cfg, slots, added, gpu, range);
    } else {
      FractionElsewhere(cfg, slots, gpu, range);
      LacksLetterMeaning(cfg, slots, range);
      if Regular(ViewOf(cfg, slots), range) {
        SumOnOne(added[0], gpu);
        RegularPullIsHonest(cfg, slots, range);
        AddedElsewhere(cfg, slots, added, gpu, range);
      }
    }
  }

  lemma AddedElsewhere(cfg: Config, slots: seq<Slot>, added: seq<Slot>, gpu: string, range: Range)
    requires GapOn(slots, gpu, range) && SumOn(added, gpu) == 0.0 && Static(gpu) !in added
    requires added != [] && added[0] in Names(cfg, range) && added[0] !in slots
    ensures GapOn(slots + added, gpu, range) && SumOn(slots + added, gpu) == SumOn(slots, gpu)
    ensures Unused(cfg, slots + added, range) < Unused(cfg, slots, range)
  {
    SumOnConcat(slots, added, gpu);
    assert added[0] in Unused(cfg, slots, range) && added[0] !in Unused(cfg, slots + added, range);
  }

  // Pulls of the range itself fill the other GPUs, until none has room for its maximum.
  lemma {:induction false} CloseOthers(cfg: Config, events: seq<Event>, w: World, gpu: string, range: Range)
    returns (events': seq<Event>, w': World)
    requires cfg.Valid() && After(cfg, events) == Some(w) && RegularRun(cfg, events)
    requires Settled(cfg, w) && Honest(w.children)
    requires range in cfg.queues && gpu in cfg.gpus && GapOn(AllSlots(w.children), gpu, range)
    ensures After(cfg, events') == Some(w') && RegularRun(cfg, events') && Settled(cfg, w') && Honest(w'.children)
    ensures SumOn(AllSlots(w'.children), gpu) == SumOn(AllSlots(w.children), gpu)
    ensures
      var slots := AllSlots(w'.children);
      || LacksLetter(cfg, slots, range)
      || (GapOn(slots, gpu, range) && !HasFree(ViewOf(cfg, slots).available, Min(Amount(range.max), 1.0)))
    decreases |Unused(cfg, AllSlots(w.children), range)|
  {
    var slots := AllSlots(w.children);
    events', w' := events, w;
    if HasFree(ViewOf(cfg, slots).available, Min(Amount(range.max), 1.0)) {
      PullElsewhere(cfg, slots, gpu, range);
      if Regular(ViewOf(cfg, slots), range) {
        events', w' := RegularRound(cfg, events, w, range);
        SmallerSet(Unused(cfg, AllSlots(w'.children), range), Unused(cfg, slots, range));
        events', w' := CloseOthers(cfg, events', w', gpu, range);
      }
    }
  }

  lemma SmallerSet<T>(a: set<T>, b: set<T>)
    requires a < b
    ensures |a| < |b|
  {
    assert |b - a| > 0;
    assert a + (b - a) == b;
  }

  lemma ShrinksBelow(available: seq<Free>, range: Range, f: Free)
    requires Sound(available) && ValidRange(range) && f in available
    requires Amount(range.min) <= f.amount && !HasFree(available, Min(Amount(range.max), 1.0))
    ensures GateOpen(available, range)
    ensures Choose(available, range).Overrun? || Choose(available, range).ZeroShare?
    ensures f.amount >= 1.0 / BASE_FRACT ==> Choose(available, range).Overrun?
  {
    assert HasFree(available, Amount(range.min));
    ShareCases(available, range);
    if range.max.Count? && WholeFree(available) != [] {
      assert WholeFree(available)[0] in WholeFree(available);
      assert false;
    }
    var largest := ShrinkTakesLargest(available, range);
  }

  lemma GapShrinks(cfg: Config, slots: seq<Slot>, gpu: string, range: Range)
    requires cfg.Valid() && range in cfg.queues && gpu in cfg.gpus && GapOn(slots, gpu, range)
    requires !HasFree(ViewOf(cfg, slots).available, Min(Amount(range.max), 1.0))
    ensures
      var available := ViewOf(cfg, slots).available;
      && available != [] && GateOpen(available, range)
      && (Choose(available, range).Overrun? || Choose(available, range).ZeroShare?)
      && (1.0 - SumOn(slots, gpu) >= 1.0 / BASE_FRACT ==>
            CanPull(cfg, slots, range) && Choose(available, range).Overrun?)
  {
    AmountIsPositive(range.min);
    ViewOfSlots(cfg, slots);
    ShrinksBelow(ViewOf(cfg, slots).available, range, Free(gpu, 1.0 - SumOn(slots, gpu)));
  }

  lemma {:induction false} LoadOfAll(children: seq<Child>, which: set<nat>, g: string)
    requires Honest(children) && forall c: nat :: c < |children| ==> c in which
    ensures Load(children, which, g) == SumOn(AllSlots(children), g)
  {
    if children != [] {
      var n := |children| - 1;
      LoadOfAll(children[..n], which, g);
      SumOnConcat(AllSlots(children[..n]), children[n].slots, g);
    }
  }

  // Where everybody was given what the names say, the whole GPU of a shrunk pull is too much.
  lemma OverrunIsUnsafe(cfg: Config, events: seq<Event>, w: World, range: Range) returns (events': seq<Event>)
    requires cfg.Valid() && After(cfg, events) == Some(w) && Settled(cfg, w) && Honest(w.children)
    requires CanPull(cfg, AllSlots(w.children), range) && GrantOf(cfg, AllSlots(w.children), range).Overrun?
    ensures Unsafe(cfg, events')
  {
    var slots := AllSlots(w.children);
    var w1;
    events', w1 := PullRound(cfg, events, w, range);
    ViewOfSlots(cfg, slots);
    var f := ShrinkTakesLargest(ViewOf(cfg, slots).available, range);
    var child := Child(GrantOf(cfg, slots, range), NewSlots(cfg, slots, range), Registered, 0.0);
    OneMoreIsTooMuch(w.children, child, w1, f.gpu);
  }

  lemma LoadSnoc(children: seq<Child>, c: Child, which: set<nat>, g: string)
    ensures Load(children + [c], which, g) ==
      Load(children, which, g) + (if |children| in which then Given(c.grant, g) else 0.0)
  {
    assert (children + [c])[..|children|] == children;
  }

  lemma OneMoreIsTooMuch(children: seq<Child>, c: Child, w: World, gpu: string)
    requires Honest(children) && SumOn(AllSlots(children), gpu) > 0.0
    requires w.children == children + [c] && c.grant == Overrun(gpu)
    requires forall i :: 0 <= i < |w.children| ==> w.children[i].phase.Registered?
    ensures !Safe(w)
  {
    var live := Live(w.children);
    forall i: nat ensures i < |w.children| ==> i in live {
    }
    LoadOfAll(children, live, gpu);
    LoadSnoc(children, c, live, gpu);
  }

  // ---------------------------------------------------------------- the margin that is needed

  // A pull of the range is served when every GPU is free.
  predicate CanStart(cfg: Config, range: Range) {
    var gpus := set g | g in cfg.gpus;
    range in cfg.queues && Amount(range.min) <= |gpus| as real && (range.max.Count? || Amount(range.min) <= 1.0)
  }

  lemma {:induction false} WholeTotalSnoc(available: seq<Free>, f: Free)
    ensures WholeTotal(available + [f]) == WholeTotal(available) + (if f.amount >= 1.0 then f.amount else 0.0)
  {
    if available == [] {
      assert ([] + [f])[1..] == [];
    } else {
      assert (available + [f])[1..] == available[1..] + [f];
      WholeTotalSnoc(available[1..], f);
    }
  }

  lemma OneMoreMember(init: seq<string>, g: string)
    ensures (set h | h in init + [g]) == (set h | h in init) + {g}
    ensures |set h | h in init + [g]| == |set h | h in init| + (if g in init then 0 else 1)
  {
    var before := set h | h in init;
    assert (set h | h in init + [g]) == before + {g};
    assert g in init ==> before + {g} == before;
  }

  lemma {:induction false} FreeWhenIdle(indexes: seq<string>)
    ensures WholeTotal(FreeOn(indexes, map[])) == |set g | g in indexes| as real
  {
    if indexes != [] {
      var init, g := indexes[..|indexes| - 1], indexes[|indexes| - 1];
      FreeWhenIdle(init);
      OneMoreMember(init, g);
      assert indexes == init + [g];
      WholeTotalSnoc(FreeOn(init, map[]), Free(g, 1.0));
    }
  }

  lemma IdleChoice(available: seq<Free>, range: Range)
    requires Sound(available) && ValidRange(range) && available != []
    requires forall f :: f in available ==> f.amount == 1.0
    ensures GateOpen(available, range) <==> Amount(range.min) <= Max(WholeTotal(available), 1.0)
    ensures Launches(Choose(available, range)) <==> range.max.Count? || Amount(range.min) <= 1.0
  {
    AmountIsPositive(range.min);
    AmountIsPositive(range.max);
    assert available[0] in available && available[0].gpu in WholeFree(available);
    ShareCases(available, range);
    if Choose(available, range).Overrun? || Choose(available, range).ZeroShare? {
      var f := ShrinkTakesLargest(available, range);
      assert false;
    }
    if Amount(range.min) <= 1.0 {
      assert HasFree(available, Amount(range.min));
    }
  }

  lemma StartMeaning(cfg: Config, range: Range)
    requires cfg.Valid() && range in cfg.queues
    ensures CanStart(cfg, range) <==> CanPull(cfg, [], range)
  {
    var available := ViewOf(cfg, []).available;
    ViewOfSlots(cfg, []);
    FreeWhenIdle(cfg.gpus);
    assert cfg.gpus[0] in cfg.gpus && Free(cfg.gpus[0], 1.0) in available;
    IdleChoice(available, range);
    var gpus := set g | g in cfg.gpus;
    assert cfg.gpus[0] in gpus;
  }

  lemma AccountBlind(cfg: Config, w: World)
    requires w.snapshot.Some? && w.snapshot.value.listed == [] && w.now <= w.snapshot.value.at + cfg.latency
    requires forall r :: r in w.reservations ==> w.now - r.at >= cfg.ttl
    ensures Enabled(cfg, w, Account)
    ensures Apply(cfg, w, Account) == w.(reservations := [], snapshot := None, view := Some(ViewOf(cfg, [])))
  {
    assert ListedSlots(cfg, w) == [];
    NothingPending(w.reservations, [], w.now, cfg.ttl);
  }

  // From a state in which every reservation has expired, a list that misses all children makes the daemon
  // serve the queue as if every GPU were free.
  lemma PullBlind(cfg: Config, events: seq<Event>, w: World, range: Range) returns (w': World)
    requires After(cfg, events) == Some(w) && CanPull(cfg, [], range)
    requires w.snapshot.Some? && w.snapshot.value.listed == [] && w.now <= w.snapshot.value.at + cfg.latency
    requires forall r :: r in w.reservations ==> w.now - r.at >= cfg.ttl
    ensures After(cfg, events + [Account] + [Pull(range)]) == Some(w')
    ensures w'.now == w.now && w'.registry == w.registry && w'.view.None?
    ensures w'.children == w.children + [Child(GrantOf(cfg, [], range), NewSlots(cfg, [], range), Launched, w.now)]
    ensures forall r :: r in w'.reservations ==> r.at == w.now
  {
    AccountBlind(cfg, w);
    AfterStep(cfg, events, w, Account);
    var w1 := Apply(cfg, w, Account);
    AfterStep(cfg, events + [Account], w1, Pull(range));
    w' := Apply(cfg, w1, Pull(range));
    ReserveAllMeaning([], NewSlots(cfg, [], range), GrantFractions(GrantOf(cfg, [], range)), w.now);
  }

  lemma AfterFirstLaunch(cfg: Config, range: Range) returns (events: seq<Event>, w: World)
    requires cfg.Valid() && CanPull(cfg, [], range)
    ensures After(cfg, events) == Some(w)
    ensures w.children == [Child(GrantOf(cfg, [], range), NewSlots(cfg, [], range), Launched, 0.0)]
    ensures w.registry == {} && w.now == 0.0 && forall r :: r in w.reservations ==> r.at == 0.0
  {
    AfterStep(cfg, [], INITIAL, Query([]));
    assert [] + [Query([])] == [Query([])];
    w := PullBlind(cfg, [Query([])], Apply(cfg, INITIAL, Query([])), range);
    events := [Query([])] + [Account] + [Pull(range)];
  }

  // The clock moves on, and the server lists its workers: none.
  lemma WaitAndQuery(cfg: Config, events: seq<Event>, w: World, to: real) returns (events': seq<Event>, w': World)
    requires After(cfg, events) == Some(w) && Enabled(cfg, w, Tick(to)) && w.registry == {}
    ensures After(cfg, events') == Some(w')
    ensures w' == w.(now := to, snapshot := Some(Snapshot([], to)), view := None)
  {
    AfterStep(cfg, events, w, Tick(to));
    var w1 := Apply(cfg, w, Tick(to));
    AfterStep(cfg, events + [Tick(to)], w1, Query([]));
    events', w' := events + [Tick(to)] + [Query([])], Apply(cfg, w1, Query([]));
  }

  // The only child registers, and the clock moves on.
  lemma RegisterAndWait(cfg: Config, events: seq<Event>, w: World, to: real) returns (events': seq<Event>, w': World)
    requires After(cfg, events) == Some(w) && |w.children| == 1 && w.children[0].phase.Launched? && w.now <= to
    ensures After(cfg, events') == Some(w')
    ensures w' == w.(now := to, children := [w.children[0].(phase := Registered)], registry := w.registry + {0})
  {
    AfterStep(cfg, events, w, Register(0));
    var w1 := Apply(cfg, w, Register(0));
    assert w1.children == [w.children[0].(phase := Registered)];
    AfterStep(cfg, events + [Register(0)], w1, Tick(to));
    events', w' := events + [Register(0)] + [Tick(to)], Apply(cfg, w1, Tick(to));
  }

  lemma GrantGivesSlots(view: View, range: Range)
    requires ValidRange(range) && Launches(Choose(view.available, range))
    ensures GrantSlots(Choose(view.available, range), view.names) != []
  {
    if Choose(view.available, range).Wholes? { WholesAreSome(view.available, range); }
  }

  lemma WholesAreSome(available: seq<Free>, range: Range)
    requires ValidRange(range) && Choose(available, range).Wholes?
    ensures Choose(available, range).gpus != []
  {
    if !(range.max.Count? && WholeFree(available) != []) { ShareOfWhole(available, range); }
  }

  lemma StartGivesSlots(cfg: Config, range: Range)
    requires cfg.Valid() && CanPull(cfg, [], range)
    ensures NewSlots(cfg, [], range) != []
  {
    ViewOfSlots(cfg, []);
    GrantGivesSlots(ViewOf(cfg, []), range);
  }

  // Without the margin the GPUs of a child are handed out a second time: it waits out its deadline, the server
  // lists its workers, the child registers, and the accounting comes late enough for the reservation to be gone.
  lemma LateRegistrationIsUnsafe(cfg: Config, range: Range) returns (events: seq<Event>)
    requires cfg.Valid() && CanStart(cfg, range) && cfg.deadline + cfg.latency >= cfg.ttl
    ensures Unsafe(cfg, events)
  {
    StartMeaning(cfg, range);
    StartGivesSlots(cfg, range);
    var w;
    events, w := AfterFirstLaunch(cfg, range);
    events, w := WaitAndQuery(cfg, events, w, cfg.deadline);
    events, w := RegisterAndWait(cfg, events, w, cfg.deadline + cfg.latency);
    w := PullBlind(cfg, events, w, range);
    events := events + [Account] + [Pull(range)];
    TwinsAreUnsafe(w, 0, 1);
  }

  // ---------------------------------------------------------------- what is reached

  // Some run, regular up to there, lets the daemon poll a view in which the pull of this range shrinks.
  ghost predicate ShrinkIsReached(cfg: Config, range: Range) {
    exists events ::
      && RegularRun(cfg, events) && After(cfg, events).Some? && AtPull(After(cfg, events).value, range)
      && var grant := Choose(After(cfg, events).value.view.value.available, range);
         grant.Overrun? || grant.ZeroShare?
  }

  // The same for a pull that leaves a slice without a letter.
  ghost predicate BareNameIsReached(cfg: Config, range: Range) {
    exists events ::
      && RegularRun(cfg, events) && After(cfg, events).Some? && AtPull(After(cfg, events).value, range)
      && Choose(After(cfg, events).value.view.value.available, range).Fraction?
      && !Regular(After(cfg, events).value.view.value, range)
  }

  // The daemon has polled and pulls from a queue with this range.
  ghost predicate AtPull(w: World, range: Range) {
    w.view.Some? && w.view.value.available != [] && GateOpen(w.view.value.available, range)
  }

  lemma LackIsReached(cfg: Config, events: seq<Event>, w: World, range: Range)
    requires cfg.Valid() && After(cfg, events) == Some(w) && RegularRun(cfg, events) && Settled(cfg, w)
    requires LacksLetter(cfg, AllSlots(w.children), range)
    ensures BareNameIsReached(cfg, range)
  {
    LacksLetterMeaning(cfg, AllSlots(w.children), range);
    var events', w' := Poll(cfg, events, w);
    assert AtPull(After(cfg, events').value, range);
  }

  // A slice is left without a letter in some run exactly when the queues can put 27 slices of one size on
  // one GPU.
  lemma BareNameExactlyWhenCrowded(cfg: Config)
    requires cfg.Valid() && cfg.deadline + cfg.latency < cfg.ttl
    ensures (exists range :: range in cfg.queues && BareNameIsReached(cfg, range)) <==> CanCrowd(cfg.queues)
  {
    if CanCrowd(cfg.queues) {
      var parts, digits :| Stacks(cfg.queues, parts) && CountOf(parts, digits) > LETTERS;
      var events, w, gpu, stuck := Fill(cfg, parts);
      assert stuck.Some?;
      LackIsReached(cfg, events, w, stuck.value);
    }
    forall range | range in cfg.queues && BareNameIsReached(cfg, range) ensures CanCrowd(cfg.queues) {
      var events :|
        && RegularRun(cfg, events) && After(cfg, events).Some? && AtPull(After(cfg, events).value, range)
        && Choose(After(cfg, events).value.view.value.available, range).Fraction?
        && !Regular(After(cfg, events).value.view.value, range);
      RegularRunsKeep(cfg, events);
      BareNameNeedsCrowd(cfg, After(cfg, events).value, range);
    }
  }

  // A stack with a gap leads to a state in which a pull of the range shrinks.
  lemma GapIsReached(cfg: Config, parts: seq<Range>, range: Range)
    returns (events: seq<Event>, w: World, stuck: Option<Range>)
    requires cfg.Valid() && range in cfg.queues && Stacks(cfg.queues, parts) && LeavesGap(parts, range)
    ensures After(cfg, events) == Some(w) && RegularRun(cfg, events) && Settled(cfg, w) && Honest(w.children)
    ensures match stuck
      case Some(other) => LacksLetter(cfg, AllSlots(w.children), other)
      case None =>
        var available := ViewOf(cfg, AllSlots(w.children)).available;
        && available != [] && GateOpen(available, range)
        && (Choose(available, range).Overrun? || Choose(available, range).ZeroShare?)
        && (1.0 - Total(parts) >= 1.0 / BASE_FRACT ==>
              CanPull(cfg, AllSlots(w.children), range) && Choose(available, range).Overrun?)
  {
    var gpu;
    events, w, gpu, stuck := Fill(cfg, parts);
    if stuck.None? {
      events, w := CloseOthers(cfg, events, w, gpu, range);
      if LacksLetter(cfg, AllSlots(w.children), range) {
        stuck := Some(range);
      } else {
        GapShrinks(cfg, AllSlots(w.children), gpu, range);
      }
    }
  }

  // While letters suffice, a pull shrinks in some run exactly when pulls of the queues can leave a gap.
  lemma ShrinkExactlyWhenGap(cfg: Config)
    requires cfg.Valid() && cfg.deadline + cfg.latency < cfg.ttl && !CanCrowd(cfg.queues)
    ensures (exists range :: range in cfg.queues && ShrinkIsReached(cfg, range)) <==> CanShrink(cfg.queues)
  {
    if CanShrink(cfg.queues) {
      var range, parts :| range in cfg.queues && Stacks(cfg.queues, parts) && LeavesGap(parts, range);
      var events, w, stuck := GapIsReached(cfg, parts, range);
      if stuck.Some? {
        LackIsReached(cfg, events, w, stuck.value);
        BareNameExactlyWhenCrowded(cfg);
        assert false;
      }
      var events', w' := Poll(cfg, events, w);
      assert AtPull(After(cfg, events').value, range);
      assert ShrinkIsReached(cfg, range);
    }
    forall range | range in cfg.queues && ShrinkIsReached(cfg, range) ensures CanShrink(cfg.queues) {
      var events :|
        && RegularRun(cfg, events) && After(cfg, events).Some? && AtPull(After(cfg, events).value, range)
        && var grant := Choose(After(cfg, events).value.view.value.available, range);
           grant.Overrun? || grant.ZeroShare?;
      RegularRunsKeep(cfg, events);
      ShrinkNeedsGap(cfg, After(cfg, events).value, range);
    }
  }

  // ---------------------------------------------------------------- the exact condition

  ghost predicate AlwaysSafe(cfg: Config) {
    forall events :: After(cfg, events).Some? ==> Safe(After(cfg, events).value)
  }

  // With the margin, every run without a shrunk pull and without a slice that lacks a letter is safe.
  lemma RegularRunsAreSafe(cfg: Config, events: seq<Event>)
    requires cfg.Valid() && cfg.deadline + cfg.latency < cfg.ttl
    requires After(cfg, events).Some? && RegularRun(cfg, events)
    ensures Safe(After(cfg, events).value)
  {
    RunKeeps(cfg, events);
    InvIsSafe(cfg, After(cfg, events).value);
  }

  lemma CrowdIsUnsafe(cfg: Config) returns (events: seq<Event>)
    requires cfg.Valid() && CanCrowd(cfg.queues)
    ensures Unsafe(cfg, events)
  {
    var parts, digits :| Stacks(cfg.queues, parts) && CountOf(parts, digits) > LETTERS;
    var w, gpu, stuck;
    events, w, gpu, stuck := Fill(cfg, parts);
    events := BareNameIsUnsafe(cfg, events, w, stuck.value);
  }

  lemma GapIsUnsafe(cfg: Config) returns (events: seq<Event>)
    requires cfg.Valid() && CanOverrun(cfg.queues)
    ensures Unsafe(cfg, events)
  {
    var range, parts :|
      range in cfg.queues && Stacks(cfg.queues, parts) && LeavesGap(parts, range)
      && 1.0 - Total(parts) >= 1.0 / BASE_FRACT;
    var w, stuck;
    events, w, stuck := GapIsReached(cfg, parts, range);
    if stuck.Some? {
      events := BareNameIsUnsafe(cfg, events, w, stuck.value);
    } else {
      events := OverrunIsUnsafe(cfg, events, w, range);
    }
  }

  // If no queue can be served when every GPU is free, nothing is ever launched.
  lemma {:induction false} NothingStarts(cfg: Config, events: seq<Event>)
    requires cfg.Valid() && (forall q :: q in cfg.queues ==> !CanStart(cfg, q)) && After(cfg, events).Some?
    ensures
      var w := After(cfg, events).value;
      && w.children == [] && w.registry == {} && w.reservations == []
      && (w.view.Some? ==> w.view.value == ViewOf(cfg, []))
  {
    if events != [] {
      var init, e := events[..|events| - 1], events[|events| - 1];
      NothingStarts(cfg, init);
      var w := After(cfg, init).value;
      match e {
        case Account => SomeListed(w.snapshot.value.listed, w.children);
        case Pull(range) => StartMeaning(cfg, range);
        case _ =>
      }
    }
  }

  lemma SomeListed(listed: seq<nat>, children: seq<Child>)
    requires InRange(listed, children)
    ensures listed != [] ==> children != []
  {
    if listed != [] { assert listed[0] < |children|; }
  }

  // The main result. No GPU is handed out twice in any run exactly when pulls of the queues can neither leave
  // a gap of an eighth or more on a GPU nor crowd it with 27 slices of one size, and either the registration
  // deadline and the age of the server's list together stay below the TTL or nothing can be launched at all.
  lemma SafeExactlyWhen(cfg: Config)
    requires cfg.Valid()
    ensures AlwaysSafe(cfg) <==>
      && !CanOverrun(cfg.queues)
      && !CanCrowd(cfg.queues)
      && (cfg.deadline + cfg.latency < cfg.ttl || forall q :: q in cfg.queues ==> !CanStart(cfg, q))
  {
    if CanOverrun(cfg.queues) {
      var events := GapIsUnsafe(cfg);
    } else if CanCrowd(cfg.queues) {
      var events := CrowdIsUnsafe(cfg);
    } else if cfg.deadline + cfg.latency < cfg.ttl {
      forall events | After(cfg, events).Some? ensures Safe(After(cfg, events).value) {
        RunsAreRegular(cfg, events);
        RegularRunsAreSafe(cfg, events);
      }
    } else if exists q :: q in cfg.queues && CanStart(cfg, q) {
      var q :| q in cfg.queues && CanStart(cfg, q);
      var events := LateRegistrationIsUnsafe(cfg, q);
    } else {
      forall events | After(cfg, events).Some? ensures Safe(After(cfg, events).value) {
        NothingStarts(cfg, events);
      }
    }
  }

  // ---------------------------------------------------------------- single ranges

  // For steady ranges of which fewer than 27 slices fit on a GPU, only the margin counts.
  lemma SteadyQueuesNeedOnlyMargin(cfg: Config)
    requires cfg.Valid()
    requires forall q :: q in cfg.queues ==> SteadyRange(q) && (q.max.Part? ==> 27.0 * Amount(q.max) > 1.0)
    ensures AlwaysSafe(cfg) <==>
      cfg.deadline + cfg.latency < cfg.ttl || forall q :: q in cfg.queues ==> !CanStart(cfg, q)
  {
    SteadyQueuesLeaveNoGap(cfg.queues);
    if CanCrowd(cfg.queues) {
      CrowdNeedsSmallSlices(cfg.queues);
    }
    SafeExactlyWhen(cfg);
  }

  // One GPU, and a range next to one of given size.
  function Beside(range: Range, digits: string): Config {
    Config(["0"], [range, Range(Part(digits), Part(digits))], "", "", 1.0, 0.0, 0.0)
  }

  ghost predicate WithMargin(cfg: Config, range: Range) {
    cfg.Valid() && cfg.deadline + cfg.latency < cfg.ttl && range in cfg.queues
  }

  // Which ranges can ever end in the shrink-to-fit branch, next to suitable other queues: exactly those whose
  // minimum is below the maximum once that is capped at one GPU.
  lemma ShrinkReachableExactlyBelowCap(range: Range)
    requires ValidRange(range)
    ensures (exists cfg :: WithMargin(cfg, range) && ShrinkIsReached(cfg, range))
      <==> Amount(range.min) < Min(Amount(range.max), 1.0)
  {
    if Amount(range.min) < Min(Amount(range.max), 1.0) {
      ShrinkBesideComplement(range);
    }
    forall cfg | WithMargin(cfg, range) && ShrinkIsReached(cfg, range)
      ensures Amount(range.min) < Min(Amount(range.max), 1.0)
    {
      var events :|
        && RegularRun(cfg, events) && After(cfg, events).Some? && AtPull(After(cfg, events).value, range)
        && var grant := Choose(After(cfg, events).value.view.value.available, range);
           grant.Overrun? || grant.ZeroShare?;
      RegularRunsKeep(cfg, events);
      var f := ShrinkTakesLargest(After(cfg, events).value.view.value.available, range);
    }
  }

  lemma ShrinkBesideComplement(range: Range)
    requires ValidRange(range) && Amount(range.min) < Min(Amount(range.max), 1.0)
    ensures exists cfg :: WithMargin(cfg, range) && ShrinkIsReached(cfg, range)
  {
    var c := Complement(range.min.digits);
    var cfg, parts := Beside(range, c), Copies(Range(Part(c), Part(c)), 1);
    BesideIsSound(range, c);
    ComplementIsRest(range.min.digits);
    assert Multiple(1, Value(c)) == Multiple(0, Value(c)) + Value(c);
    CopiesStack(cfg.queues, Range(Part(c), Part(c)), 1);
    OnlyCopies(Range(Part(c), Part(c)), 1);
    var events, w, gpu, stuck := Fill(cfg, parts);
    ShrinkOnOnlyGpu(cfg, events, w, gpu, range);
  }

  lemma ShrinkOnOnlyGpu(cfg: Config, events: seq<Event>, w: World, gpu: string, range: Range)
    requires cfg.Valid() && range in cfg.queues && gpu in cfg.gpus && forall g :: g in cfg.gpus ==> g == gpu
    requires After(cfg, events) == Some(w) && RegularRun(cfg, events) && Settled(cfg, w)
    requires GapOn(AllSlots(w.children), gpu, range)
    ensures ShrinkIsReached(cfg, range)
  {
    var slots := AllSlots(w.children);
    ViewOfSlots(cfg, slots);
    GapShrinks(cfg, slots, gpu, range);
    var events', w' := Poll(cfg, events, w);
    assert AtPull(After(cfg, events').value, range);
  }

  // Which ranges can ever leave a slice without a letter: exactly those that still find what they need beside
  // 26 slices of their size.
  lemma LettersRunOutAtTwentySeven(range: Range)
    requires ValidRange(range)
    ensures (exists cfg :: WithMargin(cfg, range) && BareNameIsReached(cfg, range))
      <==> range.max.Part? && 26.0 * Amount(range.max) + Need(range) <= 1.0
  {
    if range.max.Part? && 26.0 * Amount(range.max) + Need(range) <= 1.0 {
      BareBesideTwentySix(range);
    }
    forall cfg | WithMargin(cfg, range) && BareNameIsReached(cfg, range)
      ensures range.max.Part? && 26.0 * Amount(range.max) + Need(range) <= 1.0
    {
      var events :|
        && RegularRun(cfg, events) && After(cfg, events).Some? && AtPull(After(cfg, events).value, range)
        && Choose(After(cfg, events).value.view.value.available, range).Fraction?
        && !Regular(After(cfg, events).value.view.value, range);
      RegularRunsKeep(cfg, events);
      BareNameWeighs(cfg, After(cfg, events).value, range);
    }
  }

  lemma BareNameWeighs(cfg: Config, w: World, range: Range)
    requires cfg.Valid() && Inv(cfg, w) && StacksOk(cfg, w) && w.view.Some? && range in cfg.queues
    requires Choose(w.view.value.available, range).Fraction? && !Regular(w.view.value, range)
    ensures range.max.Part? && 26.0 * Amount(range.max) + Need(range) <= 1.0
  {
    var grant := Choose(w.view.value.available, range);
    var stack := StackBelowFraction(cfg, w, range);
    SameLetters(grant.gpu, grant.digits, w.view.value.names, stack, 0);
    TakenLettersWeigh(grant.gpu, grant.digits, stack);
  }

  lemma BareBesideTwentySix(range: Range)
    requires ValidRange(range) && range.max.Part? && 26.0 * Amount(range.max) + Need(range) <= 1.0
    ensures exists cfg :: WithMargin(cfg, range) && BareNameIsReached(cfg, range)
  {
    var digits := range.max.digits;
    var cfg := Beside(range, digits);
    var parts := Copies(Range(Part(digits), Part(digits)), LETTERS);
    BesideIsSound(range, digits);
    MultipleIsProduct(LETTERS, Value(digits));
    CopiesStack(cfg.queues, Range(Part(digits), Part(digits)), LETTERS);
    OnlyCopies(Range(Part(digits), Part(digits)), LETTERS);
    TotalIsPositive(cfg.queues, parts);
    var events, w, gpu, stuck := Fill(cfg, parts);
    PullBeside(cfg, AllSlots(w.children), gpu, parts, range);
    LackIsReached(cfg, events, w, range);
  }

  lemma BesideIsSound(range: Range, digits: string)
    requires ValidRange(range) && PlainFraction(digits)
    ensures WithMargin(Beside(range, digits), range)
    ensures Range(Part(digits), Part(digits)) in Beside(range, digits).queues
    ensures forall g :: g in Beside(range, digits).gpus ==> g == "0"
  {
  }

  lemma PullBeside(cfg: Config, slots: seq<Slot>, gpu: string, parts: seq<Range>, range: Range)
    requires cfg.Valid() && range in cfg.queues && range.max.Part? && gpu in cfg.gpus
    requires Filled(slots, gpu, parts) && CountOf(parts, range.max.digits) == LETTERS
    requires Total(parts) > 0.0 && Total(parts) + Need(range) <= 1.0
    ensures LacksLetter(cfg, slots, range)
  {
    StackedPull(cfg, slots, gpu, range);
    NextLetter(slots, gpu, parts, range.max.digits, slots);
  }

  lemma {:induction false} OnlyCopies(r: Range, n: nat)
    requires n <= LETTERS
    ensures Uncrowded(Copies(r, n)) && forall d :: CountOf(Copies(r, n), d) <= n
  {
    if n > 0 {
      assert Copies(r, n)[..n - 1] == Copies(r, n - 1);
      OnlyCopies(r, n - 1);
    }
  }

  // Some run lets the daemon poll a view in which the pull of this range finds no candidate to index.
  ghost predicate MissIsReached(cfg: Config, range: Range) {
    exists events ::
      && RegularRun(cfg, events) && After(cfg, events).Some? && AtPull(After(cfg, events).value, range)
      && Choose(After(cfg, events).value.view.value.available, range).NoCandidate?
  }

  // That happens exactly for a fraction as maximum with a minimum of several GPUs that the daemon has.
  lemma MissExactlyWhen(cfg: Config, range: Range)
    requires WithMargin(cfg, range)
    ensures
      var gpus := set g | g in cfg.gpus;
      MissIsReached(cfg, range) <==> range.max.Part? && 1.0 < Amount(range.min) <= |gpus| as real
  {
    var gpus := set g | g in cfg.gpus;
    if range.max.Part? && 1.0 < Amount(range.min) <= |gpus| as real {
      MissAtStart(cfg, range);
    }
    if MissIsReached(cfg, range) {
      var events :|
        && RegularRun(cfg, events) && After(cfg, events).Some? && AtPull(After(cfg, events).value, range)
        && Choose(After(cfg, events).value.view.value.available, range).NoCandidate?;
      RegularRunsKeep(cfg, events);
      var available := After(cfg, events).value.view.value.available;
      MissNeedsManyGpus(available, range);
      WholeFreeDistinct(available);
      WholeTotalIsCount(available);
      NoMoreThan(WholeFree(available), gpus);
    }
  }

  lemma MissAtStart(cfg: Config, range: Range)
    requires WithMargin(cfg, range) && range.max.Part?
    requires var gpus := set g | g in cfg.gpus; 1.0 < Amount(range.min) <= |gpus| as real
    ensures MissIsReached(cfg, range)
  {
    var events, w := Poll(cfg, [], INITIAL);
    var available := ViewOf(cfg, []).available;
    ViewOfSlots(cfg, []);
    FreeWhenIdle(cfg.gpus);
    assert cfg.gpus[0] in cfg.gpus && Free(cfg.gpus[0], 1.0) in available;
    IdleChoice(available, range);
    MissNeedsManyGpus(available, range);
    assert AtPull(After(cfg, events).value, range);
  }

  lemma {:induction false} NoMoreThan<T>(s: seq<T>, all: set<T>)
    requires Distinct(s) && forall x :: x in s ==> x in all
    ensures |s| <= |all|
    decreases |s|
  {
    if s != [] {
      var rest := all - {s[0]};
      assert s[0] in all;
      assert all == rest + {s[0]};
      forall x | x in s[1..] ensures x in rest {
        var i :| 0 <= i < |s[1..]| && s[1..][i] == x;
        assert x == s[i + 1];
      }
      NoMoreThan(s[1..], rest);
    }
  }

  // A queue from a quarter to three quarters of a GPU is not safe, whatever the margin.
  lemma QuarterToThreeQuartersIsUnsafe(cfg: Config)
    requires cfg.Valid() && cfg.queues == [Range(Part("25"), Part("75"))]
    ensures !AlwaysSafe(cfg)
  {
    var range := cfg.queues[0];
    ShortValue("25");
    ShortValue("75");
    assert Stacks(cfg.queues, []);
    StackSnoc(cfg.queues, [], range);
    assert LeavesGap([] + [range], range);
    SafeExactlyWhen(cfg);
  }

  lemma ShortValue(digits: string)
    requires |digits| == 2 && AllDigits(digits)
    ensures Value(digits) == ((digits[0] - '0') as int * 10 + (digits[1] - '0') as int) as real / 100.0
  {
    assert digits[1..][1..] == [] && digits[1..][0] == digits[1] && IsDigit(digits[0]) && IsDigit(digits[1]);
    assert Value(digits[1..]) == (digits[1] - '0') as int as real / 10.0;
  }

  // One from a half to three quarters is safe with it: what a pull leaves is below the minimum.
  lemma HalfToThreeQuartersNeedsOnlyMargin(cfg: Config)
    requires cfg.Valid() && cfg.queues == [Range(Part("5"), Part("75"))]
    ensures AlwaysSafe(cfg) <==> cfg.deadline + cfg.latency < cfg.ttl
  {
    var range := cfg.queues[0];
    ShortValue("75");
    assert "5"[1..] == [] && Value("5") == 0.5;
    forall parts | Stacks(cfg.queues, parts) ensures !LeavesGap(parts, range) {
      ThreeQuartersOnce(cfg.queues, range, parts);
    }
    if CanCrowd(cfg.queues) {
      CrowdNeedsSmallSlices(cfg.queues);
    }
    var gpus := set g | g in cfg.gpus;
    assert cfg.gpus[0] in gpus && CanStart(cfg, range);
    SafeExactlyWhen(cfg);
  }

  lemma {:induction false} ThreeQuartersOnce(queues: seq<Range>, range: Range, parts: seq<Range>)
    requires queues == [range] && Amount(range.max) == 0.75 && Stacks(queues, parts)
    ensures Total(parts) == 0.0 || Total(parts) == 0.75
  {
    if parts != [] {
      ThreeQuartersOnce(queues, range, parts[..|parts| - 1]);
    }
  }
}
