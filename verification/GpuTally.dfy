/**
 How the dynamic-GPU daemon works out which GPUs are free: it adds up what the registered workers hold
 and what it reserved itself for children that it launched but that have not registered yet.
 */
module GpuTally {
  import opened Options
  import opened GpuNames
  import opened Sequences

  // ---------------------------------------------------------------- what a slot holds

  // The GPU a slot is booked on: the text before the first dot of a fraction, the whole name otherwise.
  function KeyOf(s: Slot): string {
    match s
    case Static(name) => name
    case Slice(gpu, _, _) => gpu
    case Undotted(digits, letter) => digits + [letter]
  }

  function Weight(s: Slot): (w: real)
    ensures 0.0 <= w <= 1.0
  {
    match s
    case Static(_) => 1.0
    case Slice(_, digits, _) => Value(digits)
    case Undotted(digits, _) => Value(digits)
  }

  function SumOn(slots: seq<Slot>, g: string): (r: real)
    ensures 0.0 <= r
  {
    if slots == [] then 0.0
    else SumOn(slots[1..], g) + (if KeyOf(slots[0]) == g then Weight(slots[0]) else 0.0)
  }

  lemma {:induction false} SumOnConcat(a: seq<Slot>, b: seq<Slot>, g: string)
    ensures SumOn(a + b, g) == SumOn(a, g) + SumOn(b, g)
  {
    if a == [] {
      assert a + b == b;
    } else {
      SumOnConcat(a[1..], b, g);
      assert (a + b)[1..] == a[1..] + b;
    }
  }

  lemma SumOnOne(s: Slot, g: string)
    ensures SumOn([s], g) == if KeyOf(s) == g then Weight(s) else 0.0
  {
    assert SumOn([s][1..], g) == 0.0;
  }

  // A list without one occurrence of x still has all the other elements.
  function Without<T>(s: seq<T>, k: nat): seq<T>
    requires k < |s|
  {
    s[..k] + s[k + 1..]
  }

  lemma WithoutKeepsOthers<T>(s: seq<T>, k: nat, x: T)
    requires k < |s| && x in s && x != s[k]
    ensures x in Without(s, k)
  {
    var j :| 0 <= j < |s| && s[j] == x;
    assert Without(s, k)[if j < k then j else j - 1] == x;
  }

  lemma SumOnCons(s: Slot, rest: seq<Slot>, g: string)
    ensures SumOn([s] + rest, g) == SumOn(rest, g) + (if KeyOf(s) == g then Weight(s) else 0.0)
  {
    assert ([s] + rest)[1..] == rest;
  }

  lemma SplitAround<T>(s: seq<T>, k: nat)
    requires k < |s|
    ensures s == s[..k] + ([s[k]] + s[k + 1..])
  {
  }

  lemma SumOnWithout(s: seq<Slot>, k: nat, g: string)
    requires k < |s|
    ensures SumOn(s, g) == SumOn(Without(s, k), g) + (if KeyOf(s[k]) == g then Weight(s[k]) else 0.0)
  {
    var pre, x, post := s[..k], s[k], s[k + 1..];
    SplitAround(s, k);
    SumOnConcat(pre, post, g);
    SumOnConcat(pre, [x] + post, g);
    SumOnCons(x, post, g);
  }

  // Distinct slots whose share of g all occurs in a list weigh no more on g than the list.
  lemma {:induction false} SumOnSubset(a: seq<Slot>, b: seq<Slot>, g: string)
    requires Distinct(a)
    requires forall s :: s in a && KeyOf(s) == g ==> s in b
    ensures SumOn(a, g) <= SumOn(b, g)
    decreases |a|
  {
    if a != [] && KeyOf(a[0]) != g {
      assert a == [a[0]] + a[1..];
      SumOnSubset(a[1..], b, g);
    } else if a != [] {
      assert a[0] in b;
      var k :| 0 <= k < |b| && b[k] == a[0];
      forall s | s in a[1..] && KeyOf(s) == g ensures s in Without(b, k) {
        var i :| 0 <= i < |a[1..]| && a[1..][i] == s;
        assert s == a[i + 1] && s in a;
        WithoutKeepsOthers(b, k, s);
      }
      SumOnSubset(a[1..], Without(b, k), g);
      SumOnWithout(b, k, g);
    }
  }

  // ---------------------------------------------------------------- registered workers

  function Used(gpus: map<string, real>, g: string): real {
    if g in gpus then gpus[g] else 0.0
  }

  // A fraction adds to its GPU, a static slice or a whole GPU is set to fully used.
  function Book(gpus: map<string, real>, s: Slot): map<string, real> {
    if s.Static? then gpus[s.name := 1.0]
    else gpus[KeyOf(s) := Used(gpus, KeyOf(s)) + Weight(s)]
  }

  function TallyFrom(gpus: map<string, real>, slots: seq<Slot>): map<string, real>
    decreases |slots|
  {
    if slots == [] then gpus else TallyFrom(Book(gpus, slots[0]), slots[1..])
  }

  function Tally(slots: seq<Slot>): map<string, real> { TallyFrom(map[], slots) }

  // The keys of a dictionary, in the order in which they were first stored.
  function AddKey<T(==)>(keys: seq<T>, k: T): seq<T> {
    if k in keys then keys else keys + [k]
  }

  function KeysFrom(keys: seq<Slot>, slots: seq<Slot>): (r: seq<Slot>)
    ensures Distinct(keys) ==> Distinct(r)
    ensures forall s :: s in r <==> s in keys || s in slots
    decreases |slots|
  {
    if slots == [] then keys
    else
      assert slots == [slots[0]] + slots[1..];
      KeysFrom(AddKey(keys, slots[0]), slots[1..])
  }

  function Keys(slots: seq<Slot>): seq<Slot> { KeysFrom([], slots) }

  // The daemon's own workers among the ids the server returned.
  predicate IsOurs(id: string, workerName: string, own: string) {
    workerName + ":gpu" <= id && id != own
  }

  function SlotsOf(ids: seq<string>, workerName: string, own: string): seq<Slot> {
    if ids == [] then []
    else
      (if IsOurs(ids[0], workerName, own) then Decode(ids[0]) else [])
      + SlotsOf(ids[1..], workerName, own)
  }

  lemma {:induction false} SlotsOfConcat(a: seq<string>, b: seq<string>, workerName: string, own: string)
    ensures SlotsOf(a + b, workerName, own) == SlotsOf(a, workerName, own) + SlotsOf(b, workerName, own)
  {
    if a == [] {
      assert a + b == b;
    } else {
      assert (a + b)[0] == a[0] && (a + b)[1..] == a[1..] + b;
      SlotsOfConcat(a[1..], b, workerName, own);
      Reassociate(if IsOurs(a[0], workerName, own) then Decode(a[0]) else [], SlotsOf(a[1..], workerName, own),
                  SlotsOf(b, workerName, own));
    }
  }

  // A worker counts with the slots of its id exactly if the id is the daemon's name followed by ":gpu" and is not
  // the daemon's own; any other worker changes nothing.
  lemma WorkersCounted(before: seq<string>, id: string, after: seq<string>, workerName: string, own: string)
    ensures SlotsOf(before + [id] + after, workerName, own) ==
      if workerName + ":gpu" <= id && id != own then
        SlotsOf(before, workerName, own) + Decode(id) + SlotsOf(after, workerName, own)
      else SlotsOf(before + after, workerName, own)
  {
    assert [id][1..] == [] && SlotsOf([id][1..], workerName, own) == [];
    SlotsOfConcat(before + [id], after, workerName, own);
    SlotsOfConcat(before, [id], workerName, own);
    SlotsOfConcat(before, after, workerName, own);
    assert Decode(id) + [] == Decode(id);
    assert SlotsOf(before, workerName, own) + [] == SlotsOf(before, workerName, own);
  }

  lemma {:induction false} TallyFromMeaning(gpus: map<string, real>, slots: seq<Slot>, g: string)
    ensures Static(g) !in slots ==> Used(TallyFrom(gpus, slots), g) == Used(gpus, g) + SumOn(slots, g)
    ensures Static(g) in slots || Used(gpus, g) >= 1.0 ==> Used(TallyFrom(gpus, slots), g) >= 1.0
    decreases |slots|
  {
    if slots != [] {
      assert slots == [slots[0]] + slots[1..];
      TallyFromMeaning(Book(gpus, slots[0]), slots[1..], g);
    }
  }

  // With no whole-GPU entry for g the tally is the exact sum of the fractions on g; with one it is at
  // least the whole GPU, wherever in the list the entry stands.
  lemma TallyMeaning(slots: seq<Slot>, g: string)
    ensures Static(g) !in slots ==> Used(Tally(slots), g) == SumOn(slots, g)
    ensures Static(g) in slots ==> Used(Tally(slots), g) >= 1.0
    ensures slots != [] && slots[|slots| - 1] == Static(g) ==> Used(Tally(slots), g) == 1.0
  {
    TallyFromMeaning(map[], slots, g);
    if slots != [] {
      var n := |slots| - 1;
      assert slots == slots[..n] + [slots[n]] && [slots[n]][1..] == [];
      TallyFromConcat(map[], [], slots[..n], [slots[n]]);
    }
  }

  lemma {:induction false} TallyFromConcat(gpus: map<string, real>, keys: seq<Slot>, a: seq<Slot>, b: seq<Slot>)
    ensures TallyFrom(gpus, a + b) == TallyFrom(TallyFrom(gpus, a), b)
    ensures KeysFrom(keys, a + b) == KeysFrom(KeysFrom(keys, a), b)
    decreases |a|
  {
    if a == [] {
      assert a + b == b;
    } else {
      assert (a + b)[1..] == a[1..] + b;
      TallyFromConcat(Book(gpus, a[0]), AddKey(keys, a[0]), a[1..], b);
    }
  }

  // ---------------------------------------------------------------- local reservations

  datatype Reservation = Reservation(slot: Slot, gpu: string, fraction: real, at: real)

  predicate DistinctSlots(rs: seq<Reservation>) {
    forall i, j :: 0 <= i < j < |rs| ==> rs[i].slot != rs[j].slot
  }

  function SlotsIn(rs: seq<Reservation>): (slots: seq<Slot>)
    ensures |slots| == |rs| && forall i :: 0 <= i < |rs| ==> slots[i] == rs[i].slot
  {
    seq(|rs|, i requires 0 <= i < |rs| => rs[i].slot)
  }

  function UpToDot(s: string): string {
    if s == [] || s[0] == '.' then [] else [s[0]] + UpToDot(s[1..])
  }

  // suffix.split(".")[0]
  function ReservedOn(s: Slot): string { UpToDot(Text(s)) }

  function Find(rs: seq<Reservation>, slot: Slot): (k: nat)
    ensures k <= |rs| && (k < |rs| ==> rs[k].slot == slot)
    ensures forall i :: 0 <= i < k ==> rs[i].slot != slot
  {
    if rs == [] || rs[0].slot == slot then 0 else 1 + Find(rs[1..], slot)
  }

  // Assigning to the dictionary of reservations: an existing key keeps its place.
  function Put(rs: seq<Reservation>, r: Reservation): (rs': seq<Reservation>)
    ensures r in rs'
    ensures DistinctSlots(rs) ==> DistinctSlots(rs')
  {
    var k := Find(rs, r.slot);
    if k < |rs| then
      assert rs[k := r][k] == r;
      rs[k := r]
    else
      assert (rs + [r])[|rs|] == r;
      rs + [r]
  }

  lemma PutKeepsOthers(rs: seq<Reservation>, r: Reservation, q: Reservation)
    requires q in rs && q.slot != r.slot
    ensures q in Put(rs, r)
  {
    var i :| 0 <= i < |rs| && rs[i] == q;
    assert Put(rs, r)[i] == q;
  }

  predicate Keep(r: Reservation, registered: seq<Slot>, now: real, ttl: real) {
    r.slot !in registered && now - r.at < ttl
  }

  function Pending(rs: seq<Reservation>, registered: seq<Slot>, now: real, ttl: real): seq<Reservation> {
    if rs == [] then []
    else (if Keep(rs[0], registered, now, ttl) then [rs[0]] else []) + Pending(rs[1..], registered, now, ttl)
  }

  lemma {:induction false} PendingMembers(rs: seq<Reservation>, registered: seq<Slot>, now: real, ttl: real)
    ensures forall r :: r in Pending(rs, registered, now, ttl) <==> r in rs && Keep(r, registered, now, ttl)
    ensures DistinctSlots(rs) ==> DistinctSlots(Pending(rs, registered, now, ttl))
  {
    if rs != [] {
      var rest := Pending(rs[1..], registered, now, ttl);
      PendingMembers(rs[1..], registered, now, ttl);
      assert rs == [rs[0]] + rs[1..];
      if DistinctSlots(rs) {
        forall i | 0 <= i < |rest| ensures rest[i].slot != rs[0].slot {
          assert rest[i] in rs[1..];
        }
      }
    }
  }

  function BookReserved(gpus: map<string, real>, r: Reservation): map<string, real> {
    gpus[r.gpu := Used(gpus, r.gpu) + r.fraction]
  }

  function AddReserved(gpus: map<string, real>, rs: seq<Reservation>): map<string, real>
    decreases |rs|
  {
    if rs == [] then gpus else AddReserved(BookReserved(gpus, rs[0]), rs[1..])
  }

  // A reservation books what the child will hold once it is registered.
  predicate Faithful(r: Reservation) {
    r.gpu == KeyOf(r.slot) && r.fraction == Weight(r.slot)
  }

  lemma {:induction false} AddReservedMeaning(gpus: map<string, real>, rs: seq<Reservation>, g: string)
    requires forall r :: r in rs ==> Faithful(r)
    ensures Used(AddReserved(gpus, rs), g) == Used(gpus, g) + SumOn(SlotsIn(rs), g)
    decreases |rs|
  {
    if rs != [] {
      assert rs[0] in rs && Faithful(rs[0]);
      AddReservedMeaning(BookReserved(gpus, rs[0]), rs[1..], g);
      assert SlotsIn(rs)[1..] == SlotsIn(rs[1..]);
    }
  }

  datatype Books = Books(kept: seq<Reservation>, gpus: map<string, real>, names: seq<Slot>)

  // One pass over the reservations, as the daemon makes it: `names` grows during the pass.
  function Account(rs: seq<Reservation>, gpus: map<string, real>, names: seq<Slot>, now: real, ttl: real): Books
    decreases |rs|
  {
    if rs == [] then Books([], gpus, names)
    else if !Keep(rs[0], names, now, ttl) then Account(rs[1..], gpus, names, now, ttl)
    else
      var rest := Account(rs[1..], BookReserved(gpus, rs[0]), AddKey(names, rs[0].slot), now, ttl);
      rest.(kept := [rs[0]] + rest.kept)
  }

  lemma SlotsInCons(r: Reservation, rest: seq<Reservation>)
    ensures SlotsIn([r] + rest) == [r.slot] + SlotsIn(rest)
  {
  }

  lemma PendingHead(rs: seq<Reservation>, registered: seq<Slot>, now: real, ttl: real)
    requires rs != []
    ensures
      var rest := Pending(rs[1..], registered, now, ttl);
      var pending := Pending(rs, registered, now, ttl);
      if Keep(rs[0], registered, now, ttl) then
        pending == [rs[0]] + rest && pending[1..] == rest && SlotsIn(pending) == [rs[0].slot] + SlotsIn(rest)
      else
        pending == rest
  {
    var rest := Pending(rs[1..], registered, now, ttl);
    SlotsInCons(rs[0], rest);
    assert ([rs[0]] + rest)[1..] == rest;
    assert [] + rest == rest;
  }

  // The reservations are registered under the names collected so far exactly if they were to begin with.
  predicate SameStanding(rs: seq<Reservation>, registered: seq<Slot>, names: seq<Slot>) {
    forall i :: 0 <= i < |rs| ==> (rs[i].slot in names <==> rs[i].slot in registered)
  }

  lemma StandingOfRest(rs: seq<Reservation>, registered: seq<Slot>, names: seq<Slot>)
    requires rs != [] && DistinctSlots(rs) && SameStanding(rs, registered, names)
    ensures DistinctSlots(rs[1..]) && SameStanding(rs[1..], registered, names)
    ensures SameStanding(rs[1..], registered, AddKey(names, rs[0].slot))
  {
    forall i | 0 <= i < |rs[1..]|
      ensures rs[1..][i].slot in AddKey(names, rs[0].slot) <==> rs[1..][i].slot in registered
    {
      assert rs[1..][i] == rs[i + 1];
    }
  }

  // The pass keeps exactly the reservations that are neither registered nor expired, and counts each
  // kept one once.
  lemma {:induction false} AccountMeaning(
      rs: seq<Reservation>, gpus: map<string, real>, registered: seq<Slot>, names: seq<Slot>, now: real, ttl: real)
    requires DistinctSlots(rs) && SameStanding(rs, registered, names)
    ensures
      var pending := Pending(rs, registered, now, ttl);
      Account(rs, gpus, names, now, ttl) == Books(pending, AddReserved(gpus, pending), names + SlotsIn(pending))
    decreases |rs|
  {
    if rs == [] {
      assert names + SlotsIn([]) == names;
    } else {
      var r := rs[0];
      StandingOfRest(rs, registered, names);
      PendingHead(rs, registered, now, ttl);
      if Keep(r, names, now, ttl) {
        AccountMeaning(rs[1..], BookReserved(gpus, r), registered, AddKey(names, r.slot), now, ttl);
        Reassociate(names, [r.slot], SlotsIn(Pending(rs[1..], registered, now, ttl)));
      } else {
        AccountMeaning(rs[1..], gpus, registered, names, now, ttl);
      }
    }
  }

  function ReserveAll(rs: seq<Reservation>, slots: seq<Slot>, fractions: seq<real>, now: real)
    : (rs': seq<Reservation>)
    requires |slots| == |fractions|
    ensures DistinctSlots(rs) ==> DistinctSlots(rs')
  {
    if slots == [] then rs
    else
      var n := |slots| - 1;
      Put(ReserveAll(rs, slots[..n], fractions[..n], now),
          Reservation(slots[n], ReservedOn(slots[n]), fractions[n], now))
  }

  // ---------------------------------------------------------------- what is free

  datatype Free = Free(gpu: string, amount: real)

  datatype View = View(available: seq<Free>, names: seq<Slot>)

  function FreeOn(indexes: seq<string>, gpus: map<string, real>): (free: seq<Free>)
    ensures forall f :: f in free <==> f.gpu in indexes && f.amount == 1.0 - Used(gpus, f.gpu) && f.amount > 0.0
  {
    if indexes == [] then []
    else
      var init, g := indexes[..|indexes| - 1], indexes[|indexes| - 1];
      assert forall i :: i in indexes <==> i in init || i == g by {
        assert indexes == init + [g];
      }
      var free := FreeOn(init, gpus);
      if g !in init && 1.0 - Used(gpus, g) > 0.0 then free + [Free(g, 1.0 - Used(gpus, g))] else free
  }

  // The daemon's view after a poll that found `registered` among the server's workers.
  function PollView(indexes: seq<string>, registered: seq<Slot>, pending: seq<Reservation>): View {
    View(FreeOn(indexes, AddReserved(Tally(registered), pending)), Keys(registered) + SlotsIn(pending))
  }

  lemma {:induction false} FreeGpusAreDistinct(indexes: seq<string>, gpus: map<string, real>)
    ensures forall i, j :: 0 <= i < j < |FreeOn(indexes, gpus)| ==>
      FreeOn(indexes, gpus)[i].gpu != FreeOn(indexes, gpus)[j].gpu
  {
    if indexes != [] {
      var init := indexes[..|indexes| - 1];
      FreeGpusAreDistinct(init, gpus);
      var free := FreeOn(init, gpus);
      assert forall i :: 0 <= i < |free| ==> free[i] in free;
    }
  }

  // The free GPUs are listed in the order of the indexes.
  lemma {:induction false} FreeKeepsOrder(indexes: seq<string>, gpus: map<string, real>, i: nat, j: nat)
    returns (p: nat, q: nat)
    requires i < j < |FreeOn(indexes, gpus)|
    ensures p < q < |indexes|
    ensures indexes[p] == FreeOn(indexes, gpus)[i].gpu && indexes[q] == FreeOn(indexes, gpus)[j].gpu
  {
    var n := |indexes| - 1;
    var init, free := indexes[..n], FreeOn(indexes[..n], gpus);
    if j < |free| {
      p, q := FreeKeepsOrder(init, gpus, i, j);
    } else {
      assert free[i] in free;
      p :| 0 <= p < n && init[p] == free[i].gpu;
      q := n;
    }
  }

  lemma {:induction false} NoDot(s: string)
    requires '.' !in s
    ensures UpToDot(s) == s
    ensures forall t :: UpToDot(s + "." + t) == s
  {
    if s != [] {
      NoDot(s[1..]);
      forall t ensures UpToDot(s + "." + t) == s {
        assert (s + "." + t)[1..] == s[1..] + "." + t;
      }
    }
  }

  lemma {:induction false} StopsAtDot(s: string)
    ensures '.' !in UpToDot(s)
  {
    if s != [] && s[0] != '.' { StopsAtDot(s[1..]); }
  }

  lemma StaticNameIsIndexOrDotted(name: string)
    requires IsStaticName(name)
    ensures IsIndex(name) || '.' in name
  {
    var n := DigitRun(name);
    assert name[..n] == name || name[n] in name;
  }

  // A reservation is booked on the GPU that the registered worker will be counted on, exactly when a static
  // name is an integer GPU index.
  lemma ReservedWhereCounted(s: Slot)
    requires WellFormed(s)
    ensures ReservedOn(s) == KeyOf(s) <==> (s.Static? ==> IsIndex(s.name))
  {
    match s {
      case Static(name) =>
        if IsIndex(name) { NoDot(name); }
        StaticNameIsIndexOrDotted(name);
        StopsAtDot(name);
      case Slice(gpu, digits, letter) =>
        NoDot(gpu);
        assert Text(s) == gpu + "." + (digits + [letter]);
      case Undotted(digits, letter) => NoDot(digits + [letter]);
    }
  }

  // So it is not for a MIG slice: "0.1" is reserved on GPU 0 and counted under its own name.
  lemma MigSliceReservedElsewhere(mig: Slot)
    requires mig == Static("0.1")
    ensures WellFormed(mig) && ReservedOn(mig) == "0" && ReservedOn(mig) != KeyOf(mig)
  {
    var t := "0.1";
    assert t == "0" + ".1" == "0" + "." + "1" && t[2..] == "1";
    DigitRunStops("0", ".1");
    NoDot("0");
    assert t[1] == '.';
    ReservedWhereCounted(mig);
  }

  // What a GPU still has is at most what the names known to the daemon leave of it, and exactly that when
  // no name is registered twice: registered and reserved slots are all counted, whatever the order of the
  // server's list.
  lemma FreeIsWhatNamesLeave(
      indexes: seq<string>, registered: seq<Slot>, pending: seq<Reservation>, f: Free)
    requires forall r :: r in pending ==> Faithful(r)
    requires f in PollView(indexes, registered, pending).available
    ensures 0.0 < f.amount <= 1.0 - SumOn(PollView(indexes, registered, pending).names, f.gpu)
    ensures Distinct(registered) ==> f.amount == 1.0 - SumOn(PollView(indexes, registered, pending).names, f.gpu)
    ensures Static(f.gpu) !in registered
  {
    var g := f.gpu;
    TallyMeaning(registered, g);
    AddReservedMeaning(Tally(registered), pending, g);
    assert Static(g) !in registered;
    SumOnSubset(Keys(registered), registered, g);
    if Distinct(registered) { SumOnSubset(registered, Keys(registered), g); }
    SumOnConcat(Keys(registered), SlotsIn(pending), g);
  }

  // The books of a pass of which a first part is already done.
  function Resumed(kept: seq<Reservation>, more: Books): Books {
    Books(kept + more.kept, more.gpus, more.names)
  }

  lemma ResumeKept(kept: seq<Reservation>, rest: seq<Reservation>, gpus: map<string, real>, names: seq<Slot>,
                   now: real, ttl: real)
    requires rest != [] && Keep(rest[0], names, now, ttl)
    ensures kept + rest == (kept + [rest[0]]) + rest[1..]
    ensures Resumed(kept, Account(rest, gpus, names, now, ttl))
      == Resumed(kept + [rest[0]],
                 Account(rest[1..], BookReserved(gpus, rest[0]), AddKey(names, rest[0].slot), now, ttl))
  {
    Reassociate(kept, [rest[0]], rest[1..]);
    var more := Account(rest[1..], BookReserved(gpus, rest[0]), AddKey(names, rest[0].slot), now, ttl);
    Reassociate(kept, [rest[0]], more.kept);
    assert rest == [rest[0]] + rest[1..];
  }

  lemma ResumeDropped(kept: seq<Reservation>, rest: seq<Reservation>, gpus: map<string, real>, names: seq<Slot>,
                      now: real, ttl: real)
    requires rest != [] && !Keep(rest[0], names, now, ttl)
    ensures (kept + rest)[..|kept|] + (kept + rest)[|kept| + 1..] == kept + rest[1..]
    ensures Account(rest, gpus, names, now, ttl) == Account(rest[1..], gpus, names, now, ttl)
  {
  }

  lemma ResumeEnds(kept: seq<Reservation>, gpus: map<string, real>, names: seq<Slot>, now: real, ttl: real)
    ensures Resumed(kept, Account([], gpus, names, now, ttl)) == Books(kept, gpus, names) && kept + [] == kept
  {
  }

  // The books of the whole pass.
  lemma AccountAll(rs: seq<Reservation>, gpus: map<string, real>, names: seq<Slot>, now: real, ttl: real)
    requires DistinctSlots(rs)
    ensures
      var pending := Pending(rs, names, now, ttl);
      && Resumed([], Account(rs, gpus, names, now, ttl))
           == Books(pending, AddReserved(gpus, pending), names + SlotsIn(pending))
      && DistinctSlots(pending) && [] + rs == rs
  {
    AccountMeaning(rs, gpus, names, names, now, ttl);
    PendingMembers(rs, names, now, ttl);
    assert [] + Account(rs, gpus, names, now, ttl).kept == Account(rs, gpus, names, now, ttl).kept;
  }

  lemma SlotsOfHead(ids: seq<string>, workerName: string, own: string)
    requires ids != []
    ensures
      var rest := SlotsOf(ids[1..], workerName, own);
      SlotsOf(ids, workerName, own) == if IsOurs(ids[0], workerName, own) then Decode(ids[0]) + rest else rest
  {
    var rest := SlotsOf(ids[1..], workerName, own);
    assert [] + rest == rest;
  }

  method CountWorkers(ids: seq<string>, workerName: string, own: string)
    returns (gpus: map<string, real>, names: seq<Slot>)
    ensures gpus == Tally(SlotsOf(ids, workerName, own))
    ensures names == Keys(SlotsOf(ids, workerName, own))
  {
    gpus, names := map[], [];
    var left := ids;
    while left != []
      invariant TallyFrom(gpus, SlotsOf(left, workerName, own)) == Tally(SlotsOf(ids, workerName, own))
      invariant KeysFrom(names, SlotsOf(left, workerName, own)) == Keys(SlotsOf(ids, workerName, own))
      decreases |left|
    {
      SlotsOfHead(left, workerName, own);
      if IsOurs(left[0], workerName, own) {
        var slots := Decode(left[0]);
        TallyFromConcat(gpus, names, slots, SlotsOf(left[1..], workerName, own));
        ghost var tally, keys := TallyFrom(gpus, slots), KeysFrom(names, slots);
        while slots != []
          invariant TallyFrom(gpus, slots) == tally && KeysFrom(names, slots) == keys
          decreases |slots|
        {
          gpus, names := Book(gpus, slots[0]), AddKey(names, slots[0]);
          slots := slots[1..];
        }
      }
      left := left[1..];
    }
  }

  // ---------------------------------------------------------------- the daemon's accounting

  class GpuLedger {
    const workerName: string
    const ttl: real
    var workerId: string
    var reservations: seq<Reservation>

    ghost predicate Valid() reads this { DistinctSlots(reservations) }

    constructor (name: string, id: string, ttl: real)
      ensures Valid() && reservations == []
      ensures workerName == name && workerId == id && this.ttl == ttl
    {
      workerName, workerId, this.ttl := name, id, ttl;
      reservations := [];
    }

    method Reserve(slots: seq<Slot>, fractions: seq<real>, now: real)
      requires Valid() && |slots| == |fractions|
      modifies this`reservations
      ensures Valid()
      ensures reservations == ReserveAll(old(reservations), slots, fractions, now)
    {
      var i := 0;
      while i < |slots|
        invariant 0 <= i <= |slots| && Valid()
        invariant reservations == ReserveAll(old(reservations), slots[..i], fractions[..i], now)
      {
        assert slots[..i + 1][..i] == slots[..i] && fractions[..i + 1][..i] == fractions[..i];
        reservations := Put(reservations, Reservation(slots[i], ReservedOn(slots[i]), fractions[i], now));
        i := i + 1;
      }
      assert slots[..i] == slots && fractions[..i] == fractions;
    }

    method AccountPending(gpus: map<string, real>, names: seq<Slot>, now: real)
      returns (gpus': map<string, real>, names': seq<Slot>)
      requires Valid()
      modifies this`reservations
      ensures Valid()
      ensures reservations == Pending(old(reservations), names, now, ttl)
      ensures gpus' == AddReserved(gpus, reservations)
      ensures names' == names + SlotsIn(reservations)
    {
      gpus', names' := gpus, names;
      var rest, at := reservations, 0;
      ghost var kept: seq<Reservation> := [];
      ghost var books := Resumed([], Account(reservations, gpus, names, now, ttl));
      AccountAll(reservations, gpus, names, now, ttl);
      while rest != []
        invariant at == |kept| && reservations == kept + rest
        invariant Resumed(kept, Account(rest, gpus', names', now, ttl)) == books
        decreases |rest|
      {
        var r := rest[0];
        if r.slot in names' || now - r.at >= ttl {
          // registered, or launched too long ago: stop tracking it
          ResumeDropped(kept, rest, gpus', names', now, ttl);
          reservations := reservations[..at] + reservations[at + 1..];
        } else {
          ResumeKept(kept, rest, gpus', names', now, ttl);
          gpus' := BookReserved(gpus', r);
          names' := AddKey(names', r.slot);
          kept, at := kept + [r], at + 1;
        }
        rest := rest[1..];
      }
      ResumeEnds(kept, gpus', names', now, ttl);
    }

    // One poll: None when the server could not be reached.
    method GetAvailable(indexes: seq<string>, response: Option<seq<string>>, now: real)
      returns (view: Option<View>)
      requires Valid()
      modifies this`reservations
      ensures Valid()
      ensures response.None? ==> view.None? && reservations == old(reservations)
      ensures response.Some? ==>
        var registered := SlotsOf(response.value, workerName, workerId);
        && reservations == Pending(old(reservations), Keys(registered), now, ttl)
        && view == Some(PollView(indexes, registered, reservations))
    {
      if response.None? {
        return None;
      }
      var gpus, names := CountWorkers(response.value, workerName, workerId);
      gpus, names := AccountPending(gpus, names, now);
      view := Some(View(FreeOn(indexes, gpus), names));
    }
  }
}
