/**
 Instance slots: every agent process on a machine registers through a pid file that holds its worker id
 and its slot number. Registration happens under a lock, one process at a time.
 */
module InstanceSlots {
  import opened Options
  import opened Sequences

  // A pid file as the registration finds it: whether its process is alive, whether the server lists a worker
  // of that id (asked only when running on a docker host mount), and its content if that could be read.
  datatype PidFile = PidFile(alive: bool, listed: bool, uid: string, slot: Option<nat>)

  predicate Active(f: PidFile) { f.alive || f.listed }

  datatype Outcome = Registered(uid: string, slot: nat) | AlreadyRunning

  // ---------------------------------------------------------------- scanning the pid files

  // `slots` in the order of the files; the scan ends early at an instance with the same worker id.
  datatype Scan = Scan(kept: seq<PidFile>, count: nat, slots: seq<nat>, duplicate: bool)

  function ScanFrom(files: seq<PidFile>, uid: Option<string>, allowDouble: bool, s: Scan): Scan
    decreases |files|
  {
    if files == [] then s
    else
      var f := files[0];
      if !Active(f) then ScanFrom(files[1..], uid, allowDouble, s)
      else
        var counted := s.(kept := s.kept + [f], count := s.count + 1);
        if f.slot.None? then ScanFrom(files[1..], uid, allowDouble, counted)
        else if uid == Some(f.uid) && !allowDouble then
          counted.(kept := counted.kept + files[1..], duplicate := true)
        else ScanFrom(files[1..], uid, allowDouble, counted.(slots := s.slots + [f.slot.value]))
  }

  const START := Scan([], 0, [], false)

  function ActiveFiles(files: seq<PidFile>): (r: seq<PidFile>)
    ensures forall f :: f in r <==> f in files && Active(f)
  {
    if files == [] then []
    else
      assert files == [files[0]] + files[1..];
      (if Active(files[0]) then [files[0]] else []) + ActiveFiles(files[1..])
  }

  function Slots(files: seq<PidFile>): (r: seq<nat>)
    ensures forall n :: n in r <==> exists f :: f in files && f.slot == Some(n)
    ensures |r| <= |files|
  {
    if files == [] then []
    else
      assert files == [files[0]] + files[1..];
      (if files[0].slot.Some? then [files[0].slot.value] else []) + Slots(files[1..])
  }

  lemma ActiveHead(files: seq<PidFile>)
    requires files != []
    ensures
      var rest := ActiveFiles(files[1..]);
      var own := if files[0].slot.Some? then [files[0].slot.value] else [];
      if Active(files[0]) then
        ActiveFiles(files) == [files[0]] + rest && Slots(ActiveFiles(files)) == own + Slots(rest)
      else ActiveFiles(files) == rest
  {
    var rest := ActiveFiles(files[1..]);
    assert ([files[0]] + rest)[1..] == rest;
  }

  predicate Blocks(f: PidFile, uid: Option<string>, allowDouble: bool) {
    Active(f) && f.slot.Some? && uid == Some(f.uid) && !allowDouble
  }

  predicate Blocked(files: seq<PidFile>, uid: Option<string>, allowDouble: bool) {
    exists f :: f in files && Blocks(f, uid, allowDouble)
  }

  lemma BlockedHead(files: seq<PidFile>, uid: Option<string>, allowDouble: bool)
    requires files != []
    ensures Blocked(files, uid, allowDouble)
      <==> Blocks(files[0], uid, allowDouble) || Blocked(files[1..], uid, allowDouble)
  {
    assert files == [files[0]] + files[1..];
    assert files[0] in files;
  }

  function OwnSlot(f: PidFile): seq<nat> { if f.slot.Some? then [f.slot.value] else [] }

  function Gathered(s: Scan, active: seq<PidFile>): Scan {
    Scan(s.kept + active, s.count + |active|, s.slots + Slots(active), false)
  }

  function Gather(s: Scan, f: PidFile): Scan {
    Scan(s.kept + [f], s.count + 1, s.slots + OwnSlot(f), false)
  }

  lemma GatherFirst(s: Scan, f: PidFile, rest: seq<PidFile>)
    ensures Gathered(Gather(s, f), rest) == Gathered(s, [f] + rest)
  {
    assert ([f] + rest)[1..] == rest;
    Reassociate(s.kept, [f], rest);
    Reassociate(s.slots, OwnSlot(f), Slots(rest));
  }

  lemma GatherNone(s: Scan)
    requires !s.duplicate
    ensures Gathered(s, []) == s
  {
    assert s.slots + [] == s.slots && s.kept + [] == s.kept;
  }

  lemma ScanHead(files: seq<PidFile>, uid: Option<string>, allowDouble: bool, s: Scan)
    requires files != [] && !s.duplicate && !Blocks(files[0], uid, allowDouble)
    ensures ScanFrom(files, uid, allowDouble, s)
      == ScanFrom(files[1..], uid, allowDouble, if Active(files[0]) then Gather(s, files[0]) else s)
  {
    assert s.slots + [] == s.slots;
  }

  lemma {:induction false} ScanStops(files: seq<PidFile>, uid: Option<string>, allowDouble: bool, s: Scan)
    requires !s.duplicate && Blocked(files, uid, allowDouble)
    ensures ScanFrom(files, uid, allowDouble, s).duplicate
    decreases |files|
  {
    BlockedHead(files, uid, allowDouble);
    if !Blocks(files[0], uid, allowDouble) {
      ScanHead(files, uid, allowDouble, s);
      ScanStops(files[1..], uid, allowDouble, if Active(files[0]) then Gather(s, files[0]) else s);
    }
  }

  lemma {:induction false} ScanCollects(files: seq<PidFile>, uid: Option<string>, allowDouble: bool, s: Scan)
    requires !s.duplicate && !Blocked(files, uid, allowDouble)
    ensures ScanFrom(files, uid, allowDouble, s) == Gathered(s, ActiveFiles(files))
    decreases |files|
  {
    if files == [] {
      GatherNone(s);
    } else {
      var f := files[0];
      BlockedHead(files, uid, allowDouble);
      ScanHead(files, uid, allowDouble, s);
      ActiveHead(files);
      if Active(f) {
        ScanCollects(files[1..], uid, allowDouble, Gather(s, f));
        GatherFirst(s, f, ActiveFiles(files[1..]));
      } else {
        ScanCollects(files[1..], uid, allowDouble, s);
      }
    }
  }

  // A scan that meets no instance with the same worker id removes the dead files and collects the slots of
  // the others.
  lemma ScanMeaning(files: seq<PidFile>, uid: Option<string>, allowDouble: bool, s: Scan)
    requires !s.duplicate
    ensures
      var r := ScanFrom(files, uid, allowDouble, s);
      var active := ActiveFiles(files);
      if Blocked(files, uid, allowDouble) then r.duplicate
      else r == Scan(s.kept + active, s.count + |active|, s.slots + Slots(active), false)
  {
    if Blocked(files, uid, allowDouble) {
      ScanStops(files, uid, allowDouble, s);
    } else {
      ScanCollects(files, uid, allowDouble, s);
    }
  }

  // ---------------------------------------------------------------- the free slot

  function Max(slots: seq<nat>): (m: nat)
    ensures forall n :: n in slots ==> n <= m
  {
    if slots == [] then 0
    else
      assert slots == [slots[0]] + slots[1..];
      var m := Max(slots[1..]);
      if slots[0] >= m then slots[0] else m
  }

  predicate LeastFree(slots: seq<nat>, n: nat) {
    n !in slots && forall m: nat :: m < n ==> m in slots
  }

  // The search from i on.
  function FreeFrom(slots: seq<nat>, i: nat): (n: nat)
    requires i <= Max(slots) + 1
    ensures i <= n <= Max(slots) + 1 && n !in slots
    ensures forall m: nat :: i <= m < n ==> m in slots
    decreases Max(slots) + 1 - i
  {
    if i !in slots then i else FreeFrom(slots, i + 1)
  }

  function FreeSlot(slots: seq<nat>): (n: nat)
    ensures LeastFree(slots, n)
  {
    FreeFrom(slots, 0)
  }

  // The search over range(max + 2): it always ends with a slot, the least free one.
  method PickSlot(slots: seq<nat>) returns (slot: nat)
    ensures LeastFree(slots, slot)
  {
    if slots == [] {
      return 0;
    }
    var last := Max(slots) + 2;
    slot := 0;
    while slot < last
      invariant slot < last && forall m: nat :: m < slot ==> m in slots
      decreases last - slot
    {
      if slot !in slots {
        return;
      }
      slot := slot + 1;
    }
    assert false;
  }

  lemma LeastFreeIsUnique(slots: seq<nat>, a: nat, b: nat)
    requires LeastFree(slots, a) && LeastFree(slots, b)
    ensures a == b
  {
    assert a < b ==> a in slots;
  }

  // Slots 0 to n - 1 need n entries.
  lemma {:induction false} ManySlots(slots: seq<nat>, n: nat)
    requires forall m: nat :: m < n ==> m in slots
    ensures n <= |slots|
  {
    if n > 0 {
      var last: nat := n - 1;
      assert last in slots;
      var k :| 0 <= k < |slots| && slots[k] == last;
      var rest := slots[..k] + slots[k + 1..];
      forall m: nat | m < n - 1 ensures m in rest {
        assert m in slots;
        var j :| 0 <= j < |slots| && slots[j] == m;
        assert rest[if j < k then j else j - 1] == m;
      }
      ManySlots(rest, n - 1);
    }
  }

  // ---------------------------------------------------------------- registration

  function NewFile(uid: string, slot: nat): PidFile { PidFile(true, false, uid, Some(slot)) }

  // One process registers; an own worker id is optional, otherwise one is built from the slot.
  function RegisterStep(files: seq<PidFile>, uid: Option<string>, nameFor: nat -> string, allowDouble: bool)
    : (seq<PidFile>, Outcome)
  {
    var scan := ScanFrom(files, uid, allowDouble, START);
    if scan.duplicate then (scan.kept, AlreadyRunning)
    else
      var slot := FreeSlot(scan.slots);
      var id := if uid.Some? && uid.value != "" then uid.value else nameFor(slot);
      (scan.kept + [NewFile(id, slot)], Registered(id, slot))
  }

  // The machine: the pid files that exist.
  class Registry {
    var files: seq<PidFile>

    constructor () ensures files == [] { files := []; }

    method Register(uid: Option<string>, nameFor: nat -> string, allowDouble: bool) returns (r: Outcome)
      modifies this
      ensures (files, r) == RegisterStep(old(files), uid, nameFor, allowDouble)
    {
      ghost var scan := ScanFrom(files, uid, allowDouble, START);
      var left := files;
      var kept: seq<PidFile>, count: nat, slots: seq<nat> := [], 0, [];
      while left != []
        invariant files == old(files)
        invariant ScanFrom(left, uid, allowDouble, Scan(kept, count, slots, false)) == scan
        decreases |left|
      {
        var f := left[0];
        left := left[1..];
        if !Active(f) {
          continue;
        }
        kept, count := kept + [f], count + 1;
        if f.slot.None? {
          continue;
        }
        if uid == Some(f.uid) {
          if !allowDouble {
            files := kept + left;
            return AlreadyRunning;
          }
        }
        slots := slots + [f.slot.value];
      }
      var slot := PickSlot(slots);
      LeastFreeIsUnique(slots, slot, FreeSlot(slots));
      var id := if uid.Some? && uid.value != "" then uid.value else nameFor(slot);
      files := kept + [NewFile(id, slot)];
      r := Registered(id, slot);
    }
  }

  lemma BlockedMeaning(files: seq<PidFile>, uid: Option<string>, allowDouble: bool)
    ensures Blocked(files, uid, allowDouble) <==>
      && !allowDouble && uid.Some?
      && exists f :: f in files && (f.alive || f.listed) && f.slot.Some? && f.uid == uid.value
  {
  }

  // A registration fails exactly when an active instance already uses the worker id and doubles are not
  // allowed. Otherwise the newcomer gets the least slot that no active instance has, which is at most
  // the number of active instances, and only the dead files are removed.
  lemma RegisterMeaning(
      files: seq<PidFile>, uid: Option<string>, nameFor: nat -> string, allowDouble: bool)
    ensures
      var (files', r) := RegisterStep(files, uid, nameFor, allowDouble);
      && (r.AlreadyRunning? <==>
            && !allowDouble && uid.Some?
            && exists f :: f in files && (f.alive || f.listed) && f.slot.Some? && f.uid == uid.value)
      && (r.Registered? ==>
            && (forall f :: f in ActiveFiles(files) <==> f in files && (f.alive || f.listed))
            && r.uid == (if uid.Some? && uid.value != "" then uid.value else nameFor(r.slot))
            && LeastFree(Slots(ActiveFiles(files)), r.slot)
            && r.slot <= |ActiveFiles(files)|
            && files' == ActiveFiles(files) + [NewFile(r.uid, r.slot)])
  {
    ScanMeaning(files, uid, allowDouble, START);
    var scan := ScanFrom(files, uid, allowDouble, START);
    BlockedMeaning(files, uid, allowDouble);
    if !scan.duplicate {
      assert [] + ActiveFiles(files) == ActiveFiles(files);
      assert [] + Slots(ActiveFiles(files)) == Slots(ActiveFiles(files));
      ManySlots(scan.slots, FreeSlot(scan.slots));
    }
  }

  // ---------------------------------------------------------------- runs

  // Between registrations processes may die or become visible and listings at the server may change, in any
  // way.
  datatype Step =
    | Join(uid: Option<string>, nameFor: nat -> string, allowDouble: bool)
    | Age(alive: nat -> bool, listed: nat -> bool)

  function AgeAll(files: seq<PidFile>, alive: nat -> bool, listed: nat -> bool): (r: seq<PidFile>)
    ensures |r| == |files|
    ensures forall i :: 0 <= i < |files| ==> r[i] == files[i].(alive := alive(i), listed := listed(i))
  {
    seq(|files|, i requires 0 <= i < |files| => files[i].(alive := alive(i), listed := listed(i)))
  }

  function After(steps: seq<Step>): seq<PidFile> {
    if steps == [] then []
    else
      var files := After(steps[..|steps| - 1]);
      match steps[|steps| - 1]
      case Join(uid, nameFor, allowDouble) => RegisterStep(files, uid, nameFor, allowDouble).0
      case Age(alive, listed) => AgeAll(files, alive, listed)
  }

  // All pid files are readable and have pairwise distinct slots.
  predicate DistinctSlots(files: seq<PidFile>) {
    && (forall i :: 0 <= i < |files| ==> files[i].slot.Some?)
    && forall i, j :: 0 <= i < j < |files| ==> files[i].slot != files[j].slot
  }

  lemma {:induction false} ActiveFilesDistinct(files: seq<PidFile>)
    requires DistinctSlots(files)
    ensures DistinctSlots(ActiveFiles(files))
  {
    if files != [] {
      var rest := ActiveFiles(files[1..]);
      ActiveFilesDistinct(files[1..]);
      forall i | 0 <= i < |rest| ensures rest[i].slot != files[0].slot {
        assert rest[i] in rest;
        var k :| 0 <= k < |files[1..]| && files[1..][k] == rest[i];
        assert files[k + 1] == rest[i];
      }
    }
  }

  // A scan that stops at a duplicate leaves the rest of the files alone.
  lemma {:induction false} ScanKeepsDistinct(files: seq<PidFile>, uid: Option<string>, allowDouble: bool, s: Scan)
    requires !s.duplicate && DistinctSlots(s.kept + files)
    ensures DistinctSlots(ScanFrom(files, uid, allowDouble, s).kept)
    decreases |files|
  {
    if files == [] {
      assert s.kept + [] == s.kept;
    } else {
      var f := files[0];
      assert s.kept + files == (s.kept + [f]) + files[1..];
      if !Active(f) {
        DropOne(s.kept, f, files[1..]);
        ScanKeepsDistinct(files[1..], uid, allowDouble, s);
      } else {
        var counted := s.(kept := s.kept + [f], count := s.count + 1);
        if f.slot.None? {
          ScanKeepsDistinct(files[1..], uid, allowDouble, counted);
        } else if uid != Some(f.uid) || allowDouble {
          ScanKeepsDistinct(files[1..], uid, allowDouble, counted.(slots := s.slots + [f.slot.value]));
        }
      }
    }
  }

  lemma DropOne(a: seq<PidFile>, f: PidFile, b: seq<PidFile>)
    requires DistinctSlots((a + [f]) + b)
    ensures DistinctSlots(a + b)
  {
    var with, without := (a + [f]) + b, a + b;
    forall i | 0 <= i < |without| ensures without[i] == with[if i < |a| then i else i + 1] {
    }
  }

  lemma RegisterKeepsDistinct(
      files: seq<PidFile>, uid: Option<string>, nameFor: nat -> string, allowDouble: bool)
    requires DistinctSlots(files)
    ensures DistinctSlots(RegisterStep(files, uid, nameFor, allowDouble).0)
  {
    var (files', r) := RegisterStep(files, uid, nameFor, allowDouble);
    if r.AlreadyRunning? {
      assert [] + files == files;
      ScanKeepsDistinct(files, uid, allowDouble, START);
    } else {
      RegisterMeaning(files, uid, nameFor, allowDouble);
      ActiveFilesDistinct(files);
      var active := ActiveFiles(files);
      forall i | 0 <= i < |active| ensures active[i].slot != Some(r.slot) {
        assert active[i] in active;
      }
    }
  }

  // Over any run of registrations, deaths and listings, all pid files, and so all active instances, hold
  // pairwise distinct slots.
  lemma {:induction false} SlotsStayDistinct(steps: seq<Step>)
    ensures DistinctSlots(After(steps))
  {
    if steps != [] {
      SlotsStayDistinct(steps[..|steps| - 1]);
      match steps[|steps| - 1] {
        case Join(uid, nameFor, allowDouble) =>
          RegisterKeepsDistinct(After(steps[..|steps| - 1]), uid, nameFor, allowDouble);
        case Age(alive, listed) =>
      }
    }
  }

  // An instance that a registration neither sees alive nor finds listed loses its file, and the newcomer may
  // get its slot.
  lemma UnseenInstanceLosesSlot(f: PidFile, uid: Option<string>, nameFor: nat -> string, allowDouble: bool)
    requires f.slot == Some(0) && !Active(f)
    ensures
      var (files', r) := RegisterStep([f], uid, nameFor, allowDouble);
      r.Registered? && r.slot == 0 && files' == [NewFile(r.uid, 0)]
  {
    RegisterMeaning([f], uid, nameFor, allowDouble);
    assert [f][1..] == [] && ActiveFiles([f]) == [] && Slots([]) == [];
    var r := RegisterStep([f], uid, nameFor, allowDouble).1;
    assert r.Registered? ==> r.slot <= 0;
  }
}
