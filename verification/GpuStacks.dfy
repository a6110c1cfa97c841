/**
 The fractions that can lie side by side on one GPU: which lists of pulls fill it, and which of them leave
 room that ends in the shrink-to-fit branch or in a slice without a letter.
 */
module GpuStacks {
  import opened GpuNames
  import opened GpuTally
  import opened GpuGrant
  import opened Sequences

  // What a GPU must have free for the pull of a fraction.
  function Need(r: Range): real { Max(Amount(r.min), Amount(r.max)) }

  function Total(parts: seq<Range>): real {
    if parts == [] then 0.0 else Total(parts[..|parts| - 1]) + Amount(parts[|parts| - 1].max)
  }

  // Pulls of fractions that one GPU can serve one after the other.
  predicate Stacks(queues: seq<Range>, parts: seq<Range>) {
    parts == [] ||
    (var init, last := parts[..|parts| - 1], parts[|parts| - 1];
     Stacks(queues, init) && last in queues && last.max.Part? && Total(init) + Need(last) <= 1.0)
  }

  function CountOf(parts: seq<Range>, digits: string): nat {
    if parts == [] then 0
    else CountOf(parts[..|parts| - 1], digits) + (if parts[|parts| - 1].max == Part(digits) then 1 else 0)
  }

  // The pulls leave a GPU with room for the minimum of the range but not for its (capped) maximum.
  predicate LeavesGap(parts: seq<Range>, range: Range) {
    Amount(range.min) <= 1.0 - Total(parts) < Min(Amount(range.max), 1.0)
  }

  ghost predicate CanShrink(queues: seq<Range>) {
    exists range, parts :: range in queues && Stacks(queues, parts) && LeavesGap(parts, range)
  }

  // The same with at least an eighth of the GPU left.
  ghost predicate CanOverrun(queues: seq<Range>) {
    exists range, parts ::
      range in queues && Stacks(queues, parts) && LeavesGap(parts, range) && 1.0 - Total(parts) >= 1.0 / BASE_FRACT
  }

  // More slices of one size on one GPU than there are letters.
  ghost predicate CanCrowd(queues: seq<Range>) {
    exists parts, digits :: Stacks(queues, parts) && CountOf(parts, digits) > LETTERS
  }

  lemma StackSnoc(queues: seq<Range>, parts: seq<Range>, last: Range)
    requires Stacks(queues, parts) && last in queues && last.max.Part? && Total(parts) + Need(last) <= 1.0
    ensures Stacks(queues, parts + [last])
    ensures Total(parts + [last]) == Total(parts) + Amount(last.max)
    ensures forall d :: CountOf(parts + [last], d) == CountOf(parts, d) + (if last.max == Part(d) then 1 else 0)
  {
    assert (parts + [last])[..|parts|] == parts;
  }

  // ---------------------------------------------------------------- slices in the order of their launch

  // Every slice was pulled from a queue that found what it needs beside the slices before it.
  ghost predicate Laid(queues: seq<Range>, gpu: string, slots: seq<Slot>) {
    slots == [] ||
    (var init, last := slots[..|slots| - 1], slots[|slots| - 1];
     && Laid(queues, gpu, init)
     && last.Slice? && last.gpu == gpu
     && exists r :: r in queues && r.max == Part(last.digits) && SumOn(init, gpu) + Need(r) <= 1.0)
  }

  function CountSlots(slots: seq<Slot>, digits: string): nat {
    if slots == [] then 0
    else CountSlots(slots[1..], digits) + (if slots[0].Slice? && slots[0].digits == digits then 1 else 0)
  }

  lemma {:induction false} CountSlotsConcat(a: seq<Slot>, b: seq<Slot>, digits: string)
    ensures CountSlots(a + b, digits) == CountSlots(a, digits) + CountSlots(b, digits)
  {
    if a == [] {
      assert a + b == b;
    } else {
      assert (a + b)[1..] == a[1..] + b;
      CountSlotsConcat(a[1..], b, digits);
    }
  }

  lemma CountSlotsOne(s: Slot, digits: string)
    ensures CountSlots([s], digits) == if s.Slice? && s.digits == digits then 1 else 0
  {
    assert CountSlots([s][1..], digits) == 0;
  }

  lemma CountSlotsSnoc(slots: seq<Slot>, digits: string)
    requires slots != []
    ensures
      var last := slots[|slots| - 1];
      CountSlots(slots, digits) ==
        CountSlots(slots[..|slots| - 1], digits) + (if last.Slice? && last.digits == digits then 1 else 0)
  {
    var n := |slots| - 1;
    assert slots == slots[..n] + [slots[n]];
    CountSlotsConcat(slots[..n], [slots[n]], digits);
    CountSlotsOne(slots[n], digits);
  }

  lemma SumOnSnoc(slots: seq<Slot>, gpu: string)
    requires slots != []
    ensures
      var last := slots[|slots| - 1];
      SumOn(slots, gpu) == SumOn(slots[..|slots| - 1], gpu) + (if KeyOf(last) == gpu then Weight(last) else 0.0)
  {
    var n := |slots| - 1;
    assert slots == slots[..n] + [slots[n]];
    SumOnConcat(slots[..n], [slots[n]], gpu);
    SumOnOne(slots[n], gpu);
  }

  lemma {:induction false} PartsOf(queues: seq<Range>, gpu: string, slots: seq<Slot>) returns (parts: seq<Range>)
    requires Laid(queues, gpu, slots)
    ensures Stacks(queues, parts) && Total(parts) == SumOn(slots, gpu)
    ensures forall d :: CountOf(parts, d) == CountSlots(slots, d)
  {
    if slots == [] {
      parts := [];
    } else {
      var n := |slots| - 1;
      var last := slots[n];
      var init := PartsOf(queues, gpu, slots[..n]);
      var r :| r in queues && r.max == Part(last.digits) && SumOn(slots[..n], gpu) + Need(r) <= 1.0;
      parts := init + [r];
      StackSnoc(queues, init, r);
      SumOnSnoc(slots, gpu);
      forall d ensures CountOf(parts, d) == CountSlots(slots, d) {
        CountSlotsSnoc(slots, d);
      }
    }
  }

  function Kept(slots: seq<Slot>, names: seq<Slot>): (r: seq<Slot>)
    ensures forall s :: s in r <==> s in slots && s in names
  {
    if slots == [] then []
    else
      var n := |slots| - 1;
      assert slots == slots[..n] + [slots[n]];
      Kept(slots[..n], names) + (if slots[n] in names then [slots[n]] else [])
  }

  // Slices that go away leave room, so the others still lie in a possible order.
  lemma {:induction false} KeptIsLaid(queues: seq<Range>, gpu: string, slots: seq<Slot>, names: seq<Slot>)
    requires Laid(queues, gpu, slots)
    ensures Laid(queues, gpu, Kept(slots, names)) && SumOn(Kept(slots, names), gpu) <= SumOn(slots, gpu)
  {
    if slots != [] {
      var n := |slots| - 1;
      var last, kept := slots[n], Kept(slots[..n], names);
      KeptIsLaid(queues, gpu, slots[..n], names);
      SumOnSnoc(slots, gpu);
      if last in names {
        LaidSnoc(queues, gpu, kept, last);
      } else {
        assert kept + [] == kept;
      }
    }
  }

  lemma {:induction false} KeptIsDistinct(slots: seq<Slot>, names: seq<Slot>)
    requires Distinct(slots)
    ensures Distinct(Kept(slots, names))
  {
    if slots != [] {
      var n := |slots| - 1;
      KeptIsDistinct(slots[..n], names);
      forall s | s in Kept(slots[..n], names) ensures s != slots[n] {
        var i :| 0 <= i < n && slots[..n][i] == s;
      }
    }
  }

  lemma LaidSnoc(queues: seq<Range>, gpu: string, slots: seq<Slot>, last: Slot)
    requires Laid(queues, gpu, slots) && last.Slice? && last.gpu == gpu
    requires exists r :: r in queues && r.max == Part(last.digits) && SumOn(slots, gpu) + Need(r) <= 1.0
    ensures Laid(queues, gpu, slots + [last])
    ensures SumOn(slots + [last], gpu) == SumOn(slots, gpu) + Value(last.digits)
  {
    assert (slots + [last])[..|slots|] == slots;
    SumOnSnoc(slots + [last], gpu);
  }

  lemma {:induction false} LaidOnGpu(queues: seq<Range>, gpu: string, slots: seq<Slot>)
    requires Laid(queues, gpu, slots)
    ensures forall s :: s in slots ==> s.Slice? && s.gpu == gpu
  {
    if slots != [] {
      var n := |slots| - 1;
      assert slots == slots[..n] + [slots[n]];
      LaidOnGpu(queues, gpu, slots[..n]);
    }
  }

  // ---------------------------------------------------------------- letters

  lemma CountWithout(slots: seq<Slot>, k: nat, digits: string)
    requires k < |slots| && slots[k].Slice? && slots[k].digits == digits
    ensures CountSlots(slots, digits) == CountSlots(Without(slots, k), digits) + 1
  {
    var pre, x, post := slots[..k], slots[k], slots[k + 1..];
    SplitAround(slots, k);
    CountSlotsConcat(pre, post, digits);
    CountSlotsConcat(pre, [x] + post, digits);
    assert ([x] + post)[1..] == post;
  }

  lemma {:induction false} CountSubset(a: seq<Slot>, b: seq<Slot>, digits: string)
    requires Distinct(a) && forall s :: s in a ==> s in b && s.Slice? && s.digits == digits
    ensures |a| <= CountSlots(b, digits)
    decreases |a|
  {
    if a != [] {
      assert a[0] in a && a[0] in b;
      var k :| 0 <= k < |b| && b[k] == a[0];
      forall s | s in a[1..] ensures s in Without(b, k) && s.Slice? && s.digits == digits {
        var i :| 0 <= i < |a[1..]| && a[1..][i] == s;
        assert s == a[i + 1] && s in a;
        WithoutKeepsOthers(b, k, s);
      }
      CountSubset(a[1..], Without(b, k), digits);
      CountWithout(b, k, digits);
    }
  }

  lemma TakenLettersCount(gpu: string, digits: string, names: seq<Slot>)
    requires AllTaken(gpu, digits, names)
    ensures CountSlots(names, digits) >= LETTERS
  {
    CountSubset(Lettered(gpu, digits, LETTERS), names, digits);
  }

  lemma SameLetters(gpu: string, digits: string, a: seq<Slot>, b: seq<Slot>, i: nat)
    requires i <= LETTERS
    requires forall k :: i <= k < LETTERS ==>
      (Slice(gpu, digits, Letter(k)) in a <==> Slice(gpu, digits, Letter(k)) in b)
    ensures FreeLetter(gpu, digits, a, i) == FreeLetter(gpu, digits, b, i)
    decreases LETTERS - i
  {
    if i < LETTERS { SameLetters(gpu, digits, a, b, i + 1); }
  }

  // One more slice beside 26 lettered ones makes a crowd.
  lemma CrowdAbove(queues: seq<Range>, gpu: string, digits: string, stack: seq<Slot>, range: Range)
    requires Laid(queues, gpu, stack) && AllTaken(gpu, digits, stack)
    requires range in queues && range.max == Part(digits) && SumOn(stack, gpu) + Need(range) <= 1.0
    ensures CanCrowd(queues)
  {
    var parts := PartsOf(queues, gpu, stack);
    TakenLettersCount(gpu, digits, stack);
    StackSnoc(queues, parts, range);
    assert CountOf(parts + [range], digits) > LETTERS;
  }

  // ---------------------------------------------------------------- when there is no gap and no crowd

  lemma {:induction false} CountWeighs(queues: seq<Range>, parts: seq<Range>, digits: string)
    requires Stacks(queues, parts)
    ensures Multiple(CountOf(parts, digits), Value(digits)) <= Total(parts)
    ensures parts != [] ==> Total(parts) <= 1.0
  {
    if parts != [] {
      CountWeighs(queues, parts[..|parts| - 1], digits);
    }
  }

  // Slices of one size can crowd a GPU only if 27 of them fit on it.
  lemma CrowdNeedsSmallSlices(queues: seq<Range>)
    requires CanCrowd(queues)
    ensures exists r :: r in queues && r.max.Part? && 27.0 * Amount(r.max) <= 1.0
  {
    var parts, digits :| Stacks(queues, parts) && CountOf(parts, digits) > LETTERS;
    CountWeighs(queues, parts, digits);
    MultipleGrows(27, CountOf(parts, digits), Value(digits));
    MultipleIsProduct(27, Value(digits));
    var r := CountedIsQueue(queues, parts, digits);
  }

  lemma {:induction false} CountedIsQueue(queues: seq<Range>, parts: seq<Range>, digits: string) returns (r: Range)
    requires Stacks(queues, parts) && CountOf(parts, digits) > 0
    ensures r in queues && r.max == Part(digits)
  {
    var n := |parts| - 1;
    if parts[n].max == Part(digits) {
      r := parts[n];
    } else {
      r := CountedIsQueue(queues, parts[..n], digits);
    }
  }

  function Copies(r: Range, n: nat): seq<Range> { seq(n, _ => r) }

  lemma MultipleGrows(m: nat, n: nat, v: real)
    requires m <= n && v >= 0.0
    ensures Multiple(m, v) <= Multiple(n, v)
    decreases n
  {
    if m < n { MultipleGrows(m, n - 1, v); }
  }

  lemma {:induction false} CopiesStack(queues: seq<Range>, r: Range, n: nat)
    requires r in queues && r.max.Part? && Amount(r.min) <= Amount(r.max) && Multiple(n, Amount(r.max)) <= 1.0
    ensures Stacks(queues, Copies(r, n)) && Total(Copies(r, n)) == Multiple(n, Amount(r.max))
    ensures CountOf(Copies(r, n), r.max.digits) == n
  {
    if n > 0 {
      CopiesStack(queues, r, n - 1);
      assert Copies(r, n) == Copies(r, n - 1) + [r];
      StackSnoc(queues, Copies(r, n - 1), r);
    }
  }

  lemma SmallSlicesCrowd(queues: seq<Range>, r: Range)
    requires r in queues && r.max.Part? && Amount(r.min) <= Amount(r.max) && 27.0 * Amount(r.max) <= 1.0
    ensures CanCrowd(queues)
  {
    MultipleIsProduct(27, Amount(r.max));
    CopiesStack(queues, r, 27);
  }

  // With bounds in order, a GPU can be crowded exactly when 27 slices of one size fit on it.
  lemma CrowdExactlyAtTwentySeven(queues: seq<Range>)
    requires forall q :: q in queues ==> Amount(q.min) <= Amount(q.max)
    ensures CanCrowd(queues) <==> exists q :: q in queues && q.max.Part? && 27.0 * Amount(q.max) <= 1.0
  {
    if CanCrowd(queues) { CrowdNeedsSmallSlices(queues); }
    forall q | q in queues && q.max.Part? && 27.0 * Amount(q.max) <= 1.0 ensures CanCrowd(queues) {
      SmallSlicesCrowd(queues, q);
    }
  }

  // Ranges whose minimum is not below the capped maximum leave no gap.
  lemma SteadyQueuesLeaveNoGap(queues: seq<Range>)
    requires forall q :: q in queues ==> SteadyRange(q)
    ensures !CanShrink(queues)
  {
  }

  // The queue that takes what the other leaves: the digits of 1 - v.
  function Complement(digits: string): (c: string)
    requires PlainFraction(digits)
    ensures PlainFraction(c) && |c| == |digits|
  {
    if |digits| == 1 then [('0' as int + 10 - (digits[0] - '0') as int) as char]
    else
      assert PlainFraction(digits[1..]) by {
        assert forall i :: 0 <= i < |digits[1..]| ==> digits[1..][i] == digits[i + 1];
      }
      [('0' as int + 9 - (digits[0] - '0') as int) as char] + Complement(digits[1..])
  }

  lemma {:induction false} ComplementIsRest(digits: string)
    requires PlainFraction(digits)
    ensures Value(Complement(digits)) == 1.0 - Value(digits)
  {
    var c := Complement(digits);
    assert c[1..] == if |digits| == 1 then [] else Complement(digits[1..]);
    if |digits| > 1 {
      assert PlainFraction(digits[1..]) by {
        assert forall i :: 0 <= i < |digits[1..]| ==> digits[1..][i] == digits[i + 1];
      }
      ComplementIsRest(digits[1..]);
    } else {
      assert digits[1..] == [];
    }
  }
}
