/**
 One pull of the dynamic-GPU daemon: the gate on a queue's minimum, the choice of GPUs or of a fraction
 of one GPU, and the names under which the child is going to register.
 */
module GpuGrant {
  import opened Options
  import opened GpuNames
  import opened GpuTally
  import opened Sequences

  // A queue's bound: a whole number of GPUs or a fraction below one.
  datatype Bound = Count(n: nat) | Part(digits: string)

  // gpu_queues[queue] = (min, max)
  datatype Range = Range(min: Bound, max: Bound)

  function Amount(b: Bound): real {
    match b
    case Count(n) => n as real
    case Part(digits) => Value(digits)
  }

  // What the command line accepts: positive, and no fraction above one.
  predicate ValidBound(b: Bound) {
    match b
    case Count(n) => n >= 1
    case Part(digits) => PlainFraction(digits)
  }

  predicate ValidRange(r: Range) { ValidBound(r.min) && ValidBound(r.max) }

  // The ranges for which the daemon never has to shrink a request.
  predicate SteadyRange(r: Range) {
    ValidRange(r) && (r.min.Count? || r.min == r.max)
  }

  function Max(a: real, b: real): real { if a >= b then a else b }

  function Min(a: real, b: real): real { if a <= b then a else b }

  // ---------------------------------------------------------------- the gate

  function WholeFree(available: seq<Free>): (gpus: seq<string>)
    ensures forall g :: g in gpus <==> exists f :: f in available && f.gpu == g && f.amount >= 1.0
    ensures |gpus| <= |available|
  {
    if available == [] then []
    else
      assert available == [available[0]] + available[1..];
      (if available[0].amount >= 1.0 then [available[0].gpu] else []) + WholeFree(available[1..])
  }

  function WholeTotal(available: seq<Free>): real {
    if available == [] then 0.0
    else (if available[0].amount >= 1.0 then available[0].amount else 0.0) + WholeTotal(available[1..])
  }

  function LargestFree(available: seq<Free>): (m: real)
    requires available != []
    ensures exists f :: f in available && f.amount == m
    ensures forall f :: f in available ==> f.amount <= m
  {
    if |available| == 1 then available[0].amount
    else
      assert available == [available[0]] + available[1..];
      Max(available[0].amount, LargestFree(available[1..]))
  }

  predicate GateOpen(available: seq<Free>, range: Range)
    requires available != []
  {
    Amount(range.min) <= Max(WholeTotal(available), LargestFree(available))
  }

  // No GPU is more than whole, and none is listed when nothing is left of it.
  predicate Sound(available: seq<Free>) {
    && (forall f :: f in available ==> 0.0 < f.amount <= 1.0)
    && (forall i, j :: 0 <= i < j < |available| ==> available[i].gpu != available[j].gpu)
  }

  lemma {:induction false} WholeTotalIsCount(available: seq<Free>)
    requires forall f :: f in available ==> f.amount <= 1.0
    ensures WholeTotal(available) == |WholeFree(available)| as real
  {
    if available != [] {
      assert available[0] in available && forall f :: f in available[1..] ==> f in available;
      WholeTotalIsCount(available[1..]);
    }
  }

  lemma {:induction false} WholeFreeDistinct(available: seq<Free>)
    requires Sound(available)
    ensures Distinct(WholeFree(available))
  {
    if available != [] {
      var rest := available[1..];
      WholeFreeDistinct(rest);
      var whole := WholeFree(rest);
      forall i | 0 <= i < |whole| ensures whole[i] != available[0].gpu {
        assert whole[i] in whole;
        var f :| f in rest && f.gpu == whole[i];
        var k :| 0 <= k < |rest| && rest[k] == f;
        assert available[k + 1] == f;
      }
    }
  }

  // ---------------------------------------------------------------- the choice

  datatype Fit = Fit(gpu: string, leftover: real)

  // What a pull is given. Overrun is the shrink-to-fit branch: it always ends with a share of 1.0. The last
  // two are the exceptions of that branch: no candidate to index, and a division by zero.
  datatype Grant =
    | Wholes(gpus: seq<string>)
    | Fraction(gpu: string, digits: string)
    | Overrun(gpu: string)
    | NoCandidate
    | ZeroShare

  function Potential(available: seq<Free>, least: real, most: real): seq<Fit> {
    if available == [] then []
    else
      (if available[0].amount >= least then [Fit(available[0].gpu, available[0].amount - most)] else [])
      + Potential(available[1..], least, most)
  }

  lemma {:induction false} PotentialSource(available: seq<Free>, least: real, most: real, p: Fit) returns (f: Free)
    requires p in Potential(available, least, most)
    ensures f in available && f.amount >= least && p == Fit(f.gpu, f.amount - most)
  {
    f := available[0];
    if !(f.amount >= least && p == Fit(f.gpu, f.amount - most)) {
      f := PotentialSource(available[1..], least, most, p);
    }
  }

  lemma {:induction false} PotentialMember(available: seq<Free>, least: real, most: real, f: Free)
    requires f in available && f.amount >= least
    ensures Fit(f.gpu, f.amount - most) in Potential(available, least, most)
  {
    if available[0] != f {
      PotentialMember(available[1..], least, most, f);
    }
  }

  predicate Ordered(fits: seq<Fit>) {
    forall i, j :: 0 <= i < j < |fits| ==> fits[i].leftover <= fits[j].leftover
  }

  // A stable sort by what would be left.
  function InsertFit(p: Fit, sorted: seq<Fit>): (r: seq<Fit>)
    ensures |r| == |sorted| + 1
    ensures forall q :: q in r <==> q == p || q in sorted
  {
    if sorted == [] || p.leftover <= sorted[0].leftover then [p] + sorted
    else
      assert sorted == [sorted[0]] + sorted[1..];
      [sorted[0]] + InsertFit(p, sorted[1..])
  }

  function SortFits(fits: seq<Fit>): (r: seq<Fit>)
    ensures |r| == |fits|
    ensures forall q :: q in r <==> q in fits
  {
    if fits == [] then []
    else
      assert fits == [fits[0]] + fits[1..];
      InsertFit(fits[0], SortFits(fits[1..]))
  }

  lemma {:induction false} InsertOrdered(p: Fit, sorted: seq<Fit>)
    requires Ordered(sorted)
    ensures Ordered(InsertFit(p, sorted))
  {
    if sorted != [] && p.leftover > sorted[0].leftover {
      InsertOrdered(p, sorted[1..]);
      var rest := InsertFit(p, sorted[1..]);
      forall i | 0 <= i < |rest| ensures sorted[0].leftover <= rest[i].leftover {
        assert rest[i] in rest;
      }
    }
  }

  lemma {:induction false} SortOrdered(fits: seq<Fit>)
    ensures Ordered(SortFits(fits))
  {
    if fits != [] {
      SortOrdered(fits[1..]);
      InsertOrdered(fits[0], SortFits(fits[1..]));
    }
  }

  function Covering(fits: seq<Fit>): (r: seq<Fit>)
    ensures forall p :: p in r <==> p in fits && p.leftover >= 0.0
  {
    if fits == [] then []
    else
      assert fits == [fits[0]] + fits[1..];
      (if fits[0].leftover >= 0.0 then [fits[0]] else []) + Covering(fits[1..])
  }

  lemma {:induction false} FirstCoveringIsBest(fits: seq<Fit>)
    requires Ordered(fits)
    ensures Covering(fits) != [] ==>
      forall p :: p in fits && p.leftover >= 0.0 ==> Covering(fits)[0].leftover <= p.leftover
  {
    if fits != [] {
      assert fits == [fits[0]] + fits[1..];
      FirstCoveringIsBest(fits[1..]);
    }
  }

  const BASE_FRACT := 8.0

  function AmountOn(available: seq<Free>, g: string): real {
    if available == [] then 0.0
    else if available[0].gpu == g then available[0].amount
    else AmountOn(available[1..], g)
  }

  function Take<T>(s: seq<T>, n: nat): (r: seq<T>)
    ensures r <= s && |r| == if n <= |s| then n else |s|
  {
    if n <= |s| then s[..n] else s
  }

  function ChooseShare(available: seq<Free>, range: Range): Grant {
    ChooseFrom(available, range, SortFits(Potential(available, Amount(range.min), Min(Amount(range.max), 1.0))))
  }

  // The choice among the sorted candidates.
  function ChooseFrom(available: seq<Free>, range: Range, sorted: seq<Fit>): Grant {
    var covering := Covering(sorted);
    if covering != [] then
      if range.max.Part? then Fraction(covering[0].gpu, range.max.digits) else Wholes([covering[0].gpu])
    else if sorted == [] then NoCandidate
    else ShrunkTo(available, sorted[|sorted| - 1].gpu)
  }

  // With less than an eighth left, the share is divided by zero.
  function ShrunkTo(available: seq<Free>, g: string): Grant {
    if (AmountOn(available, g) * BASE_FRACT).Floor == 0 then ZeroShare else Overrun(g)
  }

  function Choose(available: seq<Free>, range: Range): Grant {
    if range.max.Count? && WholeFree(available) != [] then Wholes(Take(WholeFree(available), range.max.n))
    else ChooseShare(available, range)
  }

  ghost predicate HasFree(available: seq<Free>, amount: real) {
    exists f :: f in available && f.amount >= amount
  }

  // The fractional part always takes the GPU that leaves least, among those that still fit.
  lemma BestFit(available: seq<Free>, least: real, most: real) returns (f: Free)
    requires Covering(SortFits(Potential(available, least, most))) != []
    ensures f in available && f.amount >= Max(least, most)
    ensures f.gpu == Covering(SortFits(Potential(available, least, most)))[0].gpu
    ensures forall e :: e in available && e.amount >= Max(least, most) ==> f.amount <= e.amount
  {
    var fits := Potential(available, least, most);
    var best := BestCovering(fits);
    f := PotentialSource(available, least, most, best);
    forall e | e in available && e.amount >= Max(least, most) ensures f.amount <= e.amount {
      PotentialMember(available, least, most, e);
    }
  }

  lemma BestCovering(fits: seq<Fit>) returns (best: Fit)
    requires Covering(SortFits(fits)) != []
    ensures best == Covering(SortFits(fits))[0] && best in fits && best.leftover >= 0.0
    ensures forall p :: p in fits && p.leftover >= 0.0 ==> best.leftover <= p.leftover
  {
    var sorted := SortFits(fits);
    SortOrdered(fits);
    FirstCoveringIsBest(sorted);
    best := Covering(sorted)[0];
    assert best in Covering(sorted);
  }

  lemma FractionIsBestFit(available: seq<Free>, range: Range)
    requires Choose(available, range).Fraction? && ValidRange(range)
    ensures
      var grant := Choose(available, range);
      var need := Max(Amount(range.min), Amount(range.max));
      && range.max == Part(grant.digits)
      && exists f :: f in available && f.gpu == grant.gpu && f.amount >= need
           && forall e :: e in available && e.amount >= need ==> f.amount <= e.amount
  {
    PlainFractionIsPositive(range.max.digits);
    var f := BestFit(available, Amount(range.min), Amount(range.max));
  }

  // The candidates are those that have the minimum; the branch taken depends on whether one of them also
  // has the (capped) maximum.
  lemma ShareCases(available: seq<Free>, range: Range)
    ensures
      var need := Max(Amount(range.min), Min(Amount(range.max), 1.0));
      ChooseShare(available, range).Fraction? || ChooseShare(available, range).Wholes? <==> HasFree(available, need)
    ensures ChooseShare(available, range) == NoCandidate <==> !HasFree(available, Amount(range.min))
  {
    CandidateCases(available, Amount(range.min), Min(Amount(range.max), 1.0));
  }

  lemma CandidateCases(available: seq<Free>, least: real, most: real)
    ensures
      var sorted := SortFits(Potential(available, least, most));
      && (Covering(sorted) != [] <==> HasFree(available, Max(least, most)))
      && (sorted == [] <==> !HasFree(available, least))
      && (Covering(sorted) != [] ==> sorted != [])
  {
    var fits := Potential(available, least, most);
    var sorted := SortFits(fits);
    if Covering(sorted) != [] {
      var f := BestFit(available, least, most);
      assert Covering(sorted)[0] in Covering(sorted);
    }
    if sorted != [] {
      assert sorted[0] in sorted;
      var f := PotentialSource(available, least, most, sorted[0]);
    }
    forall f | f in available && f.amount >= least
      ensures sorted != [] && (f.amount >= most ==> Covering(sorted) != [])
    {
      PotentialMember(available, least, most, f);
      assert Fit(f.gpu, f.amount - most) in sorted;
    }
  }

  // ---------------------------------------------------------------- what a pull that passed the gate gets

  // For a steady range whose bounds are in order the pull always receives an allocation: whole GPUs up to
  // the maximum, all of them free, or exactly the fraction asked for on a GPU that has it. Neither the
  // shrink-to-fit branch nor an exception is reached.
  lemma GatedPullIsServed(available: seq<Free>, range: Range)
    requires Sound(available) && available != [] && GateOpen(available, range)
    requires SteadyRange(range) && Amount(range.min) <= Amount(range.max)
    ensures
      var grant := Choose(available, range);
      if range.max.Count? then
        && grant.Wholes? && range.min.n <= |grant.gpus| <= range.max.n
        && Distinct(grant.gpus)
        && forall g :: g in grant.gpus ==> Free(g, 1.0) in available
      else
        && grant.Fraction? && range.max == range.min == Part(grant.digits)
        && exists f :: f in available && f.gpu == grant.gpu && f.amount >= Value(grant.digits)
  {
    if range.max.Count? {
      WholePull(available, range);
      WholeTotalIsCount(available);
    } else {
      assert range.min == range.max;
      FractionPull(available, range);
    }
  }

  lemma WholePull(available: seq<Free>, range: Range)
    requires Sound(available) && available != [] && ValidRange(range)
    requires range.min.Count? && range.max.Count? && GateOpen(available, range)
    ensures WholeFree(available) != []
    ensures Choose(available, range) == Wholes(Take(WholeFree(available), range.max.n))
    ensures Distinct(Choose(available, range).gpus)
    ensures forall g :: g in Choose(available, range).gpus ==> Free(g, 1.0) in available
  {
    SomeWholeFree(available, range);
    WholeFreeDistinct(available);
    var taken := Take(WholeFree(available), range.max.n);
    forall g | g in taken ensures Free(g, 1.0) in available {
      assert g in WholeFree(available);
      var h :| h in available && h.gpu == g && h.amount >= 1.0;
      assert h == Free(g, 1.0);
    }
  }

  lemma SomeWholeFree(available: seq<Free>, range: Range)
    requires Sound(available) && available != [] && ValidRange(range)
    requires range.min.Count? && GateOpen(available, range)
    ensures WholeFree(available) != []
  {
    WholeTotalIsCount(available);
    var f :| f in available && f.amount == LargestFree(available);
    assert WholeTotal(available) < 1.0 ==> f.amount >= 1.0 && f.gpu in WholeFree(available);
  }

  lemma FractionPull(available: seq<Free>, range: Range)
    requires Sound(available) && available != [] && ValidRange(range)
    requires range.min.Part? && range.min == range.max && GateOpen(available, range)
    ensures Choose(available, range).Fraction?
    ensures range.max == Part(Choose(available, range).digits)
    ensures exists f :: f in available && f.gpu == Choose(available, range).gpu && f.amount >= Amount(range.max)
  {
    WholeTotalIsCount(available);
    PlainFractionIsPositive(range.min.digits);
    var f :| f in available && f.amount == LargestFree(available);
    if WholeFree(available) != [] {
      assert WholeFree(available)[0] in WholeFree(available);
    }
    assert f.amount >= Amount(range.min);
    assert HasFree(available, Amount(range.min));
    ShareCases(available, range);
    FractionIsBestFit(available, range);
  }

  lemma {:induction false} WholeFreeInOrder(available: seq<Free>, k: nat) returns (n: nat)
    requires k < |available| && available[k].amount >= 1.0
    ensures n < |WholeFree(available)| && WholeFree(available)[n] == available[k].gpu
    ensures n == |WholeFree(available[..k])|
  {
    if k == 0 {
      n := 0;
    } else {
      n := WholeFreeInOrder(available[1..], k - 1);
      assert available[1..][..k - 1] == available[..k][1..];
      n := n + if available[0].amount >= 1.0 then 1 else 0;
    }
  }

  lemma {:induction false} MoreWhole(available: seq<Free>, p: nat, q: nat)
    requires p < q <= |available| && available[p].amount >= 1.0
    ensures |WholeFree(available[..p])| < |WholeFree(available[..q])|
    decreases p
  {
    assert available[..q][1..] == available[1..][..q - 1];
    if p > 0 {
      assert available[..p][1..] == available[1..][..p - 1];
      MoreWhole(available[1..], p - 1, q - 1);
    } else {
      assert available[..0] == [];
    }
  }

  // Of the whole GPUs the earlier ones are given first.
  lemma EarlierGpusFirst(available: seq<Free>, range: Range, p: nat, q: nat)
    requires Sound(available) && ValidRange(range) && range.max.Count?
    requires p < q < |available| && available[p].amount == available[q].amount == 1.0
    ensures Choose(available, range).Wholes?
    ensures available[q].gpu in Choose(available, range).gpus ==> available[p].gpu in Choose(available, range).gpus
  {
    var whole := WholeFree(available);
    var i := WholeFreeInOrder(available, p);
    var j := WholeFreeInOrder(available, q);
    MoreWhole(available, p, q);
    WholeFreeDistinct(available);
    var taken := Choose(available, range).gpus;
    if available[q].gpu in taken {
      var k :| 0 <= k < |taken| && taken[k] == available[q].gpu;
      assert whole[k] == whole[j] && k == j && taken[i] == whole[i];
    }
  }

  // How many GPUs, or how much of one, a grant gives.
  function Granted(grant: Grant): real {
    match grant
    case Wholes(gpus) => |gpus| as real
    case Fraction(_, digits) => Value(digits)
    case Overrun(_) => 1.0
    case NoCandidate => 0.0
    case ZeroShare => 0.0
  }

  // What a pull behind the gate is given, unless the request is shrunk, lies between the queue's minimum and
  // maximum exactly when the bounds are in order; nothing in the command line demands that they are.
  lemma GrantWithinBounds(available: seq<Free>, range: Range)
    requires Sound(available) && available != [] && ValidRange(range) && GateOpen(available, range)
    requires Choose(available, range).Wholes? || Choose(available, range).Fraction?
    ensures Amount(range.min) <= Granted(Choose(available, range)) <= Amount(range.max)
      <==> Amount(range.min) <= Amount(range.max)
  {
    if range.max.Count? && range.min.Count? {
      WholePull(available, range);
      WholeTotalIsCount(available);
      assert LargestFree(available) <= 1.0;
    } else if range.max.Count? {
      PlainFractionIsPositive(range.min.digits);
    }
  }

  // Bounds out of order: from 0.75 to 0.5 half a GPU is granted.
  lemma InvertedBoundsGrantTooLittle(available: seq<Free>, range: Range)
    requires available == [Free("0", 1.0)] && range == Range(Part("75"), Part("5"))
    ensures ValidRange(range) && Sound(available) && GateOpen(available, range)
    ensures Granted(Choose(available, range)) < Amount(range.min)
  {
    assert "5"[1..] == [] && "75"[1..] == "5" && Value("5") == 0.5 && Value("75") == 0.75;
    assert available[0] in available && HasFree(available, 0.75);
    ShareCases(available, range);
    assert LargestFree(available) == 1.0;
  }

  // ---------------------------------------------------------------- the shrink-to-fit branch

  // The branch takes the GPU that has most left: at least the minimum, less than the (capped) maximum. It
  // ends in a grant when that is at least an eighth, and in a division by zero otherwise.
  lemma ShrinkTakesLargest(available: seq<Free>, range: Range) returns (f: Free)
    requires Sound(available) && (Choose(available, range).Overrun? || Choose(available, range).ZeroShare?)
    ensures f in available && forall e :: e in available ==> e.amount <= f.amount
    ensures Amount(range.min) <= f.amount < Min(Amount(range.max), 1.0)
    ensures Choose(available, range) == if f.amount >= 1.0 / BASE_FRACT then Overrun(f.gpu) else ZeroShare
    ensures AmountOn(available, f.gpu) == f.amount
  {
    var least, most := Amount(range.min), Min(Amount(range.max), 1.0);
    var p := ShrinkBranch(available, range);
    f := LastFit(available, least, most, p);
    AmountOfMember(available, f);
    SomeEighths(f.amount);
  }

  lemma ShrinkBranch(available: seq<Free>, range: Range) returns (p: Fit)
    requires Choose(available, range).Overrun? || Choose(available, range).ZeroShare?
    ensures
      var fits := Potential(available, Amount(range.min), Min(Amount(range.max), 1.0));
      p in fits && p.leftover < 0.0 && forall q :: q in fits ==> q.leftover <= p.leftover
    ensures Choose(available, range) == ShrunkTo(available, p.gpu)
  {
    var fits := Potential(available, Amount(range.min), Min(Amount(range.max), 1.0));
    ShrunkFrom(available, range, SortFits(fits));
    p := LastLeftover(fits);
  }

  lemma ShrunkFrom(available: seq<Free>, range: Range, sorted: seq<Fit>)
    requires ChooseFrom(available, range, sorted).Overrun? || ChooseFrom(available, range, sorted).ZeroShare?
    ensures Covering(sorted) == [] && sorted != []
    ensures ChooseFrom(available, range, sorted) == ShrunkTo(available, sorted[|sorted| - 1].gpu)
  {
  }

  lemma SomeEighths(amount: real)
    requires amount > 0.0
    ensures (amount * BASE_FRACT).Floor == 0 <==> amount < 1.0 / BASE_FRACT
  {
  }

  // The candidate with the largest leftover, if that is negative, has most free.
  lemma LastFit(available: seq<Free>, least: real, most: real, p: Fit) returns (f: Free)
    requires p in Potential(available, least, most) && p.leftover < 0.0
    requires forall q :: q in Potential(available, least, most) ==> q.leftover <= p.leftover
    ensures f in available && forall e :: e in available ==> e.amount <= f.amount
    ensures least <= f.amount < most && f.gpu == p.gpu
  {
    f := PotentialSource(available, least, most, p);
    forall e | e in available ensures e.amount <= f.amount {
      if e.amount >= least { PotentialMember(available, least, most, e); }
    }
  }

  lemma LastLeftover(fits: seq<Fit>) returns (p: Fit)
    requires SortFits(fits) != []
    ensures p == SortFits(fits)[|SortFits(fits)| - 1] && p in fits && forall q :: q in fits ==> q.leftover <= p.leftover
    ensures Covering(SortFits(fits)) == [] ==> p.leftover < 0.0
  {
    var sorted := SortFits(fits);
    SortOrdered(fits);
    p := sorted[|sorted| - 1];
    assert p in sorted;
    assert Covering(sorted) == [] ==> p !in Covering(sorted);
    forall q | q in fits ensures q.leftover <= p.leftover {
      assert q in sorted;
    }
  }

  // Whatever the branch grants is more than is free: a share of 1.0 of a GPU that is partly taken. Dividing
  // by the base fraction, as the comment in the code intends, would grant some eighths of that GPU, never
  // more than is free and missing less than an eighth of it.
  lemma OverrunExceedsWhatIsFree(available: seq<Free>, range: Range)
    requires Sound(available) && Choose(available, range).Overrun?
    ensures
      var free := AmountOn(available, Choose(available, range).gpu);
      var eighths := (free * 8.0).Floor as real / 8.0;
      0.0 < eighths <= free < 1.0 && free < eighths + 0.125
  {
    var f := ShrinkTakesLargest(available, range);
  }

  lemma {:induction false} AmountOfMember(available: seq<Free>, f: Free)
    requires forall i, j :: 0 <= i < j < |available| ==> available[i].gpu != available[j].gpu
    requires f in available
    ensures AmountOn(available, f.gpu) == f.amount
  {
    if available[0] != f {
      var i :| 0 <= i < |available| && available[i] == f;
      assert available[1..][i - 1] == f;
      AmountOfMember(available[1..], f);
    }
  }

  // A request whose maximum is a fraction finds no candidate exactly when its minimum is above one GPU.
  lemma MissNeedsManyGpus(available: seq<Free>, range: Range)
    requires Sound(available) && available != [] && GateOpen(available, range) && ValidRange(range)
    ensures Choose(available, range).NoCandidate? <==> range.max.Part? && Amount(range.min) > 1.0
  {
    ShareCases(available, range);
    WholeTotalIsCount(available);
    assert HasFree(available, LargestFree(available));
    assert WholeFree(available) != [] ==> WholeFree(available)[0] in WholeFree(available);
  }

  // ---------------------------------------------------------------- the names

  const LETTERS: nat := 26

  function Letter(i: nat): char
    requires i < LETTERS
  {
    'a' + i as char
  }

  // The first letter not taken, counted from letter i on; LETTERS when all are taken.
  function FreeLetter(gpu: string, digits: string, names: seq<Slot>, i: nat): (k: nat)
    requires i <= LETTERS
    ensures i <= k <= LETTERS
    ensures k < LETTERS ==> Slice(gpu, digits, Letter(k)) !in names
    ensures forall j :: i <= j < k ==> Slice(gpu, digits, Letter(j)) in names
    decreases LETTERS - i
  {
    if i == LETTERS || Slice(gpu, digits, Letter(i)) !in names then i else FreeLetter(gpu, digits, names, i + 1)
  }

  method NameSlice(gpu: string, digits: string, names: seq<Slot>) returns (slot: Slot)
    ensures slot == SliceName(gpu, digits, names)
  {
    slot := Static(gpu + "." + digits);
    for i := 0 to LETTERS
      invariant FreeLetter(gpu, digits, names, i) == FreeLetter(gpu, digits, names, 0)
    {
      if Slice(gpu, digits, Letter(i)) !in names {
        return Slice(gpu, digits, Letter(i));
      }
    }
  }

  // With no letter left the name stays bare.
  function SliceName(gpu: string, digits: string, names: seq<Slot>): Slot {
    var k := FreeLetter(gpu, digits, names, 0);
    if k < LETTERS then Slice(gpu, digits, Letter(k)) else Static(gpu + "." + digits)
  }

  function StaticNames(gpus: seq<string>): (slots: seq<Slot>)
    ensures |slots| == |gpus| && forall i :: 0 <= i < |gpus| ==> slots[i] == Static(gpus[i])
  {
    seq(|gpus|, i requires 0 <= i < |gpus| => Static(gpus[i]))
  }

  // The slots of the child, and the fractions reserved for them.
  function GrantSlots(grant: Grant, names: seq<Slot>): seq<Slot> {
    match grant
    case Wholes(gpus) => StaticNames(gpus)
    case Fraction(gpu, digits) => [SliceName(gpu, digits, names)]
    case Overrun(gpu) => [Static(gpu)]
    case NoCandidate => []
    case ZeroShare => []
  }

  method NameGrant(grant: Grant, names: seq<Slot>) returns (slots: seq<Slot>)
    ensures slots == GrantSlots(grant, names)
  {
    if grant.Fraction? {
      var slot := NameSlice(grant.gpu, grant.digits, names);
      return [slot];
    }
    slots := GrantSlots(grant, names);
  }

  function GrantFractions(grant: Grant): seq<real> {
    match grant
    case Wholes(gpus) => seq(|gpus|, _ => 1.0)
    case Fraction(_, digits) => [Value(digits)]
    case Overrun(_) => [1.0]
    case NoCandidate => []
    case ZeroShare => []
  }

  // What is reserved for a slot is what its name will count for, unless it is a slice without a letter.
  lemma FractionsAreWeights(grant: Grant, names: seq<Slot>, i: nat)
    requires i < |GrantSlots(grant, names)| && (grant.Fraction? ==> GrantSlots(grant, names)[0].Slice?)
    ensures |GrantFractions(grant)| == |GrantSlots(grant, names)|
    ensures GrantFractions(grant)[i] == Weight(GrantSlots(grant, names)[i])
  {
  }

  // The names of the first n slices of one size on one GPU.
  function Lettered(gpu: string, digits: string, n: nat): (slots: seq<Slot>)
    requires n <= LETTERS
    ensures |slots| == n && forall i :: 0 <= i < n ==> slots[i] == Slice(gpu, digits, Letter(i))
  {
    seq(n, i requires 0 <= i < n => Slice(gpu, digits, Letter(i)))
  }

  function Multiple(n: nat, v: real): real {
    if n == 0 then 0.0 else Multiple(n - 1, v) + v
  }

  lemma {:induction false} MultipleIsProduct(n: nat, v: real)
    ensures Multiple(n, v) == n as real * v
  {
    if n > 0 {
      MultipleIsProduct(n - 1, v);
      var m := (n - 1) as real;
      assert n as real == m + 1.0;
      assert (m + 1.0) * v == m * v + v;
    }
  }

  lemma {:induction false} LettersWeigh(gpu: string, digits: string, n: nat)
    requires n <= LETTERS
    ensures SumOn(Lettered(gpu, digits, n), gpu) == Multiple(n, Value(digits))
  {
    if n > 0 {
      var last := Slice(gpu, digits, Letter(n - 1));
      LettersWeigh(gpu, digits, n - 1);
      assert Lettered(gpu, digits, n) == Lettered(gpu, digits, n - 1) + [last];
      SumOnConcat(Lettered(gpu, digits, n - 1), [last], gpu);
      SumOnOne(last, gpu);
    }
  }

  predicate AllTaken(gpu: string, digits: string, names: seq<Slot>) {
    FreeLetter(gpu, digits, names, 0) == LETTERS
  }

  lemma TakenLettersWeigh(gpu: string, digits: string, names: seq<Slot>)
    requires AllTaken(gpu, digits, names)
    ensures 26.0 * Value(digits) <= SumOn(names, gpu)
  {
    LettersWeigh(gpu, digits, LETTERS);
    MultipleIsProduct(LETTERS, Value(digits));
    SumOnSubset(Lettered(gpu, digits, LETTERS), names, gpu);
  }
}
