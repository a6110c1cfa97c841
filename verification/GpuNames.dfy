/**
 The names under which dynamic-GPU children register, and how the daemon reads them back.

 A child launched by the daemon on whole GPUs 0 and 1 registers as "<host>:gpu0,1"; one launched on
 half of GPU 0 registers as "<host>:gpu0.5a". The daemon later recovers the GPUs and the fractions from
 nothing but these worker ids.
 */
module GpuNames {
  import opened Options
  import opened Sequences

  // ---------------------------------------------------------------- characters and text

  predicate IsDigit(c: char) { '0' <= c <= '9' }

  predicate IsLower(c: char) { 'a' <= c <= 'z' }

  predicate IsSpace(c: char) { c == ' ' || c == '\t' || c == '\n' || c == '\r' }

  predicate AllDigits(s: string) { forall i :: 0 <= i < |s| ==> IsDigit(s[i]) }

  function DigitRun(s: string): (n: nat)
    ensures n <= |s| && AllDigits(s[..n]) && (n < |s| ==> !IsDigit(s[n]))
  {
    if s == [] || !IsDigit(s[0]) then 0
    else
      var n := DigitRun(s[1..]);
      assert s[..n + 1] == [s[0]] + s[1..][..n];
      n + 1
  }

  function Lower(s: string): (t: string)
    ensures |t| == |s|
    ensures forall i :: 0 <= i < |s| ==>
      !('A' <= t[i] <= 'Z') && (t[i] == s[i] || ('A' <= s[i] <= 'Z' && t[i] as int == s[i] as int + 32))
  {
    seq(|s|, i requires 0 <= i < |s| => if 'A' <= s[i] <= 'Z' then s[i] - 'A' + 'a' else s[i])
  }

  function Strip(s: string): string
    decreases |s|
  {
    if s == [] then s
    else if IsSpace(s[0]) then Strip(s[1..])
    else if IsSpace(s[|s| - 1]) then Strip(s[..|s| - 1])
    else s
  }

  predicate Blank(s: string) {
    forall i :: 0 <= i < |s| ==> s[i] == ' ' || s[i] == '\t' || s[i] == '\n' || s[i] == '\r'
  }

  // What is stripped is the white space around the text.
  lemma {:induction false} StripMeaning(pre: string, core: string, post: string)
    requires Blank(pre) && Blank(post)
    requires core != [] && !IsSpace(core[0]) && !IsSpace(core[|core| - 1])
    ensures Strip(pre + core + post) == core
    decreases |pre| + |post|
  {
    var s := pre + core + post;
    if pre != [] {
      assert s[0] == pre[0] && s[1..] == pre[1..] + core + post;
      StripMeaning(pre[1..], core, post);
    } else if post != [] {
      var n := |post| - 1;
      assert s[0] == core[0] && s[|s| - 1] == post[n];
      assert s[..|s| - 1] == pre + core + post[..n];
      StripMeaning(pre, core, post[..n]);
    } else {
      assert s == core;
    }
  }

  // s.replace("gpu", ""), scanning left to right.
  function RemoveGpu(s: string): string {
    if |s| < 3 then s
    else if s[..3] == "gpu" then RemoveGpu(s[3..])
    else [s[0]] + RemoveGpu(s[1..])
  }

  // ---------------------------------------------------------------- fractions

  // The value of the decimal "0.<digits>".
  function Value(digits: string): (v: real)
    ensures 0.0 <= v < 1.0
  {
    if digits == [] then 0.0
    else
      var d := if IsDigit(digits[0]) then (digits[0] - '0') as int else 0;
      (d as real + Value(digits[1..])) / 10.0
  }

  // What str() prints after "0." for a fraction strictly between 0 and 1 that needs no exponent.
  predicate PlainFraction(digits: string) {
    digits != [] && AllDigits(digits) && digits[|digits| - 1] != '0'
  }

  lemma {:induction false} PlainFractionIsPositive(digits: string)
    requires PlainFraction(digits)
    ensures 0.0 < Value(digits) < 1.0
  {
    if |digits| > 1 {
      assert forall i :: 0 <= i < |digits[1..]| ==> digits[1..][i] == digits[i + 1];
      PlainFractionIsPositive(digits[1..]);
    } else {
      assert digits[0] > '0';
    }
  }

  // A fraction has only one such text, so the text in a name stands for exactly one value and back.
  lemma {:induction false} PlainFractionIsUnique(a: string, b: string)
    requires PlainFraction(a) && PlainFraction(b) && Value(a) == Value(b)
    ensures a == b
  {
    var x, y := (a[0] - '0') as int, (b[0] - '0') as int;
    assert Value(a) * 10.0 == x as real + Value(a[1..]) && Value(b) * 10.0 == y as real + Value(b[1..]);
    assert x == y && a[0] == b[0];
    assert forall i :: 0 <= i < |a[1..]| ==> a[1..][i] == a[i + 1];
    assert forall i :: 0 <= i < |b[1..]| ==> b[1..][i] == b[i + 1];
    if |a| > 1 { PlainFractionIsPositive(a[1..]); }
    if |b| > 1 { PlainFractionIsPositive(b[1..]); }
    if |a| > 1 && |b| > 1 {
      PlainFractionIsUnique(a[1..], b[1..]);
    }
    assert a == [a[0]] + a[1..] && b == [b[0]] + b[1..];
  }

  // ---------------------------------------------------------------- slots

  // One comma-separated entry of a worker id, as the two patterns of the daemon tell entries apart:
  // an entry with a final letter is a fraction, every other one is a static slice or a whole GPU.
  datatype Slot =
    | Static(name: string)
    | Slice(gpu: string, digits: string, letter: char)
    | Undotted(digits: string, letter: char)

  predicate IsIndex(s: string) { s != [] && AllDigits(s) }

  // index, or index "." digits
  predicate IsStaticName(s: string) {
    var n := DigitRun(s);
    n > 0 && (n == |s| || (s[n] == '.' && AllDigits(s[n + 1..])))
  }

  predicate WellFormed(s: Slot) {
    match s
    case Static(name) => IsStaticName(name)
    case Slice(gpu, digits, letter) => IsIndex(gpu) && AllDigits(digits) && IsLower(letter)
    case Undotted(digits, letter) => IsIndex(digits) && IsLower(letter)
  }

  function Text(s: Slot): string {
    match s
    case Static(name) => name
    case Slice(gpu, digits, letter) => gpu + "." + digits + [letter]
    case Undotted(digits, letter) => digits + [letter]
  }

  // The fullmatch of \d+[.]?\d*[a-z]?  and  \d+[.]?\d*[a-z]+  on one entry.
  function ParseSlot(t: string): (r: Option<Slot>)
    ensures r.Some? ==> WellFormed(r.value) && Text(r.value) == t
  {
    var n := DigitRun(t);
    if n == 0 then None
    else if n == |t| then Some(Static(t))
    else if t[n] == '.' then
      var tail := t[n + 1..];
      if AllDigits(tail) then Some(Static(t))
      else if IsLower(tail[|tail| - 1]) && AllDigits(tail[..|tail| - 1]) then
        assert t == t[..n] + "." + tail[..|tail| - 1] + [tail[|tail| - 1]];
        Some(Slice(t[..n], tail[..|tail| - 1], tail[|tail| - 1]))
      else None
    else if n + 1 == |t| && IsLower(t[n]) then
      assert t == t[..n] + [t[n]];
      Some(Undotted(t[..n], t[n]))
    else None
  }

  lemma {:induction false} DigitRunStops(p: string, s: string)
    requires AllDigits(p) && (s != [] ==> !IsDigit(s[0]))
    ensures DigitRun(p + s) == |p|
  {
    if p == [] {
      assert p + s == s;
    } else {
      assert (p + s)[1..] == p[1..] + s;
      assert AllDigits(p[1..]) by {
        assert forall i :: 0 <= i < |p[1..]| ==> p[1..][i] == p[i + 1];
      }
      DigitRunStops(p[1..], s);
    }
  }

  // Every well-formed slot is recognised from its text; with the contract of ParseSlot, the texts of the
  // grammar and the well-formed slots correspond one to one.
  lemma ParseText(s: Slot)
    requires WellFormed(s)
    ensures ParseSlot(Text(s)) == Some(s)
  {
    var t := Text(s);
    match s {
      case Static(name) =>
      case Slice(gpu, digits, letter) =>
        assert t == gpu + ("." + digits + [letter]);
        DigitRunStops(gpu, "." + digits + [letter]);
        assert t[..|gpu|] == gpu && t[|gpu| + 1..] == digits + [letter];
        assert (digits + [letter])[..|digits|] == digits;
        assert !AllDigits(digits + [letter]) by {
          assert (digits + [letter])[|digits|] == letter;
        }
      case Undotted(digits, letter) =>
        DigitRunStops(digits, [letter]);
        assert t[..|digits|] == digits;
    }
  }

  lemma TextIsInjective(a: Slot, b: Slot)
    requires WellFormed(a) && WellFormed(b) && Text(a) == Text(b)
    ensures a == b
  {
    ParseText(a);
    ParseText(b);
  }

  // ---------------------------------------------------------------- worker ids

  function Texts(slots: seq<Slot>): (ts: seq<string>)
    ensures |ts| == |slots| && forall i :: 0 <= i < |slots| ==> ts[i] == Text(slots[i])
  {
    seq(|slots|, i requires 0 <= i < |slots| => Text(slots[i]))
  }

  // The id under which a child with these slots registers: the last component of the daemon's own id
  // is replaced.
  function WorkerId(own: string, slots: seq<Slot>): string {
    var parts := Split(own, ':');
    Join(parts[..|parts| - 1] + ["gpu" + Join(Texts(slots), ',')], ':')
  }

  function ParseAll(entries: seq<string>): (slots: seq<Slot>)
    ensures forall s :: s in slots ==> WellFormed(s)
  {
    if entries == [] then []
    else
      var head := ParseSlot(Strip(entries[0]));
      (if head.Some? then [head.value] else []) + ParseAll(entries[1..])
  }

  // What the daemon reads off one registered worker id.
  function Decode(id: string): (slots: seq<Slot>)
    ensures forall s :: s in slots ==> WellFormed(s)
  {
    var parts := Split(id, ':');
    ParseAll(Split(RemoveGpu(Lower(parts[|parts| - 1])), ','))
  }

  // Texts of slots, possibly joined by commas: a letter only ever ends an entry.
  predicate SlotChars(s: string) {
    forall i :: 0 <= i < |s| ==>
      && (IsDigit(s[i]) || s[i] == '.' || s[i] == ',' || IsLower(s[i]))
      && (IsLower(s[i]) && i + 1 < |s| ==> s[i + 1] == ',')
  }

  lemma TextChars(s: Slot)
    requires WellFormed(s)
    ensures Text(s) != [] && IsDigit(Text(s)[0])
    ensures SlotChars(Text(s)) && ',' !in Text(s)
  {
    var t := Text(s);
    match s {
      case Static(name) =>
        var n := DigitRun(name);
        assert name[..n][0] == name[0];
        forall i | 0 <= i < |name|
          ensures IsDigit(name[i]) || name[i] == '.'
        {
          if i < n { assert name[..n][i] == name[i]; }
          else if i > n { assert name[n + 1..][i - n - 1] == name[i]; }
        }
      case Slice(gpu, digits, letter) =>
      case Undotted(digits, letter) =>
    }
  }

  lemma {:induction false} JoinedChars(slots: seq<Slot>)
    requires forall s :: s in slots ==> WellFormed(s)
    ensures SlotChars(Join(Texts(slots), ','))
  {
    if slots != [] {
      TextChars(slots[0]);
      assert Texts(slots)[0] == Text(slots[0]);
      if |slots| > 1 {
        JoinedChars(slots[1..]);
        assert Texts(slots)[1..] == Texts(slots[1..]);
      }
    }
  }

  lemma LowerIsIdentity(s: string)
    requires SlotChars(s)
    ensures Lower("gpu" + s) == "gpu" + s
  {
    var t := "gpu" + s;
    forall i | 0 <= i < |t| ensures Lower(t)[i] == t[i] {
      if i >= 3 { assert t[i] == s[i - 3]; }
    }
  }

  lemma {:induction false} NothingToRemove(s: string)
    requires SlotChars(s)
    ensures RemoveGpu(s) == s
  {
    if |s| >= 3 {
      if s[..3] == "gpu" {
        assert s[0] == s[..3][0] && s[1] == s[..3][1];
        assert IsLower(s[0]);
      }
      assert SlotChars(s[1..]) by {
        assert forall i :: 0 <= i < |s[1..]| ==> s[1..][i] == s[i + 1];
      }
      NothingToRemove(s[1..]);
    }
  }

  lemma {:induction false} ParseTexts(slots: seq<Slot>)
    requires forall s :: s in slots ==> WellFormed(s)
    ensures ParseAll(Texts(slots)) == slots
  {
    if slots != [] {
      NothingToStrip(slots[0]);
      ParseText(slots[0]);
      ParseTexts(slots[1..]);
      assert Texts(slots)[0] == Text(slots[0]) && Texts(slots)[1..] == Texts(slots[1..]);
    }
  }

  lemma NothingToStrip(s: Slot)
    requires WellFormed(s)
    ensures Strip(Text(s)) == Text(s)
  {
    TextChars(s);
    var t := Text(s);
    assert t[|t| - 1] in t && !IsSpace(t[|t| - 1]);
  }

  lemma ParseEntries(slots: seq<Slot>)
    requires forall s :: s in slots ==> WellFormed(s)
    ensures ParseAll(Split(Join(Texts(slots), ','), ',')) == slots
  {
    var texts := Texts(slots);
    if slots != [] {
      forall i | 0 <= i < |texts| ensures ',' !in texts[i] {
        TextChars(slots[i]);
      }
      SplitJoin(texts, ',');
      ParseTexts(slots);
    } else {
      assert ParseSlot(Strip([])) == None;
      assert ParseAll([[]]) == [] + ParseAll([]) == [];
    }
  }

  // The round trip: whatever the daemon's own id, decoding the id built from an allocation gives back
  // exactly the slots encoded in it, in order.
  lemma DecodeWorkerId(own: string, slots: seq<Slot>)
    requires forall s :: s in slots ==> WellFormed(s)
    ensures Decode(WorkerId(own, slots)) == slots
  {
    var texts := Texts(slots);
    var entries := Join(texts, ',');
    var last := "gpu" + entries;
    var parts := Split(own, ':');
    JoinedChars(slots);
    LowerIsIdentity(entries);
    assert ':' !in last by {
      forall i | 0 <= i < |last| ensures last[i] != ':' {
        if i >= 3 { assert last[i] == entries[i - 3]; }
      }
    }
    SplitPartsHaveNoSeparator(own, ':');
    var all := parts[..|parts| - 1] + [last];
    assert forall i :: 0 <= i < |all| ==> ':' !in all[i];
    SplitJoin(all, ':');
    assert RemoveGpu(last) == RemoveGpu(entries) by {
      assert last[..3] == "gpu" && last[3..] == entries;
    }
    NothingToRemove(entries);
    ParseEntries(slots);
  }

  // Two allocations are registered under the same id only if they are the same allocation.
  lemma WorkerIdIsInjective(own: string, a: seq<Slot>, b: seq<Slot>)
    requires forall s :: s in a || s in b ==> WellFormed(s)
    requires WorkerId(own, a) == WorkerId(own, b)
    ensures a == b
  {
    DecodeWorkerId(own, a);
    DecodeWorkerId(own, b);
  }
}
