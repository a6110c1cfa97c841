/**
 The relay between a task's output files and the server: lines read from a file are buffered per source
 and sent together with what earlier sends failed to deliver.
 */
module LogRelay {
  import opened LogEvents
  import opened Sequences

  const BACKSPACE := '\U{8}'

  function Clean(line: string): string {
    if line == [] then []
    else (if line[0] == BACKSPACE then [] else [line[0]]) + Clean(line[1..])
  }

  function CleanAll(lines: seq<string>): (r: seq<string>)
    ensures |r| == |lines| && forall i :: 0 <= i < |lines| ==> r[i] == Clean(lines[i])
  {
    seq(|lines|, i requires 0 <= i < |lines| => Clean(lines[i]))
  }

  lemma {:induction false} CleanIsIdempotent(line: string)
    ensures Clean(Clean(line)) == Clean(line)
    ensures BACKSPACE !in Clean(line)
  {
    if line != [] {
      var rest := Clean(line[1..]);
      CleanIsIdempotent(line[1..]);
      if line[0] == BACKSPACE {
        assert Clean(line) == [] + rest == rest;
      } else {
        assert Clean(line) == [line[0]] + rest;
        assert Clean(line)[0] == line[0] && Clean(line)[1..] == rest;
      }
    }
  }

  // Cleaning takes out the backspaces, and nothing else: it works part by part, keeps every other character and
  // drops a backspace.
  lemma {:induction false} CleanMeaning(a: string, b: string, c: char)
    ensures Clean(a + b) == Clean(a) + Clean(b)
    ensures Clean([c]) == if c == '\U{8}' then [] else [c]
  {
    assert [c][1..] == [];
    if a == [] {
      assert a + b == b && [] + Clean(b) == Clean(b);
    } else {
      assert (a + b)[0] == a[0] && (a + b)[1..] == a[1..] + b;
      CleanMeaning(a[1..], b, c);
      var head := if a[0] == BACKSPACE then [] else [a[0]];
      Reassociate(head, Clean(a[1..]), Clean(b));
    }
  }

  lemma CleanAllIsIdempotent(lines: seq<string>)
    ensures CleanAll(CleanAll(lines)) == CleanAll(lines)
  {
    forall i | 0 <= i < |lines| ensures Clean(Clean(lines[i])) == Clean(lines[i]) {
      CleanIsIdempotent(lines[i]);
    }
  }

  method RemoveBackspaces(lines: seq<string>) returns (cleaned: seq<string>)
    ensures cleaned == CleanAll(lines)
  {
    cleaned := [];
    var left := lines;
    while left != []
      invariant cleaned + CleanAll(left) == CleanAll(lines)
      decreases |left|
    {
      assert CleanAll(left) == [Clean(left[0])] + CleanAll(left[1..]);
      Reassociate(cleaned, [Clean(left[0])], CleanAll(left[1..]));
      cleaned, left := cleaned + [Clean(left[0])], left[1..];
    }
  }

  // ---------------------------------------------------------------- one send

  // The packets of one send of these lines at this time.
  function PacketsOf(lines: seq<string>, base: int, encode: Event -> string): seq<seq<string>> {
    Pack([], Serialised(EventsOf(lines, base, MAX_EVENT_SIZE), encode), MAX_PACKET_SIZE)
  }

  predicate Goes(lines: seq<string>, base: int, encode: Event -> string, reply: nat -> Reply) {
    Delivered(PacketsOf(lines, base, encode), reply, 0) == |PacketsOf(lines, base, encode)|
  }

  // Which events the server registers.
  function EventMarks(lines: seq<string>, base: int, encode: Event -> string, reply: nat -> Reply): (marks: seq<bool>)
    ensures |marks| == |EventsOf(lines, base, MAX_EVENT_SIZE)|
  {
    var packets := PacketsOf(lines, base, encode);
    PackMeaning(Serialised(EventsOf(lines, base, MAX_EVENT_SIZE), encode), MAX_PACKET_SIZE);
    assert packets[0..] == packets;
    Marks(packets, reply, 0)
  }

  // The text the server has from one send.
  function Arrived(lines: seq<string>, base: int, encode: Event -> string, reply: nat -> Reply): string {
    Flatten(Select(Messages(EventsOf(lines, base, MAX_EVENT_SIZE)), EventMarks(lines, base, encode, reply)))
  }

  // Every post returns and the server registers as many events as the packet holds.
  predicate Complete(packets: seq<seq<string>>, reply: nat -> Reply) {
    forall i :: 0 <= i < |packets| ==> reply(i).Added? && Count(packets[i], reply(i)) == |packets[i]|
  }

  // Before the first post that fails, the server registers nothing.
  predicate Silent(packets: seq<seq<string>>, reply: nat -> Reply) {
    forall i :: 0 <= i < Delivered(packets, reply, 0) ==> Count(packets[i], reply(i)) == 0
  }

  // ---------------------------------------------------------------- the relay

  // One source: the lines waiting, the lines of the sends that returned, and the text the server has.
  datatype Channel = Channel(buffer: seq<string>, accepted: seq<string>, text: string)

  // One report to a source (rank line included): the lines, the time and what becomes of the packets.
  datatype Step = Step(lines: seq<string>, base: int, reply: nat -> Reply)

  // The colored rank line put before the lines of one node of a multi-node task.
  function WithRank(lines: seq<string>, rank: string): (r: seq<string>)
    ensures lines == [] ==> r == []
    ensures lines != [] && rank == [] ==> r == lines
    ensures lines != [] && rank != [] ==> |r| == |lines| + 1 && r[0] == rank && r[1..] == lines
  {
    if lines != [] && rank != [] then [rank] + lines else lines
  }

  // A send is a success for the relay when no post fails, however many events the server registered.
  function Report(c: Channel, step: Step, encode: Event -> string, truncating: bool): Channel {
    var all := if truncating then c.buffer + step.lines else step.lines;
    var cleaned := CleanAll(all);
    var goes := Goes(cleaned, step.base, encode, step.reply);
    if all == [] then c
    else
      Channel(
        if !truncating then c.buffer else if goes then [] else cleaned,
        if goes then c.accepted + cleaned else c.accepted,
        c.text + Arrived(cleaned, step.base, encode, step.reply))
  }

  class Relay {
    const truncating: bool
    const poster: Poster
    var buffers: map<string, seq<string>>
    ghost var accepted: map<string, seq<string>>
    ghost var texts: map<string, string>

    ghost predicate Valid() { poster.limit == MAX_PACKET_SIZE }

    ghost function ChannelOf(source: string): Channel reads this {
      Channel(if source in buffers then buffers[source] else [],
              if source in accepted then accepted[source] else [],
              if source in texts then texts[source] else [])
    }

    constructor (truncating: bool)
      ensures Valid() && fresh(poster) && this.truncating == truncating && poster.registered == []
      ensures forall source :: ChannelOf(source) == Channel([], [], [])
    {
      this.truncating := truncating;
      poster := new Poster(MAX_PACKET_SIZE);
      buffers, accepted, texts := map[], map[], map[];
    }

    // Returns the number of lines sent, and the list as the caller finds it: the backspaces are removed
    // in place before the send is tried. How many events the server registered is not looked at.
    method SendLogs(source: string, lines: seq<string>, base: int, encode: Event -> string, reply: nat -> Reply)
      returns (sent: nat, kept: seq<string>)
      requires Valid()
      modifies this`accepted, this`texts, poster
      ensures lines == [] ==>
        sent == 0 && kept == [] && texts == old(texts) && accepted == old(accepted)
        && poster.registered == old(poster.registered)
      ensures lines != [] ==>
        var goes := Goes(CleanAll(lines), base, encode, reply);
        var before := old(ChannelOf(source));
        && kept == CleanAll(lines) && sent == (if goes then |lines| else 0)
        && texts == old(texts)[source := before.text + Arrived(kept, base, encode, reply)]
        && accepted == (if goes then old(accepted)[source := before.accepted + kept] else old(accepted))
        && poster.registered == old(poster.registered)
             + Select(Serialised(EventsOf(kept, base, MAX_EVENT_SIZE), encode), EventMarks(kept, base, encode, reply))
    {
      if lines == [] {
        return 0, [];
      }
      kept := RemoveBackspaces(lines);
      ghost var c := ChannelOf(source);
      var events, r := SendLogEvents(poster, kept, base, encode, reply);
      texts := texts[source := c.text + Arrived(kept, base, encode, reply)];
      if r.Failed? {
        return 0, kept;
      }
      accepted := accepted[source := c.accepted + kept];
      sent := |lines|;
    }

    method ReportLines(source: string, lines: seq<string>, rank: string, base: int, encode: Event -> string,
                       reply: nat -> Reply) returns (sent: nat)
      requires Valid()
      modifies this, poster
      ensures ChannelOf(source)
        == Report(old(ChannelOf(source)), Step(WithRank(lines, rank), base, reply), encode, truncating)
      ensures
        var all := (if truncating then old(ChannelOf(source)).buffer else []) + WithRank(lines, rank);
        sent == if all != [] && Goes(CleanAll(all), base, encode, reply) then |all| else 0
      ensures forall other :: other != source ==> ChannelOf(other) == old(ChannelOf(other))
    {
      var all := WithRank(lines, rank);
      var kept: seq<string>;
      assert [] + all == all;
      if !truncating {
        sent, kept := SendLogs(source, all, base, encode, reply);
        return;
      }
      var buffer := (if source in buffers then buffers[source] else []) + all;
      sent, kept := SendLogs(source, buffer, base, encode, reply);
      buffers := buffers[source := if sent > 0 then kept[sent..] else kept];
    }
  }

  // ---------------------------------------------------------------- runs

  // The state of one source after a run of reports to it.
  function Run(steps: seq<Step>, encode: Event -> string, truncating: bool): Channel {
    if steps == [] then Channel([], [], [])
    else Report(Run(steps[..|steps| - 1], encode, truncating), steps[|steps| - 1], encode, truncating)
  }

  function Reported(steps: seq<Step>): seq<string> {
    if steps == [] then [] else Reported(steps[..|steps| - 1]) + steps[|steps| - 1].lines
  }

  lemma CleanAllConcat(a: seq<string>, b: seq<string>)
    ensures CleanAll(a + b) == CleanAll(a) + CleanAll(b)
  {
  }

  // Whatever sends fail: the lines of the sends that returned and the lines waiting are the lines reported, in
  // order and once each, up to backspaces.
  lemma {:induction false} NothingLostOrRepeated(steps: seq<Step>, encode: Event -> string)
    ensures
      var c := Run(steps, encode, true);
      c.accepted + CleanAll(c.buffer) == CleanAll(Reported(steps))
  {
    if steps != [] {
      var init, last := steps[..|steps| - 1], steps[|steps| - 1];
      var c := Run(init, encode, true);
      NothingLostOrRepeated(init, encode);
      var all := c.buffer + last.lines;
      CleanAllConcat(Reported(init), last.lines);
      CleanAllConcat(c.buffer, last.lines);
      Reassociate(c.accepted, CleanAll(c.buffer), CleanAll(last.lines));
      CleanAllIsIdempotent(all);
      assert c.accepted + CleanAll(all) + [] == c.accepted + CleanAll(all);
      if all == [] {
        assert last.lines == [] && CleanAll(c.buffer) == [];
      }
    }
  }

  // ---------------------------------------------------------------- what one send delivers

  predicate AllTrue(marks: seq<bool>) { forall i :: 0 <= i < |marks| ==> marks[i] }

  predicate NoneTrue(marks: seq<bool>) { forall i :: 0 <= i < |marks| ==> !marks[i] }

  lemma TrueOfBoth(a: seq<bool>, b: seq<bool>)
    ensures AllTrue(a + b) <==> AllTrue(a) && AllTrue(b)
    ensures NoneTrue(a + b) <==> NoneTrue(a) && NoneTrue(b)
  {
    assert forall j :: 0 <= j < |a| ==> (a + b)[j] == a[j];
    assert forall j :: 0 <= j < |b| ==> (a + b)[|a| + j] == b[j];
  }

  // Messages are never empty, so the length of the text tells whether all or none are there.
  lemma {:induction false} SelectText(msgs: seq<string>, marks: seq<bool>)
    requires |msgs| == |marks| && forall i :: 0 <= i < |msgs| ==> msgs[i] != []
    ensures |Flatten(Select(msgs, marks))| <= |Flatten(msgs)|
    ensures |Flatten(Select(msgs, marks))| == |Flatten(msgs)| <==> AllTrue(marks)
    ensures |Flatten(Select(msgs, marks))| == 0 <==> NoneTrue(marks)
  {
    if msgs != [] {
      var more := Select(msgs[1..], marks[1..]);
      SelectText(msgs[1..], marks[1..]);
      assert marks == [marks[0]] + marks[1..];
      TrueOfBoth([marks[0]], marks[1..]);
      assert ([msgs[0]] + more)[1..] == more;
      assert [] + more == more;
    }
  }

  predicate CompleteFrom(packets: seq<seq<string>>, reply: nat -> Reply, i: nat) {
    forall k :: i <= k < |packets| ==> reply(k).Added? && Count(packets[k], reply(k)) == |packets[k]|
  }

  predicate SilentFrom(packets: seq<seq<string>>, reply: nat -> Reply, i: nat)
    requires i <= |packets|
  {
    forall k :: i <= k < Delivered(packets, reply, i) ==> Count(packets[k], reply(k)) == 0
  }

  // Every line of the packets from the i-th on is registered exactly when every post returns with its count.
  lemma {:induction false} MarksAll(packets: seq<seq<string>>, reply: nat -> Reply, i: nat)
    requires i <= |packets| && forall k :: 0 <= k < |packets| ==> packets[k] != []
    ensures AllTrue(Marks(packets, reply, i)) <==> CompleteFrom(packets, reply, i)
    decreases |packets| - i
  {
    if i < |packets| {
      assert packets[i..][0] == packets[i] && packets[i..][1..] == packets[i + 1..];
      if reply(i).Raised? {
        assert !Marks(packets, reply, i)[0];
      } else {
        var head := PacketMarks(|packets[i]|, reply(i));
        MarksAll(packets, reply, i + 1);
        SelectAll(packets[i], head);
        TrueOfBoth(head, Marks(packets, reply, i + 1));
      }
    }
  }

  lemma {:induction false} MarksNone(packets: seq<seq<string>>, reply: nat -> Reply, i: nat)
    requires i <= |packets|
    ensures NoneTrue(Marks(packets, reply, i)) <==> SilentFrom(packets, reply, i)
    decreases |packets| - i
  {
    if i < |packets| && reply(i).Added? {
      var head := PacketMarks(|packets[i]|, reply(i));
      MarksNone(packets, reply, i + 1);
      SelectNone(packets[i], head);
      TrueOfBoth(head, Marks(packets, reply, i + 1));
      assert Count(packets[i], reply(i)) == 0 <==> NoneTrue(head);
    }
  }

  // The server has the whole text of a send exactly when the send is complete, and nothing of it exactly when
  // the server registers nothing.
  lemma ArrivedMeaning(lines: seq<string>, base: int, encode: Event -> string, reply: nat -> Reply)
    ensures
      var packets, text := PacketsOf(lines, base, encode), Arrived(lines, base, encode, reply);
      && |text| <= |Text(lines)|
      && (|text| == |Text(lines)| <==> Complete(packets, reply)) && (Complete(packets, reply) ==> text == Text(lines))
      && (|text| == 0 <==> Silent(packets, reply))
      && (Complete(packets, reply) ==> Goes(lines, base, encode, reply))
  {
    var events := EventsOf(lines, base, MAX_EVENT_SIZE);
    var msgs, marks := Messages(events), EventMarks(lines, base, encode, reply);
    EventsMeaning(lines, base, MAX_EVENT_SIZE);
    BlocksMeaning(Text(lines), MAX_EVENT_SIZE);
    SelectText(msgs, marks);
    SelectAll(msgs, marks);
    EventMarksMeaning(lines, base, encode, reply);
    if Complete(PacketsOf(lines, base, encode), reply) {
      CompleteGoes(PacketsOf(lines, base, encode), reply, 0);
    }
  }

  lemma EventMarksMeaning(lines: seq<string>, base: int, encode: Event -> string, reply: nat -> Reply)
    ensures
      var packets, marks := PacketsOf(lines, base, encode), EventMarks(lines, base, encode, reply);
      (AllTrue(marks) <==> Complete(packets, reply)) && (NoneTrue(marks) <==> Silent(packets, reply))
  {
    var packets := PacketsOf(lines, base, encode);
    PackMeaning(Serialised(EventsOf(lines, base, MAX_EVENT_SIZE), encode), MAX_PACKET_SIZE);
    MarksAll(packets, reply, 0);
    MarksNone(packets, reply, 0);
  }

  lemma {:induction false} CompleteGoes(packets: seq<seq<string>>, reply: nat -> Reply, i: nat)
    requires i <= |packets| && Complete(packets, reply)
    ensures Delivered(packets, reply, i) == |packets|
    decreases |packets| - i
  {
    if i < |packets| { CompleteGoes(packets, reply, i + 1); }
  }

  // ---------------------------------------------------------------- what a run delivers

  // The lines and the packets that the k-th report of a run tries to send.
  function LinesAt(steps: seq<Step>, k: nat, encode: Event -> string): seq<string>
    requires k < |steps|
  {
    CleanAll(Run(steps[..k], encode, true).buffer + steps[k].lines)
  }

  function PacketsAt(steps: seq<Step>, k: nat, encode: Event -> string): seq<seq<string>>
    requires k < |steps|
  {
    PacketsOf(LinesAt(steps, k, encode), steps[k].base, encode)
  }

  predicate GoesAt(steps: seq<Step>, k: nat, encode: Event -> string)
    requires k < |steps|
  {
    Goes(LinesAt(steps, k, encode), steps[k].base, encode, steps[k].reply)
  }

  // No post of a send that goes through registers fewer events than its packet holds.
  predicate NoShortAnswer(steps: seq<Step>, encode: Event -> string) {
    steps == [] ||
    (var n := |steps| - 1;
     && NoShortAnswer(steps[..n], encode)
     && (GoesAt(steps, n, encode) ==> Complete(PacketsAt(steps, n, encode), steps[n].reply)))
  }

  // No post fails after an earlier post of the same send got an event registered.
  predicate NoLateFailure(steps: seq<Step>, encode: Event -> string) {
    steps == [] ||
    (var n := |steps| - 1;
     && NoLateFailure(steps[..n], encode)
     && (!GoesAt(steps, n, encode) ==> Silent(PacketsAt(steps, n, encode), steps[n].reply)))
  }

  // Characters that the server has from failed sends, and characters it lacks from the others.
  function Repeated(steps: seq<Step>, encode: Event -> string): nat {
    if steps == [] then 0
    else
      var n := |steps| - 1;
      Repeated(steps[..n], encode) + (if GoesAt(steps, n, encode) then 0 else |ArrivedAt(steps, n, encode)|)
  }

  function Missing(steps: seq<Step>, encode: Event -> string): int {
    if steps == [] then 0
    else
      var n := |steps| - 1;
      Missing(steps[..n], encode)
      + (if GoesAt(steps, n, encode) then |Text(LinesAt(steps, n, encode))| - |ArrivedAt(steps, n, encode)| else 0)
  }

  function ArrivedAt(steps: seq<Step>, k: nat, encode: Event -> string): string
    requires k < |steps|
  {
    Arrived(LinesAt(steps, k, encode), steps[k].base, encode, steps[k].reply)
  }

  lemma NothingToSend(base: int, encode: Event -> string, reply: nat -> Reply)
    ensures PacketsOf([], base, encode) == [] && Goes([], base, encode, reply) && Arrived([], base, encode, reply) == []
  {
    EventsMeaning([], base, MAX_EVENT_SIZE);
    assert |Messages(EventsOf([], base, MAX_EVENT_SIZE))| == 0;
    ArrivedMeaning([], base, encode, reply);
  }

  // One more report: also when there is nothing to send.
  lemma LastReport(steps: seq<Step>, encode: Event -> string)
    requires steps != []
    ensures
      var n := |steps| - 1;
      var before, c, lines := Run(steps[..n], encode, true), Run(steps, encode, true), LinesAt(steps, n, encode);
      && c.text == before.text + ArrivedAt(steps, n, encode)
      && c.accepted == before.accepted + (if GoesAt(steps, n, encode) then lines else [])
  {
    var n := |steps| - 1;
    var before, last := Run(steps[..n], encode, true), steps[n];
    if before.buffer + last.lines == [] {
      assert LinesAt(steps, n, encode) == [];
      NothingToSend(last.base, encode, last.reply);
    }
  }

  // The balance: what the server has and lacks adds up.
  lemma {:induction false} TextBalance(steps: seq<Step>, encode: Event -> string)
    ensures
      var c := Run(steps, encode, true);
      && |c.text| == |Text(c.accepted)| + Repeated(steps, encode) - Missing(steps, encode)
      && Missing(steps, encode) >= 0
      && (Missing(steps, encode) == 0 <==> NoShortAnswer(steps, encode))
      && (Repeated(steps, encode) == 0 <==> NoLateFailure(steps, encode))
      && (NoShortAnswer(steps, encode) && NoLateFailure(steps, encode) ==> c.text == Text(c.accepted))
  {
    if steps != [] {
      var n := |steps| - 1;
      var before, lines := Run(steps[..n], encode, true), LinesAt(steps, n, encode);
      TextBalance(steps[..n], encode);
      LastReport(steps, encode);
      ArrivedMeaning(lines, steps[n].base, encode, steps[n].reply);
      TextMeaning(before.accepted, if GoesAt(steps, n, encode) then lines else [], []);
      assert before.text + [] == before.text;
    }
  }

  ghost predicate EveryTextOnce(steps: seq<Step>, encode: Event -> string) {
    var c := Run(steps, encode, true);
    c.text + Text(CleanAll(c.buffer)) == Text(CleanAll(Reported(steps)))
  }

  // The text at the server followed by the text waiting is the text reported when no send that goes through is
  // registered short and no failed one has got an event registered. With only one of the two faults it never is;
  // with both, what is lacking must be as long as what is repeated.
  lemma TextExactlyOnce(steps: seq<Step>, encode: Event -> string)
    ensures NoShortAnswer(steps, encode) && NoLateFailure(steps, encode) ==> EveryTextOnce(steps, encode)
    ensures NoShortAnswer(steps, encode) != NoLateFailure(steps, encode) ==> !EveryTextOnce(steps, encode)
    ensures EveryTextOnce(steps, encode) ==> Repeated(steps, encode) == Missing(steps, encode)
  {
    var c := Run(steps, encode, true);
    NothingLostOrRepeated(steps, encode);
    TextMeaning(c.accepted, CleanAll(c.buffer), []);
    TextBalance(steps, encode);
  }

  // ---------------------------------------------------------------- without the buffer

  // When the files are not truncated nothing is sent again, so the server has the text reported exactly when
  // every send is complete.
  lemma {:induction false} UnbufferedExactlyWhenComplete(steps: seq<Step>, encode: Event -> string)
    ensures |Run(steps, encode, false).text| <= |Text(CleanAll(Reported(steps)))|
    ensures Run(steps, encode, false).text == Text(CleanAll(Reported(steps))) <==> EachComplete(steps, encode)
  {
    if steps != [] {
      var n := |steps| - 1;
      var lines := CleanAll(steps[n].lines);
      UnbufferedExactlyWhenComplete(steps[..n], encode);
      UnbufferedReport(steps, encode);
      ArrivedMeaning(lines, steps[n].base, encode, steps[n].reply);
      ShorterParts(Run(steps[..n], encode, false).text, Text(CleanAll(Reported(steps[..n]))),
                   Arrived(lines, steps[n].base, encode, steps[n].reply), Text(lines));
    }
  }

  // Every post of every report returns and registers its packet in full.
  predicate EachComplete(steps: seq<Step>, encode: Event -> string) {
    steps == [] ||
    (var n := |steps| - 1;
     && EachComplete(steps[..n], encode)
     && Complete(PacketsOf(CleanAll(steps[n].lines), steps[n].base, encode), steps[n].reply))
  }

  lemma UnbufferedReport(steps: seq<Step>, encode: Event -> string)
    requires steps != []
    ensures
      var n := |steps| - 1;
      var last, lines := steps[n], CleanAll(steps[n].lines);
      && Run(steps, encode, false).text ==
           Run(steps[..n], encode, false).text + Arrived(lines, last.base, encode, last.reply)
      && Text(CleanAll(Reported(steps))) == Text(CleanAll(Reported(steps[..n]))) + Text(lines)
  {
    var n := |steps| - 1;
    CleanAllConcat(Reported(steps[..n]), steps[n].lines);
    TextMeaning(CleanAll(Reported(steps[..n])), CleanAll(steps[n].lines), []);
    if steps[n].lines == [] { NothingToSend(steps[n].base, encode, steps[n].reply); }
  }

  lemma ShorterParts(a: string, aa: string, b: string, bb: string)
    requires |a| <= |aa| && |b| <= |bb|
    ensures a + b == aa + bb <==> a == aa && b == bb
  {
    if a + b == aa + bb {
      assert |a + b| == |a| + |b|;
      assert a == (a + b)[..|a|] && aa == (aa + bb)[..|aa|] && b == (a + b)[|a|..] && bb == (aa + bb)[|aa|..];
    }
  }

  // ---------------------------------------------------------------- failed sends

  lemma {:induction false} FlattenConcat(a: seq<string>, b: seq<string>)
    ensures Flatten(a + b) == Flatten(a) + Flatten(b)
  {
    if a == [] {
      assert a + b == b;
    } else {
      assert (a + b)[1..] == a[1..] + b;
      FlattenConcat(a[1..], b);
    }
  }

  lemma {:induction false} SelectFirst<T>(s: seq<T>, marks: seq<bool>, m: nat)
    requires |s| == |marks| && m <= |s| && forall j :: 0 <= j < |marks| ==> (marks[j] <==> j < m)
    ensures Select(s, marks) == s[..m]
  {
    if s != [] {
      assert forall j :: 1 <= j < |marks| ==> marks[1..][j - 1] == marks[j];
      if m > 0 {
        SelectFirst(s[1..], marks[1..], m - 1);
        assert s[..m] == [s[0]] + s[1..][..m - 1];
      } else {
        SelectFirst(s[1..], marks[1..], 0);
      }
    }
  }

  lemma {:induction false} FirstMarks(packets: seq<seq<string>>, reply: nat -> Reply, i: nat) returns (m: nat)
    requires i <= |packets|
    requires forall k :: i <= k < Delivered(packets, reply, i) ==> Count(packets[k], reply(k)) == |packets[k]|
    ensures m <= |Marks(packets, reply, i)|
    ensures forall j :: 0 <= j < |Marks(packets, reply, i)| ==> (Marks(packets, reply, i)[j] <==> j < m)
    decreases |packets| - i
  {
    m := 0;
    if i < |packets| && reply(i).Added? {
      var head := PacketMarks(|packets[i]|, reply(i));
      var rest := FirstMarks(packets, reply, i + 1);
      SelectAll(packets[i], head);
      m := |packets[i]| + rest;
    }
  }

  // If the posts before the failing one were registered in full, the server has the first characters of the
  // text and nothing else.
  lemma FailedSendDeliversPrefix(lines: seq<string>, base: int, encode: Event -> string, reply: nat -> Reply)
    requires
      var packets := PacketsOf(lines, base, encode);
      forall k :: 0 <= k < Delivered(packets, reply, 0) ==> Count(packets[k], reply(k)) == |packets[k]|
    ensures Arrived(lines, base, encode, reply) <= Text(lines)
  {
    var msgs := Messages(EventsOf(lines, base, MAX_EVENT_SIZE));
    EventsMeaning(lines, base, MAX_EVENT_SIZE);
    BlocksMeaning(Text(lines), MAX_EVENT_SIZE);
    var m := FirstMarks(PacketsOf(lines, base, encode), reply, 0);
    SelectFirst(msgs, EventMarks(lines, base, encode, reply), m);
    FlattenConcat(msgs[..m], msgs[m..]);
    assert msgs[..m] + msgs[m..] == msgs;
  }

  // ---------------------------------------------------------------- three runs

  // The line is sent as two packets of one event each, with x and y as their texts.
  ghost predicate TwoPackets(line: string, x: string, y: string, encode: Event -> string) {
    var packets := PacketsOf([line], 0, encode);
    && CleanAll([line]) == [line] && line == x + y
    && Messages(EventsOf([line], 0, MAX_EVENT_SIZE)) == [x, y]
    && |packets| == 2 && |packets[0]| == 1 && |packets[1]| == 1
  }

  predicate First(reply: Reply) { reply.Added? && 0 in reply.which }

  lemma MarksOfTwo(packets: seq<seq<string>>, reply: nat -> Reply)
    requires |packets| == 2 && |packets[0]| == 1 && |packets[1]| == 1
    ensures packets[0..] == packets && |Marks(packets, reply, 0)| == 2
    ensures Marks(packets, reply, 0)[0] == First(reply(0))
    ensures Marks(packets, reply, 0)[1] == (reply(0).Added? && First(reply(1)))
    ensures Delivered(packets, reply, 0) == if reply(0).Raised? then 0 else if reply(1).Raised? then 1 else 2
  {
    assert packets[1..][1..] == [] && packets[0..] == packets;
    assert Unpack(packets[1..]) == packets[1] + [] && Unpack(packets) == packets[0] + Unpack(packets[1..]);
    assert Marks(packets, reply, 2) == [];
    assert |Marks(packets, reply, 1)| == 1 && Marks(packets, reply, 1)[0] == First(reply(1));
    assert Delivered(packets, reply, 2) == 2;
    assert Delivered(packets, reply, 1) == if reply(1).Raised? then 1 else 2;
  }

  lemma SelectTwo(a: string, b: string, marks: seq<bool>)
    requires |marks| == 2
    ensures Flatten(Select([a, b], marks)) == (if marks[0] then a else []) + (if marks[1] then b else [])
  {
    assert [a, b][1..] == [b] && [b][1..] == [] && [a][1..] == [] && marks[1..][1..] == [];
    assert Select([b], marks[1..]) == (if marks[1] then [b] else []) + [];
    assert Flatten([b]) == b + [] == b && Flatten([a]) == a + [] == a;
    assert marks[0] && marks[1] ==> Select([a, b], marks) == [a, b] && Flatten([a, b]) == a + Flatten([b]);
    assert marks[0] && !marks[1] ==> Select([a, b], marks) == [a];
    assert !marks[0] && marks[1] ==> Select([a, b], marks) == [b];
  }

  // What the server has of the line, depending on what becomes of its two packets.
  lemma LineArrives(line: string, x: string, y: string, encode: Event -> string, reply: nat -> Reply)
    requires TwoPackets(line, x, y, encode)
    ensures Goes([line], 0, encode, reply) <==> reply(0).Added? && reply(1).Added?
    ensures Arrived([line], 0, encode, reply) ==
      (if First(reply(0)) then x else []) + (if reply(0).Added? && First(reply(1)) then y else [])
  {
    MarksOfTwo(PacketsOf([line], 0, encode), reply);
    SelectTwo(x, y, EventMarks([line], 0, encode, reply));
  }

  // The line is reported, its send fails, and a later report with nothing new sends it again.
  function Retry(line: string, first: nat -> Reply, second: nat -> Reply): seq<Step> {
    [Step([line], 0, first)] + [Step([], 0, second)]
  }

  lemma RunSnoc(steps: seq<Step>, last: Step, encode: Event -> string)
    ensures Run(steps + [last], encode, true) == Report(Run(steps, encode, true), last, encode, true)
    ensures Reported(steps + [last]) == Reported(steps) + last.lines
  {
    assert (steps + [last])[..|steps|] == steps;
  }

  lemma RetryMeaning(
      line: string, x: string, y: string, encode: Event -> string, first: nat -> Reply, second: nat -> Reply)
    requires TwoPackets(line, x, y, encode)
    requires first(0).Added? && first(1).Raised? && second(0).Added? && second(1).Added?
    ensures Reported(Retry(line, first, second)) == [line]
    ensures
      var c := Run(Retry(line, first, second), encode, true);
      && c.buffer == []
      && c.text == Arrived([line], 0, encode, first) + Arrived([line], 0, encode, second)
  {
    LineArrives(line, x, y, encode, first);
    LineArrives(line, x, y, encode, second);
    var one := Step([line], 0, first);
    RunSnoc([], one, encode);
    assert [] + [one] == [one] && [] + [line] == [line] && [line] + [] == [line];
    RunSnoc([one], Step([], 0, second), encode);
    assert Run([one], encode, true).buffer == [line];
    assert Run([one], encode, true).text == [] + Arrived([line], 0, encode, first) == Arrived([line], 0, encode, first);
  }

  // Such a line: two full blocks, written with twelve characters for each one.
  function Escaped(e: Event): string { seq(12 * |e.msg|, _ => 'u') }

  function Block(): string { seq(MAX_EVENT_SIZE, _ => 'a') }

  lemma {:induction false} CleanNothing(line: string)
    requires BACKSPACE !in line
    ensures Clean(line) == line
  {
    if line != [] {
      CleanNothing(line[1..]);
    }
  }

  lemma TwoWidePackets(a: string, b: string)
    requires |a| == |b| == 12 * MAX_EVENT_SIZE
    ensures Pack([], [a, b], MAX_PACKET_SIZE) == [[a], [b]]
  {
    assert [a, b][1..] == [b] && [b][1..] == [] && [] + [a] == [a];
    PackAbsorbs([], [a, b], MAX_PACKET_SIZE);
    assert Charge([a]) == Charge([] + [a]) == 12 * MAX_EVENT_SIZE + 1;
    assert Pack([b], [], MAX_PACKET_SIZE) == [[b]];
    assert Pack([a], [b], MAX_PACKET_SIZE) == [[a]] + [[b]];
  }

  lemma WideBlocks()
    ensures TwoPackets(Block() + Block(), Block(), Block(), Escaped) && Bounded(Escaped)
  {
    var line := Block() + Block();
    CleanNothing(line);
    assert [line][1..] == [] && line + [] == line && |line| > |RESET|;
    EventsMeaning([line], 0, MAX_EVENT_SIZE);
    BlocksCons(Block(), Block(), MAX_EVENT_SIZE);
    assert Text([line]) == line && Blocks(Block(), MAX_EVENT_SIZE) == [Block()];
    var events := EventsOf([line], 0, MAX_EVENT_SIZE);
    assert Messages(events) == [Block()] + [Block()];
    assert |events| == |Messages(events)| == 2;
    assert events[0].msg == Messages(events)[0] && events[1].msg == Messages(events)[1];
    var sent := Serialised(events, Escaped);
    assert sent == [sent[0], sent[1]];
    TwoWidePackets(sent[0], sent[1]);
  }

  // A post that fails after another of the same send: the text of the earlier one comes twice.
  lemma LateFailureRepeats(first: nat -> Reply, second: nat -> Reply)
    requires First(first(0)) && first(1).Raised? && First(second(0)) && First(second(1))
    ensures
      var line := Block() + Block();
      var c := Run(Retry(line, first, second), Escaped, true);
      Reported(Retry(line, first, second)) == [line] && c.buffer == [] && c.text == Block() + line
  {
    var line := Block() + Block();
    WideBlocks();
    RetryMeaning(line, Block(), Block(), Escaped, first, second);
    LineArrives(line, Block(), Block(), Escaped, first);
    LineArrives(line, Block(), Block(), Escaped, second);
    assert Block() + [] == Block();
  }

  // The two faults together: what an answered post leaves out, the failed send had got through.
  lemma FaultsCancel(first: nat -> Reply, second: nat -> Reply)
    requires First(first(0)) && first(1).Raised? && second(0) == Added({}) && First(second(1))
    ensures
      var line := Block() + Block();
      var c := Run(Retry(line, first, second), Escaped, true);
      Reported(Retry(line, first, second)) == [line] && c.buffer == [] && c.text == line
  {
    var line := Block() + Block();
    WideBlocks();
    RetryMeaning(line, Block(), Block(), Escaped, first, second);
    LineArrives(line, Block(), Block(), Escaped, first);
    LineArrives(line, Block(), Block(), Escaped, second);
    assert Block() + [] == Block() && [] + Block() == Block();
  }

  // If every post returns and registers nothing, the lines are gone although no send failed.
  lemma ShortAnswerLoses(lines: seq<string>, base: int, encode: Event -> string, reply: nat -> Reply)
    requires lines != [] && forall i :: reply(i) == Added({})
    ensures
      var c := Run([Step(lines, base, reply)], encode, true);
      c.buffer == [] && c.text == [] && c.accepted == CleanAll(lines)
  {
    var last := Step(lines, base, reply);
    RunSnoc([], last, encode);
    assert [] + [last] == [last] && [] + lines == lines && [] + CleanAll(lines) == CleanAll(lines);
    var packets := PacketsOf(CleanAll(lines), base, encode);
    AllReturn(packets, reply, 0);
    forall i | 0 <= i < |packets| ensures Count(packets[i], reply(i)) == 0 {
      SelectNone(packets[i], PacketMarks(|packets[i]|, reply(i)));
    }
    ArrivedMeaning(CleanAll(lines), base, encode, reply);
  }

  lemma {:induction false} AllReturn(packets: seq<seq<string>>, reply: nat -> Reply, i: nat)
    requires i <= |packets| && forall k :: reply(k).Added?
    ensures Delivered(packets, reply, i) == |packets|
    decreases |packets| - i
  {
    if i < |packets| { AllReturn(packets, reply, i + 1); }
  }
}
