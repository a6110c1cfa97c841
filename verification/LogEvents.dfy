/**
 How log lines become events and events become packets.

 The text of all lines is cut into messages of a fixed size without regard to line boundaries, every
 message becomes one event, and the serialised events are packed greedily into packets of bounded size.
 */
module LogEvents {
  import opened Sequences

  const MAX_PACKET_SIZE: nat := 1024 * 1024
  const MAX_EVENT_SIZE: nat := 64 * 1024

  // The terminal reset code, which is never logged.
  const RESET: string := "\U{1B}[0m"

  datatype Event = Event(msg: string, timestamp: int)

  // ---------------------------------------------------------------- messages

  function Text(lines: seq<string>): string {
    if lines == [] then [] else (if lines[0] == RESET then [] else lines[0]) + Text(lines[1..])
  }

  // The text of lines is put together line by line; only the reset code is left out.
  lemma {:induction false} TextMeaning(a: seq<string>, b: seq<string>, line: string)
    ensures Text(a + b) == Text(a) + Text(b)
    ensures Text([line]) == if line == "\U{1B}[0m" then [] else line
  {
    assert [line][1..] == [] && line + [] == line;
    if a == [] {
      assert a + b == b && [] + Text(b) == Text(b);
    } else {
      assert (a + b)[0] == a[0] && (a + b)[1..] == a[1..] + b;
      TextMeaning(a[1..], b, line);
      Reassociate(if a[0] == RESET then [] else a[0], Text(a[1..]), Text(b));
    }
  }

  // The blocks of n characters of a text; the last one may be shorter.
  function Blocks(t: string, n: nat): seq<string>
    requires n > 0
    decreases |t|
  {
    if t == [] then [] else if |t| <= n then [t] else [t[..n]] + Blocks(t[n..], n)
  }

  function Messages(events: seq<Event>): (msgs: seq<string>)
    ensures |msgs| == |events| && forall i :: 0 <= i < |events| ==> msgs[i] == events[i].msg
  {
    seq(|events|, i requires 0 <= i < |events| => events[i].msg)
  }

  function Flatten(parts: seq<string>): string {
    if parts == [] then [] else parts[0] + Flatten(parts[1..])
  }

  // Cutting loses and invents nothing, and only the last block may be short: for a given text there is
  // no other way to cut it so.
  lemma {:induction false} BlocksMeaning(t: string, n: nat)
    requires n > 0
    ensures
      var b := Blocks(t, n);
      && Flatten(b) == t
      && (forall i :: 0 <= i < |b| ==> 1 <= |b[i]| <= n)
      && (forall i :: 0 <= i < |b| - 1 ==> |b[i]| == n)
    decreases |t|
  {
    if |t| > n {
      var rest := Blocks(t[n..], n);
      BlocksMeaning(t[n..], n);
      ConsBlock(t[..n], rest, n);
      assert t[..n] + t[n..] == t;
    } else if t != [] {
      assert [t][1..] == [];
    }
  }

  lemma ConsBlock(block: string, rest: seq<string>, n: nat)
    requires |block| == n > 0 && rest != []
    requires forall i :: 0 <= i < |rest| ==> 1 <= |rest[i]| <= n
    requires forall i :: 0 <= i < |rest| - 1 ==> |rest[i]| == n
    ensures
      var b := [block] + rest;
      && Flatten(b) == block + Flatten(rest)
      && (forall i :: 0 <= i < |b| ==> 1 <= |b[i]| <= n)
      && (forall i :: 0 <= i < |b| - 1 ==> |b[i]| == n)
  {
    assert ([block] + rest)[1..] == rest;
  }

  lemma {:induction false} BlocksUnique(b: seq<string>, n: nat)
    requires n > 0
    requires forall i :: 0 <= i < |b| ==> 1 <= |b[i]| <= n
    requires forall i :: 0 <= i < |b| - 1 ==> |b[i]| == n
    ensures Blocks(Flatten(b), n) == b
  {
    if b != [] {
      BlocksUnique(b[1..], n);
      if |b| > 1 {
        assert Flatten(b[1..]) != [] by {
          assert b[1..][0] == b[1];
        }
        assert Flatten(b)[..n] == b[0] && Flatten(b)[n..] == Flatten(b[1..]);
      } else {
        assert b[1..] == [] && Flatten(b) == b[0];
      }
    }
  }

  // A text that starts with a full block is cut there first.
  lemma BlocksCons(block: string, rest: string, n: nat)
    requires n > 0 && |block| == n
    ensures Blocks(block + rest, n) == [block] + Blocks(rest, n)
  {
    if rest == [] {
      assert block + rest == block;
    } else {
      assert (block + rest)[..n] == block && (block + rest)[n..] == rest;
    }
  }

  predicate Increasing(events: seq<Event>) {
    forall i, j :: 0 <= i < j < |events| ==> events[i].timestamp < events[j].timestamp
  }

  // The messages still to come: the open message, the rest of the current line, and the lines after it.
  function Rest(msg: string, l: string, left: seq<string>, size: nat): seq<string>
    requires size > 0
  {
    Blocks(msg + l + Text(left), size)
  }

  lemma NextLine(msg: string, left: seq<string>, size: nat)
    requires size > 0 && left != []
    ensures Rest(msg, [], left, size) == Rest(msg, if left[0] == RESET then [] else left[0], left[1..], size)
  {
    var l := if left[0] == RESET then [] else left[0];
    assert msg + [] + Text(left) == msg + l + Text(left[1..]);
  }

  lemma Absorb(msg: string, l: string, left: seq<string>, size: nat)
    requires size > 0
    ensures Rest(msg, l, left, size) == Rest(msg + l, [], left, size)
  {
    assert msg + l + Text(left) == (msg + l) + [] + Text(left);
  }

  lemma Cut(msg: string, l: string, left: seq<string>, size: nat)
    requires |msg| < size <= |msg| + |l|
    ensures
      var k := size - |msg|;
      Rest(msg, l, left, size) == [msg + l[..k]] + Rest([], l[k..], left, size)
  {
    var k := size - |msg|;
    var rest := [] + l[k..] + Text(left);
    assert msg + l + Text(left) == (msg + l[..k]) + rest;
    BlocksCons(msg + l[..k], rest, size);
  }

  lemma LastMessage(msg: string, size: nat)
    requires |msg| < size
    ensures Rest(msg, [], [], size) == if msg == [] then [] else [msg]
  {
    assert msg + [] + Text([]) == msg;
  }

  // The events still to come: the open message, the rest of the current line, and the lines after it. The
  // count goes up with every piece of a line, so the timestamps depend on the line boundaries.
  function EventsFrom(msg: string, l: string, left: seq<string>, base: int, count: nat, size: nat): seq<Event>
    requires |msg| < size
    decreases |left|, |l|
  {
    if l != [] then
      if |msg| + |l| < size then EventsFrom(msg + l, [], left, base, count + 1, size)
      else
        var k := size - |msg|;
        [Event(msg + l[..k], base + count)] + EventsFrom([], l[k..], left, base, count + 1, size)
    else if left != [] then
      EventsFrom(msg, if left[0] == RESET then [] else left[0], left[1..], base, count, size)
    else if msg != [] then [Event(msg, base + count)]
    else []
  }

  function EventsOf(lines: seq<string>, base: int, size: nat): seq<Event>
    requires size > 0
  {
    EventsFrom([], [], lines, base, 0, size)
  }

  lemma {:induction false} EventsFromMeaning(
      msg: string, l: string, left: seq<string>, base: int, count: nat, size: nat)
    requires |msg| < size
    ensures
      var events := EventsFrom(msg, l, left, base, count, size);
      && Messages(events) == Rest(msg, l, left, size)
      && Increasing(events) && forall i :: 0 <= i < |events| ==> base + count <= events[i].timestamp
    decreases |left|, |l|
  {
    if l != [] {
      if |msg| + |l| < size {
        Absorb(msg, l, left, size);
        EventsFromMeaning(msg + l, [], left, base, count + 1, size);
      } else {
        var k := size - |msg|;
        Cut(msg, l, left, size);
        EventsFromMeaning([], l[k..], left, base, count + 1, size);
        ConsEvent(Event(msg + l[..k], base + count), EventsFrom([], l[k..], left, base, count + 1, size));
      }
    } else if left != [] {
      NextLine(msg, left, size);
      EventsFromMeaning(msg, if left[0] == RESET then [] else left[0], left[1..], base, count, size);
    } else {
      LastMessage(msg, size);
    }
  }

  lemma ConsEvent(e: Event, rest: seq<Event>)
    requires Increasing(rest) && forall i :: 0 <= i < |rest| ==> e.timestamp < rest[i].timestamp
    ensures Increasing([e] + rest) && Messages([e] + rest) == [e.msg] + Messages(rest)
    ensures forall i :: 0 <= i < |[e] + rest| ==> e.timestamp <= ([e] + rest)[i].timestamp
  {
  }

  // The messages are the blocks of the text: they depend on the text only, and where the line boundaries fall
  // makes no difference.
  lemma EventsMeaning(lines: seq<string>, base: int, size: nat)
    requires size > 0
    ensures
      var events := EventsOf(lines, base, size);
      && Messages(events) == Blocks(Text(lines), size)
      && (forall i, j :: 0 <= i < j < |events| ==> events[i].timestamp < events[j].timestamp)
      && Increasing(events) && forall i :: 0 <= i < |events| ==> base <= events[i].timestamp
  {
    EventsFromMeaning([], [], lines, base, 0, size);
    assert [] + [] + Text(lines) == Text(lines);
  }

  // The chunking loops of send_log_events.
  method Chunk(lines: seq<string>, base: int, size: nat) returns (events: seq<Event>)
    requires size > 0
    ensures events == EventsOf(lines, base, size)
    ensures Messages(events) == Blocks(Text(lines), size)
    ensures Increasing(events) && forall i :: 0 <= i < |events| ==> base <= events[i].timestamp
  {
    events := [];
    var msg: string, count: nat := [], 0;
    var left := lines;
    while left != []
      invariant |msg| < size
      invariant events + EventsFrom(msg, [], left, base, count, size) == EventsOf(lines, base, size)
      decreases |left|
    {
      var l := left[0];
      left := left[1..];
      if l == RESET {
        continue;
      }
      while l != []
        invariant |msg| < size
        invariant events + EventsFrom(msg, l, left, base, count, size) == EventsOf(lines, base, size)
        decreases |l|
      {
        if |msg| + |l| < size {
          msg, l := msg + l, [];
        } else {
          var leftOver := size - |msg|;
          var e := Event(msg + l[..leftOver], base + count);
          Reassociate(events, [e], EventsFrom([], l[leftOver..], left, base, count + 1, size));
          events := events + [e];
          msg, l := [], l[leftOver..];
        }
        count := count + 1;
      }
    }
    if msg != [] {
      events := events + [Event(msg, base + count)];
    } else {
      assert events + [] == events;
    }
    EventsMeaning(lines, base, size);
  }

  // ---------------------------------------------------------------- lines with their own timestamps

  datatype Stamp = NoStamp | At(ts: int)
  datatype StampedLine = StampedLine(ts: Stamp, text: string)
  datatype StampedEvent = StampedEvent(msg: string, ts: Stamp)

  function Later(ts: Stamp, k: nat): Stamp {
    if ts.NoStamp? then NoStamp else At(ts.ts + k)
  }

  function Stamped(blocks: seq<string>, ts: Stamp): (r: seq<StampedEvent>)
    ensures |r| == |blocks| && forall i :: 0 <= i < |blocks| ==> r[i] == StampedEvent(blocks[i], Later(ts, i))
  {
    seq(|blocks|, i requires 0 <= i < |blocks| => StampedEvent(blocks[i], Later(ts, i)))
  }

  // Each line is cut on its own; its blocks are stamped one after another.
  function StampedBlocks(lines: seq<StampedLine>, size: nat): seq<StampedEvent>
    requires size > 0
  {
    if lines == [] then []
    else
      (if lines[0].text == RESET then [] else Stamped(Blocks(lines[0].text, size), lines[0].ts))
      + StampedBlocks(lines[1..], size)
  }

  lemma {:induction false} StampedConcat(a: seq<StampedLine>, b: seq<StampedLine>, size: nat)
    requires size > 0
    ensures StampedBlocks(a + b, size) == StampedBlocks(a, size) + StampedBlocks(b, size)
  {
    if a == [] {
      assert a + b == b && [] + StampedBlocks(b, size) == StampedBlocks(b, size);
    } else {
      assert (a + b)[0] == a[0] && (a + b)[1..] == a[1..] + b;
      StampedConcat(a[1..], b, size);
      Reassociate(if a[0].text == RESET then [] else Stamped(Blocks(a[0].text, size), a[0].ts),
                  StampedBlocks(a[1..], size), StampedBlocks(b, size));
    }
  }

  // Lines are cut one by one; the reset code gives nothing, and the i-th block of any other line is stamped i later
  // than the line, if that has a timestamp.
  lemma StampedMeaning(a: seq<StampedLine>, line: StampedLine, b: seq<StampedLine>, size: nat)
    requires size > 0
    ensures StampedBlocks(a + [line] + b, size)
      == StampedBlocks(a, size) + StampedBlocks([line], size) + StampedBlocks(b, size)
    ensures
      var events := StampedBlocks([line], size);
      if line.text == "\U{1B}[0m" then events == []
      else
        && |events| == |Blocks(line.text, size)|
        && forall i :: 0 <= i < |events| ==>
             && events[i].msg == Blocks(line.text, size)[i]
             && events[i].ts == if line.ts.At? then At(line.ts.ts + i) else NoStamp
  {
    assert [line][1..] == [];
    var own := if line.text == RESET then [] else Stamped(Blocks(line.text, size), line.ts);
    assert own + [] == own;
    StampedConcat(a + [line], b, size);
    StampedConcat(a, [line], size);
  }

  // One turn of the inner loop: the block cut off, what is left of the line, and the next timestamp.
  lemma StampedStep(line: string, ts: Stamp, size: nat)
    requires size > 0 && line != []
    ensures
      var msg := if |line| <= size then line else line[..size];
      var rest := if |line| <= size then [] else line[size..];
      var next := if rest != [] then Later(ts, 1) else ts;
      Stamped(Blocks(line, size), ts) == [StampedEvent(msg, ts)] + Stamped(Blocks(rest, size), next)
  {
    if |line| > size {
      assert line[..size] + line[size..] == line;
      BlocksCons(line[..size], line[size..], size);
      StampedCons(line[..size], Blocks(line[size..], size), ts);
    } else {
      StampedCons(line, [], ts);
      assert Stamped([], Later(ts, 1)) == [] == Stamped([], ts);
    }
  }

  lemma StampedCons(block: string, rest: seq<string>, ts: Stamp)
    ensures Stamped([block] + rest, ts) == [StampedEvent(block, ts)] + Stamped(rest, Later(ts, 1))
  {
  }

  method ChunkStamped(lines: seq<StampedLine>, size: nat) returns (events: seq<StampedEvent>)
    requires size > 0
    ensures events == StampedBlocks(lines, size)
  {
    events := [];
    var left := lines;
    while left != []
      invariant events + StampedBlocks(left, size) == StampedBlocks(lines, size)
      decreases |left|
    {
      var ts, line := left[0].ts, left[0].text;
      left := left[1..];
      ghost var after := StampedBlocks(left, size);
      assert [] + after == after;
      if line == RESET {
        continue;
      }
      while line != []
        invariant events + (Stamped(Blocks(line, size), ts) + after) == StampedBlocks(lines, size)
        decreases |line|
      {
        StampedStep(line, ts, size);
        var msg: string;
        if |line| <= size {
          msg, line := line, [];
        } else {
          msg, line := line[..size], line[size..];
        }
        ghost var stamp := ts;
        events := events + [StampedEvent(msg, ts)];
        if line != [] && ts.At? {
          ts := At(ts.ts + 1);
        }
        Reassociate([StampedEvent(msg, stamp)], Stamped(Blocks(line, size), ts), after);
        Reassociate(events[..|events| - 1], [StampedEvent(msg, stamp)], Stamped(Blocks(line, size), ts) + after);
        assert events[..|events| - 1] + [StampedEvent(msg, stamp)] == events;
      }
    }
  }

  // ---------------------------------------------------------------- packets

  // What a packet is charged for: every line with its separator.
  function Charge(packet: seq<string>): nat {
    if packet == [] then 0 else |packet[0]| + 1 + Charge(packet[1..])
  }

  // '\n'.join(lines)
  function Body(packet: seq<string>): string { Join(packet, '\n') }

  lemma {:induction false} BodyLength(packet: seq<string>)
    requires packet != []
    ensures |Body(packet)| + 1 == Charge(packet)
  {
    if |packet| > 1 {
      BodyLength(packet[1..]);
    } else {
      assert packet[1..] == [];
    }
  }

  lemma {:induction false} ChargeSnoc(packet: seq<string>, line: string)
    ensures Charge(packet + [line]) == Charge(packet) + |line| + 1
  {
    if packet == [] {
      assert ([] + [line])[1..] == [];
    } else {
      assert (packet + [line])[1..] == packet[1..] + [line];
      ChargeSnoc(packet[1..], line);
    }
  }

  function Unpack(packets: seq<seq<string>>): seq<string> {
    if packets == [] then [] else packets[0] + Unpack(packets[1..])
  }

  // A packet together with the first line of the next one would be too large, and no packet is too large
  // unless a single line is.
  ghost predicate Greedy(packets: seq<seq<string>>, limit: nat) {
    && (forall i :: 0 <= i < |packets| ==> packets[i] != [] && (Charge(packets[i]) <= limit || |packets[i]| == 1))
    && (forall i :: 0 <= i < |packets| - 1 ==> Charge(packets[i]) + |packets[i + 1][0]| + 1 > limit)
  }

  // What becomes of one posted packet: the server registers the events at some positions and answers their
  // number, or the call fails and nothing of the packet is registered.
  datatype Reply = Added(which: set<nat>) | Raised

  datatype Sent = Sent(count: nat) | Failed

  // The packets of a list of lines: the open packet is closed as soon as the next line does not fit.
  function Pack(open: seq<string>, lines: seq<string>, limit: nat): seq<seq<string>>
    decreases |lines|
  {
    if lines == [] then (if open == [] then [] else [open])
    else if Charge(open) + |lines[0]| + 1 > limit then
      (if open == [] then [] else [open]) + Pack([lines[0]], lines[1..], limit)
    else Pack(open + [lines[0]], lines[1..], limit)
  }

  lemma PrependPacket(packet: seq<string>, next: seq<seq<string>>, limit: nat)
    requires Greedy(next, limit) && next != [] && packet != []
    requires Charge(packet) <= limit || |packet| == 1
    requires Charge(packet) + |next[0][0]| + 1 > limit
    ensures Greedy([packet] + next, limit) && Unpack([packet] + next) == packet + Unpack(next)
  {
    var packets := [packet] + next;
    assert packets[1..] == next;
    assert forall i :: 1 <= i < |packets| ==> packets[i] == next[i - 1];
  }

  lemma {:induction false} PackUnpacks(open: seq<string>, lines: seq<string>, limit: nat)
    ensures Unpack(Pack(open, lines, limit)) == open + lines
    decreases |lines|
  {
    if lines == [] {
      assert [open][1..] == [] && open + [] == open;
    } else {
      var line, rest := lines[0], lines[1..];
      Reassociate(open, [line], rest);
      assert [line] + rest == lines;
      if Charge(open) + |line| + 1 > limit {
        var next := Pack([line], rest, limit);
        PackUnpacks([line], rest, limit);
        assert open == [] ==> [] + next == next && [] + lines == lines;
        assert ([open] + next)[1..] == next;
      } else {
        PackUnpacks(open + [line], rest, limit);
      }
    }
  }

  lemma {:induction false} PackIsGreedy(open: seq<string>, lines: seq<string>, limit: nat)
    requires Charge(open) <= limit || |open| == 1
    ensures Greedy(Pack(open, lines, limit), limit)
    ensures open != [] ==> Pack(open, lines, limit) != [] && open <= Pack(open, lines, limit)[0]
    decreases |lines|
  {
    if lines != [] {
      var line, rest := lines[0], lines[1..];
      if Charge(open) + |line| + 1 > limit {
        var next := Pack([line], rest, limit);
        PackIsGreedy([line], rest, limit);
        assert next[0][0] == line;
        if open != [] {
          PrependPacket(open, next, limit);
        } else {
          assert [] + next == next;
        }
      } else {
        ChargeSnoc(open, line);
        PackIsGreedy(open + [line], rest, limit);
      }
    }
  }

  // Every line is in exactly one packet, in order, and the packing is greedy.
  lemma PackMeaning(lines: seq<string>, limit: nat)
    ensures Unpack(Pack([], lines, limit)) == lines
    ensures Greedy(Pack([], lines, limit), limit)
  {
    PackUnpacks([], lines, limit);
    PackIsGreedy([], lines, limit);
    assert [] + lines == lines;
  }

  // There is no other greedy packing of the same lines.
  lemma {:induction false} PackUnique(packets: seq<seq<string>>, limit: nat)
    requires Greedy(packets, limit)
    ensures Pack([], Unpack(packets), limit) == packets
  {
    if packets != [] {
      var head, tail := packets[0], packets[1..];
      GreedyTail(packets, limit);
      PackUnique(tail, limit);
      assert [] + head == head;
      FillPacket([], head, Unpack(tail), limit);
      CloseOpen(head, Unpack(tail), limit);
      assert packets == [head] + tail;
    }
  }

  lemma GreedyTail(packets: seq<seq<string>>, limit: nat)
    requires Greedy(packets, limit) && packets != []
    ensures Greedy(packets[1..], limit)
    ensures Unpack(packets[1..]) != [] ==> Charge(packets[0]) + |Unpack(packets[1..])[0]| + 1 > limit
  {
    var tail := packets[1..];
    assert forall i :: 0 <= i < |tail| ==> tail[i] == packets[i + 1];
    if tail != [] {
      assert Unpack(tail)[0] == tail[0][0];
    }
  }

  lemma {:induction false} ChargeConcat(a: seq<string>, b: seq<string>)
    ensures Charge(a + b) == Charge(a) + Charge(b)
  {
    if a == [] {
      assert a + b == b;
    } else {
      assert (a + b)[1..] == a[1..] + b;
      ChargeConcat(a[1..], b);
    }
  }

  // Lines that fit are all taken into the open packet.
  lemma {:induction false} FillPacket(open: seq<string>, more: seq<string>, rest: seq<string>, limit: nat)
    requires Charge(open + more) <= limit || (open == [] && |more| == 1)
    ensures Pack(open, more + rest, limit) == Pack(open + more, rest, limit)
    decreases |more|
  {
    if more == [] {
      assert open + more == open && more + rest == rest;
    } else {
      var line := more[0];
      assert more == [line] + more[1..];
      assert (more + rest)[0] == line && (more + rest)[1..] == more[1..] + rest;
      assert (open + [line]) + more[1..] == open + more;
      if Charge(open + more) <= limit {
        ChargeConcat(open + [line], more[1..]);
        ChargeSnoc(open, line);
        FillPacket(open + [line], more[1..], rest, limit);
      } else {
        assert more[1..] + rest == rest && open + more == [line];
      }
    }
  }

  lemma CloseOpen(open: seq<string>, rest: seq<string>, limit: nat)
    requires open != [] && (rest != [] ==> Charge(open) + |rest[0]| + 1 > limit)
    ensures Pack(open, rest, limit) == [open] + Pack([], rest, limit)
  {
    if rest != [] {
      var next := Pack([rest[0]], rest[1..], limit);
      if 0 + |rest[0]| + 1 > limit {
        assert [] + next == next;
      } else {
        assert [] + [rest[0]] == [rest[0]];
      }
    }
  }

  // The elements at the marked positions.
  function Select<T>(s: seq<T>, marks: seq<bool>): (r: seq<T>)
    requires |s| == |marks|
    ensures |r| <= |s|
  {
    if s == [] then [] else (if marks[0] then [s[0]] else []) + Select(s[1..], marks[1..])
  }

  function PacketMarks(n: nat, reply: Reply): (marks: seq<bool>)
    ensures |marks| == n
  {
    if reply.Raised? then seq(n, _ => false) else seq(n, i => i in reply.which)
  }

  // The number the server answers.
  function Count(packet: seq<string>, reply: Reply): (n: nat)
    ensures n <= |packet|
  {
    |Select(packet, PacketMarks(|packet|, reply))|
  }

  lemma {:induction false} SelectConcat<T>(a: seq<T>, b: seq<T>, m: seq<bool>, n: seq<bool>)
    requires |a| == |m| && |b| == |n|
    ensures Select(a + b, m + n) == Select(a, m) + Select(b, n)
  {
    if a == [] {
      assert a + b == b && m + n == n;
    } else {
      assert (a + b)[1..] == a[1..] + b && (m + n)[1..] == m[1..] + n;
      SelectConcat(a[1..], b, m[1..], n);
      Reassociate(if m[0] then [a[0]] else [], Select(a[1..], m[1..]), Select(b, n));
    }
  }

  lemma {:induction false} SelectNone<T>(s: seq<T>, marks: seq<bool>)
    requires |s| == |marks|
    ensures Select(s, marks) == [] <==> forall i :: 0 <= i < |marks| ==> !marks[i]
  {
    if s != [] {
      SelectNone(s[1..], marks[1..]);
      assert forall i :: 1 <= i < |marks| ==> marks[1..][i - 1] == marks[i];
    }
  }

  lemma {:induction false} SelectAll<T>(s: seq<T>, marks: seq<bool>)
    requires |s| == |marks|
    ensures |Select(s, marks)| == |s| <==> forall i :: 0 <= i < |marks| ==> marks[i]
    ensures |Select(s, marks)| == |s| ==> Select(s, marks) == s
  {
    if s != [] {
      SelectAll(s[1..], marks[1..]);
      assert forall i :: 1 <= i < |marks| ==> marks[1..][i - 1] == marks[i];
    }
  }

  // Which of the lines in the packets are registered, from packet i on: none after a post has failed.
  function Marks(packets: seq<seq<string>>, reply: nat -> Reply, i: nat): (marks: seq<bool>)
    requires i <= |packets|
    ensures |marks| == |Unpack(packets[i..])|
    decreases |packets| - i
  {
    if i == |packets| then []
    else if reply(i).Raised? then seq(|Unpack(packets[i..])|, _ => false)
    else
      assert packets[i..][1..] == packets[i + 1..];
      PacketMarks(|packets[i]|, reply(i)) + Marks(packets, reply, i + 1)
  }

  class Poster {
    const limit: nat
    var posted: seq<seq<string>>    // packets whose post returned
    var registered: seq<string>     // lines the server took

    constructor (limit: nat)
      ensures posted == [] && registered == [] && this.limit == limit
    {
      this.limit := limit;
      posted, registered := [], [];
    }

    // One post; what becomes of it is up to the server.
    method SendPacket(lines: seq<string>, reply: Reply) returns (r: Sent)
      modifies this
      ensures Books(posted, registered, r) == Post(old(posted), old(registered), lines, reply)
    {
      if lines == [] {
        return Sent(0);
      }
      if reply.Raised? {
        return Failed;
      }
      posted := posted + [lines];
      registered := registered + Select(lines, PacketMarks(|lines|, reply));
      var count := Count(lines, reply);
      if count != |lines| {
        return Sent(count);
      }
      r := Sent(|lines|);
    }

    // Sends serialised events; `reply` tells what becomes of each packet. A failed post ends the call, with
    // the packets before it delivered.
    method SendEvents(lines: seq<string>, reply: nat -> Reply) returns (r: Sent)
      modifies this
      ensures Books(posted, registered, r) == Outcome(old(posted), old(registered), Pack([], lines, limit), reply)
    {
      var bytes: nat := 0;
      var open: seq<string> := [];
      var sent: nat, n: nat := 0, 0;
      var left := lines;
      ghost var packets := Pack([], lines, limit);
      ghost var books := Finish(posted, registered, 0, packets, reply, 0);
      FinishMeaning(posted, registered, packets, reply);
      while left != []
        invariant bytes == Charge(open)
        invariant Finish(posted, registered, sent, Pack(open, left, limit), reply, n) == books
        decreases |left|
      {
        var line := left[0];
        var charge := |line| + 1;
        if bytes + charge > limit {
          FinishFlush(posted, registered, sent, open, left, limit, reply, n);
          var res := SendPacket(open, reply(n));
          if res.Failed? {
            return Failed;
          }
          sent, n := sent + res.count, if open == [] then n else n + 1;
          bytes, open := 0, [];
        }
        PackAbsorbs(open, left, limit);
        bytes, open, left := bytes + charge, open + [line], left[1..];
      }
      FinishFlush(posted, registered, sent, open, left, limit, reply, n);
      var res := SendPacket(open, reply(n));
      if res.Failed? {
        return Failed;
      }
      r := Sent(sent + res.count);
    }
  }

  // What is posted and registered in the end, and the answer.
  datatype Books = Books(posted: seq<seq<string>>, registered: seq<string>, answer: Sent)

  // One post: nothing is sent for an empty packet, and a failed post leaves everything as it was.
  function Post(posted: seq<seq<string>>, registered: seq<string>, packet: seq<string>, reply: Reply): Books {
    if packet == [] then Books(posted, registered, Sent(0))
    else if reply.Raised? then Books(posted, registered, Failed)
    else
      Books(posted + [packet], registered + Select(packet, PacketMarks(|packet|, reply)), Sent(Count(packet, reply)))
  }

  // Sending packets one by one, the first of them with the i-th reply.
  function Finish(posted: seq<seq<string>>, registered: seq<string>, sent: nat, packets: seq<seq<string>>,
                  reply: nat -> Reply, i: nat): Books
    decreases |packets|
  {
    if packets == [] then Books(posted, registered, Sent(sent))
    else if reply(i).Raised? then Books(posted, registered, Failed)
    else
      var packet := packets[0];
      Finish(posted + [packet], registered + Select(packet, PacketMarks(|packet|, reply(i))),
             sent + Count(packet, reply(i)), packets[1..], reply, i + 1)
  }

  // Sending the open packet when the next line does not fit, or when there is none.
  lemma FinishFlush(posted: seq<seq<string>>, registered: seq<string>, sent: nat, open: seq<string>,
                    left: seq<string>, limit: nat, reply: nat -> Reply, i: nat)
    requires left == [] || Charge(open) + |left[0]| + 1 > limit
    ensures
      var first := Post(posted, registered, open, reply(i));
      Finish(posted, registered, sent, Pack(open, left, limit), reply, i) ==
        if first.answer.Failed? then first
        else
          Finish(first.posted, first.registered, sent + first.answer.count, Pack([], left, limit), reply,
                 if open == [] then i else i + 1)
  {
    var more := if left == [] then [] else Pack([left[0]], left[1..], limit);
    assert [] + more == more && ([open] + more)[1..] == more;
    if left != [] { assert [] + [left[0]] == [left[0]]; }
    assert Pack([], left, limit) == more;
  }

  lemma PackAbsorbs(open: seq<string>, left: seq<string>, limit: nat)
    requires left != [] && (open == [] || Charge(open) + |left[0]| + 1 <= limit)
    ensures Pack(open, left, limit) == Pack(open + [left[0]], left[1..], limit)
    ensures Charge(open + [left[0]]) == Charge(open) + |left[0]| + 1
  {
    var next := Pack([left[0]], left[1..], limit);
    ChargeSnoc(open, left[0]);
    assert [] + [left[0]] == [left[0]] && [] + next == next;
  }

  lemma FinishStep(posted: seq<seq<string>>, registered: seq<string>, sent: nat, packets: seq<seq<string>>,
                   reply: nat -> Reply, i: nat)
    requires i < |packets| && reply(i).Added?
    ensures
      var packet := packets[i];
      Finish(posted, registered, sent, packets[i..], reply, i) ==
        Finish(posted + [packet], registered + Select(packet, PacketMarks(|packet|, reply(i))),
               sent + Count(packet, reply(i)), packets[i + 1..], reply, i + 1)
  {
    assert packets[i..][0] == packets[i] && packets[i..][1..] == packets[i + 1..];
  }

  lemma {:induction false} FinishPosts(
      posted: seq<seq<string>>, registered: seq<string>, sent: nat, packets: seq<seq<string>>, reply: nat -> Reply,
      i: nat)
    requires i <= |packets|
    ensures Finish(posted, registered, sent, packets[i..], reply, i).posted
      == posted + packets[i..Delivered(packets, reply, i)]
    decreases |packets| - i
  {
    if i < |packets| && reply(i).Added? {
      var packet, n := packets[i], Delivered(packets, reply, i);
      FinishStep(posted, registered, sent, packets, reply, i);
      FinishPosts(posted + [packet], registered + Select(packet, PacketMarks(|packet|, reply(i))),
                  sent + Count(packet, reply(i)), packets, reply, i + 1);
      Reassociate(posted, [packet], packets[i + 1..n]);
      assert packets[i..n] == [packet] + packets[i + 1..n];
    } else {
      assert posted + [] == posted;
    }
  }

  // The server taking packet after packet.
  function TakeAll(registered: seq<string>, packets: seq<seq<string>>, reply: nat -> Reply, i: nat): seq<string>
    requires i <= |packets|
    decreases |packets| - i
  {
    if i == |packets| || reply(i).Raised? then registered
    else
      var packet := packets[i];
      TakeAll(registered + Select(packet, PacketMarks(|packet|, reply(i))), packets, reply, i + 1)
  }

  lemma {:induction false} TakeAllIsTaken(
      registered: seq<string>, packets: seq<seq<string>>, reply: nat -> Reply, i: nat)
    requires i <= |packets|
    ensures TakeAll(registered, packets, reply, i) == Taken(registered, packets, reply, i)
    decreases |packets| - i
  {
    if i == |packets| {
      assert registered + [] == registered;
    } else {
      var packet := packets[i];
      TakeOne(registered, packets, reply, i);
      if reply(i).Added? {
        TakeAllIsTaken(registered + Select(packet, PacketMarks(|packet|, reply(i))), packets, reply, i + 1);
      }
    }
  }

  lemma {:induction false} FinishRegisters(
      posted: seq<seq<string>>, registered: seq<string>, sent: nat, packets: seq<seq<string>>, reply: nat -> Reply,
      i: nat)
    requires i <= |packets|
    ensures Finish(posted, registered, sent, packets[i..], reply, i).registered
      == TakeAll(registered, packets, reply, i)
    decreases |packets| - i
  {
    if i < |packets| && reply(i).Added? {
      var packet := packets[i];
      FinishStep(posted, registered, sent, packets, reply, i);
      FinishRegisters(posted + [packet], registered + Select(packet, PacketMarks(|packet|, reply(i))),
                      sent + Count(packet, reply(i)), packets, reply, i + 1);
    }
  }

  lemma {:induction false} FinishAnswers(
      posted: seq<seq<string>>, registered: seq<string>, sent: nat, packets: seq<seq<string>>, reply: nat -> Reply,
      i: nat)
    requires i <= |packets|
    ensures Finish(posted, registered, sent, packets[i..], reply, i).answer
      == if Delivered(packets, reply, i) == |packets| then Sent(sent + CountAdded(packets, reply, i)) else Failed
    decreases |packets| - i
  {
    if i < |packets| && reply(i).Added? {
      var packet := packets[i];
      FinishStep(posted, registered, sent, packets, reply, i);
      FinishAnswers(posted + [packet], registered + Select(packet, PacketMarks(|packet|, reply(i))),
                    sent + Count(packet, reply(i)), packets, reply, i + 1);
    }
  }

  // The packets up to the first that fails are posted, of these the server registers what it takes, and the
  // answer is the number registered, unless a post failed.
  function Outcome(posted: seq<seq<string>>, registered: seq<string>, packets: seq<seq<string>>, reply: nat -> Reply)
    : Books
  {
    var n := Delivered(packets, reply, 0);
    Books(posted + packets[..n], Taken(registered, packets, reply, 0),
          if n == |packets| then Sent(CountAdded(packets, reply, 0)) else Failed)
  }

  lemma FinishMeaning(posted: seq<seq<string>>, registered: seq<string>, packets: seq<seq<string>>, reply: nat -> Reply)
    ensures Finish(posted, registered, 0, packets, reply, 0) == Outcome(posted, registered, packets, reply)
  {
    var n := Delivered(packets, reply, 0);
    assert packets[0..] == packets && packets[0..n] == packets[..n];
    FinishPosts(posted, registered, 0, packets, reply, 0);
    FinishRegisters(posted, registered, 0, packets, reply, 0);
    TakeAllIsTaken(registered, packets, reply, 0);
    FinishAnswers(posted, registered, 0, packets, reply, 0);
  }

  // What is registered in the end, with packet i the next to send.
  function Taken(registered: seq<string>, packets: seq<seq<string>>, reply: nat -> Reply, i: nat): seq<string>
    requires i <= |packets|
  {
    registered + Select(Unpack(packets[i..]), Marks(packets, reply, i))
  }

  lemma TakeOne(registered: seq<string>, packets: seq<seq<string>>, reply: nat -> Reply, i: nat)
    requires i < |packets|
    ensures Taken(registered, packets, reply, i) ==
      if reply(i).Raised? then registered
      else Taken(registered + Select(packets[i], PacketMarks(|packets[i]|, reply(i))), packets, reply, i + 1)
  {
    if reply(i).Raised? {
      SelectNone(Unpack(packets[i..]), Marks(packets, reply, i));
      assert registered + [] == registered;
    } else {
      assert packets[i..][1..] == packets[i + 1..];
      var marks := PacketMarks(|packets[i]|, reply(i));
      var more, rest := Unpack(packets[i + 1..]), Marks(packets, reply, i + 1);
      SelectConcat(packets[i], more, marks, rest);
      Reassociate(registered, Select(packets[i], marks), Select(more, rest));
    }
  }

  // How many packets are delivered, from packet i on, before a post fails.
  function Delivered(packets: seq<seq<string>>, reply: nat -> Reply, i: nat): (n: nat)
    requires i <= |packets|
    ensures i <= n <= |packets|
    ensures n < |packets| ==> reply(n).Raised?
    decreases |packets| - i
  {
    if i == |packets| || reply(i).Raised? then i else Delivered(packets, reply, i + 1)
  }

  function CountAdded(packets: seq<seq<string>>, reply: nat -> Reply, i: nat): nat
    requires i <= |packets|
    decreases |packets| - i
  {
    if i == |packets| then 0
    else Count(packets[i], reply(i)) + CountAdded(packets, reply, i + 1)
  }

  // ---------------------------------------------------------------- both together

  // send_log_events: chunk, serialise, pack and post.
  method SendLogEvents(poster: Poster, lines: seq<string>, base: int, encode: Event -> string, reply: nat -> Reply)
    returns (events: seq<Event>, r: Sent)
    requires poster.limit == MAX_PACKET_SIZE
    modifies poster
    ensures events == EventsOf(lines, base, MAX_EVENT_SIZE)
    ensures Messages(events) == Blocks(Text(lines), 65536) && Increasing(events)
    ensures
      var packets := Pack([], Serialised(events, encode), MAX_PACKET_SIZE);
      var n := Delivered(packets, reply, 0);
      && poster.posted == old(poster.posted) + packets[..n]
      && r == if n == |packets| then Sent(CountAdded(packets, reply, 0)) else Failed
    ensures
      var sent := Serialised(events, encode);
      var packets := Pack([], sent, MAX_PACKET_SIZE);
      && packets[0..] == packets && Unpack(packets) == sent
      && poster.registered == old(poster.registered) + Select(sent, Marks(packets, reply, 0))
    ensures Bounded(encode) ==>
      forall i :: |old(poster.posted)| <= i < |poster.posted| ==> |Body(poster.posted[i])| < 1048576
  {
    events := Chunk(lines, base, MAX_EVENT_SIZE);
    PackMeaning(Serialised(events, encode), MAX_PACKET_SIZE);
    r := poster.SendEvents(Serialised(events, encode), reply);
    if Bounded(encode) {
      LogPacketsFit(events, lines, encode);
    }
  }

  function Serialised(events: seq<Event>, encode: Event -> string): (lines: seq<string>)
    ensures |lines| == |events| && forall i :: 0 <= i < |events| ==> lines[i] == encode(events[i])
  {
    seq(|events|, i requires 0 <= i < |events| => encode(events[i]))
  }

  // The encoder writes at most 12 characters for one of the message, and the fixed fields with the
  // separator fit in what then remains of a packet.
  ghost predicate Bounded(encode: Event -> string) {
    forall e :: |encode(e)| + 1 <= 12 * |e.msg| + 262144
  }

  // No packet made of chunked log events exceeds the packet limit.
  lemma LogPacketsFit(events: seq<Event>, lines: seq<string>, encode: Event -> string)
    requires Bounded(encode)
    requires Messages(events) == Blocks(Text(lines), MAX_EVENT_SIZE)
    ensures
      var packets := Pack([], Serialised(events, encode), MAX_PACKET_SIZE);
      && (forall i :: 0 <= i < |packets| ==> |Body(packets[i])| < 1048576)
      && Unpack(packets) == Serialised(events, encode)
  {
    var sent := Serialised(events, encode);
    var packets := Pack([], sent, MAX_PACKET_SIZE);
    PackMeaning(sent, MAX_PACKET_SIZE);
    BlocksMeaning(Text(lines), MAX_EVENT_SIZE);
    forall i | 0 <= i < |packets| ensures |Body(packets[i])| < MAX_PACKET_SIZE {
      BodyLength(packets[i]);
      if |packets[i]| == 1 {
        UnpackMember(packets, i);
        var k :| 0 <= k < |sent| && sent[k] == packets[i][0];
        assert Messages(events)[k] == events[k].msg;
        assert packets[i][1..] == [];
      }
    }
  }

  lemma {:induction false} UnpackMember(packets: seq<seq<string>>, i: nat)
    requires i < |packets| && packets[i] != []
    ensures packets[i][0] in Unpack(packets)
  {
    if i > 0 {
      UnpackMember(packets[1..], i - 1);
    }
  }
}
