/** The pipe: a ring of bytes between any number of readers and writers.  Each
    interrupt-free region is one step; the check for a vanished peer is another. */
module Pipe {
  const PIPE_BUF_SIZE: nat := 4096

  // ---- the ring -----------------------------------------------------------

  datatype Ring<T> = Ring(buf: seq<T>, head: nat, tail: nat)

  predicate RingOk<T>(r: Ring<T>) {
    |r.buf| > 0 && r.head < |r.buf| && r.tail < |r.buf|
  }

  /** What the ring holds, oldest first. */
  function Contents<T>(r: Ring<T>): (s: seq<T>)
    requires RingOk(r)
    ensures |s| <= |r.buf| - 1
    ensures s == [] <==> r.head == r.tail
  {
    if r.tail <= r.head then r.buf[r.tail..r.head] else r.buf[r.tail..] + r.buf[..r.head]
  }

  predicate Full<T>(r: Ring<T>)
    requires RingOk(r)
  {
    (r.head + 1) % |r.buf| == r.tail
  }

  function Put<T>(r: Ring<T>, x: T): (r': Ring<T>)
    requires RingOk(r)
    ensures RingOk(r') && |r'.buf| == |r.buf|
  {
    Ring(r.buf[r.head := x], (r.head + 1) % |r.buf|, r.tail)
  }

  function Get<T>(r: Ring<T>): (r': Ring<T>)
    requires RingOk(r)
    ensures RingOk(r') && r'.buf == r.buf
  {
    r.(tail := (r.tail + 1) % |r.buf|)
  }

  lemma Wrap(i: nat, n: nat)
    requires i < n
    ensures (i + 1) % n == if i + 1 == n then 0 else i + 1
  {
  }

  lemma PutAppends<T>(r: Ring<T>, x: T)
    requires RingOk(r)
    ensures Full(r) <==> |Contents(r)| == |r.buf| - 1
    ensures !Full(r) ==> Contents(Put(r, x)) == Contents(r) + [x]
  {
    Wrap(r.head, |r.buf|);
    if !Full(r) {
      var r' := Put(r, x);
      assert r'.buf[..r.head] == r.buf[..r.head];
      assert r'.buf[..r.head + 1] == r.buf[..r.head] + [x];
      if r.tail <= r.head {
        assert r'.buf[r.tail..r.head + 1] == r.buf[r.tail..r.head] + [x];
        if r.head + 1 == |r.buf| {
          assert r'.buf[r.tail..] == r.buf[r.tail..r.head] + [x];
        }
      } else {
        assert r'.buf[r.tail..] == r.buf[r.tail..];
      }
    }
  }

  lemma GetRemoves<T>(r: Ring<T>)
    requires RingOk(r) && r.head != r.tail
    ensures Contents(r) == [r.buf[r.tail]] + Contents(Get(r))
  {
    Wrap(r.tail, |r.buf|);
    if r.tail < r.head {
      assert r.buf[r.tail..r.head] == [r.buf[r.tail]] + r.buf[r.tail + 1..r.head];
    } else {
      assert r.buf[r.tail..] == [r.buf[r.tail]] + r.buf[r.tail + 1..];
    }
  }

  // ---- calls in progress --------------------------------------------------

  /** Try is the top of the loop, Peer the check made after leaving the region. */
  datatype Phase = Try | Peer | Done(ret: nat)

  datatype Call =
    | Reader(len: int, got: seq<int>, phase: Phase)
    | Writer(data: seq<int>, sent: nat, phase: Phase)

  /** A byte with the call that moved it. */
  datatype Moved = Moved(call: nat, value: int)

  datatype System = System(ring: Ring<int>, readers: int, writers: int, calls: map<nat, Call>,
                           produced: seq<Moved>, consumed: seq<Moved>)

  datatype Event =
    | StartRead(call: nat, len: int)
    | StartWrite(call: nat, data: seq<int>)
    | Run(call: nat)
    | Close(writer: bool)

  function StepReader(s: System, id: nat, c: Call): System
    requires RingOk(s.ring) && c.Reader?
  {
    match c.phase
    case Done(_) => s
    case Peer =>
      s.(calls := s.calls[id := Reader(c.len, c.got, if s.writers == 0 then Done(|c.got|) else Try)])
    case Try =>
      if |c.got| >= c.len then s.(calls := s.calls[id := Reader(c.len, c.got, Done(|c.got|))])
      else if s.ring.head != s.ring.tail then
        var b := s.ring.buf[s.ring.tail];
        s.(ring := Get(s.ring),
           calls := s.calls[id := Reader(c.len, c.got + [b], Try)],
           consumed := s.consumed + [Moved(id, b)])
      else s.(calls := s.calls[id := Reader(c.len, c.got, Peer)])
  }

  function StepWriter(s: System, id: nat, c: Call): System
    requires RingOk(s.ring) && c.Writer?
  {
    match c.phase
    case Done(_) => s
    case Peer =>
      s.(calls := s.calls[id := Writer(c.data, c.sent, if s.readers == 0 then Done(c.sent) else Try)])
    case Try =>
      if c.sent >= |c.data| then s.(calls := s.calls[id := Writer(c.data, c.sent, Done(c.sent))])
      else if !Full(s.ring) then
        var b := c.data[c.sent];
        s.(ring := Put(s.ring, b),
           calls := s.calls[id := Writer(c.data, c.sent + 1, Try)],
           produced := s.produced + [Moved(id, b)])
      else s.(calls := s.calls[id := Writer(c.data, c.sent, Peer)])
  }

  /** Call numbers are used once. */
  function Step(s: System, e: Event): System
    requires RingOk(s.ring)
  {
    match e
    case StartRead(id, len) => if id in s.calls then s else s.(calls := s.calls[id := Reader(len, [], Try)])
    case StartWrite(id, data) => if id in s.calls then s else s.(calls := s.calls[id := Writer(data, 0, Try)])
    case Run(id) =>
      if id !in s.calls then s
      else if s.calls[id].Reader? then StepReader(s, id, s.calls[id]) else StepWriter(s, id, s.calls[id])
    case Close(w) => if w then s.(writers := s.writers - 1) else s.(readers := s.readers - 1)
  }

  // ---- what every interleaving keeps --------------------------------------

  function Values(ms: seq<Moved>): (r: seq<int>)
    ensures |r| == |ms| && forall i :: 0 <= i < |ms| ==> r[i] == ms[i].value
  {
    seq(|ms|, i requires 0 <= i < |ms| => ms[i].value)
  }

  /** The bytes one call moved, in order. */
  function By(ms: seq<Moved>, id: nat): seq<int> {
    if ms == [] then []
    else
      var m := ms[|ms| - 1];
      By(ms[..|ms| - 1], id) + if m.call == id then [m.value] else []
  }

  /** A call has moved a prefix of what it was asked to; it returns that count,
      and falls short only once the other side is gone. */
  ghost predicate CallOk(s: System, id: nat, c: Call) {
    match c
    case Reader(len, got, phase) =>
      && By(s.consumed, id) == got && By(s.produced, id) == [] && (got == [] || |got| <= len)
      && (phase.Done? ==> phase.ret == |got| && (|got| >= len || s.writers <= 0))
    case Writer(data, sent, phase) =>
      && sent <= |data| && By(s.produced, id) == data[..sent] && By(s.consumed, id) == []
      && (phase.Done? ==> phase.ret == sent && (sent == |data| || s.readers <= 0))
  }

  ghost predicate PipeOk(s: System) {
    && RingOk(s.ring) && |s.ring.buf| == PIPE_BUF_SIZE
    && Values(s.consumed) + Contents(s.ring) == Values(s.produced)
    && (forall id :: id in s.calls ==> CallOk(s, id, s.calls[id]))
    && (forall id: nat :: id !in s.calls ==> By(s.produced, id) == [] && By(s.consumed, id) == [])
  }

  lemma Appended(ms: seq<Moved>, m: Moved)
    ensures Values(ms + [m]) == Values(ms) + [m.value]
    ensures forall id: nat :: By(ms + [m], id) == By(ms, id) + if m.call == id then [m.value] else []
  {
    assert (ms + [m])[..|ms|] == ms;
  }

  lemma StepKeeps(s: System, e: Event)
    requires PipeOk(s)
    ensures PipeOk(Step(s, e))
  {
    hide By, Values, Contents, Full, Put, Get;
    match e
    case StartRead(id, len) =>
    case StartWrite(id, data) =>
    case Close(w) =>
    case Run(id) =>
      if id in s.calls {
        if s.calls[id].Reader? {
          ReadKeeps(s, id, s.calls[id]);
        } else {
          WriteKeeps(s, id, s.calls[id]);
        }
      }
  }

  lemma ReadKeeps(s: System, id: nat, c: Call)
    requires PipeOk(s) && id in s.calls && c == s.calls[id] && c.Reader?
    ensures PipeOk(StepReader(s, id, c))
  {
    hide By, Values, Contents, Full, Put, Get;
    if c.phase == Try && |c.got| < c.len && s.ring.head != s.ring.tail {
      var b := s.ring.buf[s.ring.tail];
      GetRemoves(s.ring);
      Appended(s.consumed, Moved(id, b));
      assert Values(s.consumed) + ([b] + Contents(Get(s.ring))) == Values(s.consumed) + [b] + Contents(Get(s.ring));
    }
  }

  lemma WriteKeeps(s: System, id: nat, c: Call)
    requires PipeOk(s) && id in s.calls && c == s.calls[id] && c.Writer?
    ensures PipeOk(StepWriter(s, id, c))
  {
    hide By, Values, Contents, Full, Put, Get;
    if c.phase == Try && c.sent < |c.data| && !Full(s.ring) {
      var b := c.data[c.sent];
      PutAppends(s.ring, b);
      Appended(s.produced, Moved(id, b));
      assert c.data[..c.sent + 1] == c.data[..c.sent] + [b];
      assert Values(s.consumed) + (Contents(s.ring) + [b]) == Values(s.consumed) + Contents(s.ring) + [b];
    }
  }

  /** pipe_create */
  function Fresh(): System {
    System(Ring(seq(4096, _ => 0), 0, 0), 1, 1, map[], [], [])
  }

  ghost predicate IsRun(states: seq<System>, events: seq<Event>) {
    && |states| == |events| + 1 && states[0] == Fresh()
    && forall k :: 0 <= k < |events| ==> RingOk(states[k].ring) && states[k + 1] == Step(states[k], events[k])
  }

  /** For every interleaving: bytes consumed followed by the ring contents are
      the bytes produced, in order; at most 4095 bytes are held; every call has
      moved a prefix of what it was asked to, returns that count, and falls
      short only once the other side is gone. */
  lemma {:induction false} OrderAndConservation(states: seq<System>, events: seq<Event>)
    requires IsRun(states, events)
    ensures PipeOk(states[|events|]) && |Contents(states[|events|].ring)| <= 4095
  {
    if events == [] {
    } else {
      var n := |events| - 1;
      OrderAndConservation(states[..n + 1], events[..n]);
      hide PipeOk, Step;
      assert states[n + 1] == Step(states[n], events[n]);
      StepKeeps(states[n], events[n]);
    }
  }

  /** How many ends of one kind were closed. */
  function Closed(events: seq<Event>, writer: bool): nat {
    if events == [] then 0
    else Closed(events[..|events| - 1], writer) + if events[|events| - 1] == Close(writer) then 1 else 0
  }

  /** A pipe starts with one end of each kind; only closing takes ends away. */
  lemma {:induction false} EndsCounted(states: seq<System>, events: seq<Event>)
    requires IsRun(states, events)
    ensures states[|events|].writers == 1 - Closed(events, true)
    ensures states[|events|].readers == 1 - Closed(events, false)
  {
    hide Put, Get, Full;
    if events != [] {
      var n := |events| - 1;
      EndsCounted(states[..n + 1], events[..n]);
      assert states[n + 1] == Step(states[n], events[n]);
    }
  }

  /** End of file does not mean the ring is drained: the writer may fill it and
      leave between the reader's failed attempt and its look at the writers. */
  lemma EofMayLeaveBytes()
    ensures var s1 := Step(Step(Fresh(), StartRead(0, 1)), Run(0));
            var s2 := Step(Step(s1, StartWrite(1, [7])), Run(1));
            var s3 := Step(Step(s2, Close(true)), Run(0));
            s3.calls[0] == Reader(1, [], Done(0)) && Contents(s3.ring) == [7]
  {
    var s0 := Step(Fresh(), StartRead(0, 1));
    var s1 := Step(s0, Run(0));
    assert s1.calls[0] == Reader(1, [], Peer);
    var s2a := Step(s1, StartWrite(1, [7]));
    var s2 := Step(s2a, Run(1));
    assert s2.calls[0] == Reader(1, [], Peer) && s2.ring.head == 1 && s2.ring.tail == 0;
    assert s2.ring.buf[0..1] == [7];
    var s3a := Step(s2, Close(true));
    assert s3a.writers == 0;
  }

  // ---- when end of file means drained -------------------------------------

  /** Step i is the last one of reader `id` before step j, and it found the ring empty. */
  ghost predicate FailedAttempt(states: seq<System>, events: seq<Event>, i: nat, j: nat, id: nat)
    requires |states| == |events| + 1 && j <= |events|
  {
    && i < j && events[i] == Run(id) && states[i].ring.head == states[i].ring.tail
    && (id in states[i].calls && states[i].calls[id].Reader? && states[i].calls[id].phase == Try)
    && forall k :: i < k < j ==> events[k] != Run(id)
  }

  /** Step j lets reader `id` return short: it sees that no writer is left. */
  ghost predicate ShortReturn(s: System, e: Event, id: nat) {
    && e == Run(id) && id in s.calls && s.calls[id].Reader? && s.calls[id].phase == Peer && s.writers == 0
  }

  lemma {:induction false} RunKeepsPipe(states: seq<System>, events: seq<Event>, n: nat)
    requires IsRun(states, events) && n <= |events|
    ensures PipeOk(states[n])
  {
    hide PipeOk, Step;
    OrderAndConservation(states[..n + 1], events[..n]);
  }

  /** A reader about to look at the writers has just failed to get a byte. */
  lemma {:induction false} PeerHasFailed(states: seq<System>, events: seq<Event>, j: nat, id: nat) returns (i: nat)
    requires IsRun(states, events) && j <= |events|
    requires id in states[j].calls && states[j].calls[id].Reader? && states[j].calls[id].phase == Peer
    ensures FailedAttempt(states, events, i, j, id)
    decreases j
  {
    hide PipeOk, Contents, Put, Get, Full, By, Values;
    if j == 0 {
      assert false;
    } else {
      var s := states[j - 1];
      assert states[(j - 1) + 1] == Step(s, events[j - 1]);
      if events[j - 1] == Run(id) {
        i := j - 1;
      } else {
        i := PeerHasFailed(states, events, j - 1, id);
      }
    }
  }

  /** What was moved stays moved. */
  lemma {:induction false} MovedGrows(states: seq<System>, events: seq<Event>, i: nat, j: nat)
    requires IsRun(states, events) && i <= j <= |events|
    ensures |states[i].produced| <= |states[j].produced| && |states[i].consumed| <= |states[j].consumed|
    ensures states[j].produced[..|states[i].produced|] == states[i].produced
    ensures states[j].writers <= states[i].writers
    decreases j
  {
    hide PipeOk, Contents, Put, Get, Full, By, Values;
    if i < j {
      MovedGrows(states, events, i, j - 1);
      assert states[(j - 1) + 1] == Step(states[j - 1], events[j - 1]);
    }
  }

  /** A short return leaves the ring empty if and only if every byte appended
      since the reader's failed attempt has been consumed by other readers. */
  lemma EofDrainedIff(states: seq<System>, events: seq<Event>, j: nat, id: nat) returns (i: nat)
    requires IsRun(states, events) && j < |events| && ShortReturn(states[j], events[j], id)
    ensures FailedAttempt(states, events, i, j, id)
    ensures |states[i].produced| <= |states[j].produced| && |states[i].consumed| <= |states[j].consumed|
    ensures RingOk(states[j + 1].ring)
    ensures Contents(states[j + 1].ring) == [] <==>
            |states[j].produced| - |states[i].produced| == |states[j].consumed| - |states[i].consumed|
  {
    hide Step, By;
    i := PeerHasFailed(states, events, j, id);
    MovedGrows(states, events, i, j);
    RunKeepsPipe(states, events, i);
    RunKeepsPipe(states, events, j);
    ReturnKeepsRing(states[j], events[j], id);
    CountHeld(states[i]);
    CountHeld(states[j]);
  }

  lemma ReturnKeepsRing(s: System, e: Event, id: nat)
    requires RingOk(s.ring) && ShortReturn(s, e, id)
    ensures Step(s, e).ring == s.ring && Step(s, e).calls[id].phase == Done(|s.calls[id].got|)
  {
  }

  lemma CountHeld(s: System)
    requires PipeOk(s)
    ensures |Contents(s.ring)| == |s.produced| - |s.consumed|
  {
    assert |Values(s.consumed) + Contents(s.ring)| == |Values(s.produced)|;
  }

  /** Every other read call has returned. */
  ghost predicate OthersDone(s: System, id: nat) {
    forall c :: c in s.calls && c != id && s.calls[c].Reader? ==> s.calls[c].phase.Done?
  }

  /** No read starts in steps i..j. */
  ghost predicate NoNewReader(events: seq<Event>, i: nat, j: nat)
    requires j <= |events|
  {
    forall k :: i <= k < j ==> !events[k].StartRead?
  }

  lemma {:induction false} NobodyElseReads(states: seq<System>, events: seq<Event>, i: nat, j: nat, m: nat, id: nat)
    requires IsRun(states, events) && j <= |events| && FailedAttempt(states, events, i, j, id) && i < m <= j
    requires OthersDone(states[i], id) && NoNewReader(events, i, j)
    ensures states[m].consumed == states[i].consumed && OthersDone(states[m], id)
    decreases m
  {
    hide PipeOk, Contents, Put, Get, Full, By, Values;
    assert states[(m - 1) + 1] == Step(states[m - 1], events[m - 1]);
    if m > i + 1 {
      NobodyElseReads(states, events, i, j, m - 1, id);
    }
  }

  /** With one reader at work, however many read calls returned before: its short
      return leaves the ring empty if and only if no byte was appended between its
      failed attempt and its look at the writers. */
  lemma OneReaderDrainedIff(states: seq<System>, events: seq<Event>, i: nat, j: nat, id: nat)
    requires IsRun(states, events) && j < |events| && ShortReturn(states[j], events[j], id)
    requires FailedAttempt(states, events, i, j, id) && OthersDone(states[i], id) && NoNewReader(events, i, j)
    ensures RingOk(states[j + 1].ring)
    ensures Contents(states[j + 1].ring) == [] <==> states[j].produced == states[i].produced
  {
    hide PipeOk, Contents, Step;
    var k := EofDrainedIff(states, events, j, id);
    LastAttempt(states, events, i, k, j, id);
    NobodyElseReads(states, events, i, j, j, id);
    MovedGrows(states, events, i, j);
    assert states[j].produced[..|states[j].produced|] == states[j].produced;
  }

  /** The last failed attempt before a step is one. */
  lemma LastAttempt(states: seq<System>, events: seq<Event>, i: nat, k: nat, j: nat, id: nat)
    requires |states| == |events| + 1 && j <= |events|
    requires FailedAttempt(states, events, i, j, id) && FailedAttempt(states, events, k, j, id)
    ensures i == k
  {
    assert !(i < k) && !(k < i);
  }

  // ---- a caller's rule ----------------------------------------------------

  ghost predicate WritersDone(s: System) {
    forall c :: c in s.calls && s.calls[c].Writer? ==> s.calls[c].phase.Done?
  }

  /** No write is started once the last write end is closed. */
  ghost predicate WritesInTime(states: seq<System>, events: seq<Event>)
    requires |states| == |events| + 1
  {
    forall k :: 0 <= k < |events| && events[k].StartWrite? ==> states[k].writers > 0
  }

  lemma {:induction false} NothingAppended(states: seq<System>, events: seq<Event>, i: nat, j: nat)
    requires IsRun(states, events) && WritesInTime(states, events) && i <= j <= |events|
    requires states[i].writers <= 0 && WritersDone(states[i])
    ensures states[j].produced == states[i].produced && WritersDone(states[j])
    decreases j
  {
    hide PipeOk, Contents, Put, Get, Full, By, Values;
    if i < j {
      NothingAppended(states, events, i, j - 1);
      MovedGrows(states, events, i, j - 1);
      assert states[(j - 1) + 1] == Step(states[j - 1], events[j - 1]);
    }
  }

  /** If the write ends were closed and every write call had returned when the
      reader failed, its end of file means that the ring is drained, for any
      number of readers. */
  lemma ClosedMeansDrained(states: seq<System>, events: seq<Event>, i: nat, j: nat, id: nat)
    requires IsRun(states, events) && WritesInTime(states, events)
    requires j < |events| && ShortReturn(states[j], events[j], id) && FailedAttempt(states, events, i, j, id)
    requires states[i].writers == 0 && WritersDone(states[i])
    ensures RingOk(states[j + 1].ring) && Contents(states[j + 1].ring) == []
  {
    hide Step, By, WritersDone;
    NothingAppended(states, events, i, j);
    MovedGrows(states, events, i, j);
    RunKeepsPipe(states, events, i);
    RunKeepsPipe(states, events, j);
    ReturnKeepsRing(states[j], events[j], id);
    CountHeld(states[i]);
    CountHeld(states[j]);
  }

  // ---- every call returns -------------------------------------------------

  /** How many bytes the call moved, and how many it was asked to. */
  function Count(c: Call): nat { if c.Reader? then |c.got| else c.sent }
  function Asked(c: Call): int { if c.Reader? then c.len else |c.data| }

  predicate Stuck(s: System, c: Call)
    requires RingOk(s.ring)
  {
    if c.Reader? then Contents(s.ring) == [] else |Contents(s.ring)| == |s.ring.buf| - 1
  }

  /** Nobody is left on the other side. */
  predicate Alone(s: System, c: Call) { if c.Reader? then s.writers == 0 else s.readers == 0 }

  /** What the next turn of an unfinished call does. */
  lemma NextTurn(s: System, id: nat)
    requires RingOk(s.ring) && id in s.calls && !s.calls[id].phase.Done?
    ensures var c, t := s.calls[id], Step(s, Run(id));
            && id in t.calls && t.calls[id].Reader? == c.Reader? && t.calls.Keys == s.calls.Keys
            && var c' := t.calls[id];
            && Asked(c') == Asked(c)
            && (c.phase == Try && Count(c) >= Asked(c) ==> c'.phase == Done(Count(c)) && Count(c') == Count(c))
            && (c.phase == Peer && Alone(s, c) ==> c'.phase == Done(Count(c)) && Count(c') == Count(c))
            && (c.phase == Peer && !Alone(s, c) ==> c'.phase == Try && Count(c') == Count(c))
            && (c.phase == Try && Count(c) < Asked(c) && !Stuck(s, c) ==> c'.phase == Try && Count(c') == Count(c) + 1)
            && (c.phase == Try && Count(c) < Asked(c) && Stuck(s, c) ==> c'.phase == Peer && Count(c') == Count(c))
            && forall other :: other in s.calls && other != id ==> t.calls[other] == s.calls[other]
  {
    hide Contents, Put, Get, Full;
    PutAppends(s.ring, 0);
  }

  /** A turn that call `id` was given before it returned. */
  predicate Turn(s: System, e: Event, id: nat) {
    e == Run(id) && id in s.calls && !s.calls[id].phase.Done?
  }

  /** A turn in which it found nothing to read, or no room to write. */
  predicate Failure(s: System, e: Event, id: nat) {
    Turn(s, e, id) && RingOk(s.ring) && s.calls[id].phase == Try && Count(s.calls[id]) < Asked(s.calls[id])
    && Stuck(s, s.calls[id])
  }

  function Turns(states: seq<System>, events: seq<Event>, id: nat): nat
    requires |states| == |events| + 1
  {
    if events == [] then 0
    else
      var n := |events| - 1;
      Turns(states[..n + 1], events[..n], id) + if Turn(states[n], events[n], id) then 1 else 0
  }

  function Failures(states: seq<System>, events: seq<Event>, id: nat): nat
    requires |states| == |events| + 1
  {
    if events == [] then 0
    else
      var n := |events| - 1;
      Failures(states[..n + 1], events[..n], id) + if Failure(states[n], events[n], id) then 1 else 0
  }

  /** The turns of a call: one for each byte and two for each failure, the second
      of which is still to come in Peer; and a last one if it moved everything. */
  predicate TurnsSpent(c: Call, turns: nat, failures: nat) {
    turns == Count(c) + 2 * failures - (if c.phase == Peer then 1 else 0)
             + (if c.phase.Done? && Count(c) >= Asked(c) then 1 else 0)
  }

  lemma TurnSpent(s: System, e: Event, id: nat, turns: nat, failures: nat)
    requires RingOk(s.ring) && id in s.calls && TurnsSpent(s.calls[id], turns, failures)
    requires s.calls[id].phase == Peer ==> Count(s.calls[id]) < Asked(s.calls[id])
    ensures var t := Step(s, e);
            && id in t.calls && (t.calls[id].phase == Peer ==> Count(t.calls[id]) < Asked(t.calls[id]))
            && TurnsSpent(t.calls[id], turns + (if Turn(s, e, id) then 1 else 0),
                          failures + if Failure(s, e, id) then 1 else 0)
  {
    if Turn(s, e, id) {
      hide Step, Contents;
      NextTurn(s, id);
    } else if e.Run? && e.call in s.calls && !s.calls[e.call].phase.Done? {
      hide Step, Contents;
      NextTurn(s, e.call);
    }
  }

  /** Over every run a call has had one turn for each byte it moved, two for each
      failed attempt, and one more to return after the last byte. */
  lemma {:induction false} TurnsAreSpent(states: seq<System>, events: seq<Event>, id: nat)
    requires IsRun(states, events)
    ensures RingOk(states[|events|].ring)
    ensures id in states[|events|].calls ==>
              var c := states[|events|].calls[id];
              && TurnsSpent(c, Turns(states, events, id), Failures(states, events, id))
              && (c.phase == Peer ==> Count(c) < Asked(c))
    ensures id !in states[|events|].calls ==> Turns(states, events, id) == 0 && Failures(states, events, id) == 0
  {
    hide Step, Contents, TurnsSpent;
    OrderAndConservation(states, events);
    if events != [] {
      var n := |events| - 1;
      TurnsAreSpent(states[..n + 1], events[..n], id);
      var s := states[n];
      assert RingOk(s.ring) && states[n + 1] == Step(s, events[n]);
      if id in s.calls {
        var turns, failures := Turns(states[..n + 1], events[..n], id), Failures(states[..n + 1], events[..n], id);
        TurnSpent(s, events[n], id, turns, failures);
      } else {
        NewCall(s, events[n], id);
      }
    }
  }

  lemma NewCall(s: System, e: Event, id: nat)
    requires RingOk(s.ring) && id !in s.calls
    ensures var t := Step(s, e);
            id in t.calls ==> TurnsSpent(t.calls[id], 0, 0) && t.calls[id].phase == Try
  {
    hide Put, Get, Full;
  }

  /** A call that was given more turns than bytes to move and twice its failures
      has returned. */
  lemma EnoughTurns(states: seq<System>, events: seq<Event>, id: nat)
    requires IsRun(states, events) && id in states[|events|].calls
    requires var asked := Asked(states[|events|].calls[id]);
             Turns(states, events, id) > (if asked > 0 then asked else 0) + 2 * Failures(states, events, id)
    ensures states[|events|].calls[id].phase.Done?
  {
    hide Step, Contents, Turns, Failures, By, Values;
    TurnsAreSpent(states, events, id);
    OrderAndConservation(states, events);
    assert CallOk(states[|events|], id, states[|events|].calls[id]);
  }

  /** A reader and a writer never both wait: whatever the ring holds, one of them
      moves a byte at its next attempt. */
  lemma OneCanMove(s: System, r: nat, w: nat)
    requires PipeOk(s) && r in s.calls && w in s.calls && s.calls[r].Reader? && s.calls[w].Writer?
    requires s.calls[r].phase == Try && Count(s.calls[r]) < Asked(s.calls[r])
    requires s.calls[w].phase == Try && Count(s.calls[w]) < Asked(s.calls[w])
    ensures || |Step(s, Run(r)).consumed| == |s.consumed| + 1
            || |Step(s, Run(w)).produced| == |s.produced| + 1
  {
    hide Contents, By, Values, Get, Put;
    PutAppends(s.ring, 0);
  }

  // ---- the regions, in place ----------------------------------------------

  /** The ring of a byte pipe, a typed pipe or a task's event queue. */
  class RingBuffer<T(0)> {
    const buf: array<T>
    var head: nat
    var tail: nat

    ghost predicate Valid()
      reads this, buf
    {
      buf.Length > 0 && head < buf.Length && tail < buf.Length
    }

    ghost function View(): Ring<T>
      reads this, buf
    {
      Ring(buf[..], head, tail)
    }

    constructor (n: nat)
      requires n > 0
      ensures Valid() && fresh(buf) && buf.Length == n && Contents(View()) == []
    {
      buf := new T[n];
      head, tail := 0, 0;
    }

    /** The write region: append one element unless the ring is full. */
    method TryPut(x: T) returns (ok: bool)
      requires Valid()
      modifies this`head, buf
      ensures Valid() && ok == (|Contents(old(View()))| < buf.Length - 1)
      ensures Contents(View()) == if ok then Contents(old(View())) + [x] else Contents(old(View()))
    {
      PutAppends(View(), x);
      var next := (head + 1) % buf.Length;
      if next == tail { return false; }
      ghost var was := View();
      buf[head] := x;
      head := next;
      assert View() == Put(was, x);
      return true;
    }

    /** The read region: remove the oldest element unless the ring is empty. */
    method TryGet() returns (x: T, ok: bool)
      requires Valid()
      modifies this`tail
      ensures Valid() && ok == (Contents(old(View())) != [])
      ensures ok ==> Contents(old(View())) == [x] + Contents(View())
      ensures !ok ==> Contents(View()) == Contents(old(View()))
    {
      x := buf[tail];
      if head == tail { return x, false; }
      GetRemoves(View());
      tail := (tail + 1) % buf.Length;
      return x, true;
    }
  }
}
