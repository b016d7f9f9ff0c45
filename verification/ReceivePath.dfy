/**
 The bytes the modem sends: put into one queue by the receive interrupt, taken from it by the AT
 loop or by the PPP input task, or thrown away when the GSM task resets the queue.
 */
module ReceivePath {
  import opened Bytes
  import opened Modem

  const QUEUE_LENGTH: nat := 1024

  datatype Taker = AtLoop | RawInput | Discarded

  /** One byte leaving the queue, and where it went. */
  datatype Taken = Taken(byte: Byte, who: Taker)

  function BytesOf(taken: seq<Taken>): seq<Byte> {
    seq(|taken|, i requires 0 <= i < |taken| => taken[i].byte)
  }

  /** What one taker received, in order. */
  function BytesBy(taken: seq<Taken>, who: Taker): seq<Byte> {
    if taken == [] then []
    else BytesBy(taken[..|taken| - 1], who)
         + (if taken[|taken| - 1].who == who then [taken[|taken| - 1].byte] else [])
  }

  lemma BytesByPush(taken: seq<Taken>, t: Taken, who: Taker)
    ensures BytesBy(taken + [t], who) == BytesBy(taken, who) + (if t.who == who then [t.byte] else [])
  {
    assert (taken + [t])[..|taken|] == taken;
  }

  /** A queue reset takes every byte at once. */
  function DiscardAll(q: seq<Byte>): seq<Taken> {
    seq(|q|, i requires 0 <= i < |q| => Taken(q[i], Discarded))
  }

  lemma {:induction false} DiscardKeepsOthers(taken: seq<Taken>, q: seq<Byte>, who: Taker)
    requires who != Discarded
    ensures BytesBy(taken + DiscardAll(q), who) == BytesBy(taken, who)
  {
    if q == [] {
      assert taken + DiscardAll(q) == taken;
    } else {
      var p := q[..|q| - 1];
      DiscardKeepsOthers(taken, p, who);
      assert taken + DiscardAll(q) == taken + DiscardAll(p) + [Taken(q[|q| - 1], Discarded)];
      BytesByPush(taken + DiscardAll(p), Taken(q[|q| - 1], Discarded), who);
    }
  }

  lemma BytesOfAppend(a: seq<Taken>, b: seq<Taken>)
    ensures BytesOf(a + b) == BytesOf(a) + BytesOf(b)
  {
  }

  lemma BytesOfPush(taken: seq<Taken>, t: Taken)
    ensures BytesOf(taken + [t]) == BytesOf(taken) + [t.byte]
  {
  }

  /** No byte goes to two takers and none goes astray. */
  lemma {:induction false} TakersPartition(taken: seq<Taken>)
    ensures multiset(BytesOf(taken)) ==
            multiset(BytesBy(taken, AtLoop)) + multiset(BytesBy(taken, RawInput)) + multiset(BytesBy(taken, Discarded))
  {
    if taken != [] {
      var shorter, t := taken[..|taken| - 1], taken[|taken| - 1];
      assert taken == shorter + [t];
      TakersPartition(shorter);
      BytesOfPush(shorter, t);
      BytesByPush(shorter, t, AtLoop);
      BytesByPush(shorter, t, RawInput);
      BytesByPush(shorter, t, Discarded);
      PushToOne(BytesBy(shorter, AtLoop), BytesBy(shorter, RawInput), BytesBy(shorter, Discarded), t);
    }
  }

  lemma PushToOne(a: seq<Byte>, r: seq<Byte>, d: seq<Byte>, t: Taken)
    ensures var add := (who: Taker) => if t.who == who then [t.byte] else [];
            multiset(a + add(AtLoop)) + multiset(r + add(RawInput)) + multiset(d + add(Discarded))
            == multiset(a) + multiset(r) + multiset(d) + multiset{t.byte}
  {
    match t.who
    case AtLoop => assert r + [] == r && d + [] == d;
    case RawInput => assert a + [] == a && d + [] == d;
    case Discarded => assert a + [] == a && r + [] == r;
  }

  datatype Event =
    | Interrupt(byte: Byte)  // a byte arrives
    | AtTake                 // the AT loop asks the queue for a byte
    | RawTake                // the PPP input task asks the queue for a byte
    | ResetQueue             // the GSM task resets the queue
    | SetReceive(on: bool)   // the GSM task opens or closes reception
    | SetMode(on: bool)      // PPP mode is turned on or off

  /** What happens besides the PPP input task's own steps. */
  predicate Others(events: seq<Event>) {
    forall i :: 0 <= i < |events| ==> !events[i].RawTake?
  }

  // ---- what a history of events does to the queue ----

  datatype Line = Line(open: bool, mode: bool, queue: seq<Byte>)

  /** Whether the event puts its byte into the queue. */
  predicate Enters(e: Event, l: Line) {
    e.Interrupt? && l.open && |l.queue| < QUEUE_LENGTH
  }

  /** Whether the event takes the oldest byte. */
  predicate Takes(e: Event, l: Line) {
    (e.AtTake? || e.RawTake?) && l.queue != []
  }

  function Asker(e: Event): Taker {
    if e.AtTake? then AtLoop else RawInput
  }

  function Next(l: Line, e: Event): Line {
    match e
    case Interrupt(byte) => if Enters(e, l) then l.(queue := l.queue + [byte]) else l
    case AtTake => if Takes(e, l) then l.(queue := l.queue[1..]) else l
    case RawTake => if Takes(e, l) then l.(queue := l.queue[1..]) else l
    case ResetQueue => l.(queue := [])
    case SetReceive(on) => l.(open := on)
    case SetMode(on) => l.(mode := on)
  }

  function Trace(log: seq<Event>): Line {
    if log == [] then Line(false, false, []) else Next(Trace(log[..|log| - 1]), log[|log| - 1])
  }

  /** What the interrupt has put into the queue. */
  function Accepted(log: seq<Event>): seq<Byte> {
    if log == [] then [] else
    var shorter, e := log[..|log| - 1], log[|log| - 1];
    if Enters(e, Trace(shorter)) then Accepted(shorter) + [e.byte] else Accepted(shorter)
  }

  /** What has left the queue: one byte to whoever asked, or all of them in a reset. */
  function Removals(log: seq<Event>): seq<Taken> {
    if log == [] then [] else
    var shorter, e := log[..|log| - 1], log[|log| - 1];
    var l := Trace(shorter);
    if Takes(e, l) then Removals(shorter) + [Taken(l.queue[0], Asker(e))]
    else if e.ResetQueue? then Removals(shorter) + DiscardAll(l.queue)
    else Removals(shorter)
  }

  lemma TraceAppend(log: seq<Event>, e: Event)
    ensures Trace(log + [e]) == Next(Trace(log), e)
  {
    assert (log + [e])[..|log|] == log;
  }

  /**
   Receive conservation, for every history: the bytes the interrupt accepted are, in order, those
   taken by the AT loop, taken by the PPP input task or discarded by a reset, and then those still
   queued. None is lost, duplicated or reordered.
   */
  lemma {:induction false} Conservation(log: seq<Event>)
    ensures Accepted(log) == BytesOf(Removals(log)) + Trace(log).queue && |Trace(log).queue| <= 1024
  {
    if log != [] {
      var shorter, e := log[..|log| - 1], log[|log| - 1];
      Conservation(shorter);
      var l, before := Trace(shorter), Removals(shorter);
      if Takes(e, l) {
        BytesOfPush(before, Removals(log)[|before|]);
        assert l.queue == [l.queue[0]] + l.queue[1..];
      } else if e.ResetQueue? {
        BytesOfAppend(before, DiscardAll(l.queue));
        assert BytesOf(DiscardAll(l.queue)) == l.queue;
      }
    }
  }

  /** The AT loop and the input task each gain the byte they take; no other event adds to what they took. */
  lemma RemovalsBy(log: seq<Event>, e: Event, who: Taker)
    requires who != Discarded
    ensures var l, before := Trace(log), BytesBy(Removals(log), who);
            BytesBy(Removals(log + [e]), who) ==
            if Takes(e, l) && who == Asker(e) then before + [l.queue[0]] else before
  {
    assert (log + [e])[..|log|] == log;
    var l := Trace(log);
    if Takes(e, l) {
      BytesByPush(Removals(log), Taken(l.queue[0], Asker(e)), who);
    } else if e.ResetQueue? {
      DiscardKeepsOthers(Removals(log), l.queue, who);
    }
  }

  /**
   The AT loop was given what it took; and what the PPP input task took is what it has passed on, in
   chunks of 1 to 2047 bytes, and then `part`.
   */
  predicate Handed(log: seq<Event>, replies: seq<Byte>, chunks: seq<seq<Byte>>, part: seq<Byte>) {
    && BytesBy(Removals(log), AtLoop) == replies
    && BytesBy(Removals(log), RawInput) == Concat(chunks) + part
    && forall c :: c in chunks ==> 1 <= |c| <= TRANSMIT_QUEUE_BUFF_LEN - 1
  }

  /** Only the input task's own steps add to what it has received, and only the AT loop's to the replies. */
  lemma OtherHands(log: seq<Event>, e: Event, replies: seq<Byte>, chunks: seq<seq<Byte>>, part: seq<Byte>)
    requires !e.RawTake? && Handed(log, replies, chunks, part)
    ensures var q := Trace(log).queue;
            Handed(log + [e], if e.AtTake? && q != [] then replies + [q[0]] else replies, chunks, part)
  {
    RemovalsBy(log, e, AtLoop);
    RemovalsBy(log, e, RawInput);
  }

  lemma RawTakeHands(log: seq<Event>, replies: seq<Byte>, chunks: seq<seq<Byte>>, part: seq<Byte>)
    requires Handed(log, replies, chunks, part)
    ensures var q := Trace(log).queue;
            Handed(log + [RawTake], replies, chunks, if q == [] then part else part + [q[0]])
  {
    RemovalsBy(log, RawTake, AtLoop);
    RemovalsBy(log, RawTake, RawInput);
    var q, passed := Trace(log).queue, Concat(chunks);
    if q != [] {
      assert passed + (part + [q[0]]) == passed + part + [q[0]];
    }
  }

  // ---- the schedule of the PPP input task ----

  /** What the others do before a turn's test of the mode, and before each of its takes. */
  datatype Turn = Turn(before: seq<Event>, gaps: seq<seq<Event>>)

  predicate OtherGaps(gaps: seq<seq<Event>>) {
    forall k :: 0 <= k < |gaps| ==> Others(gaps[k])
  }

  function Gap(gaps: seq<seq<Event>>, k: nat): seq<Event> {
    if k < |gaps| then gaps[k] else []
  }

  /** The history after the takes of a turn from the `k`-th on, until the queue is empty or 2047 bytes are in. */
  function Asks(log: seq<Event>, gaps: seq<seq<Event>>, k: nat): seq<Event>
    requires k < TRANSMIT_QUEUE_BUFF_LEN - 1
    decreases TRANSMIT_QUEUE_BUFF_LEN - k
  {
    var asked := log + Gap(gaps, k);
    if Trace(asked).queue == [] || k + 1 == TRANSMIT_QUEUE_BUFF_LEN - 1 then asked + [RawTake]
    else Asks(asked + [RawTake], gaps, k + 1)
  }

  /** The first `n` takes of a turn, each after its gap. */
  function Woven(gaps: seq<seq<Event>>, n: nat): seq<Event> {
    if n == 0 then [] else Woven(gaps, n - 1) + (if n <= |gaps| then gaps[n - 1] else []) + [RawTake]
  }

  lemma WovenStep(start: seq<Event>, gaps: seq<seq<Event>>, k: nat)
    ensures start + Woven(gaps, k) + Gap(gaps, k) + [RawTake] == start + Woven(gaps, k + 1)
  {
    assert start + Woven(gaps, k) + Gap(gaps, k) + [RawTake] == start + (Woven(gaps, k) + Gap(gaps, k) + [RawTake]);
  }

  /** The `m`-th take of a turn finds a byte. */
  predicate Fed(start: seq<Event>, gaps: seq<seq<Event>>, m: nat)
    requires m > 0
  {
    Trace(start + Woven(gaps, m - 1) + Gap(gaps, m - 1)).queue != []
  }

  lemma LastTake(asked: seq<Event>)
    ensures Trace(asked).queue == [] ==> Trace(asked + [RawTake]).queue == []
  {
    TraceAppend(asked, RawTake);
  }

  /** How many takes a turn makes, from the `k`-th on. */
  function TakesMade(start: seq<Event>, gaps: seq<seq<Event>>, k: nat): (n: nat)
    requires k < TRANSMIT_QUEUE_BUFF_LEN - 1
    ensures k < n <= TRANSMIT_QUEUE_BUFF_LEN - 1
    decreases TRANSMIT_QUEUE_BUFF_LEN - k
  {
    if !Fed(start, gaps, k + 1) || k + 1 == TRANSMIT_QUEUE_BUFF_LEN - 1 then k + 1 else TakesMade(start, gaps, k + 1)
  }

  /** The takes from the `k`-th on are gaps and takes in turn, until the queue is empty or 2047 are made. */
  lemma {:induction false} AsksAreWoven(start: seq<Event>, gaps: seq<seq<Event>>, k: nat)
    requires k < TRANSMIT_QUEUE_BUFF_LEN - 1
    ensures var n := TakesMade(start, gaps, k);
            && Asks(start + Woven(gaps, k), gaps, k) == start + Woven(gaps, n)
            && (n == 2047 || Trace(start + Woven(gaps, n)).queue == [])
    decreases TRANSMIT_QUEUE_BUFF_LEN - k
  {
    WovenStep(start, gaps, k);
    LastTake(start + Woven(gaps, k) + Gap(gaps, k));
    if Fed(start, gaps, k + 1) && k + 1 < TRANSMIT_QUEUE_BUFF_LEN - 1 {
      AsksAreWoven(start, gaps, k + 1);
    }
  }

  lemma {:induction false} EarlierAreFed(start: seq<Event>, gaps: seq<seq<Event>>, k: nat, m: nat)
    requires k < TRANSMIT_QUEUE_BUFF_LEN - 1 && k < m < TakesMade(start, gaps, k)
    ensures Fed(start, gaps, m)
    decreases TRANSMIT_QUEUE_BUFF_LEN - k
  {
    if m > k + 1 {
      EarlierAreFed(start, gaps, k + 1, m);
    }
  }

  /** A turn's takes as gaps and takes in turn. */
  lemma TurnIsWoven(log: seq<Event>, gaps: seq<seq<Event>>) returns (n: nat)
    ensures 1 <= n <= 2047 && Asks(log, gaps, 0) == log + Woven(gaps, n)
    ensures n == 2047 || Trace(log + Woven(gaps, n)).queue == []
    ensures forall m: nat :: 1 <= m < n ==> Fed(log, gaps, m)
  {
    n := TakesMade(log, gaps, 0);
    AsksAreWoven(log, gaps, 0);
    assert log + Woven(gaps, 0) == log;
    forall m: nat | 1 <= m < n ensures Fed(log, gaps, m) {
      EarlierAreFed(log, gaps, 0, m);
    }
  }

  function AfterTurn(log: seq<Event>, gaps: seq<seq<Event>>): seq<Event> {
    if Trace(log).mode then Asks(log, gaps, 0) else log
  }

  function AfterTurns(log: seq<Event>, turns: seq<Turn>): seq<Event> {
    if turns == [] then log else
    var t := turns[|turns| - 1];
    AfterTurn(AfterTurns(log, turns[..|turns| - 1]) + t.before, t.gaps)
  }

  /** What the others do in a schedule whose turns find PPP mode off. */
  function Befores(turns: seq<Turn>): seq<Event> {
    if turns == [] then [] else Befores(turns[..|turns| - 1]) + turns[|turns| - 1].before
  }

  /** PPP mode is not turned on in the schedule. */
  predicate StaysOff(turns: seq<Turn>) {
    forall i :: 0 <= i < |turns| ==> SetMode(true) !in turns[i].before
  }

  lemma {:induction false} ModeStaysOff(log: seq<Event>, events: seq<Event>)
    requires !Trace(log).mode && SetMode(true) !in events
    ensures !Trace(log + events).mode
  {
    if events == [] {
      assert log + events == log;
    } else {
      var shorter, e := events[..|events| - 1], events[|events| - 1];
      ModeStaysOff(log, shorter);
      TraceAppend(log + shorter, e);
      assert log + events == log + shorter + [e];
    }
  }

  lemma OffTurn(log: seq<Event>, before: seq<Event>, t: Turn)
    requires !Trace(log + before).mode && SetMode(true) !in t.before
    ensures AfterTurn(log + before + t.before, t.gaps) == log + (before + t.before)
    ensures !Trace(log + (before + t.before)).mode
  {
    ModeStaysOff(log + before, t.before);
    assert log + before + t.before == log + (before + t.before);
  }

  /** While PPP mode stays off, the history is what the others do. */
  lemma {:induction false} OffTurns(log: seq<Event>, turns: seq<Turn>)
    requires !Trace(log).mode && StaysOff(turns)
    ensures AfterTurns(log, turns) == log + Befores(turns) && !Trace(log + Befores(turns)).mode
  {
    if turns == [] {
      assert log + [] == log;
    } else {
      var shorter, t := turns[..|turns| - 1], turns[|turns| - 1];
      OffTurns(log, shorter);
      OffTurn(log, Befores(shorter), t);
    }
  }

  class Uart {
    var rxQueue: seq<Byte>
    var receiveState: bool
    var pppModeEnable: bool
    const tbuf: array<Byte>
    var tbufLen: nat
    ghost var log: seq<Event>          // what has happened
    ghost var chunks: seq<seq<Byte>>   // what was passed to `pppos_input`
    ghost var replies: seq<Byte>       // what the AT loop was given

    /**
     The fields are what the history says; the AT loop was given what it took; and the PPP input task
     has passed on all it took but what is still in its buffer.
     */
    ghost predicate Valid()
      reads this, tbuf
    {
      && Trace(log) == Line(receiveState, pppModeEnable, rxQueue)
      && tbuf.Length == TRANSMIT_QUEUE_BUFF_LEN && tbufLen < tbuf.Length
      && Handed(log, replies, chunks, tbuf[..tbufLen])
    }

    constructor ()
      ensures Valid() && log == [] && chunks == [] && tbufLen == 0
      ensures fresh(tbuf)
    {
      rxQueue, receiveState, pppModeEnable, tbufLen := [], false, false, 0;
      tbuf := new Byte[TRANSMIT_QUEUE_BUFF_LEN](_ => 0);
      log, chunks, replies := [], [], [];
    }

    /** `gsm_UART_RxCpltCallback`: while reception is open a byte is queued if there is room. */
    method RxCallback(rxCh: Byte)
      requires Valid()
      modifies `rxQueue, `log
      ensures Valid() && log == old(log) + [Interrupt(rxCh)]
      ensures rxQueue == old(rxQueue) + if receiveState && |old(rxQueue)| < 1024 then [rxCh] else []
    {
      TraceAppend(log, Interrupt(rxCh));
      OtherHands(log, Interrupt(rxCh), replies, chunks, tbuf[..tbufLen]);
      if receiveState {
        if |rxQueue| < QUEUE_LENGTH {
          rxQueue := rxQueue + [rxCh];
        }
      }
      log := log + [Interrupt(rxCh)];
    }

    /** The AT loop's call of `xQueueReceive`. */
    method AtReceive() returns (got: bool, byte: Byte)
      requires Valid()
      modifies `rxQueue, `log, `replies
      ensures Valid() && log == old(log) + [AtTake] && got == (|old(rxQueue)| > 0)
      ensures if got then old(rxQueue) == [byte] + rxQueue else rxQueue == old(rxQueue)
      ensures replies == if got then old(replies) + [byte] else old(replies)
    {
      TraceAppend(log, AtTake);
      OtherHands(log, AtTake, replies, chunks, tbuf[..tbufLen]);
      got, byte := |rxQueue| > 0, 0;
      if got {
        byte := rxQueue[0];
        rxQueue := rxQueue[1..];
        replies := replies + [byte];
      }
      log := log + [AtTake];
    }

    /** `xQueueReset` */
    method Reset()
      requires Valid()
      modifies `rxQueue, `log
      ensures Valid() && log == old(log) + [ResetQueue] && rxQueue == []
    {
      TraceAppend(log, ResetQueue);
      OtherHands(log, ResetQueue, replies, chunks, tbuf[..tbufLen]);
      rxQueue := [];
      log := log + [ResetQueue];
    }

    method SetFlag(e: Event)
      requires Valid() && (e.SetReceive? || e.SetMode?)
      modifies `receiveState, `pppModeEnable, `log
      ensures Valid() && log == old(log) + [e]
      ensures receiveState == if e.SetReceive? then e.on else old(receiveState)
      ensures pppModeEnable == if e.SetMode? then e.on else old(pppModeEnable)
    {
      TraceAppend(log, e);
      OtherHands(log, e, replies, chunks, tbuf[..tbufLen]);
      if e.SetReceive? {
        receiveState := e.on;
      } else {
        pppModeEnable := e.on;
      }
      log := log + [e];
    }

    /**
     What the interrupt and the GSM task may do at any moment: exactly this event is added to the
     history, and the fields become what the longer history says.
     */
    method Do(e: Event)
      requires Valid() && !e.RawTake?
      modifies `rxQueue, `receiveState, `pppModeEnable, `log, `replies
      ensures Valid() && log == old(log) + [e]
      ensures receiveState == if e.SetReceive? then e.on else old(receiveState)
      ensures pppModeEnable == if e.SetMode? then e.on else old(pppModeEnable)
    {
      match e {
        case Interrupt(byte) => RxCallback(byte);
        case AtTake => var _, _ := AtReceive();
        case ResetQueue => Reset();
        case SetReceive(_) => SetFlag(e);
        case SetMode(_) => SetFlag(e);
      }
    }

    method DoAll(events: seq<Event>)
      requires Valid() && Others(events)
      modifies `rxQueue, `receiveState, `pppModeEnable, `log, `replies
      ensures Valid() && log == old(log) + events
      ensures !old(pppModeEnable) && SetMode(true) !in events ==> !pppModeEnable
    {
      for i := 0 to |events|
        invariant Valid() && log == old(log) + events[..i]
        invariant !old(pppModeEnable) && SetMode(true) !in events ==> !pppModeEnable
      {
        assert events[..i + 1] == events[..i] + [events[i]];
        Do(events[i]);
      }
    }

    /** One byte into the PPP input buffer. */
    method TakeRaw() returns (got: bool)
      requires Valid() && tbufLen < TRANSMIT_QUEUE_BUFF_LEN - 1
      modifies `rxQueue, `tbufLen, `log, tbuf
      ensures Valid() && log == old(log) + [RawTake] && got == (|old(rxQueue)| > 0)
      ensures tbufLen == old(tbufLen) + (if got then 1 else 0) && (!got ==> rxQueue == [])
    {
      ghost var kept := tbuf[..tbufLen];
      TraceAppend(log, RawTake);
      RawTakeHands(log, replies, chunks, kept);
      got := |rxQueue| > 0;
      if got {
        tbuf[tbufLen] := rxQueue[0];
        tbufLen := tbufLen + 1;
        assert tbuf[..tbufLen] == kept + [rxQueue[0]];
        rxQueue := rxQueue[1..];
      }
      log := log + [RawTake];
    }

    /** `pppos_input` gets what the buffer holds. */
    method PassOn()
      requires Valid() && tbufLen > 0
      modifies `chunks, `tbufLen
      ensures Valid() && tbufLen == 0 && chunks == old(chunks) + [old(tbuf[..tbufLen])]
    {
      ghost var c := tbuf[..tbufLen];
      ConcatPush(chunks, c);
      chunks := chunks + [c];
      tbufLen := 0;
    }

    /** Other events, then one byte. */
    method Ask(gap: seq<Event>) returns (got: bool)
      requires Valid() && tbufLen < TRANSMIT_QUEUE_BUFF_LEN - 1 && Others(gap)
      modifies `rxQueue, `receiveState, `pppModeEnable, `tbufLen, `log, `replies, tbuf
      ensures Valid() && log == old(log) + gap + [RawTake] && got == (Trace(old(log) + gap).queue != [])
      ensures tbufLen == old(tbufLen) + (if got then 1 else 0) && (!got ==> rxQueue == [])
    {
      DoAll(gap);
      got := TakeRaw();
    }

    /** The receiving loop of a turn, with other events between its takes. */
    method Fill(gaps: seq<seq<Event>>)
      requires Valid() && tbufLen == 0 && OtherGaps(gaps)
      modifies `rxQueue, `receiveState, `pppModeEnable, `tbufLen, `log, `replies, tbuf
      ensures Valid() && log == Asks(old(log), gaps, 0)
      ensures rxQueue == [] || tbufLen == TRANSMIT_QUEUE_BUFF_LEN - 1
    {
      var k := 0;
      while true
        invariant Valid() && tbufLen == k < TRANSMIT_QUEUE_BUFF_LEN - 1
        invariant Asks(old(log), gaps, 0) == Asks(log, gaps, k)
        decreases TRANSMIT_QUEUE_BUFF_LEN - k
      {
        var got := Ask(Gap(gaps, k));
        if !got || tbufLen >= TRANSMIT_QUEUE_BUFF_LEN - 1 {
          return;
        }
        k := k + 1;
      }
    }

    /**
     One turn of `gsmPPP_rawInput`. In PPP mode it takes bytes until the queue is empty or 2047 are
     in, and passes them on as one chunk if there are any; outside it does nothing.
     */
    method RawInputTurn(gaps: seq<seq<Event>>)
      requires Valid() && tbufLen == 0 && OtherGaps(gaps)
      modifies this, tbuf
      ensures Valid() && tbufLen == 0 && log == AfterTurn(old(log), gaps)
      ensures chunks == old(chunks) || exists c :: chunks == old(chunks) + [c]
      ensures !old(pppModeEnable) ==> log == old(log) && chunks == old(chunks) && rxQueue == old(rxQueue)
      ensures old(pppModeEnable) ==>
                exists n: nat :: 1 <= n <= 2047 && log == old(log) + Woven(gaps, n)
                                 && (n == 2047 || Trace(log).queue == [])
                                 && forall m: nat :: 1 <= m < n ==> Fed(old(log), gaps, m)
      ensures old(pppModeEnable) ==>
                rxQueue == [] || exists c :: |c| == TRANSMIT_QUEUE_BUFF_LEN - 1 && chunks == old(chunks) + [c]
    {
      if pppModeEnable {
        ghost var n := TurnIsWoven(log, gaps);
        Fill(gaps);
        if tbufLen > 0 {
          PassOn();
        }
      }
    }

    /** What the others do, and then a turn of the input task. */
    method OneTurn(t: Turn)
      requires Valid() && tbufLen == 0 && Others(t.before) && OtherGaps(t.gaps)
      modifies this, tbuf
      ensures Valid() && tbufLen == 0 && log == AfterTurn(old(log) + t.before, t.gaps)
      ensures old(log) + t.before <= log
      ensures !old(pppModeEnable) && SetMode(true) !in t.before ==>
                !pppModeEnable && chunks == old(chunks)
    {
      DoAll(t.before);
      RawInputTurn(t.gaps);
    }

    /**
     The PPP input task and everything else, for any turns and any interleaving: the history is the
     schedule's, the chunks passed to PPP are together the bytes the task took in it, and the AT loop
     was given those it took. While PPP mode stays off the input task takes and passes on nothing.
     */
    method Run(turns: seq<Turn>)
      requires Valid() && tbufLen == 0
      requires forall i :: 0 <= i < |turns| ==> Others(turns[i].before) && OtherGaps(turns[i].gaps)
      modifies this, tbuf
      ensures Valid() && tbufLen == 0 && log == AfterTurns(old(log), turns)
      ensures Concat(chunks) == BytesBy(Removals(log), RawInput) && replies == BytesBy(Removals(log), AtLoop)
      ensures Accepted(log) == BytesOf(Removals(log)) + rxQueue
      ensures !old(pppModeEnable) && StaysOff(turns) ==>
                && log == old(log) + Befores(turns) && chunks == old(chunks)
                && BytesBy(Removals(log), RawInput) == old(BytesBy(Removals(log), RawInput))
    {
      ghost var off := !pppModeEnable && StaysOff(turns);
      assert tbuf[..0] == [];
      for i := 0 to |turns|
        invariant Valid() && tbufLen == 0 && log == AfterTurns(old(log), turns[..i])
        invariant off ==> !pppModeEnable && chunks == old(chunks)
      {
        assert turns[..i + 1][..i] == turns[..i];
        OneTurn(turns[i]);
      }
      assert turns[..|turns|] == turns;
      assert tbuf[..0] == [];
      Conservation(log);
      if off {
        OffTurns(old(log), turns);
      }
    }
  }
}
