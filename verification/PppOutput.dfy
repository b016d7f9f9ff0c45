/**
 The bytes lwIP sends: `output_cb` copies each packet into a heap block and queues the block's
 address; `gsmPPP_rawOutput` takes the addresses, hands the blocks to the UART and frees them. Any
 number of tasks may be inside `output_cb` at once.
 */
module PppOutput {
  import opened Bytes
  import opened Modem
  import opened Wrappers

  const QUEUE_SLOTS: nat := 12

  /** `sTransmitQueue`: a fixed array and how much of it is filled. */
  datatype Block = Block(data: seq<Byte>, len: nat)

  predicate BlockOk(b: Block) {
    |b.data| == TRANSMIT_QUEUE_BUFF_LEN && b.len <= TRANSMIT_QUEUE_BUFF_LEN
  }

  function Payload(b: Block): seq<Byte>
    requires BlockOk(b)
  {
    b.data[..b.len]
  }

  /** Where `gsmPPP_rawOutput` is: waiting, retrying a block, or about to free it. */
  datatype Transmitter = Waiting | Trying(id: nat) | Sent(id: nat)

  datatype Event =
    | Begin(id: nat, data: seq<Byte>)  // a task enters output_cb: allocate block `id` and fill it
    | Enqueue(id: nat)                 // it puts the block's address into the queue
    | Dequeue                          // the output task takes an address
    | Transmit(ok: bool)               // it calls the UART driver, which accepts or refuses
    | Free                             // it frees the block

  // ---- what a history says, read off the events alone ----

  /** The packet last put into block `id`. */
  function Given(log: seq<Event>, id: nat): seq<Byte> {
    if log == [] then [] else
    var e := log[|log| - 1];
    if e.Begin? && e.id == id then e.data else Given(log[..|log| - 1], id)
  }

  /** The packets `output_cb` has queued, each with the data it was called with. */
  function Queued(log: seq<Event>): seq<seq<Byte>> {
    if log == [] then [] else
    var shorter, e := log[..|log| - 1], log[|log| - 1];
    Queued(shorter) + if e.Enqueue? then [Given(shorter, e.id)] else []
  }

  /** How many packets the UART driver has accepted. */
  function Accepted(log: seq<Event>): nat {
    if log == [] then 0
    else Accepted(log[..|log| - 1]) + if log[|log| - 1] == Transmit(true) then 1 else 0
  }

  // ---- the blocks ----

  /** The live blocks with what each holds, and where they are. */
  datatype Pump = Pump(held: map<nat, seq<Byte>>, filling: set<nat>, queue: seq<nat>, transmitter: Transmitter)

  /** Whether an event can happen now. */
  predicate Can(p: Pump, e: Event) {
    match e
    case Begin(id, data) => id !in p.held && |data| <= TRANSMIT_QUEUE_BUFF_LEN
    case Enqueue(id) => id in p.filling && |p.queue| < QUEUE_SLOTS
    case Dequeue => p.transmitter.Waiting? && p.queue != []
    case Transmit(_) => p.transmitter.Trying?
    case Free => p.transmitter.Sent?
  }

  function Next(p: Pump, e: Event): Pump
    requires Can(p, e)
  {
    match e
    case Begin(id, data) => p.(held := p.held[id := data], filling := p.filling + {id})
    case Enqueue(id) => p.(filling := p.filling - {id}, queue := p.queue + [id])
    case Dequeue => p.(transmitter := Trying(p.queue[0]), queue := p.queue[1..])
    case Transmit(ok) => if ok then p.(transmitter := Sent(p.transmitter.id)) else p
    case Free => p.(held := p.held - {p.transmitter.id}, transmitter := Waiting)
  }

  /** The blocks after a history; an event that cannot happen changes nothing. */
  function Trace(log: seq<Event>): Pump {
    if log == [] then Pump(map[], {}, [], Waiting) else
    var p, e := Trace(log[..|log| - 1]), log[|log| - 1];
    if Can(p, e) then Next(p, e) else p
  }

  /** Every event could happen when it did. */
  predicate Legal(log: seq<Event>) {
    log == [] || (Legal(log[..|log| - 1]) && Can(Trace(log[..|log| - 1]), log[|log| - 1]))
  }

  /** Those of `events` that happen after `log`, the others being skipped. */
  function Performed(log: seq<Event>, events: seq<Event>): seq<Event> {
    if events == [] then [] else
    var before, e := Performed(log, events[..|events| - 1]), events[|events| - 1];
    if Can(Trace(log + before), e) then before + [e] else before
  }

  function InHand(p: Pump): set<nat> {
    if p.transmitter.Waiting? then {} else {p.transmitter.id}
  }

  /** The queued packets the UART has not accepted yet. */
  function Pending(p: Pump): seq<nat> {
    (if p.transmitter.Trying? then [p.transmitter.id] else []) + p.queue
  }

  /** Every live block is in exactly one place. */
  predicate Owned(p: Pump) {
    && (forall i, j :: 0 <= i < j < |p.queue| ==> p.queue[i] != p.queue[j])
    && (forall id :: id in p.queue ==> id !in p.filling && id !in InHand(p))
    && p.filling !! InHand(p)
    && p.held.Keys == p.filling + (set id | id in p.queue) + InHand(p)
  }

  function Packets(held: map<nat, seq<Byte>>, ids: seq<nat>): seq<seq<Byte>>
    requires forall id :: id in ids ==> id in held
  {
    seq(|ids|, i requires 0 <= i < |ids| => held[ids[i]])
  }

  lemma PendingIsHeld(p: Pump)
    requires Owned(p)
    ensures forall id :: id in Pending(p) ==> id in p.held
  {
    forall id | id in Pending(p) ensures id in p.held {
      assert id in p.queue || id in InHand(p);
    }
  }

  lemma SamePackets(held: map<nat, seq<Byte>>, held': map<nat, seq<Byte>>, ids: seq<nat>)
    requires forall id :: id in ids ==> id in held && id in held' && held[id] == held'[id]
    ensures Packets(held, ids) == Packets(held', ids)
  {
  }

  lemma PacketsConcat(held: map<nat, seq<Byte>>, a: seq<nat>, b: seq<nat>)
    requires forall id :: id in a + b ==> id in held
    ensures (forall id :: id in a ==> id in held) && (forall id :: id in b ==> id in held)
    ensures Packets(held, a + b) == Packets(held, a) + Packets(held, b)
  {
    assert forall id :: id in a || id in b ==> id in a + b;
  }

  lemma NextOwned(p: Pump, e: Event)
    requires Owned(p) && Can(p, e)
    ensures Owned(Next(p, e))
  {
    if e.Dequeue? {
      assert p.queue[0] in p.queue;
      assert p.queue == [p.queue[0]] + p.queue[1..];
    }
  }

  /** The packets still to be sent, after `e`: what leaves at the front and what joins at the back. */
  lemma NextPackets(p: Pump, e: Event)
    requires Owned(p) && Can(p, e)
    ensures Owned(Next(p, e)) && (forall id :: id in Pending(p) ==> id in p.held)
    ensures forall id :: id in Pending(Next(p, e)) ==> id in Next(p, e).held
    ensures var before, after := Packets(p.held, Pending(p)), Packets(Next(p, e).held, Pending(Next(p, e)));
            match e
            case Enqueue(id) => id in p.held && after == before + [p.held[id]]
            case Transmit(ok) =>
              p.transmitter.id in p.held && before == if ok then [p.held[p.transmitter.id]] + after else after
            case _ => after == before
  {
    NextOwned(p, e);
    PendingIsHeld(p);
    PendingIsHeld(Next(p, e));
    match e
    case Begin(_, _) =>
      SamePackets(p.held, Next(p, e).held, Pending(p));
    case Enqueue(id) =>
      assert Pending(Next(p, e)) == Pending(p) + [id];
      assert id in p.held.Keys;
      PacketsConcat(p.held, Pending(p), [id]);
      assert Packets(p.held, [id]) == [p.held[id]];
    case Dequeue =>
      assert Pending(Next(p, e)) == Pending(p);
    case Transmit(ok) =>
      assert p.transmitter.id in InHand(p);
      if ok {
        assert Pending(p) == [p.transmitter.id] + Pending(Next(p, e));
        PacketsConcat(p.held, [p.transmitter.id], Pending(Next(p, e)));
        assert Packets(p.held, [p.transmitter.id]) == [p.held[p.transmitter.id]];
      }
    case Free =>
      SamePackets(p.held, Next(p, e).held, Pending(p));
  }

  lemma NextGiven(log: seq<Event>, e: Event)
    requires Can(Trace(log), e)
    requires forall id :: id in Trace(log).held ==> Trace(log).held[id] == Given(log, id)
    ensures forall id :: id in Trace(log + [e]).held ==> Trace(log + [e]).held[id] == Given(log + [e], id)
  {
    assert (log + [e])[..|log|] == log;
  }

  /** Each block holds the packet its task put into it. */
  lemma {:induction false} HeldIsGiven(log: seq<Event>)
    requires Legal(log)
    ensures forall id :: id in Trace(log).held ==> Trace(log).held[id] == Given(log, id)
  {
    if log != [] {
      var shorter, e := log[..|log| - 1], log[|log| - 1];
      HeldIsGiven(shorter);
      NextGiven(shorter, e);
      assert log == shorter + [e];
    }
  }

  /** What has been queued is what the UART accepted and then what is pending. */
  predicate Balanced(log: seq<Event>) {
    var p := Trace(log);
    && Owned(p) && (forall id :: id in Pending(p) ==> id in p.held)
    && Accepted(log) <= |Queued(log)|
    && Queued(log)[Accepted(log)..] == Packets(p.held, Pending(p))
  }

  lemma LegalAppend(log: seq<Event>, e: Event)
    requires Legal(log) && Can(Trace(log), e)
    ensures Legal(log + [e]) && Trace(log + [e]) == Next(Trace(log), e)
    ensures Accepted(log + [e]) == Accepted(log) + if e == Transmit(true) then 1 else 0
    ensures Queued(log + [e]) == Queued(log) + if e.Enqueue? then [Given(log, e.id)] else []
  {
    assert (log + [e])[..|log|] == log;
  }

  /** The boundary between what was sent and what was not moves by one. */
  lemma SendFirst(queued: seq<seq<Byte>>, n: nat, c: seq<Byte>, after: seq<seq<Byte>>)
    requires n <= |queued| && queued[n..] == [c] + after
    ensures n + 1 <= |queued| && queued[n] == c && queued[n + 1..] == after
  {
    assert |queued[n..]| == 1 + |after|;
    assert queued[n] == queued[n..][0];
    assert queued[n + 1..] == queued[n..][1..];
  }

  lemma BalancedNext(log: seq<Event>, e: Event)
    requires Legal(log) && Can(Trace(log), e) && Balanced(log)
    ensures Balanced(log + [e])
  {
    var p, queued, n := Trace(log), Queued(log), Accepted(log);
    LegalAppend(log, e);
    HeldIsGiven(log);
    NextPackets(p, e);
    if e.Enqueue? {
      assert (queued + [Given(log, e.id)])[n..] == queued[n..] + [Given(log, e.id)];
    } else {
      assert Queued(log + [e]) == queued;
      if e == Transmit(true) {
        SendFirst(queued, n, p.held[p.transmitter.id], Packets(Next(p, e).held, Pending(Next(p, e))));
      }
    }
  }

  /**
   Output conservation, for every history. Each live block is in exactly one of filling, queued and
   in the output task's hands, and what `output_cb` has queued is, packet for packet and in order,
   what the UART has accepted followed by what is pending.
   */
  lemma {:induction false} HistoryBalanced(log: seq<Event>)
    requires Legal(log)
    ensures Balanced(log)
  {
    if log != [] {
      var shorter, e := log[..|log| - 1], log[|log| - 1];
      HistoryBalanced(shorter);
      BalancedNext(shorter, e);
      assert log == shorter + [e];
    }
  }

  /** Which events a history can go on with, in terms of what is live, filling, queued and in hand. */
  lemma WhenLegal(log: seq<Event>, e: Event)
    requires Legal(log)
    ensures var p := Trace(log);
            Legal(log + [e]) <==>
            match e
            case Begin(id, data) => id !in p.held && |data| <= 2048
            case Enqueue(id) => id in p.filling && |p.queue| < 12
            case Dequeue => p.transmitter == Waiting && p.queue != []
            case Transmit(_) => p.transmitter.Trying?
            case Free => p.transmitter.Sent?
  {
    assert (log + [e])[..|log|] == log;
  }

  /** The queue of block addresses never holds more than its twelve slots. */
  lemma {:induction false} QueueBounded(log: seq<Event>)
    requires Legal(log)
    ensures |Trace(log).queue| <= 12
  {
    if log != [] {
      QueueBounded(log[..|log| - 1]);
    }
  }

  lemma LegalExtends(log: seq<Event>, e: Event)
    ensures Legal(log + [e]) <==> Legal(log) && Can(Trace(log), e)
  {
    assert (log + [e])[..|log|] == log;
  }

  lemma PerformedStep(log: seq<Event>, events: seq<Event>, e: Event)
    requires Legal(log + Performed(log, events))
    ensures var before := Performed(log, events);
            Performed(log, events + [e]) == if Legal(log + before + [e]) then before + [e] else before
  {
    assert (events + [e])[..|events|] == events;
    LegalExtends(log + Performed(log, events), e);
  }

  lemma PerformedLegalStep(log: seq<Event>, events: seq<Event>, e: Event)
    requires Legal(log + Performed(log, events))
    ensures Legal(log + Performed(log, events + [e]))
  {
    var before := Performed(log, events);
    PerformedStep(log, events, e);
    assert log + before + [e] == log + (before + [e]);
  }

  lemma {:induction false} PerformedIsLegal(log: seq<Event>, events: seq<Event>)
    requires Legal(log)
    ensures Legal(log + Performed(log, events))
  {
    if events == [] {
      assert log + [] == log;
    } else {
      var shorter, e := events[..|events| - 1], events[|events| - 1];
      PerformedIsLegal(log, shorter);
      PerformedLegalStep(log, shorter, e);
      assert events == shorter + [e];
    }
  }

  /** One more offered event happens exactly if the history so far can go on with it. */
  lemma PerformedIsMaximal(log: seq<Event>, events: seq<Event>, e: Event)
    requires Legal(log)
    ensures Performed(log, []) == [] && Legal(log + Performed(log, events))
    ensures var before := Performed(log, events);
            Performed(log, events + [e]) == if Legal(log + before + [e]) then before + [e] else before
  {
    PerformedIsLegal(log, events);
    PerformedStep(log, events, e);
  }

  class Output {
    var heap: map<nat, Block>
    var filling: set<nat>        // allocated in output_cb, not queued yet
    var queue: seq<nat>
    var transmitter: Transmitter
    ghost var log: seq<Event>           // what has happened
    ghost var uart: seq<seq<Byte>>      // the packets the UART driver accepted

    /** The fields are what the history says, and the UART got the first packets of those queued. */
    ghost predicate Valid()
      reads this
    {
      && Legal(log)
      && Trace(log).filling == filling && Trace(log).queue == queue && Trace(log).transmitter == transmitter
      && Trace(log).held.Keys == heap.Keys
      && (forall id :: id in heap ==> BlockOk(heap[id]) && Payload(heap[id]) == Trace(log).held[id])
      && Accepted(log) <= |Queued(log)| && uart == Queued(log)[..Accepted(log)]
    }

    constructor ()
      ensures Valid() && heap == map[] && log == [] && uart == []
    {
      heap, filling, queue, transmitter := map[], {}, [], Waiting;
      log, uart := [], [];
    }

    /**
     `output_cb` up to the send. The stores stay inside the block exactly when there is memory and
     the packet is no longer than the block's array; then the block holds the packet. Otherwise the
     model stops before them.
     */
    method OutputBegin(block: Option<nat>, data: seq<Byte>) returns (inside: bool)
      requires Valid() && (block.Some? ==> block.value !in heap)
      modifies this
      ensures Valid() && inside == (block.Some? && |data| <= TRANSMIT_QUEUE_BUFF_LEN)
      ensures inside ==> log == old(log) + [Begin(block.value, data)]
      ensures inside ==> heap.Keys == old(heap).Keys + {block.value} && heap - {block.value} == old(heap)
      ensures inside ==> BlockOk(heap[block.value]) && Payload(heap[block.value]) == data
      ensures !inside ==> log == old(log) && heap == old(heap)
      ensures uart == old(uart) && queue == old(queue) && transmitter == old(transmitter)
    {
      inside := block.Some? && |data| <= TRANSMIT_QUEUE_BUFF_LEN;
      if inside {
        var id := block.value;
        LegalAppend(log, Begin(id, data));
        var rest := seq(TRANSMIT_QUEUE_BUFF_LEN - |data|, _ => 0);
        heap := heap[id := Block(data + rest, |data|)];
        filling := filling + {id};
        log := log + [Begin(id, data)];
      }
    }

    /** The send of `output_cb`, once the queue has room. */
    method OutputEnqueue(id: nat)
      requires Valid() && id in filling && |queue| < QUEUE_SLOTS
      modifies `filling, `queue, `log
      ensures Valid() && log == old(log) + [Enqueue(id)]
      ensures queue == old(queue) + [id] && filling == old(filling) - {id}
    {
      LegalAppend(log, Enqueue(id));
      queue, filling := queue + [id], filling - {id};
      log := log + [Enqueue(id)];
    }

    /** The output task takes the oldest address. */
    method TakeBlock()
      requires Valid() && transmitter.Waiting? && queue != []
      modifies `queue, `transmitter, `log
      ensures Valid() && log == old(log) + [Dequeue]
      ensures transmitter == Trying(old(queue)[0]) && queue == old(queue)[1..]
    {
      LegalAppend(log, Dequeue);
      transmitter, queue := Trying(queue[0]), queue[1..];
      log := log + [Dequeue];
    }

    /** One call of the UART driver; refused calls are repeated with the same block. */
    method TransmitOnce(ok: bool)
      requires Valid() && transmitter.Trying?
      modifies `transmitter, `uart, `log
      ensures Valid() && log == old(log) + [Transmit(ok)]
      ensures transmitter == if ok then Sent(old(transmitter).id) else old(transmitter)
      ensures transmitter.id in heap && BlockOk(heap[transmitter.id])
      ensures uart == old(uart) + if ok then [Payload(heap[transmitter.id])] else []
    {
      HistoryBalanced(log);
      LegalAppend(log, Transmit(ok));
      NextPackets(Trace(log), Transmit(ok));
      if ok {
        var id := transmitter.id;
        ghost var queued, n := Queued(log), Accepted(log);
        assert queued[n..][0] == queued[n] == Payload(heap[id]);
        transmitter := Sent(id);
        uart := uart + [Payload(heap[id])];
        assert queued[..n + 1] == queued[..n] + [queued[n]];
      }
      log := log + [Transmit(ok)];
    }

    method FreeBlock()
      requires Valid() && transmitter.Sent?
      modifies `heap, `transmitter, `log
      ensures Valid() && log == old(log) + [Free]
      ensures transmitter.Waiting? && heap == old(heap) - {old(transmitter.id)}
    {
      LegalAppend(log, Free);
      heap := heap - {transmitter.id};
      transmitter := Waiting;
      log := log + [Free];
    }

    /** The retry loop: the block is offered until the driver accepts it. */
    method SendBlock(refusals: nat)
      requires Valid() && transmitter.Trying?
      modifies `transmitter, `uart, `log
      ensures Valid() && transmitter == Sent(old(transmitter).id)
      ensures log == old(log) + seq(refusals, _ => Transmit(false)) + [Transmit(true)]
      ensures old(transmitter).id in heap && BlockOk(heap[old(transmitter).id])
      ensures uart == old(uart) + [Payload(heap[old(transmitter).id])]
    {
      for i := 0 to refusals
        invariant Valid() && transmitter == old(transmitter) && uart == old(uart)
        invariant log == old(log) + seq(i, _ => Transmit(false))
      {
        TransmitOnce(false);
      }
      TransmitOnce(true);
    }

    /** One turn of `gsmPPP_rawOutput`: the oldest packet is sent once, however often it is refused. */
    method RawOutputTurn(refusals: nat)
      requires Valid() && transmitter.Waiting? && queue != []
      modifies `heap, `queue, `transmitter, `uart, `log
      ensures Valid() && transmitter.Waiting? && queue == old(queue)[1..]
      ensures heap == old(heap) - {old(queue)[0]}
      ensures uart == old(uart) + [Given(old(log), old(queue)[0])]
      ensures log == old(log) + [Dequeue] + seq(refusals, _ => Transmit(false)) + [Transmit(true)] + [Free]
    {
      HeldIsGiven(log);
      TakeBlock();
      SendBlock(refusals);
      FreeBlock();
    }

    /** Whether an event can happen, by the fields. */
    predicate CanHappen(e: Event)
      reads this
    {
      match e
      case Begin(id, data) => id !in heap && |data| <= TRANSMIT_QUEUE_BUFF_LEN
      case Enqueue(id) => id in filling && |queue| < QUEUE_SLOTS
      case Dequeue => transmitter.Waiting? && queue != []
      case Transmit(_) => transmitter.Trying?
      case Free => transmitter.Sent?
    }

    /** Any event: it is recorded, and the fields become what the longer history says. */
    method Happen(e: Event)
      requires Valid() && CanHappen(e)
      modifies this
      ensures Valid() && Can(Trace(old(log)), e) && log == old(log) + [e]
    {
      match e {
        case Begin(id, data) => var _ := OutputBegin(Some(id), data);
        case Enqueue(id) => OutputEnqueue(id);
        case Dequeue => TakeBlock();
        case Transmit(ok) => TransmitOnce(ok);
        case Free => FreeBlock();
      }
    }

    /** An event that cannot happen now is skipped. */
    method Offer(e: Event)
      requires Valid()
      modifies this
      ensures Valid() && log == if Can(Trace(old(log)), e) then old(log) + [e] else old(log)
    {
      if CanHappen(e) {
        Happen(e);
      }
    }

    /**
     Any interleaving: exactly those of the events happen that can, each in its turn. The UART's
     bytes are a prefix of the bytes `output_cb` was given, in the order of its sends, and all of
     them once nothing is pending.
     */
    method Run(events: seq<Event>)
      requires Valid()
      modifies this
      ensures Valid() && log == old(log) + Performed(old(log), events)
      ensures Concat(uart) <= Concat(Queued(log))
      ensures Pending(Trace(log)) == [] ==> Concat(uart) == Concat(Queued(log))
    {
      for i := 0 to |events|
        invariant Valid() && log == old(log) + Performed(old(log), events[..i])
      {
        assert events[..i + 1][..i] == events[..i];
        Offer(events[i]);
      }
      assert events[..|events|] == events;
      UartIsPrefix(log, uart);
    }
  }

  lemma UartIsPrefix(log: seq<Event>, uart: seq<seq<Byte>>)
    requires Legal(log) && Accepted(log) <= |Queued(log)| && uart == Queued(log)[..Accepted(log)]
    ensures Concat(uart) <= Concat(Queued(log))
    ensures Pending(Trace(log)) == [] ==> Concat(uart) == Concat(Queued(log))
  {
    HistoryBalanced(log);
    PacketsAreBytes(uart, Queued(log));
    if Pending(Trace(log)) == [] {
      assert Queued(log)[Accepted(log)..] == [];
      assert uart == Queued(log);
    }
  }

  /** A prefix of packets is a prefix of bytes. */
  lemma {:induction false} PacketsAreBytes(sent: seq<seq<Byte>>, queued: seq<seq<Byte>>)
    requires sent <= queued
    ensures Concat(sent) <= Concat(queued)
  {
    ConcatAppend(sent, queued[|sent|..]);
    assert sent + queued[|sent|..] == queued;
  }
}
