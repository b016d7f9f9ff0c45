/**
 The buffer pool shared by any number of tasks. `BUFFERPOOL_GetFreeBuffer` holds the critical
 section for one slot at a time, so other tasks run between the visits of a scan and between the
 marking of a slot and the return of its address. Holders write their buffers at any time.
 */
module PoolTasks {
  import opened Bytes
  import opened PoolLayout
  import opened BufferPool

  /** Where a task is inside `BUFFERPOOL_GetFreeBuffer`. */
  datatype Pc = Idle | Scanning(next: nat) | Marked(slot: nat)

  /** `held` are the data addresses the task has been given and has not returned. */
  datatype Client = Client(pc: Pc, held: set<nat>)

  datatype State = State(mem: seq<Byte>, clients: seq<Client>)

  datatype Action =
    | Begin(t: nat, length: nat)
    | Visit(t: nat)
    | GiveUp(t: nat)
    | Deliver(t: nat)
    | Return(t: nat, data: nat)
    | Write(t: nat, data: nat, offset: nat, value: Byte)

  predicate Enabled(c: Config, s: State, a: Action) {
    Covers(c, s.mem) && a.t < |s.clients| &&
    var me := s.clients[a.t];
    match a
    case Begin(_, _) => me.pc.Idle?
    case Visit(_) => me.pc.Scanning? && me.pc.next < c.count
    case GiveUp(_) => me.pc.Scanning? && me.pc.next >= c.count
    case Deliver(_) => me.pc.Marked?
    case Return(_, data) => me.pc.Idle? && data in me.held && 0 < data <= |s.mem|
    case Write(_, data, offset, _) => data in me.held && offset < c.size && data + offset < |s.mem|
  }

  function SetPc(s: State, t: nat, pc: Pc): State
    requires t < |s.clients|
  {
    s.(clients := s.clients[t := s.clients[t].(pc := pc)])
  }

  function SetHeld(s: State, t: nat, held: set<nat>): State
    requires t < |s.clients|
  {
    s.(clients := s.clients[t := s.clients[t].(held := held)])
  }

  function Apply(c: Config, s: State, a: Action): State
    requires Enabled(c, s, a)
  {
    var me := s.clients[a.t];
    match a
    case Begin(t, length) => if length <= c.size then SetPc(s, t, Scanning(0)) else s
    case Visit(t) =>
      var x := me.pc.next;
      SlotInPool(c, x);
      if SlotInUse(c, s.mem, x) then SetPc(s, t, Scanning(x + 1))
      else SetPc(s.(mem := s.mem[c.Flag(x) := 1]), t, Marked(x))
    case GiveUp(t) => SetPc(s, t, Idle)
    case Deliver(t) => SetHeld(SetPc(s, t, Idle), t, me.held + {c.Data(me.pc.slot)})
    case Return(t, data) => SetHeld(s.(mem := s.mem[data - 1 := 0]), t, me.held - {data})
    case Write(t, data, offset, value) => s.(mem := s.mem[data + offset := value])
  }

  /** Slot `x` is marked by the task or in its hands. */
  predicate Owns(c: Config, me: Client, x: nat) {
    me.pc == Marked(x) || c.Data(x) in me.held
  }

  predicate OwnedBy(c: Config, s: State, t: int, x: nat) {
    0 <= t < |s.clients| && Owns(c, s.clients[t], x)
  }

  ghost predicate IsData(c: Config, p: nat) {
    exists x :: 0 <= x < c.count && p == c.Data(x)
  }

  ghost predicate ClientOk(c: Config, me: Client) {
    && (me.pc.Marked? ==> me.pc.slot < c.count && c.Data(me.pc.slot) !in me.held)
    && (forall p :: p in me.held ==> IsData(c, p))
  }

  ghost predicate Owned(c: Config, s: State, x: nat) {
    exists t :: OwnedBy(c, s, t, x)
  }

  ghost predicate Inv(c: Config, s: State) {
    && Covers(c, s.mem)
    && (forall t :: 0 <= t < |s.clients| ==> ClientOk(c, s.clients[t]))
    && (forall x :: 0 <= x < c.count ==> (SlotInUse(c, s.mem, x) <==> Owned(c, s, x)))
    && (forall x, t, u :: 0 <= x < c.count && OwnedBy(c, s, t, x) && OwnedBy(c, s, u, x) ==> t == u)
  }

  /** A client's write inside a buffer changes no in-use flag. */
  lemma DataWriteKeepsFlags(c: Config, m: seq<Byte>, x: nat, offset: nat, value: Byte)
    requires Covers(c, m) && x < c.count && offset < c.size
    ensures 0 <= c.Data(x) + offset < |m|
    ensures forall j :: 0 <= j < c.count ==>
              SlotInUse(c, m[c.Data(x) + offset := value], j) == SlotInUse(c, m, j)
  {
    SlotInPool(c, x);
    var after := m[c.Data(x) + offset := value];
    forall j | 0 <= j < c.count ensures SlotInUse(c, after, j) == SlotInUse(c, m, j) {
      SlotInPool(c, j);
      if c.Flag(j) == c.Data(x) + offset {
        InOneSlot(c, x, j, c.Flag(j));
      }
    }
  }

  /** If task `t`'s ownership changes in slot `x` only, the others' is untouched. */
  predicate SameElsewhere(c: Config, s: State, s': State, t: nat, x: nat) {
    && |s.clients| == |s'.clients| && t < |s.clients|
    && (forall u :: 0 <= u < |s.clients| && u != t ==> s'.clients[u] == s.clients[u])
    && (forall y :: 0 <= y < c.count && y != x ==> Owns(c, s'.clients[t], y) == Owns(c, s.clients[t], y))
  }

  /** No ownership changes and no flag changes. */
  lemma KeepsInv(c: Config, s: State, s': State, t: nat)
    requires Inv(c, s) && Covers(c, s'.mem) && SameElsewhere(c, s, s', t, c.count)
    requires ClientOk(c, s'.clients[t])
    requires forall j :: 0 <= j < c.count ==> SlotInUse(c, s'.mem, j) == SlotInUse(c, s.mem, j)
    ensures Inv(c, s')
  {
    forall x, u | 0 <= x < c.count ensures OwnedBy(c, s', u, x) == OwnedBy(c, s, u, x) {
    }
    forall x | 0 <= x < c.count ensures Owned(c, s', x) == Owned(c, s, x) {
      if Owned(c, s, x) {
        var u :| OwnedBy(c, s, u, x);
        assert OwnedBy(c, s', u, x);
      }
      if Owned(c, s', x) {
        var u :| OwnedBy(c, s', u, x);
        assert OwnedBy(c, s, u, x);
      }
    }
  }

  /** Task `t` becomes the owner of free slot `x` and its flag is set. */
  lemma TakingKeepsInv(c: Config, s: State, s': State, t: nat, x: nat)
    requires Inv(c, s) && x < c.count && !SlotInUse(c, s.mem, x) && SameElsewhere(c, s, s', t, x)
    requires Owns(c, s'.clients[t], x) && ClientOk(c, s'.clients[t])
    requires 0 <= c.Flag(x) < |s.mem| && s'.mem == s.mem[c.Flag(x) := 1]
    ensures Inv(c, s')
  {
    FlagWrite(c, s.mem, x, 1);
    assert !Owned(c, s, x);
    forall y, u | 0 <= y < c.count
      ensures OwnedBy(c, s', u, y) == (OwnedBy(c, s, u, y) || (u == t && y == x))
    {
      assert !OwnedBy(c, s, u, x);
    }
    forall y | 0 <= y < c.count ensures Owned(c, s', y) == (Owned(c, s, y) || y == x) {
      if Owned(c, s, y) {
        var u :| OwnedBy(c, s, u, y);
        assert OwnedBy(c, s', u, y);
      }
      if y == x {
        assert OwnedBy(c, s', t, y);
      }
      if Owned(c, s', y) {
        var u :| OwnedBy(c, s', u, y);
        assert OwnedBy(c, s, u, y) || y == x;
      }
    }
  }

  /** Task `t` gives slot `x` up and its flag is cleared. */
  lemma ReturningKeepsInv(c: Config, s: State, s': State, t: nat, x: nat)
    requires Inv(c, s) && x < c.count && SameElsewhere(c, s, s', t, x)
    requires Owns(c, s.clients[t], x) && !Owns(c, s'.clients[t], x) && ClientOk(c, s'.clients[t])
    requires 0 <= c.Flag(x) < |s.mem| && s'.mem == s.mem[c.Flag(x) := 0]
    ensures Inv(c, s')
  {
    FlagWrite(c, s.mem, x, 0);
    assert OwnedBy(c, s, t, x);
    forall y, u | 0 <= y < c.count
      ensures OwnedBy(c, s', u, y) == (OwnedBy(c, s, u, y) && y != x)
    {
      assert y == x && OwnedBy(c, s, u, y) ==> u == t;
    }
    forall y | 0 <= y < c.count ensures Owned(c, s', y) == (Owned(c, s, y) && y != x) {
      if Owned(c, s, y) && y != x {
        var u :| OwnedBy(c, s, u, y);
        assert OwnedBy(c, s', u, y);
      }
      if Owned(c, s', y) {
        var u :| OwnedBy(c, s', u, y);
        assert OwnedBy(c, s, u, y) && y != x;
      }
    }
  }

  lemma VisitKeepsInv(c: Config, s: State, t: nat)
    requires Inv(c, s) && Enabled(c, s, Visit(t))
    ensures Inv(c, Apply(c, s, Visit(t)))
  {
    var x, s' := s.clients[t].pc.next, Apply(c, s, Visit(t));
    if SlotInUse(c, s.mem, x) {
      KeepsInv(c, s, s', t);
    } else {
      SlotInPool(c, x);
      assert !Owned(c, s, x);
      assert !OwnedBy(c, s, t, x);
      TakingKeepsInv(c, s, s', t, x);
    }
  }

  lemma DeliverKeepsInv(c: Config, s: State, t: nat)
    requires Inv(c, s) && Enabled(c, s, Deliver(t))
    ensures Inv(c, Apply(c, s, Deliver(t)))
  {
    var x, s' := s.clients[t].pc.slot, Apply(c, s, Deliver(t));
    assert ClientOk(c, s.clients[t]);
    assert IsData(c, c.Data(x));
    forall y | 0 <= y < c.count ensures Owns(c, s'.clients[t], y) == Owns(c, s.clients[t], y) {
      if c.Data(y) == c.Data(x) {
        SlotDetermined(c, x, y);
      }
    }
    KeepsInv(c, s, s', t);
  }

  lemma ReturnKeepsInv(c: Config, s: State, t: nat, data: nat)
    requires Inv(c, s) && Enabled(c, s, Return(t, data))
    ensures Inv(c, Apply(c, s, Return(t, data)))
  {
    var s' := Apply(c, s, Return(t, data));
    assert ClientOk(c, s.clients[t]) && IsData(c, data);
    var x :| 0 <= x < c.count && data == c.Data(x);
    SlotInPool(c, x);
    forall y | 0 <= y < c.count && y != x ensures Owns(c, s'.clients[t], y) == Owns(c, s.clients[t], y) {
      if c.Data(y) == c.Data(x) {
        SlotDetermined(c, x, y);
      }
    }
    ReturningKeepsInv(c, s, s', t, x);
  }

  lemma WriteKeepsInv(c: Config, s: State, t: nat, data: nat, offset: nat, value: Byte)
    requires Inv(c, s) && Enabled(c, s, Write(t, data, offset, value))
    ensures Inv(c, Apply(c, s, Write(t, data, offset, value)))
  {
    assert ClientOk(c, s.clients[t]) && IsData(c, data);
    var x :| 0 <= x < c.count && data == c.Data(x);
    DataWriteKeepsFlags(c, s.mem, x, offset, value);
    KeepsInv(c, s, Apply(c, s, Write(t, data, offset, value)), t);
  }

  lemma StepKeepsInv(c: Config, s: State, a: Action)
    requires Inv(c, s) && Enabled(c, s, a)
    ensures Inv(c, Apply(c, s, a))
  {
    match a {
      case Begin(t, _) =>
        assert ClientOk(c, s.clients[t]);
        KeepsInv(c, s, Apply(c, s, a), t);
      case Visit(t) => VisitKeepsInv(c, s, t);
      case GiveUp(t) =>
        assert ClientOk(c, s.clients[t]);
        KeepsInv(c, s, Apply(c, s, a), t);
      case Deliver(t) => DeliverKeepsInv(c, s, t);
      case Return(t, data) => ReturnKeepsInv(c, s, t, data);
      case Write(t, data, offset, value) => WriteKeepsInv(c, s, t, data, offset, value);
    }
  }
}
