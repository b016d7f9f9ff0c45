/** The shared pool's steps, performed by one task with no other in between, are the one-task call. */
module PoolAlone {
  import opened Bytes
  import opened PoolLayout
  import opened BufferPool
  import opened PoolTasks

  /** The steps of one call from slot `x` on: visit, then deliver or give up. */
  function Calls(c: Config, m: seq<Byte>, t: nat, x: nat): seq<Action>
    requires Covers(c, m)
    decreases c.count - x
  {
    if x >= c.count then [GiveUp(t)]
    else if SlotInUse(c, m, x) then [Visit(t)] + Calls(c, m, t, x + 1)
    else [Visit(t), Deliver(t)]
  }

  /** `actions` can be performed from `s` one after the other and end in `end`. */
  ghost predicate Leads(c: Config, s: State, actions: seq<Action>, end: State)
    decreases |actions|
  {
    if actions == [] then s == end
    else Enabled(c, s, actions[0]) && Leads(c, Apply(c, s, actions[0]), actions[1..], end)
  }

  predicate Alone(c: Config, s: State, t: nat, x: nat) {
    && Covers(c, s.mem) && t < |s.clients| && x <= c.count
    && s.clients[t].pc == Scanning(x) && AllInUse(c, s.mem, x)
  }

  /** From a scan that has found the slots below `x` in use: the lowest free slot, or none. */
  lemma {:induction false} ScanAlone(c: Config, s: State, t: nat, x: nat) returns (end: State)
    requires Alone(c, s, t, x)
    ensures Leads(c, s, Calls(c, s.mem, t, x), end)
    ensures t < |end.clients| && end.clients[t].pc.Idle?
    ensures AllInUse(c, s.mem, c.count) ==> end.mem == s.mem && end.clients[t].held == s.clients[t].held
    ensures !AllInUse(c, s.mem, c.count) ==>
              exists y: nat :: Marks(c, s.mem, end.mem, y) && end.clients[t].held == s.clients[t].held + {c.Data(y)}
    decreases c.count - x
  {
    if x == c.count {
      end := Apply(c, s, GiveUp(t));
      assert Leads(c, end, [], end);
    } else {
      SlotInPool(c, x);
      var next := Apply(c, s, Visit(t));
      if SlotInUse(c, s.mem, x) {
        end := ScanAlone(c, next, t, x + 1);
        assert ([Visit(t)] + Calls(c, s.mem, t, x + 1))[1..] == Calls(c, s.mem, t, x + 1);
      } else {
        end := Apply(c, next, Deliver(t));
        assert [Visit(t), Deliver(t)][1..] == [Deliver(t)] && [Deliver(t)][1..] == [];
        assert Leads(c, end, [], end);
        assert Leads(c, next, [Deliver(t)], end);
        assert Marks(c, s.mem, end.mem, x);
      }
    }
  }

  /**
   An undisturbed call of an idle task in the shared machine does what `BufferPool.Pool.GetFreeBuffer`
   does: the lowest free slot is marked and held, or nothing changes when there is none.
   */
  lemma CallAlone(c: Config, s: State, t: nat, length: nat) returns (end: State)
    requires Covers(c, s.mem) && t < |s.clients| && s.clients[t].pc.Idle?
    ensures length > c.size ==> end == s && Leads(c, s, [Begin(t, length)], end)
    ensures length <= c.size ==> Leads(c, s, [Begin(t, length)] + Calls(c, s.mem, t, 0), end)
    ensures t < |end.clients| && end.clients[t].pc.Idle?
    ensures length > c.size || AllInUse(c, s.mem, c.count) ==>
              end.mem == s.mem && end.clients[t].held == s.clients[t].held
    ensures length <= c.size && !AllInUse(c, s.mem, c.count) ==>
              exists y: nat :: Marks(c, s.mem, end.mem, y) && end.clients[t].held == s.clients[t].held + {c.Data(y)}
  {
    var begun := Apply(c, s, Begin(t, length));
    if length > c.size {
      end := s;
      assert [Begin(t, length)][1..] == [];
      assert Leads(c, begun, [], end);
    } else {
      end := ScanAlone(c, begun, t, 0);
      assert ([Begin(t, length)] + Calls(c, s.mem, t, 0))[1..] == Calls(c, s.mem, t, 0);
    }
  }
}
