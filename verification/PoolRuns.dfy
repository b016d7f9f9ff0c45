/** What every run of the shared buffer pool keeps. */
module PoolRuns {
  import opened Bytes
  import opened PoolLayout
  import opened BufferPool
  import opened PoolTasks

  datatype Step = Step(pre: State, action: Action, post: State)

  predicate Legal(c: Config, t: Step) {
    Enabled(c, t.pre, t.action) && t.post == Apply(c, t.pre, t.action)
  }

  /** After `BUFFERPOOL_Init`: every slot is free and no task has called the pool yet. */
  ghost predicate Boot(c: Config, s: State) {
    && Covers(c, s.mem) && FreeBelow(c, s.mem, c.count)
    && forall t :: 0 <= t < |s.clients| ==> s.clients[t] == Client(Idle, {})
  }

  predicate FitsAt(c: Config, boot: State, run: seq<Step>, i: nat)
    requires i < |run|
  {
    run[i].pre == StateAt(boot, run, i) && Legal(c, run[i])
  }

  function StateAt(boot: State, run: seq<Step>, i: nat): State
    requires i <= |run|
  {
    if i == 0 then boot else run[i - 1].post
  }

  ghost predicate Run(c: Config, boot: State, run: seq<Step>) {
    Boot(c, boot) && forall i :: 0 <= i < |run| ==> FitsAt(c, boot, run, i)
  }

  lemma {:induction false} RunKeepsInv(c: Config, boot: State, run: seq<Step>, i: nat)
    requires Run(c, boot, run) && i <= |run|
    ensures Inv(c, StateAt(boot, run, i))
    ensures |StateAt(boot, run, i).clients| == |boot.clients|
    decreases i
  {
    if i == 0 {
      forall x | 0 <= x < c.count ensures !Owned(c, boot, x) && !SlotInUse(c, boot.mem, x) {
      }
    } else {
      RunKeepsInv(c, boot, run, i - 1);
      assert FitsAt(c, boot, run, i - 1);
      StepKeepsInv(c, run[i - 1].pre, run[i - 1].action);
    }
  }

  /** A buffer in some task's hands, or marked and about to be handed over. */
  predicate Taken(c: Config, me: Client, data: nat) {
    data in me.held || (me.pc.Marked? && data == c.Data(me.pc.slot))
  }

  /**
   Pool safety, for any number of tasks and slots and any interleaving. No buffer is taken by two
   tasks; a slot's flag is set exactly when its buffer is held or marked for delivery, never both.
   */
  lemma PoolSafety(c: Config, boot: State, run: seq<Step>, i: nat)
    requires Run(c, boot, run) && i <= |run|
    ensures var s := StateAt(boot, run, i);
            && Covers(c, s.mem)
            && (forall t, u, p ::
                  (&& 0 <= t < |s.clients| && 0 <= u < |s.clients|
                   && Taken(c, s.clients[t], p) && Taken(c, s.clients[u], p)) ==> t == u)
            && (forall t :: 0 <= t < |s.clients| && s.clients[t].pc.Marked? ==>
                  c.Data(s.clients[t].pc.slot) !in s.clients[t].held)
            && (forall x :: 0 <= x < c.count ==>
                  (SlotInUse(c, s.mem, x) <==>
                   exists t :: 0 <= t < |s.clients| && Taken(c, s.clients[t], c.Data(x))))
  {
    RunKeepsInv(c, boot, run, i);
    var s := StateAt(boot, run, i);
    forall x | 0 <= x < c.count
      ensures SlotInUse(c, s.mem, x) <==>
              exists t :: 0 <= t < |s.clients| && Taken(c, s.clients[t], c.Data(x))
    {
      if SlotInUse(c, s.mem, x) {
        var t :| OwnedBy(c, s, t, x);
        assert Taken(c, s.clients[t], c.Data(x));
      }
      if t :| 0 <= t < |s.clients| && Taken(c, s.clients[t], c.Data(x)) {
        var y := TakenIsOwned(c, s, t, c.Data(x));
        SlotDetermined(c, x, y);
      }
    }
    forall t, u, p | 0 <= t < |s.clients| && 0 <= u < |s.clients|
                     && Taken(c, s.clients[t], p) && Taken(c, s.clients[u], p)
      ensures t == u
    {
      var x := TakenIsOwned(c, s, t, p);
      var y := TakenIsOwned(c, s, u, p);
      SlotDetermined(c, x, y);
    }
    forall t | 0 <= t < |s.clients| && s.clients[t].pc.Marked?
      ensures c.Data(s.clients[t].pc.slot) !in s.clients[t].held
    {
      assert ClientOk(c, s.clients[t]);
    }
  }

  lemma TakenIsOwned(c: Config, s: State, t: nat, p: nat) returns (x: nat)
    requires Inv(c, s) && t < |s.clients| && Taken(c, s.clients[t], p)
    ensures x < c.count && p == c.Data(x) && OwnedBy(c, s, t, x)
  {
    assert ClientOk(c, s.clients[t]);
    if p in s.clients[t].held {
      assert IsData(c, p);
      x :| 0 <= x < c.count && p == c.Data(x);
    } else {
      x := s.clients[t].pc.slot;
    }
  }

  // ---- the memory frame ----

  /** One step leaves the bytes of a held buffer alone unless the holder itself writes them. */
  lemma StepKeepsBytes(c: Config, s: State, a: Action, t: nat, data: nat)
    requires Inv(c, s) && Enabled(c, s, a)
    requires t < |s.clients| && data in s.clients[t].held
    requires !(a.Write? && a.t == t && a.data == data)
    ensures data + c.size <= |s.mem| == |Apply(c, s, a).mem|
    ensures Apply(c, s, a).mem[data..data + c.size] == s.mem[data..data + c.size]
  {
    var x := TakenIsOwned(c, s, t, data);
    SlotInPool(c, x);
    var s' := Apply(c, s, a);
    if a.Visit? {
      SlotInPool(c, s.clients[a.t].pc.next);
      FlagOutsideData(c, s.clients[a.t].pc.next, x);
    } else if a.Return? {
      var y := TakenIsOwned(c, s, a.t, a.data);
      FlagOutsideData(c, y, x);
    } else if a.Write? {
      var y := TakenIsOwned(c, s, a.t, a.data);
      if x == y {
        assert false;
      }
      DataOutsideData(c, y, x, a.offset);
    }
  }

  lemma FlagOutsideData(c: Config, y: nat, x: nat)
    ensures !(c.Data(x) <= c.Flag(y) < c.Data(x) + c.size)
  {
    if c.Data(x) <= c.Flag(y) < c.Data(x) + c.size {
      InOneSlot(c, x, y, c.Flag(y));
      assert false;
    }
  }

  lemma DataOutsideData(c: Config, y: nat, x: nat, offset: nat)
    requires x != y && offset < c.size
    ensures !(c.Data(x) <= c.Data(y) + offset < c.Data(x) + c.size)
  {
    if c.Data(x) <= c.Data(y) + offset < c.Data(x) + c.size {
      InOneSlot(c, x, y, c.Data(y) + offset);
      assert false;
    }
  }

  /** Throughout `i..j` task `t` holds the buffer and does not write it. */
  predicate Undisturbed(boot: State, run: seq<Step>, i: nat, j: nat, t: nat, data: nat) {
    && i <= j <= |run|
    && (forall k :: i <= k <= j ==> Holds(StateAt(boot, run, k), t, data))
    && (forall k :: i <= k < j ==> !(run[k].action.Write? && run[k].action.t == t && run[k].action.data == data))
  }

  predicate Holds(s: State, t: nat, data: nat) {
    t < |s.clients| && data in s.clients[t].held
  }

  /**
   Memory frame. Whatever the other tasks take, return and write, the bytes of a buffer stay as
   its holder left them for as long as it holds the buffer.
   */
  lemma {:induction false} HeldBytesKept(c: Config, boot: State, run: seq<Step>, i: nat, j: nat, t: nat, data: nat)
    requires Run(c, boot, run) && Undisturbed(boot, run, i, j, t, data)
    ensures var m, n := StateAt(boot, run, i).mem, StateAt(boot, run, j).mem;
            data + c.size <= |m| == |n| && m[data..data + c.size] == n[data..data + c.size]
    decreases j
  {
    RunKeepsInv(c, boot, run, j);
    var s := StateAt(boot, run, j);
    assert Holds(s, t, data);
    if i == j {
      var x := TakenIsOwned(c, s, t, data);
      SlotInPool(c, x);
    } else {
      assert Undisturbed(boot, run, i, j - 1, t, data);
      HeldBytesKept(c, boot, run, i, j - 1, t, data);
      RunKeepsInv(c, boot, run, j - 1);
      assert FitsAt(c, boot, run, j - 1) && Holds(StateAt(boot, run, j - 1), t, data);
      StepKeepsBytes(c, run[j - 1].pre, run[j - 1].action, t, data);
    }
  }

  /** A return clears exactly the flag of the one slot whose data address was handed out. */
  lemma ReturnClearsOwnFlag(c: Config, boot: State, run: seq<Step>, i: nat)
    requires Run(c, boot, run) && i < |run| && run[i].action.Return?
    ensures exists x :: && 0 <= x < c.count && run[i].action.data == c.Data(x)
                        && Covers(c, run[i].pre.mem) && Covers(c, run[i].post.mem)
                        && SlotInUse(c, run[i].pre.mem, x)
                        && forall j :: 0 <= j < c.count ==>
                             SlotInUse(c, run[i].post.mem, j) == (j != x && SlotInUse(c, run[i].pre.mem, j))
  {
    RunKeepsInv(c, boot, run, i);
    assert FitsAt(c, boot, run, i);
    var s, a := run[i].pre, run[i].action;
    var x := TakenIsOwned(c, s, a.t, a.data);
    assert Owned(c, s, x);
    FlagWrite(c, s.mem, x, 0);
  }

  /** Writes into held buffers change no in-use flag. */
  lemma WriteKeepsFlags(c: Config, boot: State, run: seq<Step>, i: nat)
    requires Run(c, boot, run) && i < |run| && run[i].action.Write?
    ensures Covers(c, run[i].pre.mem) && Covers(c, run[i].post.mem)
    ensures forall j :: 0 <= j < c.count ==>
              SlotInUse(c, run[i].post.mem, j) == SlotInUse(c, run[i].pre.mem, j)
  {
    RunKeepsInv(c, boot, run, i);
    assert FitsAt(c, boot, run, i);
    var s, a := run[i].pre, run[i].action;
    var x := TakenIsOwned(c, s, a.t, a.data);
    DataWriteKeepsFlags(c, s.mem, x, a.offset, a.value);
  }

  /** A holder can write every byte of its buffer and, when it is not inside a call, return it. */
  lemma HolderMay(c: Config, boot: State, run: seq<Step>, i: nat, t: nat, data: nat, offset: nat, value: Byte)
    requires Run(c, boot, run) && i <= |run| && Holds(StateAt(boot, run, i), t, data) && offset < c.size
    ensures Enabled(c, StateAt(boot, run, i), Write(t, data, offset, value))
    ensures StateAt(boot, run, i).clients[t].pc == Idle ==> Enabled(c, StateAt(boot, run, i), Return(t, data))
  {
    RunKeepsInv(c, boot, run, i);
    var x := TakenIsOwned(c, StateAt(boot, run, i), t, data);
    SlotInPool(c, x);
  }

  // ---- completeness of the scan ----

  /** Task `t` calls for a buffer at step `a` and gets NULL at step `b`, with no other call between. */
  predicate FailedScan(c: Config, run: seq<Step>, a: nat, b: nat, t: nat) {
    && a < b < |run|
    && run[a].action.Begin? && run[a].action.t == t && run[a].action.length <= c.size
    && run[b].action == GiveUp(t)
    && forall k :: a < k < b ==> !EndsCall(run[k].action, t)
  }

  predicate EndsCall(a: Action, t: nat) {
    a.t == t && (a.Begin? || a.GiveUp? || a.Deliver?)
  }

  /** Step `k` is task `t`'s visit of slot `x`, and it finds the slot in use. */
  predicate FoundInUse(c: Config, run: seq<Step>, k: int, t: nat, x: nat) {
    && 0 <= k < |run| && run[k].action == Visit(t)
    && t < |run[k].pre.clients| && run[k].pre.clients[t].pc == Scanning(x)
    && Covers(c, run[k].pre.mem) && x < c.count && SlotInUse(c, run[k].pre.mem, x)
  }

  ghost predicate Visited(c: Config, run: seq<Step>, a: nat, m: nat, t: nat, x: nat) {
    exists k :: a < k < m && FoundInUse(c, run, k, t, x)
  }

  /** Before step `m` the task is either past a marking or has found every earlier slot in use. */
  lemma {:induction false} ScanSoFar(c: Config, boot: State, run: seq<Step>, a: nat, b: nat, t: nat, m: nat)
    requires Run(c, boot, run) && FailedScan(c, run, a, b, t) && a < m <= b
    ensures t < |StateAt(boot, run, m).clients|
    ensures var me := StateAt(boot, run, m).clients[t];
            me.pc.Marked? ||
            (me.pc.Scanning? && me.pc.next <= c.count
             && forall x :: 0 <= x < me.pc.next ==> Visited(c, run, a, m, t, x))
    decreases m
  {
    assert FitsAt(c, boot, run, m - 1);
    RunKeepsInv(c, boot, run, m - 1);
    if m > a + 1 {
      ScanSoFar(c, boot, run, a, b, t, m - 1);
      var me, me' := run[m - 1].pre.clients[t], run[m - 1].post.clients[t];
      assert !EndsCall(run[m - 1].action, t);
      if me.pc.Scanning? {
        if me'.pc == Scanning(me.pc.next + 1) {
          assert FoundInUse(c, run, m - 1, t, me.pc.next);
        }
        forall x | me'.pc.Scanning? && 0 <= x < me'.pc.next ensures Visited(c, run, a, m, t, x) {
          if x < me.pc.next {
            assert Visited(c, run, a, m - 1, t, x);
            var k :| a < k < m - 1 && FoundInUse(c, run, k, t, x);
            assert a < k < m;
          }
        }
      }
    }
  }

  /** A task whose call returns NULL has not marked a slot on the way. */
  lemma {:induction false} NeverMarked(c: Config, boot: State, run: seq<Step>, a: nat, b: nat, t: nat, m: nat)
    requires Run(c, boot, run) && FailedScan(c, run, a, b, t) && a < m <= b
    ensures t < |StateAt(boot, run, m).clients| && !StateAt(boot, run, m).clients[t].pc.Marked?
    decreases b - m
  {
    assert FitsAt(c, boot, run, m);
    RunKeepsInv(c, boot, run, m);
    RunKeepsInv(c, boot, run, a);
    assert FitsAt(c, boot, run, a);
    if m < b {
      NeverMarked(c, boot, run, a, b, t, m + 1);
      assert !EndsCall(run[m].action, t);
    }
  }

  /**
   Scan completeness under interleaving. NULL for a request that fits means that every slot was in
   use at its own visit during the call.
   */
  lemma NullMeansAllSeenInUse(c: Config, boot: State, run: seq<Step>, a: nat, b: nat, t: nat)
    requires Run(c, boot, run) && FailedScan(c, run, a, b, t)
    ensures forall x :: 0 <= x < c.count ==> Visited(c, run, a, b, t, x)
  {
    ScanSoFar(c, boot, run, a, b, t, b);
    NeverMarked(c, boot, run, a, b, t, b);
    assert FitsAt(c, boot, run, b);
  }

  /** Without a return, a slot once in use stays in use. */
  lemma {:induction false} StaysInUse(c: Config, boot: State, run: seq<Step>, k: nat, m: nat, x: nat)
    requires Run(c, boot, run) && k <= m <= |run| && x < c.count
    requires forall i :: k <= i < m ==> !run[i].action.Return?
    requires Covers(c, StateAt(boot, run, k).mem) && SlotInUse(c, StateAt(boot, run, k).mem, x)
    ensures Covers(c, StateAt(boot, run, m).mem) && SlotInUse(c, StateAt(boot, run, m).mem, x)
    decreases m
  {
    if k < m {
      StaysInUse(c, boot, run, k, m - 1, x);
      RunKeepsInv(c, boot, run, m - 1);
      assert FitsAt(c, boot, run, m - 1);
      var s, a := run[m - 1].pre, run[m - 1].action;
      if a.Visit? {
        var y := s.clients[a.t].pc.next;
        FlagWrite(c, s.mem, y, 1);
      } else if a.Write? {
        WriteKeepsFlags(c, boot, run, m - 1);
      }
    }
  }

  /** If moreover no buffer was returned during the call, the pool was full when it gave up. */
  lemma NullWithoutReturnsMeansFull(c: Config, boot: State, run: seq<Step>, a: nat, b: nat, t: nat)
    requires Run(c, boot, run) && FailedScan(c, run, a, b, t)
    requires forall k :: a < k < b ==> !run[k].action.Return?
    ensures Covers(c, run[b].pre.mem) && forall x :: 0 <= x < c.count ==> SlotInUse(c, run[b].pre.mem, x)
  {
    NullMeansAllSeenInUse(c, boot, run, a, b, t);
    RunKeepsInv(c, boot, run, b);
    assert FitsAt(c, boot, run, b);
    forall x | 0 <= x < c.count ensures SlotInUse(c, run[b].pre.mem, x) {
      assert Visited(c, run, a, b, t, x);
      var k :| a < k < b && FoundInUse(c, run, k, t, x);
      assert FitsAt(c, boot, run, k);
      StaysInUse(c, boot, run, k, b, x);
    }
  }
}
