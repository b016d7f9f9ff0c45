/** The static buffer pool run by one task: init, take a buffer, give one back. */
module BufferPool {
  import opened Bytes
  import opened PoolLayout
  import opened Wrappers

  /** The memory reaches to the end of the pool. */
  predicate Covers(c: Config, m: seq<Byte>) {
    c.End() <= |m|
  }

  function FlagByte(c: Config, m: seq<Byte>, i: nat): Byte
    requires Covers(c, m) && i < c.count
  {
    SlotInPool(c, i);
    m[c.Flag(i)]
  }

  predicate SlotInUse(c: Config, m: seq<Byte>, i: nat)
    requires Covers(c, m) && i < c.count
  {
    FlagByte(c, m, i) != 0
  }

  ghost predicate IsFlag(c: Config, a: int) {
    exists i :: 0 <= i < c.count && a == c.Flag(i)
  }

  /** The memories agree on every byte that is not an in-use flag. */
  ghost predicate OnlyFlagsDiffer(c: Config, m: seq<Byte>, n: seq<Byte>) {
    |m| == |n| && forall a :: 0 <= a < |m| ==> m[a] == n[a] || IsFlag(c, a)
  }

  lemma FlagWriteIsLocal(c: Config, m: seq<Byte>, n: seq<Byte>, i: nat, b: Byte)
    requires OnlyFlagsDiffer(c, m, n) && i < c.count && 0 <= c.Flag(i) < |n|
    ensures OnlyFlagsDiffer(c, m, n[c.Flag(i) := b])
  {
    assert IsFlag(c, c.Flag(i));
  }

  /** Writing one slot's flag decides that slot and no other. */
  lemma FlagWrite(c: Config, m: seq<Byte>, i: nat, b: Byte)
    requires Covers(c, m) && i < c.count
    ensures 0 <= c.Flag(i) < |m|
    ensures forall j :: 0 <= j < c.count ==>
              SlotInUse(c, m[c.Flag(i) := b], j) == if j == i then b != 0 else SlotInUse(c, m, j)
  {
    SlotInPool(c, i);
    forall j | 0 <= j < c.count
      ensures SlotInUse(c, m[c.Flag(i) := b], j) == if j == i then b != 0 else SlotInUse(c, m, j)
    {
      SlotInPool(c, j);
      if c.Flag(i) == c.Flag(j) {
        InOneSlot(c, i, j, c.Flag(i));
      }
    }
  }

  ghost predicate FreeBelow(c: Config, m: seq<Byte>, n: nat)
    requires Covers(c, m) && n <= c.count
  {
    forall i: nat | i < n :: !SlotInUse(c, m, i)
  }

  lemma FreeBelowGrows(c: Config, m: seq<Byte>, n: nat)
    requires Covers(c, m) && n < c.count && FreeBelow(c, m, n)
    ensures 0 <= c.Flag(n) < |m| && FreeBelow(c, m[c.Flag(n) := 0], n + 1)
  {
    FlagWrite(c, m, n, 0);
    var after := m[c.Flag(n) := 0];
    forall i | 0 <= i < n + 1 ensures !SlotInUse(c, after, i) {
      assert i < n ==> !SlotInUse(c, m, i);
    }
  }

  predicate AllInUse(c: Config, m: seq<Byte>, n: nat)
    requires Covers(c, m) && n <= c.count
  {
    forall i :: 0 <= i < n ==> SlotInUse(c, m, i)
  }

  /** Slot `x` is the lowest free slot of `m`, and `after` is `m` with that slot marked. */
  predicate Marks(c: Config, m: seq<Byte>, after: seq<Byte>, x: nat) {
    && Covers(c, m) && x < c.count
    && !SlotInUse(c, m, x) && AllInUse(c, m, x)
    && 0 <= c.Flag(x) < |m| && after == m[c.Flag(x) := 1]
  }

  /** In terms of the bytes: the flag of `x` is 0, those below are not, and exactly that byte becomes 1. */
  lemma MarksInFull(c: Config, m: seq<Byte>, after: seq<Byte>, x: nat)
    requires Covers(c, m) && x < c.count
    ensures Marks(c, m, after, x) <==>
            && 0 <= c.Flag(x) < |m| && m[c.Flag(x)] == 0 && after == m[c.Flag(x) := 1]
            && forall y :: 0 <= y < x ==> 0 <= c.Flag(y) < |m| && m[c.Flag(y)] != 0
  {
    forall y | 0 <= y <= x ensures 0 <= c.Flag(y) < |m| && (SlotInUse(c, m, y) <==> m[c.Flag(y)] != 0) {
      SlotInPool(c, y);
    }
  }

  lemma AllInUseInFull(c: Config, m: seq<Byte>)
    requires Covers(c, m)
    ensures AllInUse(c, m, c.count) <==> forall y :: 0 <= y < c.count ==> 0 <= c.Flag(y) < |m| && m[c.Flag(y)] != 0
    ensures FreeBelow(c, m, c.count) <==> forall y :: 0 <= y < c.count ==> 0 <= c.Flag(y) < |m| && m[c.Flag(y)] == 0
  {
    forall y | 0 <= y < c.count ensures 0 <= c.Flag(y) < |m| && (SlotInUse(c, m, y) <==> m[c.Flag(y)] != 0) {
      SlotInPool(c, y);
    }
  }

  class Pool {
    const c: Config
    const mem: array<Byte>

    constructor (c: Config, mem: array<Byte>)
      requires c.End() <= mem.Length
      ensures this.c == c && this.mem == mem
    {
      this.c := c;
      this.mem := mem;
    }

    ghost predicate Valid() {
      c.End() <= mem.Length
    }

    /** `BUFFERPOOL_Init`: every slot is free afterwards and no byte but the flags has changed. */
    method Init()
      requires Valid()
      modifies mem
      ensures FreeBelow(c, mem[..], c.count)
      ensures OnlyFlagsDiffer(c, old(mem[..]), mem[..])
    {
      var x := 0;
      while x < c.count
        invariant 0 <= x <= c.count
        invariant FreeBelow(c, mem[..], x)
        invariant OnlyFlagsDiffer(c, old(mem[..]), mem[..])
      {
        ghost var before := mem[..];
        FreeBelowGrows(c, before, x);
        FlagWriteIsLocal(c, old(mem[..]), before, x, 0);
        mem[c.Flag(x)] := 0;
        assert mem[..] == before[c.Flag(x) := 0];
        x := x + 1;
      }
    }

    /**
     `BUFFERPOOL_GetFreeBuffer` with no other task running: the lowest free slot is marked and its
     data address handed out; there is none exactly when the request is too long or all slots are
     in use, and then nothing changes.
     */
    method GetFreeBuffer(length: nat) returns (buffer: Option<nat>, granted: nat)
      requires Valid()
      modifies mem
      ensures buffer.None? <==> length > c.size || AllInUse(c, old(mem[..]), c.count)
      ensures buffer.None? ==> granted == length && mem[..] == old(mem[..])
      ensures buffer.Some? ==>
                granted == c.size && exists x: nat :: buffer.value == c.Data(x) && Marks(c, old(mem[..]), mem[..], x)
    {
      buffer, granted := None, length;
      if length <= c.size {
        var x := 0;
        while x < c.count
          invariant 0 <= x <= c.count && buffer.None? && granted == length
          invariant mem[..] == old(mem[..])
          invariant AllInUse(c, old(mem[..]), x)
        {
          SlotInPool(c, x);
          if mem[c.Flag(x)] == 0 {
            mem[c.Flag(x)] := 1;
            granted := c.size;
            buffer := Some(c.Data(x));
            assert mem[..] == old(mem[..])[c.Flag(x) := 1];
            assert Marks(c, old(mem[..]), mem[..], x);
            return;
          }
          assert SlotInUse(c, old(mem[..]), x);
          x := x + 1;
        }
      }
    }

    /** `BUFFERPOOL_ReturnBuffer`: the byte before the data is cleared, whichever slot it is. */
    method ReturnBuffer(data: nat)
      requires Valid() && 0 < data <= mem.Length
      modifies mem
      ensures mem[..] == old(mem[..])[data - 1 := 0]
      ensures forall x :: 0 <= x < c.count && data == c.Data(x) ==>
                forall j :: 0 <= j < c.count ==>
                  SlotInUse(c, mem[..], j) == (j != x && old(SlotInUse(c, mem[..], j)))
    {
      mem[c.FlagOfData(data)] := 0;
      assert mem[..] == old(mem[..])[data - 1 := 0];
      forall x | 0 <= x < c.count && data == c.Data(x)
        ensures forall j :: 0 <= j < c.count ==>
                  SlotInUse(c, mem[..], j) == (j != x && old(SlotInUse(c, mem[..], j)))
      {
        FlagWrite(c, old(mem[..]), x, 0);
      }
    }
  }
}
