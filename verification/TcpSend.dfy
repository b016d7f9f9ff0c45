/** `gsmLLR_TcpSend`: a buffer is handed over in chunks the modem can take. */
module TcpSend {
  import opened Arithmetic
  import opened Bytes
  import opened Modem

  const GSM_PACKET_MAX_SIZE: nat := 1512
  const UINT16: nat := 0x1_0000

  /** Chunk `k` of `data`, and how many chunks there are. */
  function Chunk(data: seq<Byte>, k: nat): seq<Byte> {
    data[Bound(data, k)..Bound(data, k + 1)]
  }

  /** Where chunk `k` begins. */
  function Bound(data: seq<Byte>, k: nat): (at: nat)
    ensures at <= |data|
  {
    Min(k * GSM_PACKET_MAX_SIZE, |data|)
  }

  function ChunkCount(n: nat): nat {
    (n + GSM_PACKET_MAX_SIZE - 1) / GSM_PACKET_MAX_SIZE
  }

  function Chunks(data: seq<Byte>, m: nat): seq<seq<Byte>> {
    seq(m, k requires 0 <= k < m => Chunk(data, k))
  }

  /** Consecutive chunks cover a prefix of the data without gap or overlap. */
  lemma {:induction false} ChunksCover(data: seq<Byte>, m: nat)
    ensures Concat(Chunks(data, m)) == data[..Bound(data, m)]
  {
    if m > 0 {
      ChunksCover(data, m - 1);
      assert Chunks(data, m)[..m - 1] == Chunks(data, m - 1);
      assert data[..Bound(data, m - 1)] + Chunk(data, m - 1) == data[..Bound(data, m)];
    }
  }

  /** All chunks together are the data; each has 1 to 1512 bytes, all but the last exactly 1512. */
  lemma ChunksAreTheData(data: seq<Byte>)
    ensures Concat(Chunks(data, ChunkCount(|data|))) == data
    ensures ChunkCount(|data|) == (|data| + 1511) / 1512
    ensures forall k :: 0 <= k < ChunkCount(|data|) ==> 1 <= |Chunk(data, k)| <= 1512
    ensures forall k :: 0 <= k < ChunkCount(|data|) - 1 ==> |Chunk(data, k)| == 1512
  {
    ChunksCover(data, ChunkCount(|data|));
    assert data[..|data|] == data;
  }

  /** What is left after `k` chunks have been taken. */
  lemma RemainingChunks(n: nat, k: nat)
    requires k * GSM_PACKET_MAX_SIZE < n
    ensures k < ChunkCount(n)
    ensures (k + 1) * GSM_PACKET_MAX_SIZE >= n ==> ChunkCount(n) == k + 1
  {
  }

  /**
   The chunks handed over, given what the link answers to each. On success they are all the chunks
   of the data, in order; otherwise they are those before the first refused one. `sendSize` and
   `packetPos` are 16 bits wide, and the contract says that the position has not wrapped: it is where
   the next chunk would begin. An empty send reports an error.
   */
  method TcpSend(pData: seq<Byte>, size: nat, accepts: nat -> bool)
    returns (ret: RetComm, sent: seq<seq<Byte>>, packetPos: nat)
    requires size <= |pData| && size < UINT16
    ensures ret == EOk <==> size > 0 && forall k :: 0 <= k < ChunkCount(size) ==> accepts(k)
    ensures ret == EOk || ret == EError
    ensures ret == EOk ==> |sent| == ChunkCount(size)
    ensures ret == EError && size > 0 ==> |sent| < ChunkCount(size) && !accepts(|sent|)
    ensures (forall k :: 0 <= k < |sent| ==> accepts(k)) && |sent| <= ChunkCount(size)
    ensures sent == Chunks(pData[..size], |sent|) && packetPos == |Concat(sent)|
  {
    ghost var data := pData[..size];
    var sendSize := size;
    packetPos, ret, sent := 0, EError, [];
    while sendSize != 0
      invariant packetPos + sendSize == size && packetPos == Bound(data, |sent|)
      invariant sendSize > 0 ==> packetPos == |sent| * GSM_PACKET_MAX_SIZE
      invariant sendSize == 0 && size > 0 ==> |sent| == ChunkCount(size)
      invariant |sent| <= ChunkCount(size)
      invariant sent == Chunks(data, |sent|)
      invariant forall k :: 0 <= k < |sent| ==> accepts(k)
      invariant ret == if sent == [] then EError else EOk
      decreases sendSize
    {
      RemainingChunks(size, |sent|);
      var packetSize := if sendSize > GSM_PACKET_MAX_SIZE then GSM_PACKET_MAX_SIZE else sendSize;
      var packet := pData[packetPos..packetPos + packetSize];
      if accepts(|sent|) {
        ret := EOk;
      } else {
        ret := EError;
        break;
      }
      assert packet == Chunk(data, |sent|);
      sent := sent + [packet];
      sendSize := (sendSize - packetSize) % UINT16;
      packetPos := (packetPos + packetSize) % UINT16;
    }
    ChunksCover(data, |sent|);
  }
}
