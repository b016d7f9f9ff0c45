/** `putFpgaRecord`: a block of bytes becomes a line of lowercase hex digits in a 512-byte record. */
module FpgaRecord {
  import opened Bytes

  const RECORD_MAX_SIZE: nat := 512
  const SIZE_MODULUS: int := 0x1_0000_0000
  const DIGITS: string := "0123456789abcdef"

  /** `%02x`. */
  function Digits(b: Byte): string {
    [DIGITS[b / 16], DIGITS[b % 16]]
  }

  function Encode(bytes: seq<Byte>): string {
    if bytes == [] then [] else Encode(bytes[..|bytes| - 1]) + Digits(bytes[|bytes| - 1])
  }

  /** The value of a lowercase hex digit, if it is one. */
  function DigitValue(c: char): int {
    if '0' <= c <= '9' then c as int - '0' as int
    else if 'a' <= c <= 'f' then c as int - 'a' as int + 10
    else -1
  }

  predicate IsHex(text: string) {
    |text| % 2 == 0 && forall i :: 0 <= i < |text| ==> DigitValue(text[i]) >= 0
  }

  /** A reader of the records, pair by pair from the front. */
  function Decode(text: string): seq<int>
    requires IsHex(text)
  {
    if text == [] then []
    else [DigitValue(text[0]) * 16 + DigitValue(text[1])] + Decode(text[2..])
  }

  lemma DigitsValue(b: Byte)
    ensures IsHex(Digits(b)) && DigitValue(Digits(b)[0]) * 16 + DigitValue(Digits(b)[1]) == b
  {
    NibbleValue(b / 16);
    NibbleValue(b % 16);
  }

  lemma NibbleValue(n: nat)
    requires n < 16
    ensures DigitValue(DIGITS[n]) == n
  {
    assert DIGITS[0] == '0' && DIGITS[1] == '1' && DIGITS[2] == '2' && DIGITS[3] == '3';
    assert DIGITS[4] == '4' && DIGITS[5] == '5' && DIGITS[6] == '6' && DIGITS[7] == '7';
    assert DIGITS[8] == '8' && DIGITS[9] == '9' && DIGITS[10] == 'a' && DIGITS[11] == 'b';
    assert DIGITS[12] == 'c' && DIGITS[13] == 'd' && DIGITS[14] == 'e' && DIGITS[15] == 'f';
  }

  lemma {:induction false} DecodeAppend(text: string, pair: string)
    requires IsHex(text) && IsHex(pair) && |pair| == 2
    ensures IsHex(text + pair) && Decode(text + pair) == Decode(text) + [DigitValue(pair[0]) * 16 + DigitValue(pair[1])]
  {
    var all := text + pair;
    if text == [] {
      assert all == pair && pair[2..] == [];
    } else {
      assert all[2..] == text[2..] + pair;
      DecodeAppend(text[2..], pair);
    }
  }

  /** Reading a record back gives the bytes it was made from. */
  lemma {:induction false} RoundTrip(bytes: seq<Byte>)
    ensures |Encode(bytes)| == 2 * |bytes| && IsHex(Encode(bytes)) && Decode(Encode(bytes)) == bytes
  {
    if bytes != [] {
      var front := bytes[..|bytes| - 1];
      RoundTrip(front);
      var last := bytes[|bytes| - 1];
      DigitsValue(last);
      DecodeAppend(Encode(front), Digits(last));
    }
  }

  /** Two lowercase hex digits a byte, the high one first, byte after byte. */
  lemma EncodeInFull(bytes: seq<Byte>, b: Byte)
    ensures Encode([]) == ""
    ensures Encode(bytes + [b]) == Encode(bytes) + ["0123456789abcdef"[b / 16], "0123456789abcdef"[b % 16]]
  {
    assert (bytes + [b])[..|bytes|] == bytes;
  }

  /** `(len * 2 + strlen("\r\n")) >= sizeof(p->data)`: the sum is a `size_t`, so it wraps. */
  predicate TooLong(len: int) {
    (len * 2 + 2) % SIZE_MODULUS >= RECORD_MAX_SIZE
  }

  /** The guard admits 0 to 254 bytes and, by the wrap-around, the length -1. */
  lemma AdmittedLengths(len: int)
    requires -0x4000_0000 <= len < 0x4000_0000
    ensures !TooLong(len) <==> -1 <= len <= 254
  {
    if len >= -1 {
      assert (len * 2 + 2) % SIZE_MODULUS == len * 2 + 2;
    } else {
      assert (len * 2 + 2) % SIZE_MODULUS == len * 2 + 2 + SIZE_MODULUS;
    }
  }

  /** The number of bytes a call encodes; a negative length runs the loop no times. */
  function Encoded(len: int): nat {
    if len < 0 then 0 else len
  }

  class Recorder {
    const slots: nat
    var fpgaDataQueue: seq<array<char>>

    constructor (slots: nat)
      ensures this.slots == slots && fpgaDataQueue == []
    {
      this.slots, fpgaDataQueue := slots, [];
    }

    /**
     One call. `locked` and `memory` are the answers of the mutex and of the allocator; a full queue
     refuses the record. On success the new record holds the hex line, `\r\n` and the terminator,
     inside its 512 bytes. `len` is small enough that doubling it does not overflow an `int`.
     */
    method PutFpgaRecord(pdata: seq<Byte>, len: int, locked: bool, memory: bool) returns (res: bool)
      requires -0x4000_0000 <= len < 0x4000_0000 && len <= |pdata|
      modifies `fpgaDataQueue
      ensures res <==> locked && -1 <= len <= 254 && memory && |old(fpgaDataQueue)| < slots
      ensures !res ==> fpgaDataQueue == old(fpgaDataQueue)
      ensures res ==> |fpgaDataQueue| == |old(fpgaDataQueue)| + 1
      ensures res ==> fpgaDataQueue[..|old(fpgaDataQueue)|] == old(fpgaDataQueue)
      ensures res ==> var record := fpgaDataQueue[|old(fpgaDataQueue)|];
                      && fresh(record) && record.Length == 512
                      && (len >= 0 ==> Encode(pdata[..len]) + "\r\n\0" <= record[..])
                      && (len == -1 ==> "\r\n\0" <= record[..])
    {
      res := false;
      if locked {
        AdmittedLengths(len);
        if !TooLong(len) {
          if memory {
            var data := new char[RECORD_MAX_SIZE];
            var countStr := WriteDigits(data, pdata, len);
            data[countStr], data[countStr + 1], data[countStr + 2] := '\r', '\n', '\0';
            ghost var hex := Encode(pdata[..Encoded(len)]);
            assert pdata[..0] == [] && "" + "\r\n\0" == "\r\n\0";
            assert data[..countStr] == hex;
            assert data[..countStr + 3] == hex + "\r\n\0";
            assert data[..] == data[..countStr + 3] + data[countStr + 3..];
            if |fpgaDataQueue| < slots {
              fpgaDataQueue := fpgaDataQueue + [data];
              res := true;
            }
          }
        }
      }
    }
  }

  /** The loop: each `sprintf` writes two digits and a terminator that the next write covers. */
  method WriteDigits(data: array<char>, pdata: seq<Byte>, len: int) returns (countStr: nat)
    requires data.Length == RECORD_MAX_SIZE && -1 <= len <= 254 && Encoded(len) <= |pdata|
    modifies data
    ensures countStr == 2 * Encoded(len) && data[..countStr] == Encode(pdata[..Encoded(len)])
  {
    countStr := 0;
    var count := 0;
    while count < len
      invariant 0 <= count <= Encoded(len) && countStr == 2 * count
      invariant data[..countStr] == Encode(pdata[..count])
    {
      ghost var done := data[..countStr];
      var text := Digits(pdata[count]);
      data[countStr], data[countStr + 1], data[countStr + 2] := text[0], text[1], '\0';
      assert data[..countStr] == done;
      countStr, count := countStr + 2, count + 1;
      assert pdata[..count][..count - 1] == pdata[..count - 1];
      assert data[..countStr] == done + text;
    }
  }
}
