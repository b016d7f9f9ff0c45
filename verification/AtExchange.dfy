/**
 One AT exchange: bytes are appended to the reply buffer one at a time and the whole buffer is
 searched after each, until an answer is recognised or the wait for a byte times out.
 */
module AtExchange {
  import opened AtReply
  import opened Modem
  import opened Wrappers

  const AT_BUFF_LENGTH: nat := 256

  /** The value of a `uint8_t` such as `receiveCount`. */
  function Low8(n: nat): (r: nat)
    ensures r < 256
    ensures n < 256 ==> r == n
  {
    n % 256
  }

  lemma Low8Step(n: nat)
    ensures Low8(Low8(n) + 1) == Low8(n + 1)
  {
  }

  /** Marker `i` is the first of the table to occur. */
  predicate FirstMarker(has: string -> bool, i: nat) {
    && i < |MARKERS| && has(MARKERS[i].1)
    && forall j :: 0 <= j < i ==> !has(MARKERS[j].1)
  }

  /** What the parser reports about a text in which `has` says what occurs. */
  ghost predicate Report(pppMode: bool, count: nat, has: string -> bool, found: bool, kind: RetComm) {
    && (found ==>
          && !pppMode && count > 2 && has(CRLF)
          && exists i: nat :: FirstMarker(has, i) && kind == MARKERS[i].0)
    && (!found ==> kind == EError)
    && (!found && !pppMode && count > 2 && has(CRLF) ==>
          forall i :: 0 <= i < |MARKERS| ==> !has(MARKERS[i].1))
  }

  predicate IsSuccess(kind: RetComm) {
    kind.EOk? || kind.EPpp?
  }

  lemma MarkerOrder()
    ensures |MARKERS| == 4
    ensures MARKERS[0] == (EError, ERROR_MARK) && MARKERS[1] == (EOk, OK_MARK)
    ensures MARKERS[2] == (EPpp, CONNECT_MARK) && MARKERS[3] == (ESmsReady, SMS_MARK)
  {
  }

  /** The first marker that occurs means success exactly when the text has no error marker. */
  lemma FirstMarkerDecides(has: string -> bool, i: nat)
    requires FirstMarker(has, i)
    ensures IsSuccess(MARKERS[i].0) <==> !has(ERROR_MARK) && (has(OK_MARK) || has(CONNECT_MARK))
  {
    MarkerOrder();
    assert i >= 1 ==> !has(MARKERS[0].1);
    assert i >= 2 ==> !has(MARKERS[1].1);
    assert i >= 3 ==> !has(MARKERS[2].1);
  }

  /** Success is reported exactly when the text is accepted outside PPP mode. */
  lemma ReportMeansAccepted(pppMode: bool, n: nat, has: string -> bool, found: bool, kind: RetComm)
    requires Report(pppMode, n, has, found, kind)
    ensures found && IsSuccess(kind) <==> !pppMode && AcceptedBy(n, has)
  {
    if found {
      var i: nat :| FirstMarker(has, i) && kind == MARKERS[i].0;
      FirstMarkerDecides(has, i);
    } else if !pppMode && n > 2 && has(CRLF) {
      MarkerOrder();
      assert !has(MARKERS[1].1) && !has(MARKERS[2].1);
    }
  }

  // ---- the buffer and what a search of it finds ----

  /** The buffer after the bytes `p`: the counter wraps, so byte 256 overwrites byte 0. */
  function Buffer(p: string): (b: string)
    ensures |b| == AT_BUFF_LENGTH
  {
    if p == [] then seq(AT_BUFF_LENGTH, _ => NUL)
    else Buffer(p[..|p| - 1])[Low8(|p| - 1) := p[|p| - 1]]
  }

  /** `sAtReplyParsingResult` */
  datatype Reply = Reply(found: bool, kind: RetComm)

  /** What the parser makes of the buffer; `Overrun` where a search leaves it. */
  datatype Verdict = Continue | Success | Overrun

  lemma BufferStep(p: string, ch: char)
    ensures Buffer(p + [ch]) == Buffer(p)[Low8(|p|) := ch]
  {
    assert (p + [ch])[..|p|] == p;
  }

  /**
   `strstr(b, needle) != NULL`, for a `strstr` that reads byte by byte up to the end of the first match
   or the terminator: it leaves the buffer if there is neither.
   */
  function Find(b: string, needle: string): Access<bool> {
    if Contains(CText(b), needle) then InBounds(true)
    else if NUL in b then InBounds(false)
    else OutOfBounds
  }

  /** The parser's searches stay inside: there is a terminator, or the first two both match. */
  predicate Stays(b: string) {
    NUL in b || (Contains(CText(b), CRLF) && Contains(CText(b), ERROR_MARK))
  }

  /** The verdict on a buffer, given where the searches stay inside and which texts are accepted at which count. */
  function Judge(count: nat, b: string, stays: string -> bool, accepted: (nat, string) -> bool): Verdict {
    if count <= 2 then Continue
    else if !stays(b) then Overrun
    else if accepted(count, CText(b)) then Success
    else Continue
  }

  predicate AcceptedText(count: nat, text: string) {
    AcceptedBy(count, Has(text))
  }

  /** Outside PPP mode. */
  function VerdictOf(p: string): Verdict {
    Judge(Low8(|p|), Buffer(p), Stays, AcceptedText)
  }

  /** `find` is a search of a buffer in which `has` says what occurs. */
  ghost predicate Searches(find: string -> Access<bool>, has: string -> bool, terminated: bool) {
    forall needle ::
      find(needle) == if has(needle) then InBounds(true) else if terminated then InBounds(false) else OutOfBounds
  }

  /** The searches in the order of the source: the line ending, then the markers of the table up to the first hit. */
  method SearchWith(find: string -> Access<bool>, count: nat, ghost has: string -> bool, ghost terminated: bool)
    returns (reply: Access<Reply>)
    requires count > 2 && Searches(find, has, terminated)
    ensures reply.OutOfBounds? <==> !terminated && !(has(CRLF) && has(ERROR_MARK))
    ensures reply.InBounds? ==> Report(false, count, has, reply.value.found, reply.value.kind)
  {
    MarkerOrder();
    var ending := find(CRLF);
    if ending.OutOfBounds? {
      return OutOfBounds;
    }
    if ending.value {
      for i := 0 to |MARKERS|
        invariant forall j :: 0 <= j < i ==> !has(MARKERS[j].1)
        invariant i > 0 ==> terminated
      {
        var marker := find(MARKERS[i].1);
        if marker.OutOfBounds? {
          assert i == 0;
          return OutOfBounds;
        }
        if marker.value {
          assert FirstMarker(has, i);
          return InBounds(Reply(true, MARKERS[i].0));
        }
      }
    }
    reply := InBounds(Reply(false, EError));
  }

  class UartParser {
    const pRxBuffer: array<char>
    var receiveCount: nat
    var receiveState: bool
    var pppModeEnable: bool

    ghost predicate Valid()
      reads this
    {
      pRxBuffer.Length == AT_BUFF_LENGTH && receiveCount < 256
    }

    constructor (pppMode: bool)
      ensures Valid() && fresh(pRxBuffer) && pppModeEnable == pppMode
    {
      pRxBuffer := new char[AT_BUFF_LENGTH](_ => NUL);
      receiveCount, receiveState, pppModeEnable := 0, false, pppMode;
    }

    /** `uartParceReceiveData`: out of bounds exactly when a search is, and otherwise a report. */
    method Parse() returns (reply: Access<Reply>)
      requires Valid()
      ensures reply.OutOfBounds? <==> !pppModeEnable && receiveCount > 2 && !Stays(pRxBuffer[..])
      ensures reply.InBounds? ==>
                Report(pppModeEnable, receiveCount, Has(CText(pRxBuffer[..])), reply.value.found, reply.value.kind)
    {
      if !pppModeEnable && receiveCount > 2 {
        reply := SearchMarkers();
      } else {
        reply := InBounds(Reply(false, EError));
      }
    }

    /** The searches of this buffer. */
    method SearchMarkers() returns (reply: Access<Reply>)
      requires Valid() && !pppModeEnable && receiveCount > 2
      ensures reply.OutOfBounds? <==> !Stays(pRxBuffer[..])
      ensures reply.InBounds? ==>
                Report(false, receiveCount, Has(CText(pRxBuffer[..])), reply.value.found, reply.value.kind)
    {
      var b := pRxBuffer[..];
      reply := SearchWith(needle => Find(b, needle), receiveCount, Has(CText(b)), NUL in b);
    }

    /** One search of the buffer; in PPP mode the parser reports nothing. */
    method Search(ghost p: string) returns (verdict: Verdict)
      requires Valid() && receiveCount == Low8(|p|) && pRxBuffer[..] == Buffer(p)
      ensures verdict == if pppModeEnable then Continue else VerdictOf(p)
    {
      var reply := Parse();
      if reply.OutOfBounds? {
        return Overrun;
      }
      var found, kind := reply.value.found, reply.value.kind;
      ReportMeansAccepted(pppModeEnable, receiveCount, Has(CText(pRxBuffer[..])), found, kind);
      verdict := if found && IsSuccess(kind) then Success else Continue;
    }

    /** One received byte is stored at the counter, which then wraps at its width. */
    method Store(ch: char, ghost before: string)
      requires Valid() && receiveCount == Low8(|before|) && pRxBuffer[..] == Buffer(before)
      modifies `receiveCount, pRxBuffer
      ensures Valid() && receiveCount == Low8(|before| + 1) && pRxBuffer[..] == Buffer(before + [ch])
    {
      BufferStep(before, ch);
      Low8Step(|before|);
      ghost var full := pRxBuffer[..];
      pRxBuffer[receiveCount] := ch;
      assert pRxBuffer[..] == full[receiveCount := ch];
      receiveCount := Low8(receiveCount + 1);
    }

    /**
     `runAtCommand`, given the bytes that arrive before the wait for the next one times out. Outside
     PPP mode it stops after the shortest prefix with a verdict, and otherwise takes every byte and
     fails; in PPP mode it always does the latter. Every store stays inside the buffer.
     */
    method RunAtCommand(input: string) returns (verdict: Verdict, consumed: nat)
      requires Valid()
      modifies this, pRxBuffer
      ensures Valid() && pppModeEnable == old(pppModeEnable) && !receiveState
      ensures !pppModeEnable ==> Outcome(VerdictOf, input, verdict, consumed)
      ensures pppModeEnable ==> verdict == Continue && consumed == |input|
    {
      receiveCount := 0;
      forall i | 0 <= i < pRxBuffer.Length {
        pRxBuffer[i] := NUL;
      }
      receiveState := true;
      verdict, consumed := Continue, 0;
      assert pRxBuffer[..] == Buffer([]);
      NothingYet();
      while consumed < |input| && verdict == Continue
        invariant Valid() && consumed <= |input|
        invariant pppModeEnable == old(pppModeEnable)
        invariant receiveCount == Low8(consumed) && pRxBuffer[..] == Buffer(input[..consumed])
        invariant !pppModeEnable ==> SoFar(VerdictOf, input, verdict, consumed)
        invariant pppModeEnable ==> verdict == Continue
      {
        assert input[..consumed + 1] == input[..consumed] + [input[consumed]];
        Store(input[consumed], input[..consumed]);
        verdict := Search(input[..consumed + 1]);
        if !pppModeEnable {
          SoFarStep(VerdictOf, input, consumed, verdict);
        }
        consumed := consumed + 1;
      }
      receiveState := false;
    }
  }

  lemma NothingYet()
    ensures VerdictOf([]) == Continue
  {
  }

  /** After `n` bytes: no shorter prefix had a verdict, and these have this one. */
  predicate SoFar(verdicts: string -> Verdict, input: string, verdict: Verdict, n: nat)
    requires n <= |input|
  {
    (forall j :: 0 <= j < n ==> verdicts(input[..j]) == Continue) && verdict == verdicts(input[..n])
  }

  lemma SoFarStep(verdicts: string -> Verdict, input: string, n: nat, verdict: Verdict)
    requires n < |input| && SoFar(verdicts, input, Continue, n) && verdict == verdicts(input[..n + 1])
    ensures SoFar(verdicts, input, verdict, n + 1)
  {
  }

  /** The outcome of an exchange whose reply is `input`. */
  ghost predicate Outcome(verdicts: string -> Verdict, input: string, verdict: Verdict, consumed: nat) {
    && consumed <= |input|
    && SoFar(verdicts, input, verdict, consumed)
    && (verdict == Continue ==> consumed == |input|)
  }

  // ---- replies that fit the buffer ----

  /** `p` in a zeroed buffer. */
  function Padded(p: string): (b: string)
    requires |p| < AT_BUFF_LENGTH
    ensures |b| == AT_BUFF_LENGTH && p <= b && b[|p|] == NUL
  {
    p + seq(AT_BUFF_LENGTH - |p|, _ => NUL)
  }

  lemma PadStep(p: string, ch: char)
    requires |p| + 1 < AT_BUFF_LENGTH
    ensures Padded(p)[|p| := ch] == Padded(p + [ch])
  {
  }

  lemma {:induction false} BufferIsPadded(p: string)
    requires |p| < AT_BUFF_LENGTH
    ensures Buffer(p) == Padded(p)
  {
    if p != [] {
      var shorter := p[..|p| - 1];
      BufferIsPadded(shorter);
      PadStep(shorter, p[|p| - 1]);
      BufferStep(shorter, p[|p| - 1]);
      assert p == shorter + [p[|p| - 1]];
    }
  }

  lemma {:induction false} TextEndsAtNul(s: string, k: nat)
    requires k < |s| && s[k] == NUL
    ensures |CText(s)| <= k
  {
    if s[0] != NUL {
      TextEndsAtNul(s[1..], k - 1);
    }
  }

  lemma PaddedText(p: string)
    requires |p| < AT_BUFF_LENGTH
    ensures CText(Padded(p)) == CText(p)
  {
    CTextGrows(p, Padded(p));
    TextEndsAtNul(Padded(p), |p|);
  }

  lemma ShortBuffer(p: string)
    requires |p| < AT_BUFF_LENGTH
    ensures NUL in Buffer(p) && CText(Buffer(p)) == CText(p)
  {
    BufferIsPadded(p);
    PaddedText(p);
    assert Padded(p)[|p|] == NUL;
  }

  lemma JudgeInside(count: nat, b: string, text: string, stays: string -> bool, accepted: (nat, string) -> bool)
    requires stays(b) && CText(b) == text && (accepted(count, text) ==> count > 2)
    ensures Judge(count, b, stays, accepted) == if accepted(count, text) then Success else Continue
  {
  }

  /** Up to 255 bytes the verdict is whether the bytes are accepted. */
  lemma ShortVerdict(p: string)
    requires |p| < AT_BUFF_LENGTH
    ensures VerdictOf(p) == if Accepts(p) then Success else Continue
  {
    ShortBuffer(p);
    JudgeInside(|p|, Buffer(p), CText(p), Stays, AcceptedText);
  }

  /** With a reply shorter than the buffer, the outcome is the offline reading of the whole text. */
  lemma OutcomeIsOffline(input: string, verdict: Verdict, consumed: nat)
    requires Outcome(VerdictOf, input, verdict, consumed) && |input| < AT_BUFF_LENGTH
    ensures verdict == if Answered(CText(input)) then Success else Continue
    ensures consumed == if Answered(CText(input)) then AnswerEnd(CText(input)) else |input|
  {
    OnlineIsOffline(input);
    forall j | 0 <= j <= |input| ensures VerdictOf(input[..j]) == if Accepts(input[..j]) then Success else Continue {
      ShortVerdict(input[..j]);
    }
    StopIsUnique(Accepts, input, verdict, consumed, AnswerEnd(CText(input)));
  }

  /** The first prefix with a verdict is the first accepted one, if there is one. */
  lemma StopIsUnique(accepts: string -> bool, input: string, verdict: Verdict, consumed: nat, stop: nat)
    requires Outcome(VerdictOf, input, verdict, consumed)
    requires forall j :: 0 <= j <= |input| ==>
               VerdictOf(input[..j]) == if accepts(input[..j]) then Success else Continue
    ensures verdict == Success <==> exists k :: 0 <= k <= |input| && accepts(input[..k])
    ensures verdict != Overrun
    ensures stop <= |input| && accepts(input[..stop]) && (forall j :: 0 <= j < stop ==> !accepts(input[..j])) ==>
              consumed == stop
  {
    assert VerdictOf(input[..consumed]) == verdict;
  }

  // ---- replies that do not ----

  /** The last of `n` stored bytes to land at index `k`. */
  function Latest(n: nat, k: nat): (j: nat)
    requires k < AT_BUFF_LENGTH && k < n
    ensures j < n && Low8(j) == k
  {
    var start := n - Low8(n);
    if k < Low8(n) then start + k else start + k - AT_BUFF_LENGTH
  }

  lemma LatestStep(n: nat, k: nat)
    requires k < AT_BUFF_LENGTH && k < n
    ensures if k == Low8(n - 1) then Latest(n, k) == n - 1 else k < n - 1 && Latest(n, k) == Latest(n - 1, k)
  {
  }

  /** The buffer is a ring: each index holds the last byte that landed there. */
  lemma {:induction false} BufferIsRing(p: string, k: nat)
    requires k < AT_BUFF_LENGTH && k < |p|
    ensures Buffer(p)[k] == p[Latest(|p|, k)]
  {
    var shorter := p[..|p| - 1];
    LatestStep(|p|, k);
    if k != Low8(|shorter|) {
      BufferIsRing(shorter, k);
    }
  }

  lemma FullBuffer(p: string)
    requires NUL !in p && |p| >= AT_BUFF_LENGTH
    ensures NUL !in Buffer(p) && CText(Buffer(p)) == Buffer(p)
  {
    forall k | 0 <= k < AT_BUFF_LENGTH ensures Buffer(p)[k] != NUL {
      BufferIsRing(p, k);
    }
    NoNulIsText(Buffer(p));
  }

  /** The parser searches the full buffer after these bytes and does not find both CRLF and the error marker. */
  predicate Unbounded(p: string) {
    Low8(|p|) > 2 && !(Contains(Buffer(p), CRLF) && Contains(Buffer(p), ERROR_MARK))
  }

  lemma JudgeFull(count: nat, b: string, stays: string -> bool, accepted: (nat, string) -> bool)
    requires stays(b) ==> !accepted(count, CText(b))
    ensures Judge(count, b, stays, accepted) == if count > 2 && !stays(b) then Overrun else Continue
  {
  }

  lemma LongVerdict(p: string)
    requires NUL !in p && |p| >= AT_BUFF_LENGTH
    ensures VerdictOf(p) == if Unbounded(p) then Overrun else Continue
  {
    FullBuffer(p);
    JudgeFull(Low8(|p|), Buffer(p), Stays, AcceptedText);
  }

  /** Around the wrap of the counter: three bytes are stored without a search, and the 259th is searched for. */
  lemma FirstSearchAfterWrap(p: string)
    requires NUL !in p && 256 <= |p| <= 259
    ensures |p| < 259 ==> VerdictOf(p) == Continue
    ensures |p| == 259 && '\n' !in p ==> VerdictOf(p) == Overrun
  {
    LongVerdict(p);
    if |p| == 259 && '\n' !in p {
      forall k | 0 <= k < AT_BUFF_LENGTH ensures Buffer(p)[k] != '\n' {
        BufferIsRing(p, k);
      }
      NeedleNeedsChar(Buffer(p), CRLF, '\n');
    }
  }

  /** No prefix of at most 255 bytes is accepted. */
  predicate NoneAccepted(accepts: string -> bool, input: string) {
    forall k :: 0 <= k <= |input| && k < AT_BUFF_LENGTH ==> !accepts(input[..k])
  }

  /**
   A reply without NUL makes a search leave the buffer if and only if no prefix of at most 255 bytes is
   accepted and after some longer one, at a count above two, the buffer lacks CRLF or the error marker.
   Every success is within 255 bytes.
   */
  lemma LongReply(input: string, verdict: Verdict, consumed: nat)
    requires NUL !in input && Outcome(VerdictOf, input, verdict, consumed)
    ensures verdict == Overrun <==>
              NoneAccepted(Accepts, input) && exists j :: AT_BUFF_LENGTH <= j <= |input| && Unbounded(input[..j])
    ensures verdict == Success ==> consumed < AT_BUFF_LENGTH && Accepts(input[..consumed])
  {
    forall j | 0 <= j <= |input| && j < AT_BUFF_LENGTH
      ensures VerdictOf(input[..j]) == if Accepts(input[..j]) then Success else Continue
    {
      ShortVerdict(input[..j]);
    }
    forall j | AT_BUFF_LENGTH <= j <= |input|
      ensures VerdictOf(input[..j]) == if Unbounded(input[..j]) then Overrun else Continue
    {
      LongVerdict(input[..j]);
    }
    FirstVerdict(VerdictOf, Accepts, Unbounded, input, verdict, consumed);
  }

  lemma FirstVerdict(verdicts: string -> Verdict, accepts: string -> bool, unbounded: string -> bool,
                     input: string, verdict: Verdict, consumed: nat)
    requires Outcome(verdicts, input, verdict, consumed)
    requires forall j :: 0 <= j <= |input| && j < AT_BUFF_LENGTH ==>
               verdicts(input[..j]) == if accepts(input[..j]) then Success else Continue
    requires forall j :: AT_BUFF_LENGTH <= j <= |input| ==>
               verdicts(input[..j]) == if unbounded(input[..j]) then Overrun else Continue
    ensures verdict == Overrun <==>
              NoneAccepted(accepts, input) && exists j :: AT_BUFF_LENGTH <= j <= |input| && unbounded(input[..j])
    ensures verdict == Success ==> consumed < AT_BUFF_LENGTH && accepts(input[..consumed])
  {
    assert verdicts(input[..consumed]) == verdict;
  }

  // ---- a full buffer that is searched without leaving it ----

  const ERROR_REPLY: string := "AT\r\r\n\nERROR\r\n\r\n"

  lemma NeedleNeedsChar(text: string, needle: string, ch: char)
    requires ch in needle && ch !in text
    ensures !Contains(text, needle)
  {
  }

  lemma ErrorReplyChars()
    ensures 'K' !in ERROR_REPLY && 'C' !in ERROR_REPLY && NUL !in ERROR_REPLY
  {
  }

  lemma ErrorReplyHasNoSuccess()
    ensures !Contains(ERROR_REPLY, OK_MARK) && !Contains(ERROR_REPLY, CONNECT_MARK)
  {
    ErrorReplyChars();
    assert OK_MARK[2] == 'K' && CONNECT_MARK[1] == 'C';
    NeedleNeedsChar(ERROR_REPLY, OK_MARK, 'K');
    NeedleNeedsChar(ERROR_REPLY, CONNECT_MARK, 'C');
  }

  lemma MarkerAt(text: string, needle: string, at: nat)
    requires at + |needle| <= |text| && text[at..at + |needle|] == needle
    ensures Contains(text, needle)
  {
    MatchIsFound(text, needle, 0, at);
  }

  lemma ErrorReplyHasError()
    ensures Contains(ERROR_REPLY, ERROR_MARK)
  {
    assert |ERROR_MARK| == 7 && |ERROR_REPLY| == 15;
    assert ERROR_REPLY[5..12] == ERROR_MARK;
    MarkerAt(ERROR_REPLY, ERROR_MARK, 5);
  }

  /** The 259th byte is stored at index 2; the bytes before it from index 3 on are still in place. */
  lemma SecondLap(s: string, k: nat)
    requires |s| == AT_BUFF_LENGTH + 3 && 3 <= k < AT_BUFF_LENGTH
    ensures Buffer(s)[k] == s[k]
  {
    BufferIsRing(s, k);
    assert Latest(|s|, k) == k;
  }

  lemma ErrorReplyInBuffer(s: string)
    requires ERROR_REPLY <= s && |s| == AT_BUFF_LENGTH + 3
    ensures !Unbounded(s)
  {
    var b := Buffer(s);
    forall k | 3 <= k < 12 ensures b[k] == ERROR_REPLY[k] {
      SecondLap(s, k);
    }
    assert b[3..5] == CRLF && b[5..12] == ERROR_MARK;
    MarkerAt(b, CRLF, 3);
    MarkerAt(b, ERROR_MARK, 5);
  }

  lemma ReadsOn(head: string, s: string)
    requires head <= s && |s| == AT_BUFF_LENGTH + 3 && NUL !in s && !Unbounded(s) && Contains(head, ERROR_MARK)
    requires !Contains(head, OK_MARK) && !Contains(head, CONNECT_MARK)
    ensures Outcome(VerdictOf, s, Continue, |s|)
  {
    forall j | 0 <= j <= |s| ensures VerdictOf(s[..j]) == Continue {
      if j < AT_BUFF_LENGTH {
        ShortVerdict(s[..j]);
        ErrorFirstRefused(head, s, j);
      } else if j < |s| {
        LongVerdict(s[..j]);
      } else {
        LongVerdict(s);
        assert s[..j] == s;
      }
    }
  }

  /**
   A full buffer alone does not make a search leave it: 259 bytes that begin with an error reply are
   searched to the last, whatever follows, and the exchange goes on reading.
   */
  lemma ErrorReplyReadsOn(rest: string)
    requires NUL !in rest && |ERROR_REPLY + rest| == AT_BUFF_LENGTH + 3
    ensures NUL !in Buffer(ERROR_REPLY + rest)
    ensures Outcome(VerdictOf, ERROR_REPLY + rest, Continue, |ERROR_REPLY + rest|)
  {
    var s := ERROR_REPLY + rest;
    ErrorReplyChars();
    FullBuffer(s);
    ErrorReplyInBuffer(s);
    ErrorReplyHasNoSuccess();
    ErrorReplyHasError();
    ReadsOn(ERROR_REPLY, s);
  }
}
