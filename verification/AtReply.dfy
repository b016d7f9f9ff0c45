/** When an AT reply counts as answered: what the byte-by-byte matcher looks for in a whole text. */
module AtReply {
  import opened Arithmetic
  import opened Modem

  const NUL: char := '\0'
  const CRLF: string := "\r\n"
  const ERROR_MARK: string := "\nERROR\r"
  const OK_MARK: string := "\nOK\r"
  const CONNECT_MARK: string := "\nCONNECT\r"
  const SMS_MARK: string := "SMS Ready"

  /** `atReplyMarkers`, in table order. */
  const MARKERS: seq<(RetComm, string)> :=
    [(EError, ERROR_MARK), (EOk, OK_MARK), (EPpp, CONNECT_MARK), (ESmsReady, SMS_MARK)]

  /** The C string at the start of a buffer: everything before the first NUL. */
  function CText(s: string): (t: string)
    ensures t <= s && NUL !in t
    ensures |t| < |s| ==> s[|t|] == NUL
  {
    if s == [] || s[0] == NUL then [] else [s[0]] + CText(s[1..])
  }

  /** `strstr`: the first index from `i` on where `needle` occurs; past the end if nowhere. */
  function StrStr(text: string, needle: string, i: nat): (at: nat)
    requires i <= |text|
    ensures i <= at <= |text| + 1
    ensures at <= |text| ==> MatchesAt(text, at, needle)
    decreases |text| - i
  {
    if MatchesAt(text, i, needle) then i
    else if i == |text| then |text| + 1
    else StrStr(text, needle, i + 1)
  }

  /** `strstr(text, needle) != NULL` */
  predicate Contains(text: string, needle: string) {
    StrStr(text, needle, 0) <= |text|
  }

  lemma {:induction false} MatchIsFound(text: string, needle: string, i: nat, at: nat)
    requires i <= at <= |text| && MatchesAt(text, at, needle)
    ensures StrStr(text, needle, i) <= at
    decreases at - i
  {
    if i < at {
      MatchIsFound(text, needle, i + 1, at);
    }
  }

  predicate MatchesAt(text: string, i: nat, needle: string)
    requires i <= |text|
  {
    i + |needle| <= |text| && text[i..i + |needle|] == needle
  }

  /** A string occurs exactly if the text is something, the string, and something. */
  lemma ContainsIsSubstring(text: string, needle: string)
    ensures Contains(text, needle) <==> exists a: string, b: string :: text == a + needle + b
  {
    if Contains(text, needle) {
      var at := StrStr(text, needle, 0);
      assert text == text[..at] + needle + text[at + |needle|..];
    }
    if a: string, b: string :| text == a + needle + b {
      assert text[|a|..|a| + |needle|] == needle;
      MatchIsFound(text, needle, 0, |a|);
    }
  }

  /** Which strings occur in `text`. */
  function Has(text: string): string -> bool {
    needle => Contains(text, needle)
  }

  /** After `n` bytes, a text in which `has` says what occurs ends the exchange with success. */
  predicate AcceptedBy(n: nat, has: string -> bool) {
    && n > 2 && has(CRLF)
    && !has(ERROR_MARK)
    && (has(OK_MARK) || has(CONNECT_MARK))
  }

  /** The received bytes `p` end the exchange with success. */
  predicate Accepts(p: string) {
    AcceptedBy(|p|, Has(CText(p)))
  }

  lemma ContainsGrows(p: string, q: string, needle: string)
    requires p <= q && Contains(p, needle)
    ensures Contains(q, needle)
  {
    var i := StrStr(p, needle, 0);
    assert q[i..i + |needle|] == p[i..i + |needle|];
    MatchIsFound(q, needle, 0, i);
  }

  lemma {:induction false} CTextGrows(p: string, q: string)
    requires p <= q
    ensures CText(p) <= CText(q)
    ensures |CText(p)| < |p| ==> CText(q) == CText(p)
  {
    if p != [] && p[0] != NUL {
      CTextGrows(p[1..], q[1..]);
    }
  }

  /** Once the error marker has arrived, no continuation of the reply ever succeeds. */
  lemma ErrorIsFinal(p: string, q: string)
    requires p <= q && Contains(CText(p), ERROR_MARK)
    ensures !Accepts(q)
  {
    CTextGrows(p, q);
    ContainsGrows(CText(p), CText(q), ERROR_MARK);
  }

  /** The length of the shortest prefix of `t` that contains `needle`; `|t| + 1` if none does. */
  function FirstEnd(t: string, needle: string): (end: nat)
    ensures end <= |t| + 1
    ensures end <= |t| ==> Contains(t[..end], needle)
    ensures forall k :: 0 <= k < end && k <= |t| ==> !Contains(t[..k], needle)
  {
    FirstEndFrom(t, needle, 0)
  }

  function FirstEndFrom(t: string, needle: string, k: nat): (end: nat)
    requires k <= |t| + 1
    ensures k <= end <= |t| + 1
    ensures end <= |t| ==> Contains(t[..end], needle)
    ensures forall j :: k <= j < end && j <= |t| ==> !Contains(t[..j], needle)
    decreases |t| + 1 - k
  {
    if k == |t| + 1 || Contains(t[..k], needle) then k else FirstEndFrom(t, needle, k + 1)
  }

  lemma ContainedFrom(t: string, needle: string, k: nat)
    requires k <= |t|
    ensures Contains(t[..k], needle) <==> FirstEnd(t, needle) <= k
  {
    var end := FirstEnd(t, needle);
    if end <= k {
      assert t[..end] <= t[..k];
      ContainsGrows(t[..end], t[..k], needle);
    }
  }

  /** Where the answer is complete: the line ending and the earlier of the two success markers. */
  function AnswerEnd(t: string): nat {
    Max(FirstEnd(t, CRLF), Min(FirstEnd(t, OK_MARK), FirstEnd(t, CONNECT_MARK)))
  }

  /** The whole text holds an answer, and the answer is complete before any error marker is. */
  predicate Answered(t: string) {
    AnswerEnd(t) <= |t| && AnswerEnd(t) < FirstEnd(t, ERROR_MARK)
  }

  lemma MarkersAreLong(t: string, needle: string)
    requires Contains(t, needle)
    ensures |t| >= |needle|
  {
  }

  /** Up to its first NUL, a reply is accepted from the end of its answer until an error marker. */
  lemma AcceptedFrom(s: string, k: nat)
    requires k <= |CText(s)|
    ensures Accepts(s[..k]) <==> AnswerEnd(CText(s)) <= k < FirstEnd(CText(s), ERROR_MARK)
  {
    var t := CText(s);
    assert s[..k] == t[..k];
    NoNulIsText(t[..k]);
    ContainedFrom(t, CRLF, k);
    ContainedFrom(t, OK_MARK, k);
    ContainedFrom(t, CONNECT_MARK, k);
    ContainedFrom(t, ERROR_MARK, k);
    if Contains(t[..k], OK_MARK) {
      MarkersAreLong(t[..k], OK_MARK);
    }
    if Contains(t[..k], CONNECT_MARK) {
      MarkersAreLong(t[..k], CONNECT_MARK);
    }
  }

  lemma {:induction false} NoNulIsText(t: string)
    requires NUL !in t
    ensures CText(t) == t
  {
    if t != [] {
      NoNulIsText(t[1..]);
    }
  }

  /** `k` is the length of the shortest accepted prefix. */
  predicate IsStop(s: string, k: nat) {
    k <= |s| && Accepts(s[..k]) && forall j :: 0 <= j < k ==> !Accepts(s[..j])
  }

  lemma AcceptedMeansAnswered(s: string, k: nat)
    requires k <= |s| && Accepts(s[..k])
    ensures Answered(CText(s))
  {
    var t := CText(s);
    if k <= |t| {
      AcceptedFrom(s, k);
    } else {
      TextOfLonger(s, k);
      MarkersAreLong(t, if Contains(t, OK_MARK) then OK_MARK else CONNECT_MARK);
      NoNulIsText(t);
      assert s[..|t|] == t;
      AcceptedFrom(s, |t|);
    }
  }

  /**
   Online matching and the offline reading of the whole text agree: some prefix of the reply is
   accepted exactly when the text is answered, and the shortest such prefix ends where the answer
   does.
   */
  lemma OnlineIsOffline(s: string)
    ensures (exists k :: 0 <= k <= |s| && Accepts(s[..k])) <==> Answered(CText(s))
    ensures Answered(CText(s)) ==> IsStop(s, AnswerEnd(CText(s)))
  {
    var t := CText(s);
    var stop := AnswerEnd(t);
    if Answered(t) {
      AcceptedFrom(s, stop);
      forall j | 0 <= j < stop ensures !Accepts(s[..j]) {
        AcceptedFrom(s, j);
      }
    }
    if k :| 0 <= k <= |s| && Accepts(s[..k]) {
      AcceptedMeansAnswered(s, k);
    }
  }

  /** Bytes after a NUL are invisible to the string searches. */
  lemma TextOfLonger(s: string, k: nat)
    requires |CText(s)| < k <= |s|
    ensures CText(s[..k]) == CText(s)
  {
    CTextGrows(s[..k], s);
  }

  lemma NoMarkerNoAccept(p: string, head: string)
    requires p <= head && NUL !in head && !Contains(head, OK_MARK) && !Contains(head, CONNECT_MARK)
    ensures !Accepts(p)
  {
    NoNulIsText(p);
    if Contains(p, OK_MARK) {
      ContainsGrows(p, head, OK_MARK);
    }
    if Contains(p, CONNECT_MARK) {
      ContainsGrows(p, head, CONNECT_MARK);
    }
  }

  /** What is accepted: a line ending and one of two answers, and no error marker. */
  lemma AcceptedTexts(p: string)
    requires NUL !in p
    ensures Accepts(p) <==>
            Contains(p, "\r\n") && !Contains(p, "\nERROR\r") && (Contains(p, "\nOK\r") || Contains(p, "\nCONNECT\r"))
  {
    NoNulIsText(p);
    if Contains(p, OK_MARK) {
      MarkersAreLong(p, OK_MARK);
    }
    if Contains(p, CONNECT_MARK) {
      MarkersAreLong(p, CONNECT_MARK);
    }
  }

  lemma StopsAt(s: string, n: nat, mark: string, crlf: nat, at: nat)
    requires NUL !in s && 2 < n <= |s| && (mark == OK_MARK || mark == CONNECT_MARK)
    requires !Contains(s[..n - 1], OK_MARK) && !Contains(s[..n - 1], CONNECT_MARK) && !Contains(s[..n], ERROR_MARK)
    requires crlf + 2 <= n && s[crlf..crlf + 2] == CRLF
    requires at + |mark| == n && s[at..n] == mark
    ensures IsStop(s, n)
  {
    var p := s[..n];
    NoNulIsText(p);
    assert p[crlf..crlf + 2] == CRLF && p[at..n] == mark;
    MatchIsFound(p, CRLF, 0, crlf);
    MatchIsFound(p, mark, 0, at);
    forall j | 0 <= j < n ensures !Accepts(s[..j]) {
      assert s[..j] <= s[..n - 1];
      NoMarkerNoAccept(s[..j], s[..n - 1]);
    }
  }

  /**
   The usual reply ends in `\r\nOK\r\n`, and the exchange stops one byte early: the final line feed
   is not consumed by it.
   */
  lemma OkReplyLeavesLineFeed(body: string)
    requires NUL !in body
    requires var head := body + "\r\nOK";
             !Contains(head, "\nOK\r") && !Contains(head, "\nCONNECT\r") && !Contains(head + "\r", "\nERROR\r")
    ensures IsStop(body + "\r\nOK\r\n", |body| + 5)
  {
    var s, n := body + "\r\nOK\r\n", |body| + 5;
    assert s[..n - 1] == body + "\r\nOK" && s[..n] == body + "\r\nOK" + "\r";
    assert s[|body|..|body| + 2] == CRLF && s[|body| + 1..n] == OK_MARK;
    StopsAt(s, n, OK_MARK, |body|, |body| + 1);
  }

  /** The answer to the dial command likewise. */
  lemma ConnectReplyLeavesLineFeed(body: string)
    requires NUL !in body
    requires var head := body + "\r\nCONNECT";
             !Contains(head, "\nOK\r") && !Contains(head, "\nCONNECT\r") && !Contains(head + "\r", "\nERROR\r")
    ensures IsStop(body + "\r\nCONNECT\r\n", |body| + 10)
  {
    var s, n := body + "\r\nCONNECT\r\n", |body| + 10;
    assert s[..n - 1] == body + "\r\nCONNECT" && s[..n] == body + "\r\nCONNECT" + "\r";
    assert s[|body|..|body| + 2] == CRLF && s[|body| + 1..n] == CONNECT_MARK;
    StopsAt(s, n, CONNECT_MARK, |body|, |body| + 1);
  }

  /** An error reply is never accepted, however it goes on, unless an answer stood before it. */
  lemma ErrorReplyRefused(body: string, more: string, j: nat)
    requires NUL !in body && j <= |body + "\r\nERROR\r" + more|
    requires !Contains(body + "\r\nERROR\r", "\nOK\r") && !Contains(body + "\r\nERROR\r", "\nCONNECT\r")
    ensures !Accepts((body + "\r\nERROR\r" + more)[..j])
  {
    var head := body + "\r\nERROR\r";
    assert head[|body| + 1..|head|] == ERROR_MARK;
    MatchIsFound(head, ERROR_MARK, 0, |body| + 1);
    ErrorFirstRefused(head, head + more, j);
  }

  /** No prefix of a reply is accepted whose beginning holds the error marker and no success marker. */
  lemma ErrorFirstRefused(head: string, s: string, j: nat)
    requires head <= s && j <= |s| && NUL !in head && Contains(head, ERROR_MARK)
    requires !Contains(head, OK_MARK) && !Contains(head, CONNECT_MARK)
    ensures !Accepts(s[..j])
  {
    if j < |head| {
      assert s[..j] <= head;
      NoMarkerNoAccept(s[..j], head);
    } else {
      NoNulIsText(head);
      ErrorIsFinal(head, s[..j]);
    }
  }
}
