/** `getParameter`: one comma-separated field of an AT reply, and the texts it is a reader for. */
module AtParameter {
  import opened AtReply
  import opened Modem
  import opened Wrappers

  const PARAMETER_BUFFER: nat := 128

  /** The characters that survive the first loop. */
  predicate Kept(ch: char) {
    ch != '\r' && ch != '\n' && ch != '"' && ch != ':'
  }

  function Clean(s: string): (t: string)
    ensures |t| <= |s|
    ensures forall ch :: ch in t ==> Kept(ch) && ch in s
  {
    if s == [] then []
    else if Kept(s[|s| - 1]) then Clean(s[..|s| - 1]) + [s[|s| - 1]]
    else Clean(s[..|s| - 1])
  }

  /** The fields of `s` between its commas; there is always at least one. */
  function Split(s: string): (fields: seq<string>)
    ensures |fields| >= 1
  {
    if s == [] then [""] else
    var fields, ch := Split(s[..|s| - 1]), s[|s| - 1];
    if ch == ',' then fields + [""]
    else fields[|fields| - 1 := fields[|fields| - 1] + [ch]]
  }

  function Join(fields: seq<string>): string
    requires |fields| >= 1
  {
    if |fields| == 1 then fields[0]
    else Join(fields[..|fields| - 1]) + "," + fields[|fields| - 1]
  }

  lemma JoinAppend(fields: seq<string>, f: string)
    requires |fields| >= 1
    ensures Join(fields + [f]) == Join(fields) + "," + f
    ensures var n := |fields| - 1;
            Join(fields[n := fields[n] + f]) == Join(fields) + f
  {
    var n := |fields| - 1;
    assert (fields + [f])[..n + 1] == fields;
    var longer := fields[n := fields[n] + f];
    assert longer[..n] == fields[..n];
    if n > 0 {
      var init := Join(fields[..n]) + ",";
      assert Join(longer) == init + (fields[n] + f) == init + fields[n] + f;
    }
  }

  lemma {:induction false} JoinSplit(s: string)
    ensures Join(Split(s)) == s
  {
    if s != [] {
      var shorter, ch := s[..|s| - 1], s[|s| - 1];
      JoinSplit(shorter);
      assert s == shorter + [ch];
      if ch == ',' {
        JoinAppend(Split(shorter), "");
      } else {
        JoinAppend(Split(shorter), [ch]);
      }
    }
  }

  lemma {:induction false} SplitAppend(s: string, f: string)
    requires ',' !in f
    ensures var fields := Split(s);
            Split(s + f) == fields[|fields| - 1 := fields[|fields| - 1] + f]
  {
    if f == [] {
      assert s + f == s;
      assert Split(s)[|Split(s)| - 1] + f == Split(s)[|Split(s)| - 1];
    } else {
      var g, ch := f[..|f| - 1], f[|f| - 1];
      assert f == g + [ch];
      SplitAppend(s, g);
      assert (s + f)[..|s + f| - 1] == s + g;
      assert Split(s)[|Split(s)| - 1] + f == Split(s)[|Split(s)| - 1] + g + [ch];
    }
  }

  lemma SplitComma(s: string)
    ensures Split(s + ",") == Split(s) + [""]
  {
    assert (s + ",")[..|s|] == s;
  }

  lemma {:induction false} SplitJoin(fields: seq<string>)
    requires |fields| >= 1 && forall f :: f in fields ==> ',' !in f
    ensures Split(Join(fields)) == fields
  {
    var n := |fields| - 1;
    var last := fields[n];
    assert "" + last == last;
    if n == 0 {
      SplitAppend("", last);
    } else {
      var init := fields[..n];
      SplitJoin(init);
      SplitComma(Join(init));
      SplitAppend(Join(init) + ",", last);
      assert (init + [""])[n := last] == init + [last] == fields;
    }
  }

  /** A field with a comma behind it is not affected by what follows. */
  lemma {:induction false} SplitPrefix(s: string, k: nat)
    requires k <= |s|
    ensures |Split(s[..k])| <= |Split(s)|
    ensures forall n :: 0 <= n < |Split(s[..k])| - 1 ==> Split(s)[n] == Split(s[..k])[n]
    decreases |s|
  {
    if k == |s| {
      assert s[..k] == s;
    } else {
      SplitPrefix(s[..|s| - 1], k);
      assert s[..|s| - 1][..k] == s[..k];
    }
  }

  /** One space in front of everything is dropped. */
  function DropSpace(s: string): string {
    if s != [] && s[0] == ' ' then s[1..] else s
  }

  /** The fields a reply text offers. */
  function Fields(text: string): (fields: seq<string>)
    ensures |fields| >= 1
  {
    Split(DropSpace(Clean(text)))
  }

  function FieldOr(fields: seq<string>, n: nat): string {
    if n < |fields| then fields[n] else ""
  }

  /** `strchr`: the rest of the text from the first occurrence on; the terminator always occurs. */
  function StrChr(s: string, ch: char): (rest: Option<string>)
    ensures rest.None? <==> ch != NUL && ch !in s
    ensures rest.Some? ==> |rest.value| <= |s| && s[|s| - |rest.value|..] == rest.value
    ensures rest.Some? && ch == NUL ==> rest.value == ""
    ensures rest.Some? && ch != NUL ==> rest.value != "" && rest.value[0] == ch && ch !in s[..|s| - |rest.value|]
  {
    if ch == NUL then Some("")
    else if s == [] then None
    else if s[0] == ch then Some(s)
    else StrChr(s[1..], ch)
  }

  /** Cleaning removes carriage return, line feed, quote and colon, each wherever it stands, and nothing else. */
  lemma CleanSingle(ch: char)
    ensures Clean([ch]) == if ch == '\r' || ch == '\n' || ch == '"' || ch == ':' then "" else [ch]
  {
    assert [ch][..0] == [];
  }

  /** A comma separates two fields, and only a comma does. */
  lemma {:induction false} SplitTwo(s: string, f: string)
    requires ',' !in f
    ensures Split(f) == [f] && Split(s + "," + f) == Split(s) + [f]
  {
    SplitAppend("", f);
    assert "" + f == f;
    SplitComma(s);
    SplitAppend(s + ",", f);
    assert (Split(s) + [""])[|Split(s)| := f] == Split(s) + [f];
  }

  /** One leading space is dropped, no other character. */
  lemma DropsOneSpace(s: string)
    ensures DropSpace(" " + s) == s && (s == "" || s[0] != ' ' ==> DropSpace(s) == s)
  {
  }

  /** The text `getParameter` reads: all of the input, or from the start character on. */
  function Region(input: Option<string>, start: Option<char>): Option<string> {
    if input.None? then None
    else if start.None? then input
    else StrChr(input.value, start.value)
  }

  /** What the second loop has written after the characters `seen`. */
  function Written(seen: string, n: nat): string {
    FieldOr(Split(DropSpace(seen)), n)
  }

  function Count(seen: string): nat {
    |Split(DropSpace(seen))|
  }

  /** How one more character changes what has been counted and written. */
  lemma WrittenStep(seen: string, ch: char, n: nat)
    ensures var more, before := seen + [ch], Written(seen, n);
            if ch == ' ' && seen == [] then Count(more) == Count(seen) && Written(more, n) == before
            else if ch == ',' then Count(more) == Count(seen) + 1 && Written(more, n) == before
            else Count(more) == Count(seen)
                 && Written(more, n) == if n == Count(seen) - 1 then before + [ch] else before
  {
    var s, t := DropSpace(seen), DropSpace(seen + [ch]);
    if !(ch == ' ' && seen == []) {
      assert t == s + [ch];
      assert t[..|t| - 1] == s;
    }
  }

  lemma CleanStep(p: string, i: nat)
    requires i < |p|
    ensures Clean(p[..i + 1]) == Clean(p[..i]) + if Kept(p[i]) then [p[i]] else []
  {
    assert p[..i + 1][..i] == p[..i];
  }

  /**
   The first loop: the kept characters of `p`, in order, at the start of `pBuff`. It stays inside
   exactly when they leave room for the terminator the string functions look for afterwards.
   */
  method Filter(p: string, pBuff: array<char>) returns (len: Access<nat>)
    modifies pBuff
    ensures len.InBounds? <==> |Clean(p)| < pBuff.Length
    ensures len.InBounds? ==> len.value == |Clean(p)| && pBuff[..len.value] == Clean(p)
  {
    var i2 := 0;
    for i := 0 to |p|
      invariant i2 <= pBuff.Length && pBuff[..i2] == Clean(p[..i])
    {
      CleanStep(p, i);
      CleanPrefix(p, i + 1);
      if Kept(p[i]) {
        if i2 == pBuff.Length {
          return OutOfBounds;
        }
        ghost var kept := pBuff[..i2];
        pBuff[i2] := p[i];
        i2 := i2 + 1;
        assert pBuff[..i2] == kept + [p[i]];
      }
    }
    assert p[..|p|] == p;
    len := if i2 < pBuff.Length then InBounds(i2) else OutOfBounds;
  }

  lemma {:induction false} CleanPrefix(s: string, k: nat)
    requires k <= |s|
    ensures |Clean(s[..k])| <= |Clean(s)|
    decreases |s|
  {
    if k == |s| {
      assert s[..k] == s;
    } else {
      CleanPrefix(s[..|s| - 1], k);
      assert s[..|s| - 1][..k] == s[..k];
    }
  }

  /**
   `getParameter`. Exactly the asked field is stored at the start of the output and nothing after
   it; the answer is `eOk` exactly when a comma follows the field, so the last field is stored but
   reported as an error. Without input, output or start character nothing is stored. The call stays
   inside its buffers exactly when the cleaned text has at most 127 characters and the field fits.
   */
  method GetParameter(paramNum: nat, start: Option<char>, input: Option<string>, output: array?<char>)
    returns (result: Access<RetComm>)
    modifies output
    ensures input.None? || output == null ||
            (start.Some? && start.value != NUL && start.value !in input.value) ==>
              result == InBounds(EError) && (output != null ==> output[..] == old(output[..]))
    ensures input.Some? && output != null && start.None? ==>
              var fields := Fields(input.value);
              var f := if paramNum < |fields| then fields[paramNum] else "";
              result == if |Clean(input.value)| < 128 && |f| <= output.Length
                        then InBounds(if paramNum < |fields| - 1 then EOk else EError) else OutOfBounds
    ensures var text := Region(input, start);
            if text.None? || output == null then
              result == InBounds(EError) && (output != null ==> output[..] == old(output[..]))
            else
              var fields := Fields(text.value);
              var f := if paramNum < |fields| then fields[paramNum] else "";
              if |Clean(text.value)| < PARAMETER_BUFFER && |f| <= output.Length then
                && result == InBounds(if paramNum < |fields| - 1 then EOk else EError)
                && output[..] == f + old(output[..])[|f|..]
              else result == OutOfBounds
  {
    if input.None? || output == null {
      return InBounds(EError);
    }
    var region := Region(input, start);
    if region.None? {
      return InBounds(EError);
    }
    var pBuff := new char[PARAMETER_BUFFER](_ => NUL);
    var len := Filter(region.value, pBuff);
    if len.OutOfBounds? {
      return OutOfBounds;
    }
    result := CopyField(paramNum, pBuff[..len.value], output);
  }

  /** `out` is `rest` with `w` stored at its start. */
  predicate Stored(out: string, w: string, rest: string) {
    |w| <= |rest| && out == w + rest[|w|..]
  }

  lemma StoredStep(out: string, w: string, rest: string, ch: char)
    requires Stored(out, w, rest) && |w| < |rest|
    ensures |out| == |rest| && Stored(out[|w| := ch], w + [ch], rest)
  {
  }

  /** One character behind what is stored. */
  method StoreNext(output: array<char>, lenOut: nat, ch: char, ghost w: string, ghost rest: string)
    requires Stored(output[..], w, rest) && lenOut == |w| < output.Length
    modifies output
    ensures Stored(output[..], w + [ch], rest)
  {
    ghost var out := output[..];
    StoredStep(out, w, rest, ch);
    output[lenOut] := ch;
    assert output[..] == out[lenOut := ch];
  }

  /** The step of `WrittenStep` for a character at `i`: what is written and how many fields are counted. */
  predicate StepsTo(ch: char, i: nat, n: nat, w: string, k: nat, w': string, k': nat) {
    if ch == ' ' && i == 0 then k' == k && w' == w
    else if ch == ',' then k' == k + 1 && w' == w
    else k' == k && w' == if n == k - 1 then w + [ch] else w
  }

  /**
   `written` and `counted` follow the text character by character to the whole field `f` among
   `total`; the field never shrinks, and at a comma that ends it it is complete.
   */
  ghost predicate Scans(clean: string, n: nat, written: nat -> string, counted: nat -> nat, f: string, total: nat) {
    && written(0) == "" && counted(0) == 1 && written(|clean|) == f && counted(|clean|) == total
    && (forall i: nat | i < |clean| ::
          StepsTo(clean[i], i, n, written(i), counted(i), written(i + 1), counted(i + 1)))
    && (forall i: nat | i <= |clean| :: |written(i)| <= |f|)
    && (forall i: nat | i < |clean| :: clean[i] == ',' && n == counted(i) - 1 ==> written(i) == f && n < total - 1)
  }

  function WrittenAt(clean: string, n: nat): nat -> string {
    (i: nat) => if i <= |clean| then Written(clean[..i], n) else ""
  }

  function CountedAt(clean: string): nat -> nat {
    (i: nat) => if i <= |clean| then Count(clean[..i]) else 1
  }

  lemma ScansField(clean: string, n: nat)
    ensures var fields := Split(DropSpace(clean));
            Scans(clean, n, WrittenAt(clean, n), CountedAt(clean), FieldOr(fields, n), |fields|)
  {
    var fields, written, counted := Split(DropSpace(clean)), WrittenAt(clean, n), CountedAt(clean);
    assert clean[..|clean|] == clean;
    forall i: nat | i < |clean|
      ensures StepsTo(clean[i], i, n, written(i), counted(i), written(i + 1), counted(i + 1))
      ensures clean[i] == ',' && n == counted(i) - 1 ==> written(i) == FieldOr(fields, n) && n < |fields| - 1
    {
      assert clean[..i + 1] == clean[..i] + [clean[i]];
      WrittenStep(clean[..i], clean[i], n);
      if clean[i] == ',' && n == counted(i) - 1 {
        FieldDone(clean, i, n);
      }
    }
    forall i: nat | i <= |clean| ensures |written(i)| <= |FieldOr(fields, n)| {
      FieldGrows(clean, i, n);
    }
  }

  /** The second loop, over the cleaned text; it stays inside exactly when the field fits the output. */
  method CopyField(paramNum: nat, clean: string, output: array<char>) returns (result: Access<RetComm>)
    modifies output
    ensures var fields := Split(DropSpace(clean));
            var f := if paramNum < |fields| then fields[paramNum] else "";
            if |f| <= output.Length then
              && result == InBounds(if paramNum < |fields| - 1 then EOk else EError)
              && output[..] == f + old(output[..])[|f|..]
            else result == OutOfBounds
  {
    ghost var fields := Split(DropSpace(clean));
    ScansField(clean, paramNum);
    result := CopyScanned(paramNum, clean, output, WrittenAt(clean, paramNum), CountedAt(clean),
                          FieldOr(fields, paramNum), |fields|);
  }

  method CopyScanned(paramNum: nat, clean: string, output: array<char>,
                     ghost written: nat -> string, ghost counted: nat -> nat, ghost f: string, ghost total: nat)
    returns (result: Access<RetComm>)
    requires Scans(clean, paramNum, written, counted, f, total)
    modifies output
    ensures if |f| <= output.Length then
              && result == InBounds(if paramNum < total - 1 then EOk else EError)
              && output[..] == f + old(output[..])[|f|..]
            else result == OutOfBounds
  {
    var paramCounter, lenOut, i := 0, 0, 0;
    ghost var rest := output[..];
    while i < |clean|
      invariant 0 <= i <= |clean|
      invariant paramCounter == counted(i) - 1 <= paramNum
      invariant lenOut == |written(i)| <= output.Length
      invariant Stored(output[..], written(i), rest)
    {
      var ch := clean[i];
      assert StepsTo(ch, i, paramNum, written(i), counted(i), written(i + 1), counted(i + 1));
      if ch != ' ' || i != 0 {
        if ch == ',' {
          paramCounter := paramCounter + 1;
          if paramCounter > paramNum {
            return InBounds(EOk);
          }
        } else if paramCounter == paramNum {
          if lenOut == output.Length {
            assert |written(i + 1)| <= |f|;
            return OutOfBounds;
          }
          StoreNext(output, lenOut, ch, written(i), rest);
          lenOut := lenOut + 1;
        }
      }
      i := i + 1;
    }
    result := InBounds(EError);
  }

  lemma DropSpacePrefix(s: string, k: nat)
    requires k <= |s|
    ensures DropSpace(s[..k]) <= DropSpace(s)
  {
  }

  /** The part of a field seen so far is no longer than the field. */
  lemma {:induction false} FieldGrows(clean: string, k: nat, n: nat)
    requires k <= |clean|
    ensures |Written(clean[..k], n)| <= |Written(clean, n)|
  {
    DropSpacePrefix(clean, k);
    var s, t := DropSpace(clean[..k]), DropSpace(clean);
    assert t[..|s|] == s;
    LastGrows(t, |s|);
  }

  lemma {:induction false} LastGrows(s: string, k: nat)
    requires k <= |s|
    ensures |Split(s[..k])| <= |Split(s)|
    ensures forall n :: 0 <= n < |Split(s[..k])| ==> |Split(s[..k])[n]| <= |Split(s)[n]|
    decreases |s|
  {
    if k == |s| {
      assert s[..k] == s;
    } else {
      LastGrows(s[..|s| - 1], k);
      assert s[..|s| - 1][..k] == s[..k];
    }
  }

  /** At the comma that ends it, a field is complete and not the last one. */
  lemma FieldDone(clean: string, i: nat, n: nat)
    requires i < |clean| && clean[i] == ',' && n == Count(clean[..i]) - 1
    ensures n < Count(clean) - 1
    ensures Written(clean[..i], n) == FieldOr(Split(DropSpace(clean)), n)
  {
    assert clean[..i + 1] == clean[..i] + [','];
    WrittenStep(clean[..i], ',', n);
    DropSpacePrefix(clean, i + 1);
    var s, t := DropSpace(clean[..i + 1]), DropSpace(clean);
    assert t[..|s|] == s;
    SplitPrefix(t, |s|);
  }
}
