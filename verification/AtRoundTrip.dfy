/** Replies rendered from their fields are read back field by field. */
module AtRoundTrip {
  import opened AtReply
  import opened AtParameter
  import opened Modem
  import opened Wrappers

  lemma {:induction false} CleanAppend(a: string, b: string)
    ensures Clean(a + b) == Clean(a) + Clean(b)
  {
    if b == [] {
      assert a + b == a;
    } else {
      var c, ch := b[..|b| - 1], b[|b| - 1];
      assert (a + b)[..|a + b| - 1] == a + c;
      CleanAppend(a, c);
    }
  }

  lemma {:induction false} CleanKept(s: string)
    requires forall ch :: ch in s ==> Kept(ch)
    ensures Clean(s) == s
  {
    if s != [] {
      CleanKept(s[..|s| - 1]);
    }
  }

  lemma CleanComma(a: string, b: string)
    ensures Clean(a + "," + b) == Clean(a) + "," + Clean(b)
  {
    CleanAppend(a + ",", b);
    CleanAppend(a, ",");
    CleanKept(",");
  }

  lemma {:induction false} StrChrAfter(prefix: string, ch: char, rest: string)
    requires ch !in prefix && ch != NUL && rest != "" && rest[0] == ch
    ensures StrChr(prefix + rest, ch) == Some(rest)
  {
    if prefix == [] {
      assert prefix + rest == rest;
    } else {
      assert (prefix + rest)[1..] == prefix[1..] + rest;
      StrChrAfter(prefix[1..], ch, rest);
    }
  }

  /** A field's text: no separator and nothing the reader strips. */
  predicate Plain(f: string) {
    ',' !in f && forall ch :: ch in f ==> Kept(ch)
  }

  /** A field as a modem prints it, in quotes or bare. */
  function Show(f: string, quoted: bool): string {
    if quoted then "\"" + f + "\"" else f
  }

  function ShowAll(fields: seq<string>, quoted: seq<bool>): string
    requires |fields| == |quoted| >= 1
  {
    var n := |fields| - 1;
    if n == 0 then Show(fields[0], quoted[0])
    else ShowAll(fields[..n], quoted[..n]) + "," + Show(fields[n], quoted[n])
  }

  /** A reply from its colon on. */
  function Body(space: bool, shown: string, tail: string): string {
    ":" + Lead(space) + shown + "," + tail
  }

  function Lead(space: bool): string {
    if space then " " else ""
  }

  /**
   A reply line: a name such as `+CMGL`, a colon, at most one space, the fields, and after a last
   comma whatever else the buffer holds.
   */
  function Reply(name: string, space: bool, fields: seq<string>, quoted: seq<bool>, tail: string): string
    requires |fields| == |quoted| >= 1
  {
    name + Body(space, ShowAll(fields, quoted), tail)
  }

  lemma CleanShow(f: string, quoted: bool)
    requires Plain(f)
    ensures Clean(Show(f, quoted)) == f
  {
    CleanKept(f);
    if quoted {
      CleanAppend("\"" + f, "\"");
      CleanAppend("\"", f);
      assert Clean("\"") == "" by {
        assert "\""[..0] == "";
      }
      assert "" + f + "" == f;
    }
  }

  lemma {:induction false} CleanShowAll(fields: seq<string>, quoted: seq<bool>)
    requires |fields| == |quoted| >= 1 && forall f :: f in fields ==> Plain(f)
    ensures Clean(ShowAll(fields, quoted)) == Join(fields)
  {
    var n := |fields| - 1;
    CleanShow(fields[n], quoted[n]);
    if n > 0 {
      CleanShowAll(fields[..n], quoted[..n]);
      CleanComma(ShowAll(fields[..n], quoted[..n]), Show(fields[n], quoted[n]));
    }
  }

  /** The fields as read: without a printed space, a space at the start of the first is lost. */
  function AsRead(space: bool, fields: seq<string>): (read: seq<string>)
    requires |fields| >= 1
    ensures |read| == |fields|
  {
    if space then fields else fields[0 := DropSpace(fields[0])]
  }

  /** What the reader sees of a reply: the fields joined, a comma, and the cleaned rest. */
  lemma CleanReply(space: bool, fields: seq<string>, quoted: seq<bool>, tail: string)
    requires |fields| == |quoted| >= 1 && (forall f :: f in fields ==> Plain(f))
    ensures Clean(Body(space, ShowAll(fields, quoted), tail)) == Lead(space) + Join(fields) + "," + Clean(tail)
  {
    var lead := Lead(space);
    var shown := ShowAll(fields, quoted);
    CleanComma(":" + lead + shown, tail);
    CleanAppend(":" + lead, shown);
    CleanAppend(":", lead);
    CleanKept(lead);
    assert Clean(":") == "" by {
      assert ":"[..0] == "";
    }
    CleanShowAll(fields, quoted);
  }

  lemma {:induction false} DropJoinSpace(fields: seq<string>)
    requires |fields| >= 1
    ensures DropSpace(Join(fields)) == Join(fields[0 := DropSpace(fields[0])])
  {
    var n := |fields| - 1;
    if n > 0 {
      var init := fields[..n];
      DropJoinSpace(init);
      assert fields[0 := DropSpace(fields[0])][..n] == init[0 := DropSpace(init[0])];
      DropBeforeComma(Join(init), fields[n]);
    }
  }

  lemma DropBeforeComma(a: string, b: string)
    ensures DropSpace(a + "," + b) == DropSpace(a) + "," + b
  {
    if a != "" && a[0] == ' ' {
      assert (a + "," + b)[1..] == a[1..] + "," + b;
    }
  }

  /** One leading space is dropped: the printed one, or else one of the text behind it. */
  lemma DropLead(space: bool, joined: string, rest: string)
    ensures DropSpace(Lead(space) + joined + "," + rest) == (if space then joined else DropSpace(joined)) + "," + rest
  {
    if space {
      assert (" " + joined + "," + rest)[1..] == joined + "," + rest;
    } else {
      assert "" + joined + "," + rest == joined + "," + rest;
      DropBeforeComma(joined, rest);
    }
  }

  lemma DropReplySpace(space: bool, fields: seq<string>, rest: string)
    requires |fields| >= 1
    ensures DropSpace(Lead(space) + Join(fields) + "," + rest) == Join(AsRead(space, fields)) + "," + rest
  {
    DropLead(space, Join(fields), rest);
    if !space {
      DropJoinSpace(fields);
    }
  }

  lemma AsReadHasNoComma(space: bool, fields: seq<string>)
    requires |fields| >= 1 && forall f :: f in fields ==> Plain(f)
    ensures forall f :: f in AsRead(space, fields) ==> ',' !in f
  {
    forall i | 0 <= i < |fields| ensures ',' !in AsRead(space, fields)[i] {
      assert Plain(fields[i]);
    }
  }

  lemma JoinedFields(fields: seq<string>, rest: string, n: nat)
    requires n < |fields| && forall f :: f in fields ==> ',' !in f
    ensures var all := Split(Join(fields) + "," + rest); |all| > n + 1 && all[n] == fields[n]
  {
    var head := Join(fields) + ",";
    SplitJoin(fields);
    SplitComma(Join(fields));
    assert (head + rest)[..|head|] == head;
    SplitPrefix(head + rest, |head|);
  }

  /**
   Round trip. Every field of a rendered reply, quoted or bare, with any rest behind it, is what
   `getParameter` reads at that position, and it answers `eOk`. The one exception is a first field
   that begins with a space and follows the colon directly: it loses that space.
   */
  lemma FieldsOfReply(name: string, space: bool, fields: seq<string>, quoted: seq<bool>, tail: string, n: nat)
    requires |fields| == |quoted| && n < |fields|
    requires ':' !in name && (forall f :: f in fields ==> Plain(f))
    ensures var text := Region(Some(Reply(name, space, fields, quoted, tail)), Some(':'));
            && text == Some(Body(space, ShowAll(fields, quoted), tail))
            && |Fields(text.value)| > n + 1
            && Fields(text.value)[n] == AsRead(space, fields)[n]
  {
    StrChrAfter(name, ':', Body(space, ShowAll(fields, quoted), tail));
    CleanReply(space, fields, quoted, tail);
    DropReplySpace(space, fields, Clean(tail));
    AsReadHasNoComma(space, fields);
    JoinedFields(AsRead(space, fields), Clean(tail), n);
  }

  /**
   A signal report as `UpdateCSQ` and its like read it: the value after the colon and its one space, up to
   the comma, whatever else the reply holds.
   */
  lemma FirstValue(echo: string, value: string, rest: string)
    requires ':' !in echo && ',' !in value && '\r' !in value && '\n' !in value && '"' !in value && ':' !in value
    ensures var text := Region(Some(echo + ": " + value + "," + rest), Some(':'));
            text.Some? && |Fields(text.value)| > 1 && Fields(text.value)[0] == value
  {
    var reply := Reply(echo, true, [value], [false], rest);
    assert ShowAll([value], [false]) == value;
    assert reply == echo + ": " + value + "," + rest;
    FieldsOfReply(echo, true, [value], [false], rest, 0);
  }

  /** The same through the method: the output buffer starts with the field, as far as the buffers reach. */
  method ReadBack(name: string, space: bool, fields: seq<string>, quoted: seq<bool>, tail: string,
                  n: nat, output: array<char>)
    returns (result: Access<RetComm>)
    requires |fields| == |quoted| && n < |fields|
    requires ':' !in name && (forall f :: f in fields ==> Plain(f))
    modifies output
    ensures var f := AsRead(space, fields)[n];
            if |Clean(Body(space, ShowAll(fields, quoted), tail))| < PARAMETER_BUFFER && |f| <= output.Length then
              result == InBounds(EOk) && output[..] == f + old(output[..])[|f|..]
            else result == OutOfBounds
  {
    FieldsOfReply(name, space, fields, quoted, tail, n);
    result := GetParameter(n, Some(':'), Some(Reply(name, space, fields, quoted, tail)), output);
  }
}
