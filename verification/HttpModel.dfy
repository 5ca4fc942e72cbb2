/** HTTP framing on text: what http/http_message.cc makes of the readable contents of a buffer,
    and what that means for a stream that arrives in pieces. */
module HttpModel {
  import opened Options
  import opened Text

  const CRLF := "\r\n"
  const BLANK := "\r\n\r\n"
  const LENGTH := "Content-Length"

  /** What the header line that starts the slice says about the body: it must end with CRLF,
      have a colon, and hold nothing but digits behind it. */
  function ContentLength(slice: string): Option<nat> {
    var end := Find(slice, CRLF);
    if end == |slice| then None
    else
      var colon := Find(slice[..end], ":");
      if colon == end then None
      else
        var digits := Trim(slice[colon + 1..end]);
        if AllDigits(digits) then Some(Value(digits)) else None
  }

  /** CheckCompleted: the length of the first message, 0 when it is still incomplete, -1 when
      it is malformed. */
  function Completed(m: string): (n: int)
    ensures n <= |m| && (n > 0 ==> Find(m, BLANK) + 4 <= n)
  {
    var p := Find(m, BLANK);
    if p == |m| then 0
    else
      var h := Find(m[..p], LENGTH);
      if h == p then p + 4
      else
        match ContentLength(m[h..p])
        case None => -1
        case Some(len) => if |m| - (p + 4) < len then 0 else p + 4 + len
  }

  /** The loop over header lines: it stops at the line before the blank one, whose field is
      therefore not among the results. */
  function Headers(slice: string, end: nat): Option<seq<(string, string)>>
    requires At(slice, end, BLANK)
    decreases |slice|
  {
    var crlf := Find(slice, CRLF);
    assert crlf <= end && crlf + 1 != end by { LineBeforeBlank(slice, end); }
    if crlf == end then Some([])
    else
      var colon := Find(slice[..crlf], ":");
      if colon == crlf then None
      else
        assert At(slice[crlf + 2..], end - (crlf + 2), BLANK) by { AtSuffix(slice, crlf + 2, end, BLANK); }
        match Headers(slice[crlf + 2..], end - (crlf + 2))
        case None => None
        case Some(rest) => Some([(Trim(slice[..colon]), Trim(slice[colon + 1..crlf]))] + rest)
  }

  lemma LineBeforeBlank(slice: string, end: nat)
    requires At(slice, end, BLANK)
    ensures Find(slice, CRLF) <= end && Find(slice, CRLF) + 1 != end
  {
    assert slice[end..end + 2] == BLANK[..2] == CRLF;
    assert At(slice, end, CRLF);
    var crlf := Find(slice, CRLF);
    assert slice[crlf..crlf + 2][1] == '\n';
    assert slice[end..end + 4][0] == '\r';
  }

  lemma AtBound(s: string, i: int, pattern: string)
    requires At(s, i, pattern)
    ensures 0 <= i && i + |pattern| <= |s|
  {
  }

  /** The fields that loop has stored when it ends, also at a line without a colon. */
  function Stored(slice: string, end: nat): seq<(string, string)>
    requires At(slice, end, BLANK)
    decreases |slice|
  {
    var crlf := Find(slice, CRLF);
    assert crlf <= end && crlf + 1 != end by { LineBeforeBlank(slice, end); }
    if crlf == end then []
    else
      var colon := Find(slice[..crlf], ":");
      if colon == crlf then []
      else
        assert At(slice[crlf + 2..], end - (crlf + 2), BLANK) by { AtSuffix(slice, crlf + 2, end, BLANK); }
        [(Trim(slice[..colon]), Trim(slice[colon + 1..crlf]))] + Stored(slice[crlf + 2..], end - (crlf + 2))
  }

  lemma {:induction false} StoredIsHeaders(slice: string, end: nat)
    requires At(slice, end, BLANK) && Headers(slice, end).Some?
    ensures Stored(slice, end) == Headers(slice, end).value
    decreases |slice|
  {
    hide At, Find, Trim;
    AtBound(slice, end, BLANK);
    LineBeforeBlank(slice, end);
    var crlf := Find(slice, CRLF);
    if crlf != end {
      AtSuffix(slice, crlf + 2, end, BLANK);
      StoredIsHeaders(slice[crlf + 2..], end - (crlf + 2));
    }
  }

  /** One turn of that loop. */
  lemma HeadersTurn(slice: string, end: nat)
    requires At(slice, end, BLANK)
    ensures var crlf := Find(slice, CRLF);
            && crlf <= end && crlf + 1 != end && end + 4 <= |slice|
            && (crlf == end ==> Headers(slice, end) == Some([]) && Stored(slice, end) == [])
            && (crlf != end ==>
                  var colon := Find(slice[..crlf], ":");
                  && (colon == crlf ==> Headers(slice, end) == None && Stored(slice, end) == [])
                  && (colon != crlf ==>
                        && At(slice[crlf + 2..], end - (crlf + 2), BLANK)
                        && (Headers(slice, end).Some? <==> Headers(slice[crlf + 2..], end - (crlf + 2)).Some?)
                        && Stored(slice, end) == [(Trim(slice[..colon]), Trim(slice[colon + 1..crlf]))]
                           + Stored(slice[crlf + 2..], end - (crlf + 2))))
  {
    hide At, Find, Trim;
    LineBeforeBlank(slice, end);
    AtBound(slice, end, BLANK);
    AtSuffix(slice, Find(slice, CRLF), end, BLANK);
    if Find(slice, CRLF) != end {
      AtSuffix(slice, Find(slice, CRLF) + 2, end, BLANK);
    }
  }

  datatype Outcome =
    | Incomplete
    | Malformed
    | Throws
    | Message(length: nat, firstLine: string, fields: seq<(string, string)>, body: string)

  /** Decode on the contents of the buffer.  Throws is the string constructor called with a
      negative length. */
  function Decoded(m: string): (r: Outcome)
    ensures r.Message? ==> r.length == Completed(m) > 0
    ensures r.Incomplete? <==> Completed(m) == 0
  {
    var n := Completed(m);
    if n == 0 then Incomplete
    else if n < 0 then Malformed
    else
      var f := Find(m, CRLF);
      assert f + 2 <= |m| by { LineBeforeBlank(m, Find(m, BLANK)); }
      var slice := m[f + 2..];
      var h := Find(slice, BLANK);
      if h == |slice| then Malformed
      else
        match Headers(slice, h)
        case None => Malformed
        case Some(fields) =>
          var bodyLength := n - (f + 2 + h + 4);
          if bodyLength < 0 then Throws
          else Message(n, m[..f], fields, slice[h + 4..h + 4 + bodyLength])
  }

  /** What a framed message that is refused leaves behind: its first line and the fields in
      front of the line that was refused. */
  function Leftover(m: string): (string, seq<(string, string)>)
    requires Completed(m) > 0
  {
    var f := Find(m, CRLF);
    assert f + 2 <= |m| by { LineBeforeBlank(m, Find(m, BLANK)); }
    var slice := m[f + 2..];
    var h := Find(slice, BLANK);
    (m[..f], if h == |slice| then [] else Stored(slice, h))
  }

  // -------------------------------------------------------------------- stability

  /** A decided length does not change when more bytes arrive. */
  lemma CompletedStable(m: string, more: string)
    requires Completed(m) != 0
    ensures Completed(m + more) == Completed(m)
  {
    var p := Find(m, BLANK);
    FindExtend(m, more, BLANK);
    assert (m + more)[..p] == m[..p];
    var h := Find(m[..p], LENGTH);
    assert (m + more)[h..p] == m[h..p];
  }

  lemma DecidedHasBlank(m: string)
    requires Completed(m) != 0
    ensures Find(m, BLANK) < |m|
  {
  }

  /** Nor does a decided length depend on what lies behind the message. */
  lemma CompletedPrefix(m: string, k: nat)
    requires 0 < Completed(m) <= k <= |m|
    ensures Completed(m[..k]) == Completed(m)
  {
    var p := Find(m, BLANK);
    assert m == m[..k] + m[k..];
    forall j | 0 <= j <= p
      ensures At(m[..k], j, BLANK) <==> At(m, j, BLANK)
    {
      AtPrefix(m[..k], m[k..], j, BLANK);
    }
    FindIs(m[..k], BLANK, p);
    assert m[..k][..p] == m[..p];
    var h := Find(m[..p], LENGTH);
    assert m[..k][h..p] == m[h..p];
  }

  /** The text up to an index does not depend on what follows. */
  lemma Early(s: string, more: string, i: nat, j: nat)
    requires i <= j <= |s|
    ensures (s + more)[i..j] == s[i..j] && (s + more)[..j] == s[..j] && (s + more)[i..] == s[i..] + more
  {
  }

  lemma {:induction false} HeadersStable(slice: string, end: nat, more: string)
    requires At(slice, end, BLANK)
    ensures At(slice + more, end, BLANK) && Headers(slice + more, end) == Headers(slice, end)
    decreases |slice|
  {
    hide At, Find, Trim;
    AtBound(slice, end, BLANK);
    AtPrefix(slice, more, end, BLANK);
    LineBeforeBlank(slice, end);
    var crlf := Find(slice, CRLF);
    FindExtend(slice, more, CRLF);
    if crlf != end {
      Early(slice, more, 0, crlf);
      var colon := Find(slice[..crlf], ":");
      if colon != crlf {
        AtSuffix(slice, crlf + 2, end, BLANK);
        Early(slice, more, crlf + 2, end);
        Early(slice, more, colon + 1, crlf);
        Early(slice, more, 0, colon);
        HeadersStable(slice[crlf + 2..], end - (crlf + 2), more);
      }
    }
  }

  /** No line between the first and the blank one. */
  predicate Headerless(m: string) {
    Find(m, BLANK) < |m| && Find(m, CRLF) == Find(m, BLANK)
  }

  /** Where the header block ends when there is one. */
  lemma HeaderEnd(m: string)
    requires Find(m, BLANK) < |m| && !Headerless(m)
    ensures var f, p := Find(m, CRLF), Find(m, BLANK);
            f + 2 <= p && Find(m[f + 2..], BLANK) == p - (f + 2)
  {
    hide At, Find;
    LineBeforeBlank(m, Find(m, BLANK));
    FindSuffix(m, Find(m, CRLF) + 2, BLANK);
  }

  lemma BlankIsTwice(m: string, i: nat)
    requires i <= |m|
    ensures At(m, i, BLANK) <==> At(m, i, CRLF) && At(m, i + 2, CRLF)
  {
    if i + 4 <= |m| {
      assert m[i..i + 4] == m[i..i + 2] + m[i + 2..i + 4];
      assert BLANK == CRLF + CRLF;
      assert m[i..i + 4] == BLANK ==> m[i..i + 4][..2] == CRLF && m[i..i + 4][2..] == CRLF;
    }
  }

  /** A message without header lines is always refused; with CRLF behind it, by an exception. */
  lemma HeaderlessOutcome(m: string)
    requires Headerless(m)
    ensures Decoded(m).Malformed? || Decoded(m).Throws?
    ensures Decoded(m).Throws? <==> Completed(m) > 0 && At(m, Find(m, BLANK) + 4, CRLF)
  {
    hide At, Find, Completed;
    NoLineNoLength(m);
    if Completed(m) > 0 {
      var p := Find(m, BLANK);
      AtBound(m, p, BLANK);
      BlankIsTwice(m, p);
      BlankIsTwice(m, p + 2);
      var slice := m[p + 2..];
      AtSuffix(m, p + 2, p + 2, CRLF);
      AtSuffix(m, p + 2, p + 2, BLANK);
      FindIs(slice, CRLF, 0);
      var h := Find(slice, BLANK);
      assert Find("", ":") == 0;
      assert slice[..0] == "";
    }
  }

  lemma NoLineNoLength(m: string)
    requires Headerless(m)
    ensures Completed(m) < 0 || Completed(m) == Find(m, BLANK) + 4
  {
    hide At, Find;
    var p := Find(m, BLANK);
    var h := Find(m[..p], LENGTH);
    var tail := m[h..p];
    var e := Find(tail, CRLF);
    if e < |tail| {
      AtBound(tail, e, CRLF);
      AtSuffix(m[..p], h, h + e, CRLF);
      assert m[..p][h..] == tail && m == m[..p] + m[p..];
      AtPrefix(m[..p], m[p..], h + e, CRLF);
    }
  }

  /** What has been decided about a message stays decided, except that a message without
      header lines may still turn from malformed into an exception. */
  lemma DecodedStable(m: string, more: string)
    requires !Decoded(m).Incomplete?
    ensures Decoded(m + more) == Decoded(m) || (Decoded(m).Malformed? && Decoded(m + more).Throws?)
  {
    hide At, Find, Completed, Headers;
    assert Find(m, BLANK) < |m| by { DecidedHasBlank(m); }
    CompletedStable(m, more);
    var p := Find(m, BLANK);
    FindExtend(m, more, BLANK);
    LineBeforeBlank(m, p);
    FindExtend(m, more, CRLF);
    if Headerless(m) {
      HeaderlessOutcome(m);
      HeaderlessOutcome(m + more);
      if At(m, p + 4, CRLF) {
        AtBound(m, p + 4, CRLF);
        AtPrefix(m, more, p + 4, CRLF);
      }
    } else if Completed(m) > 0 {
      HeaderEnd(m);
      HeaderEnd(m + more);
      var f := Find(m, CRLF);
      Early(m, more, f + 2, p);
      Early(m, more, 0, f);
      HeadersStable(m[f + 2..], p - (f + 2), more);
      var n := Completed(m);
      Early(m[f + 2..], more, p - f + 2, n - (f + 2));
    }
  }

  // --------------------------------------------------------------------- streams

  datatype Status = Waiting | Failed | Crashed

  /** The messages read from a connection and how it stands then. */
  datatype Trace = Trace(messages: seq<Outcome>, status: Status)

  function After(first: Outcome, rest: Trace): Trace {
    Trace([first] + rest.messages, rest.status)
  }

  /** Reading from a stream that is there as a whole. */
  function Whole(data: string): Trace {
    match Decoded(data)
    case Incomplete => Trace([], Waiting)
    case Malformed => Trace([], Failed)
    case Throws => Trace([], Crashed)
    case Message(n, _, _, _) => After(Decoded(data), Whole(data[n..]))
  }

  /** HttpStream::AsyncRead called again and again, on a stream that arrives in pieces: decode
      what is buffered, read one more piece only when that is incomplete. */
  function Session(buffered: string, pieces: seq<string>): Trace
    decreases |pieces|, |buffered|
  {
    match Decoded(buffered)
    case Incomplete => if pieces == [] then Trace([], Waiting) else Session(buffered + pieces[0], pieces[1..])
    case Malformed => Trace([], Failed)
    case Throws => Trace([], Crashed)
    case Message(n, _, _, _) => After(Decoded(buffered), Session(buffered[n..], pieces))
  }

  function Concat(pieces: seq<string>): string {
    if pieces == [] then "" else pieces[0] + Concat(pieces[1..])
  }

  lemma SessionStep(buffered: string, pieces: seq<string>)
    ensures Decoded(buffered).Incomplete? ==>
              Session(buffered, pieces) == if pieces == [] then Trace([], Waiting) else Session(buffered + pieces[0], pieces[1..])
    ensures Decoded(buffered).Malformed? ==> Session(buffered, pieces) == Trace([], Failed)
    ensures Decoded(buffered).Throws? ==> Session(buffered, pieces) == Trace([], Crashed)
    ensures Decoded(buffered).Message? ==>
              Session(buffered, pieces) == After(Decoded(buffered), Session(buffered[Decoded(buffered).length..], pieces))
  {
    hide Decoded;
  }

  lemma WholeStep(data: string)
    ensures Decoded(data).Incomplete? ==> Whole(data) == Trace([], Waiting)
    ensures Decoded(data).Malformed? ==> Whole(data) == Trace([], Failed)
    ensures Decoded(data).Throws? ==> Whole(data) == Trace([], Crashed)
    ensures Decoded(data).Message? ==> Whole(data) == After(Decoded(data), Whole(data[Decoded(data).length..]))
  {
    hide Decoded;
  }

  /** The messages, the bytes they take and the outcome are the same for every way of cutting
      the stream into reads, unless the stream as a whole ends in the exception. */
  lemma {:induction false} SplitInvariance(buffered: string, pieces: seq<string>)
    requires !Whole(buffered + Concat(pieces)).status.Crashed?
    ensures Session(buffered, pieces) == Whole(buffered + Concat(pieces))
    decreases |pieces|, |buffered|
  {
    hide Decoded, Session, Whole;
    var rest := Concat(pieces);
    SessionStep(buffered, pieces);
    WholeStep(buffered + rest);
    if Decoded(buffered).Incomplete? {
      if pieces == [] {
        assert buffered + rest == buffered;
      } else {
        assert buffered + rest == buffered + pieces[0] + Concat(pieces[1..]);
        SplitInvariance(buffered + pieces[0], pieces[1..]);
      }
    } else {
      DecodedStable(buffered, rest);
      if Decoded(buffered).Message? {
        var n := Decoded(buffered).length;
        assert (buffered + rest)[n..] == buffered[n..] + rest;
        SplitInvariance(buffered[n..], pieces);
      }
    }
  }

  /** A message and the bytes behind it up to k decode to that message. */
  lemma DecodedPrefix(data: string, k: nat)
    requires Decoded(data).Message? && Decoded(data).length <= k <= |data|
    ensures Decoded(data[..k]) == Decoded(data)
  {
    hide Decoded, Completed;
    CompletedPrefix(data, k);
    assert data == data[..k] + data[k..];
    DecodedStable(data[..k], data[k..]);
  }

  /** The condition is exact: where the whole stream ends in the exception, cutting it behind
      the blank line of the offending message makes the same stream merely malformed. */
  lemma {:induction false} CrashDependsOnTheSplit(data: string) returns (cut: nat)
    requires Whole(data).status.Crashed?
    ensures cut <= |data| && Session(data[..cut], [data[cut..]]).status.Failed?
  {
    hide Decoded, Session, Whole;
    WholeStep(data);
    if Decoded(data).Message? {
      var n := Decoded(data).length;
      var k := CrashDependsOnTheSplit(data[n..]);
      cut := n + k;
      DecodedPrefix(data, cut);
      SessionStep(data[..cut], [data[cut..]]);
      assert data[..cut][n..] == data[n..][..k] && data[cut..] == data[n..][k..];
    } else {
      cut := CrashCut(data);
      SessionStep(data[..cut], [data[cut..]]);
    }
  }

  lemma CrashCut(data: string) returns (cut: nat)
    requires Decoded(data).Throws?
    ensures cut <= |data| && Decoded(data[..cut]).Malformed?
  {
    hide At, Find, Headers, Completed;
    var p := Find(data, BLANK);
    DecidedHasBlank(data);
    ThrowsIsHeaderless(data);
    HeaderlessOutcome(data);
    NoLineNoLength(data);
    cut := p + 4;
    var m := data[..cut];
    CompletedPrefix(data, cut);
    assert data == m + data[cut..];
    DecidedHasBlank(m);
    LineBeforeBlank(m, Find(m, BLANK));
    FindExtend(m, data[cut..], BLANK);
    FindExtend(m, data[cut..], CRLF);
    HeaderlessOutcome(m);
    if At(m, p + 4, CRLF) {
      AtBound(m, p + 4, CRLF);
    }
  }

  lemma ThrowsIsHeaderless(m: string)
    requires Decoded(m).Throws?
    ensures Headerless(m)
  {
    hide At, Find, Headers;
    if !Headerless(m) {
      HeaderEnd(m);
    }
  }

  /** In particular every stream whose messages all have a header line is safe: a message with
      header lines never ends in the exception. */
  lemma CrashedIffHeaderless(m: string)
    ensures Decoded(m).Throws? <==> Completed(m) > 0 && Headerless(m) && At(m, Find(m, BLANK) + 4, CRLF)
  {
    hide At, Find, Headers, Completed, Decoded;
    if Decoded(m).Throws? {
      ThrowsIsHeaderless(m);
    }
    if Headerless(m) {
      HeaderlessOutcome(m);
    }
  }

  /** What a sender can check: no message of the stream, one after the other, is a message
      without header lines that is followed by CRLF. */
  ghost predicate Clear(data: string) {
    Completed(data) > 0 ==>
      && !(Headerless(data) && At(data, Find(data, BLANK) + 4, CRLF))
      && (Decoded(data).Message? ==> Clear(data[Decoded(data).length..]))
  }

  lemma {:induction false} ClearIffNotCrashed(data: string)
    ensures Clear(data) <==> !Whole(data).status.Crashed?
  {
    hide At, Find, Headers, Completed, Decoded, Whole, Headerless;
    CrashedIffHeaderless(data);
    WholeStep(data);
    if Decoded(data).Message? {
      ClearIffNotCrashed(data[Decoded(data).length..]);
    }
  }

  /** Every message of the stream has a header line. */
  ghost predicate Headered(data: string) {
    Completed(data) > 0 ==>
      !Headerless(data) && (Decoded(data).Message? ==> Headered(data[Decoded(data).length..]))
  }

  lemma {:induction false} HeaderedIsClear(data: string)
    requires Headered(data)
    ensures Clear(data)
  {
    hide At, Find, Headers, Completed, Decoded, Headerless;
    if Completed(data) > 0 && Decoded(data).Message? {
      HeaderedIsClear(data[Decoded(data).length..]);
    }
  }

  lemma {:induction false} EmptyIsIncomplete()
    ensures Decoded("") == Incomplete
  {
    assert Find("", BLANK) == 0;
  }

  /** The outcome is the same for every way of cutting the stream into reads if and only if the
      stream is clear. */
  lemma SplitsAgreeIffClear(data: string)
    ensures Clear(data) <==> forall pieces :: Concat(pieces) == data ==> Session("", pieces) == Whole(data)
  {
    hide Decoded, Session, Whole, Clear, Concat;
    ClearIffNotCrashed(data);
    if Clear(data) {
      forall pieces | Concat(pieces) == data
        ensures Session("", pieces) == Whole(data)
      {
        assert "" + Concat(pieces) == data;
        SplitInvariance("", pieces);
      }
    } else {
      var cut := CrashDependsOnTheSplit(data);
      var pieces := [data[..cut], data[cut..]];
      TwoPieces(data, cut);
      EmptyIsIncomplete();
      SessionStep("", pieces);
      assert "" + pieces[0] == data[..cut] && pieces[1..] == [data[cut..]];
    }
  }

  lemma TwoPieces(data: string, cut: nat)
    requires cut <= |data|
    ensures Concat([data[..cut], data[cut..]]) == data
  {
    var pieces := [data[..cut], data[cut..]];
    assert pieces[1..] == [data[cut..]] && [data[cut..]][1..] == [];
    assert Concat([data[cut..]]) == data[cut..] + "";
  }

  /** So all streams whose messages have header lines are read alike however they arrive. */
  lemma HeaderedStreamsSplitAnywhere(pieces: seq<string>)
    requires Headered(Concat(pieces))
    ensures Session("", pieces) == Whole(Concat(pieces))
  {
    hide Session, Whole, Headered, Clear, Concat;
    HeaderedIsClear(Concat(pieces));
    SplitsAgreeIffClear(Concat(pieces));
  }

  // ------------------------------------------------------------------ round trip

  /** The fields are in the order of the map, ascending by key. */
  datatype Content = Content(firstLine: string, fields: seq<(string, string)>, body: string)

  function Line(field: (string, string)): string {
    field.0 + ": " + field.1
  }

  function Lines(fields: seq<(string, string)>): (lines: seq<string>)
    ensures |lines| == |fields| && forall i :: 0 <= i < |lines| ==> lines[i] == Line(fields[i])
  {
    if fields == [] then [] else [Line(fields[0])] + Lines(fields[1..])
  }

  /** Lines with CRLF behind each, and the blank line. */
  function Block(lines: seq<string>): string {
    if lines == [] then CRLF else lines[0] + CRLF + Block(lines[1..])
  }

  function Encoded(c: Content): string {
    c.firstLine + CRLF + Block(Lines(c.fields)) + c.body
  }

  predicate Clean(s: string) {
    forall i :: 0 <= i < |s| ==> s[i] != '\r' && s[i] != '\n'
  }

  predicate CleanField(field: (string, string)) {
    Clean(field.0) && Clean(field.1) && Trimmed(field.0) && Trimmed(field.1) && ':' !in field.0
  }

  ghost predicate Mentions(s: string, pattern: string) {
    exists j :: At(s, j, pattern)
  }

  /** Either a Content-Length field that is right, is not the last field, and is not
      mentioned earlier; or no mention of one, and no body. */
  ghost predicate Framed(c: Content) {
    && c.fields != [] && !Mentions(c.firstLine, LENGTH)
    && ((c.body == "" && forall i :: 0 <= i < |c.fields| ==> !Mentions(Line(c.fields[i]), LENGTH))
        || exists k :: 0 <= k < |c.fields| - 1 && LengthAt(c, k))
  }

  ghost predicate LengthAt(c: Content, k: nat)
    requires k < |c.fields|
  {
    && c.fields[k] == (LENGTH, Decimal(|c.body|))
    && forall i :: 0 <= i < k ==> !Mentions(Line(c.fields[i]), LENGTH)
  }

  ghost predicate Encodable(c: Content) {
    Clean(c.firstLine) && (forall i :: 0 <= i < |c.fields| ==> CleanField(c.fields[i])) && Framed(c)
  }

  lemma NotInLine(line: string, rest: string, j: nat, pattern: string)
    requires Clean(line) && pattern != "" && (pattern[0] == '\r' || Clean(pattern))
    requires j < |line| + 2
    ensures At(line + CRLF + rest, j, pattern) ==>
              (j == |line| && pattern[0] == '\r') || (Clean(pattern) && At(line, j, pattern))
  {
    var s := line + CRLF + rest;
    if At(s, j, pattern) {
      AtChar(s, j, pattern, 0);
      if Clean(pattern) {
        if j + |pattern| > |line| {
          AtChar(s, j, pattern, if j <= |line| then |line| - j else 0);
        } else {
          assert s[j..j + |pattern|] == line[j..j + |pattern|];
        }
      }
    }
  }

  lemma AtChar(s: string, j: nat, pattern: string, k: nat)
    requires At(s, j, pattern) && k < |pattern|
    ensures j + k < |s| && s[j + k] == pattern[k]
  {
    assert s[j..j + |pattern|][k] == s[j + k];
  }

  lemma CrlfAfterLine(line: string, rest: string)
    requires Clean(line)
    ensures Find(line + CRLF + rest, CRLF) == |line|
  {
    var s := line + CRLF + rest;
    assert s[|line|..|line| + 2] == CRLF;
    forall j | 0 <= j < |line|
      ensures !At(s, j, CRLF)
    {
      NotInLine(line, rest, j, CRLF);
    }
    FindIs(s, CRLF, |line|);
  }

  /** A pattern that a line does not mention is not found before the next line begins. */
  lemma SkipLine(line: string, rest: string, pattern: string)
    requires Clean(line) && Clean(pattern) && pattern != "" && !Mentions(line, pattern)
    ensures Find(line + CRLF + rest, pattern) == |line| + 2 + Find(rest, pattern)
  {
    hide At, Find, Clean;
    var s := line + CRLF + rest;
    forall j | 0 <= j < |line| + 2
      ensures !At(s, j, pattern)
    {
      NotInLine(line, rest, j, pattern);
      assert At(line, j, pattern) ==> Mentions(line, pattern);
      CleanStart(pattern);
    }
    assert s[|line| + 2..] == rest;
    FindSuffix(s, |line| + 2, pattern);
  }

  lemma CleanStart(pattern: string)
    requires Clean(pattern) && pattern != ""
    ensures pattern[0] != '\r'
  {
  }

  predicate CleanLines(lines: seq<string>) {
    forall i :: 0 <= i < |lines| ==> lines[i] != "" && Clean(lines[i])
  }

  lemma BlankAt(line: string, rest: string)
    requires Clean(line) && rest != "" && rest[0] != '\r'
    ensures Find(line + CRLF + rest, BLANK) == |line| + 2 + Find(rest, BLANK)
  {
    var s := line + CRLF + rest;
    forall j | 0 <= j < |line| + 2
      ensures !At(s, j, BLANK)
    {
      NotInLine(line, rest, j, BLANK);
      if j == |line| && At(s, j, BLANK) {
        AtChar(s, j, BLANK, 2);
      }
    }
    assert s[|line| + 2..] == rest;
    hide At, Find;
    FindSuffix(s, |line| + 2, BLANK);
  }

  lemma BlankAtEnd(line: string, tail: string)
    requires Clean(line)
    ensures Find(line + CRLF + (CRLF + tail), BLANK) == |line|
  {
    var s := line + CRLF + (CRLF + tail);
    assert s[|line|..|line| + 4] == BLANK;
    forall j | 0 <= j < |line|
      ensures !At(s, j, BLANK)
    {
      NotInLine(line, CRLF + tail, j, BLANK);
    }
    FindIs(s, BLANK, |line|);
  }

  /** The first blank line is the one that ends the block. */
  lemma {:induction false} FindBlank(line: string, lines: seq<string>, tail: string)
    requires Clean(line) && CleanLines(lines)
    ensures Find(line + CRLF + (Block(lines) + tail), BLANK) == |line| + |Block(lines)| - 2
    decreases |lines|
  {
    hide At, Find;
    if lines == [] {
      BlankAtEnd(line, tail);
    } else {
      var rest := Block(lines) + tail;
      var next := Block(lines[1..]) + tail;
      assert rest == lines[0] + CRLF + next;
      assert rest[0] == lines[0][0];
      FindBlank(lines[0], lines[1..], tail);
      BlankAt(line, rest);
    }
  }

  lemma ColonOf(field: (string, string))
    requires CleanField(field)
    ensures var line := Line(field);
            Find(line, ":") == |field.0| && |field.0| < |line| && line[..|field.0|] == field.0
            && line[|field.0| + 1..] == " " + field.1 && line != "" && Clean(line)
  {
    var line := Line(field);
    assert line[|field.0|..|field.0| + 1] == ":";
    forall j | 0 <= j < |field.0|
      ensures !At(line, j, ":")
    {
      assert line[j] == field.0[j];
      assert line[j..j + 1] == [line[j]];
    }
    FindIs(line, ":", |field.0|);
    assert forall i :: 0 <= i < |line| ==>
        line[i] == if i < |field.0| then field.0[i] else if i < |field.0| + 2 then ": "[i - |field.0|] else field.1[i - |field.0| - 2];
  }

  lemma HeadersStep(field: (string, string), next: string, end: nat)
    requires CleanField(field) && |Line(field)| + 2 <= end && At(next, end - (|Line(field)| + 2), BLANK)
    requires Headers(next, end - (|Line(field)| + 2)).Some?
    ensures var slice := Line(field) + CRLF + next;
            && At(slice, end, BLANK)
            && Headers(slice, end) == Some([field] + Headers(next, end - (|Line(field)| + 2)).value)
  {
    hide At, Find, Trim, Clean, CleanField;
    var line := Line(field);
    var slice := line + CRLF + next;
    ColonOf(field);
    CrlfAfterLine(line, next);
    assert slice[|line| + 2..] == next;
    AtSuffix(slice, |line| + 2, end, BLANK);
    var colon := |field.0|;
    assert slice[..|line|] == line;
    assert slice[..colon] == line[..colon] && slice[colon + 1..|line|] == line[colon + 1..];
    FieldTrimmed(field);
  }

  lemma OneField(field: (string, string), tail: string)
    requires CleanField(field)
    ensures var slice, end := Line(field) + CRLF + (CRLF + tail), |Line(field)|;
            At(slice, end, BLANK) && Headers(slice, end) == Some([])
  {
    var slice, end := Line(field) + CRLF + (CRLF + tail), |Line(field)|;
    assert slice[end..end + 4] == BLANK;
    ColonOf(field);
    CrlfAfterLine(Line(field), CRLF + tail);
    hide At, Find;
  }

  /** The header loop recovers every field of a block but the last. */
  lemma {:induction false} HeadersOfBlock(fields: seq<(string, string)>, tail: string)
    requires fields != [] && forall i :: 0 <= i < |fields| ==> CleanField(fields[i])
    ensures var slice := Block(Lines(fields)) + tail;
            var end := |Block(Lines(fields))| - 4;
            end >= 0 && At(slice, end, BLANK) && Headers(slice, end) == Some(fields[..|fields| - 1])
    decreases |fields|
  {
    hide At, Find, Trim, CleanField, Headers, Line, Lines, Block;
    var line := Line(fields[0]);
    var next := Block(Lines(fields[1..])) + tail;
    BlockStep(fields);
    assert Block(Lines(fields)) + tail == line + CRLF + next;
    if |fields| == 1 {
      OneField(fields[0], tail);
      assert fields[1..] == [] && fields[..0] == [];
    } else {
      HeadersOfBlock(fields[1..], tail);
      HeadersStep(fields[0], next, |Block(Lines(fields))| - 4);
      assert fields[..|fields| - 1] == [fields[0]] + fields[1..][..|fields[1..]| - 1];
    }
  }

  lemma BlockStep(fields: seq<(string, string)>)
    requires fields != []
    ensures Block(Lines(fields)) == Line(fields[0]) + CRLF + Block(Lines(fields[1..]))
    ensures Block(Lines([])) == CRLF
  {
    hide Line;
    assert Lines(fields)[1..] == Lines(fields[1..]);
  }

  lemma FieldTrimmed(field: (string, string))
    requires CleanField(field)
    ensures Trim(field.0) == field.0 && Trim(" " + field.1) == field.1
  {
    TrimKeeps(field.0);
    TrimKeeps(field.1);
  }

  // ------------------------------------------- the length that Encode announces

  lemma LengthIsClean()
    ensures Clean(LENGTH) && LENGTH != "" && ':' !in LENGTH && Trimmed(LENGTH) && |LENGTH| == 14
  {
  }

  /** The head of an encoded message: its lines without the blank one. */
  function Joined(lines: seq<string>): string
    requires lines != []
  {
    if |lines| == 1 then lines[0] else lines[0] + CRLF + Joined(lines[1..])
  }

  lemma {:induction false} BlockIsJoined(line: string, lines: seq<string>)
    ensures line + CRLF + Block(lines) == Joined([line] + lines) + BLANK
    decreases |lines|
  {
    var all := [line] + lines;
    assert all[1..] == lines;
    if lines != [] {
      BlockIsJoined(lines[0], lines[1..]);
      assert lines == [lines[0]] + lines[1..];
    }
  }

  lemma MentionFound(s: string, pattern: string)
    requires pattern != ""
    ensures Mentions(s, pattern) <==> Find(s, pattern) < |s|
  {
  }

  /** Lines before the k-th that do not mention the pattern are skipped. */
  lemma {:induction false} SkipLines(lines: seq<string>, k: nat, pattern: string)
    requires k < |lines| && Clean(pattern) && pattern != ""
    requires forall i :: 0 <= i < k ==> Clean(lines[i]) && !Mentions(lines[i], pattern)
    ensures var before := |Joined(lines)| - |Joined(lines[k..])|;
            && before >= 0 && Joined(lines)[before..] == Joined(lines[k..])
            && Find(Joined(lines), pattern) == before + Find(Joined(lines[k..]), pattern)
    decreases k
  {
    hide At, Find, Clean, Mentions;
    if k == 0 {
      assert lines[0..] == lines;
    } else {
      SkipLine(lines[0], Joined(lines[1..]), pattern);
      SkipLines(lines[1..], k - 1, pattern);
      assert lines[1..][k - 1..] == lines[k..];
      var before := |Joined(lines)| - |Joined(lines[k..])|;
      assert Joined(lines)[before..] == Joined(lines[1..])[before - (|lines[0]| + 2)..];
    }
  }

  lemma LengthLine(n: nat, rest: string)
    ensures ContentLength(Line((LENGTH, Decimal(n))) + CRLF + rest) == Some(n)
  {
    hide At, Find, Trim, Value, Clean;
    var field := (LENGTH, Decimal(n));
    DecimalIsClean(n);
    ColonOf(field);
    var line := Line(field);
    CrlfAfterLine(line, rest);
    var slice := line + CRLF + rest;
    assert slice[..|line|] == line;
    assert slice[|LENGTH| + 1..|line|] == line[|LENGTH| + 1..];
    FieldTrimmed(field);
    DecimalValue(n);
  }

  lemma DecimalIsClean(n: nat)
    ensures CleanField((LENGTH, Decimal(n)))
  {
    LengthIsClean();
    var d := Decimal(n);
    assert forall i :: 0 <= i < |d| ==> IsDigit(d[i]);
  }

  lemma LinesAreClean(c: Content)
    requires Encodable(c)
    ensures CleanLines(Lines(c.fields))
  {
    hide CleanField, Framed, Clean, Line, Trim;
    forall i | 0 <= i < |c.fields|
      ensures Lines(c.fields)[i] != "" && Clean(Lines(c.fields)[i])
    {
      ColonOf(c.fields[i]);
    }
  }

  /** The parts of an encoded message followed by anything. */
  lemma EncodedShape(c: Content, tail: string)
    requires Encodable(c)
    ensures var m, block := Encoded(c) + tail, Block(Lines(c.fields));
            var p := |c.firstLine| + |block| - 2;
            && m == c.firstLine + CRLF + (block + (c.body + tail)) && |block| >= 4
            && |Encoded(c)| == p + 4 + |c.body|
            && Find(m, BLANK) == p && Find(m, CRLF) == |c.firstLine|
            && m[..p] == Joined([c.firstLine] + Lines(c.fields))
  {
    hide At, Find, Clean, CleanField, Framed, Line;
    var m, block := Encoded(c) + tail, Block(Lines(c.fields));
    LinesAreClean(c);
    FramedHasFields(c);
    assert m == c.firstLine + CRLF + (block + (c.body + tail));
    FindBlank(c.firstLine, Lines(c.fields), c.body + tail);
    CrlfAfterLine(c.firstLine, block + (c.body + tail));
    BlockIsJoined(c.firstLine, Lines(c.fields));
    assert m == Joined([c.firstLine] + Lines(c.fields)) + BLANK + (c.body + tail);
  }

  lemma FramedHasFields(c: Content)
    requires Framed(c)
    ensures c.fields != [] && |Block(Lines(c.fields))| >= 4
  {
    hide Line;
  }

  lemma NoMentionNoLength(c: Content)
    requires Encodable(c) && forall i :: 0 <= i < |c.fields| ==> !Mentions(Line(c.fields[i]), LENGTH)
    ensures var head := Joined([c.firstLine] + Lines(c.fields)); Find(head, LENGTH) == |head|
  {
    LengthIsClean();
    hide At, Find, Clean, CleanField, Line, Mentions;
    LinesAreClean(c);
    var all := [c.firstLine] + Lines(c.fields);
    var last := |all| - 1;
    SkipLines(all, last, LENGTH);
    assert Joined(all[last..]) == all[last] == Line(c.fields[last - 1]);
    MentionFound(all[last], LENGTH);
  }

  lemma JoinedStep(lines: seq<string>)
    requires |lines| > 1
    ensures Joined(lines) == lines[0] + CRLF + Joined(lines[1..])
  {
  }

  lemma BeforeLength(c: Content, k: nat)
    requires Encodable(c) && k < |c.fields| && LengthAt(c, k)
    ensures var all := [c.firstLine] + Lines(c.fields);
            && all[k + 1] == Line((LENGTH, Decimal(|c.body|)))
            && (forall i :: 0 <= i <= k ==> Clean(all[i]))
            && (forall i :: 0 <= i <= k ==> !Mentions(all[i], LENGTH))
  {
    hide At, Find, Clean, CleanField, Line, Mentions;
    LinesAreClean(c);
  }

  lemma LengthFound(c: Content, k: nat)
    requires Encodable(c) && k < |c.fields| - 1 && LengthAt(c, k)
    ensures var head := Joined([c.firstLine] + Lines(c.fields));
            var h := Find(head, LENGTH);
            h < |head| && ContentLength(head[h..]) == Some(|c.body|)
  {
    hide At, Find, Clean, Line, Mentions, ContentLength, Joined, Encodable, LengthAt, Lines;
    LengthIsClean();
    BeforeLength(c, k);
    var all := [c.firstLine] + Lines(c.fields);
    SkipLines(all, k + 1, LENGTH);
    JoinedStep(all[k + 1..]);
    var rest := Joined(all[k + 1..][1..]);
    LengthLine(|c.body|, rest);
    StartsWithLength(Decimal(|c.body|), rest);
  }

  lemma StartsWithLength(value: string, rest: string)
    ensures var s := Line((LENGTH, value)) + CRLF + rest; Find(s, LENGTH) == 0 && |s| > 0
  {
    var s := Line((LENGTH, value)) + CRLF + rest;
    assert s[0..0 + |LENGTH|] == LENGTH;
    FindIs(s, LENGTH, 0);
  }

  lemma CompletedCases(m: string)
    requires Find(m, BLANK) < |m|
    ensures var p := Find(m, BLANK);
            var h := Find(m[..p], LENGTH);
            && (h == p ==> Completed(m) == p + 4)
            && (h < p && ContentLength(m[..p][h..]).Some? && |m| - (p + 4) >= ContentLength(m[..p][h..]).value ==>
                  Completed(m) == p + 4 + ContentLength(m[..p][h..]).value)
  {
    hide Find, At, ContentLength;
    var p := Find(m, BLANK);
    var h := Find(m[..p], LENGTH);
    assert m[..p][h..] == m[h..p];
  }

  lemma EncodedIsComplete(c: Content, tail: string)
    requires Encodable(c)
    ensures Completed(Encoded(c) + tail) == |Encoded(c)|
  {
    hide At, Find, Clean, CleanField, Line, Mentions, ContentLength, Joined, Block, Lines, LengthAt, Completed, Encoded;
    EncodedShape(c, tail);
    CompletedCases(Encoded(c) + tail);
    if k :| 0 <= k < |c.fields| - 1 && LengthAt(c, k) {
      LengthFound(c, k);
    } else {
      NoMentionNoLength(c);
    }
  }

  lemma DecodedIs(m: string, f: nat, h: nat, fields: seq<(string, string)>)
    requires Find(m, CRLF) == f && f + 2 <= |m| && Find(m[f + 2..], BLANK) == h < |m| - (f + 2)
    requires Headers(m[f + 2..], h) == Some(fields) && f + 2 + h + 4 <= Completed(m)
    ensures Decoded(m) == Message(Completed(m), m[..f], fields, m[f + 2 + h + 4..Completed(m)])
  {
    hide At, Find, Completed, Headers;
    assert m[f + 2..][h + 4..Completed(m) - (f + 2)] == m[f + 2 + h + 4..Completed(m)];
  }

  /** Decoding what Encode wrote, whatever follows, consumes exactly that and restores the
      first line, the body and every field but the last. */
  lemma RoundTrip(c: Content, tail: string)
    requires Encodable(c)
    ensures Decoded(Encoded(c) + tail) == Message(|Encoded(c)|, c.firstLine, c.fields[..|c.fields| - 1], c.body)
  {
    hide At, Find, Clean, CleanField, Lines, Framed, Completed, Headers, Decoded, Block, Joined, Encoded;
    EncodedShape(c, tail);
    EncodedSlices(c, tail);
    EncodedIsComplete(c, tail);
    FramedHasFields(c);
    HeadersOfBlock(c.fields, c.body + tail);
    HeaderEnd(Encoded(c) + tail);
    DecodedIs(Encoded(c) + tail, |c.firstLine|, |Block(Lines(c.fields))| - 4, c.fields[..|c.fields| - 1]);
  }

  lemma EncodedSlices(c: Content, tail: string)
    ensures var m, block, f := Encoded(c) + tail, Block(Lines(c.fields)), |c.firstLine|;
            && |Encoded(c)| == f + 2 + |block| + |c.body|
            && m[f + 2..] == block + (c.body + tail) && m[..f] == c.firstLine
            && m[f + 2 + |block|..|Encoded(c)|] == c.body
  {
    hide Block, Lines;
  }

  /** The condition on the place of Content-Length is needed: when it is the last field, the
      message is refused. */
  lemma LengthLastIsRefused(c: Content, tail: string)
    requires Clean(c.firstLine) && !Mentions(c.firstLine, LENGTH) && c.fields != []
    requires forall i :: 0 <= i < |c.fields| ==> CleanField(c.fields[i])
    requires LengthAt(c, |c.fields| - 1)
    ensures Decoded(Encoded(c) + tail) == Malformed
  {
    hide At, Find, Clean, CleanField, Line, Mentions, Lines, Block, Joined, ContentLength;
    var k := |c.fields| - 1;
    var all := [c.firstLine] + Lines(c.fields);
    forall i | 0 <= i < |c.fields|
      ensures Lines(c.fields)[i] != "" && Clean(Lines(c.fields)[i])
    {
      ColonOf(c.fields[i]);
    }
    var m, block := Encoded(c) + tail, Block(Lines(c.fields));
    BlockStep(c.fields);
    BlockNotEmpty(Lines(c.fields[1..]));
    assert m == c.firstLine + CRLF + (block + (c.body + tail));
    FindBlank(c.firstLine, Lines(c.fields), c.body + tail);
    BlockIsJoined(c.firstLine, Lines(c.fields));
    var head := Joined(all);
    assert m == head + BLANK + (c.body + tail);
    var p := Find(m, BLANK);
    assert m[..p] == head;
    LengthIsClean();
    SkipLines(all, k + 1, LENGTH);
    var last := all[k + 1..];
    JoinedOne(last);
    assert last[0] == Line(c.fields[k]);
    var h := Find(head, LENGTH);
    LastLineHasNoLength(Decimal(|c.body|));
    assert m[h..p] == head[h..];
  }

  lemma JoinedOne(lines: seq<string>)
    requires |lines| == 1
    ensures Joined(lines) == lines[0]
  {
  }

  lemma BlockNotEmpty(lines: seq<string>)
    ensures |Block(lines)| >= 2
  {
  }

  lemma LastLineHasNoLength(value: string)
    requires CleanField((LENGTH, value))
    ensures var line := Line((LENGTH, value));
            Find(line, LENGTH) == 0 && |line| > 0 && ContentLength(line) == None
  {
    var line := Line((LENGTH, value));
    assert line[0..0 + |LENGTH|] == LENGTH;
    FindIs(line, LENGTH, 0);
    ColonOf((LENGTH, value));
    var e := Find(line, CRLF);
    if e < |line| {
      AtChar(line, e, CRLF, 0);
    }
  }
}
