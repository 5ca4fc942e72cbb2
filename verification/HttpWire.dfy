/** HTTP messages as text, taken apart by concatenation: what framing and decoding make of a message
    whose parts are given, for every message and without the searches by which they work. */
module HttpWire {
  import opened Options
  import opened Text
  import opened HttpModel

  /** The pattern is at j and nowhere before. */
  ghost predicate First(s: string, j: nat, pattern: string) {
    At(s, j, pattern) && forall i :: 0 <= i < j ==> !At(s, i, pattern)
  }

  // ------------------------------------------------------------------------ framing

  /** Without an empty line there is no message yet. */
  lemma NoBlankLine(m: string)
    requires forall j :: !At(m, j, "\r\n\r\n")
    ensures Completed(m) == 0 && Decoded(m) == Incomplete
  {
    hide At;
    var p := Find(m, BLANK);
  }

  lemma HeadOf(head: string, body: string)
    requires First(head + "\r\n\r\n" + body, |head|, "\r\n\r\n")
    ensures var m := head + "\r\n\r\n" + body; Find(m, BLANK) == |head| && m[..|head|] == head && |m| == |head| + 4 + |body|
  {
    hide At, Find;
    FindIs(head + "\r\n\r\n" + body, BLANK, |head|);
  }

  /** A head that does not mention Content-Length makes a message without body. */
  lemma FramedWithoutLength(head: string, body: string)
    requires First(head + "\r\n\r\n" + body, |head|, "\r\n\r\n")
    requires forall j :: !At(head, j, "Content-Length")
    ensures Completed(head + "\r\n\r\n" + body) == |head| + 4
  {
    hide At, Find;
    HeadOf(head, body);
    NotFound(head, "Content-Length");
  }

  lemma NotFound(s: string, pattern: string)
    requires pattern != "" && forall j :: !At(s, j, pattern)
    ensures Find(s, pattern) == |s|
  {
    hide At;
  }

  /** What follows the first mention of Content-Length. */
  lemma LengthSlice(a: string, b: string, body: string)
    requires var head := a + "Content-Length" + b;
             && First(head + "\r\n\r\n" + body, |head|, "\r\n\r\n")
             && First(head, |a|, "Content-Length")
    ensures var head := a + "Content-Length" + b;
            Completed(head + "\r\n\r\n" + body) ==
              match ContentLength("Content-Length" + b)
              case None => -1
              case Some(len) => if |body| < len then 0 else |head| + 4 + len
  {
    hide At, Find, ContentLength;
    var head := a + "Content-Length" + b;
    var m := head + "\r\n\r\n" + body;
    HeadOf(head, body);
    FindIs(head, LENGTH, |a|);
    assert m[|a|..|head|] == head[|a|..] == "Content-Length" + b;
  }

  /** The line of the mention must end: the last line of the head is refused. */
  lemma LengthWithoutEnd(a: string, b: string, body: string)
    requires var head := a + "Content-Length" + b;
             && First(head + "\r\n\r\n" + body, |head|, "\r\n\r\n")
             && First(head, |a|, "Content-Length")
    requires forall j :: !At(b, j, "\r\n")
    ensures Completed(a + "Content-Length" + b + "\r\n\r\n" + body) == -1
  {
    LengthSlice(a, b, body);
    var s := "Content-Length" + b;
    forall j
      ensures !At(s, j, "\r\n")
    {
      AtBehind("Content-Length", b, j, "\r\n");
    }
    hide At, Find;
    NotFound(s, "\r\n");
  }

  /** A pattern that does not begin in a prefix begins behind it. */
  lemma AtBehind(prefix: string, s: string, j: int, pattern: string)
    requires pattern != "" && pattern[0] !in prefix
    ensures At(prefix + s, j, pattern) <==> j >= |prefix| && At(s, j - |prefix|, pattern)
  {
    var all := prefix + s;
    if At(all, j, pattern) {
      assert all[j] == all[j..j + |pattern|][0] == pattern[0];
      if j >= |prefix| {
        assert all[j..j + |pattern|] == s[j - |prefix|..j - |prefix| + |pattern|];
      }
    }
    if j >= |prefix| && At(s, j - |prefix|, pattern) {
      assert all[j..j + |pattern|] == s[j - |prefix|..j - |prefix| + |pattern|];
    }
  }

  lemma FirstBehind(prefix: string, s: string, j: nat, pattern: string)
    requires pattern != "" && pattern[0] !in prefix && First(s, j, pattern)
    ensures First(prefix + s, |prefix| + j, pattern)
  {
    forall i: int
      ensures At(prefix + s, i, pattern) <==> i >= |prefix| && At(s, i - |prefix|, pattern)
    {
      AtBehind(prefix, s, i, pattern);
    }
    hide At;
  }

  /** The line of the mention, up to its end. */
  lemma LengthLineOf(line: string, after: string)
    requires First(line + "\r\n" + after, |line|, "\r\n")
    ensures var s := "Content-Length" + (line + "\r\n" + after);
            Find(s, CRLF) == 14 + |line| && 14 + |line| < |s| && s[..14 + |line|] == "Content-Length" + line
  {
    hide At, Find;
    var b := line + "\r\n" + after;
    var s := "Content-Length" + b;
    assert |"Content-Length"| == 14;
    FirstBehind("Content-Length", b, |line|, "\r\n");
    FindIs(s, CRLF, 14 + |line|);
  }

  lemma NoColon(line: string)
    requires ':' !in line
    ensures Find(line, ":") == |line|
  {
    var i := Find(line, ":");
    if i < |line| {
      AtChar(line, i, ":", 0);
    }
  }

  lemma LengthRefused(line: string, after: string)
    requires First(line + "\r\n" + after, |line|, "\r\n") && ':' !in line
    ensures ContentLength("Content-Length" + (line + "\r\n" + after)) == None
  {
    hide At, Find, Trim, Value, AllDigits, First;
    LengthLineOf(line, after);
    NoColon("Content-Length" + line);
  }

  lemma LengthRead(x: string, v: string, after: string)
    requires First(x + ":" + v + "\r\n" + after, |x| + 1 + |v|, "\r\n") && ':' !in x
    ensures ContentLength("Content-Length" + (x + ":" + v + "\r\n" + after)) ==
              if AllDigits(Trim(v)) then Some(Value(Trim(v))) else None
  {
    hide At, Find, Trim, Value, AllDigits, First;
    var line := x + ":" + v;
    LengthLineOf(line, after);
    ColonIn("Content-Length" + x, v);
    var s := "Content-Length" + (line + "\r\n" + after);
    assert "Content-Length" + line == "Content-Length" + x + ":" + v;
    assert s[14 + |x| + 1..14 + |line|] == v;
  }

  /** A line without colon is refused. */
  lemma LengthWithoutColon(a: string, line: string, after: string, body: string)
    requires var head := a + "Content-Length" + (line + "\r\n" + after);
             && First(head + "\r\n\r\n" + body, |head|, "\r\n\r\n")
             && First(head, |a|, "Content-Length")
    requires First(line + "\r\n" + after, |line|, "\r\n") && ':' !in line
    ensures Completed(a + "Content-Length" + (line + "\r\n" + after) + "\r\n\r\n" + body) == -1
  {
    hide First, ContentLength, Completed;
    LengthSlice(a, line + "\r\n" + after, body);
    LengthRefused(line, after);
  }

  /** Behind the colon there may be spaces and digits only, and the digits say how long the body is. */
  lemma FramedWithLength(a: string, x: string, v: string, after: string, body: string)
    requires var head := a + "Content-Length" + (x + ":" + v + "\r\n" + after);
             && First(head + "\r\n\r\n" + body, |head|, "\r\n\r\n")
             && First(head, |a|, "Content-Length")
    requires First(x + ":" + v + "\r\n" + after, |x| + 1 + |v|, "\r\n") && ':' !in x
    ensures var head := a + "Content-Length" + (x + ":" + v + "\r\n" + after);
            Completed(head + "\r\n\r\n" + body) ==
              if !AllDigits(Trim(v)) then -1
              else if |body| < Value(Trim(v)) then 0
              else |head| + 4 + Value(Trim(v))
  {
    hide First, ContentLength, Completed, Trim, Value, AllDigits;
    LengthSlice(a, x + ":" + v + "\r\n" + after, body);
    LengthRead(x, v, after);
  }

  lemma ColonIn(x: string, v: string)
    requires ':' !in x
    ensures Find(x + ":" + v, ":") == |x|
  {
    var s := x + ":" + v;
    assert s[|x|..|x| + 1] == ":";
    forall j | 0 <= j < |x|
      ensures !At(s, j, ":")
    {
      assert s[j..j + 1] == [x[j]];
    }
    FindIs(s, ":", |x|);
  }

  // ----------------------------------------------------------------------- decoding

  /** Header lines and the empty line behind them. */
  function TextOf(lines: seq<string>): string {
    if lines == [] then "\r\n" else lines[0] + "\r\n" + TextOf(lines[1..])
  }

  function BeforeColon(s: string): string {
    if s == "" || s[0] == ':' then "" else [s[0]] + BeforeColon(s[1..])
  }

  function AfterColon(s: string): string {
    if s == "" then "" else if s[0] == ':' then s[1..] else AfterColon(s[1..])
  }

  function FieldOf(line: string): (string, string) {
    (Trim(BeforeColon(line)), Trim(AfterColon(line)))
  }

  predicate HaveColons(lines: seq<string>) {
    forall i :: 0 <= i < |lines| ==> ':' in lines[i]
  }

  function FieldsOf(lines: seq<string>): (fields: seq<(string, string)>)
    ensures |fields| == |lines|
  {
    seq(|lines|, i requires 0 <= i < |lines| => FieldOf(lines[i]))
  }

  lemma {:induction false} ColonSplits(line: string)
    ensures ':' !in BeforeColon(line)
    ensures ':' in line ==> line == BeforeColon(line) + ":" + AfterColon(line)
  {
    if line != "" && line[0] != ':' {
      ColonSplits(line[1..]);
      assert line == [line[0]] + line[1..];
    }
  }

  lemma {:induction false} TextIsBlock(lines: seq<string>)
    ensures TextOf(lines) == Block(lines)
  {
    if lines != [] {
      TextIsBlock(lines[1..]);
    }
  }

  /** One line of the header loop. */
  lemma HeaderLine(line: string, next: string, end: nat)
    requires Clean(line) && |line| + 2 <= end && At(next, end - (|line| + 2), BLANK)
    ensures var slice := line + CRLF + next;
            && At(slice, end, BLANK)
            && (':' !in line ==> Headers(slice, end) == None)
            && (':' in line ==>
                  Headers(slice, end) ==
                    match Headers(next, end - (|line| + 2))
                    case None => None
                    case Some(rest) => Some([FieldOf(line)] + rest))
  {
    var slice := line + CRLF + next;
    CrlfAfterLine(line, next);
    assert slice[|line| + 2..] == next && slice[..|line|] == line;
    AtSuffix(slice, |line| + 2, end, BLANK);
    if ':' in line {
      ColonSplits(line);
      var x, v := BeforeColon(line), AfterColon(line);
      ColonIn(x, v);
      assert slice[..|x|] == x && slice[|x| + 1..|line|] == v;
    } else {
      NoColon(line);
    }
    hide At, Find, Trim, Clean;
  }

  lemma LastLine(line: string, tail: string)
    requires Clean(line)
    ensures var slice := line + CRLF + (CRLF + tail);
            At(slice, |line|, BLANK) && Headers(slice, |line|) == Some([])
  {
    var slice := line + CRLF + (CRLF + tail);
    assert slice[|line|..|line| + 4] == BLANK;
    CrlfAfterLine(line, CRLF + tail);
    hide At, Find;
  }

  /** The header loop: every line but the last must have a colon, and gives a field. */
  lemma {:induction false} HeadersOfLines(lines: seq<string>, tail: string)
    requires lines != [] && CleanLines(lines)
    ensures var slice, end, read := TextOf(lines) + tail, |TextOf(lines)| - 4, lines[..|lines| - 1];
            && end >= 0 && At(slice, end, BLANK)
            && Headers(slice, end) == if HaveColons(read) then Some(FieldsOf(read)) else None
    decreases |lines|
  {
    hide At, Find, Trim, Clean, Headers, FieldOf;
    var line, rest := lines[0], lines[1..];
    var next := TextOf(rest) + tail;
    assert TextOf(lines) + tail == line + CRLF + next;
    if rest == [] {
      assert next == CRLF + tail;
      LastLine(line, tail);
      assert lines[..0] == [];
      assert HaveColons([]) && FieldsOf([]) == [];
    } else {
      HeadersOfLines(rest, tail);
      HeaderLine(line, next, |TextOf(lines)| - 4);
      ReadLines(lines);
    }
  }

  lemma ReadLines(lines: seq<string>)
    requires |lines| > 1
    ensures var read, rest := lines[..|lines| - 1], lines[1..][..|lines| - 2];
            && (HaveColons(read) <==> ':' in lines[0] && HaveColons(rest))
            && FieldsOf(read) == [FieldOf(lines[0])] + FieldsOf(rest)
  {
    hide FieldOf;
    var read, rest := lines[..|lines| - 1], lines[1..][..|lines| - 2];
    assert read == [lines[0]] + rest;
    assert forall i :: 0 <= i < |rest| ==> rest[i] == read[i + 1];
  }

  /** What Decode makes of a first line, header lines and whatever follows, for every complete
      message: refused if a line before the last has no colon, otherwise the fields of these lines, in
      order and trimmed, and as much body as framing says. */
  lemma DecodedOfText(first: string, lines: seq<string>, rest: string)
    requires Clean(first) && lines != [] && CleanLines(lines)
    ensures var head := first + "\r\n" + TextOf(lines);
            var n, read := Completed(head + rest), lines[..|lines| - 1];
            && (n == 0 ==> Decoded(head + rest) == Incomplete)
            && (n < 0 ==> Decoded(head + rest) == Malformed)
            && (n > 0 ==>
                  && |head| <= n <= |head| + |rest|
                  && Decoded(head + rest) ==
                     if HaveColons(read) then Message(n, first, FieldsOf(read), rest[..n - |head|]) else Malformed)
  {
    hide At, Trim, Clean, Headers, FieldOf, Completed, Find, HaveColons, FieldsOf;
    var text := TextOf(lines);
    var head := first + "\r\n" + text;
    var m := head + rest;
    TextIsBlock(lines);
    HeadersOfLines(lines, rest);
    assert m == first + CRLF + (Block(lines) + rest);
    CrlfAfterLine(first, Block(lines) + rest);
    FindBlank(first, lines, rest);
    TextLong(lines);
    var f := |first|;
    var h := |text| - 4;
    assert m[f + 2..] == text + rest && m[..f] == first;
    BlankBehind(first, lines, rest);
    var n := Completed(m);
    if n > 0 {
      assert m[f + 2 + h + 4..n] == rest[..n - |head|];
      if HaveColons(lines[..|lines| - 1]) {
        DecodedIs(m, f, h, FieldsOf(lines[..|lines| - 1]));
      } else {
        RefusedIs(m, f, h);
      }
    } else {
      NotCompleted(m);
    }
  }

  lemma TextLong(lines: seq<string>)
    requires lines != [] && CleanLines(lines)
    ensures |TextOf(lines)| >= 5
  {
    assert |TextOf(lines[1..])| >= 2;
  }

  lemma BlankBehind(first: string, lines: seq<string>, rest: string)
    requires Clean(first) && lines != [] && CleanLines(lines)
    ensures Find(Block(lines) + rest, BLANK) == |Block(lines)| - 4
    ensures Find(first + CRLF + (Block(lines) + rest), BLANK) == |first| + 2 + (|Block(lines)| - 4)
  {
    hide At, Find, Clean;
    FindBlank(first, lines, rest);
    var next := Block(lines[1..]) + rest;
    assert Block(lines) + rest == lines[0] + CRLF + next;
    FindBlank(lines[0], lines[1..], rest);
  }

  lemma NotCompleted(m: string)
    requires Completed(m) <= 0
    ensures Completed(m) == 0 ==> Decoded(m) == Incomplete
    ensures Completed(m) < 0 ==> Decoded(m) == Malformed
  {
    hide At, Find, Headers;
  }

  lemma RefusedIs(m: string, f: nat, h: nat)
    requires Find(m, CRLF) == f && f + 2 <= |m| && Find(m[f + 2..], BLANK) == h < |m| - (f + 2)
    requires At(m[f + 2..], h, BLANK) && Headers(m[f + 2..], h) == None && Completed(m) > 0
    ensures Decoded(m) == Malformed
  {
    hide At, Find, Completed, Headers;
  }
}
