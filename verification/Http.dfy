/** HttpMessage and HttpStream as objects over the growable buffer. */
module Http {
  import opened Options
  import opened Text
  import opened HttpModel
  import opened NetBuffer

  // --------------------------------------------------- std::map<string, string>

  /** The order of std::string. */
  predicate Less(a: string, b: string) {
    b != "" && (a == "" || a[0] < b[0] || (a[0] == b[0] && Less(a[1..], b[1..])))
  }

  /** A map is the sequence of its entries, ascending by key. */
  ghost predicate Ascending(m: seq<(string, string)>) {
    forall i, j :: 0 <= i < j < |m| ==> Less(m[i].0, m[j].0)
  }

  function Put(m: seq<(string, string)>, key: string, value: string): seq<(string, string)> {
    if m == [] then [(key, value)]
    else if m[0].0 == key then [(key, value)] + m[1..]
    else if Less(key, m[0].0) then [(key, value)] + m
    else [m[0]] + Put(m[1..], key, value)
  }

  function PutAll(m: seq<(string, string)>, fields: seq<(string, string)>): seq<(string, string)> {
    if fields == [] then m
    else
      var n := |fields| - 1;
      Put(PutAll(m, fields[..n]), fields[n].0, fields[n].1)
  }

  lemma {:induction false} LessIsStrict(a: string, b: string)
    ensures !Less(a, a)
    ensures Less(a, b) ==> !Less(b, a)
    ensures a != b ==> Less(a, b) || Less(b, a)
  {
    if a != "" {
      LessIsStrict(a[1..], if b == "" then "" else b[1..]);
      if b != "" {
        assert a == [a[0]] + a[1..] && b == [b[0]] + b[1..];
      }
    }
  }

  lemma {:induction false} LessTransitive(a: string, b: string, c: string)
    requires Less(a, b) && Less(b, c)
    ensures Less(a, c)
  {
    if a != "" && a[0] == b[0] == c[0] {
      LessTransitive(a[1..], b[1..], c[1..]);
    }
  }

  function Get(m: seq<(string, string)>, key: string): Option<string> {
    if m == [] then None else if m[0].0 == key then Some(m[0].1) else Get(m[1..], key)
  }

  /** Put is what an assignment to a map is. */
  lemma {:induction false} PutIsAssignment(m: seq<(string, string)>, key: string, value: string, other: string)
    ensures Get(Put(m, key, value), other) == if other == key then Some(value) else Get(m, other)
  {
    if m != [] && m[0].0 != key && !Less(key, m[0].0) {
      PutIsAssignment(m[1..], key, value, other);
    }
  }

  ghost predicate Above(low: string, m: seq<(string, string)>) {
    forall i :: 0 <= i < |m| ==> Less(low, m[i].0)
  }

  lemma {:induction false} PutAscends(m: seq<(string, string)>, key: string, value: string)
    requires Ascending(m)
    ensures Ascending(Put(m, key, value))
    ensures forall low :: Above(low, m) && Less(low, key) ==> Above(low, Put(m, key, value))
  {
    if m != [] && m[0].0 != key {
      LessIsStrict(key, m[0].0);
      if Less(key, m[0].0) {
        forall j | 0 < j < |m|
          ensures Less(key, m[j].0)
        {
          LessTransitive(key, m[0].0, m[j].0);
        }
      } else {
        PutAscends(m[1..], key, value);
        assert Above(m[0].0, m[1..]);
        var rest := Put(m[1..], key, value);
        assert Above(m[0].0, rest);
        forall low | Above(low, m) && Less(low, key)
          ensures Above(low, [m[0]] + rest)
        {
          assert Above(low, m[1..]);
          assert Less(low, m[0].0);
        }
      }
    }
  }

  /** Storing the fields of an ascending list, in order, gives that list. */
  lemma {:induction false} PutAllOfAscending(fields: seq<(string, string)>)
    requires Ascending(fields)
    ensures PutAll([], fields) == fields
  {
    if fields != [] {
      var n := |fields| - 1;
      PutAllOfAscending(fields[..n]);
      PutLast(fields[..n], fields[n].0, fields[n].1);
    }
  }

  lemma {:induction false} PutLast(m: seq<(string, string)>, key: string, value: string)
    requires forall i :: 0 <= i < |m| ==> Less(m[i].0, key)
    ensures Put(m, key, value) == m + [(key, value)]
  {
    if m != [] {
      LessIsStrict(m[0].0, key);
      PutLast(m[1..], key, value);
    }
  }

  // ------------------------------------------------------------------- messages

  /** CheckCompleted */
  method CheckCompleted(message: string) returns (n: int)
    ensures n == Completed(message)
  {
    hide Find, At, Trim, Value;
    var pos := Find(message, BLANK);
    if pos == |message| {
      return 0;
    }
    var lengthHeader := message[..pos];
    var headerBegin := Find(lengthHeader, LENGTH);
    if headerBegin == |lengthHeader| {
      return pos + 4;
    }
    lengthHeader := message[headerBegin..pos];
    var headerEnd := Find(lengthHeader, CRLF);
    if headerEnd == |lengthHeader| {
      return -1;
    }
    var line := lengthHeader[..headerEnd];
    var colon := Find(line, ":");
    if colon == |line| {
      return -1;
    }
    assert line[colon + 1..] == lengthHeader[colon + 1..headerEnd];
    var length := TrimSpace(line[colon + 1..]);
    var len, end := ParseInt(length);
    if end != |length| {
      assert !IsDigit(length[end]);
      return -1;
    }
    assert length[..end] == length;
    if |message| - (pos + 4) < len {
      return 0;
    }
    return pos + 4 + len;
  }

  datatype DecodeResult = Returned(n: int) | Exception

  class HttpMessage {
    var firstLine: string
    var headers: seq<(string, string)>
    var body: string

    constructor ()
      ensures firstLine == "" && headers == [] && body == ""
    {
      firstLine, headers, body := "", [], "";
    }

    method Decode(message: Buffer<char>) returns (r: DecodeResult)
      requires message.Valid()
      modifies this, message`reader, message`writer
      ensures message.Valid() && (old(message.Roomy()) ==> message.Roomy())
      ensures match Decoded(old(message.Contents()))
              case Incomplete =>
                r == Returned(0) && message.Contents() == old(message.Contents())
                && firstLine == old(firstLine) && headers == old(headers) && body == old(body)
              case Malformed => r == Returned(-1) && message.Contents() == old(message.Contents())
              case Throws => r == Exception && message.Contents() == old(message.Contents())
              case Message(n, f, fields, b) =>
                r == Returned(n) && message.Contents() == old(message.Contents()[n..])
                && firstLine == f && headers == PutAll(old(headers), fields) && body == b
      ensures var m := old(message.Contents());
              !Decoded(m).Message? ==>
                && body == old(body)
                && (if Completed(m) <= 0 then firstLine == old(firstLine) && headers == old(headers)
                    else firstLine == Leftover(m).0 && headers == PutAll(old(headers), Leftover(m).1))
    {
      hide Find, At, Trim, Completed, Stored, PutAll;
      ghost var m := message.Contents();
      var slice := message.Contents();
      var parsedLen := CheckCompleted(slice);
      if parsedLen <= 0 {
        NegativeIsMinusOne(m);
        return Returned(parsedLen);
      }
      DecidedHasBlank(m);
      LineBeforeBlank(m, Find(m, BLANK));
      AtBound(m, Find(m, BLANK), BLANK);
      var firstLineEnd := Find(slice, CRLF);
      firstLine := slice[..firstLineEnd];
      slice := slice[firstLineEnd + 2..];
      var headersEnd := Find(slice, BLANK);
      if headersEnd == |slice| {
        PutNone(headers);
        return Returned(-1);
      }
      ghost var block := slice;
      var ok;
      ok, slice := StoreHeaders(slice, headersEnd);
      if !ok {
        return Returned(-1);
      }
      StoredIsHeaders(block, headersEnd);
      var bodyLen := parsedLen - (firstLineEnd + 2 + headersEnd + 4);
      if bodyLen < 0 {
        return Exception;
      }
      body := slice[..bodyLen];
      assert body == block[headersEnd + 4..headersEnd + 4 + bodyLen];
      message.Take(parsedLen);
      return Returned(parsedLen);
    }

    /** The loop over the header lines; the slice that remains starts with the body. */
    method StoreHeaders(block: string, headersEnd: nat) returns (ok: bool, slice: string)
      requires At(block, headersEnd, BLANK)
      modifies this`headers
      ensures ok <==> Headers(block, headersEnd).Some?
      ensures headers == PutAll(old(headers), Stored(block, headersEnd))
      ensures ok ==> headersEnd + 4 <= |block| && slice == block[headersEnd + 4..]
    {
      hide Find, At, Trim, Headers, Stored, PutAll;
      slice := block;
      var end: nat := headersEnd;
      ghost var done: seq<(string, string)> := [];
      PutNone(headers);
      AtBound(block, headersEnd, BLANK);
      assert [] + Stored(slice, end) == Stored(slice, end);
      var crlf := Find(slice, CRLF);
      while crlf != end
        invariant At(slice, end, BLANK) && crlf == Find(slice, CRLF)
        invariant end + |block| == headersEnd + |slice| && |slice| <= |block| && slice == block[|block| - |slice|..]
        invariant headers == PutAll(old(headers), done)
        invariant Headers(block, headersEnd).Some? <==> Headers(slice, end).Some?
        invariant Stored(block, headersEnd) == done + Stored(slice, end)
        decreases |slice|
      {
        HeadersTurn(slice, end);
        var header := slice[..crlf];
        var seg := Find(header, ":");
        if seg == |header| {
          assert done + [] == done;
          ok := false;
          return;
        }
        var key := TrimSpace(header[..seg]);
        var value := TrimSpace(header[seg + 1..]);
        assert header[..seg] == slice[..seg] && header[seg + 1..] == slice[seg + 1..crlf];
        headers := Put(headers, key, value);
        PutSnoc(old(headers), done, key, value);
        ghost var rest := Stored(slice[crlf + 2..], end - (crlf + 2));
        assert done + ([(key, value)] + rest) == done + [(key, value)] + rest;
        done := done + [(key, value)];
        slice, end := slice[crlf + 2..], end - (crlf + 2);
        crlf := Find(slice, CRLF);
      }
      HeadersTurn(slice, end);
      assert done + [] == done;
      slice := slice[end + 4..];
      ok := true;
    }

    static method AppendField(message: Buffer<char>, key: string, value: string)
      requires message.Valid()
      modifies message
      ensures message.Valid() && message.Contents() == old(message.Contents()) + (Line((key, value)) + CRLF)
    {
      message.Append(key);
      message.Append(": ");
      message.Append(value);
      message.Append(CRLF);
    }

    method Encode(message: Buffer<char>) returns (n: nat)
      requires message.Valid()
      modifies message
      ensures message.Valid() && n == |message.Contents()|
      ensures message.Contents() == old(message.Contents()) + Encoded(Content(firstLine, headers, body))
    {
      hide Line, Block, Lines;
      message.Append(firstLine);
      message.Append(CRLF);
      ghost var start := message.Contents();
      var i := 0;
      while i < |headers|
        invariant 0 <= i <= |headers| && message.Valid()
        invariant message.Contents() + Block(Lines(headers[i..])) == start + Block(Lines(headers))
      {
        BlockStep(headers[i..]);
        assert headers[i..][1..] == headers[i + 1..];
        ghost var before := message.Contents();
        AppendField(message, headers[i].0, headers[i].1);
        Reassociate(before, Line(headers[i]) + CRLF, Block(Lines(headers[i + 1..])));
        i := i + 1;
      }
      EmptyBlock();
      message.Append(CRLF);
      assert message.Contents() == start + Block(Lines(headers));
      message.Append(body);
      EncodedParts(old(message.Contents()), firstLine, headers, body);
      n := |message.Contents()|;
    }
  }

  lemma Reassociate(a: string, b: string, c: string)
    ensures a + (b + c) == a + b + c
  {
  }

  lemma EmptyBlock()
    ensures Block(Lines([])) == CRLF
  {
  }

  lemma EncodedParts(before: string, firstLine: string, headers: seq<(string, string)>, body: string)
    ensures before + firstLine + CRLF + Block(Lines(headers)) + body == before + Encoded(Content(firstLine, headers, body))
  {
    hide Block, Lines;
  }

  lemma PutSnoc(m: seq<(string, string)>, done: seq<(string, string)>, key: string, value: string)
    ensures PutAll(m, done + [(key, value)]) == Put(PutAll(m, done), key, value)
  {
    assert (done + [(key, value)])[..|done|] == done;
  }

  lemma PutNone(m: seq<(string, string)>)
    ensures PutAll(m, []) == m
  {
  }

  lemma NegativeIsMinusOne(m: string)
    ensures Completed(m) < 0 ==> Completed(m) == -1
  {
    hide Find, At;
  }

  /** What Decode stores of an encoded message in a new HttpMessage. */
  lemma StoredHeaders(c: Content, tail: string)
    requires Encodable(c) && Ascending(c.fields)
    ensures var r := Decoded(Encoded(c) + tail);
            r.Message? && PutAll([], r.fields) == c.fields[..|c.fields| - 1] && (Encoded(c) + tail)[r.length..] == tail
  {
    FramedHasFields(c);
    RoundTrip(c, tail);
    hide Decoded, Encodable, Less, Encoded;
    PutAllOfAscending(c.fields[..|c.fields| - 1]);
  }

  // -------------------------------------------------------------------- streams

  /** What one read of the connection yields. */
  datatype Read = Data(piece: string) | Closed(code: int) | TimedOut

  datatype Result = Got(message: Outcome) | Refused | Thrown | Ended(code: int) | Pending

  /** One call of AsyncRead: its result, what stays buffered, and how many reads it took. */
  datatype Reception = Reception(result: Result, buffered: string, used: nat)

  function Receive(buffered: string, script: seq<Read>): Reception
    decreases |script|
  {
    match Decoded(buffered)
    case Message(n, _, _, _) => Reception(Got(Decoded(buffered)), buffered[n..], 0)
    case Malformed => Reception(Refused, buffered, 0)
    case Throws => Reception(Thrown, buffered, 0)
    case Incomplete =>
      if script == [] then Reception(Pending, buffered, 0)
      else
        match script[0]
        case Closed(code) => Reception(Ended(code), buffered, 1)
        case TimedOut => Reception(Ended(-1), buffered, 1)
        case Data(piece) => Later(Receive(buffered + piece, script[1..]))
  }

  function Later(r: Reception): Reception {
    r.(used := r.used + 1)
  }

  function AllData(pieces: seq<string>): seq<Read> {
    seq(|pieces|, i requires 0 <= i < |pieces| => Data(pieces[i]))
  }

  lemma ReceiveStep(buffered: string, pieces: seq<string>)
    ensures var r := Receive(buffered, AllData(pieces));
            var d := Decoded(buffered);
            && (d.Message? ==> r == Reception(Got(d), buffered[d.length..], 0))
            && (d.Malformed? ==> r == Reception(Refused, buffered, 0))
            && (d.Throws? ==> r == Reception(Thrown, buffered, 0))
            && (d.Incomplete? && pieces == [] ==> r == Reception(Pending, buffered, 0))
            && (d.Incomplete? && pieces != [] ==> r == Later(Receive(buffered + pieces[0], AllData(pieces[1..]))))
  {
    hide Decoded;
    if pieces != [] {
      assert AllData(pieces)[1..] == AllData(pieces[1..]);
    }
  }

  /** Calls of AsyncRead in a row are the sessions whose outcome does not depend on the split. */
  lemma {:induction false} ReceiveIsSession(buffered: string, pieces: seq<string>)
    ensures var r := Receive(buffered, AllData(pieces));
            && r.used <= |pieces|
            && Session(buffered, pieces) ==
               match r.result
               case Got(message) => After(message, Session(r.buffered, pieces[r.used..]))
               case Refused => Trace([], Failed)
               case Thrown => Trace([], Crashed)
               case Ended(_) => Trace([], Waiting)
               case Pending => Trace([], Waiting)
    decreases |pieces|
  {
    hide Decoded, Session, Receive, AllData;
    SessionStep(buffered, pieces);
    ReceiveStep(buffered, pieces);
    if Decoded(buffered).Incomplete? && pieces != [] {
      ReceiveIsSession(buffered + pieces[0], pieces[1..]);
      var r := Receive(buffered + pieces[0], AllData(pieces[1..]));
      assert pieces[1..][r.used..] == pieces[r.used + 1..];
    } else {
      assert pieces[0..] == pieces;
    }
  }

  /** A connection that ends, fails or is silent for too long before a message is complete: the code
      of the read, or -1 for a timeout, and everything read so far stays buffered. */
  lemma ConnectionEnds(buffered: string, pieces: seq<string>, code: int)
    requires Receive(buffered, AllData(pieces)).result.Pending?
    ensures Receive(buffered, AllData(pieces) + [Closed(code)]) ==
              Reception(Ended(code), buffered + Concat(pieces), |pieces| + 1)
    ensures Receive(buffered, AllData(pieces) + [TimedOut]) == Reception(Ended(-1), buffered + Concat(pieces), |pieces| + 1)
    ensures Return(Ended(code)) == Some(Returned(code)) && Return(Ended(-1)) == Some(Returned(-1))
    ensures Return(Refused) == Some(Returned(-1)) && Return(Thrown) == Some(Exception) && Return(Pending) == None
  {
    hide Decoded, Receive;
    ReceiveSnoc(buffered, AllData(pieces), Closed(code));
    ReceiveSnoc(buffered, AllData(pieces), TimedOut);
    PendingKeepsAll(buffered, pieces);
    ReceiveNext(buffered + Concat(pieces), Closed(code));
    ReceiveNext(buffered + Concat(pieces), TimedOut);
  }

  lemma {:induction false} PendingKeepsAll(buffered: string, pieces: seq<string>)
    requires Receive(buffered, AllData(pieces)).result.Pending?
    ensures Receive(buffered, AllData(pieces)).buffered == buffered + Concat(pieces)
    ensures Decoded(buffered + Concat(pieces)).Incomplete?
    decreases |pieces|
  {
    hide Decoded, Receive, AllData;
    ReceiveStep(buffered, pieces);
    if pieces == [] {
      assert buffered + "" == buffered;
    } else {
      PendingKeepsAll(buffered + pieces[0], pieces[1..]);
      assert buffered + pieces[0] + Concat(pieces[1..]) == buffered + (pieces[0] + Concat(pieces[1..]));
    }
  }

  /** The i-th read can yield this, for some amount of room. */
  ghost predicate Offered(env: (nat, nat) -> Read, i: nat, r: Read) {
    exists room: nat :: env(i, room) == r
  }

  class HttpStream {
    const readBuf: Buffer<char>
    var tls: bool

    constructor ()
      ensures fresh(readBuf) && readBuf.Roomy() && readBuf.Contents() == [] && !tls
    {
      readBuf := new Buffer<char>('\0', INITIAL_SIZE);
      tls := false;
    }

    /** UpgradeHttps: the TLS handshake has made a stream or not. */
    method UpgradeHttps(made: bool) returns (ret: int)
      modifies `tls
      ensures tls == made && ret == if made then 0 else -1
    {
      tls := made;
      ret := if made then 0 else -1;
    }

    /** How much one read can deliver: over TLS what the buffer has room for, otherwise that and
        the extra buffer. */
    function Room(): nat
      requires readBuf.Valid()
      reads this, readBuf
    {
      readBuf.Writable() + if !tls && readBuf.Writable() < EXTRA_BUFFER then EXTRA_BUFFER else 0
    }

    /** What was read becomes readable: written behind the contents by TLS, or by readv. */
    method Admit(piece: string)
      requires readBuf.Valid() && |piece| <= Room()
      modifies readBuf
      ensures readBuf.Valid() && readBuf.Contents() == old(readBuf.Contents()) + piece
      ensures tls && old(readBuf.Roomy()) ==> readBuf.Roomy()
    {
      if tls {
        readBuf.Store(piece);
        readBuf.AddReadableLength(|piece|);
        assert piece == "" ==> old(readBuf.Contents()) + piece == old(readBuf.Contents());
      } else {
        var rn := readBuf.ReadFd(ReadBytes(piece));
      }
    }

    /** HttpStream::AsyncRead: decode or read more.  What the i-th read of this call yields may
        depend on the room it was given, which it never exceeds; after as many reads as limit
        says the routine is left suspended.  The ghost result is what was read. */
    method AsyncRead(message: HttpMessage, env: (nat, nat) -> Read, limit: nat)
      returns (ret: Option<DecodeResult>, ghost gotten: seq<Read>)
      requires readBuf.Valid()
      requires forall i: nat, room: nat :: env(i, room).Data? ==> |env(i, room).piece| <= room
      modifies message, readBuf
      ensures readBuf.Valid() && |gotten| <= limit && (ret.None? ==> |gotten| == limit)
      ensures tls && old(readBuf.Roomy()) ==> readBuf.Roomy()
      ensures forall i :: 0 <= i < |gotten| ==> Offered(env, i, gotten[i])
      ensures var r := Receive(old(readBuf.Contents()), gotten);
              && (r.result.Got? ==> r.result.message.Message?)
              && ret == Return(r.result) && readBuf.Contents() == r.buffered && r.used == |gotten|
              && (r.result.Got? ==>
                    && message.firstLine == r.result.message.firstLine && message.body == r.result.message.body
                    && message.headers == PutAll(old(message.headers), r.result.message.fields))
              && (r.result.Pending? || r.result.Ended? ==>
                    && message.firstLine == old(message.firstLine) && message.headers == old(message.headers)
                    && message.body == old(message.body))
    {
      hide Decoded, PutAll, Leftover, Completed, Receive;
      gotten := [];
      var used := 0;
      while true
        invariant readBuf.Valid() && used == |gotten| <= limit
        invariant tls && old(readBuf.Roomy()) ==> readBuf.Roomy()
        invariant Receive(old(readBuf.Contents()), gotten) == Shift(Receive(readBuf.Contents(), []), used)
        invariant forall i :: 0 <= i < |gotten| ==> Offered(env, i, gotten[i])
        invariant message.firstLine == old(message.firstLine) && message.headers == old(message.headers)
        invariant message.body == old(message.body)
        decreases limit - used
      {
        ReceiveNow(readBuf.Contents());
        var r := message.Decode(readBuf);
        if r != Returned(0) {
          return Some(r), gotten;
        }
        if used == limit {
          return None, gotten;
        }
        var next := env(used, Room());
        ReceiveSnoc(old(readBuf.Contents()), gotten, next);
        ReceiveNext(readBuf.Contents(), next);
        assert Offered(env, used, next);
        gotten := gotten + [next];
        used := used + 1;
        match next {
          case Closed(code) =>
            return Some(Returned(code)), gotten;
          case TimedOut =>
            return Some(Returned(-1)), gotten;
          case Data(piece) =>
            Admit(piece);
        }
      }
    }
  }

  /** AsyncRead on what is buffered, without another read. */
  lemma ReceiveNow(buffered: string)
    ensures var d := Decoded(buffered);
            var r := Receive(buffered, []);
            && r.used == 0
            && (d.Incomplete? ==> r == Reception(Pending, buffered, 0))
            && (d.Malformed? ==> r == Reception(Refused, buffered, 0))
            && (d.Throws? ==> r == Reception(Thrown, buffered, 0))
            && (d.Message? ==> r == Reception(Got(d), buffered[d.length..], 0))
  {
    hide Decoded;
  }

  lemma ReceiveNext(buffered: string, next: Read)
    requires Decoded(buffered).Incomplete?
    ensures next.Closed? ==> Receive(buffered, [next]) == Reception(Ended(next.code), buffered, 1)
    ensures next.TimedOut? ==> Receive(buffered, [next]) == Reception(Ended(-1), buffered, 1)
    ensures next.Data? ==> Receive(buffered, [next]) == Later(Receive(buffered + next.piece, []))
  {
    hide Decoded;
    assert [next][1..] == [];
  }

  /** One more read continues where the reads so far have left off. */
  lemma {:induction false} ReceiveSnoc(buffered: string, gotten: seq<Read>, next: Read)
    requires Receive(buffered, gotten).result.Pending?
    ensures var r := Receive(buffered, gotten);
            r.used == |gotten| && Receive(buffered, gotten + [next]) == Shift(Receive(r.buffered, [next]), |gotten|)
    decreases |gotten|
  {
    hide Decoded;
    if gotten == [] {
      assert [] + [next] == [next];
    } else {
      assert (gotten + [next])[1..] == gotten[1..] + [next] && (gotten + [next])[0] == gotten[0];
      if gotten[0].Data? {
        ReceiveSnoc(buffered + gotten[0].piece, gotten[1..], next);
      }
    }
  }

  /** What AsyncRead returns; nothing while its routine is suspended. */
  function Return(r: Result): Option<DecodeResult> {
    match r
    case Got(message) => if message.Message? then Some(Returned(message.length)) else None
    case Refused => Some(Returned(-1))
    case Thrown => Some(Exception)
    case Ended(code) => Some(Returned(code))
    case Pending => None
  }

  function Shift(r: Reception, n: nat): Reception {
    r.(used := r.used + n)
  }
}
