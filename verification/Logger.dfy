/** The logger as it lives in memory: fixed buffers filled in place, and the members and thread
    locals that hold them.  Each method is one step of LoggerModel; the ghost field state is the
    model's state, and Valid ties it to the buffers. */
module Logger {
  import opened Options
  import opened M = LoggerModel

  /** kernel/util/fixed_buffer.h */
  class FixedBuffer {
    const data: array<char>
    var cur: nat
    ghost var records: seq<string>

    ghost predicate Valid()
      reads this, data
    {
      cur <= data.Length && data[..cur] == Flatten(records)
    }

    constructor (size: nat)
      ensures Valid() && records == [] && cur == 0 && data.Length == size && fresh(data)
    {
      data := new char[size];
      cur, records := 0, [];
    }

    function Avail(): int
      reads this
    {
      data.Length - cur
    }

    /** The strict test leaves at least one byte unused. */
    method Append(buf: string)
      requires Valid()
      modifies this, data
      ensures Valid() && records == Grown(old(records), data.Length, buf)
    {
      hide Flatten;
      if Avail() > |buf| {
        var i := 0;
        while i < |buf|
          invariant 0 <= i <= |buf| && cur == old(cur) && records == old(records)
          invariant data[..cur + i] == old(data[..cur]) + buf[..i]
        {
          data[cur + i] := buf[i];
          assert data[..cur + i + 1] == data[..cur + i] + [buf[i]];
          i := i + 1;
        }
        FlattenSnoc(records, buf);
        assert buf[..|buf|] == buf;
        cur := cur + |buf|;
        records := records + [buf];
      }
    }

    method Reset()
      requires Valid()
      modifies this
      ensures Valid() && records == [] && cur == 0
    {
      cur, records := 0, [];
      assert data[..0] == [];
    }
  }

  // ------------------------------------------------------ who points to what

  /** The pointers and the plain fields of a logger and its thread. */
  datatype Places = Places(
    current: FixedBuffer?,
    next: FixedBuffer?,
    queue: seq<FixedBuffer>,
    running: bool,
    pc: Pc,
    spare1: FixedBuffer?,
    spare2: FixedBuffer?,
    toWrite: seq<FixedBuffer>,
    cursor: nat,
    output: seq<Line>)

  /** What every buffer holds. */
  type Contents = map<FixedBuffer, seq<string>>

  predicate Is(x: FixedBuffer?, b: Option<Buf<FixedBuffer>>) {
    if x == null then b.None? else b.Some? && b.value.id == x
  }

  predicate Are(xs: seq<FixedBuffer>, bs: seq<Buf<FixedBuffer>>) {
    |xs| == |bs| && forall i :: 0 <= i < |xs| ==> bs[i].id == xs[i]
  }

  predicate Shows(p: Places, s: State<FixedBuffer>) {
    && Is(p.current, s.current) && Is(p.next, s.next) && Are(p.queue, s.queue)
    && Is(p.spare1, s.spare1) && Is(p.spare2, s.spare2) && Are(p.toWrite, s.toWrite)
    && p.running == s.running && p.pc == s.pc && p.cursor == s.cursor && p.output == s.output
  }

  predicate Has(c: Contents, b: Option<Buf<FixedBuffer>>) {
    b.Some? ==> b.value.id in c && c[b.value.id] == b.value.records
  }

  predicate HasAll(c: Contents, bs: seq<Buf<FixedBuffer>>) {
    forall i :: 0 <= i < |bs| ==> bs[i].id in c && c[bs[i].id] == bs[i].records
  }

  predicate Matches(c: Contents, s: State<FixedBuffer>) {
    Has(c, s.current) && Has(c, s.next) && HasAll(c, s.queue) && Has(c, s.spare1) && Has(c, s.spare2) && HasAll(c, s.toWrite)
  }

  lemma {:induction false} InIds(bs: seq<Buf<FixedBuffer>>, i: nat)
    requires i < |bs|
    ensures bs[i].id in Ids(bs)
  {
    if i < |bs| - 1 {
      InIds(bs[..|bs| - 1], i);
    }
  }

  lemma {:induction false} AmongIds(bs: seq<Buf<FixedBuffer>>, id: FixedBuffer)
    requires id in Ids(bs)
    ensures exists i :: 0 <= i < |bs| && bs[i].id == id
  {
    if bs[|bs| - 1].id != id {
      AmongIds(bs[..|bs| - 1], id);
    }
  }

  /** The buffer is at none of the places that stay as they are. */
  predicate Apart(x: FixedBuffer, s: State<FixedBuffer>) {
    && (forall i :: 0 <= i < |s.queue| ==> s.queue[i].id != x)
    && (s.spare1.Some? ==> s.spare1.value.id != x) && (s.spare2.Some? ==> s.spare2.value.id != x)
    && (forall i :: 0 <= i < |s.toWrite| ==> s.toWrite[i].id != x)
  }

  lemma NotInIds(bs: seq<Buf<FixedBuffer>>, x: FixedBuffer)
    requires x !in Ids(bs)
    ensures forall i :: 0 <= i < |bs| ==> bs[i].id != x
  {
    forall i | 0 <= i < |bs|
      ensures bs[i].id != x
    {
      InIds(bs, i);
    }
  }

  lemma CurrentApart(s: State<FixedBuffer>)
    requires s.current.Some? && Unshared(Owners(s))
    ensures Apart(s.current.value.id, s) && (s.next.Some? ==> s.next.value.id != s.current.value.id)
  {
    hide Ids;
    var x := s.current.value.id;
    assert Owners(s)[x] == 1;
    NotInIds(s.queue, x);
    NotInIds(s.toWrite, x);
  }

  lemma NextApart(s: State<FixedBuffer>)
    requires s.next.Some? && Unshared(Owners(s))
    ensures Apart(s.next.value.id, s)
  {
    hide Ids;
    var x := s.next.value.id;
    assert Owners(s)[x] == 1;
    NotInIds(s.queue, x);
    NotInIds(s.toWrite, x);
  }

  lemma StrangerApart(s: State<FixedBuffer>, x: FixedBuffer)
    requires x !in Owners(s)
    ensures Apart(x, s) && (s.current.Some? ==> s.current.value.id != x)
  {
    hide Ids;
    NotInIds(s.queue, x);
    NotInIds(s.toWrite, x);
  }

  lemma OwnersKnown(c: Contents, s: State<FixedBuffer>, x: FixedBuffer)
    requires Matches(c, s) && x in Owners(s)
    ensures x in c
  {
    if x in Ids(s.queue) {
      AmongIds(s.queue, x);
    }
    if x in Ids(s.toWrite) {
      AmongIds(s.toWrite, x);
    }
  }

  // -------------------------------------------------- what the steps do to them

  lemma LogHereMatches(p: Places, c: Contents, s: State<FixedBuffer>, record: string)
    requires Shows(p, s) && Matches(c, s) && s.current.Some? && Unshared(Owners(s))
    ensures p.current != null && p.current in c && Shows(p, LogHere(s, record))
    ensures Matches(c[p.current := Grown(c[p.current], s.capacity, record)], LogHere(s, record))
  {
    hide Owners, Unshared, Grown, Accept;
    CurrentApart(s);
  }

  lemma LogBehindMatches(p: Places, c: Contents, s: State<FixedBuffer>, record: string, extra: FixedBuffer)
    requires Shows(p, s) && Matches(c, s) && s.current.Some? && Unshared(Owners(s))
    requires s.next.Some? || extra !in Owners(s)
    ensures p.current != null
    ensures var x := if p.next == null then extra else p.next;
            var before := if p.next in c then c[p.next] else [];
            && Shows(p.(queue := p.queue + [p.current], current := x, next := null), LogBehind(s, record, extra))
            && Matches(c[x := Grown(before, s.capacity, record)], LogBehind(s, record, extra))
  {
    hide Owners, Unshared, Grown, Accept;
    CurrentApart(s);
    if s.next.Some? {
      NextApart(s);
    } else {
      StrangerApart(s, extra);
    }
  }

  function AfterSwap(p: Places): Places
    requires p.current != null
  {
    p.(current := p.spare1, spare1 := null, queue := [], toWrite := p.queue + [p.current], cursor := 0, pc := Swapped,
       next := if p.next == null then p.spare2 else p.next,
       spare2 := if p.next == null then null else p.spare2)
  }

  lemma SwapMatches(p: Places, c: Contents, s: State<FixedBuffer>)
    requires Shows(p, s) && Matches(c, s) && s.current.Some? && s.toWrite == []
    ensures && p.current != null
            && Matches(c, DoSwap(s))
            && Shows(AfterSwap(p), DoSwap(s))
  {
  }

  function AfterTrim(p: Places): Places {
    p.(toWrite := if |p.toWrite| > LIMIT then p.toWrite[..KEPT] else p.toWrite,
       output := p.output + if |p.toWrite| > LIMIT then [Notice(|p.toWrite| - KEPT)] else [],
       pc := Writing)
  }

  lemma TrimMatches(p: Places, c: Contents, s: State<FixedBuffer>)
    requires Shows(p, s) && Matches(c, s)
    ensures Matches(c, DoTrim(s))
    ensures Shows(AfterTrim(p), DoTrim(s))
  {
  }

  lemma WriteMatches(p: Places, c: Contents, s: State<FixedBuffer>)
    requires Shows(p, s) && Matches(c, s) && s.cursor < |s.toWrite|
    ensures Matches(c, DoWrite(s)) && p.toWrite[p.cursor] in c
    ensures Shows(p.(output := p.output + [Chunk(Flatten(c[p.toWrite[p.cursor]]))], cursor := p.cursor + 1), DoWrite(s))
  {
    hide Flatten;
  }

  /** The buffer that fills a spare slot, if the slot is empty, and what is left then. */
  function Taken(spare: FixedBuffer?, left: seq<FixedBuffer>): FixedBuffer?
    requires spare == null ==> left != []
  {
    if spare == null then left[|left| - 1] else null
  }

  function Left(spare: FixedBuffer?, left: seq<FixedBuffer>): seq<FixedBuffer>
    requires spare == null ==> left != []
  {
    if spare == null then left[..|left| - 1] else left
  }

  function Cleared(c: Contents, b: FixedBuffer?): Contents {
    if b == null then c else c[b := []]
  }

  function FirstTwo(bs: seq<FixedBuffer>): seq<FixedBuffer> {
    if |bs| > KEPT then bs[..KEPT] else bs
  }

  function Recycled(p: Places): Places
    requires p.spare1 == null ==> p.toWrite != []
    requires p.spare2 == null ==> Left(p.spare1, FirstTwo(p.toWrite)) != []
  {
    var left := FirstTwo(p.toWrite);
    p.(spare1 := if p.spare1 == null then Taken(p.spare1, left) else p.spare1,
       spare2 := if p.spare2 == null then Taken(p.spare2, Left(p.spare1, left)) else p.spare2,
       toWrite := [], cursor := 0, pc := Head)
  }

  lemma WrittenApart(s: State<FixedBuffer>, i: nat)
    requires i < |s.toWrite| && Unshared(Owners(s))
    ensures var x := s.toWrite[i].id;
            && (s.current.Some? ==> s.current.value.id != x) && (s.next.Some? ==> s.next.value.id != x)
            && (s.spare1.Some? ==> s.spare1.value.id != x) && (s.spare2.Some? ==> s.spare2.value.id != x)
            && (forall k :: 0 <= k < |s.queue| ==> s.queue[k].id != x)
  {
    hide Ids;
    var x := s.toWrite[i].id;
    InIds(s.toWrite, i);
    assert Owners(s)[x] == 1;
    NotInIds(s.queue, x);
  }

  lemma RecycleShows(p: Places, s: State<FixedBuffer>)
    requires Shows(p, s) && Refillable(s)
    ensures p.spare1 == null ==> p.toWrite != []
    ensures p.spare2 == null ==> Left(p.spare1, FirstTwo(p.toWrite)) != []
    ensures Shows(Recycled(p), DoRecycle(s))
  {
  }

  lemma ClearHas(c: Contents, b: Option<Buf<FixedBuffer>>, x: FixedBuffer?)
    requires Has(c, b) && (b.Some? ==> b.value.id != x)
    ensures Has(Cleared(c, x), b)
  {
  }

  lemma ClearHasAll(c: Contents, bs: seq<Buf<FixedBuffer>>, x: FixedBuffer?)
    requires HasAll(c, bs) && forall i :: 0 <= i < |bs| ==> bs[i].id != x
    ensures HasAll(Cleared(c, x), bs)
  {
  }

  /** The contents after the spare slots have been filled from the back and cleared. */
  function AfterRecycle(c: Contents, p: Places): Contents
    requires p.spare1 == null ==> p.toWrite != []
    requires p.spare2 == null ==> Left(p.spare1, FirstTwo(p.toWrite)) != []
  {
    var left := FirstTwo(p.toWrite);
    Cleared(Cleared(c, Taken(p.spare1, left)), Taken(p.spare2, Left(p.spare1, left)))
  }

  /** Only a written buffer is taken. */
  lemma TakenApart(p: Places, s: State<FixedBuffer>, spare: FixedBuffer?, left: seq<FixedBuffer>)
    requires Shows(p, s) && Unshared(Owners(s)) && left <= p.toWrite && (spare == null ==> left != [])
    ensures var x := Taken(spare, left);
            && (s.current.Some? ==> s.current.value.id != x) && (s.next.Some? ==> s.next.value.id != x)
            && (s.spare1.Some? ==> s.spare1.value.id != x) && (s.spare2.Some? ==> s.spare2.value.id != x)
            && (forall k :: 0 <= k < |s.queue| ==> s.queue[k].id != x)
  {
    hide Owners, Unshared;
    if spare == null {
      WrittenApart(s, |left| - 1);
    }
  }

  lemma ClearMatches(c: Contents, s: State<FixedBuffer>, x: FixedBuffer?)
    requires Has(c, s.current) && Has(c, s.next) && HasAll(c, s.queue) && Has(c, s.spare1) && Has(c, s.spare2)
    requires (s.current.Some? ==> s.current.value.id != x) && (s.next.Some? ==> s.next.value.id != x)
    requires (s.spare1.Some? ==> s.spare1.value.id != x) && (s.spare2.Some? ==> s.spare2.value.id != x)
    requires forall k :: 0 <= k < |s.queue| ==> s.queue[k].id != x
    ensures var d := Cleared(c, x);
            Has(d, s.current) && Has(d, s.next) && HasAll(d, s.queue) && Has(d, s.spare1) && Has(d, s.spare2)
  {
    hide Has, HasAll;
    ClearHas(c, s.current, x);
    ClearHas(c, s.next, x);
    ClearHas(c, s.spare1, x);
    ClearHas(c, s.spare2, x);
    ClearHasAll(c, s.queue, x);
  }

  lemma RecycleMatches(p: Places, c: Contents, s: State<FixedBuffer>)
    requires Shows(p, s) && Matches(c, s) && Unshared(Owners(s)) && Refillable(s)
    ensures p.spare1 == null ==> p.toWrite != []
    ensures p.spare2 == null ==> Left(p.spare1, FirstTwo(p.toWrite)) != []
    ensures Shows(Recycled(p), DoRecycle(s)) && Matches(AfterRecycle(c, p), DoRecycle(s))
  {
    hide Owners, Unshared;
    RecycleShows(p, s);
    var left := FirstTwo(p.toWrite);
    var x, rest := Taken(p.spare1, left), Left(p.spare1, left);
    var y := Taken(p.spare2, rest);
    TakenApart(p, s, p.spare1, left);
    TakenApart(p, s, p.spare2, rest);
    ClearMatches(c, s, x);
    ClearMatches(Cleared(c, x), s, y);
    RecycleRest(p, s);
  }

  /** What recycling leaves in the slots of the model. */
  lemma RecycleRest(p: Places, s: State<FixedBuffer>)
    requires Shows(p, s) && Refillable(s)
    ensures p.spare1 == null ==> p.toWrite != []
    ensures p.spare2 == null ==> Left(p.spare1, FirstTwo(p.toWrite)) != []
    ensures var t := DoRecycle(s);
            var left := FirstTwo(p.toWrite);
            && t.current == s.current && t.next == s.next && t.queue == s.queue && t.toWrite == []
            && (p.spare1 != null ==> t.spare1 == s.spare1)
            && (p.spare1 == null ==> t.spare1 == Some(M.Buf(Taken(p.spare1, left) as FixedBuffer, [])))
            && (p.spare2 != null ==> t.spare2 == s.spare2)
            && (p.spare2 == null ==> t.spare2 == Some(M.Buf(Taken(p.spare2, Left(p.spare1, left)) as FixedBuffer, [])))
  {
  }

  lemma FitsShown(p: Places, c: Contents, s: State<FixedBuffer>, record: string)
    requires Shows(p, s) && Matches(c, s) && s.current.Some?
    ensures p.current != null && p.current in c
    ensures Fits(s, record) <==> s.capacity > |Flatten(c[p.current])| + |record|
  {
    hide Flatten;
  }

  lemma InitMatches(p: Places, c: Contents, size: nat)
    requires p.current != null && p.next != null && p.spare1 != null && p.spare2 != null
    requires p == Places(p.current, p.next, [], true, Head, p.spare1, p.spare2, [], 0, [])
    requires p.current != p.next && p.current != p.spare1 && p.current != p.spare2
    requires p.next != p.spare1 && p.next != p.spare2 && p.spare1 != p.spare2
    requires c == map[p.current := [], p.next := [], p.spare1 := [], p.spare2 := []]
    ensures var s := Init<FixedBuffer>(size, p.current, p.next, p.spare1, p.spare2);
            Inv(s) && Shows(p, s) && Matches(c, s) && s.capacity == size
  {
    hide Inv;
    InitInv<FixedBuffer>(size, p.current, p.next, p.spare1, p.spare2);
  }

  lemma InvParts(s: State<FixedBuffer>)
    requires Inv(s)
    ensures Placed(s) && s.current.Some? && Unshared(Owners(s))
  {
  }

  lemma CurrentShown(p: Places, c: Contents, s: State<FixedBuffer>)
    requires Shows(p, s) && Matches(c, s) && s.current.Some?
    ensures p.current != null && p.current in c && s.current.value.id == p.current && s.current.value.records == c[p.current]
  {
  }

  lemma NextShown(p: Places, c: Contents, s: State<FixedBuffer>)
    requires Shows(p, s) && Matches(c, s)
    ensures p.next == null <==> s.next.None?
    ensures p.next != null ==> p.next in c && s.next.value.id == p.next && s.next.value.records == c[p.next]
  {
  }

  lemma StrangerOwns(c: Contents, s: State<FixedBuffer>, x: FixedBuffer)
    requires Matches(c, s)
    ensures x !in c ==> x !in Owners(s)
  {
    hide Owners, Matches;
    if x in Owners(s) {
      OwnersKnown(c, s, x);
    }
  }

  lemma LogHereStep(s: State<FixedBuffer>, record: string, extra: FixedBuffer)
    requires Inv(s) && s.current.Some? && Fits(s, record)
    ensures Enabled(s, Log(record, extra)) && AssertsHold(s, Log(record, extra))
    ensures LogHere(s, record) == Next(s, Log(record, extra)) && Inv(LogHere(s, record))
    ensures LogHere(s, record).capacity == s.capacity
  {
    hide Inv, Owners, Flatten;
    StepInv(s, Log(record, extra));
  }

  lemma LogBehindStep(s: State<FixedBuffer>, record: string, extra: FixedBuffer)
    requires Inv(s) && s.current.Some? && !Fits(s, record) && (s.next.Some? || extra !in Owners(s))
    ensures Enabled(s, Log(record, extra)) && AssertsHold(s, Log(record, extra))
    ensures LogBehind(s, record, extra) == Next(s, Log(record, extra)) && Inv(LogBehind(s, record, extra))
    ensures LogBehind(s, record, extra).capacity == s.capacity
  {
    hide Inv, Owners, Flatten;
    StepInv(s, Log(record, extra));
  }

  lemma SparesShown(p: Places, c: Contents, s: State<FixedBuffer>)
    requires Shows(p, s) && Matches(c, s) && Placed(s) && (p.pc == Head || p.pc == Tested)
    ensures p.spare1 != null && p.spare1 in c && c[p.spare1] == []
    ensures p.spare2 != null && p.spare2 in c && c[p.spare2] == []
    ensures p.toWrite == []
  {
  }

  lemma TestShows(p: Places, c: Contents, s: State<FixedBuffer>, step: Step<FixedBuffer>)
    requires Shows(p, s) && Matches(c, s) && Inv(s) && p.pc == Head && step == if p.running then Test else Exit
    ensures Enabled(s, step) && AssertsHold(s, step) && Next(s, step).capacity == s.capacity
    ensures Matches(c, Next(s, step)) && Shows(p.(pc := if p.running then Tested else Done), Next(s, step))
  {
    hide Owners, Conserved, Accounted;
  }

  lemma StopShows(p: Places, c: Contents, s: State<FixedBuffer>)
    requires Shows(p, s) && Matches(c, s)
    ensures Matches(c, Next(s, Step.Stop)) && Shows(p.(running := false), Next(s, Step.Stop))
  {
  }

  lemma SwapStep(p: Places, s: State<FixedBuffer>)
    requires Shows(p, s) && Inv(s) && p.pc == Tested
    ensures Enabled(s, Swap) && AssertsHold(s, Swap) && s.current.Some? && s.toWrite == []
    ensures DoSwap(s) == Next(s, Swap) && Inv(DoSwap(s)) && DoSwap(s).capacity == s.capacity
  {
    hide Owners, Conserved, Accounted;
    StepInv(s, Swap);
  }

  lemma TrimStep(p: Places, s: State<FixedBuffer>)
    requires Shows(p, s) && Inv(s) && p.pc == Swapped
    ensures Enabled(s, Trim) && AssertsHold(s, Trim) && |s.toWrite| == |p.toWrite|
    ensures DoTrim(s) == Next(s, Trim) && Inv(DoTrim(s)) && DoTrim(s).capacity == s.capacity
  {
    hide Inv;
    StepInv(s, Trim);
  }

  lemma WriteStep(p: Places, s: State<FixedBuffer>)
    requires Shows(p, s) && Inv(s) && p.pc == Writing && p.cursor < |p.toWrite|
    ensures Enabled(s, Write) && AssertsHold(s, Write) && s.cursor < |s.toWrite|
    ensures DoWrite(s) == Next(s, Write) && Inv(DoWrite(s)) && DoWrite(s).capacity == s.capacity
  {
    hide Inv;
    StepInv(s, Write);
  }

  lemma RecycleStep(p: Places, c: Contents, s: State<FixedBuffer>)
    requires Shows(p, s) && Matches(c, s) && Inv(s) && p.pc == Writing && p.cursor == |p.toWrite|
    ensures Enabled(s, Recycle) && AssertsHold(s, Recycle) && Refillable(s) && Unshared(Owners(s))
    ensures DoRecycle(s) == Next(s, Recycle) && Inv(DoRecycle(s)) && DoRecycle(s).capacity == s.capacity
    ensures forall i :: 0 <= i < |p.toWrite| ==> p.toWrite[i] in c
  {
    hide Owners, Conserved, Accounted;
    StepInv(s, Recycle);
  }

  // ----------------------------------------------------------------- the logger

  /** A buffer and its bytes. */
  ghost function Memory(b: FixedBuffer?): set<object> {
    if b == null then {} else {b, b.data}
  }

  /** kernel/log/async_logging.cc.  A unique_ptr is a reference that may be null, and the
      thread's locals are fields.  The ghost field live is every buffer ever allocated. */
  class AsyncLogging {
    const capacity: nat
    var current: FixedBuffer?
    var next: FixedBuffer?
    var queue: seq<FixedBuffer>
    var running: bool
    var pc: Pc
    var spare1: FixedBuffer?
    var spare2: FixedBuffer?
    var toWrite: seq<FixedBuffer>
    var cursor: nat
    var output: seq<Line>
    ghost var state: State<FixedBuffer>
    ghost var live: set<FixedBuffer>

    ghost predicate Sound()
      reads `live, live, set b <- live :: b.data
    {
      && (forall b <- live :: b.Valid() && b.data.Length == capacity)
      && (forall b <- live, d <- live :: b != d ==> b.data != d.data)
    }

    ghost function Where(): Places
      reads this
    {
      Places(current, next, queue, running, pc, spare1, spare2, toWrite, cursor, output)
    }

    ghost function Holding(): Contents
      reads `live, live
    {
      map b <- live :: b.records
    }

    ghost predicate Valid()
      reads this, live, set b <- live :: b.data
    {
      Sound() && state.capacity == capacity && Inv(state) && Shows(Where(), state) && Matches(Holding(), state)
    }

    /** The constructor, Start and the head of ThreadFunc. */
    constructor (size: nat)
      ensures Valid() && fresh(live) && capacity == size
      ensures current != null && next != null && spare1 != null && spare2 != null
      ensures state == Init<FixedBuffer>(size, current, next, spare1, spare2)
    {
      capacity, running, pc := size, true, Head;
      current, next, spare1, spare2 := null, null, null, null;
      queue, toWrite, cursor, output := [], [], 0, [];
      live := {};
      new;
      hide Valid, Init;
      Begin();
    }

    method Begin()
      requires live == {} && queue == [] && running && pc == Head && toWrite == [] && cursor == 0 && output == []
      modifies this
      ensures Valid() && fresh(live)
      ensures current != null && next != null && spare1 != null && spare2 != null
      ensures state == Init<FixedBuffer>(capacity, current, next, spare1, spare2)
    {
      hide Inv, Matches, Shows, Sound, Holding, Init;
      EmptyIsSound();
      AllocateFour();
      InitMatches(Where(), Holding(), capacity);
      state := Init<FixedBuffer>(capacity, current, next, spare1, spare2);
    }

    lemma EmptyIsSound()
      requires live == {}
      ensures Sound()
    {
    }

    method AllocateFour()
      requires Sound() && live == {}
      modifies `live, `current, `next, `spare1, `spare2
      ensures Sound() && fresh(live)
      ensures current != null && next != null && spare1 != null && spare2 != null && live == {current, next, spare1, spare2}
      ensures current != next && current != spare1 && current != spare2 && next != spare1 && next != spare2 && spare1 != spare2
      ensures Holding() == map[current := [], next := [], spare1 := [], spare2 := []]
    {
      hide Sound, Holding;
      HeldIsLive();
      current := Allocate();
      next := Allocate();
      spare1 := Allocate();
      spare2 := Allocate();
    }

    /** A buffer of the logger takes a line; the other buffers are as before. */
    method Fill(b: FixedBuffer, line: string)
      requires Sound() && b in live
      modifies b, b.data
      ensures Sound() && Holding() == old(Holding())[b := Grown(old(Holding()[b]), capacity, line)]
    {
      hide Grown;
      b.Append(line);
    }

    lemma HeldIsLive()
      ensures Holding().Keys == live
    {
    }

    lemma Room(b: FixedBuffer)
      requires Sound() && b in live
      ensures b.Avail() == capacity - |Flatten(b.records)|
    {
    }

    /** One more buffer; the others are as before. */
    method Allocate() returns (b: FixedBuffer)
      requires Sound()
      modifies `live
      ensures fresh(b) && fresh(b.data) && live == old(live) + {b}
      ensures Sound() && Holding() == old(Holding())[b := []]
    {
      hide Flatten;
      b := new FixedBuffer(capacity);
      live := live + {b};
    }

    /** A full buffer goes to the queue and the next one, or a new one, takes over. */
    method Rotate()
      requires Sound() && current != null && (next != null ==> next in live)
      modifies this
      ensures Sound() && current != null && live == old(live) + {current} && state == old(state)
      ensures if old(next) != null then current == old(next) else fresh(current) && fresh(current.data)
      ensures Where() == old(Where()).(queue := old(queue) + [old(current)], current := current, next := null)
      ensures Holding() == if old(next) != null then old(Holding()) else old(Holding())[current := []]
    {
      hide Sound;
      queue := queue + [current];
      if next != null {
        current, next := next, null;
      } else {
        current := Allocate();
      }
    }

    /** The line goes to the current buffer. */
    method AppendHere(logline: string)
      requires Valid() && Fits(state, logline)
      modifies this, Memory(current)
      ensures Valid() && live == old(live) && state == LogHere(old(state), logline)
    {
      hide Inv, Shows, Matches, Owners, Next, AssertsHold, Enabled, LogHere, Fits, Grown, Sound;
      ghost var p, c, s := Where(), Holding(), state;
      InvParts(s);
      LogHereMatches(p, c, s, logline);
      LogHereStep(s, logline, current);
      Fill(current, logline);
      state := LogHere(s, logline);
      assert Where() == p;
    }

    /** The line goes to the buffer behind the current one. */
    method AppendBehind(logline: string) returns (ghost extra: FixedBuffer)
      requires Valid() && !Fits(state, logline)
      modifies this, Memory(current), Memory(next)
      ensures Valid() && live == old(live) + {extra} && fresh(live - old(live))
      ensures (old(state).next.Some? || extra !in Owners(old(state))) && state == LogBehind(old(state), logline, extra)
    {
      hide Inv, Shows, Matches, Owners, Next, AssertsHold, Enabled, LogBehind, Fits, Grown, Sound, Holding, Placed, Unshared;
      ghost var p, c, s := Where(), Holding(), state;
      HeldIsLive();
      InvParts(s);
      CurrentShown(p, c, s);
      NextShown(p, c, s);
      Rotate();
      extra := current;
      StrangerOwns(c, s, extra);
      LogBehindMatches(p, c, s, logline, extra);
      LogBehindStep(s, logline, extra);
      Fill(current, logline);
      state := LogBehind(s, logline, extra);
      assert Holding() == c[extra := Grown(if p.next in c then c[p.next] else [], capacity, logline)];
    }

    /** One Log step; extra is the buffer that had to be allocated, if one had. */
    method Append(logline: string) returns (ghost extra: FixedBuffer)
      requires Valid()
      modifies this, Memory(current), Memory(next)
      ensures Valid() && live == old(live) + {extra} && fresh(live - old(live))
      ensures Enabled(old(state), Log(logline, extra)) && AssertsHold(old(state), Log(logline, extra))
      ensures state == Next(old(state), Log(logline, extra))
    {
      hide Inv, Shows, Matches, Owners, Next, AssertsHold, Enabled, LogHere, LogBehind, Fits, Grown, Flatten, Sound;
      ghost var p, c, s := Where(), Holding(), state;
      InvParts(s);
      FitsShown(p, c, s, logline);
      Room(current);
      if current.Avail() > |logline| {
        extra := current;
        LogHereStep(s, logline, extra);
        AppendHere(logline);
      } else {
        extra := AppendBehind(logline);
        LogBehindStep(s, logline, extra);
      }
    }

    lemma EmptyBuffer(b: FixedBuffer)
      requires Sound() && b in live && Holding()[b] == []
      ensures b.cur == 0
    {
    }

    /** The assertions at the head of the loop hold. */
    lemma SparesAreEmpty()
      requires Valid() && (pc == Head || pc == Tested)
      ensures spare1 != null && spare1 in live && spare1.cur == 0
      ensures spare2 != null && spare2 in live && spare2.cur == 0
      ensures toWrite == []
    {
      hide Inv, Shows, Matches, Sound;
      InvParts(state);
      SparesShown(Where(), Holding(), state);
      EmptyBuffer(spare1);
      EmptyBuffer(spare2);
    }

    /** The loop test: a Test step, or the Exit step. */
    method TestRunning() returns (goOn: bool)
      requires Valid() && pc == Head
      modifies `pc, `state
      ensures Valid() && goOn == running
      ensures var step := if running then Test else Exit;
              && Enabled(old(state), step) && AssertsHold(old(state), step)
              && state == Next(old(state), step)
    {
      hide Inv, Shows, Matches, AssertsHold, Sound, Owners;
      goOn := running;
      ghost var step: Step<FixedBuffer> := if running then Test else Exit;
      TestShows(Where(), Holding(), state, step);
      StepInv(state, step);
      pc := if running then Tested else Done;
      state := Next(state, step);
    }

    method Stop()
      requires Valid()
      modifies `running, `state
      ensures Valid()
      ensures Enabled(old(state), Step.Stop) && AssertsHold(old(state), Step.Stop) && state == Next(old(state), Step.Stop)
    {
      hide Inv, Shows, Matches, Sound;
      StopShows(Where(), Holding(), state);
      StepInv(state, Step.Stop);
      running := false;
      state := Next(state, Step.Stop);
    }

    /** The pointer moves of the critical section. */
    method Exchange()
      requires current != null && toWrite == []
      modifies `current, `next, `queue, `spare1, `spare2, `toWrite, `cursor, `pc
      ensures Where() == AfterSwap(old(Where())) && toWrite != []
    {
      queue := queue + [current];
      current, spare1 := spare1, null;
      toWrite, queue := queue, toWrite;
      if next == null {
        next, spare2 := spare2, null;
      }
      cursor, pc := 0, Swapped;
    }

    /** The body of the loop up to the end of its critical section: a Swap step. */
    method SwapBuffers()
      requires Valid() && pc == Tested
      modifies this
      ensures Valid() && live == old(live) && toWrite != []
      ensures Enabled(old(state), Swap) && AssertsHold(old(state), Swap) && state == Next(old(state), Swap)
    {
      hide Inv, Shows, Matches, Sound, AssertsHold, Enabled, Next, DoSwap, Placed, Owners, Unshared, AfterSwap;
      SparesAreEmpty();
      assert spare1 != null && spare1.cur == 0;
      assert spare2 != null && spare2.cur == 0;
      assert toWrite == [];
      SwapStep(Where(), state);
      CurrentShown(Where(), Holding(), state);
      SwapMatches(Where(), Holding(), state);
      Exchange();
      state := DoSwap(state);
      assert toWrite != [];
    }

    method CutBatch()
      modifies `toWrite, `output, `pc
      ensures Where() == AfterTrim(old(Where()))
    {
      if |toWrite| > LIMIT {
        output := output + [Notice(|toWrite| - KEPT)];
        toWrite := toWrite[..KEPT];
      }
      pc := Writing;
    }

    /** More than 25 buffers are cut to two and a notice: a Trim step. */
    method TrimBatch()
      requires Valid() && pc == Swapped
      modifies this
      ensures Valid() && live == old(live)
      ensures Enabled(old(state), Trim) && AssertsHold(old(state), Trim) && state == Next(old(state), Trim)
    {
      hide Inv, Shows, Matches, Sound, AssertsHold, Enabled, Next, DoTrim, AfterTrim;
      TrimStep(Where(), state);
      TrimMatches(Where(), Holding(), state);
      CutBatch();
      state := DoTrim(state);
    }

    /** One turn of the writing loop: a Write step. */
    method WriteNext()
      requires Valid() && pc == Writing && cursor < |toWrite|
      modifies `output, `cursor, `state
      ensures Valid()
      ensures Enabled(old(state), Write) && AssertsHold(old(state), Write) && state == Next(old(state), Write)
      ensures output == old(output) + [Chunk(toWrite[old(cursor)].data[..toWrite[old(cursor)].cur])]
    {
      hide Inv, Shows, Matches, Sound, AssertsHold, Next, DoWrite, Flatten;
      ghost var p, c, s := Where(), Holding(), state;
      WriteStep(p, s);
      WriteMatches(p, c, s);
      var buffer := toWrite[cursor];
      Text(buffer);
      output := output + [Chunk(buffer.data[..buffer.cur])];
      cursor, state := cursor + 1, DoWrite(s);
    }

    lemma Text(b: FixedBuffer)
      requires Sound() && b in live
      ensures b.cur <= b.data.Length && b.data[..b.cur] == Flatten(b.records)
    {
    }

    /** An empty spare slot gets the last buffer that is left, emptied; the others are as before. */
    method RefillSpare(spare: FixedBuffer?, left: seq<FixedBuffer>) returns (full: FixedBuffer, rest: seq<FixedBuffer>)
      requires Sound() && (forall b <- left :: b in live) && (spare == null ==> left != [])
      modifies if spare == null then {left[|left| - 1]} else {}
      ensures full == (if spare == null then Taken(spare, left) else spare) && rest == Left(spare, left)
      ensures Sound() && Holding() == Cleared(old(Holding()), Taken(spare, left))
    {
      hide Flatten;
      if spare == null {
        assert left != [];
        full, rest := left[|left| - 1], left[..|left| - 1];
        full.Reset();
      } else {
        full, rest := spare, left;
      }
    }

    method RefillBoth(left: seq<FixedBuffer>) returns (first: FixedBuffer, second: FixedBuffer)
      requires Sound() && (forall b <- left :: b in live) && (spare1 == null ==> left != [])
      requires spare2 == null ==> Left(spare1, left) != []
      modifies left
      ensures first == if spare1 == null then Taken(spare1, left) else spare1
      ensures second == if spare2 == null then Taken(spare2, Left(spare1, left)) else spare2
      ensures Sound()
      ensures Holding() == Cleared(Cleared(old(Holding()), Taken(spare1, left)), Taken(spare2, Left(spare1, left)))
    {
      hide Sound, Cleared, Holding;
      var rest;
      first, rest := RefillSpare(spare1, left);
      second, rest := RefillSpare(spare2, rest);
    }

    /** The moves behind the writing loop. */
    method RefillSpares()
      requires Sound() && forall b <- toWrite :: b in live
      requires spare1 == null ==> toWrite != []
      requires spare2 == null ==> Left(spare1, FirstTwo(toWrite)) != []
      modifies `spare1, `spare2, `toWrite, `cursor, `pc, toWrite
      ensures Sound() && Where() == Recycled(old(Where())) && Holding() == AfterRecycle(old(Holding()), old(Where()))
    {
      hide Sound, Cleared, Holding, Taken, Left;
      spare1, spare2 := RefillBoth(FirstTwo(toWrite));
      toWrite, cursor, pc := [], 0, Head;
    }

    /** The spares are filled from the back of the first two buffers: a Recycle step. */
    method RecycleBuffers()
      requires Valid() && pc == Writing && cursor == |toWrite|
      modifies this, toWrite
      ensures Valid() && live == old(live)
      ensures Enabled(old(state), Recycle) && AssertsHold(old(state), Recycle) && state == Next(old(state), Recycle)
    {
      hide Inv, Shows, Matches, Sound, AssertsHold, Enabled, Next, DoRecycle, Refillable, Owners, Unshared, Recycled, AfterRecycle;
      RecycleStep(Where(), Holding(), state);
      RecycleMatches(Where(), Holding(), state);
      RefillSpares();
      state := DoRecycle(state);
    }

    /** What the thread reads and resets outside the lock is no memory that Append writes. */
    lemma ThreadMemoryIsItsOwn()
      requires Valid()
      ensures forall b <- toWrite + [spare1, spare2] :: Memory(b) !! Memory(current) + Memory(next)
    {
      hide Inv, Placed, Owners, Unshared;
      InvParts(state);
      CurrentApart(state);
      if next != null {
        NextApart(state);
      }
      forall b <- toWrite + [spare1, spare2]
        ensures Memory(b) !! Memory(current) + Memory(next)
      {
        assert b != null ==> b in live && b != current && b != next;
      }
    }
  }
}
