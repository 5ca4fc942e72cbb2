/** The double-buffered logger of kernel/log/async_logging.cc as a transition system.

    Producers call Log; the logging thread swaps, trims, writes and recycles.  Each step is one
    critical section or one piece of thread-local work, so a sequence of steps is one
    interleaving.  A buffer is a value that carries its identity, so ownership can be stated;
    the fields accepted, batch and retired record the history and decide nothing. */
module LoggerModel {
  import opened Options

  const LIMIT := 25
  const KEPT := 2

  datatype Buf<T> = Buf(id: T, records: seq<string>)

  /** One call of LogFile::Append: the text of a buffer, or the notice of dropped ones. */
  datatype Line = Chunk(text: string) | Notice(dropped: nat)

  /** The thread before the test of running_, between the test and its swap (where it may sleep
      while Stop is called), after the swap, while writing, and behind the loop. */
  datatype Pc = Head | Tested | Swapped | Writing | Done

  datatype State<T> = State(
    capacity: nat,
    current: Option<Buf<T>>,
    next: Option<Buf<T>>,
    queue: seq<Buf<T>>,
    running: bool,
    pc: Pc,
    spare1: Option<Buf<T>>,
    spare2: Option<Buf<T>>,
    toWrite: seq<Buf<T>>,
    cursor: nat,
    output: seq<Line>,
    accepted: seq<string>,
    batch: seq<Buf<T>>,
    retired: seq<seq<Buf<T>>>)

  datatype Step<T> = Log(record: string, extra: T) | Test | Swap | Trim | Write | Recycle | Stop | Exit

  // ------------------------------------------------------------------- contents

  function Flatten(rs: seq<string>): string {
    if rs == [] then "" else Flatten(rs[..|rs| - 1]) + rs[|rs| - 1]
  }

  function Records<T>(bs: seq<Buf<T>>): seq<string> {
    if bs == [] then [] else Records(bs[..|bs| - 1]) + bs[|bs| - 1].records
  }

  lemma {:induction false} FlattenJoin(a: seq<string>, b: seq<string>)
    ensures Flatten(a + b) == Flatten(a) + Flatten(b)
  {
    if b == [] {
      assert a + b == a && Flatten(b) == "";
    } else {
      hide Flatten;
      var front, last := b[..|b| - 1], b[|b| - 1];
      assert b == front + [last] && a + b == (a + front) + [last];
      FlattenJoin(a, front);
      FlattenSnoc(front, last);
      FlattenSnoc(a + front, last);
    }
  }

  lemma FlattenSnoc(a: seq<string>, r: string)
    ensures Flatten(a + [r]) == Flatten(a) + r
  {
    assert (a + [r])[..|a|] == a;
  }

  lemma {:induction false} RecordsJoin<T>(a: seq<Buf<T>>, b: seq<Buf<T>>)
    ensures Records(a + b) == Records(a) + Records(b)
  {
    if b == [] {
      assert a + b == a;
    } else {
      assert (a + b)[..|a + b| - 1] == a + b[..|b| - 1];
      RecordsJoin(a, b[..|b| - 1]);
    }
  }

  lemma RecordsSnoc<T>(a: seq<Buf<T>>, b: Buf<T>)
    ensures Records(a + [b]) == Records(a) + b.records
  {
    assert (a + [b])[..|a|] == a;
  }

  /** What is kept of a swapped batch: all of it, or its first two buffers. */
  function Kept<T>(batch: seq<Buf<T>>): (kept: seq<Buf<T>>)
    ensures kept <= batch && (batch != [] ==> kept != [])
  {
    if |batch| > LIMIT then batch[..KEPT] else batch
  }

  function Preamble<T>(batch: seq<Buf<T>>): seq<Line> {
    if |batch| > LIMIT then [Notice(|batch| - KEPT)] else []
  }

  function Chunks<T>(bs: seq<Buf<T>>): seq<Line> {
    if bs == [] then [] else Chunks(bs[..|bs| - 1]) + [Chunk(Flatten(bs[|bs| - 1].records))]
  }

  /** Everything a finished batch leaves in the log file. */
  function Printed<T>(batch: seq<Buf<T>>): seq<Line> {
    Preamble(batch) + Chunks(Kept(batch))
  }

  function AllPrinted<T>(batches: seq<seq<Buf<T>>>): seq<Line> {
    if batches == [] then [] else AllPrinted(batches[..|batches| - 1]) + Printed(batches[|batches| - 1])
  }

  function Retired<T>(batches: seq<seq<Buf<T>>>): seq<string> {
    if batches == [] then [] else Retired(batches[..|batches| - 1]) + Records(batches[|batches| - 1])
  }

  // ---------------------------------------------------------------------- steps

  function Init<T>(capacity: nat, a: T, b: T, c: T, d: T): State<T> {
    State(capacity, Some(Buf(a, [])), Some(Buf(b, [])), [], true, Head, Some(Buf(c, [])), Some(Buf(d, [])),
          [], 0, [], [], [], [])
  }

  /** FixedBuffer::append: a record that would fill the buffer completely is left out. */
  function Grown(records: seq<string>, capacity: nat, record: string): seq<string> {
    if capacity > |Flatten(records)| + |record| then records + [record] else records
  }

  function Appended<T>(b: Buf<T>, capacity: nat, record: string): Buf<T> {
    Buf(b.id, Grown(b.records, capacity, record))
  }

  predicate Fits<T>(s: State<T>, record: string) {
    s.current.Some? && s.capacity > |Flatten(s.current.value.records)| + |record|
  }

  function Accept<T>(s: State<T>, record: string): seq<string> {
    if s.capacity > |record| then s.accepted + [record] else s.accepted
  }

  /** The buffer that takes over from a full one. */
  function Successor<T>(s: State<T>, extra: T): Buf<T> {
    if s.next.Some? then s.next.value else Buf(extra, [])
  }

  function LogHere<T>(s: State<T>, record: string): State<T>
    requires s.current.Some?
  {
    s.(current := Some(Appended(s.current.value, s.capacity, record)), accepted := Accept(s, record))
  }

  function LogBehind<T>(s: State<T>, record: string, extra: T): State<T>
    requires s.current.Some?
  {
    s.(queue := s.queue + [s.current.value], next := None, accepted := Accept(s, record),
       current := Some(Appended(Successor(s, extra), s.capacity, record)))
  }

  /** AsyncLogging::Append */
  function DoLog<T>(s: State<T>, record: string, extra: T): State<T>
    requires s.current.Some?
  {
    if Fits(s, record) then LogHere(s, record) else LogBehind(s, record, extra)
  }

  /** The critical section of the logging thread. */
  function DoSwap<T>(s: State<T>): State<T>
    requires s.current.Some?
  {
    var batch := s.queue + [s.current.value];
    s.(current := s.spare1, spare1 := None, queue := [], toWrite := batch, batch := batch, cursor := 0, pc := Swapped,
       next := if s.next.None? then s.spare2 else s.next,
       spare2 := if s.next.None? then None else s.spare2)
  }

  function DoTrim<T>(s: State<T>): State<T> {
    s.(toWrite := Kept(s.toWrite), output := s.output + Preamble(s.toWrite), pc := Writing)
  }

  function DoWrite<T>(s: State<T>): State<T>
    requires s.cursor < |s.toWrite|
  {
    s.(output := s.output + [Chunk(Flatten(s.toWrite[s.cursor].records))], cursor := s.cursor + 1)
  }

  /** A missing spare is taken from the back and reset. */
  function Refill<T>(spare: Option<Buf<T>>, left: seq<Buf<T>>): Option<Buf<T>>
    requires spare.None? ==> left != []
  {
    if spare.Some? then spare else Some(Buf(left[|left| - 1].id, []))
  }

  function Rest<T>(spare: Option<Buf<T>>, left: seq<Buf<T>>): seq<Buf<T>>
    requires spare.None? ==> left != []
  {
    if spare.Some? then left else left[..|left| - 1]
  }

  /** Refill the spare slots from the back of the first two written buffers. */
  function DoRecycle<T>(s: State<T>): State<T>
    requires Refillable(s)
  {
    var left := if |s.toWrite| > KEPT then s.toWrite[..KEPT] else s.toWrite;
    s.(spare1 := Refill(s.spare1, left), spare2 := Refill(s.spare2, Rest(s.spare1, left)),
       toWrite := [], cursor := 0, pc := Head, batch := [], retired := s.retired + [s.batch])
  }

  predicate Refillable<T>(s: State<T>) {
    && (s.spare1.None? ==> |s.toWrite| > 0)
    && (s.spare2.None? ==> |s.toWrite| > if s.spare1.None? then 1 else 0)
  }

  /** Which steps the program counters allow. */
  predicate Enabled<T(==)>(s: State<T>, step: Step<T>) {
    match step
    case Log(record, extra) => Fits(s, record) || s.next.Some? || extra !in Owners(s)
    case Test => s.pc == Head && s.running
    case Swap => s.pc == Tested
    case Trim => s.pc == Swapped
    case Write => s.pc == Writing && s.cursor < |s.toWrite|
    case Recycle => s.pc == Writing && s.cursor == |s.toWrite|
    case Stop => true
    case Exit => s.pc == Head && !s.running
  }

  /** The assertions at the head of the loop. */
  predicate SparesReady<T(==)>(s: State<T>) {
    && s.spare1.Some? && s.spare1.value.records == [] && s.spare2.Some? && s.spare2.value.records == []
    && s.toWrite == []
  }

  /** Every assertion on the way of a step holds and no absent buffer is used. */
  predicate AssertsHold<T(==)>(s: State<T>, step: Step<T>) {
    match step
    case Log(_, _) => s.current.Some?
    case Test => SparesReady(s)
    case Swap => SparesReady(s) && s.current.Some? && DoSwap(s).toWrite != []
    case Recycle => Refillable(s)
    case _ => true
  }

  function Next<T(==)>(s: State<T>, step: Step<T>): State<T>
    requires Enabled(s, step) && AssertsHold(s, step)
  {
    match step
    case Log(record, extra) => DoLog(s, record, extra)
    case Test => s.(pc := Tested)
    case Swap => DoSwap(s)
    case Trim => DoTrim(s)
    case Write => DoWrite(s)
    case Recycle => DoRecycle(s)
    case Stop => s.(running := false)
    case Exit => s.(pc := Done)
  }

  // ------------------------------------------------------------------ ownership

  function Ids<T>(bs: seq<Buf<T>>): multiset<T> {
    if bs == [] then multiset{} else Ids(bs[..|bs| - 1]) + multiset{bs[|bs| - 1].id}
  }

  function Id<T>(b: Option<Buf<T>>): multiset<T> {
    if b.Some? then multiset{b.value.id} else multiset{}
  }

  /** Every buffer, once for each place that holds it. */
  function Owners<T>(s: State<T>): multiset<T> {
    Id(s.current) + Id(s.next) + Ids(s.queue) + Id(s.spare1) + Id(s.spare2) + Ids(s.toWrite)
  }

  ghost predicate Unshared<T>(owners: multiset<T>) {
    forall id :: id in owners ==> owners[id] == 1
  }

  lemma IdsSnoc<T>(bs: seq<Buf<T>>, b: Buf<T>)
    ensures Ids(bs + [b]) == Ids(bs) + multiset{b.id}
  {
    assert (bs + [b])[..|bs|] == bs;
  }

  lemma {:induction false} IdsPrefix<T>(bs: seq<Buf<T>>, n: nat)
    requires n <= |bs|
    ensures Ids(bs[..n]) <= Ids(bs)
  {
    if n < |bs| {
      IdsPrefix(bs[..|bs| - 1], n);
      assert bs[..|bs| - 1][..n] == bs[..n];
    } else {
      assert bs[..n] == bs;
    }
  }

  // ------------------------------------------------------------------ invariant

  predicate Blank<T>(b: Option<Buf<T>>) {
    b.Some? ==> b.value.records == []
  }

  /** Which buffers are where. */
  predicate Placed<T(==)>(s: State<T>) {
    && s.current.Some?
    && (s.next.None? ==> s.queue != [])
    && Blank(s.next) && Blank(s.spare1) && Blank(s.spare2)
    && match s.pc
       case Head => s.spare1.Some? && s.spare2.Some? && s.toWrite == [] && s.batch == []
       case Tested => s.spare1.Some? && s.spare2.Some? && s.toWrite == [] && s.batch == []
       case Done => s.spare1.Some? && s.spare2.Some? && s.toWrite == [] && s.batch == []
       case Swapped => s.spare1.None? && s.toWrite == s.batch && s.cursor == 0 && |s.batch| >= if s.spare2.None? then 2 else 1
       case Writing => s.spare1.None? && s.toWrite == Kept(s.batch) && s.cursor <= |s.toWrite| && |s.toWrite| >= if s.spare2.None? then 2 else 1
  }

  /** Every accepted record is in exactly one place, in lock order. */
  predicate Conserved<T>(s: State<T>)
    requires s.current.Some?
  {
    s.accepted == Retired(s.retired) + Records(s.batch) + Records(s.queue) + s.current.value.records
  }

  /** What the batch in transit has left in the log file so far. */
  function InProgress<T>(s: State<T>): seq<Line> {
    if s.pc == Writing && s.cursor <= |s.toWrite| then Preamble(s.batch) + Chunks(s.toWrite[..s.cursor]) else []
  }

  predicate Accounted<T(==)>(s: State<T>) {
    s.output == AllPrinted(s.retired) + InProgress(s)
  }

  ghost predicate Inv<T>(s: State<T>) {
    Placed(s) && Unshared(Owners(s)) && Conserved(s) && Accounted(s)
  }

  lemma AssertsAlwaysHold<T>(s: State<T>, step: Step<T>)
    requires Placed(s) && Enabled(s, step)
    ensures AssertsHold(s, step)
  {
  }

  lemma LogPlaced<T>(s: State<T>, record: string, extra: T)
    requires Placed(s)
    ensures Placed(LogHere(s, record)) && Placed(LogBehind(s, record, extra))
  {
    hide Flatten, Appended, Accept, Successor, Kept;
  }

  lemma SwapPlaced<T>(s: State<T>)
    requires Placed(s) && s.pc == Tested
    ensures Placed(DoSwap(s))
  {
    hide Kept;
  }

  lemma RecyclePlaced<T>(s: State<T>)
    requires Placed(s) && s.pc == Writing && Refillable(s)
    ensures Placed(DoRecycle(s))
  {
    hide Kept;
  }

  lemma StepPlaced<T>(s: State<T>, step: Step<T>)
    requires Placed(s) && Enabled(s, step) && AssertsHold(s, step)
    ensures Placed(Next(s, step))
  {
    hide LogHere, LogBehind, DoSwap, DoRecycle, Owners, Flatten;
    match step
    case Log(record, extra) => LogPlaced(s, record, extra); hide Placed;
    case Swap => SwapPlaced(s); hide Placed;
    case Recycle => RecyclePlaced(s); hide Placed;
    case _ =>
  }

  lemma LogOwners<T>(s: State<T>, record: string, extra: T)
    requires s.current.Some?
    ensures Owners(LogHere(s, record)) == Owners(s)
    ensures s.next.Some? ==> Owners(LogBehind(s, record, extra)) == Owners(s)
    ensures s.next.None? ==> Owners(LogBehind(s, record, extra)) == Owners(s) + multiset{extra}
  {
    hide Flatten, Ids;
    IdsSnoc(s.queue, s.current.value);
    assert Appended(s.current.value, s.capacity, record).id == s.current.value.id;
    assert Appended(Successor(s, extra), s.capacity, record).id == Successor(s, extra).id;
  }

  lemma SwapOwners<T>(s: State<T>)
    requires s.current.Some? && s.toWrite == []
    ensures Owners(DoSwap(s)) == Owners(s)
  {
    IdsSnoc(s.queue, s.current.value);
    assert Ids<T>([]) == multiset{};
  }

  lemma TrimOwners<T>(s: State<T>)
    ensures Owners(DoTrim(s)) <= Owners(s)
  {
    if |s.toWrite| > LIMIT {
      IdsPrefix(s.toWrite, KEPT);
    }
  }

  lemma RefillOwners<T>(spare: Option<Buf<T>>, left: seq<Buf<T>>)
    requires spare.None? ==> left != []
    ensures Id(Refill(spare, left)) + Ids(Rest(spare, left)) == Id(spare) + Ids(left)
  {
  }

  lemma RefillBoth<T>(rest: multiset<T>, s1: multiset<T>, s2: multiset<T>, all: multiset<T>,
                      left: multiset<T>, r1: multiset<T>, x: multiset<T>, r2: multiset<T>, y: multiset<T>)
    requires r1 + x == s1 + left && r2 + y == s2 + x && left <= all
    ensures rest + r1 + r2 <= rest + s1 + s2 + all
  {
    forall id | id in rest + r1 + r2
      ensures (rest + r1 + r2)[id] <= (rest + s1 + s2 + all)[id]
    {
      assert (r1 + x)[id] == (s1 + left)[id] && (r2 + y)[id] == (s2 + x)[id] && left[id] <= all[id];
    }
  }

  lemma RecycleOwners<T>(s: State<T>)
    requires Refillable(s)
    ensures Owners(DoRecycle(s)) <= Owners(s)
  {
    hide Id, Ids, Refill, Rest;
    var left := if |s.toWrite| > KEPT then s.toWrite[..KEPT] else s.toWrite;
    IdsPrefix(s.toWrite, |left|);
    assert s.toWrite[..|left|] == left;
    RefillOwners(s.spare1, left);
    RestLength(s.spare1, left);
    var x := Rest(s.spare1, left);
    RefillOwners(s.spare2, x);
    NoIds<T>();
    var rest := Id(s.current) + Id(s.next) + Ids(s.queue);
    RefillBoth(rest, Id(s.spare1), Id(s.spare2), Ids(s.toWrite),
               Ids(left), Id(Refill(s.spare1, left)), Ids(x), Id(Refill(s.spare2, x)), Ids(Rest(s.spare2, x)));
    assert Owners(s) == rest + Id(s.spare1) + Id(s.spare2) + Ids(s.toWrite);
    assert Owners(DoRecycle(s)) == rest + Id(Refill(s.spare1, left)) + Id(Refill(s.spare2, x)) + Ids([]);
  }

  lemma RestLength<T>(spare: Option<Buf<T>>, left: seq<Buf<T>>)
    requires spare.None? ==> left != []
    ensures |Rest(spare, left)| == |left| - if spare.None? then 1 else 0
  {
  }

  lemma NoIds<T>()
    ensures Ids<T>([]) == multiset{}
  {
  }

  lemma UnsharedPart<T>(a: multiset<T>, b: multiset<T>)
    requires Unshared(b) && a <= b
    ensures Unshared(a)
  {
  }

  lemma UnsharedMore<T>(b: multiset<T>, x: T)
    requires Unshared(b) && x !in b
    ensures Unshared(b + multiset{x})
  {
  }

  lemma SameOwners<T>(s: State<T>)
    ensures Owners(s.(running := false)) == Owners(s)
    ensures Owners(s.(pc := Tested)) == Owners(s) && Owners(s.(pc := Done)) == Owners(s)
    ensures s.cursor < |s.toWrite| ==> Owners(DoWrite(s)) == Owners(s)
  {
    hide Ids, Flatten;
  }

  lemma StepUnshared<T>(s: State<T>, step: Step<T>)
    requires Placed(s) && Unshared(Owners(s)) && Enabled(s, step) && AssertsHold(s, step)
    ensures Unshared(Owners(Next(s, step)))
  {
    hide LogHere, LogBehind, DoTrim, DoRecycle, DoSwap, DoWrite, Fits, Owners, Unshared;
    SameOwners(s);
    match step {
      case Log(record, extra) => LogOwners(s, record, extra);
                                 if !Fits(s, record) && s.next.None? {
                                   UnsharedMore(Owners(s), extra);
                                 }
      case Swap => SwapOwners(s);
      case Trim => TrimOwners(s);
                   UnsharedPart(Owners(Next(s, step)), Owners(s));
      case Recycle => RecycleOwners(s);
                      UnsharedPart(Owners(Next(s, step)), Owners(s));
      case _ =>
    }
  }

  lemma Regroup<X>(a: seq<X>, b: seq<X>, c: seq<X>, d: seq<X>, e: seq<X>)
    ensures a + b + c + d + e == a + b + c + (d + e) == a + b + (c + d) + e
  {
  }

  lemma LogConserves<T>(s: State<T>, record: string, extra: T)
    requires Placed(s) && Conserved(s)
    ensures DoLog(s, record, extra).current.Some? && Conserved(DoLog(s, record, extra))
  {
    RecordsSnoc(s.queue, s.current.value);
    NewBuffer(s, record, extra);
    hide Flatten, Records, Placed, Retired, Successor, Appended;
    var now := s.current.value.records;
    var added := if s.capacity > |record| then [record] else [];
    Regroup(Retired(s.retired), Records(s.batch), Records(s.queue), now, added);
    assert Accept(s, record) == s.accepted + added;
    if Fits(s, record) {
      assert LogHere(s, record).current.value.records == now + [record] by { FitsHere(s, record); }
    } else {
      assert LogBehind(s, record, extra).current.value.records == added;
    }
  }

  lemma FitsHere<T>(s: State<T>, record: string)
    requires Fits(s, record)
    ensures Appended(s.current.value, s.capacity, record).records == s.current.value.records + [record]
  {
  }

  lemma NewBuffer<T>(s: State<T>, record: string, extra: T)
    requires Placed(s)
    ensures Appended(Successor(s, extra), s.capacity, record).records == if s.capacity > |record| then [record] else []
  {
    assert Successor(s, extra).records == [];
    assert Flatten([]) == "";
  }

  lemma SwapConserves<T>(s: State<T>)
    requires Placed(s) && Conserved(s) && AssertsHold(s, Swap) && s.pc == Tested
    ensures DoSwap(s).current.Some? && Conserved(DoSwap(s))
  {
    RecordsSnoc(s.queue, s.current.value);
    assert Records<T>([]) == [];
    hide Records;
  }

  lemma RecycleConserves<T>(s: State<T>)
    requires s.current.Some? && Refillable(s) && Conserved(s)
    ensures DoRecycle(s).current == s.current && Conserved(DoRecycle(s))
  {
    assert (s.retired + [s.batch])[..|s.retired|] == s.retired;
    assert Retired(s.retired + [s.batch]) == Retired(s.retired) + Records(s.batch);
    assert Records<T>([]) == [];
    hide Retired, Records;
  }

  lemma StepConserved<T>(s: State<T>, step: Step<T>)
    requires Placed(s) && Conserved(s) && Enabled(s, step) && AssertsHold(s, step)
    ensures Next(s, step).current.Some? && Conserved(Next(s, step))
  {
    hide Owners, DoLog, DoSwap, DoRecycle, Refillable, Flatten, Records;
    match step
    case Log(record, extra) => LogConserves(s, record, extra); hide Conserved;
    case Swap => SwapConserves(s); hide Conserved;
    case Recycle => RecycleConserves(s); hide Conserved;
    case _ =>
  }

  lemma WriteAccounts<T>(s: State<T>)
    requires s.pc == Writing && s.cursor < |s.toWrite| && Accounted(s)
    ensures Accounted(DoWrite(s))
  {
    hide Flatten, AllPrinted, Chunks, Preamble;
    ChunksMore(s.toWrite, s.cursor);
    var next := [Chunk(Flatten(s.toWrite[s.cursor].records))];
    Associate(AllPrinted(s.retired), Preamble(s.batch), Chunks(s.toWrite[..s.cursor]), next);
  }

  lemma ChunksMore<T>(bs: seq<Buf<T>>, n: nat)
    requires n < |bs|
    ensures Chunks(bs[..n + 1]) == Chunks(bs[..n]) + [Chunk(Flatten(bs[n].records))]
  {
    hide Flatten;
    assert bs[..n + 1][..n] == bs[..n];
  }

  lemma Associate<X>(a: seq<X>, b: seq<X>, c: seq<X>, d: seq<X>)
    ensures a + (b + c) + d == a + (b + (c + d))
  {
  }

  lemma RecycleAccounts<T>(s: State<T>)
    requires s.pc == Writing && s.toWrite == Kept(s.batch) && s.cursor == |s.toWrite| && Refillable(s) && Accounted(s)
    ensures Accounted(DoRecycle(s))
  {
    hide Flatten, Chunks, Preamble;
    assert s.toWrite[..s.cursor] == s.toWrite;
    assert (s.retired + [s.batch])[..|s.retired|] == s.retired;
  }

  lemma TrimAccounts<T>(s: State<T>)
    requires s.pc == Swapped && s.toWrite == s.batch && s.cursor == 0 && Accounted(s)
    ensures Accounted(DoTrim(s))
  {
    hide Flatten, AllPrinted, Preamble;
    assert DoTrim(s).toWrite[..0] == [];
    assert Chunks<T>([]) == [];
  }

  lemma StepAccounted<T>(s: State<T>, step: Step<T>)
    requires Placed(s) && Accounted(s) && Enabled(s, step) && AssertsHold(s, step)
    ensures Accounted(Next(s, step))
  {
    hide Owners, Refillable, DoTrim, DoRecycle, DoWrite, AllPrinted, Preamble, Chunks;
    match step
    case Trim => TrimAccounts(s); hide Accounted;
    case Write => WriteAccounts(s); hide Accounted;
    case Recycle => RecycleAccounts(s); hide Accounted;
    case _ =>
  }

  // ----------------------------------------------------------------------- runs

  /** Every step is one the program counters allow; records and interleaving are free. */
  ghost predicate Allowed<T>(s: State<T>, steps: seq<Step<T>>)
    decreases |steps|
  {
    steps == [] ||
    (Enabled(s, steps[0]) && (AssertsHold(s, steps[0]) ==> Allowed(Next(s, steps[0]), steps[1..])))
  }

  /** No step of the run fails an assertion. */
  ghost predicate NeverFails<T>(s: State<T>, steps: seq<Step<T>>)
    decreases |steps|
  {
    steps == [] ||
    (Enabled(s, steps[0]) && AssertsHold(s, steps[0]) && NeverFails(Next(s, steps[0]), steps[1..]))
  }

  function Run<T(==)>(s: State<T>, steps: seq<Step<T>>): State<T>
    requires NeverFails(s, steps)
    decreases |steps|
  {
    if steps == [] then s else Run(Next(s, steps[0]), steps[1..])
  }

  /** The records smaller than a buffer, in the order their calls took the lock. */
  function Fitting<T>(capacity: nat, steps: seq<Step<T>>): seq<string> {
    if steps == [] then []
    else
      (if steps[0].Log? && |steps[0].record| < capacity then [steps[0].record] else []) + Fitting(capacity, steps[1..])
  }

  lemma {:induction false} RunInv<T>(s: State<T>, steps: seq<Step<T>>)
    requires Inv(s) && Allowed(s, steps)
    ensures NeverFails(s, steps) && Inv(Run(s, steps))
    ensures Run(s, steps).capacity == s.capacity
    ensures Run(s, steps).accepted == s.accepted + Fitting(s.capacity, steps)
    decreases |steps|
  {
    hide Inv, Next, Enabled, AssertsHold;
    if steps != [] {
      StepInv(s, steps[0]);
      StepAccepts(s, steps[0]);
      RunInv(Next(s, steps[0]), steps[1..]);
    }
  }

  lemma StepInv<T>(s: State<T>, step: Step<T>)
    requires Inv(s) && Enabled(s, step)
    ensures AssertsHold(s, step) && Inv(Next(s, step))
  {
    hide Placed, Conserved, Accounted, Owners, Next, Unshared, Enabled, AssertsHold;
    AssertsAlwaysHold(s, step);
    StepPlaced(s, step);
    StepUnshared(s, step);
    StepConserved(s, step);
    StepAccounted(s, step);
  }

  lemma StepAccepts<T>(s: State<T>, step: Step<T>)
    requires Enabled(s, step) && AssertsHold(s, step)
    ensures Next(s, step).capacity == s.capacity
    ensures Next(s, step).accepted == s.accepted + if step.Log? && |step.record| < s.capacity then [step.record] else []
  {
    hide Appended, Successor, Kept, Preamble, Flatten, Refill, Rest, Owners, Fits, Refillable;
  }

  lemma InitInv<T>(capacity: nat, a: T, b: T, c: T, d: T)
    requires a != b && a != c && a != d && b != c && b != d && c != d
    ensures Inv(Init(capacity, a, b, c, d))
  {
    assert Owners(Init(capacity, a, b, c, d)) == multiset{a, b, c, d};
  }

  /** The main theorem, for every interleaving: no assertion fails; the records smaller than a
      buffer are, in lock order, those of the finished batches, of the batch in transit, of the
      queue and of the current buffer; the log file holds of each finished batch exactly what
      Printed says, so whole buffers only are dropped, only from batches of more than 25, and
      then all but the first two; and no buffer has two owners. */
  lemma EveryRunConservesRecords<T>(capacity: nat, a: T, b: T, c: T, d: T, steps: seq<Step<T>>)
    requires a != b && a != c && a != d && b != c && b != d && c != d
    requires Allowed(Init(capacity, a, b, c, d), steps)
    ensures NeverFails(Init(capacity, a, b, c, d), steps)
    ensures var s := Run(Init(capacity, a, b, c, d), steps);
            && s.current.Some?
            && Fitting(capacity, steps) == Retired(s.retired) + Records(s.batch) + Records(s.queue) + s.current.value.records
            && s.output == AllPrinted(s.retired) + InProgress(s)
            && Unshared(Owners(s))
            && (s.next.None? ==> s.queue != [])
            && (s.pc == Head || s.pc == Tested ==> s.spare1.Some? && s.spare2.Some? && Blank(s.spare1) && Blank(s.spare2))
  {
    hide Run, Allowed, NeverFails, Fitting;
    InitInv(capacity, a, b, c, d);
    RunInv(Init(capacity, a, b, c, d), steps);
  }

  // ------------------------------------------------------------ what gets lost

  function Written(lines: seq<Line>): string {
    if lines == [] then ""
    else
      Written(lines[..|lines| - 1]) + match lines[|lines| - 1] case Chunk(text) => text case Notice(_) => ""
  }

  lemma {:induction false} WrittenJoin(a: seq<Line>, b: seq<Line>)
    ensures Written(a + b) == Written(a) + Written(b)
  {
    if b == [] {
      assert a + b == a;
    } else {
      assert (a + b)[..|a + b| - 1] == a + b[..|b| - 1];
      WrittenJoin(a, b[..|b| - 1]);
    }
  }

  lemma {:induction false} ChunksText<T>(bs: seq<Buf<T>>)
    ensures Written(Chunks(bs)) == Flatten(Records(bs))
  {
    if bs != [] {
      var front, last := bs[..|bs| - 1], bs[|bs| - 1];
      ChunksText(front);
      FlattenJoin(Records(front), last.records);
      assert (Chunks(front) + [Chunk(Flatten(last.records))])[..|Chunks(front)|] == Chunks(front);
    }
  }

  /** What a finished batch does not leave in the log file. */
  function Lost<T>(batch: seq<Buf<T>>): seq<string> {
    Records(batch[|Kept(batch)|..])
  }

  lemma NoticeIsNoText<T>(batch: seq<Buf<T>>)
    ensures Written(Preamble(batch)) == ""
  {
  }

  lemma TextSplit<T>(bs: seq<Buf<T>>, n: nat)
    requires n <= |bs|
    ensures Flatten(Records(bs)) == Flatten(Records(bs[..n])) + Flatten(Records(bs[n..]))
  {
    hide Flatten, Records;
    assert bs == bs[..n] + bs[n..];
    RecordsJoin(bs[..n], bs[n..]);
    FlattenJoin(Records(bs[..n]), Records(bs[n..]));
  }

  lemma PrintedText<T>(batch: seq<Buf<T>>)
    ensures Flatten(Records(batch)) == Written(Printed(batch)) + Flatten(Lost(batch))
  {
    hide Flatten, Records, Chunks, Preamble, Written, Kept;
    var n := |Kept(batch)|;
    assert Kept(batch) == batch[..n];
    ChunksText(batch[..n]);
    WrittenJoin(Preamble(batch), Chunks(batch[..n]));
    NoticeIsNoText(batch);
    assert "" + Written(Chunks(batch[..n])) == Written(Chunks(batch[..n]));
    TextSplit(batch, n);
  }

  function LostBytes<T>(batches: seq<seq<Buf<T>>>): nat {
    if batches == [] then 0 else LostBytes(batches[..|batches| - 1]) + |Flatten(Lost(batches[|batches| - 1]))|
  }

  /** The bytes of the finished batches are in the log file or were in dropped buffers, and
      the log file is exactly their text if and only if the dropped buffers were empty. */
  lemma {:induction false} LossIsExactlyTheDroppedBuffers<T>(batches: seq<seq<Buf<T>>>)
    ensures |Flatten(Retired(batches))| == |Written(AllPrinted(batches))| + LostBytes(batches)
    ensures Written(AllPrinted(batches)) == Flatten(Retired(batches)) <==> LostBytes(batches) == 0
  {
    if batches != [] {
      var front, last := batches[..|batches| - 1], batches[|batches| - 1];
      LossIsExactlyTheDroppedBuffers(front);
      PrintedText(last);
      WrittenJoin(AllPrinted(front), Printed(last));
      FlattenJoin(Retired(front), Records(last));
    }
  }

  /** Nothing is lost from batches of at most 25 buffers. */
  lemma {:induction false} SmallBatchesAreWritten<T>(batches: seq<seq<Buf<T>>>)
    requires forall i :: 0 <= i < |batches| ==> |batches[i]| <= LIMIT
    ensures LostBytes(batches) == 0
  {
    if batches != [] {
      SmallBatchesAreWritten(batches[..|batches| - 1]);
      assert Lost(batches[|batches| - 1]) == [];
    }
  }

  // --------------------------------------------------- what the file says, line by line

  /** The lines of one batch: a buffer each for up to 25; of more, a notice that says how many
      are missing, and the first two. */
  function Report<T>(batch: seq<Buf<T>>): seq<Line> {
    if |batch| <= 25 then seq(|batch|, i requires 0 <= i < |batch| => Chunk(Flatten(batch[i].records)))
    else [Notice(|batch| - 2), Chunk(Flatten(batch[0].records)), Chunk(Flatten(batch[1].records))]
  }

  function Reports<T>(batches: seq<seq<Buf<T>>>): seq<Line> {
    if batches == [] then [] else Reports(batches[..|batches| - 1]) + Report(batches[|batches| - 1])
  }

  lemma {:induction false} ChunksAt<T>(bs: seq<Buf<T>>)
    ensures |Chunks(bs)| == |bs|
    ensures forall i :: 0 <= i < |bs| ==> Chunks(bs)[i] == Chunk(Flatten(bs[i].records))
  {
    hide Flatten;
    if bs != [] {
      ChunksAt(bs[..|bs| - 1]);
    }
  }

  lemma PrintedIsReport<T>(batch: seq<Buf<T>>)
    ensures Printed(batch) == Report(batch)
  {
    hide Flatten, Chunks;
    ChunksAt(Kept(batch));
  }

  lemma {:induction false} AllPrintedIsReports<T>(batches: seq<seq<Buf<T>>>)
    ensures AllPrinted(batches) == Reports(batches)
  {
    hide Printed, Report;
    if batches != [] {
      AllPrintedIsReports(batches[..|batches| - 1]);
      PrintedIsReport(batches[|batches| - 1]);
    }
  }

  lemma {:induction false} ChunksPrefix<T>(bs: seq<Buf<T>>, n: nat)
    requires n <= |bs|
    ensures Chunks(bs[..n]) <= Chunks(bs)
  {
    hide Flatten;
    ChunksAt(bs);
    ChunksAt(bs[..n]);
  }

  lemma InProgressIsBegun<T>(s: State<T>)
    requires Placed(s)
    ensures InProgress(s) <= Report(s.batch)
    ensures |InProgress(s)| == if s.pc == Writing then s.cursor + (if |s.batch| > 25 then 1 else 0) else 0
  {
    hide Report, Chunks;
    PrintedIsReport(s.batch);
    if s.pc == Writing {
      ChunksPrefix(s.toWrite, s.cursor);
      ChunksAt(s.toWrite[..s.cursor]);
    }
  }

  /** At every point of every interleaving the file is the report of each finished batch, and of
      the batch in transit as many lines of its report as have been written. */
  lemma FileIsTheReports<T>(capacity: nat, a: T, b: T, c: T, d: T, steps: seq<Step<T>>)
    requires a != b && a != c && a != d && b != c && b != d && c != d
    requires Allowed(Init(capacity, a, b, c, d), steps)
    ensures NeverFails(Init(capacity, a, b, c, d), steps)
    ensures var s := Run(Init(capacity, a, b, c, d), steps);
            var begun := if s.pc == Writing then s.cursor + (if |s.batch| > 25 then 1 else 0) else 0;
            begun <= |Report(s.batch)| && s.output == Reports(s.retired) + Report(s.batch)[..begun]
  {
    hide Run, Allowed, NeverFails, Fitting, Report, AllPrinted, InProgress, Owners, Conserved;
    InitInv(capacity, a, b, c, d);
    RunInv(Init(capacity, a, b, c, d), steps);
    var s := Run(Init(capacity, a, b, c, d), steps);
    AllPrintedIsReports(s.retired);
    InProgressIsBegun(s);
  }

  /** The text of a batch of up to 25 buffers is all of its records; that of a longer one is those
      of its first two buffers. */
  lemma ReportText<T>(batch: seq<Buf<T>>)
    ensures |batch| <= 25 ==> Written(Report(batch)) == Flatten(Records(batch))
    ensures |batch| > 25 ==> Written(Report(batch)) == Flatten(batch[0].records) + Flatten(batch[1].records)
  {
    hide Flatten, Records, Written, Report, Kept, Preamble, Chunks;
    PrintedIsReport(batch);
    PrintedText(batch);
    KeptLiterally(batch);
    if |batch| <= 25 {
      NoRecords<T>();
    } else {
      ReportOfMany(batch);
      WrittenThree(|batch| - 2, Flatten(batch[0].records), Flatten(batch[1].records));
    }
  }

  lemma ReportOfMany<T>(batch: seq<Buf<T>>)
    requires |batch| > 25
    ensures Report(batch) == [Notice(|batch| - 2), Chunk(Flatten(batch[0].records)), Chunk(Flatten(batch[1].records))]
  {
  }

  lemma KeptLiterally<T>(batch: seq<Buf<T>>)
    ensures |Kept(batch)| == if |batch| <= 25 then |batch| else 2
  {
  }

  lemma NoRecords<T>()
    ensures Records<T>([]) == [] && Flatten([]) == ""
  {
  }

  lemma WrittenThree(n: nat, x: string, y: string)
    ensures Written([Notice(n), Chunk(x), Chunk(y)]) == x + y
  {
    var l := [Notice(n), Chunk(x), Chunk(y)];
    assert l[..2] == [Notice(n), Chunk(x)] && l[..2][..1] == [Notice(n)] && [Notice(n)][..0] == [];
    assert Written([Notice(n)]) == "";
    assert Written([Notice(n), Chunk(x)]) == "" + x;
  }

  lemma DoneStep<T>(s: State<T>, step: Step<T>)
    requires s.pc == Done && Enabled(s, step) && AssertsHold(s, step)
    ensures var t := Next(s, step); t.pc == Done && t.output == s.output && t.retired == s.retired
  {
    hide Fits, Appended, Successor, Accept, Owners;
  }

  /** Once the thread has left its loop the log file no longer changes, whatever is appended. */
  lemma {:induction false} ExitIsFinal<T>(s: State<T>, steps: seq<Step<T>>)
    requires s.pc == Done && NeverFails(s, steps)
    ensures Run(s, steps).output == s.output && Run(s, steps).retired == s.retired
    decreases |steps|
  {
    hide Next, Enabled, AssertsHold;
    if steps != [] {
      DoneStep(s, steps[0]);
      ExitIsFinal(Next(s, steps[0]), steps[1..]);
    }
  }

  lemma RunCons<T>(s: State<T>, step: Step<T>, rest: seq<Step<T>>)
    requires Enabled(s, step) && AssertsHold(s, step)
    requires Allowed(Next(s, step), rest) && NeverFails(Next(s, step), rest)
    ensures Allowed(s, [step] + rest) && NeverFails(s, [step] + rest)
    ensures Run(s, [step] + rest) == Run(Next(s, step), rest)
  {
    hide Next, Enabled, AssertsHold;
    assert ([step] + rest)[1..] == rest;
  }

  lemma RunNone<T>(s: State<T>)
    ensures Allowed(s, []) && NeverFails(s, []) && Run(s, []) == s
  {
  }

  lemma FirstLog(record: string)
    requires 1 <= |record| < 100
    ensures var s := Init(100, 1, 2, 3, 4);
            && Enabled(s, Log(record, 5)) && AssertsHold(s, Log(record, 5))
            && var t := Next(s, Log(record, 5));
               t.accepted == [record] && t.output == [] && t.pc == Head
  {
    var s := Init(100, 1, 2, 3, 4);
    assert Ids<int>([]) == multiset{};
    assert Owners(s) == multiset{1, 2, 3, 4};
    hide Owners;
    assert Fits(s, record);
  }

  // ---------------------------------------------------------- what Stop drains

  /** At the end of a run whose thread has left the loop, the file holds the text of every
      record smaller than a buffer if and only if no dropped buffer held text and nothing was
      left in the queue and the current buffer. */
  lemma DrainedExactlyWhen<T>(capacity: nat, a: T, b: T, c: T, d: T, steps: seq<Step<T>>)
    requires a != b && a != c && a != d && b != c && b != d && c != d
    requires Allowed(Init(capacity, a, b, c, d), steps)
    ensures NeverFails(Init(capacity, a, b, c, d), steps)
    ensures var s := Run(Init(capacity, a, b, c, d), steps);
            && s.current.Some?
            && (s.pc == Done ==>
                  (Written(s.output) == Flatten(Fitting(capacity, steps)) <==>
                   LostBytes(s.retired) == 0 && Flatten(Records(s.queue) + s.current.value.records) == ""))
  {
    hide Run, Allowed, NeverFails, Fitting, Flatten, Written, Records, LostBytes, AllPrinted, Retired;
    EveryRunConservesRecords(capacity, a, b, c, d, steps);
    DoneIsQuiet(capacity, a, b, c, d, steps);
    var s := Run(Init(capacity, a, b, c, d), steps);
    if s.pc == Done {
      var left := Records(s.queue) + s.current.value.records;
      assert Retired(s.retired) + [] + Records(s.queue) + s.current.value.records == Retired(s.retired) + left;
      assert AllPrinted(s.retired) + [] == AllPrinted(s.retired);
      FlattenJoin(Retired(s.retired), left);
      LossIsExactlyTheDroppedBuffers(s.retired);
    }
  }

  lemma DoneIsQuiet<T>(capacity: nat, a: T, b: T, c: T, d: T, steps: seq<Step<T>>)
    requires a != b && a != c && a != d && b != c && b != d && c != d
    requires Allowed(Init(capacity, a, b, c, d), steps)
    ensures NeverFails(Init(capacity, a, b, c, d), steps)
    ensures var s := Run(Init(capacity, a, b, c, d), steps);
            s.pc == Done ==> Records(s.batch) == [] && InProgress(s) == []
  {
    hide Run, Allowed, NeverFails, Fitting, Owners, Conserved, Accounted;
    InitInv(capacity, a, b, c, d);
    RunInv(Init(capacity, a, b, c, d), steps);
  }

  /** How many records are past the last swap of the logging thread. */
  function Sealed<T>(s: State<T>): nat {
    |Retired(s.retired)| + |Records(s.batch)|
  }

  /** A swap seals every record accepted so far; no other step seals any. */
  lemma SealedStep<T>(s: State<T>, step: Step<T>)
    requires Inv(s) && Enabled(s, step) && AssertsHold(s, step)
    ensures Sealed(s) <= |s.accepted|
    ensures Sealed(Next(s, step)) == if step.Swap? then |s.accepted| else Sealed(s)
  {
    hide Owners, Unshared, Accounted, Fits, Refillable, Flatten, Successor, Appended, Accept, DoRecycle, DoSwap, Records, Retired,
      Kept, Preamble;
    match step
    case Swap => SwapSeals(s);
    case Recycle => RecycleSeals(s);
    case _ =>
  }

  lemma SwapSeals<T>(s: State<T>)
    requires Placed(s) && Conserved(s) && s.pc == Tested
    ensures Sealed(DoSwap(s)) == |s.accepted|
  {
    RecordsSnoc(s.queue, s.current.value);
    assert Records<T>([]) == [];
    hide Records, Retired;
  }

  lemma RecycleSeals<T>(s: State<T>)
    requires Refillable(s)
    ensures Sealed(DoRecycle(s)) == Sealed(s)
  {
    assert (s.retired + [s.batch])[..|s.retired|] == s.retired;
    assert Retired(s.retired + [s.batch]) == Retired(s.retired) + Records(s.batch);
    assert Records<T>([]) == [];
    hide Records, Retired;
  }

  predicate HasSwap<T>(steps: seq<Step<T>>) {
    exists j :: 0 <= j < |steps| && steps[j].Swap?
  }

  lemma {:induction false} SealedRun<T>(s: State<T>, steps: seq<Step<T>>)
    requires Inv(s) && NeverFails(s, steps)
    ensures !HasSwap(steps) ==> Sealed(Run(s, steps)) == Sealed(s)
    ensures HasSwap(steps) ==> Sealed(Run(s, steps)) >= |s.accepted|
    decreases |steps|
  {
    hide Inv, Next, Enabled, AssertsHold, Sealed;
    if steps != [] {
      var t := Next(s, steps[0]);
      SealedStep(s, steps[0]);
      StepInv(s, steps[0]);
      StepAccepts(s, steps[0]);
      SealedRun(t, steps[1..]);
      assert HasSwap(steps) <==> steps[0].Swap? || HasSwap(steps[1..]) by {
        assert steps == [steps[0]] + steps[1..];
        assert forall j :: 0 < j < |steps| ==> steps[j] == steps[1..][j - 1];
      }
      if !HasSwap(steps[1..]) && steps[0].Swap? {
        assert Sealed(Run(t, steps[1..])) == |s.accepted|;
      }
    }
  }

  lemma {:induction false} RunSplit<T>(s: State<T>, steps: seq<Step<T>>, i: nat)
    requires NeverFails(s, steps) && i <= |steps|
    ensures NeverFails(s, steps[..i]) && NeverFails(Run(s, steps[..i]), steps[i..])
    ensures Run(s, steps) == Run(Run(s, steps[..i]), steps[i..])
    decreases i
  {
    hide Next, Enabled, AssertsHold;
    if i == 0 {
      assert steps[0..] == steps;
    } else {
      RunSplit(Next(s, steps[0]), steps[1..], i - 1);
      assert steps[1..][..i - 1] == steps[..i][1..] && steps[1..][i - 1..] == steps[i..];
    }
  }

  /** A record that fits, logged at step i, has left the queue and the current buffer by the
      end, so that it is written or was in a dropped buffer, if and only if a swap follows it:
      also one that comes after Stop, by a thread that had passed its loop test. */
  lemma RecordLeavesIffSwapped<T>(capacity: nat, a: T, b: T, c: T, d: T, steps: seq<Step<T>>, i: nat)
    requires a != b && a != c && a != d && b != c && b != d && c != d
    requires Allowed(Init(capacity, a, b, c, d), steps)
    requires i < |steps| && steps[i].Log? && |steps[i].record| < capacity
    ensures NeverFails(Init(capacity, a, b, c, d), steps)
    ensures var s := Run(Init(capacity, a, b, c, d), steps);
            var at := |Fitting(capacity, steps[..i])|;
            && (at < |Retired(s.retired) + Records(s.batch)| <==> HasSwap(steps[i + 1..]))
            && (HasSwap(steps[i + 1..]) ==> (Retired(s.retired) + Records(s.batch))[at] == steps[i].record)
  {
    hide Inv, Next, Enabled, AssertsHold, Run, Allowed, NeverFails, Fitting, Records, Retired, HasSwap;
    var s0 := Init(capacity, a, b, c, d);
    InitInv(capacity, a, b, c, d);
    RunInv(s0, steps);
    EveryRunConservesRecords(capacity, a, b, c, d, steps);
    SealedBefore(s0, steps, i);
    FittingAt(capacity, steps, i);
  }

  lemma {:induction false} FittingAt<T>(capacity: nat, steps: seq<Step<T>>, i: nat)
    requires i < |steps| && steps[i].Log? && |steps[i].record| < capacity
    ensures var at := |Fitting(capacity, steps[..i])|;
            at < |Fitting(capacity, steps)| && Fitting(capacity, steps)[at] == steps[i].record
    decreases i
  {
    if i > 0 {
      FittingAt(capacity, steps[1..], i - 1);
      assert steps[1..][..i - 1] == steps[..i][1..];
    }
  }

  /** Everything accepted up to a point is sealed at the end iff a swap follows that point. */
  lemma SealedBefore<T>(s0: State<T>, steps: seq<Step<T>>, i: nat)
    requires Inv(s0) && s0.accepted == [] && s0.retired == [] && s0.batch == []
    requires NeverFails(s0, steps) && i < |steps| && steps[i].Log? && |steps[i].record| < s0.capacity
    ensures |Fitting(s0.capacity, steps[..i])| < Sealed(Run(s0, steps)) <==> HasSwap(steps[i + 1..])
  {
    hide Inv, Next, Enabled, AssertsHold, HasSwap, Sealed;
    RunSplit(s0, steps, i + 1);
    RunSplit(s0, steps, i);
    NeverFailsAllowed(s0, steps[..i]);
    RunInv(s0, steps[..i]);
    var s := Run(s0, steps[..i]);
    var rest := steps[i..];
    assert rest[0] == steps[i] && rest[1..] == steps[i + 1..];
    SealedStep(s, rest[0]);
    StepInv(s, rest[0]);
    StepAccepts(s, rest[0]);
    var t := Next(s, rest[0]);
    SealedRun(t, rest[1..]);
    assert Run(s0, steps) == Run(t, rest[1..]);
  }

  lemma {:induction false} NeverFailsAllowed<T>(s: State<T>, steps: seq<Step<T>>)
    requires NeverFails(s, steps)
    ensures Allowed(s, steps)
    decreases |steps|
  {
    hide Next, Enabled, AssertsHold;
    if steps != [] {
      NeverFailsAllowed(Next(s, steps[0]), steps[1..]);
    }
  }

  /** Stop does not drain: a record appended before it can stay unwritten forever. */
  lemma StopDoesNotDrain(record: string)
    requires 1 <= |record| < 100
    ensures var steps := [Log(record, 5), Stop, Exit];
            && Allowed(Init(100, 1, 2, 3, 4), steps) && NeverFails(Init(100, 1, 2, 3, 4), steps)
            && var s := Run(Init(100, 1, 2, 3, 4), steps);
               s.pc == Done && s.accepted == [record] && s.output == []
  {
    hide Init, DoLog, Owners, Allowed, NeverFails, Run;
    var s0 := Init(100, 1, 2, 3, 4);
    FirstLog(record);
    var s1 := Next(s0, Log(record, 5));
    var s2 := Next(s1, Stop);
    RunNone(Next(s2, Exit));
    RunCons(s2, Exit, []);
    RunCons(s1, Stop, [Step<int>.Exit] + []);
    RunCons(s0, Log(record, 5), [Stop] + ([Step<int>.Exit] + []));
    assert [Log(record, 5)] + ([Stop] + ([Step<int>.Exit] + [])) == [Log(record, 5), Stop, Exit];
  }
}
