/** The hierarchical timer wheel of kernel/time on values: what each operation does to the
    slot lists, which timers fire at which tick, and what that means for every run.

    Timers are values of an arbitrary type.  A wheel of 256-slot rings is one sequence of
    slot lists, ring by ring; each list is in link order, first timer first. */
module WheelModel {
  import opened Options

  const RING := 256
  const RINGS := 4

  datatype Wheel<T> = Wheel(last: int, slots: seq<seq<T>>, expiry: map<T, int>)

  /** One millisecond, one turn of ring 0, one turn of ring 1, ... */
  function Span(ring: nat): (n: nat)
    ensures n > 0
  {
    if ring == 0 then 1 else RING * Span(ring - 1)
  }

  function MaxTime(ring: nat): nat {
    Span(ring + 1)
  }

  function CalcTime(ms: int, ring: nat): (index: nat)
    ensures index < RING
  {
    ms / Span(ring) % RING
  }

  /** FindHead: the slot for an expiration, or none when it has passed or is too far. */
  function FindSlot(last: int, expiration: int): (slot: Option<nat>)
    ensures slot.Some? ==> slot.value < RINGS * RING
  {
    if expiration < last then None else FindSlotFrom(last, expiration, 0)
  }

  function FindSlotFrom(last: int, expiration: int, ring: nat): (slot: Option<nat>)
    requires ring <= RINGS
    ensures slot.Some? ==> slot.value < RINGS * RING
    decreases RINGS - ring
  {
    if ring == RINGS then None
    else if expiration - last < MaxTime(ring) then Some(ring * RING + CalcTime(expiration, ring))
    else FindSlotFrom(last, expiration, ring + 1)
  }

  function Remove<T(==)>(s: seq<T>, t: T): seq<T> {
    if s == [] then [] else (if s[0] == t then [] else [s[0]]) + Remove(s[1..], t)
  }

  /** Every slot list exists and holds only timers with an expiration. */
  ghost predicate Closed<T>(w: Wheel<T>) {
    && |w.slots| == RINGS * RING
    && forall k, i :: 0 <= k < |w.slots| && 0 <= i < |w.slots[k]| ==> w.slots[k][i] in w.expiry
  }

  lemma {:induction false} RemoveElements<T>(s: seq<T>, t: T)
    ensures forall x :: x in Remove(s, t) ==> x in s && x != t
    ensures forall x :: x in s && x != t ==> x in Remove(s, t)
    ensures t !in s ==> Remove(s, t) == s
    ensures |Remove(s, t)| <= |s|
    ensures t in s ==> |Remove(s, t)| < |s|
  {
    if s != [] {
      RemoveElements(s[1..], t);
      assert s == [s[0]] + s[1..];
    }
  }

  function Unlink<T(==)>(w: Wheel<T>, t: T): (u: Wheel<T>)
    ensures |u.slots| == |w.slots| && u.last == w.last && u.expiry == w.expiry
    ensures Closed(w) ==> Closed(u)
  {
    var u := w.(slots := seq(|w.slots|, k requires 0 <= k < |w.slots| => Remove(w.slots[k], t)));
    assert Closed(w) ==> Closed(u) by {
      forall k, i | Closed(w) && 0 <= k < |u.slots| && 0 <= i < |u.slots[k]|
        ensures u.slots[k][i] in w.expiry
      {
        RemoveElements(w.slots[k], t);
        assert u.slots[k][i] in Remove(w.slots[k], t);
      }
    }
    u
  }

  /** AddTimer: unlink, then link in front of the slot list. */
  function Add<T(==)>(w: Wheel<T>, t: T): (u: Wheel<T>)
    requires Closed(w) && t in w.expiry
    ensures Closed(u) && u.last == w.last && u.expiry == w.expiry
  {
    var u := Unlink(w, t);
    match FindSlot(w.last, w.expiry[t])
    case None => u
    case Some(k) => u.(slots := u.slots[k := [t] + u.slots[k]])
  }

  /** MoveTimerList: the whole list goes behind the slot list of its first timer. */
  function Move<T>(w: Wheel<T>, k: nat): (u: Wheel<T>)
    requires Closed(w) && k < |w.slots|
    ensures Closed(u) && |u.slots| == |w.slots| && u.last == w.last && u.expiry == w.expiry
  {
    if w.slots[k] == [] then w
    else
      var list := w.slots[k];
      var cleared := w.slots[k := []];
      match FindSlot(w.last, w.expiry[list[0]])
      case None => w.(slots := cleared)
      case Some(d) => w.(slots := cleared[d := cleared[d] + list])
  }

  /** The cascade of TurnWheel: the index of ring 1 is used for every ring. */
  function Cascade<T>(w: Wheel<T>): (u: Wheel<T>)
    requires Closed(w)
    ensures Closed(u) && u.last == w.last && u.expiry == w.expiry
  {
    var index := CalcTime(w.last, 1);
    var u := Move(w, RING + index);
    if index != 0 then u else Move(Move(u, 2 * RING), 3 * RING)
  }

  // ------------------------------------------------------------------ callbacks

  /** What a callback may do to timers: Timer::Start with an absolute expiration, or
      Timer::Stop. */
  datatype Command<T> = Start(timer: T, expiration: int) | Stop(timer: T)

  /** One call of a callback: its commands, then its return value. */
  datatype Reaction<T> = Reaction(commands: seq<Command<T>>, next: int)

  /** The callbacks of all timers.  Within one tick a timer fires at most once, so what its
      callback does may depend on anything and still be a function of tick and timer. */
  type Callbacks<!T> = (int, T) -> Reaction<T>

  function SetExpiry<T>(w: Wheel<T>, t: T, e: int): (u: Wheel<T>)
    ensures Closed(w) ==> Closed(u) && t in u.expiry
    ensures u.last == w.last && u.slots == w.slots
  {
    w.(expiry := w.expiry[t := e])
  }

  function Exec<T(==)>(w: Wheel<T>, c: Command<T>): (u: Wheel<T>)
    requires Closed(w)
    ensures Closed(u) && u.last == w.last && w.expiry.Keys <= u.expiry.Keys
  {
    match c
    case Start(t, e) => Add(SetExpiry(w, t, e), t)
    case Stop(t) => Unlink(w, t)
  }

  function ExecAll<T(==)>(w: Wheel<T>, cs: seq<Command<T>>): (u: Wheel<T>)
    requires Closed(w)
    ensures Closed(u) && u.last == w.last && w.expiry.Keys <= u.expiry.Keys
    decreases |cs|
  {
    if cs == [] then w else ExecAll(Exec(w, cs[0]), cs[1..])
  }

  /** One turn of the firing loop of TurnWheel. */
  function FireOne<T(==)>(w: Wheel<T>, k: nat, cb: Callbacks<T>): (u: Wheel<T>)
    requires Closed(w) && k < |w.slots| && w.slots[k] != []
    ensures Closed(u) && u.last == w.last
  {
    var t := w.slots[k][0];
    var r := cb(w.last, t);
    var u := ExecAll(Unlink(w, t), r.commands);
    if r.next <= 0 then u else Add(SetExpiry(u, t, u.expiry[t] + r.next), t)
  }

  /** The firing loop, at most n turns. */
  function Drain<T(==)>(w: Wheel<T>, k: nat, cb: Callbacks<T>, n: nat): (u: Wheel<T>)
    requires Closed(w) && k < |w.slots|
    ensures Closed(u) && u.last == w.last
    decreases n
  {
    if n == 0 || w.slots[k] == [] then w else Drain(FireOne(w, k, cb), k, cb, n - 1)
  }

  function BeginTick<T>(w: Wheel<T>): (u: Wheel<T>)
    requires Closed(w)
    ensures Closed(u) && u.last == w.last + 1
  {
    var u := w.(last := w.last + 1);
    if CalcTime(u.last, 0) == 0 then Cascade(u) else u
  }

  function Tick<T(==)>(w: Wheel<T>, cb: Callbacks<T>): (u: Wheel<T>)
    requires Closed(w)
    ensures Closed(u) && u.last == w.last + 1
  {
    var u := BeginTick(w);
    var k := CalcTime(u.last, 0);
    Drain(u, k, cb, |u.slots[k]|)
  }

  /** TurnWheel: one tick for every millisecond since the last turn. */
  function Turn<T(==)>(w: Wheel<T>, cb: Callbacks<T>, now: int): (u: Wheel<T>)
    requires Closed(w)
    ensures Closed(u)
    decreases now - w.last
  {
    if now <= w.last then w else Turn(Tick(w, cb), cb, now)
  }

  // -------------------------------------------------------------------- history

  datatype Event<T> =
    | Armed(timer: T, expiration: int, at: int)
    | Stopped(timer: T)
    | Moved(timers: seq<T>, due: int)
    | Fired(timer: T, at: int)

  /** A pending arming: when it was meant to fire, and the tick it will fire at once that is
      settled (at once in ring 0, at the cascade in ring 1). */
  datatype Entry = Entry(expiration: int, due: Option<int>)

  function Arming(expiration: int, at: int): (e: Entry)
    ensures e.expiration == expiration
  {
    Entry(expiration, if expiration - at < RING then Some(expiration) else None)
  }

  function Block(ms: int): int { ms / RING }

  ghost function After<T>(p: map<T, Entry>, e: Event<T>): map<T, Entry> {
    match e
    case Armed(t, x, at) => p[t := Arming(x, at)]
    case Stopped(t) => p - {t}
    case Moved(ts, due) => map t | t in p :: if t in ts then Entry(p[t].expiration, Some(due)) else p[t]
    case Fired(t, _) => p - {t}
  }

  ghost function AfterAll<T>(p: map<T, Entry>, h: seq<Event<T>>): map<T, Entry>
    decreases |h|
  {
    if h == [] then p else AfterAll(After(p, h[0]), h[1..])
  }

  /** A timer fires only while armed, exactly at its due tick, inside the 256 ms block of its
      expiration; a cascade settles the due tick of a whole list to the expiration of its
      first timer, which lies in the same block. */
  ghost predicate Timely<T>(p: map<T, Entry>, e: Event<T>) {
    match e
    case Armed(t, x, at) => x > at
    case Stopped(t) => true
    case Moved(ts, due) =>
      && ts != [] && ts[0] in p && p[ts[0]].expiration == due
      && forall i :: 0 <= i < |ts| ==> ts[i] in p && p[ts[i]].due == None && Block(p[ts[i]].expiration) == Block(due)
    case Fired(t, at) => t in p && p[t].due == Some(at) && Block(at) == Block(p[t].expiration)
  }

  ghost predicate AllTimely<T>(p: map<T, Entry>, h: seq<Event<T>>)
    decreases |h|
  {
    h == [] || (Timely(p, h[0]) && AllTimely(After(p, h[0]), h[1..]))
  }

  // ------------------------------------------------------------------ invariant

  /** The slot an entry is linked in. */
  function Home(e: Entry): (k: nat)
    ensures k < 2 * RING
  {
    match e.due
    case Some(f) => f % RING
    case None => RING + Block(e.expiration) % RING
  }

  /** Entries still to come at tick last; while a tick fires, those due now as well. */
  predicate Ahead(last: int, e: Entry, firing: bool) {
    match e.due
    case Some(f) => Block(f) == Block(e.expiration) && (last < f < last + RING || (firing && f == last))
    case None => Block(last) < Block(e.expiration) <= Block(last) + RING
  }

  ghost predicate NoDup<T>(s: seq<T>) {
    forall i, j :: 0 <= i < j < |s| ==> s[i] != s[j]
  }

  /** The linked timers are exactly the pending ones, each once, in its home slot. */
  ghost predicate Housed<T>(w: Wheel<T>, p: map<T, Entry>) {
    && (forall k :: 0 <= k < |w.slots| ==> NoDup(w.slots[k]))
    && (forall k, i :: 0 <= k < |w.slots| && 0 <= i < |w.slots[k]| ==>
          w.slots[k][i] in p && Home(p[w.slots[k][i]]) == k)
    && (forall t :: t in p ==> Home(p[t]) < |w.slots| && t in w.slots[Home(p[t])])
  }

  ghost predicate Dated<T>(w: Wheel<T>, p: map<T, Entry>, firing: bool) {
    forall t :: t in p ==> t in w.expiry && w.expiry[t] == p[t].expiration && Ahead(w.last, p[t], firing)
  }

  ghost predicate Inv<T>(w: Wheel<T>, p: map<T, Entry>, firing: bool) {
    Closed(w) && Housed(w, p) && Dated(w, p, firing)
  }

  lemma {:induction false} RemoveNoDup<T>(s: seq<T>, t: T)
    requires NoDup(s)
    ensures NoDup(Remove(s, t))
  {
    if s != [] {
      RemoveNoDup(s[1..], t);
      RemoveElements(s[1..], t);
      assert forall j :: 0 <= j < |Remove(s[1..], t)| ==> Remove(s[1..], t)[j] in s[1..];
    }
  }

  lemma UnlinkHoused<T>(w: Wheel<T>, p: map<T, Entry>, t: T)
    requires Closed(w) && Housed(w, p)
    ensures Housed(Unlink(w, t), p - {t})
  {
    hide Home, NoDup, Remove;
    var u := Unlink(w, t);
    var q := p - {t};
    forall k | 0 <= k < |w.slots|
      ensures NoDup(u.slots[k])
    {
      RemoveNoDup(w.slots[k], t);
    }
    forall k, i | 0 <= k < |u.slots| && 0 <= i < |u.slots[k]|
      ensures u.slots[k][i] in q && Home(q[u.slots[k][i]]) == k
    {
      RemoveElements(w.slots[k], t);
      assert u.slots[k][i] in Remove(w.slots[k], t);
      assert u.slots[k][i] in w.slots[k];
    }
    forall x | x in q
      ensures Home(q[x]) < |u.slots| && x in u.slots[Home(q[x])]
    {
      RemoveElements(w.slots[Home(p[x])], t);
    }
  }

  lemma UnlinkInv<T>(w: Wheel<T>, p: map<T, Entry>, t: T, firing: bool)
    requires Inv(w, p, firing)
    ensures Inv(Unlink(w, t), p - {t}, firing)
  {
    hide Home, Ahead, NoDup, Remove, Housed;
    UnlinkHoused(w, p, t);
  }

  lemma AheadWhileFiring(last: int, e: Entry, firing: bool)
    requires Ahead(last, e, false)
    ensures Ahead(last, e, firing)
  {
  }

  lemma PushNoDup<T>(s: seq<T>, t: T)
    requires NoDup(s) && t !in s
    ensures NoDup([t] + s)
  {
  }

  /** An expiration one to 65535 ms ahead goes to the home slot of its arming. */
  lemma FindSlotIsHome(last: int, e: int)
    requires last < e < last + RING * RING
    ensures FindSlot(last, e) == Some(Home(Arming(e, last))) && Ahead(last, Arming(e, last), false)
  {
    assert MaxTime(0) == RING && MaxTime(1) == RING * RING;
    assert CalcTime(e, 0) == e % RING && CalcTime(e, 1) == Block(e) % RING;
    if e - last < RING {
      assert FindSlotFrom(last, e, 0) == Some(CalcTime(e, 0));
    } else {
      assert FindSlotFrom(last, e, 0) == FindSlotFrom(last, e, 1) == Some(RING + CalcTime(e, 1));
    }
  }

  lemma AddInv<T>(w: Wheel<T>, p: map<T, Entry>, t: T, firing: bool)
    requires Closed(w) && Housed(w, p) && t in w.expiry
    requires Dated(w, p - {t}, firing)
    requires w.last < w.expiry[t] < w.last + RING * RING
    ensures Inv(Add(w, t), p[t := Arming(w.expiry[t], w.last)], firing)
  {
    hide Home, Ahead, NoDup, Remove, FindSlot, Arming;
    var e := Arming(w.expiry[t], w.last);
    FindSlotIsHome(w.last, w.expiry[t]);
    AheadWhileFiring(w.last, e, firing);
    var u := Unlink(w, t);
    UnlinkHoused(w, p, t);
    var k := Home(e);
    var v := Add(w, t);
    var q := p[t := e];
    forall i | 0 <= i < |u.slots[k]|
      ensures u.slots[k][i] != t
    {
      RemoveElements(w.slots[k], t);
      assert u.slots[k][i] in Remove(w.slots[k], t);
    }
    PushNoDup(u.slots[k], t);
    assert Housed(v, q);
  }

  // ---------------------------------------------------------------- discipline

  /** The last expiration a command list gives to a timer, if any. */
  function LastStart<T(==)>(cs: seq<Command<T>>, t: T): Option<int> {
    if cs == [] then None
    else
      var later := LastStart(cs[1..], t);
      if later.Some? then later
      else if cs[0].Start? && cs[0].timer == t then Some(cs[0].expiration)
      else None
  }

  /** The expiration lies one to 65535 ms after the current tick. */
  predicate InRange(now: int, expiration: int) {
    now < expiration < now + RING * RING
  }

  ghost predicate CommandsInRange<T>(now: int, cs: seq<Command<T>>) {
    forall i :: 0 <= i < |cs| && cs[i].Start? ==> InRange(now, cs[i].expiration)
  }

  /** What a callback may do at a tick: arm timers in range, and return either a stop or a
      period.  A period is added to the old expiration, which is off by less than one block,
      unless the callback has just started its own timer afresh. */
  ghost predicate Disciplined<T>(now: int, t: T, r: Reaction<T>) {
    && CommandsInRange(now, r.commands)
    && (r.next > 0 ==>
          match LastStart(r.commands, t)
          case None => RING <= r.next <= RING * RING - RING
          case Some(e) => InRange(now, e + r.next))
  }

  /** Every callback of a timer of the program is disciplined at every tick and deals only
      with timers of the program. */
  ghost predicate AllDisciplined<T>(cb: Callbacks<T>, all: set<T>) {
    (forall now: int, t :: t in all ==> Disciplined(now, t, cb(now, t))) && Confined(cb, all)
  }

  ghost predicate Confined<T>(cb: Callbacks<T>, all: set<T>) {
    forall now: int, t, i :: t in all && 0 <= i < |cb(now, t).commands| ==> cb(now, t).commands[i].timer in all
  }

  function CommandEvents<T>(now: int, cs: seq<Command<T>>): seq<Event<T>> {
    if cs == [] then []
    else
      [match cs[0] case Start(t, e) => Armed(t, e, now) case Stop(t) => Stopped(t)] + CommandEvents(now, cs[1..])
  }

  lemma {:induction false} ExecInv<T>(w: Wheel<T>, p: map<T, Entry>, cs: seq<Command<T>>, firing: bool)
    requires Inv(w, p, firing) && CommandsInRange(w.last, cs)
    ensures Inv(ExecAll(w, cs), AfterAll(p, CommandEvents(w.last, cs)), firing)
    ensures AllTimely(p, CommandEvents(w.last, cs))
    decreases |cs|
  {
    hide Inv, Closed, Add, Unlink, Arming;
    if cs != [] {
      ClosedOf(w, p, firing);
      var u := Exec(w, cs[0]);
      var h := CommandEvents(w.last, cs);
      assert h[1..] == CommandEvents(w.last, cs[1..]);
      match cs[0]
      case Start(t, e) =>
        StartInv(w, p, t, e, firing);
        ExecInv(u, p[t := Arming(e, w.last)], cs[1..], firing);
      case Stop(t) =>
        UnlinkInv(w, p, t, firing);
        ExecInv(u, p - {t}, cs[1..], firing);
    }
  }

  lemma ClosedOf<T>(w: Wheel<T>, p: map<T, Entry>, firing: bool)
    requires Inv(w, p, firing)
    ensures Closed(w)
  {
  }

  lemma StartInv<T>(w: Wheel<T>, p: map<T, Entry>, t: T, e: int, firing: bool)
    requires Inv(w, p, firing) && InRange(w.last, e)
    ensures Closed(SetExpiry(w, t, e))
    ensures Inv(Add(SetExpiry(w, t, e), t), p[t := Arming(e, w.last)], firing)
  {
    hide Add, Arming, Home, Ahead, NoDup;
    AddInv(SetExpiry(w, t, e), p, t, firing);
  }

  // ------------------------------------------------------------- one tick fires

  function FireEvents<T(==)>(w: Wheel<T>, k: nat, cb: Callbacks<T>): seq<Event<T>>
    requires Closed(w) && k < |w.slots| && w.slots[k] != []
  {
    var t := w.slots[k][0];
    var r := cb(w.last, t);
    var u := ExecAll(Unlink(w, t), r.commands);
    [Fired(t, w.last)] + CommandEvents(w.last, r.commands)
    + if r.next <= 0 then [] else [Armed(t, u.expiry[t] + r.next, w.last)]
  }

  lemma {:induction false} AfterAllJoin<T>(p: map<T, Entry>, g: seq<Event<T>>, h: seq<Event<T>>)
    ensures AfterAll(p, g + h) == AfterAll(AfterAll(p, g), h)
    ensures AllTimely(p, g + h) <==> AllTimely(p, g) && AllTimely(AfterAll(p, g), h)
    decreases |g|
  {
    hide After, Timely;
    if g == [] {
      assert g + h == h;
    } else {
      assert (g + h)[1..] == g[1..] + h;
      AfterAllJoin(After(p, g[0]), g[1..], h);
    }
  }

  lemma {:induction false} ExpiryAfter<T>(w: Wheel<T>, cs: seq<Command<T>>, t: T)
    requires Closed(w) && t in w.expiry
    ensures ExecAll(w, cs).expiry[t] == match LastStart(cs, t) case None => w.expiry[t] case Some(e) => e
    decreases |cs|
  {
    hide Closed, Add, Unlink;
    if cs != [] {
      ExpiryAfter(Exec(w, cs[0]), cs[1..], t);
    }
  }

  /** The timer that fires was due now, in the block of its expiration; all others stay. */
  lemma FireInv<T>(w: Wheel<T>, p: map<T, Entry>, k: nat, cb: Callbacks<T>)
    requires Inv(w, p, true) && k == w.last % RING && k < |w.slots| && w.slots[k] != []
    requires Disciplined(w.last, w.slots[k][0], cb(w.last, w.slots[k][0]))
    ensures Inv(FireOne(w, k, cb), AfterAll(p, FireEvents(w, k, cb)), true)
    ensures AllTimely(p, FireEvents(w, k, cb))
  {
    hide Inv, Closed, Add, Arming, Unlink, ExecAll, CommandEvents, AfterAll, AllTimely, CommandsInRange, Block, InRange;
    var t := w.slots[k][0];
    var r := cb(w.last, t);
    DueNow(w, p, k, 0);
    UnlinkInv(w, p, t, true);
    ClosedOf(w, p, true);
    var w1 := Unlink(w, t);
    var cmds := CommandEvents(w.last, r.commands);
    ExecInv(w1, p - {t}, r.commands, true);
    var q := AfterAll(p - {t}, cmds);
    var u := ExecAll(w1, r.commands);
    var head := [Fired(t, w.last)];
    AfterOne(p, Fired(t, w.last));
    AfterAllJoin(p, head, cmds);
    if r.next > 0 {
      ExpiryAfter(w1, r.commands, t);
      var e := u.expiry[t] + r.next;
      PeriodInRange(w.last, p[t].expiration, r.next);
      RangeIsLater(w.last, e);
      StartInv(u, q, t, e, true);
      AfterOne(q, Armed(t, e, w.last));
      AfterAllJoin(p, head + cmds, [Armed(t, e, w.last)]);
    } else {
      assert head + cmds + [] == head + cmds;
    }
  }

  lemma AfterOne<T>(p: map<T, Entry>, e: Event<T>)
    ensures AfterAll(p, [e]) == After(p, e) && (AllTimely(p, [e]) <==> Timely(p, e))
  {
    hide After, Timely;
    assert [e][1..] == [];
  }

  lemma RangeIsLater(now: int, e: int)
    ensures InRange(now, e) ==> e > now
  {
  }

  lemma PeriodInRange(now: int, expiration: int, next: int)
    requires Block(now) == Block(expiration)
    ensures RING <= next <= RING * RING - RING ==> InRange(now, expiration + next)
  {
  }

  lemma DueNow<T>(w: Wheel<T>, p: map<T, Entry>, k: nat, i: nat)
    requires Inv(w, p, true) && k == w.last % RING && k < |w.slots| && i < |w.slots[k]|
    ensures var t := w.slots[k][i];
            t in p && t in w.expiry && w.expiry[t] == p[t].expiration
            && p[t].due == Some(w.last) && Block(w.last) == Block(p[t].expiration)
  {
  }

  /** Arming in range never links into the slot that is firing. */
  lemma AddElsewhere<T>(w: Wheel<T>, t: T)
    requires Closed(w) && t in w.expiry && InRange(w.last, w.expiry[t])
    ensures var k := w.last % RING; k < |w.slots| && Add(w, t).slots[k] == Remove(w.slots[k], t)
  {
    hide Remove, FindSlot, Closed, Ahead;
    ClosedShape(w);
    FindSlotIsHome(w.last, w.expiry[t]);
  }

  lemma ClosedShape<T>(w: Wheel<T>)
    requires Closed(w)
    ensures |w.slots| == RINGS * RING
  {
  }

  lemma {:induction false} ExecShrinks<T>(w: Wheel<T>, cs: seq<Command<T>>)
    requires Closed(w) && CommandsInRange(w.last, cs)
    ensures var k := w.last % RING;
            && k < |w.slots| && |ExecAll(w, cs).slots| == |w.slots|
            && |ExecAll(w, cs).slots[k]| <= |w.slots[k]|
    decreases |cs|
  {
    hide Closed, Remove, Add;
    ClosedShape(w);
    ClosedShape(ExecAll(w, cs));
    if cs != [] {
      var k := w.last % RING;
      RemoveElements(w.slots[k], cs[0].timer);
      if cs[0].Start? {
        AddElsewhere(SetExpiry(w, cs[0].timer, cs[0].expiration), cs[0].timer);
      }
      ExecShrinks(Exec(w, cs[0]), cs[1..]);
    }
  }

  /** Each turn of the firing loop shortens the list, so the loop ends. */
  lemma FireShrinks<T>(w: Wheel<T>, p: map<T, Entry>, cb: Callbacks<T>)
    requires Inv(w, p, true) && w.last % RING < |w.slots| && w.slots[w.last % RING] != []
    requires Disciplined(w.last, w.slots[w.last % RING][0], cb(w.last, w.slots[w.last % RING][0]))
    ensures var k := w.last % RING; |FireOne(w, k, cb).slots| == |w.slots| && |FireOne(w, k, cb).slots[k]| < |w.slots[k]|
  {
    hide Inv, Closed, Add, ExecAll, Remove, CommandsInRange, Block, InRange;
    ClosedOf(w, p, true);
    var k := w.last % RING;
    var t := w.slots[k][0];
    var r := cb(w.last, t);
    DueNow(w, p, k, 0);
    ClosedShape(FireOne(w, k, cb));
    ClosedShape(w);
    RemoveElements(w.slots[k], t);
    var w1 := Unlink(w, t);
    ExecShrinks(w1, r.commands);
    if r.next > 0 {
      ExpiryAfter(w1, r.commands, t);
      PeriodInRange(w.last, p[t].expiration, r.next);
      var u := ExecAll(w1, r.commands);
      AddElsewhere(SetExpiry(u, t, u.expiry[t] + r.next), t);
      RemoveElements(u.slots[k], t);
    }
  }

  function DrainEvents<T(==)>(w: Wheel<T>, k: nat, cb: Callbacks<T>, n: nat): seq<Event<T>>
    requires Closed(w) && k < |w.slots|
    decreases n
  {
    if n == 0 || w.slots[k] == [] then []
    else
      ClosedShape(w);
      ClosedShape(FireOne(w, k, cb));
      FireEvents(w, k, cb) + DrainEvents(FireOne(w, k, cb), k, cb, n - 1)
  }

  ghost predicate Within<T>(w: Wheel<T>, all: set<T>) {
    w.expiry.Keys <= all
  }

  /** The firing loop empties the slot of the tick, every firing on time. */
  lemma {:induction false} DrainInv<T>(w: Wheel<T>, p: map<T, Entry>, cb: Callbacks<T>, n: nat, all: set<T>)
    requires Inv(w, p, true) && w.last % RING < |w.slots| && |w.slots[w.last % RING]| <= n
    requires AllDisciplined(cb, all) && Within(w, all)
    ensures var k := w.last % RING;
            var u := Drain(w, k, cb, n);
            && Inv(u, AfterAll(p, DrainEvents(w, k, cb, n)), true)
            && AllTimely(p, DrainEvents(w, k, cb, n))
            && |u.slots| == |w.slots| && u.slots[k] == []
            && Within(u, all)
    decreases n
  {
    hide Inv, Closed, FireOne, FireEvents, AfterAll, AllTimely, Disciplined;
    ClosedOf(w, p, true);
    var k := w.last % RING;
    if w.slots[k] != [] {
      var t := w.slots[k][0];
      DueNow(w, p, k, 0);
      FireInv(w, p, k, cb);
      FireShrinks(w, p, cb);
      FireWithin(w, k, cb, all);
      var u := FireOne(w, k, cb);
      var q := AfterAll(p, FireEvents(w, k, cb));
      DrainInv(u, q, cb, n - 1, all);
      AfterAllJoin(p, FireEvents(w, k, cb), DrainEvents(u, k, cb, n - 1));
    } else {
      AfterNone(p);
    }
  }

  lemma AfterNone<T>(p: map<T, Entry>)
    ensures AfterAll(p, []) == p && AllTimely(p, [])
  {
  }

  lemma {:induction false} ExecWithin<T>(w: Wheel<T>, cs: seq<Command<T>>, all: set<T>)
    requires Closed(w) && Within(w, all)
    requires forall i :: 0 <= i < |cs| ==> cs[i].timer in all
    ensures Within(ExecAll(w, cs), all)
    decreases |cs|
  {
    hide Closed, Add, Unlink;
    if cs != [] {
      ExecWithin(Exec(w, cs[0]), cs[1..], all);
    }
  }

  lemma FireWithin<T>(w: Wheel<T>, k: nat, cb: Callbacks<T>, all: set<T>)
    requires Closed(w) && k < |w.slots| && w.slots[k] != [] && Within(w, all) && AllDisciplined(cb, all)
    requires w.slots[k][0] in w.expiry
    ensures Within(FireOne(w, k, cb), all)
  {
    hide Closed, Add, Unlink, ExecAll, Disciplined;
    var t := w.slots[k][0];
    ExecWithin(Unlink(w, t), cb(w.last, t).commands, all);
  }

  // ------------------------------------------------------------ one tick begins

  lemma CalcTimes(ms: int)
    ensures CalcTime(ms, 0) == ms % RING && CalcTime(ms, 1) == Block(ms) % RING
  {
    assert Span(1) == RING;
  }

  /** What is still to come stays so when the clock moves, except that ring 1 entries of the
      new block must be moved. */
  lemma AheadAfterOne(last: int, e: Entry)
    requires Ahead(last, e, false)
    ensures e.due.Some? || Block(e.expiration) != Block(last + 1) ==> Ahead(last + 1, e, true)
    ensures (last + 1) % RING != 0 ==> Ahead(last + 1, e, true)
    ensures e.due.None? && (last + 1) % RING == 0 && Home(e) == RING + Block(last + 1) % RING
            ==> Block(e.expiration) == Block(last + 1)
    ensures e.due.None? && Block(e.expiration) == Block(last + 1) ==> Home(e) == RING + Block(last + 1) % RING
  {
  }

  /** The list of ring 1 that the cascade at tick now empties. */
  function Cascaded<T>(w: Wheel<T>, now: int): seq<T>
    requires |w.slots| == RINGS * RING
  {
    if now % RING == 0 then w.slots[RING + Block(now) % RING] else []
  }

  function CascadeEvents<T>(w: Wheel<T>): seq<Event<T>>
    requires Closed(w)
  {
    var list := Cascaded(w, w.last + 1);
    if list == [] then [] else [Moved(list, w.expiry[list[0]])]
  }

  lemma UpperRingsEmpty<T>(w: Wheel<T>, p: map<T, Entry>, k: nat)
    requires Closed(w) && Housed(w, p) && 2 * RING <= k < |w.slots|
    ensures w.slots[k] == []
  {
    hide Home, NoDup;
    assert |w.slots[k]| > 0 ==> Home(p[w.slots[k][0]]) == k;
  }

  lemma QuietTick<T>(w: Wheel<T>, p: map<T, Entry>)
    requires Inv(w, p, false) && Cascaded(w, w.last + 1) == []
    ensures Inv(w.(last := w.last + 1), p, true)
  {
    hide NoDup, Home, Ahead, Block;
    var u := w.(last := w.last + 1);
    forall t | t in p
      ensures Ahead(u.last, p[t], true)
    {
      AheadAfterOne(w.last, p[t]);
      if u.last % RING == 0 && Block(p[t].expiration) == Block(u.last) {
        assert t in w.slots[Home(p[t])];
      }
    }
  }

  /** All timers of a cascaded list belong to the block that begins. */
  lemma CascadedBlock<T>(w: Wheel<T>, p: map<T, Entry>, i: nat)
    requires Inv(w, p, false) && i < |Cascaded(w, w.last + 1)|
    ensures var t := Cascaded(w, w.last + 1)[i];
            && t in p && t in w.expiry && p[t].due == None && w.expiry[t] == p[t].expiration
            && Block(p[t].expiration) == Block(w.last + 1)
  {
    hide NoDup, Ahead, Block;
    var t := Cascaded(w, w.last + 1)[i];
    AheadAfterOne(w.last, p[t]);
    HomeOfRing1(p[t]);
  }

  lemma HomeOfRing1(e: Entry)
    ensures Home(e) >= RING <==> e.due.None?
  {
  }

  lemma NewBlock(now: int, x: int)
    requires now % RING == 0 && Block(x) == Block(now)
    ensures FindSlot(now, x) == Some(x % RING) && now <= x < now + RING
  {
    CalcTimes(x);
    assert MaxTime(0) == RING;
    assert FindSlotFrom(now, x, 0) == Some(CalcTime(x, 0));
  }

  /** The cascade moves one list, in one piece, to the slot of its first timer. */
  lemma CascadeTick<T>(w: Wheel<T>, p: map<T, Entry>)
    requires Inv(w, p, false) && Cascaded(w, w.last + 1) != []
    ensures var list := Cascaded(w, w.last + 1);
            var u := w.(last := w.last + 1);
            && list[0] in w.expiry
            && Timely(p, Moved(list, w.expiry[list[0]]))
            && Inv(Move(u, RING + Block(u.last) % RING), After(p, Moved(list, w.expiry[list[0]])), true)
  {
    hide NoDup, Home, Ahead, Block, FindSlot, Timely;
    var u := w.(last := w.last + 1);
    var list := Cascaded(w, u.last);
    var k := RING + Block(u.last) % RING;
    CascadedBlock(w, p, 0);
    var x := w.expiry[list[0]];
    NewBlock(u.last, x);
    var d := x % RING;
    var v := Move(u, k);
    var q := After(p, Moved(list, x));
    assert v.slots == w.slots[k := []][d := w.slots[d] + list];
    MovedTimely(w, p);
    forall t | t in q
      ensures Home(q[t]) < |v.slots| && t in v.slots[Home(q[t])] && Ahead(v.last, q[t], true)
    {
      AheadAfterOne(w.last, p[t]);
      if t in list {
        var i :| 0 <= i < |list| && list[i] == t;
        CascadedBlock(w, p, i);
        MovedEntry(u.last, q[t]);
      } else {
        assert t in w.slots[Home(p[t])];
        assert Home(p[t]) != k;
      }
    }
    MovedHoused(w, p);
  }

  lemma MovedTimely<T>(w: Wheel<T>, p: map<T, Entry>)
    requires Inv(w, p, false) && Cascaded(w, w.last + 1) != []
    requires Cascaded(w, w.last + 1)[0] in w.expiry
    ensures Timely(p, Moved(Cascaded(w, w.last + 1), w.expiry[Cascaded(w, w.last + 1)[0]]))
  {
    hide Housed, Dated, Block;
    var list := Cascaded(w, w.last + 1);
    CascadedBlock(w, p, 0);
    forall i | 0 <= i < |list|
      ensures list[i] in p && p[list[i]].due == None && Block(p[list[i]].expiration) == Block(w.expiry[list[0]])
    {
      CascadedBlock(w, p, i);
    }
  }

  lemma MovedEntry(now: int, e: Entry)
    requires now % RING == 0 && e.due.Some? && Block(e.due.value) == Block(now) == Block(e.expiration)
    ensures Ahead(now, e, true) && Home(e) == e.due.value % RING
  {
  }

  lemma MovedHoused<T>(w: Wheel<T>, p: map<T, Entry>)
    requires Inv(w, p, false) && Cascaded(w, w.last + 1) != []
    requires Cascaded(w, w.last + 1)[0] in w.expiry
    ensures var list := Cascaded(w, w.last + 1);
            var x := w.expiry[list[0]];
            var d := x % RING;
            var slots := w.slots[RING + Block(w.last + 1) % RING := []][d := w.slots[d] + list];
            var q := After(p, Moved(list, x));
            && (forall k :: 0 <= k < |slots| ==> NoDup(slots[k]))
            && (forall k, i :: 0 <= k < |slots| && 0 <= i < |slots[k]| ==>
                  slots[k][i] in q && Home(q[slots[k][i]]) == k)
  {
  }

  lemma BeginTickInv<T>(w: Wheel<T>, p: map<T, Entry>)
    requires Inv(w, p, false)
    ensures Closed(w) && Inv(BeginTick(w), AfterAll(p, CascadeEvents(w)), true)
    ensures AllTimely(p, CascadeEvents(w))
  {
    hide Closed, Housed, Dated, Move, After, Timely, AfterAll, AllTimely, CalcTime, Block;
    ClosedShape(w);
    var u := w.(last := w.last + 1);
    assert Closed(u) by { ClosedLater(w, u.last); }
    CalcTimes(u.last);
    AfterNone(p);
    if Cascaded(w, u.last) == [] {
      QuietTick(w, p);
      if u.last % RING == 0 {
        NothingToMove(u, RING + Block(u.last) % RING);
        if Block(u.last) % RING == 0 {
          UpperRingsStay(u, p);
        }
      }
    } else {
      CascadeTick(w, p);
      var e := Moved(Cascaded(w, u.last), w.expiry[Cascaded(w, u.last)[0]]);
      AfterOne(p, e);
      if Block(u.last) % RING == 0 {
        UpperRingsStay(Move(u, RING), After(p, e));
      }
    }
  }

  lemma ClosedLater<T>(w: Wheel<T>, now: int)
    requires Closed(w)
    ensures Closed(w.(last := now))
  {
  }

  lemma NothingToMove<T>(w: Wheel<T>, k: nat)
    requires Closed(w) && k < |w.slots| && w.slots[k] == []
    ensures Move(w, k) == w
  {
  }

  lemma UpperRingsStay<T>(w: Wheel<T>, p: map<T, Entry>)
    requires Inv(w, p, true)
    ensures Closed(w) && 3 * RING < |w.slots| && Move(w, 2 * RING) == w && Move(w, 3 * RING) == w
  {
    hide Housed, Dated;
    UpperRingsEmpty(w, p, 2 * RING);
    UpperRingsEmpty(w, p, 3 * RING);
  }

  /** Once the slot of the tick is empty, nothing pending is due now. */
  lemma Settle<T>(w: Wheel<T>, p: map<T, Entry>)
    requires Inv(w, p, true) && w.last % RING < |w.slots| && w.slots[w.last % RING] == []
    ensures Inv(w, p, false)
  {
    hide NoDup, Block;
    forall t | t in p
      ensures Ahead(w.last, p[t], false)
    {
      assert t in w.slots[Home(p[t])];
    }
  }

  function TickEvents<T(==)>(w: Wheel<T>, cb: Callbacks<T>): seq<Event<T>>
    requires Closed(w)
  {
    var u := BeginTick(w);
    var k := CalcTime(u.last, 0);
    CascadeEvents(w) + DrainEvents(u, k, cb, |u.slots[k]|)
  }

  lemma TickInv<T>(w: Wheel<T>, p: map<T, Entry>, cb: Callbacks<T>, all: set<T>)
    requires Inv(w, p, false) && AllDisciplined(cb, all) && Within(w, all)
    ensures Closed(w) && Inv(Tick(w, cb), AfterAll(p, TickEvents(w, cb)), false)
    ensures AllTimely(p, TickEvents(w, cb)) && Within(Tick(w, cb), all)
  {
    hide Inv, AllDisciplined, AfterAll, AllTimely, Drain, DrainEvents, CascadeEvents, CalcTime, Cascade, Closed;
    BeginTickInv(w, p);
    var u := BeginTick(w);
    ClosedShape(u);
    CalcTimes(u.last);
    var q := AfterAll(p, CascadeEvents(w));
    var n := |u.slots[u.last % RING]|;
    DrainInv(u, q, cb, n, all);
    AfterAllJoin(p, CascadeEvents(w), DrainEvents(u, u.last % RING, cb, n));
    Settle(Tick(w, cb), AfterAll(p, TickEvents(w, cb)));
  }

  function TurnEvents<T(==)>(w: Wheel<T>, cb: Callbacks<T>, now: int): seq<Event<T>>
    requires Closed(w)
    decreases now - w.last
  {
    if now <= w.last then [] else TickEvents(w, cb) + TurnEvents(Tick(w, cb), cb, now)
  }

  lemma {:induction false} TurnInv<T>(w: Wheel<T>, p: map<T, Entry>, cb: Callbacks<T>, now: int, all: set<T>)
    requires Inv(w, p, false) && AllDisciplined(cb, all) && Within(w, all)
    ensures Closed(w) && Inv(Turn(w, cb, now), AfterAll(p, TurnEvents(w, cb, now)), false)
    ensures AllTimely(p, TurnEvents(w, cb, now)) && Within(Turn(w, cb, now), all)
    ensures Turn(w, cb, now).last == if now <= w.last then w.last else now
    decreases now - w.last
  {
    hide Inv, AllDisciplined, AfterAll, AllTimely, Tick, TickEvents, Closed;
    ClosedOf(w, p, false);
    if now <= w.last {
      AfterNone(p);
    } else {
      TickInv(w, p, cb, all);
      var q := AfterAll(p, TickEvents(w, cb));
      TurnInv(Tick(w, cb), q, cb, now, all);
      AfterAllJoin(p, TickEvents(w, cb), TurnEvents(Tick(w, cb), cb, now));
    }
  }

  // -------------------------------------------- turns of undisciplined programs

  /** The assertion of MoveTimerList: the first timer of the list has a slot to go to. */
  ghost predicate Moveable<T>(w: Wheel<T>, k: nat)
    requires Closed(w) && k < |w.slots|
  {
    w.slots[k] == [] || FindSlot(w.last, w.expiry[w.slots[k][0]]).Some?
  }

  /** It holds at every move of the cascade. */
  ghost predicate CascadeSafe<T>(w: Wheel<T>)
    requires Closed(w)
  {
    var index := CalcTime(w.last, 1);
    && Moveable(w, RING + index)
    && (index == 0 ==> Moveable(Move(w, RING), 2 * RING) && Moveable(Move(Move(w, RING), 2 * RING), 3 * RING))
  }

  /** The firing loop has emptied slot k after at most n turns. */
  ghost predicate Drained<T>(w: Wheel<T>, k: nat, cb: Callbacks<T>, n: nat)
    requires Closed(w) && k < RINGS * RING
  {
    Drain(w, k, cb, n).slots[k] == []
  }

  lemma {:induction false} DrainMore<T>(w: Wheel<T>, k: nat, cb: Callbacks<T>, n: nat, m: nat)
    requires Closed(w) && k < RINGS * RING && Drained(w, k, cb, n) && n <= m
    ensures Drain(w, k, cb, m) == Drain(w, k, cb, n)
    decreases n
  {
    hide Closed, FireOne;
    ClosedShape(w);
    if n > 0 && w.slots[k] != [] {
      ClosedShape(FireOne(w, k, cb));
      DrainMore(FireOne(w, k, cb), k, cb, n - 1, m - 1);
    }
  }

  /** The firing loop until the slot is empty. */
  ghost function FullDrain<T>(w: Wheel<T>, k: nat, cb: Callbacks<T>): (u: Wheel<T>)
    requires Closed(w) && k < RINGS * RING && exists n :: Drained(w, k, cb, n)
    ensures Closed(u) && u.last == w.last && u.slots[k] == []
  {
    var n :| Drained(w, k, cb, n);
    Drain(w, k, cb, n)
  }

  lemma FullDrainIs<T>(w: Wheel<T>, k: nat, cb: Callbacks<T>, n: nat)
    requires Closed(w) && k < RINGS * RING && Drained(w, k, cb, n)
    ensures FullDrain(w, k, cb) == Drain(w, k, cb, n)
  {
    hide Closed, Drain, Drained;
    ClosedShape(w);
    var m: nat :| Drained(w, k, cb, m) && FullDrain(w, k, cb) == Drain(w, k, cb, m);
    if m <= n {
      DrainMore(w, k, cb, m, n);
    } else {
      DrainMore(w, k, cb, n, m);
    }
  }

  lemma {:induction false} DrainEventsMore<T>(w: Wheel<T>, k: nat, cb: Callbacks<T>, n: nat, m: nat)
    requires Closed(w) && k < RINGS * RING && Drained(w, k, cb, n) && n <= m
    ensures k < |w.slots| && DrainEvents(w, k, cb, m) == DrainEvents(w, k, cb, n)
    decreases n
  {
    hide Closed, FireOne, FireEvents;
    ClosedShape(w);
    if n > 0 && w.slots[k] != [] {
      ClosedShape(FireOne(w, k, cb));
      DrainEventsMore(FireOne(w, k, cb), k, cb, n - 1, m - 1);
    }
  }

  ghost function FullDrainEvents<T>(w: Wheel<T>, k: nat, cb: Callbacks<T>): seq<Event<T>>
    requires Closed(w) && k < RINGS * RING && exists n :: Drained(w, k, cb, n)
  {
    var n :| Drained(w, k, cb, n);
    DrainEvents(w, k, cb, n)
  }

  lemma FullDrainEventsAre<T>(w: Wheel<T>, k: nat, cb: Callbacks<T>, n: nat)
    requires Closed(w) && k < RINGS * RING && Drained(w, k, cb, n)
    ensures k < |w.slots| && FullDrainEvents(w, k, cb) == DrainEvents(w, k, cb, n)
  {
    hide Closed, DrainEvents, Drained;
    ClosedShape(w);
    var m: nat :| Drained(w, k, cb, m) && FullDrainEvents(w, k, cb) == DrainEvents(w, k, cb, m);
    if m <= n {
      DrainEventsMore(w, k, cb, m, n);
    } else {
      DrainEventsMore(w, k, cb, n, m);
    }
  }

  /** The next tick fails no assertion and its firing loop ends. */
  ghost predicate TickDefined<T>(w: Wheel<T>, cb: Callbacks<T>)
    requires Closed(w)
  {
    var n := w.last + 1;
    && Closed(w.(last := n)) && (CalcTime(n, 0) == 0 ==> CascadeSafe(w.(last := n)))
    && exists m :: Drained(BeginTick(w), CalcTime(n, 0), cb, m)
  }

  ghost function FullTick<T>(w: Wheel<T>, cb: Callbacks<T>): (u: Wheel<T>)
    requires Closed(w) && TickDefined(w, cb)
    ensures Closed(u) && u.last == w.last + 1
  {
    FullDrain(BeginTick(w), CalcTime(w.last + 1, 0), cb)
  }

  ghost function FullTickEvents<T>(w: Wheel<T>, cb: Callbacks<T>): seq<Event<T>>
    requires Closed(w) && TickDefined(w, cb)
  {
    CascadeEvents(w) + FullDrainEvents(BeginTick(w), CalcTime(w.last + 1, 0), cb)
  }

  /** So it is for every tick of a turn. */
  ghost predicate TurnDefined<T>(w: Wheel<T>, cb: Callbacks<T>, now: int)
    requires Closed(w)
    decreases now - w.last
  {
    w.last < now ==> TickDefined(w, cb) && TurnDefined(FullTick(w, cb), cb, now)
  }

  ghost function FullTurn<T>(w: Wheel<T>, cb: Callbacks<T>, now: int): (u: Wheel<T>)
    requires Closed(w) && TurnDefined(w, cb, now)
    ensures Closed(u)
    decreases now - w.last
  {
    if now <= w.last then w else FullTurn(FullTick(w, cb), cb, now)
  }

  ghost function FullTurnEvents<T>(w: Wheel<T>, cb: Callbacks<T>, now: int): seq<Event<T>>
    requires Closed(w) && TurnDefined(w, cb, now)
    decreases now - w.last
  {
    if now <= w.last then [] else FullTickEvents(w, cb) + FullTurnEvents(FullTick(w, cb), cb, now)
  }

  /** In the runs of this model that assertion holds at every cascade. */
  lemma CascadeIsSafe<T>(w: Wheel<T>, pending: map<T, Entry>)
    requires Inv(w, pending, false) && (w.last + 1) % RING == 0
    ensures Closed(w) && Closed(w.(last := w.last + 1)) && CascadeSafe(w.(last := w.last + 1))
  {
    hide Housed, Dated, Move, After, Block, Closed, FindSlot;
    var u := w.(last := w.last + 1);
    ClosedLater(w, u.last);
    ClosedShape(w);
    CalcTimes(u.last);
    var k := RING + Block(u.last) % RING;
    if u.slots[k] == [] {
      QuietTick(w, pending);
      NothingToMove(u, k);
      if k == RING {
        UpperRingsStay(u, pending);
        UpperRingsEmpty(u, pending, 2 * RING);
        UpperRingsEmpty(u, pending, 3 * RING);
      }
    } else {
      CascadedBlock(w, pending, 0);
      NewBlock(u.last, w.expiry[w.slots[k][0]]);
      CascadeTick(w, pending);
      if k == RING {
        var v := Move(u, RING);
        var q := After(pending, Moved(Cascaded(w, u.last), w.expiry[w.slots[k][0]]));
        UpperRingsStay(v, q);
        UpperRingsEmpty(v, q, 2 * RING);
        UpperRingsEmpty(v, q, 3 * RING);
      }
    }
  }

  lemma DisciplinedTick<T>(w: Wheel<T>, p: map<T, Entry>, cb: Callbacks<T>, all: set<T>)
    requires Inv(w, p, false) && AllDisciplined(cb, all) && Within(w, all)
    ensures Closed(w) && TickDefined(w, cb) && FullTick(w, cb) == Tick(w, cb) && FullTickEvents(w, cb) == TickEvents(w, cb)
  {
    hide Inv, AllDisciplined, AfterAll, AllTimely, Drain, DrainEvents, CascadeEvents, CalcTime, Cascade, Closed, CascadeSafe;
    BeginTickInv(w, p);
    var u := BeginTick(w);
    ClosedShape(u);
    CalcTimes(u.last);
    ClosedLater(w, u.last);
    if u.last % RING == 0 {
      CascadeIsSafe(w, p);
    }
    var n := |u.slots[u.last % RING]|;
    DrainInv(u, AfterAll(p, CascadeEvents(w)), cb, n, all);
    assert Drained(u, u.last % RING, cb, n);
    FullDrainIs(u, u.last % RING, cb, n);
    FullDrainEventsAre(u, u.last % RING, cb, n);
  }

  /** Disciplined programs fail no assertion, their loops end, and the turn is the one whose
      firings are timely. */
  lemma {:induction false} DisciplinedTurn<T>(w: Wheel<T>, p: map<T, Entry>, cb: Callbacks<T>, now: int, all: set<T>)
    requires Inv(w, p, false) && AllDisciplined(cb, all) && Within(w, all)
    ensures Closed(w) && TurnDefined(w, cb, now) && FullTurn(w, cb, now) == Turn(w, cb, now)
    ensures FullTurnEvents(w, cb, now) == TurnEvents(w, cb, now)
    decreases now - w.last
  {
    hide Inv, AllDisciplined, AfterAll, AllTimely, Tick, TickEvents, Closed, TickDefined, FullTick, FullTickEvents;
    ClosedOf(w, p, false);
    if w.last < now {
      DisciplinedTick(w, p, cb, all);
      TickInv(w, p, cb, all);
      DisciplinedTurn(Tick(w, cb), AfterAll(p, TickEvents(w, cb)), cb, now, all);
    }
  }

  // ----------------------------------------------------------------------- runs

  /** What the program does between two polls of the clock: Timer::Start, Timer::Stop, or a
      turn of the wheel up to the current time. */
  datatype Op<!T> = Arm(timer: T, expiration: int) | Cancel(timer: T) | Advance(now: int, cb: Callbacks<T>)

  function Perform<T(==)>(w: Wheel<T>, op: Op<T>): (u: Wheel<T>)
    requires Closed(w)
    ensures Closed(u)
  {
    match op
    case Arm(t, e) => Exec(w, Start(t, e))
    case Cancel(t) => Exec(w, Stop(t))
    case Advance(now, cb) => Turn(w, cb, now)
  }

  function PerformEvents<T(==)>(w: Wheel<T>, op: Op<T>): seq<Event<T>>
    requires Closed(w)
  {
    match op
    case Arm(t, e) => CommandEvents(w.last, [Start(t, e)])
    case Cancel(t) => CommandEvents(w.last, [Stop(t)])
    case Advance(now, cb) => TurnEvents(w, cb, now)
  }

  ghost predicate OpAllowed<T>(w: Wheel<T>, op: Op<T>, all: set<T>) {
    match op
    case Arm(t, e) => t in all && InRange(w.last, e)
    case Cancel(t) => t in all
    case Advance(now, cb) => AllDisciplined(cb, all)
  }

  /** Every arming of the run is one to 65535 ms ahead of the wheel's clock. */
  ghost predicate RunAllowed<T>(w: Wheel<T>, ops: seq<Op<T>>, all: set<T>)
    requires Closed(w)
    decreases |ops|
  {
    ops == [] || (OpAllowed(w, ops[0], all) && RunAllowed(Perform(w, ops[0]), ops[1..], all))
  }

  function Run<T(==)>(w: Wheel<T>, ops: seq<Op<T>>): (u: Wheel<T>)
    requires Closed(w)
    ensures Closed(u)
    decreases |ops|
  {
    if ops == [] then w else Run(Perform(w, ops[0]), ops[1..])
  }

  function History<T(==)>(w: Wheel<T>, ops: seq<Op<T>>): seq<Event<T>>
    requires Closed(w)
    decreases |ops|
  {
    if ops == [] then [] else PerformEvents(w, ops[0]) + History(Perform(w, ops[0]), ops[1..])
  }

  function Empty<T>(start: int): (w: Wheel<T>)
    ensures Closed(w)
  {
    Wheel(start, seq(RINGS * RING, _ => []), map[])
  }

  lemma PerformInv<T>(w: Wheel<T>, p: map<T, Entry>, op: Op<T>, all: set<T>)
    requires Inv(w, p, false) && Within(w, all) && OpAllowed(w, op, all)
    ensures Closed(w) && Inv(Perform(w, op), AfterAll(p, PerformEvents(w, op)), false)
    ensures AllTimely(p, PerformEvents(w, op)) && Within(Perform(w, op), all)
  {
    hide Inv, Closed, AfterAll, AllTimely, Turn, TurnEvents, AllDisciplined, CommandEvents, Exec, InRange;
    ClosedOf(w, p, false);
    match op
    case Arm(t, e) =>
      SingleExec(w, Start(t, e));
      ExecInv(w, p, [Start(t, e)], false);
      ExecWithin(w, [Start(t, e)], all);
    case Cancel(t) =>
      SingleExec(w, Stop(t));
      ExecInv(w, p, [Stop(t)], false);
      ExecWithin(w, [Stop(t)], all);
    case Advance(now, cb) =>
      TurnInv(w, p, cb, now, all);
  }

  lemma SingleExec<T>(w: Wheel<T>, c: Command<T>)
    requires Closed(w)
    ensures ExecAll(w, [c]) == Exec(w, c)
  {
    hide Closed, Exec;
    assert [c][1..] == [];
  }

  lemma {:induction false} RunInv<T>(w: Wheel<T>, p: map<T, Entry>, ops: seq<Op<T>>, all: set<T>)
    requires Inv(w, p, false) && Within(w, all) && Closed(w) && RunAllowed(w, ops, all)
    ensures Inv(Run(w, ops), AfterAll(p, History(w, ops)), false)
    ensures AllTimely(p, History(w, ops))
    decreases |ops|
  {
    hide Inv, Closed, AfterAll, AllTimely, Perform, PerformEvents, OpAllowed;
    if ops == [] {
      AfterNone(p);
    } else {
      PerformInv(w, p, ops[0], all);
      var u := Perform(w, ops[0]);
      RunInv(u, AfterAll(p, PerformEvents(w, ops[0])), ops[1..], all);
      AfterAllJoin(p, PerformEvents(w, ops[0]), History(u, ops[1..]));
    }
  }

  /** The main theorem.  In every run whose armings are one to 65535 ms ahead: every firing
      and every cascade is timely; the linked timers are exactly the armed ones that have
      neither fired nor been stopped since; and none of them is overdue: a settled one fires
      strictly after the clock, an unsettled one belongs to a later block. */
  lemma EveryTimerFiresOnceInItsBlock<T>(start: int, ops: seq<Op<T>>, all: set<T>)
    requires RunAllowed(Empty(start), ops, all)
    ensures var w := Run(Empty<T>(start), ops);
            var h := History(Empty<T>(start), ops);
            var pending := AfterAll(map[], h);
            && AllTimely(map[], h)
            && Housed(w, pending)
            && (forall t :: t in pending ==>
                  match pending[t].due
                  case Some(f) => w.last < f && Block(f) == Block(pending[t].expiration)
                  case None => Block(w.last) < Block(pending[t].expiration))
  {
    hide Closed, Housed, Run, History, AfterAll, AllTimely, RunAllowed;
    var w0 := Empty<T>(start);
    EmptyInv<T>(start);
    RunInv(w0, map[], ops, all);
  }

  lemma EmptyInv<T>(start: int)
    ensures Inv(Empty<T>(start), map[], false)
  {
  }

  // ------------------------------------------- the theorem read off the history

  /** The event begins or ends an arming of the timer. */
  predicate About<T(==)>(e: Event<T>, t: T) {
    !e.Moved? && e.timer == t
  }

  /** No event between two points of the history concerns the timer. */
  ghost predicate Silent<T>(h: seq<Event<T>>, from: nat, to: nat, t: T) {
    forall i :: from <= i < to && i < |h| ==> !About(h[i], t)
  }

  /** The cascade at m moved the timer, after its arming at j. */
  ghost predicate MovedSince<T>(h: seq<Event<T>>, j: nat, m: nat, t: T) {
    j < m < |h| && h[m].Moved? && t in h[m].timers
  }

  /** The arming is less than a block ahead, so it goes straight into ring 0. */
  predicate Near<T(==)>(e: Event<T>)
    requires e.Armed?
  {
    e.expiration - e.at < RING
  }

  /** The cascade at m is the only one that has moved the timer since its arming at j. */
  ghost predicate SettledBy<T>(h: seq<Event<T>>, m: nat, j: nat, t: T) {
    MovedSince(h, j, m, t) && forall n :: MovedSince(h, j, n, t) ==> n == m
  }

  /** The arming at j explains the entry at the end of the history.  A near one was linked
      straight into ring 0 and no cascade has touched it.  A far one waits in ring 1 until the
      one cascade that settles it. */
  ghost predicate Explains<T>(h: seq<Event<T>>, j: nat, t: T, e: Entry) {
    && j < |h| && h[j].Armed? && h[j].timer == t && h[j].expiration == e.expiration
    && Silent(h, j + 1, |h|, t)
    && (Near(h[j]) ==> e.due == Some(e.expiration))
    && (Near(h[j]) || e.due.None? ==> forall m :: !MovedSince(h, j, m, t))
    && (!Near(h[j]) && e.due.Some? ==> exists m: nat :: SettledBy(h, m, j, t) && h[m].due == e.due.value)
  }

  lemma {:induction false} AfterAllSnoc<T>(p: map<T, Entry>, h: seq<Event<T>>)
    requires h != []
    ensures AfterAll(p, h) == After(AfterAll(p, h[..|h| - 1]), h[|h| - 1])
    ensures AllTimely(p, h) ==> AllTimely(p, h[..|h| - 1]) && Timely(AfterAll(p, h[..|h| - 1]), h[|h| - 1])
  {
    hide After, Timely, AfterAll, AllTimely;
    var g, e := h[..|h| - 1], h[|h| - 1];
    assert h == g + [e];
    AfterAllJoin(p, g, [e]);
    AfterOne(AfterAll(p, g), e);
  }

  /** Every pending entry goes back to one arming. */
  lemma {:induction false} PendingIsExplained<T>(h: seq<Event<T>>, t: T) returns (j: nat)
    requires AllTimely(map[], h) && t in AfterAll(map[], h)
    ensures Explains(h, j, t, AfterAll(map[], h)[t])
    decreases |h|
  {
    hide AfterAll, AllTimely;
    if h == [] {
      AfterNone<T>(map[]);
      assert false;
    }
    AfterAllSnoc<T>(map[], h);
    var g, e := h[..|h| - 1], h[|h| - 1];
    var p := AfterAll(map[], g);
    if e.Armed? && e.timer == t {
      j := |h| - 1;
    } else {
      assert t in p;
      j := PendingIsExplained(g, t);
      assert h == g + [e];
      ExplainedOneLater(g, e, j, t, p[t]);
    }
  }

  lemma ExplainedOneLater<T>(g: seq<Event<T>>, e: Event<T>, j: nat, t: T, entry: Entry)
    requires Explains(g, j, t, entry) && !About(e, t)
    requires e.Moved? && t in e.timers ==> entry.due.None?
    ensures Explains(g + [e], j, t, if e.Moved? && t in e.timers then Entry(entry.expiration, Some(e.due)) else entry)
  {
    var h := g + [e];
    assert forall n :: MovedSince(h, j, n, t) <==> MovedSince(g, j, n, t) || (n == |g| && e.Moved? && t in e.timers);
    if e.Moved? && t in e.timers {
      assert SettledBy(h, |g|, j, t);
    } else if !Near(g[j]) && entry.due.Some? {
      var m: nat :| SettledBy(g, m, j, t) && g[m].due == entry.due.value;
      assert SettledBy(h, m, j, t);
    }
  }

  lemma {:induction false} TimelyPrefix<T>(h: seq<Event<T>>, i: nat)
    requires AllTimely(map[], h) && i < |h|
    ensures AllTimely(map[], h[..i]) && Timely(AfterAll(map[], h[..i]), h[i])
    decreases |h|
  {
    hide AfterAll, AllTimely, Timely;
    AfterAllSnoc<T>(map[], h);
    if i < |h| - 1 {
      TimelyPrefix(h[..|h| - 1], i);
      assert h[..|h| - 1][..i] == h[..i];
    }
  }

  /** Every firing answers exactly one earlier arming: the last event about the timer before
      it.  Tick and expiration lie in one block.  A near arming is moved by no cascade and fires
      exactly at its expiration; a far one is moved by one cascade and fires when that says. */
  lemma FiringAnswersOneArming<T>(h: seq<Event<T>>, i: nat) returns (j: nat)
    requires AllTimely(map[], h) && i < |h| && h[i].Fired?
    ensures j < i && h[j].Armed? && h[j].timer == h[i].timer && Silent(h, j + 1, i, h[i].timer)
    ensures Block(h[i].at) == Block(h[j].expiration)
    ensures Near(h[j]) ==> h[i].at == h[j].expiration && forall m :: !MovedSince(h[..i], j, m, h[i].timer)
    ensures !Near(h[j]) ==> exists m: nat :: SettledBy(h[..i], m, j, h[i].timer) && h[m].due == h[i].at
  {
    hide AllTimely, AfterAll;
    TimelyPrefix(h, i);
    j := PendingIsExplained(h[..i], h[i].timer);
    if !Near(h[j]) {
      var m: nat :| SettledBy(h[..i], m, j, h[i].timer) && h[..i][m].due == h[i].at;
      assert h[m].due == h[i].at;
    }
  }

  /** A cascade settles its timers to the expiration of the first of them. */
  lemma CascadeFollowsItsFirst<T>(h: seq<Event<T>>, m: nat) returns (j: nat)
    requires AllTimely(map[], h) && m < |h| && h[m].Moved?
    ensures h[m].timers != [] && j < m && h[j].Armed? && h[j].timer == h[m].timers[0]
    ensures Silent(h, j + 1, m, h[j].timer) && h[m].due == h[j].expiration && !Near(h[j])
  {
    hide AllTimely, AfterAll;
    TimelyPrefix(h, m);
    j := PendingIsExplained(h[..m], h[m].timers[0]);
  }

  /** The cascade at m moved the timer armed at j, behind the timer armed at k. */
  ghost predicate Led<T>(h: seq<Event<T>>, m: nat, j: nat, k: nat) {
    && j < m < |h| && k < m && h[m].Moved? && h[j].Armed? && h[k].Armed? && !Near(h[k])
    && h[j].timer in h[m].timers && h[m].timers != [] && h[m].timers[0] == h[k].timer && Silent(h, k + 1, m, h[k].timer)
  }

  /** The exact condition for a firing at the expiration of its own arming j.  A near arming
      fires exactly.  A far one fires at the expiration of arming k, that of the first timer of
      the one list it was cascaded in; so it is exact when it was itself the first, and
      otherwise if and only if the first had the same expiration. */
  lemma WhenFiringIsExact<T>(h: seq<Event<T>>, i: nat) returns (j: nat, k: nat)
    requires AllTimely(map[], h) && i < |h| && h[i].Fired?
    ensures j < i && h[j].Armed? && h[j].timer == h[i].timer && Silent(h, j + 1, i, h[i].timer)
    ensures k < i && h[k].Armed? && h[i].at == h[k].expiration
    ensures Near(h[j]) ==> k == j
    ensures !Near(h[j]) ==> exists m: nat :: m < i && Led(h, m, j, k)
    ensures forall m :: j < m < i && h[m].Moved? && h[i].timer in h[m].timers ==>
              && !Near(h[j]) && h[i].at == h[m].due && Led(h, m, j, k)
              && (h[k].timer == h[i].timer ==> k == j)
    ensures h[i].at == h[j].expiration <==> Near(h[j]) || h[k].expiration == h[j].expiration
  {
    hide AllTimely;
    j := FiringAnswersOneArming(h, i);
    if Near(h[j]) {
      k := j;
      assert forall m :: j < m < i && h[m].Moved? && h[i].timer in h[m].timers ==> MovedSince(h[..i], j, m, h[i].timer);
    } else {
      var m: nat :| SettledBy(h[..i], m, j, h[i].timer) && h[m].due == h[i].at;
      k := CascadeFollowsItsFirst(h, m);
      assert Led(h, m, j, k);
      assert forall n :: j < n < i && h[n].Moved? && h[i].timer in h[n].timers ==> MovedSince(h[..i], j, n, h[i].timer);
      if h[k].timer == h[j].timer {
        SameArming(h, j, k, m);
      }
    }
  }

  /** Two armings of a timer without an event about it since are one. */
  lemma SameArming<T>(h: seq<Event<T>>, j: nat, k: nat, m: nat)
    requires j < m <= |h| && k < m && h[j].Armed? && h[k].Armed? && h[j].timer == h[k].timer
    requires Silent(h, j + 1, m, h[j].timer) && Silent(h, k + 1, m, h[k].timer)
    ensures j == k
  {
    assert About(h[j], h[j].timer) && About(h[k], h[k].timer);
  }

  lemma {:induction false} ArmedUntilNextEvent<T>(h: seq<Event<T>>, j: nat)
    requires j < |h| && h[j].Armed? && Silent(h, j + 1, |h|, h[j].timer)
    ensures h[j].timer in AfterAll(map[], h) && AfterAll(map[], h)[h[j].timer].expiration == h[j].expiration
    decreases |h|
  {
    hide AfterAll, AllTimely;
    AfterAllSnoc<T>(map[], h);
    if j < |h| - 1 {
      ArmedUntilNextEvent(h[..|h| - 1], j);
      assert !About(h[|h| - 1], h[j].timer);
    }
  }

  /** In every run, once the wheel's clock has reached the end of the block of an
      expiration, that arming has been answered: the timer has since fired, been stopped or
      been armed again. */
  lemma EveryArmingIsAnswered<T>(start: int, ops: seq<Op<T>>, all: set<T>, j: nat) returns (i: nat)
    requires RunAllowed(Empty(start), ops, all)
    requires var h := History(Empty<T>(start), ops);
             && j < |h| && h[j].Armed?
             && Run(Empty<T>(start), ops).last >= RING * Block(h[j].expiration) + RING - 1
    ensures var h := History(Empty<T>(start), ops);
            j < i < |h| && About(h[i], h[j].timer)
  {
    hide Closed, Housed, Run, History, AfterAll, AllTimely, RunAllowed, Block;
    var h := History(Empty<T>(start), ops);
    EveryTimerFiresOnceInItsBlock(start, ops, all);
    if Silent(h, j + 1, |h|, h[j].timer) {
      ArmedUntilNextEvent(h, j);
      var e := AfterAll(map[], h)[h[j].timer];
      Overdue(Run(Empty<T>(start), ops).last, e);
      assert false;
    }
    i :| j + 1 <= i < |h| && About(h[i], h[j].timer);
  }

  lemma Overdue(now: int, e: Entry)
    requires now >= RING * Block(e.expiration) + RING - 1
    ensures Block(now) >= Block(e.expiration)
    ensures e.due.Some? && Block(e.due.value) == Block(e.expiration) ==> e.due.value <= now
  {
  }

  // ------------------------------------------------ where the wheel falls short

  /** Ticks of one block at which no slot list is due change nothing but the clock. */
  lemma {:induction false} QuietTurn<T>(w: Wheel<T>, cb: Callbacks<T>, now: int)
    requires Closed(w) && w.last <= now && Block(w.last) == Block(now)
    requires forall f :: w.last < f <= now ==> f % RING < |w.slots| && w.slots[f % RING] == []
    ensures Turn(w, cb, now) == w.(last := now) && TurnEvents(w, cb, now) == []
    decreases now - w.last
  {
    if w.last < now {
      var u := w.(last := w.last + 1);
      CalcTimes(u.last);
      assert u.last % RING != 0;
      assert Tick(w, cb) == u && TickEvents(w, cb) == [];
      QuietTurn(u, cb, now);
    }
  }

  lemma {:induction false} TurnSplit<T>(w: Wheel<T>, cb: Callbacks<T>, mid: int, now: int)
    requires Closed(w) && w.last <= mid <= now
    ensures Turn(w, cb, now) == Turn(Turn(w, cb, mid), cb, now)
    ensures TurnEvents(w, cb, now) == TurnEvents(w, cb, mid) + TurnEvents(Turn(w, cb, mid), cb, now)
    decreases mid - w.last
  {
    hide Closed, Tick, TickEvents;
    if w.last < mid {
      TurnSplit(Tick(w, cb), cb, mid, now);
    }
  }

  lemma UnlinkAbsent<T>(w: Wheel<T>, t: T)
    requires forall k, i :: 0 <= k < |w.slots| && 0 <= i < |w.slots[k]| ==> w.slots[k][i] != t
    ensures Unlink(w, t) == w
  {
    hide Remove;
    forall k | 0 <= k < |w.slots|
      ensures Remove(w.slots[k], t) == w.slots[k]
    {
      RemoveElements(w.slots[k], t);
    }
    assert Unlink(w, t).slots == w.slots;
  }

  function Idle(now: int, t: int): Reaction<int> { Reaction([], 0) }

  const BOTH := map[1 := 300, 2 := 400]

  /** A wheel of the example below: one list, in slot k. */
  function InSlot(now: int, k: nat, list: seq<int>, expiry: map<int, int>): (w: Wheel<int>)
    requires forall i :: 0 <= i < |list| ==> list[i] in expiry
    ensures Closed(w)
    ensures forall i :: 0 <= i < RINGS * RING ==> w.slots[i] == if i == k then list else []
  {
    Wheel(now, seq(RINGS * RING, i => if i == k then list else []), expiry)
  }

  lemma ArmTwoTimers()
    ensures var w1 := InSlot(0, RING + 1, [1], map[1 := 300]);
            && Exec(Empty<int>(0), Start(1, 300)) == w1
            && Exec(w1, Start(2, 400)) == InSlot(0, RING + 1, [2, 1], BOTH)
  {
    hide Closed, FindSlot, Unlink;
    var w0 := Empty<int>(0);
    var w1 := InSlot(0, RING + 1, [1], map[1 := 300]);
    FindSlotIsHome(0, 300);
    FindSlotIsHome(0, 400);
    UnlinkAbsent(SetExpiry(w0, 1, 300), 1);
    UnlinkAbsent(SetExpiry(w1, 2, 400), 2);
    assert Home(Arming(300, 0)) == RING + 1 && Home(Arming(400, 0)) == RING + 1;
    assert [1] + [] == [1] && [2] + [1] == [2, 1];
    assert Exec(w0, Start(1, 300)).slots == w0.slots[RING + 1 := [1] + []] == w1.slots;
    assert Exec(w1, Start(2, 400)).slots == w1.slots[RING + 1 := [2] + [1]] == InSlot(0, RING + 1, [2, 1], BOTH).slots;
  }

  /** The cascade at tick 256. */
  lemma SettlingTick()
    ensures var v := InSlot(RING - 1, RING + 1, [2, 1], BOTH);
            TickEvents(v, Idle) == [Moved([2, 1], 400)] && Tick(v, Idle) == InSlot(RING, 400 % RING, [2, 1], BOTH)
  {
    hide Closed, FindSlot, Drain, CalcTime;
    var v := InSlot(RING - 1, RING + 1, [2, 1], BOTH);
    CalcTimes(RING);
    NewBlock(RING, 400);
    var u := BeginTick(v);
    var cleared := v.slots[RING + 1 := []];
    assert cleared[400 % RING] + [2, 1] == [2, 1];
    assert u.slots == InSlot(RING, 400 % RING, [2, 1], BOTH).slots;
    assert u.slots[0] == [];
    assert DrainEvents(u, 0, Idle, 0) == [] && Drain(u, 0, Idle, 0) == u by { NothingToDrain(u); }
  }

  lemma NothingToDrain(u: Wheel<int>)
    requires Closed(u)
    ensures 0 < |u.slots| && Drain(u, 0, Idle, 0) == u
  {
  }

  /** The firing of both at tick 400. */
  lemma FiringTick()
    ensures TickEvents(InSlot(399, 400 % RING, [2, 1], BOTH), Idle) == [Fired(2, 400), Fired(1, 400)]
  {
    hide Closed, CalcTime, Unlink;
    var v := InSlot(399, 400 % RING, [2, 1], BOTH);
    CalcTimes(400);
    var u := BeginTick(v);
    assert u == InSlot(400, 400 % RING, [2, 1], BOTH);
    UnlinkFront();
    var u1 := FireOne(u, 400 % RING, Idle);
    assert u1 == InSlot(400, 400 % RING, [1], BOTH);
    assert FireEvents(u, 400 % RING, Idle) == [Fired(2, 400)];
    assert FireEvents(u1, 400 % RING, Idle) == [Fired(1, 400)];
    assert DrainEvents(FireOne(u1, 400 % RING, Idle), 400 % RING, Idle, 0) == [];
    assert DrainEvents(u1, 400 % RING, Idle, 1) == [Fired(1, 400)];
  }

  lemma UnlinkFront()
    ensures Unlink(InSlot(400, 400 % RING, [2, 1], BOTH), 2) == InSlot(400, 400 % RING, [1], BOTH)
  {
    var w, u := InSlot(400, 400 % RING, [2, 1], BOTH), InSlot(400, 400 % RING, [1], BOTH);
    assert [2, 1][1..] == [1] && [1][1..] == [];
    assert Remove([1], 2) == [1];
    assert Remove([2, 1], 2) == [1];
    assert Unlink(w, 2).slots == u.slots;
  }

  lemma TurnOfTwoTimers()
    ensures TurnEvents(InSlot(0, RING + 1, [2, 1], BOTH), Idle, 400) == [Moved([2, 1], 400), Fired(2, 400), Fired(1, 400)]
  {
    hide Closed, Tick, TickEvents;
    var w := InSlot(0, RING + 1, [2, 1], BOTH);
    var v := InSlot(RING - 1, RING + 1, [2, 1], BOTH);
    var u := InSlot(RING, 400 % RING, [2, 1], BOTH);
    var x := InSlot(399, 400 % RING, [2, 1], BOTH);
    SettlingTick();
    FiringTick();
    QuietTurn(w, Idle, RING - 1);
    assert Turn(w, Idle, RING - 1) == v;
    TurnSplit(w, Idle, RING - 1, 400);
    assert TurnEvents(v, Idle, 400) == [Moved([2, 1], 400)] + TurnEvents(u, Idle, 400);
    QuietTurn(u, Idle, 399);
    assert Turn(u, Idle, 399) == x;
    TurnSplit(u, Idle, 399, 400);
    assert TurnEvents(x, Idle, 400) == [Fired(2, 400), Fired(1, 400)] + [];
  }

  lemma HistoryStep(w: Wheel<int>, op: Op<int>, rest: seq<Op<int>>, all: set<int>)
    requires Closed(w)
    ensures History(w, [op] + rest) == PerformEvents(w, op) + History(Perform(w, op), rest)
    ensures OpAllowed(w, op, all) && RunAllowed(Perform(w, op), rest, all) ==> RunAllowed(w, [op] + rest, all)
  {
    hide Closed, Perform, PerformEvents, OpAllowed;
    assert ([op] + rest)[1..] == rest;
  }

  /** Firing is not exact: of two timers due 300 and 400 ms from now, armed in this order, both
      fire at 400. */
  lemma LateFiring()
    ensures var ops := [Arm(1, 300), Arm(2, 400), Advance(400, Idle)];
            && RunAllowed(Empty<int>(0), ops, {1, 2})
            && History(Empty<int>(0), ops) ==
               [Armed(1, 300, 0), Armed(2, 400, 0), Moved([2, 1], 400), Fired(2, 400), Fired(1, 400)]
  {
    hide Closed, Exec, Turn, TurnEvents, RunAllowed, History;
    ArmTwoTimers();
    TurnOfTwoTimers();
    var w0, w1, w2 := Empty<int>(0), InSlot(0, RING + 1, [1], map[1 := 300]), InSlot(0, RING + 1, [2, 1], BOTH);
    var o3 := [Advance(400, Idle)];
    var o2 := [Arm(2, 400)] + o3;
    NoMoreOps(Perform(w2, o3[0]));
    HistoryStep(w2, o3[0], [], {1, 2});
    assert o3 == [o3[0]] + [];
    HistoryStep(w1, Arm(2, 400), o3, {1, 2});
    HistoryStep(w0, Arm(1, 300), o2, {1, 2});
    OneStart(0, 1, 300);
    OneStart(0, 2, 400);
    assert [Arm(1, 300)] + o2 == [Arm(1, 300), Arm(2, 400), Advance(400, Idle)];
  }

  lemma NoMoreOps(w: Wheel<int>)
    requires Closed(w)
    ensures History(w, []) == [] && RunAllowed(w, [], {1, 2})
  {
  }

  lemma OneStart(now: int, t: int, e: int)
    ensures CommandEvents(now, [Start(t, e)]) == [Armed(t, e, now)]
  {
    assert [Start(t, e)][1..] == [];
  }
}
