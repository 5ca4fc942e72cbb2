/** Which timer leads a cascade.

    AddTimer links in front and nothing else fills ring 1, so the list that a cascade moves is a
    stack: the armings of its block that were a block or more ahead and still stand, the latest
    first.  The first of them decides when all of them fire (kernel/time/time_wheel.cc:130). */
module CascadeOrder {
  import opened Options
  import opened WheelModel

  /** An arming that goes to ring 1, into the list of block b. */
  predicate Far<T(==)>(e: Event<T>, b: int) {
    e.Armed? && !Near(e) && Block(e.expiration) == b
  }

  /** The list of a block, and whether its cascade has been. */
  datatype Stack<T> = Stack(list: seq<T>, gone: bool)

  function Line<T(==)>(s: Stack<T>, e: Event<T>, b: int): Stack<T> {
    match e
    case Armed(t, _, _) => s.(list := (if Far(e, b) then [t] else []) + Remove(s.list, t))
    case Stopped(t) => s.(list := Remove(s.list, t))
    case Fired(t, _) => s.(list := Remove(s.list, t))
    case Moved(_, due) => if Block(due) == b then Stack([], true) else s
  }

  function LineAll<T(==)>(s: Stack<T>, h: seq<Event<T>>, b: int): Stack<T>
    decreases |h|
  {
    if h == [] then s else LineAll(Line(s, h[0], b), h[1..], b)
  }

  /** A cascade moves exactly the stack of its block, once, and no arming comes after it. */
  predicate Fits<T(==)>(s: Stack<T>, e: Event<T>, b: int) {
    && (Far(e, b) ==> !s.gone)
    && (e.Moved? && Block(e.due) == b ==> !s.gone && e.timers == s.list)
  }

  predicate AllFit<T(==)>(s: Stack<T>, h: seq<Event<T>>, b: int)
    decreases |h|
  {
    h == [] || (Fits(s, h[0], b) && AllFit(Line(s, h[0], b), h[1..], b))
  }

  lemma {:induction false} LineJoin<T>(s: Stack<T>, g: seq<Event<T>>, h: seq<Event<T>>, b: int)
    ensures LineAll(s, g + h, b) == LineAll(LineAll(s, g, b), h, b)
    ensures AllFit(s, g + h, b) <==> AllFit(s, g, b) && AllFit(LineAll(s, g, b), h, b)
    decreases |g|
  {
    hide Line, Fits;
    if g == [] {
      assert g + h == h;
    } else {
      assert (g + h)[1..] == g[1..] + h;
      LineJoin(Line(s, g[0], b), g[1..], h, b);
    }
  }

  lemma LineOne<T>(s: Stack<T>, e: Event<T>, b: int)
    ensures LineAll(s, [e], b) == Line(s, e, b) && (AllFit(s, [e], b) <==> Fits(s, e, b))
  {
    hide Line, Fits;
    assert [e][1..] == [];
  }

  lemma LineNone<T>(s: Stack<T>, b: int)
    ensures LineAll(s, [], b) == s && AllFit(s, [], b)
  {
  }

  // ------------------------------------------------------------- the wheel keeps it

  predicate InWindow(last: int, b: int) {
    Block(last) < b <= Block(last) + RING
  }

  /** The slot of block b holds the stack while the block is ahead, and nothing else does. */
  ghost predicate Lined<T>(w: Wheel<T>, s: Stack<T>, b: int) {
    && |w.slots| == RINGS * RING
    && (s.gone ==> b <= Block(w.last))
    && s.list == if InWindow(w.last, b) then w.slots[RING + b % RING] else []
  }

  lemma UnlinkLined<T>(w: Wheel<T>, s: Stack<T>, b: int, t: T)
    requires Lined(w, s, b)
    ensures Lined(Unlink(w, t), s.(list := Remove(s.list, t)), b)
  {
  }

  lemma SlotOfBlock(last: int, b: int, c: int)
    requires InWindow(last, b) && InWindow(last, c)
    ensures RING + b % RING == RING + c % RING <==> b == c
  {
  }

  lemma StartLined<T>(w: Wheel<T>, s: Stack<T>, b: int, t: T, e: int)
    requires Closed(w) && Lined(w, s, b) && InRange(w.last, e)
    ensures Lined(Exec(w, Start(t, e)), Line(s, Armed(t, e, w.last), b), b) && Fits(s, Armed(t, e, w.last), b)
  {
    hide Closed, Remove, FindSlot, Unlink, Lined;
    var v := SetExpiry(w, t, e);
    FindSlotIsHome(w.last, e);
    SetLined(w, s, b, t, e);
    UnlinkLined(v, s, b, t);
    var u := Unlink(v, t);
    PushLined(u, s.(list := Remove(s.list, t)), b, t, e);
  }

  lemma SetLined<T>(w: Wheel<T>, s: Stack<T>, b: int, t: T, e: int)
    requires Lined(w, s, b)
    ensures Lined(SetExpiry(w, t, e), s, b)
  {
  }

  lemma PushLined<T>(u: Wheel<T>, s: Stack<T>, b: int, t: T, e: int)
    requires Lined(u, s, b) && InRange(u.last, e)
    ensures var k := Home(Arming(e, u.last));
            && |u.slots| == RINGS * RING
            && Lined(u.(slots := u.slots[k := [t] + u.slots[k]]),
                     s.(list := (if Far(Armed(t, e, u.last), b) then [t] else []) + s.list), b)
    ensures Far(Armed(t, e, u.last), b) ==> !s.gone
  {
    var a := Armed(t, e, u.last);
    FarWindow(u.last, e);
    if InWindow(u.last, b) && !Near(a) {
      SlotOfBlock(u.last, b, Block(e));
    }
    assert [] + s.list == s.list;
  }

  lemma FarWindow(last: int, e: int)
    requires InRange(last, e)
    ensures e - last >= RING ==> InWindow(last, Block(e))
  {
  }

  lemma {:induction false} ExecLined<T>(w: Wheel<T>, s: Stack<T>, b: int, cs: seq<Command<T>>)
    requires Closed(w) && Lined(w, s, b) && CommandsInRange(w.last, cs)
    ensures Lined(ExecAll(w, cs), LineAll(s, CommandEvents(w.last, cs), b), b)
    ensures AllFit(s, CommandEvents(w.last, cs), b)
    decreases |cs|
  {
    hide Closed, Lined, Line, Fits, Exec, InRange;
    if cs != [] {
      var h := CommandEvents(w.last, cs);
      assert h[1..] == CommandEvents(w.last, cs[1..]);
      match cs[0] {
        case Start(t, e) => StartLined(w, s, b, t, e);
        case Stop(t) => StopLined(w, s, b, t);
      }
      ExecLined(Exec(w, cs[0]), Line(s, h[0], b), b, cs[1..]);
    }
  }

  lemma StopLined<T>(w: Wheel<T>, s: Stack<T>, b: int, t: T)
    requires Closed(w) && Lined(w, s, b)
    ensures Lined(Exec(w, Stop(t)), Line(s, Stopped(t), b), b) && Fits(s, Stopped(t), b)
  {
    hide Lined, Unlink;
    UnlinkLined(w, s, b, t);
  }

  lemma FireLined<T>(w: Wheel<T>, p: map<T, Entry>, k: nat, cb: Callbacks<T>, s: Stack<T>, b: int)
    requires Inv(w, p, true) && k == w.last % RING && k < |w.slots| && w.slots[k] != []
    requires Disciplined(w.last, w.slots[k][0], cb(w.last, w.slots[k][0])) && Lined(w, s, b)
    ensures Closed(w) && Lined(FireOne(w, k, cb), LineAll(s, FireEvents(w, k, cb), b), b)
    ensures AllFit(s, FireEvents(w, k, cb), b)
  {
    hide Inv, Closed, Lined, Line, Fits, LineAll, AllFit, Add, Unlink, ExecAll, CommandEvents, CommandsInRange, Block, InRange;
    ClosedOf(w, p, true);
    DueNow(w, p, k, 0);
    var t := w.slots[k][0];
    var r := cb(w.last, t);
    var w1 := Unlink(w, t);
    var s1 := Line(s, Fired(t, w.last), b);
    FiredLined(w, s, b, t);
    var cmds := CommandEvents(w.last, r.commands);
    ExecLined(w1, s1, b, r.commands);
    var head := [Fired(t, w.last)];
    LineOne(s, Fired(t, w.last), b);
    LineJoin(s, head, cmds, b);
    if r.next > 0 {
      var u := ExecAll(w1, r.commands);
      ExpiryAfter(w1, r.commands, t);
      var e := u.expiry[t] + r.next;
      PeriodInRange(w.last, p[t].expiration, r.next);
      var s2 := LineAll(s1, cmds, b);
      StartLined(u, s2, b, t, e);
      LineOne(s2, Armed(t, e, w.last), b);
      LineJoin(s, head + cmds, [Armed(t, e, w.last)], b);
    } else {
      assert head + cmds + [] == head + cmds;
    }
  }

  lemma FiredLined<T>(w: Wheel<T>, s: Stack<T>, b: int, t: T)
    requires Lined(w, s, b)
    ensures Lined(Unlink(w, t), Line(s, Fired(t, w.last), b), b) && Fits(s, Fired(t, w.last), b)
  {
    hide Lined, Unlink;
    UnlinkLined(w, s, b, t);
  }

  lemma {:induction false} DrainLined<T>(w: Wheel<T>, p: map<T, Entry>, cb: Callbacks<T>, n: nat, all: set<T>, s: Stack<T>, b: int)
    requires Inv(w, p, true) && AllDisciplined(cb, all) && Within(w, all) && Lined(w, s, b)
    ensures var k := w.last % RING;
            && Closed(w) && k < |w.slots|
            && Lined(Drain(w, k, cb, n), LineAll(s, DrainEvents(w, k, cb, n), b), b)
            && AllFit(s, DrainEvents(w, k, cb, n), b)
    decreases n
  {
    hide Inv, Closed, Lined, LineAll, AllFit, FireOne, FireEvents, Disciplined;
    ClosedOf(w, p, true);
    ClosedShape(w);
    var k := w.last % RING;
    if n > 0 && w.slots[k] != [] {
      DueNow(w, p, k, 0);
      FireInv(w, p, k, cb);
      FireWithin(w, k, cb, all);
      FireLined(w, p, k, cb, s, b);
      var u := FireOne(w, k, cb);
      DrainLined(u, AfterAll(p, FireEvents(w, k, cb)), cb, n - 1, all, LineAll(s, FireEvents(w, k, cb), b), b);
      LineJoin(s, FireEvents(w, k, cb), DrainEvents(u, k, cb, n - 1), b);
    } else {
      LineNone(s, b);
    }
  }

  /** A tick empties the ring 1 slot of the block that begins and leaves the others. */
  lemma BeginSlots<T>(w: Wheel<T>, p: map<T, Entry>, j: nat)
    requires Inv(w, p, false) && RING <= j < 2 * RING
    ensures var n := w.last + 1;
            && Closed(w) && |w.slots| == |BeginTick(w).slots| == RINGS * RING
            && BeginTick(w).slots[j] == if n % RING == 0 && j == RING + Block(n) % RING then [] else w.slots[j]
  {
    hide Closed, Housed, Dated, After, Timely, CalcTime, Block, FindSlot;
    ClosedShape(w);
    ClosedShape(BeginTick(w));
    var u := w.(last := w.last + 1);
    ClosedLater(w, u.last);
    CalcTimes(u.last);
    if u.last % RING == 0 {
      if Cascaded(w, u.last) == [] {
        QuietTick(w, p);
        NothingToMove(u, RING + Block(u.last) % RING);
        if Block(u.last) % RING == 0 {
          UpperRingsStay(u, p);
        }
      } else {
        CascadedBlock(w, p, 0);
        NewBlock(u.last, w.expiry[Cascaded(w, u.last)[0]]);
        CascadeTick(w, p);
        if Block(u.last) % RING == 0 {
          UpperRingsStay(Move(u, RING), After(p, Moved(Cascaded(w, u.last), w.expiry[Cascaded(w, u.last)[0]])));
        }
      }
    }
  }

  lemma BeginLined<T>(w: Wheel<T>, p: map<T, Entry>, s: Stack<T>, b: int)
    requires Inv(w, p, false) && Lined(w, s, b)
    ensures Closed(w) && Lined(BeginTick(w), LineAll(s, CascadeEvents(w), b), b) && AllFit(s, CascadeEvents(w), b)
  {
    hide Inv, Closed, BeginTick, LineAll, AllFit;
    ClosedOf(w, p, false);
    BeginSlots(w, p, RING + b % RING);
    LineNone(s, b);
    var n := w.last + 1;
    if Cascaded(w, n) != [] {
      CascadedBlock(w, p, 0);
      LineOne(s, Moved(Cascaded(w, n), w.expiry[Cascaded(w, n)[0]]), b);
    }
  }

  lemma TickLined<T>(w: Wheel<T>, p: map<T, Entry>, cb: Callbacks<T>, all: set<T>, s: Stack<T>, b: int)
    requires Inv(w, p, false) && AllDisciplined(cb, all) && Within(w, all) && Lined(w, s, b)
    ensures Closed(w) && Lined(Tick(w, cb), LineAll(s, TickEvents(w, cb), b), b) && AllFit(s, TickEvents(w, cb), b)
  {
    hide Inv, AllDisciplined, AfterAll, AllTimely, Drain, DrainEvents, CascadeEvents, CalcTime, Cascade, Closed, Lined, LineAll, AllFit;
    BeginTickInv(w, p);
    BeginLined(w, p, s, b);
    var u := BeginTick(w);
    ClosedShape(u);
    CalcTimes(u.last);
    var n := |u.slots[u.last % RING]|;
    DrainLined(u, AfterAll(p, CascadeEvents(w)), cb, n, all, LineAll(s, CascadeEvents(w), b), b);
    LineJoin(s, CascadeEvents(w), DrainEvents(u, u.last % RING, cb, n), b);
  }

  lemma {:induction false} TurnLined<T>(w: Wheel<T>, p: map<T, Entry>, cb: Callbacks<T>, now: int, all: set<T>, s: Stack<T>, b: int)
    requires Inv(w, p, false) && AllDisciplined(cb, all) && Within(w, all) && Lined(w, s, b)
    ensures Closed(w) && Lined(Turn(w, cb, now), LineAll(s, TurnEvents(w, cb, now), b), b) && AllFit(s, TurnEvents(w, cb, now), b)
    decreases now - w.last
  {
    hide Inv, AllDisciplined, AfterAll, AllTimely, Tick, TickEvents, Closed, Lined, LineAll, AllFit;
    ClosedOf(w, p, false);
    LineNone(s, b);
    if w.last < now {
      TickInv(w, p, cb, all);
      TickLined(w, p, cb, all, s, b);
      var u := Tick(w, cb);
      TurnLined(u, AfterAll(p, TickEvents(w, cb)), cb, now, all, LineAll(s, TickEvents(w, cb), b), b);
      LineJoin(s, TickEvents(w, cb), TurnEvents(u, cb, now), b);
    }
  }

  lemma PerformLined<T>(w: Wheel<T>, p: map<T, Entry>, op: Op<T>, all: set<T>, s: Stack<T>, b: int)
    requires Inv(w, p, false) && Within(w, all) && OpAllowed(w, op, all) && Lined(w, s, b)
    ensures Closed(w) && Lined(Perform(w, op), LineAll(s, PerformEvents(w, op), b), b) && AllFit(s, PerformEvents(w, op), b)
  {
    hide Inv, Closed, Lined, LineAll, AllFit, Turn, TurnEvents, AllDisciplined, CommandEvents, Exec, InRange;
    ClosedOf(w, p, false);
    match op
    case Arm(t, e) =>
      SingleExec(w, Start(t, e));
      ExecLined(w, s, b, [Start(t, e)]);
    case Cancel(t) =>
      SingleExec(w, Stop(t));
      ExecLined(w, s, b, [Stop(t)]);
    case Advance(now, cb) =>
      TurnLined(w, p, cb, now, all, s, b);
  }

  lemma {:induction false} RunLined<T>(w: Wheel<T>, p: map<T, Entry>, ops: seq<Op<T>>, all: set<T>, s: Stack<T>, b: int)
    requires Inv(w, p, false) && Within(w, all) && Closed(w) && RunAllowed(w, ops, all) && Lined(w, s, b)
    ensures AllFit(s, History(w, ops), b)
    decreases |ops|
  {
    hide Inv, Closed, AfterAll, AllTimely, Perform, PerformEvents, OpAllowed, Lined, LineAll, AllFit;
    LineNone(s, b);
    if ops != [] {
      PerformInv(w, p, ops[0], all);
      PerformLined(w, p, ops[0], all, s, b);
      var u := Perform(w, ops[0]);
      RunLined(u, AfterAll(p, PerformEvents(w, ops[0])), ops[1..], all, LineAll(s, PerformEvents(w, ops[0]), b), b);
      LineJoin(s, PerformEvents(w, ops[0]), History(u, ops[1..]), b);
    }
  }

  /** In every run of the wheel: each block is cascaded at most once, and the list it moves is
      exactly the stack of its far armings. */
  lemma CascadesAreStacks<T>(start: int, ops: seq<Op<T>>, all: set<T>, b: int)
    requires RunAllowed(Empty(start), ops, all)
    ensures AllFit(Stack([], false), History(Empty<T>(start), ops), b)
  {
    hide Inv, RunAllowed, History, AllFit;
    EmptyInv<T>(start);
    RunLined(Empty<T>(start), map[], ops, all, Stack([], false), b);
  }

  // ------------------------------------------------------ the stack in the history

  /** The last arming of a timer, or -1. */
  function LastArm<T(==)>(h: seq<Event<T>>, t: T): (k: int)
    ensures -1 <= k < |h| && (k >= 0 ==> h[k].Armed? && h[k].timer == t)
  {
    if h == [] then -1
    else if h[|h| - 1].Armed? && h[|h| - 1].timer == t then |h| - 1
    else LastArm(h[..|h| - 1], t)
  }

  /** The far arming at k for block b has neither fired nor been stopped or renewed. */
  ghost predicate Standing<T>(h: seq<Event<T>>, k: nat, b: int): (yes: bool)
    ensures yes ==> k < |h| && h[k].Armed?
  {
    k < |h| && Far(h[k], b) && Silent(h, k + 1, |h|, h[k].timer)
  }

  ghost predicate Descending<T>(h: seq<Event<T>>, list: seq<T>) {
    list == [] || (Descending(h, list[1..]) && forall x :: x in list[1..] ==> LastArm(h, x) < LastArm(h, list[0]))
  }

  /** The stack holds the timers of the standing armings, the latest first. */
  ghost predicate Shape<T>(h: seq<Event<T>>, s: Stack<T>, b: int) {
    && (forall t :: t in s.list ==> LastArm(h, t) >= 0 && Standing(h, LastArm(h, t), b))
    && Descending(h, s.list)
    && (!s.gone ==> forall k: nat :: Standing(h, k, b) ==> h[k].timer in s.list)
  }

  lemma LastArmLater<T>(g: seq<Event<T>>, e: Event<T>, t: T)
    ensures LastArm(g + [e], t) == if e.Armed? && e.timer == t then |g| else LastArm(g, t)
  {
    assert (g + [e])[..|g|] == g;
  }

  lemma StandingLater<T>(g: seq<Event<T>>, e: Event<T>, k: nat, b: int)
    ensures k < |g| ==> (Standing(g + [e], k, b) <==> Standing(g, k, b) && !About(e, g[k].timer))
    ensures k == |g| ==> (Standing(g + [e], k, b) <==> Far(e, b))
  {
    var h := g + [e];
    if k < |g| && Far(g[k], b) {
      assert h[|g|] == e;
      assert forall i :: 0 <= i < |g| ==> h[i] == g[i];
    }
  }

  lemma {:induction false} DescendingRemove<T>(h: seq<Event<T>>, list: seq<T>, t: T)
    requires Descending(h, list)
    ensures Descending(h, Remove(list, t))
  {
    hide LastArm;
    if list != [] {
      DescendingRemove(h, list[1..], t);
      RemoveElements(list[1..], t);
      if list[0] != t {
        assert Remove(list, t)[1..] == Remove(list[1..], t);
      } else {
        assert Remove(list, t) == Remove(list[1..], t);
      }
    }
  }

  lemma {:induction false} DescendingLater<T>(g: seq<Event<T>>, e: Event<T>, list: seq<T>)
    requires Descending(g, list) && (e.Armed? ==> e.timer !in list)
    ensures Descending(g + [e], list)
  {
    hide LastArm;
    if list != [] {
      DescendingLater(g, e, list[1..]);
      forall x | x in list
        ensures LastArm(g + [e], x) == LastArm(g, x)
      {
        LastArmLater(g, e, x);
      }
    }
  }

  lemma ShapeRemoved<T>(g: seq<Event<T>>, e: Event<T>, s: Stack<T>, b: int)
    requires Shape(g, s, b) && !e.Moved? && !Far(e, b)
    ensures Shape(g + [e], s.(list := Remove(s.list, e.timer)), b)
  {
    hide LastArm, Remove, Descending, Standing, Far;
    var h, t := g + [e], e.timer;
    var rest := Remove(s.list, t);
    RemoveElements(s.list, t);
    DescendingRemove(g, s.list, t);
    DescendingLater(g, e, rest);
    forall x | x in rest
      ensures LastArm(h, x) >= 0 && Standing(h, LastArm(h, x), b)
    {
      LastArmLater(g, e, x);
      StandingLater(g, e, LastArm(g, x), b);
    }
    forall k: nat | !s.gone && Standing(h, k, b)
      ensures h[k].timer in rest
    {
      StandingLater(g, e, k, b);
      assert h[k].timer != t;
    }
  }

  lemma ShapePushed<T>(g: seq<Event<T>>, e: Event<T>, s: Stack<T>, b: int)
    requires Shape(g, s, b) && Far(e, b)
    ensures Shape(g + [e], s.(list := [e.timer] + Remove(s.list, e.timer)), b)
  {
    hide LastArm, Remove, Standing;
    var h, t := g + [e], e.timer;
    var rest := Remove(s.list, t);
    var list := [t] + rest;
    RemoveElements(s.list, t);
    DescendingRemove(g, s.list, t);
    DescendingLater(g, e, rest);
    LastArmLater(g, e, t);
    StandingLater(g, e, |g|, b);
    forall x | x in rest
      ensures 0 <= LastArm(h, x) < |g| && Standing(h, LastArm(h, x), b)
    {
      LastArmLater(g, e, x);
      StandingLater(g, e, LastArm(g, x), b);
    }
    assert list[1..] == rest;
    forall k: nat | !s.gone && Standing(h, k, b)
      ensures h[k].timer in list
    {
      StandingLater(g, e, k, b);
      assert h[k].timer == t || h[k].timer in rest;
    }
  }

  lemma ShapeMoved<T>(g: seq<Event<T>>, e: Event<T>, s: Stack<T>, b: int)
    requires Shape(g, s, b) && e.Moved?
    ensures Shape(g + [e], Line(s, e, b), b)
  {
    hide LastArm, Remove, Descending, Standing;
    var h := g + [e];
    if Block(e.due) == b {
      NoneDescending(h);
    } else {
      DescendingLater(g, e, s.list);
      forall x | x in s.list
        ensures LastArm(h, x) >= 0 && Standing(h, LastArm(h, x), b)
      {
        LastArmLater(g, e, x);
        StandingLater(g, e, LastArm(g, x), b);
      }
      forall k: nat | !s.gone && Standing(h, k, b)
        ensures h[k].timer in s.list
      {
        StandingLater(g, e, k, b);
      }
    }
  }

  lemma NoneDescending<T>(h: seq<Event<T>>)
    ensures Descending(h, [])
  {
  }

  lemma {:induction false} StackShape<T>(h: seq<Event<T>>, b: int)
    ensures Shape(h, LineAll(Stack([], false), h, b), b)
    decreases |h|
  {
    hide Shape, Remove, Far;
    if h == [] {
      EmptyShape<T>(b);
    } else {
      var g, e := h[..|h| - 1], h[|h| - 1];
      assert h == g + [e];
      StackShape(g, b);
      var s := LineAll(Stack([], false), g, b);
      LineJoin(Stack([], false), g, [e], b);
      LineOne(s, e, b);
      if e.Moved? {
        ShapeMoved(g, e, s, b);
      } else if Far(e, b) {
        ShapePushed(g, e, s, b);
        FarArmed(e, b);
      } else {
        ShapeRemoved(g, e, s, b);
        assert [] + Remove(s.list, e.timer) == Remove(s.list, e.timer);
      }
    }
  }

  lemma FarArmed<T>(e: Event<T>, b: int)
    requires Far(e, b)
    ensures e.Armed?
  {
  }

  lemma EmptyShape<T>(b: int)
    ensures Shape<T>([], Stack([], false), b)
  {
  }

  lemma {:induction false} FitsAt<T>(s: Stack<T>, h: seq<Event<T>>, b: int, m: nat)
    requires AllFit(s, h, b) && m < |h|
    ensures Fits(LineAll(s, h[..m], b), h[m], b)
    decreases m
  {
    hide Fits, Line;
    if m > 0 {
      FitsAt(Line(s, h[0], b), h[1..], b, m - 1);
      assert h[..m][1..] == h[1..][..m - 1];
    }
  }

  /** The arming at k leads block b: the last standing far arming of the block. */
  ghost predicate Leads<T>(h: seq<Event<T>>, k: nat, b: int) {
    Standing(h, k, b) && forall n: nat :: k < n ==> !Standing(h, n, b)
  }

  /** In every run, what a cascade moves are the timers of the standing far armings of its block,
      and the latest of these armings sets the tick of all of them. */
  lemma LatestArmingLeads<T>(start: int, ops: seq<Op<T>>, all: set<T>, m: nat) returns (k: nat)
    requires RunAllowed(Empty(start), ops, all)
    requires var h := History(Empty<T>(start), ops); m < |h| && h[m].Moved?
    ensures var h := History(Empty<T>(start), ops);
            var b := Block(h[m].due);
            && k < m && Leads(h[..m], k, b) && h[m].timers != [] && h[m].timers[0] == h[k].timer
            && h[k].Armed? && h[m].due == h[k].expiration
            && (forall t :: t in h[m].timers <==> exists n: nat :: Standing(h[..m], n, b) && h[n].timer == t)
            && Descending(h[..m], h[m].timers)
  {
    hide RunAllowed, History, AllTimely, AllFit, LineAll, Descending, Standing, LastArm;
    var h := History(Empty<T>(start), ops);
    var b := Block(h[m].due);
    var g := h[..m];
    EmptyInv<T>(start);
    RunInv(Empty<T>(start), map[], ops, all);
    CascadesAreStacks(start, ops, all, b);
    FitsAt(Stack([], false), h, b, m);
    StackShape(g, b);
    var list := h[m].timers;
    var j := CascadeFollowsItsFirst(h, m);
    k := LastArm(g, list[0]);
    StandingSilent(g, k, b);
    SameArming(h, j, k, m);
    forall t
      ensures t in list <==> exists n: nat :: Standing(g, n, b) && h[n].timer == t
    {
      if t in list {
        assert Standing(g, LastArm(g, t), b) && h[LastArm(g, t)].timer == t;
      }
    }
    forall n: nat | k < n
      ensures !Standing(g, n, b)
    {
      if Standing(g, n, b) {
        LaterIsHigher(g, n, list, b);
      }
    }
  }

  lemma StandingSilent<T>(g: seq<Event<T>>, k: nat, b: int)
    requires Standing(g, k, b)
    ensures k < |g| && Silent(g, k + 1, |g|, g[k].timer) && Far(g[k], b)
  {
  }

  lemma LaterIsHigher<T>(g: seq<Event<T>>, n: nat, list: seq<T>, b: int)
    requires Standing(g, n, b) && g[n].timer in list && Descending(g, list)
    requires forall t :: t in list ==> LastArm(g, t) >= 0 && Standing(g, LastArm(g, t), b)
    ensures n <= LastArm(g, list[0])
  {
    hide LastArm;
    var t := g[n].timer;
    SameArming(g, n, LastArm(g, t), |g|);
    assert list == [list[0]] + list[1..];
  }

  /** The cascade at m moved the timer armed at j, and arming k led its block. */
  ghost predicate CascadedUnder<T>(h: seq<Event<T>>, m: nat, j: nat, k: nat) {
    && j < m < |h| && h[m].Moved? && h[j].Armed? && h[j].timer in h[m].timers
    && Leads(h[..m], k, Block(h[j].expiration))
  }

  /** When a timer fires in every run, from the armings alone: a near one exactly at its
      expiration; a far one at the expiration of the latest far arming of its block that still
      stood when the block began, so exactly if and only if that one had the same expiration. */
  lemma FiringFollowsTheLatestArming<T>(start: int, ops: seq<Op<T>>, all: set<T>, i: nat) returns (j: nat, k: nat)
    requires RunAllowed(Empty(start), ops, all)
    requires var h := History(Empty<T>(start), ops); i < |h| && h[i].Fired?
    ensures var h := History(Empty<T>(start), ops);
            && j < i && h[j].Armed? && h[j].timer == h[i].timer && Silent(h, j + 1, i, h[i].timer)
            && k < i && h[k].Armed? && h[i].at == h[k].expiration
            && (Near(h[j]) ==> k == j)
            && (!Near(h[j]) ==> exists m: nat :: m < i && CascadedUnder(h, m, j, k))
            && (forall m: nat :: j < m < i && h[m].Moved? && h[i].timer in h[m].timers ==>
                  !Near(h[j]) && h[i].at == h[m].due && CascadedUnder(h, m, j, k))
            && (h[i].at == h[j].expiration <==> Near(h[j]) || h[k].expiration == h[j].expiration)
  {
    hide RunAllowed, History, AllTimely, Leads, Block;
    var h := History(Empty<T>(start), ops);
    EmptyInv<T>(start);
    RunInv(Empty<T>(start), map[], ops, all);
    j, k := WhenFiringIsExact(h, i);
    var j' := FiringAnswersOneArming(h, i);
    SameArming(h, j, j', i);
    forall m: nat | j < m < i && h[m].Moved? && h[i].timer in h[m].timers
      ensures CascadedUnder(h, m, j, k)
    {
      assert Led(h, m, j, k);
      var l := LatestArmingLeads(start, ops, all, m);
      LeadsStanding(h[..m], l, Block(h[m].due));
      SameArming(h, k, l, m);
    }
  }

  lemma LeadsStanding<T>(g: seq<Event<T>>, k: nat, b: int)
    requires Leads(g, k, b)
    ensures k < |g| && Silent(g, k + 1, |g|, g[k].timer) && Far(g[k], b)
  {
  }
}
