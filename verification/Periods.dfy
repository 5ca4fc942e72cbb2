/** How a timer whose callback returns a period is armed again (kernel/time/timer.cc:22-31): by
    the period, counted from the expiration it had, not from the tick it fired at. */
module Periods {
  import opened Options
  import opened WheelModel

  /** The expiration a period is added to: the one the callback has just set for its own timer, or
      the one the timer had. */
  function Base<T(==)>(r: Reaction<T>, t: T, e: int): int {
    match LastStart(r.commands, t)
    case None => e
    case Some(x) => x
  }

  /** The firing at i is followed by what its callback commands and, for a period, by the next
      arming. */
  ghost predicate RearmedAt<T>(p: map<T, Entry>, h: seq<Event<T>>, i: nat, cb: Callbacks<T>)
    requires i < |h| && h[i].Fired?
  {
    var t, at := h[i].timer, h[i].at;
    var r := cb(at, t);
    var n := i + 1 + |r.commands|;
    && t in AfterAll(p, h[..i]) && n <= |h|
    && h[i + 1..n] == CommandEvents(at, r.commands)
    && (r.next > 0 ==> n < |h| && h[n] == Armed(t, Base(r, t, AfterAll(p, h[..i])[t].expiration) + r.next, at))
  }

  ghost predicate AllRearmed<T>(p: map<T, Entry>, h: seq<Event<T>>, cb: Callbacks<T>) {
    forall i: nat :: i < |h| && h[i].Fired? ==> RearmedAt(p, h, i, cb)
  }

  lemma RearmedLonger<T>(p: map<T, Entry>, a: seq<Event<T>>, b: seq<Event<T>>, i: nat, cb: Callbacks<T>)
    requires i < |a| && a[i].Fired? && RearmedAt(p, a, i, cb)
    ensures RearmedAt(p, a + b, i, cb)
  {
    hide AfterAll, CommandEvents, LastStart;
    var n := i + 1 + |cb(a[i].at, a[i].timer).commands|;
    assert (a + b)[..i] == a[..i];
    assert (a + b)[i + 1..n] == a[i + 1..n];
  }

  lemma RearmedBehind<T>(p: map<T, Entry>, a: seq<Event<T>>, b: seq<Event<T>>, i: nat, cb: Callbacks<T>)
    requires i < |b| && b[i].Fired? && RearmedAt(AfterAll(p, a), b, i, cb)
    ensures RearmedAt(p, a + b, |a| + i, cb)
  {
    hide AfterAll, CommandEvents, LastStart;
    var h := a + b;
    var n := i + 1 + |cb(b[i].at, b[i].timer).commands|;
    assert h[..|a| + i] == a + b[..i];
    AfterAllJoin(p, a, b[..i]);
    assert h[|a| + i + 1..|a| + n] == b[i + 1..n];
  }

  lemma RearmedJoin<T>(p: map<T, Entry>, a: seq<Event<T>>, b: seq<Event<T>>, cb: Callbacks<T>)
    requires AllRearmed(p, a, cb) && AllRearmed(AfterAll(p, a), b, cb)
    ensures AllRearmed(p, a + b, cb)
  {
    hide AfterAll, RearmedAt;
    forall i: nat | i < |a + b| && (a + b)[i].Fired?
      ensures RearmedAt(p, a + b, i, cb)
    {
      if i < |a| {
        RearmedLonger(p, a, b, i, cb);
      } else {
        RearmedBehind(p, a, b, i - |a|, cb);
      }
    }
  }

  lemma {:induction false} CommandsFireNothing<T>(now: int, cs: seq<Command<T>>)
    ensures |CommandEvents(now, cs)| == |cs|
    ensures forall i :: 0 <= i < |cs| ==> !CommandEvents(now, cs)[i].Fired?
  {
    if cs != [] {
      CommandsFireNothing(now, cs[1..]);
    }
  }

  lemma FireRearms<T>(w: Wheel<T>, p: map<T, Entry>, k: nat, cb: Callbacks<T>)
    requires Inv(w, p, true) && k == w.last % RING && k < |w.slots| && w.slots[k] != []
    ensures Closed(w) && AllRearmed(p, FireEvents(w, k, cb), cb)
  {
    hide Inv, Closed, ExecAll, Unlink, CommandEvents, LastStart, AfterAll;
    ClosedOf(w, p, true);
    DueNow(w, p, k, 0);
    var t := w.slots[k][0];
    var r := cb(w.last, t);
    var h := FireEvents(w, k, cb);
    CommandsFireNothing(w.last, r.commands);
    ExpiryAfter(Unlink(w, t), r.commands, t);
    AfterNone(p);
    assert h[..0] == [] && h[1..1 + |r.commands|] == CommandEvents(w.last, r.commands);
    assert RearmedAt(p, h, 0, cb);
  }

  lemma {:induction false} DrainRearms<T>(w: Wheel<T>, p: map<T, Entry>, cb: Callbacks<T>, n: nat, all: set<T>)
    requires Inv(w, p, true) && AllDisciplined(cb, all) && Within(w, all)
    ensures var k := w.last % RING;
            Closed(w) && k < |w.slots| && AllRearmed(p, DrainEvents(w, k, cb, n), cb)
    decreases n
  {
    hide Inv, Closed, AllRearmed, FireOne, FireEvents, Disciplined;
    ClosedOf(w, p, true);
    ClosedShape(w);
    NothingRearmed(p, cb);
    var k := w.last % RING;
    if n > 0 && w.slots[k] != [] {
      DueNow(w, p, k, 0);
      FireInv(w, p, k, cb);
      FireWithin(w, k, cb, all);
      FireRearms(w, p, k, cb);
      var u := FireOne(w, k, cb);
      DrainRearms(u, AfterAll(p, FireEvents(w, k, cb)), cb, n - 1, all);
      RearmedJoin(p, FireEvents(w, k, cb), DrainEvents(u, k, cb, n - 1), cb);
    }
  }

  lemma NothingRearmed<T>(p: map<T, Entry>, cb: Callbacks<T>)
    ensures AllRearmed(p, [], cb)
  {
  }

  lemma CascadeRearmsNothing<T>(w: Wheel<T>, p: map<T, Entry>, cb: Callbacks<T>)
    requires Closed(w)
    ensures AllRearmed(p, CascadeEvents(w), cb)
  {
  }

  lemma TickRearms<T>(w: Wheel<T>, p: map<T, Entry>, cb: Callbacks<T>, all: set<T>)
    requires Inv(w, p, false) && AllDisciplined(cb, all) && Within(w, all)
    ensures Closed(w) && AllRearmed(p, TickEvents(w, cb), cb)
  {
    hide Inv, AllDisciplined, AfterAll, AllTimely, AllRearmed, Drain, DrainEvents, CascadeEvents, CalcTime, Cascade, Closed;
    BeginTickInv(w, p);
    CascadeRearmsNothing(w, p, cb);
    var u := BeginTick(w);
    ClosedShape(u);
    CalcTimes(u.last);
    var n := |u.slots[u.last % RING]|;
    DrainRearms(u, AfterAll(p, CascadeEvents(w)), cb, n, all);
    RearmedJoin(p, CascadeEvents(w), DrainEvents(u, u.last % RING, cb, n), cb);
  }

  lemma {:induction false} TurnRearms<T>(w: Wheel<T>, p: map<T, Entry>, cb: Callbacks<T>, now: int, all: set<T>)
    requires Inv(w, p, false) && AllDisciplined(cb, all) && Within(w, all)
    ensures Closed(w) && AllRearmed(p, TurnEvents(w, cb, now), cb)
    decreases now - w.last
  {
    hide Inv, AllDisciplined, AfterAll, AllTimely, AllRearmed, Tick, TickEvents, Closed;
    ClosedOf(w, p, false);
    NothingRearmed(p, cb);
    if w.last < now {
      TickInv(w, p, cb, all);
      TickRearms(w, p, cb, all);
      var q := AfterAll(p, TickEvents(w, cb));
      TurnRearms(Tick(w, cb), q, cb, now, all);
      RearmedJoin(p, TickEvents(w, cb), TurnEvents(Tick(w, cb), cb, now), cb);
    }
  }

  lemma {:induction false} RunWithin<T>(w: Wheel<T>, p: map<T, Entry>, ops: seq<Op<T>>, all: set<T>)
    requires Inv(w, p, false) && Within(w, all) && Closed(w) && RunAllowed(w, ops, all)
    ensures Within(Run(w, ops), all)
    decreases |ops|
  {
    hide Inv, Closed, AfterAll, Perform, PerformEvents, OpAllowed;
    if ops != [] {
      PerformInv(w, p, ops[0], all);
      RunWithin(Perform(w, ops[0]), AfterAll(p, PerformEvents(w, ops[0])), ops[1..], all);
    }
  }

  lemma {:induction false} AllowedJoin<T>(w: Wheel<T>, a: seq<Op<T>>, b: seq<Op<T>>, all: set<T>)
    requires Closed(w) && RunAllowed(w, a + b, all)
    ensures RunAllowed(w, a, all) && RunAllowed(Run(w, a), b, all)
    decreases |a|
  {
    hide Closed, Perform, OpAllowed;
    if a == [] {
      assert a + b == b;
    } else {
      assert (a + b)[1..] == a[1..] + b;
      AllowedJoin(Perform(w, a[0]), a[1..], b, all);
    }
  }

  /** In every run: a firing during a turn is followed by the commands of its callback and, when the
      callback returns a period, by an arming for the old expiration plus the period, where the old
      expiration is that of the arming the firing answers, unless the callback has itself started its
      timer. */
  lemma PeriodsAreCountedFromTheExpiration<T>(start: int, before: seq<Op<T>>, now: int, cb: Callbacks<T>, all: set<T>, i: nat)
    returns (j: nat)
    requires RunAllowed(Empty(start), before + [Advance(now, cb)], all)
    requires var turn := TurnEvents(Run(Empty<T>(start), before), cb, now); i < |turn| && turn[i].Fired?
    ensures var g := History(Empty<T>(start), before);
            var h := g + TurnEvents(Run(Empty<T>(start), before), cb, now);
            var f := |g| + i;
            var r := cb(h[f].at, h[f].timer);
            var n := f + 1 + |r.commands|;
            && j < f && h[j].Armed? && h[j].timer == h[f].timer && Silent(h, j + 1, f, h[f].timer)
            && n <= |h| && h[f + 1..n] == CommandEvents(h[f].at, r.commands)
            && (r.next > 0 ==> n < |h| && h[n] == Armed(h[f].timer, Base(r, h[f].timer, h[j].expiration) + r.next, h[f].at))
  {
    hide Inv, RunAllowed, History, Run, AllTimely, AfterAll, TurnEvents, CommandEvents, LastStart, AllDisciplined, Explains;
    var w0 := Empty<T>(start);
    EmptyInv<T>(start);
    AllowedJoin(w0, before, [Advance(now, cb)], all);
    RunInv(w0, map[], before, all);
    RunWithin(w0, map[], before, all);
    var w := Run(w0, before);
    var g := History(w0, before);
    var p := AfterAll(map[], g);
    OneAllowed(w, now, cb, all);
    TurnInv(w, p, cb, now, all);
    TurnRearms(w, p, cb, now, all);
    var turn := TurnEvents(w, cb, now);
    var h := g + turn;
    assert RearmedAt(p, turn, i, cb);
    RearmedBehind(map[], g, turn, i, cb);
    AfterAllJoin(map[], g, turn);
    TimelyPrefix(h, |g| + i);
    j := PendingIsExplained(h[..|g| + i], h[|g| + i].timer);
    ExplainedArming(h[..|g| + i], j, h[|g| + i].timer, AfterAll(map[], h[..|g| + i])[h[|g| + i].timer]);
  }

  lemma OneAllowed<T>(w: Wheel<T>, now: int, cb: Callbacks<T>, all: set<T>)
    requires Closed(w) && RunAllowed(w, [Advance(now, cb)], all)
    ensures AllDisciplined(cb, all)
  {
  }

  lemma ExplainedArming<T>(g: seq<Event<T>>, j: nat, t: T, e: Entry)
    requires Explains(g, j, t, e)
    ensures j < |g| && g[j].Armed? && g[j].timer == t && g[j].expiration == e.expiration && Silent(g, j + 1, |g|, t)
  {
  }
}
