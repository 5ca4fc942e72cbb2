/** Timers 65536 ms or more ahead, in rings 2 and 3 of the wheel.

    The cascade uses the index of ring 1 for every ring (kernel/time/time_wheel.cc:83), so of
    rings 2 and 3 it only ever visits the first slot, at the multiples of 65536.  That decides
    which far timers fire. */
module FarTimers {
  import opened Options
  import opened WheelModel

  const AGE := RING * RING
  const ERA := RING * RING * RING

  /** The timers the wheel serves among those 65536 ms or more ahead. */
  predicate Served(start: int, e: int) {
    e / AGE % RING == 0 && (e - start < ERA || e / ERA % RING == 0)
  }

  lemma {:induction false} Spans()
    ensures Span(1) == RING && Span(2) == AGE && Span(3) == ERA && Span(4) == RING * ERA
  {
    assert Span(1) == RING * Span(0);
    assert Span(2) == RING * Span(1);
    assert Span(3) == RING * Span(2);
    assert Span(4) == RING * Span(3);
  }

  lemma FindFar(last: int, e: int)
    requires 0 <= e - last < RING * ERA
    ensures FindSlot(last, e) ==
              if e - last < RING then Some(e % RING)
              else if e - last < AGE then Some(RING + Block(e) % RING)
              else if e - last < ERA then Some(2 * RING + e / AGE % RING)
              else Some(3 * RING + e / ERA % RING)
  {
    Spans();
    assert FindSlotFrom(last, e, 3) == Some(3 * RING + CalcTime(e, 3));
    assert FindSlotFrom(last, e, 1) == if e - last < AGE then Some(RING + CalcTime(e, 1)) else FindSlotFrom(last, e, 2);
  }

  // ------------------------------------------------------------- a wheel of one

  function LoneSlots<T>(t: T, k: nat): (slots: seq<seq<T>>)
    ensures |slots| == RINGS * RING
    ensures forall i :: 0 <= i < RINGS * RING ==> slots[i] == if i == k then [t] else []
  {
    seq(RINGS * RING, i => if i == k then [t] else [])
  }

  /** The wheel holds one timer, in slot k. */
  ghost predicate Alone<T>(w: Wheel<T>, t: T, k: nat, e: int) {
    k < RINGS * RING && w.slots == LoneSlots(t, k) && t in w.expiry && w.expiry[t] == e
  }

  lemma AloneClosed<T>(w: Wheel<T>, t: T, k: nat, e: int)
    requires Alone(w, t, k, e)
    ensures Closed(w) && |w.slots| == RINGS * RING
  {
  }

  lemma LoneMoved<T>(t: T, k: nat, d: nat)
    requires k < RINGS * RING && d < RINGS * RING
    ensures var cleared := LoneSlots(t, k)[k := []]; cleared[d := cleared[d] + [t]] == LoneSlots(t, d)
  {
    var cleared := LoneSlots(t, k)[k := []];
    assert cleared[d] == [];
    assert [] + [t] == [t];
  }

  lemma MoveAlone<T>(w: Wheel<T>, t: T, k: nat, e: int, j: nat)
    requires Alone(w, t, k, e) && j < RINGS * RING
    ensures Closed(w) && (j != k ==> Move(w, j) == w)
    ensures j == k && FindSlot(w.last, e).Some? ==> Move(w, j) == w.(slots := LoneSlots(t, FindSlot(w.last, e).value))
  {
    hide FindSlot;
    AloneClosed(w, t, k, e);
    if j == k && FindSlot(w.last, e).Some? {
      LoneMoved(t, k, FindSlot(w.last, e).value);
    }
  }

  /** The cascade at tick n visits slot k. */
  predicate Visited(n: int, k: nat) {
    n % RING == 0 && (k == RING + Block(n) % RING || (Block(n) % RING == 0 && (k == 2 * RING || k == 3 * RING)))
  }

  /** Where the cascade at tick n leaves a lone timer. */
  function Landing(n: int, k: nat, e: int): nat {
    if Visited(n, k) && FindSlot(n, e).Some? then FindSlot(n, e).value else k
  }

  lemma BeginTickAlone<T>(w: Wheel<T>, t: T, k: nat, e: int)
    requires Alone(w, t, k, e)
    requires var n := w.last + 1;
             Visited(n, k) ==>
               FindSlot(n, e).Some? && (k < 3 * RING ==> Landing(n, k, e) < 3 * RING)
               && (k < 2 * RING ==> Landing(n, k, e) < 2 * RING)
    ensures var n := w.last + 1;
            Closed(w) && Landing(n, k, e) < RINGS * RING
            && BeginTick(w) == w.(last := n, slots := LoneSlots(t, Landing(n, k, e)))
  {
    hide FindSlot, Move, Closed, CalcTime, Block;
    var n := w.last + 1;
    var u := w.(last := n);
    AloneClosed(w, t, k, e);
    AloneClosed(u, t, k, e);
    CalcTimes(n);
    if n % RING == 0 {
      var i := Block(n) % RING;
      MoveAlone(u, t, k, e, RING + i);
      if i == 0 {
        var u1 := Move(u, RING);
        var k1 := if k == RING then Landing(n, k, e) else k;
        MoveAlone(u1, t, k1, e, 2 * RING);
        var u2 := Move(u1, 2 * RING);
        var k2 := if k == 2 * RING then Landing(n, k, e) else k1;
        MoveAlone(u2, t, k2, e, 3 * RING);
      }
    }
  }

  ghost predicate NoFiring<T>(h: seq<Event<T>>, t: T) {
    forall i :: 0 <= i < |h| ==> !(h[i].Fired? && h[i].timer == t)
  }

  lemma CascadeFiresNothing<T>(w: Wheel<T>, t: T)
    requires Closed(w)
    ensures NoFiring(CascadeEvents(w), t)
  {
  }

  /** A tick that does not land the timer in its own slot fires nothing. */
  lemma TickPasses<T>(w: Wheel<T>, t: T, k: nat, e: int, cb: Callbacks<T>, d: nat)
    requires Alone(w, t, k, e) && Closed(w) && d < RINGS * RING
    requires BeginTick(w) == w.(last := w.last + 1, slots := LoneSlots(t, d)) && d != (w.last + 1) % RING
    ensures Tick(w, cb) == w.(last := w.last + 1, slots := LoneSlots(t, d)) && NoFiring(TickEvents(w, cb), t)
    ensures Alone(Tick(w, cb), t, d, e)
  {
    hide BeginTick, CalcTime, FireOne, FireEvents, Closed;
    var n := w.last + 1;
    CalcTimes(n);
    CascadeFiresNothing(w, t);
    var u := BeginTick(w);
    assert u.slots[n % RING] == [];
    assert CascadeEvents(w) + [] == CascadeEvents(w);
  }

  /** A tick that lands it there fires it, whatever its callback then does. */
  lemma TickFires<T>(w: Wheel<T>, t: T, k: nat, e: int, cb: Callbacks<T>)
    requires Alone(w, t, k, e) && Closed(w)
    requires var n := w.last + 1; BeginTick(w) == w.(last := n, slots := LoneSlots(t, n % RING))
    ensures Fired(t, w.last + 1) in TickEvents(w, cb)
  {
    hide BeginTick, CalcTime, FireOne, Closed, CommandEvents, ExecAll, Unlink;
    var n := w.last + 1;
    CalcTimes(n);
    var u := BeginTick(w);
    var f := FireEvents(u, n % RING, cb);
    assert u.slots[n % RING] == [t];
    assert f[0] == Fired(t, n);
    var drained := DrainEvents(u, n % RING, cb, 1);
    assert drained[0] == f[0];
    assert TickEvents(w, cb)[|CascadeEvents(w)|] == drained[0];
  }

  // --------------------------------------------------------------- quiet stretches

  /** Tick n leaves slot k alone. */
  predicate Rest(n: int, k: nat) {
    !Visited(n, k) && n % RING != k
  }

  lemma {:induction false} QuietStretch<T>(w: Wheel<T>, t: T, k: nat, e: int, cb: Callbacks<T>, now: int)
    requires Alone(w, t, k, e) && w.last <= now && forall n :: w.last < n <= now ==> Rest(n, k)
    ensures Closed(w) && Turn(w, cb, now) == w.(last := now) && NoFiring(TurnEvents(w, cb, now), t)
    decreases now - w.last
  {
    hide Tick, TickEvents, BeginTick, Visited, FindSlot, Closed;
    AloneClosed(w, t, k, e);
    if w.last < now {
      var n := w.last + 1;
      assert Rest(n, k);
      BeginTickAlone(w, t, k, e);
      TickPasses(w, t, k, e, cb, k);
      var v := Tick(w, cb);
      QuietStretch(v, t, k, e, cb, now);
    }
  }

  /** Histories of two turns in a row. */
  lemma TurnThen<T>(w: Wheel<T>, cb: Callbacks<T>, mid: int, now: int, t: T)
    requires Closed(w) && w.last <= mid <= now && Closed(Turn(w, cb, mid)) && Turn(w, cb, mid).last == mid
    ensures NoFiring(TurnEvents(w, cb, mid), t) && NoFiring(TurnEvents(Turn(w, cb, mid), cb, now), t) ==>
              NoFiring(TurnEvents(w, cb, now), t)
    ensures forall x: Event<T> :: x in TurnEvents(Turn(w, cb, mid), cb, now) ==> x in TurnEvents(w, cb, now)
    ensures Turn(w, cb, now) == Turn(Turn(w, cb, mid), cb, now)
  {
    TurnSplit(w, cb, mid, now);
  }

  /** The timer fires at e and not before. */
  ghost predicate FiresAt<T>(w: Wheel<T>, t: T, cb: Callbacks<T>, e: int)
    requires Closed(w)
  {
    w.last < e && NoFiring(TurnEvents(w, cb, e - 1), t) && Fired(t, e) in TurnEvents(w, cb, e)
  }

  lemma FiresLater<T>(w: Wheel<T>, t: T, cb: Callbacks<T>, mid: int, e: int)
    requires Closed(w) && w.last <= mid < e && Closed(Turn(w, cb, mid)) && Turn(w, cb, mid).last == mid
    requires NoFiring(TurnEvents(w, cb, mid), t) && FiresAt(Turn(w, cb, mid), t, cb, e)
    ensures FiresAt(w, t, cb, e)
  {
    hide Closed, Turn, TurnEvents, NoFiring;
    TurnThen(w, cb, mid, e - 1, t);
    TurnThen(w, cb, mid, e, t);
  }

  lemma OneTickTurn<T>(w: Wheel<T>, cb: Callbacks<T>)
    requires Closed(w)
    ensures TurnEvents(w, cb, w.last) == [] && TurnEvents(w, cb, w.last + 1) == TickEvents(w, cb)
    ensures Turn(w, cb, w.last + 1) == Tick(w, cb)
  {
    hide Closed, Tick, TickEvents;
    assert TickEvents(w, cb) + [] == TickEvents(w, cb);
  }

  lemma FiresNow<T>(w: Wheel<T>, t: T, k: nat, e: int, cb: Callbacks<T>)
    requires Alone(w, t, k, e) && w.last + 1 == e && Closed(w)
    requires BeginTick(w) == w.(last := e, slots := LoneSlots(t, e % RING))
    ensures FiresAt(w, t, cb, e)
  {
    hide BeginTick, TurnEvents, Closed, TickEvents;
    TickFires(w, t, k, e, cb);
    OneTickTurn(w, cb);
  }

  // ------------------------------------------------------------------ rings 0 and 1

  lemma RestNear(n: int, e: int)
    requires e - RING < n < e
    ensures Rest(n, e % RING)
  {
  }

  lemma NearFires<T>(w: Wheel<T>, t: T, e: int, cb: Callbacks<T>)
    requires Alone(w, t, e % RING, e) && w.last < e < w.last + RING
    ensures Closed(w) && FiresAt(w, t, cb, e)
  {
    hide Rest, Closed, Turn, TurnEvents, BeginTick, Visited, FindSlot;
    var k := e % RING;
    forall n | w.last < n <= e - 1
      ensures Rest(n, k)
    {
      RestNear(n, e);
    }
    QuietStretch(w, t, k, e, cb, e - 1);
    var v := Turn(w, cb, e - 1);
    AloneClosed(v, t, k, e);
    RingZeroIsNotVisited(e, k);
    BeginTickAlone(v, t, k, e);
    FiresNow(v, t, k, e, cb);
    FiresLater(w, t, cb, e - 1, e);
  }

  lemma RingZeroIsNotVisited(n: int, k: nat)
    requires k < RING
    ensures !Visited(n, k)
  {
  }

  /** What a lone timer does after a tick that lands it d. */
  lemma FiresAfterLanding<T>(w: Wheel<T>, t: T, k: nat, e: int, cb: Callbacks<T>, d: nat)
    requires Alone(w, t, k, e) && Closed(w) && w.last + 1 < e && d < RINGS * RING && d != (w.last + 1) % RING
    requires BeginTick(w) == w.(last := w.last + 1, slots := LoneSlots(t, d))
    requires var v := w.(last := w.last + 1, slots := LoneSlots(t, d)); Closed(v) && FiresAt(v, t, cb, e)
    ensures FiresAt(w, t, cb, e)
  {
    hide BeginTick, Closed, TickEvents, TurnEvents, Tick, FiresAt;
    TickPasses(w, t, k, e, cb, d);
    OneTickTurn(w, cb);
    FiresLater(w, t, cb, w.last + 1, e);
  }

  lemma RestMid(n: int, e: int)
    requires Block(e) - RING < Block(n) < Block(e)
    ensures Rest(n, RING + Block(e) % RING)
  {
  }

  lemma MidFires<T>(w: Wheel<T>, t: T, e: int, cb: Callbacks<T>)
    requires Alone(w, t, RING + Block(e) % RING, e) && Block(w.last) < Block(e) < Block(w.last) + RING
    ensures Closed(w) && FiresAt(w, t, cb, e)
  {
    hide Rest, Closed, Turn, TurnEvents, BeginTick, Visited, FindSlot, FiresAt;
    var k := RING + Block(e) % RING;
    var n := RING * Block(e);
    forall m | w.last < m <= n - 1
      ensures Rest(m, k)
    {
      RestMid(m, e);
    }
    QuietStretch(w, t, k, e, cb, n - 1);
    var v := Turn(w, cb, n - 1);
    AloneClosed(v, t, k, e);
    BlockStart(e);
    NewBlock(n, e);
    BeginTickAlone(v, t, k, e);
    if e == n {
      FiresNow(v, t, k, e, cb);
    } else {
      var u := v.(last := n, slots := LoneSlots(t, e % RING));
      NearFires(u, t, e, cb);
      FiresAfterLanding(v, t, k, e, cb, e % RING);
    }
    FiresLater(w, t, cb, n - 1, e);
  }

  lemma BlockStart(e: int)
    ensures var n := RING * Block(e);
            n <= e < n + RING && n % RING == 0 && Block(n) == Block(e) && Visited(n, RING + Block(e) % RING)
            && (e % RING == n % RING ==> e == n)
  {
  }

  // ------------------------------------------------------------------ rings 2 and 3

  /** The next tick at which the cascade visits rings 2 and 3. */
  function NextAge(last: int): int {
    AGE * (last / AGE + 1)
  }

  lemma NextAgeFacts(last: int, e: int)
    ensures var n := NextAge(last);
            && last < n <= last + AGE && n % RING == 0 && n % AGE == 0 && n / AGE == last / AGE + 1
            && Visited(n, 2 * RING) && Visited(n, 3 * RING)
            && (last / AGE < e / AGE ==> n <= e)
            && (last / AGE + 1 < e / AGE ==> n + AGE <= e)
            && (last / AGE + 1 == e / AGE ==> e < n + AGE)
  {
    var q := last / AGE;
    var n := NextAge(last);
    assert Block(n) == RING * (q + 1);
  }

  lemma RestUntilAge(last: int, m: int, k: nat)
    requires last < m < NextAge(last) && (k == 2 * RING || k == 3 * RING)
    ensures Rest(m, k)
  {
    if m % RING == 0 && Block(m) % RING == 0 {
      var q := Block(m) / RING;
      Multiple(m, q);
      BetweenMultiples(last, q);
    }
  }

  lemma Multiple(m: int, q: int)
    requires m % RING == 0 && Block(m) % RING == 0 && q == Block(m) / RING
    ensures m == AGE * q
  {
    assert m == RING * Block(m);
    assert Block(m) == RING * q;
  }

  lemma BetweenMultiples(last: int, q: int)
    ensures !(last < AGE * q < NextAge(last))
  {
    var a := last / AGE;
    assert AGE * a <= last;
    if q <= a {
      assert AGE * q <= AGE * a;
    } else {
      assert AGE * q >= AGE * (a + 1);
    }
  }

  /** Up to the next visit nothing happens; the visit lands the timer where FindHead says. */
  lemma FarStretch<T>(w: Wheel<T>, t: T, k: nat, e: int, cb: Callbacks<T>)
    requires Alone(w, t, k, e) && (k == 2 * RING || k == 3 * RING) && w.last / AGE < e / AGE && e - w.last < RING * ERA
    requires k == 2 * RING ==> e - w.last < ERA
    ensures var n := NextAge(w.last);
            var v := Turn(w, cb, n - 1);
            var d := FindSlot(n, e);
            && Closed(w) && v == w.(last := n - 1) && NoFiring(TurnEvents(w, cb, n - 1), t)
            && Alone(v, t, k, e) && Closed(v) && d.Some?
            && BeginTick(v) == w.(last := n, slots := LoneSlots(t, d.value))
  {
    hide Rest, Closed, Turn, TurnEvents, BeginTick, Visited, FindSlot, NextAge;
    var n := NextAge(w.last);
    NextAgeFacts(w.last, e);
    forall m | w.last < m <= n - 1
      ensures Rest(m, k)
    {
      RestUntilAge(w.last, m, k);
    }
    QuietStretch(w, t, k, e, cb, n - 1);
    var v := Turn(w, cb, n - 1);
    AloneClosed(v, t, k, e);
    FindFar(n, e);
    BeginTickAlone(v, t, k, e);
  }

  lemma {:induction false} FarFires<T>(w: Wheel<T>, t: T, k: nat, e: int, cb: Callbacks<T>)
    requires Alone(w, t, k, e) && (k == 2 * RING || k == 3 * RING) && w.last / AGE < e / AGE && e - w.last < RING * ERA
    requires e / AGE % RING == 0 && (k == 2 * RING ==> e - w.last < ERA) && (k == 3 * RING ==> e / ERA % RING == 0)
    ensures Closed(w) && FiresAt(w, t, cb, e)
    decreases e / AGE - w.last / AGE
  {
    hide Closed, Turn, TurnEvents, BeginTick, FindSlot, NextAge, FiresAt, Visited;
    var n := NextAge(w.last);
    FarStretch(w, t, k, e, cb);
    NextAgeFacts(w.last, e);
    FindFar(n, e);
    var v := Turn(w, cb, n - 1);
    var d := FindSlot(n, e).value;
    var u := v.(last := n, slots := LoneSlots(t, d));
    if e == n {
      FiresNow(v, t, k, e, cb);
    } else {
      LandsElsewhere(n, e);
      if e - n < RING {
        NearFires(u, t, e, cb);
      } else if e - n < AGE {
        MidRange(n, e);
        MidFires(u, t, e, cb);
      } else {
        FarFires(u, t, d, e, cb);
      }
      FiresAfterLanding(v, t, k, e, cb, d);
    }
    FiresLater(w, t, cb, n - 1, e);
  }

  lemma LandsElsewhere(n: int, e: int)
    requires n % RING == 0 && n < e < n + RING * ERA
    ensures FindSlot(n, e).Some? && FindSlot(n, e).value != n % RING
  {
    hide FindSlot;
    FindFar(n, e);
  }

  lemma MidRange(n: int, e: int)
    requires n % AGE == 0 && RING <= e - n < AGE
    ensures Block(n) < Block(e) < Block(n) + RING
  {
  }

  // ------------------------------------------------------------------- never firing

  lemma RestForever(n: int, k: nat)
    requires 2 * RING <= k < RINGS * RING && k % RING != 0
    ensures Rest(n, k)
  {
  }

  lemma StuckAlone<T>(w: Wheel<T>, t: T, k: nat, e: int, cb: Callbacks<T>, now: int)
    requires Alone(w, t, k, e) && 2 * RING <= k && k % RING != 0 && w.last <= now
    ensures Closed(w) && NoFiring(TurnEvents(w, cb, now), t)
  {
    hide Rest, Closed, Turn, TurnEvents;
    forall n | w.last < n <= now
      ensures Rest(n, k)
    {
      RestForever(n, k);
    }
    QuietStretch(w, t, k, e, cb, now);
  }

  /** From the first slot of ring 3 a timer drops into a slot of ring 2 that is not visited. */
  lemma {:induction false} DropsAndSticks<T>(w: Wheel<T>, t: T, e: int, cb: Callbacks<T>, now: int)
    requires Alone(w, t, 3 * RING, e) && ERA <= e - w.last < RING * ERA && e / ERA % RING == 0 && e / AGE % RING != 0
    requires w.last <= now
    ensures Closed(w) && NoFiring(TurnEvents(w, cb, now), t)
    decreases now - w.last
  {
    hide Closed, Turn, TurnEvents, BeginTick, FindSlot, NextAge, Visited, Rest, NoFiring, Tick, TickEvents;
    var k := 3 * RING;
    var n := NextAge(w.last);
    NextAgeFacts(w.last, e);
    AgesApart(w.last, e);
    FarStretch(w, t, k, e, cb);
    if now < n {
      forall m | w.last < m <= now
        ensures Rest(m, k)
      {
        RestUntilAge(w.last, m, k);
      }
      QuietStretch(w, t, k, e, cb, now);
    } else {
      var v := Turn(w, cb, n - 1);
      FindFar(n, e);
      var d := FindSlot(n, e).value;
      TickPasses(v, t, k, e, cb, d);
      OneTickTurn(v, cb);
      var u := Tick(v, cb);
      AloneClosed(u, t, d, e);
      if e - n < ERA {
        StuckAlone(u, t, d, e, cb, now);
      } else {
        DropsAndSticks(u, t, e, cb, now);
      }
      TurnThen(v, cb, n, now, t);
      TurnThen(w, cb, n - 1, now, t);
    }
  }

  lemma AgesApart(last: int, e: int)
    requires e - last >= ERA
    ensures last / AGE + 1 < e / AGE
  {
  }

  // ------------------------------------------------------------------- the condition

  lemma ArmedAlone<T>(start: int, t: T, e: int)
    requires 0 <= e - start < RING * ERA
    ensures var w := Exec(Empty<T>(start), Start(t, e));
            w.last == start && FindSlot(start, e).Some? && Alone(w, t, FindSlot(start, e).value, e)
  {
    hide FindSlot, Unlink;
    FindFar(start, e);
    var k := FindSlot(start, e).value;
    var w := SetExpiry(Empty<T>(start), t, e);
    UnlinkAbsent(w, t);
    var u := Exec(Empty<T>(start), Start(t, e));
    assert [t] + [] == [t];
    assert u.slots == w.slots[k := [t] + w.slots[k]];
    assert u.slots == LoneSlots(t, k);
  }

  lemma ServedFires<T>(start: int, t: T, e: int, cb: Callbacks<T>)
    requires AGE <= e - start < RING * ERA && Served(start, e)
    ensures var w := Exec(Empty<T>(start), Start(t, e)); Closed(w) && FiresAt(w, t, cb, e)
  {
    hide FindSlot, Exec, Closed, TurnEvents, FiresAt;
    FindFar(start, e);
    ArmedAlone(start, t, e);
    FarFires(Exec(Empty<T>(start), Start(t, e)), t, FindSlot(start, e).value, e, cb);
  }

  lemma UnservedNeverFires<T>(start: int, t: T, e: int, cb: Callbacks<T>, now: int)
    requires AGE <= e - start < RING * ERA && !Served(start, e) && start <= now
    ensures var w := Exec(Empty<T>(start), Start(t, e)); Closed(w) && NoFiring(TurnEvents(w, cb, now), t)
  {
    hide FindSlot, Exec, Closed, TurnEvents, NoFiring;
    FindFar(start, e);
    ArmedAlone(start, t, e);
    var w := Exec(Empty<T>(start), Start(t, e));
    var k := FindSlot(start, e).value;
    if k % RING != 0 {
      StuckAlone(w, t, k, e, cb, now);
    } else {
      DropsAndSticks(w, t, e, cb, now);
    }
  }

  /** A timer armed 65536 ms or more ahead on an empty wheel fires if and only if the wheel
      serves it, and then exactly at its expiration.  The condition is about the two numbers
      the caller knows: the deadline lies in the first 65536 ms of its 2^24 ms period and, when
      it is 2^24 ms or more ahead, in the first 2^24 ms of its 2^32 ms period. */
  lemma FarTimerFiresIff<T>(start: int, t: T, e: int, cb: Callbacks<T>)
    requires AGE <= e - start < RING * ERA
    ensures var w := Exec(Empty<T>(start), Start(t, e));
            && Closed(w)
            && (Served(start, e) <==> exists now :: start <= now && !NoFiring(TurnEvents(w, cb, now), t))
            && (Served(start, e) ==> FiresAt(w, t, cb, e))
  {
    hide Exec, Closed, TurnEvents, Served;
    var w := Exec(Empty<T>(start), Start(t, e));
    if Served(start, e) {
      ServedFires(start, t, e, cb);
      assert !NoFiring(TurnEvents(w, cb, e), t);
    } else {
      forall now | start <= now
        ensures NoFiring(TurnEvents(w, cb, now), t)
      {
        UnservedNeverFires(start, t, e, cb, now);
      }
      UnservedNeverFires(start, t, e, cb, start);
    }
  }

  // ------------------------------------------------------------- among other timers

  /** The timer is in a slot of ring 2 or 3 that no cascade visits, and nowhere else. */
  ghost predicate Stuck<T>(w: Wheel<T>, t: T, k: nat) {
    && Closed(w) && 2 * RING <= k < RINGS * RING && k % RING != 0
    && forall j :: 0 <= j < RINGS * RING ==> (t in w.slots[j] <==> j == k)
  }

  /** No callback of another timer starts or stops this one. */
  ghost predicate Leaves<T>(cb: Callbacks<T>, t: T, all: set<T>) {
    forall now: int, x, i :: x in all && x != t && 0 <= i < |cb(now, x).commands| ==>
      cb(now, x).commands[i].timer in all && cb(now, x).commands[i].timer != t
  }

  lemma UnlinkStuck<T>(w: Wheel<T>, t: T, k: nat, x: T)
    requires Stuck(w, t, k) && x != t
    ensures Stuck(Unlink(w, x), t, k)
  {
    hide Remove, Closed;
    ClosedShape(w);
    forall j | 0 <= j < RINGS * RING
      ensures t in Unlink(w, x).slots[j] <==> j == k
    {
      RemoveElements(w.slots[j], x);
    }
  }

  lemma AddStuck<T>(w: Wheel<T>, t: T, k: nat, x: T)
    requires Stuck(w, t, k) && x != t && x in w.expiry
    ensures Stuck(Add(w, x), t, k)
  {
    hide Unlink, FindSlot, Closed;
    UnlinkStuck(w, t, k, x);
    ClosedShape(w);
  }

  lemma MoveStuck<T>(w: Wheel<T>, t: T, k: nat, j: nat)
    requires Stuck(w, t, k) && j < RINGS * RING && j != k
    ensures Closed(w) && Stuck(Move(w, j), t, k)
  {
    hide FindSlot, Closed;
    ClosedShape(w);
    if w.slots[j] != [] {
      FirstKnown(w, j);
    }
    if w.slots[j] != [] && FindSlot(w.last, w.expiry[w.slots[j][0]]).Some? {
      var d := FindSlot(w.last, w.expiry[w.slots[j][0]]).value;
      var cleared := w.slots[j := []];
      assert forall x :: x in cleared[d] + w.slots[j] <==> x in cleared[d] || x in w.slots[j];
    }
  }

  lemma {:induction false} ExecStuck<T>(w: Wheel<T>, t: T, k: nat, cs: seq<Command<T>>, all: set<T>)
    requires Stuck(w, t, k) && Within(w, all) && forall i :: 0 <= i < |cs| ==> cs[i].timer in all && cs[i].timer != t
    ensures Closed(w) && Stuck(ExecAll(w, cs), t, k) && Within(ExecAll(w, cs), all)
    ensures NoFiring(CommandEvents(w.last, cs), t)
    decreases |cs|
  {
    hide Add, Unlink, Closed;
    if cs != [] {
      StuckClosed(w, t, k);
      match cs[0] {
        case Start(x, e) =>
          SetExpiryStuck(w, t, k, x, e);
          AddStuck(SetExpiry(w, x, e), t, k, x);
        case Stop(x) => UnlinkStuck(w, t, k, x);
      }
      ExecStuck(Exec(w, cs[0]), t, k, cs[1..], all);
    }
  }

  lemma StuckClosed<T>(w: Wheel<T>, t: T, k: nat)
    requires Stuck(w, t, k)
    ensures Closed(w) && |w.slots| == RINGS * RING
  {
  }

  lemma SetExpiryStuck<T>(w: Wheel<T>, t: T, k: nat, x: T, e: int)
    requires Stuck(w, t, k)
    ensures Stuck(SetExpiry(w, x, e), t, k)
  {
  }

  lemma FireStuck<T>(w: Wheel<T>, t: T, k: nat, s: nat, cb: Callbacks<T>, all: set<T>)
    requires Stuck(w, t, k) && Within(w, all) && Leaves(cb, t, all) && s < RING && w.slots[s] != []
    ensures Closed(w) && Stuck(FireOne(w, s, cb), t, k) && Within(FireOne(w, s, cb), all)
    ensures NoFiring(FireEvents(w, s, cb), t)
  {
    hide Add, Unlink, Closed, ExecAll, CommandEvents;
    StuckClosed(w, t, k);
    var x := w.slots[s][0];
    FirstKnown(w, s);
    assert x in w.slots[s] && x != t;
    UnlinkStuck(w, t, k, x);
    var r := cb(w.last, x);
    var w1 := Unlink(w, x);
    ExecStuck(w1, t, k, r.commands, all);
    var u := ExecAll(w1, r.commands);
    if r.next > 0 {
      SetExpiryStuck(u, t, k, x, u.expiry[x] + r.next);
      AddStuck(SetExpiry(u, x, u.expiry[x] + r.next), t, k, x);
    }
  }

  lemma FirstKnown<T>(w: Wheel<T>, s: nat)
    requires Closed(w) && s < |w.slots| && w.slots[s] != []
    ensures w.slots[s][0] in w.expiry
  {
  }

  lemma {:induction false} DrainStuck<T>(w: Wheel<T>, t: T, k: nat, s: nat, cb: Callbacks<T>, n: nat, all: set<T>)
    requires Stuck(w, t, k) && Within(w, all) && Leaves(cb, t, all) && s < RING
    ensures Closed(w) && Stuck(Drain(w, s, cb, n), t, k) && Within(Drain(w, s, cb, n), all)
    ensures NoFiring(DrainEvents(w, s, cb, n), t)
    decreases n
  {
    hide Closed, FireOne, FireEvents, Leaves;
    StuckClosed(w, t, k);
    if n > 0 && w.slots[s] != [] {
      FireStuck(w, t, k, s, cb, all);
      DrainStuck(FireOne(w, s, cb), t, k, s, cb, n - 1, all);
    }
  }

  lemma BeginTickStuck<T>(w: Wheel<T>, t: T, k: nat)
    requires Stuck(w, t, k)
    ensures Closed(w) && Stuck(BeginTick(w), t, k)
  {
    hide Closed, Move, CalcTime;
    StuckClosed(w, t, k);
    var u := w.(last := w.last + 1);
    ClosedLater(w, u.last);
    if CalcTime(u.last, 0) == 0 {
      var i := CalcTime(u.last, 1);
      MoveStuck(u, t, k, RING + i);
      if i == 0 {
        MoveStuck(Move(u, RING), t, k, 2 * RING);
        MoveStuck(Move(Move(u, RING), 2 * RING), t, k, 3 * RING);
      }
    }
  }

  lemma TickStuck<T>(w: Wheel<T>, t: T, k: nat, cb: Callbacks<T>, all: set<T>)
    requires Stuck(w, t, k) && Closed(w) && Within(w, all) && Leaves(cb, t, all) && TickDefined(w, cb)
    ensures Stuck(FullTick(w, cb), t, k) && Within(FullTick(w, cb), all) && NoFiring(FullTickEvents(w, cb), t)
  {
    hide Closed, Stuck, Cascade, CalcTime, Drain, DrainEvents, Drained, FullDrain, FullDrainEvents, Leaves, CascadeSafe;
    BeginTickStuck(w, t, k);
    CascadeFiresNothing(w, t);
    var u := BeginTick(w);
    var s := CalcTime(u.last, 0);
    var n: nat :| Drained(u, s, cb, n);
    FullDrainIs(u, s, cb, n);
    FullDrainEventsAre(u, s, cb, n);
    DrainStuck(u, t, k, s, cb, n, all);
  }

  lemma {:induction false} TurnStuck<T>(w: Wheel<T>, t: T, k: nat, cb: Callbacks<T>, now: int, all: set<T>)
    requires Stuck(w, t, k) && Closed(w) && Within(w, all) && Leaves(cb, t, all) && TurnDefined(w, cb, now)
    ensures Stuck(FullTurn(w, cb, now), t, k) && Within(FullTurn(w, cb, now), all)
    ensures NoFiring(FullTurnEvents(w, cb, now), t)
    decreases now - w.last
  {
    hide Closed, Stuck, FullTick, FullTickEvents, TickDefined, Leaves;
    if w.last < now {
      TickStuck(w, t, k, cb, all);
      TurnStuck(FullTick(w, cb), t, k, cb, now, all);
    }
  }

  /** The turns of the run fail no assertion and their firing loops end. */
  ghost predicate RunDefined<T>(w: Wheel<T>, ops: seq<Op<T>>)
    requires Closed(w)
    decreases |ops|
  {
    ops == [] || (OpDefined(w, ops[0]) && RunDefined(FullPerform(w, ops[0]), ops[1..]))
  }

  ghost predicate OpDefined<T>(w: Wheel<T>, op: Op<T>)
    requires Closed(w)
  {
    op.Advance? ==> TurnDefined(w, op.cb, op.now)
  }

  ghost function FullPerform<T>(w: Wheel<T>, op: Op<T>): (u: Wheel<T>)
    requires Closed(w) && OpDefined(w, op)
    ensures Closed(u)
  {
    match op
    case Arm(t, e) => Exec(w, Start(t, e))
    case Cancel(t) => Exec(w, Stop(t))
    case Advance(now, cb) => FullTurn(w, cb, now)
  }

  ghost function FullPerformEvents<T>(w: Wheel<T>, op: Op<T>): seq<Event<T>>
    requires Closed(w) && OpDefined(w, op)
  {
    match op
    case Arm(t, e) => CommandEvents(w.last, [Start(t, e)])
    case Cancel(t) => CommandEvents(w.last, [Stop(t)])
    case Advance(now, cb) => FullTurnEvents(w, cb, now)
  }

  ghost function FullRun<T>(w: Wheel<T>, ops: seq<Op<T>>): (u: Wheel<T>)
    requires Closed(w) && RunDefined(w, ops)
    ensures Closed(u)
    decreases |ops|
  {
    if ops == [] then w else FullRun(FullPerform(w, ops[0]), ops[1..])
  }

  ghost function FullHistory<T>(w: Wheel<T>, ops: seq<Op<T>>): seq<Event<T>>
    requires Closed(w) && RunDefined(w, ops)
    decreases |ops|
  {
    if ops == [] then [] else FullPerformEvents(w, ops[0]) + FullHistory(FullPerform(w, ops[0]), ops[1..])
  }

  ghost predicate OpLeaves<T>(op: Op<T>, t: T, all: set<T>) {
    match op
    case Arm(x, _) => x in all && x != t
    case Cancel(x) => x != t
    case Advance(_, cb) => Leaves(cb, t, all)
  }

  /** Whatever else the wheel holds and whatever the program does with other timers, however
      long its firing loops go on: a timer in a slot of ring 2 or 3 other than the first stays
      there and never fires. */
  lemma {:induction false} StuckTimerNeverFires<T>(w: Wheel<T>, t: T, k: nat, ops: seq<Op<T>>, all: set<T>)
    requires Stuck(w, t, k) && Closed(w) && Within(w, all) && RunDefined(w, ops)
    requires forall i :: 0 <= i < |ops| ==> OpLeaves(ops[i], t, all)
    ensures Stuck(FullRun(w, ops), t, k) && NoFiring(FullHistory(w, ops), t)
    decreases |ops|
  {
    hide Closed, Stuck, FullPerform, FullPerformEvents, OpLeaves, OpDefined;
    if ops != [] {
      PerformStuck(w, t, k, ops[0], all);
      StuckTimerNeverFires(FullPerform(w, ops[0]), t, k, ops[1..], all);
    }
  }

  lemma PerformStuck<T>(w: Wheel<T>, t: T, k: nat, op: Op<T>, all: set<T>)
    requires Stuck(w, t, k) && Closed(w) && Within(w, all) && OpLeaves(op, t, all) && OpDefined(w, op)
    ensures Stuck(FullPerform(w, op), t, k) && Within(FullPerform(w, op), all) && NoFiring(FullPerformEvents(w, op), t)
  {
    hide Closed, Stuck, Add, Unlink, FullTurn, FullTurnEvents, TurnDefined, Leaves;
    match op
    case Arm(x, e) =>
      SetExpiryStuck(w, t, k, x, e);
      AddStuck(SetExpiry(w, x, e), t, k, x);
      assert CommandEvents(w.last, [Start(x, e)][1..]) == [];
    case Cancel(x) =>
      UnlinkStuck(w, t, k, x);
      assert CommandEvents(w.last, [Stop(x)][1..]) == [];
    case Advance(now, cb) => TurnStuck(w, t, k, cb, now, all);
  }

  /** The slot of a deadline 65536 ms or more ahead. */
  function FarSlot(last: int, e: int): nat {
    if e - last < ERA then 2 * RING + e / AGE % RING else 3 * RING + e / ERA % RING
  }

  /** On every wheel, a timer armed 65536 ms or more ahead is stuck unless its slot is the first
      of its ring. */
  lemma ArmingGetsStuck<T>(w: Wheel<T>, t: T, e: int)
    requires Closed(w) && AGE <= e - w.last < RING * ERA && FarSlot(w.last, e) % RING != 0
    ensures Stuck(Exec(w, Start(t, e)), t, FarSlot(w.last, e))
  {
    hide Remove, FindSlot, Closed;
    FindFar(w.last, e);
    var v := SetExpiry(w, t, e);
    ClosedShape(v);
    forall j | 0 <= j < RINGS * RING
      ensures t !in Unlink(v, t).slots[j]
    {
      RemoveElements(v.slots[j], t);
    }
  }
}
