/** The timer wheel of kernel/time/time_wheel.cc as it lives in memory: intrusive doubly
    linked lists behind 4 x 256 list heads.

    The ghost sequence `slots` says what each list holds; Valid ties it to the prev and next
    pointers.  Every method is proved to do to that view what WheelModel's function of the
    same name does, so the theorems about runs hold of these pointers. */
module TimeWheel {
  import opened Options
  import opened M = WheelModel

  class Timer {
    var prev: Timer?
    var next: Timer?
    var expiration: int

    constructor ()
      ensures prev == null && next == null
    {
      prev, next, expiration := null, null, 0;
    }
  }

  // ------------------------------------------------- linked lists, on values

  /** The pointers of all nodes, list heads included. */
  type Links = map<Timer, Timer?>

  /** Lists are acyclic and pairwise disjoint. */
  ghost predicate Distinct(slots: seq<seq<Timer>>) {
    forall k, i, k', i' | 0 <= k < |slots| && 0 <= i < |slots[k]| && 0 <= k' < |slots| && 0 <= i' < |slots[k']| ::
      slots[k][i] == slots[k'][i'] ==> k == k' && i == i'
  }

  ghost predicate Holds(slots: seq<seq<Timer>>, t: Timer) {
    exists k, i :: 0 <= k < |slots| && 0 <= i < |slots[k]| && slots[k][i] == t
  }

  ghost predicate Shape(heads: seq<Timer>, slots: seq<seq<Timer>>, timers: set<Timer>) {
    && |heads| == |slots|
    && (forall j, k :: 0 <= j < k < |heads| ==> heads[j] != heads[k])
    && (forall k :: 0 <= k < |heads| ==> heads[k] !in timers)
    && (forall k, i :: 0 <= k < |slots| && 0 <= i < |slots[k]| ==> slots[k][i] in timers)
    && Distinct(slots)
  }

  ghost predicate Covers(heads: seq<Timer>, timers: set<Timer>, links: Links) {
    && timers <= links.Keys
    && forall k :: 0 <= k < |heads| ==> heads[k] in links
  }

  ghost function Before(head: Timer, list: seq<Timer>, i: nat): Timer
    requires i <= |list|
  {
    if i == 0 then head else list[i - 1]
  }

  ghost function At(list: seq<Timer>, i: nat): Timer? {
    if i < |list| then list[i] else null
  }

  /** prev and next are each other's inverse along one list. */
  ghost predicate Linked(head: Timer, list: seq<Timer>, prev: Links, next: Links) {
    && head in next && next[head] == At(list, 0)
    && (forall i {:trigger prev[list[i]]} {:trigger list[i] in prev} :: 0 <= i < |list| ==> list[i] in prev && prev[list[i]] == Before(head, list, i))
    && (forall i {:trigger next[list[i]]} {:trigger list[i] in next} :: 0 <= i < |list| ==> list[i] in next && next[list[i]] == At(list, i + 1))
  }

  ghost predicate WellLinked(heads: seq<Timer>, slots: seq<seq<Timer>>, timers: set<Timer>, prev: Links, next: Links) {
    && Shape(heads, slots, timers) && Covers(heads, timers, prev) && Covers(heads, timers, next)
    && (forall k :: 0 <= k < |slots| ==> Linked(heads[k], slots[k], prev, next))
    && (forall t :: t in timers && !Holds(slots, t) ==> prev[t] == null && next[t] == null)
  }

  /** The neighbours of a linked timer. */
  lemma Neighbours(heads: seq<Timer>, slots: seq<seq<Timer>>, timers: set<Timer>, prev: Links, next: Links, k: nat, i: nat)
    requires WellLinked(heads, slots, timers, prev, next) && k < |slots| && i < |slots[k]|
    ensures var t := slots[k][i];
            && prev[t] == Before(heads[k], slots[k], i) && next[t] == At(slots[k], i + 1)
            && (prev[t] in timers || prev[t] in heads) && (next[t] == null || next[t] in timers)
            && prev[t] != t && next[t] != t && (next[t] == null || next[t] != prev[t]) && t !in heads
  {
    assert Linked(heads[k], slots[k], prev, next);
  }

  ghost function Spliced(slots: seq<seq<Timer>>, k: nat, i: nat): seq<seq<Timer>>
    requires k < |slots| && i < |slots[k]|
  {
    slots[k := slots[k][..i] + slots[k][i + 1..]]
  }

  lemma SplicedElements(slots: seq<seq<Timer>>, k: nat, i: nat)
    requires Distinct(slots) && k < |slots| && i < |slots[k]|
    ensures Distinct(Spliced(slots, k, i))
    ensures forall k', i' :: 0 <= k' < |slots| && 0 <= i' < |Spliced(slots, k, i)[k']| ==>
              && Spliced(slots, k, i)[k'][i'] == slots[k'][if k' == k && i' >= i then i' + 1 else i']
              && Spliced(slots, k, i)[k'][i'] != slots[k][i]
  {
    var u := Spliced(slots, k, i);
    assert forall k', i' :: 0 <= k' < |u| && 0 <= i' < |u[k']| ==>
        u[k'][i'] == slots[k'][if k' == k && i' >= i then i' + 1 else i'];
  }

  ghost function SplicedNext(next: Links, t: Timer, before: Timer, after: Timer?): Links {
    next[before := after][t := null]
  }

  ghost function SplicedPrev(prev: Links, t: Timer, before: Timer, after: Timer?): Links {
    (if after == null then prev else prev[after := before])[t := null]
  }

  /** Pointers of other nodes do not matter to a list. */
  lemma LinkedFrame(head: Timer, list: seq<Timer>, prev: Links, next: Links, prev': Links, next': Links)
    requires Linked(head, list, prev, next)
    requires head in next' && next'[head] == next[head]
    requires forall i :: 0 <= i < |list| ==> list[i] in prev && list[i] in prev' && prev'[list[i]] == prev[list[i]]
    requires forall i :: 0 <= i < |list| ==> list[i] in next && list[i] in next' && next'[list[i]] == next[list[i]]
    ensures Linked(head, list, prev', next')
  {
  }

  lemma SpliceOther(heads: seq<Timer>, slots: seq<seq<Timer>>, timers: set<Timer>, prev: Links, next: Links, k: nat, i: nat, j: nat)
    requires WellLinked(heads, slots, timers, prev, next) && k < |slots| && i < |slots[k]| && j < |slots| && j != k
    ensures var t, before, after := slots[k][i], Before(heads[k], slots[k], i), At(slots[k], i + 1);
            Linked(heads[j], slots[j], SplicedPrev(prev, t, before, after), SplicedNext(next, t, before, after))
  {
    hide Linked, Covers;
    var t, before, after := slots[k][i], Before(heads[k], slots[k], i), At(slots[k], i + 1);
    var prev', next' := SplicedPrev(prev, t, before, after), SplicedNext(next, t, before, after);
    InLinks(heads, slots, timers, prev, next, j);
    LinkedFrame(heads[j], slots[j], prev, next, prev', next');
  }

  lemma InLinks(heads: seq<Timer>, slots: seq<seq<Timer>>, timers: set<Timer>, prev: Links, next: Links, j: nat)
    requires WellLinked(heads, slots, timers, prev, next) && j < |slots|
    ensures Linked(heads[j], slots[j], prev, next) && heads[j] in next
    ensures forall i :: 0 <= i < |slots[j]| ==> slots[j][i] in prev && slots[j][i] in next
  {
  }

  lemma SpliceSameAt(head: Timer, list: seq<Timer>, prev: Links, next: Links, i: nat, m: nat)
    requires Linked(head, list, prev, next) && i < |list| && head !in list && m < |list| && m != i
    requires forall m, n :: 0 <= m < n < |list| ==> list[m] != list[n]
    ensures var t, before, after := list[i], Before(head, list, i), At(list, i + 1);
            var prev', next' := SplicedPrev(prev, t, before, after), SplicedNext(next, t, before, after);
            && list[m] in prev' && prev'[list[m]] == (if m == i + 1 then before else Before(head, list, m))
            && list[m] in next' && next'[list[m]] == (if m + 1 == i then after else At(list, m + 1))
  {
    assert list[m] != list[i] && list[m] != head;
    assert i > 0 && m + 1 != i ==> list[m] != list[i - 1];
    assert i + 1 < |list| && m != i + 1 ==> list[m] != list[i + 1];
  }

  lemma SpliceSame(head: Timer, list: seq<Timer>, prev: Links, next: Links, i: nat)
    requires Linked(head, list, prev, next) && i < |list| && head !in list
    requires forall m, n :: 0 <= m < n < |list| ==> list[m] != list[n]
    ensures var t, before, after := list[i], Before(head, list, i), At(list, i + 1);
            Linked(head, list[..i] + list[i + 1..], SplicedPrev(prev, t, before, after), SplicedNext(next, t, before, after))
  {
    var t, before, after := list[i], Before(head, list, i), At(list, i + 1);
    var prev', next' := SplicedPrev(prev, t, before, after), SplicedNext(next, t, before, after);
    assert next'[head] == if i == 0 then after else next[head] by {
      assert head != t && (i > 0 ==> head != list[i - 1]);
    }
    hide SplicedPrev, SplicedNext;
    var u := list[..i] + list[i + 1..];
    forall m | 0 <= m < |u|
      ensures u[m] in prev' && prev'[u[m]] == Before(head, u, m)
      ensures u[m] in next' && next'[u[m]] == At(u, m + 1)
    {
      SpliceSameAt(head, list, prev, next, i, if m < i then m else m + 1);
    }
  }

  lemma SplicedHolds(slots: seq<seq<Timer>>, k: nat, i: nat, x: Timer)
    requires k < |slots| && i < |slots[k]| && Holds(slots, x) && x != slots[k][i]
    ensures Holds(Spliced(slots, k, i), x)
  {
    var u := Spliced(slots, k, i);
    var k', i' :| 0 <= k' < |slots| && 0 <= i' < |slots[k']| && slots[k'][i'] == x;
    assert u[k'][if k' == k && i' > i then i' - 1 else i'] == x;
  }

  /** The pointer writes of DelTimer take one timer out of its list and leave all others. */
  lemma SpliceKeepsLinks(heads: seq<Timer>, slots: seq<seq<Timer>>, timers: set<Timer>, prev: Links, next: Links, k: nat, i: nat)
    requires WellLinked(heads, slots, timers, prev, next) && k < |slots| && i < |slots[k]|
    ensures var t, before, after := slots[k][i], Before(heads[k], slots[k], i), At(slots[k], i + 1);
            WellLinked(heads, Spliced(slots, k, i), timers, SplicedPrev(prev, t, before, after), SplicedNext(next, t, before, after))
  {
    hide Linked;
    var t, before, after := slots[k][i], Before(heads[k], slots[k], i), At(slots[k], i + 1);
    var u := Spliced(slots, k, i);
    var prev', next' := SplicedPrev(prev, t, before, after), SplicedNext(next, t, before, after);
    SplicedElements(slots, k, i);
    SpliceSame(heads[k], slots[k], prev, next, i);
    forall j | 0 <= j < |u|
      ensures Linked(heads[j], u[j], prev', next')
    {
      if j != k {
        SpliceOther(heads, slots, timers, prev, next, k, i, j);
      }
    }
    forall x | x in timers && !Holds(u, x)
      ensures prev'[x] == null && next'[x] == null
    {
      if x != t && Holds(slots, x) {
        SplicedHolds(slots, k, i, x);
      }
    }
  }

  // ------------------------------------------------------------ linking in front

  ghost function Pushed(slots: seq<seq<Timer>>, k: nat, t: Timer): seq<seq<Timer>>
    requires k < |slots|
  {
    slots[k := [t] + slots[k]]
  }

  ghost function PushedNext(next: Links, head: Timer, t: Timer, first: Timer?): Links {
    next[t := first][head := t]
  }

  ghost function PushedPrev(prev: Links, head: Timer, t: Timer, first: Timer?): Links {
    (if first == null then prev else prev[first := t])[t := head]
  }

  lemma PushedElements(slots: seq<seq<Timer>>, k: nat, t: Timer)
    requires Distinct(slots) && k < |slots| && !Holds(slots, t)
    ensures Distinct(Pushed(slots, k, t))
    ensures forall k', i' :: 0 <= k' < |slots| && 0 <= i' < |Pushed(slots, k, t)[k']| ==>
              Pushed(slots, k, t)[k'][i'] == if k' != k then slots[k'][i'] else if i' == 0 then t else slots[k][i' - 1]
  {
  }

  lemma PushOther(heads: seq<Timer>, slots: seq<seq<Timer>>, timers: set<Timer>, prev: Links, next: Links, k: nat, t: Timer, j: nat)
    requires WellLinked(heads, slots, timers, prev, next) && k < |slots| && t in timers && !Holds(slots, t)
    requires j < |slots| && j != k
    ensures var first := At(slots[k], 0);
            Linked(heads[j], slots[j], PushedPrev(prev, heads[k], t, first), PushedNext(next, heads[k], t, first))
  {
    hide Linked, Covers;
    var first := At(slots[k], 0);
    InLinks(heads, slots, timers, prev, next, j);
    LinkedFrame(heads[j], slots[j], prev, next, PushedPrev(prev, heads[k], t, first), PushedNext(next, heads[k], t, first));
  }

  lemma PushSame(head: Timer, list: seq<Timer>, prev: Links, next: Links, t: Timer)
    requires Linked(head, list, prev, next) && head !in list && t !in list && t != head
    requires forall m, n :: 0 <= m < n < |list| ==> list[m] != list[n]
    ensures Linked(head, [t] + list, PushedPrev(prev, head, t, At(list, 0)), PushedNext(next, head, t, At(list, 0)))
  {
    var u := [t] + list;
    var prev', next' := PushedPrev(prev, head, t, At(list, 0)), PushedNext(next, head, t, At(list, 0));
    forall m | 0 <= m < |u|
      ensures u[m] in prev' && prev'[u[m]] == Before(head, u, m)
      ensures u[m] in next' && next'[u[m]] == At(u, m + 1)
    {
      if m > 0 {
        assert u[m] == list[m - 1] && prev[list[m - 1]] == Before(head, list, m - 1) && next[list[m - 1]] == At(list, m);
        assert m > 1 ==> list[m - 1] != list[0];
      }
    }
  }

  /** The pointer writes of AddTimer put an unlinked timer in front of one list. */
  lemma PushKeepsLinks(heads: seq<Timer>, slots: seq<seq<Timer>>, timers: set<Timer>, prev: Links, next: Links, k: nat, t: Timer)
    requires WellLinked(heads, slots, timers, prev, next) && k < |slots| && t in timers && !Holds(slots, t)
    ensures var first := At(slots[k], 0);
            WellLinked(heads, Pushed(slots, k, t), timers, PushedPrev(prev, heads[k], t, first), PushedNext(next, heads[k], t, first))
  {
    hide Linked;
    var first := At(slots[k], 0);
    var u := Pushed(slots, k, t);
    var prev', next' := PushedPrev(prev, heads[k], t, first), PushedNext(next, heads[k], t, first);
    PushedElements(slots, k, t);
    PushSame(heads[k], slots[k], prev, next, t);
    forall j | 0 <= j < |u|
      ensures Linked(heads[j], u[j], prev', next')
    {
      if j != k {
        PushOther(heads, slots, timers, prev, next, k, t, j);
      }
    }
    forall x | x in timers && !Holds(u, x)
      ensures prev'[x] == null && next'[x] == null
    {
      assert u[k][0] == t;
      PushedHolds(slots, k, t, x);
    }
  }

  lemma PushedHolds(slots: seq<seq<Timer>>, k: nat, t: Timer, x: Timer)
    requires k < |slots|
    ensures Holds(slots, x) ==> Holds(Pushed(slots, k, t), x)
  {
    if Holds(slots, x) {
      var k', i' :| 0 <= k' < |slots| && 0 <= i' < |slots[k']| && slots[k'][i'] == x;
      assert Pushed(slots, k, t)[k'][if k' == k then i' + 1 else i'] == x;
    }
  }

  // ------------------------------------------------------- moving a whole list

  ghost function Joined(slots: seq<seq<Timer>>, k: nat, d: nat): seq<seq<Timer>>
    requires k < |slots| && d < |slots|
  {
    var cleared := slots[k := []];
    cleared[d := cleared[d] + slots[k]]
  }

  ghost function JoinedNext(next: Links, from: Timer, tail: Timer, first: Timer): Links {
    next[from := null][tail := first]
  }

  ghost function JoinedPrev(prev: Links, tail: Timer, first: Timer): Links {
    prev[first := tail]
  }

  /** The last node of the list that the moved one is appended to. */
  ghost function Tail(heads: seq<Timer>, slots: seq<seq<Timer>>, k: nat, d: nat): Timer
    requires |heads| == |slots| && k < |slots| && d < |slots|
  {
    var cleared := slots[k := []];
    Before(heads[d], cleared[d], |cleared[d]|)
  }

  lemma JoinedElements(slots: seq<seq<Timer>>, k: nat, d: nat)
    requires Distinct(slots) && k < |slots| && d < |slots|
    ensures Distinct(Joined(slots, k, d))
    ensures forall k', i' :: 0 <= k' < |slots| && 0 <= i' < |Joined(slots, k, d)[k']| ==>
              Joined(slots, k, d)[k'][i'] ==
              if k' != d then slots[k'][i']
              else if k != d && i' < |slots[d]| then slots[d][i']
              else slots[k][i' - (if k == d then 0 else |slots[d]|)]
  {
  }

  lemma JoinSame(head: Timer, list: seq<Timer>, head2: Timer, list2: seq<Timer>, prev: Links, next: Links)
    requires Linked(head, list, prev, next) && Linked(head2, list2, prev, next) && list2 != []
    requires head != head2 && head !in list && head !in list2 && head2 !in list && head2 !in list2
    requires forall m, n :: 0 <= m < n < |list| ==> list[m] != list[n]
    requires forall m, n :: 0 <= m < n < |list2| ==> list2[m] != list2[n]
    requires forall m, n :: 0 <= m < |list| && 0 <= n < |list2| ==> list[m] != list2[n]
    ensures var tail := Before(head, list, |list|);
            var prev', next' := JoinedPrev(prev, tail, list2[0]), JoinedNext(next, head2, tail, list2[0]);
            Linked(head, list + list2, prev', next') && Linked(head2, [], prev', next')
  {
    var u := list + list2;
    var tail := Before(head, list, |list|);
    var prev', next' := JoinedPrev(prev, tail, list2[0]), JoinedNext(next, head2, tail, list2[0]);
    forall m | 0 <= m < |u|
      ensures u[m] in prev' && prev'[u[m]] == Before(head, u, m)
      ensures u[m] in next' && next'[u[m]] == At(u, m + 1)
    {
      if m < |list| {
        assert u[m] == list[m] && prev[list[m]] == Before(head, list, m) && next[list[m]] == At(list, m + 1);
        assert m < |list| - 1 ==> list[m] != tail;
        assert list[m] != list2[0];
      } else {
        var n := m - |list|;
        assert u[m] == list2[n] && prev[list2[n]] == Before(head2, list2, n) && next[list2[n]] == At(list2, n + 1);
        assert n > 0 ==> list2[n] != list2[0];
        assert list2[n] != tail;
      }
    }
  }

  lemma JoinBack(head: Timer, list: seq<Timer>, prev: Links, next: Links)
    requires Linked(head, list, prev, next) && list != [] && head !in list
    ensures Linked(head, list, JoinedPrev(prev, head, list[0]), JoinedNext(next, head, head, list[0]))
  {
    LinkedSelf(head, list, prev, next);
    LinkedFrame(head, list, prev, next, JoinedPrev(prev, head, list[0]), JoinedNext(next, head, head, list[0]));
  }

  lemma LinkedSelf(head: Timer, list: seq<Timer>, prev: Links, next: Links)
    requires Linked(head, list, prev, next) && list != []
    ensures head in next && next[head] == list[0] && list[0] in prev && prev[list[0]] == head
    ensures forall i :: 0 <= i < |list| ==> list[i] in prev && list[i] in next
  {
    assert list[0] in prev;
  }

  lemma JoinOther(heads: seq<Timer>, slots: seq<seq<Timer>>, timers: set<Timer>, prev: Links, next: Links, k: nat, d: nat, j: nat)
    requires WellLinked(heads, slots, timers, prev, next) && k < |slots| && d < |slots| && slots[k] != []
    requires j < |slots| && j != k && j != d
    ensures var tail, first := Tail(heads, slots, k, d), slots[k][0];
            Linked(heads[j], slots[j], JoinedPrev(prev, tail, first), JoinedNext(next, heads[k], tail, first))
  {
    hide Linked, Covers;
    var tail, first := Tail(heads, slots, k, d), slots[k][0];
    InLinks(heads, slots, timers, prev, next, j);
    LinkedFrame(heads[j], slots[j], prev, next, JoinedPrev(prev, tail, first), JoinedNext(next, heads[k], tail, first));
  }

  /** The pointer writes of MoveTimerList append one whole list to another. */
  lemma JoinKeepsLinks(heads: seq<Timer>, slots: seq<seq<Timer>>, timers: set<Timer>, prev: Links, next: Links, k: nat, d: nat)
    requires WellLinked(heads, slots, timers, prev, next) && k < |slots| && d < |slots| && slots[k] != []
    ensures var tail, first := Tail(heads, slots, k, d), slots[k][0];
            WellLinked(heads, Joined(slots, k, d), timers, JoinedPrev(prev, tail, first), JoinedNext(next, heads[k], tail, first))
  {
    hide Linked;
    var tail, first := Tail(heads, slots, k, d), slots[k][0];
    var u := Joined(slots, k, d);
    var prev', next' := JoinedPrev(prev, tail, first), JoinedNext(next, heads[k], tail, first);
    JoinedElements(slots, k, d);
    if k == d {
      JoinBack(heads[k], slots[k], prev, next);
      assert [] + slots[k] == slots[k];
    } else {
      JoinSame(heads[d], slots[d], heads[k], slots[k], prev, next);
    }
    forall j | 0 <= j < |u|
      ensures Linked(heads[j], u[j], prev', next')
    {
      if j != k && j != d {
        JoinOther(heads, slots, timers, prev, next, k, d, j);
      }
    }
    forall x | x in timers && !Holds(u, x)
      ensures prev'[x] == null && next'[x] == null
    {
      JoinedHolds(slots, k, d, x);
      assert Holds(slots, first);
    }
  }

  lemma JoinedHolds(slots: seq<seq<Timer>>, k: nat, d: nat, x: Timer)
    requires k < |slots| && d < |slots|
    ensures Holds(slots, x) ==> Holds(Joined(slots, k, d), x)
  {
    if Holds(slots, x) {
      var k', i' :| 0 <= k' < |slots| && 0 <= i' < |slots[k']| && slots[k'][i'] == x;
      var u := Joined(slots, k, d);
      if k' == k {
        assert u[d][if k == d then i' else |slots[d]| + i'] == x;
      } else {
        assert u[k'][i'] == x;
      }
    }
  }

  lemma EmptyWellLinked(heads: seq<Timer>, prev: Links, next: Links)
    requires forall j, k :: 0 <= j < k < |heads| ==> heads[j] != heads[k]
    requires forall k :: 0 <= k < |heads| ==> heads[k] in prev && heads[k] in next && next[heads[k]] == null
    ensures WellLinked(heads, seq(|heads|, _ => []), {}, prev, next)
  {
  }

  // --------------------------------------------------- the view on these lists

  lemma {:induction false} RemoveOnce<T>(s: seq<T>, i: nat)
    requires NoDup(s) && i < |s|
    ensures Remove(s, s[i]) == s[..i] + s[i + 1..]
  {
    if i == 0 {
      RemoveElements(s[1..], s[0]);
      assert s[0] !in s[1..];
    } else {
      RemoveOnce(s[1..], i - 1);
      assert s[..i] + s[i + 1..] == [s[0]] + (s[1..][..i - 1] + s[1..][i..]);
    }
  }

  lemma UnlinkSplices(w: M.Wheel<Timer>, k: nat, i: nat)
    requires Distinct(w.slots) && k < |w.slots| && i < |w.slots[k]|
    ensures Unlink(w, w.slots[k][i]).slots == Spliced(w.slots, k, i)
  {
    hide Remove;
    var t := w.slots[k][i];
    forall j | 0 <= j < |w.slots|
      ensures Remove(w.slots[j], t) == Spliced(w.slots, k, i)[j]
    {
      if j == k {
        RemoveOnce(w.slots[k], i);
      } else {
        assert t !in w.slots[j];
        RemoveElements(w.slots[j], t);
      }
    }
  }

  lemma NotHeld(slots: seq<seq<Timer>>, t: Timer)
    requires !Holds(slots, t)
    ensures forall k, i :: 0 <= k < |slots| && 0 <= i < |slots[k]| ==> slots[k][i] != t
  {
  }

  lemma SplicedOut(slots: seq<seq<Timer>>, k: nat, i: nat)
    requires Distinct(slots) && k < |slots| && i < |slots[k]|
    ensures !Holds(Spliced(slots, k, i), slots[k][i])
  {
    SplicedElements(slots, k, i);
  }

  lemma Unregistered(heads: seq<Timer>, slots: seq<seq<Timer>>, timers: set<Timer>, prev: Links, next: Links, t: Timer)
    requires WellLinked(heads, slots, timers, prev, next) && t !in timers && t !in heads
    ensures WellLinked(heads, slots, timers + {t}, prev[t := null], next[t := null])
  {
    hide Linked;
    forall j | 0 <= j < |slots|
      ensures Linked(heads[j], slots[j], prev[t := null], next[t := null])
    {
      InLinks(heads, slots, timers, prev, next, j);
      LinkedFrame(heads[j], slots[j], prev, next, prev[t := null], next[t := null]);
    }
  }

  lemma HeadNext(heads: seq<Timer>, slots: seq<seq<Timer>>, timers: set<Timer>, prev: Links, next: Links, k: nat)
    requires WellLinked(heads, slots, timers, prev, next) && k < |slots|
    ensures heads[k] in next && heads[k] !in timers && next[heads[k]] == At(slots[k], 0)
    ensures slots[k] != [] ==> slots[k][0] in timers
  {
    InLinks(heads, slots, timers, prev, next, k);
  }

  /** Following next from the head of list d visits it in order, once list k is detached. */
  lemma ClearedChain(heads: seq<Timer>, slots: seq<seq<Timer>>, timers: set<Timer>, prev: Links, next: Links, k: nat, d: nat, m: nat)
    requires WellLinked(heads, slots, timers, prev, next) && k < |slots| && d < |slots|
    requires m <= |slots[k := []][d]|
    ensures var list := slots[k := []][d];
            var node := Before(heads[d], list, m);
            && (node in timers || node in heads) && node in next && next[heads[k] := null][node] == At(list, m)
  {
    InLinks(heads, slots, timers, prev, next, d);
  }

  lemma JoinedIsMove(w: M.Wheel<Timer>, k: nat)
    requires Closed(w) && k < |w.slots| && w.slots[k] != [] && Moveable(w, k)
    ensures var d := FindSlot(w.last, w.expiry[w.slots[k][0]]).value;
            d < |w.slots| && Move(w, k) == w.(slots := Joined(w.slots, k, d))
  {
  }

  lemma ExecAllStep(w: M.Wheel<Timer>, cs: seq<Command<Timer>>)
    requires Closed(w) && cs != []
    ensures ExecAll(w, cs) == ExecAll(Exec(w, cs[0]), cs[1..])
  {
    hide Closed, Exec;
  }

  lemma ExecNone(w: M.Wheel<Timer>)
    requires Closed(w)
    ensures ExecAll(w, []) == w
  {
  }

  lemma ExecStop(w: M.Wheel<Timer>, t: Timer)
    requires Closed(w)
    ensures Exec(w, Stop(t)) == Unlink(w, t)
  {
  }

  lemma DrainStep(w: M.Wheel<Timer>, k: nat, cb: Callbacks<Timer>, n: nat)
    requires Closed(w) && k < RINGS * RING && Drained(w, k, cb, n) && k < |w.slots|
    ensures w.slots[k] == [] ==> Drain(w, k, cb, n) == w
    ensures w.slots[k] != [] ==> n > 0 && Drain(w, k, cb, n) == Drain(FireOne(w, k, cb), k, cb, n - 1)
  {
    hide Closed, FireOne;
  }

  lemma SameDrain(w: M.Wheel<Timer>, k: nat, cb: Callbacks<Timer>, n: nat)
    requires Closed(w) && k < RINGS * RING && Drained(w, k, cb, n + 1) && k < |w.slots| && w.slots[k] != []
    ensures Closed(FireOne(w, k, cb)) && Drained(FireOne(w, k, cb), k, cb, n)
  {
    hide Closed, FireOne;
  }

  // ------------------------------------------------------------------ the wheel

  class Wheel {
    const heads: seq<Timer>
    var last: int
    ghost var slots: seq<seq<Timer>>
    ghost var timers: set<Timer>

    ghost function Nodes(): set<Timer>
      reads this
    {
      timers + set h | h in heads
    }

    ghost function Prevs(): Links
      reads this, Nodes()
    {
      map n | n in Nodes() :: n.prev
    }

    ghost function Nexts(): Links
      reads this, Nodes()
    {
      map n | n in Nodes() :: n.next
    }

    ghost function View(): M.Wheel<Timer>
      reads this, timers
    {
      M.Wheel(last, slots, map t | t in timers :: t.expiration)
    }

    ghost predicate Valid()
      reads this, Nodes()
    {
      |heads| == RINGS * RING && WellLinked(heads, slots, timers, Prevs(), Nexts())
    }

    lemma ViewClosed()
      requires Valid()
      ensures Closed(View()) && View().expiry.Keys == timers
    {
      hide Linked, Covers, Distinct;
      assert Shape(heads, slots, timers);
    }

    constructor (now: int)
      ensures Valid() && fresh(Nodes()) && timers == {} && View() == Empty(now)
    {
      var hs: seq<Timer> := [];
      while |hs| < RINGS * RING
        invariant |hs| <= RINGS * RING
        invariant forall i :: 0 <= i < |hs| ==> fresh(hs[i]) && hs[i].prev == null && hs[i].next == null
        invariant forall i, j :: 0 <= i < j < |hs| ==> hs[i] != hs[j]
      {
        var h := new Timer();
        hs := hs + [h];
      }
      heads, last := hs, now;
      slots, timers := seq(RINGS * RING, _ => []), {};
      new;
      hide WellLinked;
      EmptyWellLinked(heads, Prevs(), Nexts());
    }

    /** A timer object the program creates; it is not linked anywhere. */
    ghost method Register(timer: Timer)
      requires Valid() && timer !in Nodes() && timer.prev == null && timer.next == null
      modifies this`timers
      ensures Valid() && timers == old(timers) + {timer}
      ensures View() == SetExpiry(old(View()), timer, timer.expiration)
    {
      hide WellLinked;
      Unregistered(heads, slots, timers, Prevs(), Nexts(), timer);
      timers := timers + {timer};
      assert Prevs() == old(Prevs())[timer := null] && Nexts() == old(Nexts())[timer := null];
    }

    /** Record what the lists hold after the pointers changed. */
    ghost method Reslot(lists: seq<seq<Timer>>)
      modifies `slots
      ensures slots == lists && Prevs() == old(Prevs()) && Nexts() == old(Nexts())
      ensures View() == old(View()).(slots := lists)
    {
      slots := lists;
    }

    /** FindHead */
    method FindHead(timer: Timer) returns (head: Timer?)
      requires |heads| == RINGS * RING
      ensures match FindSlot(last, timer.expiration) case None => head == null case Some(k) => head == heads[k]
    {
      var diff := timer.expiration - last;
      if diff < 0 {
        return null;
      }
      var i := 0;
      while i < RINGS
        invariant 0 <= i <= RINGS
        invariant FindSlot(last, timer.expiration) == FindSlotFrom(last, timer.expiration, i)
      {
        if diff < MaxTime(i) {
          return heads[i * RING + CalcTime(timer.expiration, i)];
        }
        i := i + 1;
      }
      return null;
    }

    lemma HeldHasPrev(timer: Timer)
      requires Valid() && timer in timers
      ensures Holds(slots, timer) ==> timer.prev != null
    {
      hide Linked, Distinct;
      if Holds(slots, timer) {
        var k, i :| 0 <= k < |slots| && 0 <= i < |slots[k]| && slots[k][i] == timer;
        Neighbours(heads, slots, timers, Prevs(), Nexts(), k, i);
      }
    }

    /** Where a linked timer is, and that the pointer writes of DelTimer take it out. */
    lemma Located(timer: Timer) returns (k: nat, i: nat)
      requires Valid() && timer in timers && timer.prev != null
      ensures k < |slots| && i < |slots[k]|
      ensures timer.prev in Nodes() && timer.prev != timer && timer.next != timer
      ensures timer.next != null ==> timer.next in Nodes() && timer.next != timer.prev
      ensures WellLinked(heads, Spliced(slots, k, i), timers,
                         SplicedPrev(Prevs(), timer, timer.prev, timer.next), SplicedNext(Nexts(), timer, timer.prev, timer.next))
      ensures !Holds(Spliced(slots, k, i), timer) && Unlink(View(), timer).slots == Spliced(slots, k, i)
    {
      hide Linked, Distinct, Unlink;
      k, i :| 0 <= k < |slots| && 0 <= i < |slots[k]| && slots[k][i] == timer;
      Neighbours(heads, slots, timers, Prevs(), Nexts(), k, i);
      SpliceKeepsLinks(heads, slots, timers, Prevs(), Nexts(), k, i);
      SplicedOut(slots, k, i);
      UnlinkSplices(View(), k, i);
    }

    /** The pointer writes that take a timer out from between its neighbours. */
    method Cut(timer: Timer)
      requires timer in Nodes() && timer.prev != null && timer.prev in Nodes() && timer.prev != timer
      requires timer.next != null ==> timer.next in Nodes() && timer.next != timer && timer.next != timer.prev
      modifies Nodes()`prev, Nodes()`next
      ensures View() == old(View())
      ensures Prevs() == old(SplicedPrev(Prevs(), timer, timer.prev, timer.next))
      ensures Nexts() == old(SplicedNext(Nexts(), timer, timer.prev, timer.next))
    {
      if timer.next != null {
        timer.next.prev := timer.prev;
        timer.prev.next := timer.next;
      } else {
        timer.prev.next := null;
      }
      timer.prev := null;
      timer.next := null;
    }

    method DelTimer(timer: Timer)
      requires Valid() && timer in timers
      modifies `slots, Nodes()`prev, Nodes()`next
      ensures Valid() && View() == Unlink(old(View()), timer)
      ensures !Holds(slots, timer)
    {
      hide WellLinked, Unlink, Holds, Spliced, SplicedPrev, SplicedNext;
      if timer.prev == null {
        LooseHasNoNext(timer);
        timer.next := null;
        NotHeld(slots, timer);
        UnlinkAbsent(View(), timer);
        assert Prevs() == old(Prevs()) && Nexts() == old(Nexts());
      } else {
        ghost var k, i := Located(timer);
        Cut(timer);
        Reslot(Spliced(slots, k, i));
      }
    }

    lemma LooseHasNoNext(timer: Timer)
      requires Valid() && timer in timers && timer.prev == null
      ensures !Holds(slots, timer) && timer.next == null
    {
      hide Linked, Distinct;
      HeldHasPrev(timer);
      assert Nexts()[timer] == timer.next;
    }

    /** The pointer writes that put a loose timer behind a head. */
    method LinkBehind(head: Timer, timer: Timer)
      requires timer in Nodes() && head in Nodes() && timer != head
      requires head.next != null ==> head.next in Nodes() && head.next != timer && head.next != head
      modifies Nodes()`prev, Nodes()`next
      ensures View() == old(View())
      ensures Prevs() == old(PushedPrev(Prevs(), head, timer, head.next))
      ensures Nexts() == old(PushedNext(Nexts(), head, timer, head.next))
    {
      if head.next != null {
        timer.next := head.next;
        head.next.prev := timer;
        head.next := timer;
        timer.prev := head;
      } else {
        timer.next := null;
        timer.prev := head;
        head.next := timer;
      }
    }

    lemma RoomAt(k: nat, timer: Timer)
      requires Valid() && k < |slots| && timer in timers && !Holds(slots, timer)
      ensures var head := heads[k];
              && head in Nodes() && head != timer
              && (head.next != null ==> head.next in Nodes() && head.next != timer && head.next != head)
              && WellLinked(heads, Pushed(slots, k, timer), timers,
                            PushedPrev(Prevs(), head, timer, head.next), PushedNext(Nexts(), head, timer, head.next))
    {
      hide Linked, Distinct;
      HeadNext(heads, slots, timers, Prevs(), Nexts(), k);
      NotHeld(slots, timer);
      PushKeepsLinks(heads, slots, timers, Prevs(), Nexts(), k, timer);
    }

    method AddTimer(timer: Timer)
      requires Valid() && timer in timers
      modifies `slots, Nodes()`prev, Nodes()`next
      ensures Valid() && Closed(old(View())) && View() == Add(old(View()), timer)
    {
      hide WellLinked, Unlink, Holds, PushedPrev, PushedNext, FindSlot, Closed;
      ViewClosed();
      DelTimer(timer);
      var head := FindHead(timer);
      if head == null {
        return;
      }
      ViewClosed();
      ClosedShape(View());
      ghost var k := FindSlot(last, timer.expiration).value;
      RoomAt(k, timer);
      LinkBehind(head, timer);
      Reslot(Pushed(slots, k, timer));
    }

    lemma JoinPlan(k: nat, d: nat)
      requires Valid() && k < |slots| && d < |slots| && slots[k] != []
      ensures heads[k] in Nodes() && heads[k].next == slots[k][0] && slots[k][0] in timers
      ensures var tail := Tail(heads, slots, k, d);
              && tail in Nodes()
              && WellLinked(heads, Joined(slots, k, d), timers,
                            JoinedPrev(Prevs(), tail, slots[k][0]), JoinedNext(Nexts(), heads[k], tail, slots[k][0]))
    {
      hide Linked, Distinct;
      HeadNext(heads, slots, timers, Prevs(), Nexts(), k);
      ClearedChain(heads, slots, timers, Prevs(), Nexts(), k, d, |slots[k := []][d]|);
      JoinKeepsLinks(heads, slots, timers, Prevs(), Nexts(), k, d);
    }

    lemma HeadOf(k: nat)
      requires Valid() && k < |slots|
      ensures heads[k].next == At(slots[k], 0) && heads[k] in Nodes() && (slots[k] != [] ==> slots[k][0] in timers)
    {
      hide Linked, Distinct;
      HeadNext(heads, slots, timers, Prevs(), Nexts(), k);
    }

    /** The tail walk of MoveTimerList, once list k is detached. */
    method Last(head: Timer, ghost prev: Links, ghost next: Links, ghost k: nat, ghost d: nat) returns (tail: Timer)
      requires |heads| == |slots| && k < |slots| && d < |slots| && head == heads[d] && heads[k] in Nodes()
      requires WellLinked(heads, slots, timers, prev, next)
      requires Nexts() == next[heads[k] := null]
      ensures tail == Tail(heads, slots, k, d) && tail in Nodes()
    {
      hide WellLinked;
      ghost var list := slots[k := []][d];
      ghost var m := 0;
      tail := head;
      ClearedChain(heads, slots, timers, prev, next, k, d, 0);
      assert Nexts()[tail] == tail.next;
      while tail.next != null
        invariant m <= |list| && tail == Before(heads[d], list, m) && tail in Nodes() && tail.next == At(list, m)
        decreases |list| - m
      {
        tail := tail.next;
        m := m + 1;
        ClearedChain(heads, slots, timers, prev, next, k, d, m);
        assert Nexts()[tail] == tail.next;
      }
    }

    method Detach(head: Timer)
      requires head in Nodes()
      modifies Nodes()`next
      ensures View() == old(View()) && Prevs() == old(Prevs()) && Nexts() == old(Nexts())[head := null]
    {
      head.next := null;
    }

    method Attach(tail: Timer, first: Timer)
      requires tail in Nodes() && first in Nodes()
      modifies Nodes()`prev, Nodes()`next
      ensures View() == old(View()) && Prevs() == old(Prevs())[first := tail] && Nexts() == old(Nexts())[tail := first]
    {
      tail.next := first;
      first.prev := tail;
    }

    method MoveTimerList(head: Timer, ghost k: nat)
      requires Valid() && k < |slots| && head == heads[k]
      requires Closed(View()) && Moveable(View(), k)
      modifies `slots, Nodes()`prev, Nodes()`next
      ensures Valid() && View() == Move(old(View()), k)
    {
      hide WellLinked, FindSlot, Joined, Tail, Closed, Move, Prevs, Nexts;
      HeadOf(k);
      if head.next == null {
        NothingToMove(View(), k);
        return;
      }
      var first := head.next;
      ghost var w := View();
      ClosedShape(w);
      JoinedIsMove(w, k);
      ghost var d := FindSlot(last, first.expiration).value;
      JoinPlan(k, d);
      Detach(head);
      var moveToHead := FindHead(first);
      assert moveToHead != null;
      var tail := Last(moveToHead, old(Prevs()), old(Nexts()), k, d);
      Attach(tail, first);
      Reslot(Joined(slots, k, d));
    }

    /** Timer::Start, with the expiration already computed. */
    method Start(timer: Timer, expiration: int)
      requires Valid() && timer in timers
      modifies `slots, Nodes()`prev, Nodes()`next, timer`expiration
      ensures Valid() && Closed(old(View())) && View() == Exec(old(View()), Command.Start(timer, expiration))
    {
      hide WellLinked, Closed, Add;
      ViewClosed();
      SetExpiration(timer, expiration);
      AddTimer(timer);
    }

    method SetExpiration(timer: Timer, expiration: int)
      requires Valid() && timer in timers
      modifies timer`expiration
      ensures Valid() && View() == SetExpiry(old(View()), timer, expiration)
    {
      hide WellLinked;
      timer.expiration := expiration;
      assert Prevs() == old(Prevs()) && Nexts() == old(Nexts());
    }

    /** What a callback does to timers before it returns. */
    method Execute(commands: seq<Command<Timer>>)
      requires Valid() && forall i :: 0 <= i < |commands| ==> commands[i].timer in timers
      modifies `slots, Nodes()
      ensures Valid() && last == old(last) && timers == old(timers)
      ensures Closed(old(View())) && View() == ExecAll(old(View()), commands)
    {
      hide Valid, Closed, Exec;
      ViewClosed();
      var i := 0;
      while i < |commands|
        invariant 0 <= i <= |commands| && Valid() && last == old(last) && timers == old(timers) && Closed(View())
        invariant ExecAll(View(), commands[i..]) == ExecAll(old(View()), commands)
      {
        ghost var w := View();
        ExecAllStep(w, commands[i..]);
        match commands[i] {
          case Start(t, e) => Start(t, e);
          case Stop(t) =>
            DelTimer(t);
            ExecStop(w, t);
        }
        assert commands[i..][1..] == commands[i + 1..];
        i := i + 1;
      }
      ExecNone(View());
    }

    /** One turn of the firing loop: unlink the first timer, run its callback, and arm it
        again when the callback returns a period. */
    method Fire(head: Timer, k: nat, cb: Callbacks<Timer>)
      requires Valid() && k < |slots| && slots[k] != [] && head == heads[k] && Confined(cb, timers)
      modifies `slots, Nodes()
      ensures Valid() && last == old(last) && timers == old(timers)
      ensures Closed(old(View())) && View() == FireOne(old(View()), k, cb)
    {
      hide Valid, Closed, Add, ExecAll, Unlink, WellLinked;
      ViewClosed();
      HeadOf(k);
      ClosedShape(View());
      var timer := head.next;
      var r := cb(last, timer);
      DelTimer(timer);
      Execute(r.commands);
      if r.next > 0 {
        ViewClosed();
        SetExpiration(timer, timer.expiration + r.next);
        AddTimer(timer);
      }
    }

    method NextMillisecond()
      requires Valid()
      modifies `last
      ensures Valid() && View() == old(View()).(last := old(last) + 1)
    {
      hide WellLinked;
      last := last + 1;
      assert Prevs() == old(Prevs()) && Nexts() == old(Nexts());
    }

    /** The clock step of TurnWheel with its cascade. */
    method BeginTick()
      requires Valid() && Closed(View()) && Closed(View().(last := last + 1))
      requires CalcTime(last + 1, 0) == 0 ==> CascadeSafe(View().(last := last + 1))
      modifies `last, `slots, Nodes()`prev, Nodes()`next
      ensures Valid() && Closed(old(View())) && View() == M.BeginTick(old(View()))
    {
      hide Valid, Closed, Move, Moveable, WellLinked, CalcTime;
      NextMillisecond();
      ViewClosed();
      ClosedShape(View());
      assert |heads| == |slots| by { HeadCount(); }
      ghost var w := View();
      var index := CalcTime(last, 0);
      if index == 0 {
        var j := 1;
        while j < RINGS
          invariant 1 <= j <= RINGS && Valid() && Closed(View()) && last == w.last && timers == old(timers)
          invariant |slots| == |heads| == RINGS * RING
          invariant j > 1 ==> CalcTime(last, 1) == 0
          invariant View() == match j
                              case 1 => w
                              case 2 => Move(w, RING)
                              case 3 => Move(Move(w, RING), 2 * RING)
                              case _ => Move(Move(Move(w, RING), 2 * RING), 3 * RING)
        {
          var movedIndex := CalcTime(last, 1);
          MoveTimerList(heads[j * RING + movedIndex], j * RING + movedIndex);
          ClosedShape(View());
          if movedIndex != 0 {
            break;
          }
          j := j + 1;
        }
      }
    }

    lemma HeadCount()
      requires Valid()
      ensures |heads| == |slots| == RINGS * RING
    {
      hide Linked, Covers;
    }

    /** One millisecond of TurnWheel: the inner loop ends with the slot of this tick empty. */
    method Tick(cb: Callbacks<Timer>)
      requires Valid() && Closed(View()) && Confined(cb, timers) && TickDefined(View(), cb)
      modifies `last, `slots, Nodes()
      ensures Valid() && timers == old(timers) && View() == FullTick(old(View()), cb)
    {
      hide Valid, Closed, M.BeginTick, FireOne, Confined, WellLinked, CalcTime, Drain, Drained, CascadeSafe;
      BeginTick();
      HeadCount();
      var index := CalcTime(last, 0);
      var head := heads[index];
      ghost var n :| Drained(View(), index, cb, n);
      FullDrainIs(View(), index, cb, n);
      ghost var target := Drain(View(), index, cb, n);
      HeadOf(index);
      while head.next != null
        invariant Valid() && last == old(last) + 1 && timers == old(timers) && |slots| == |heads| == RINGS * RING
        invariant Closed(View()) && Drained(View(), index, cb, n) && Drain(View(), index, cb, n) == target
        invariant head.next == At(slots[index], 0)
        decreases n
      {
        ghost var w := View();
        DrainStep(w, index, cb, n);
        Fire(head, index, cb);
        n := n - 1;
        SameDrain(w, index, cb, n);
        HeadCount();
        HeadOf(index);
      }
      DrainStep(View(), index, cb, n);
    }

    /** TurnWheel: what the model's turn does, for every program whose turn fails no assertion
        and ends. */
    method TurnWheel(now: int, cb: Callbacks<Timer>)
      requires Valid() && Closed(View()) && Confined(cb, timers) && TurnDefined(View(), cb, now)
      modifies `last, `slots, Nodes()
      ensures Valid() && timers == old(timers) && View() == FullTurn(old(View()), cb, now)
    {
      hide Valid, Closed, TickDefined, FullTick, Confined, WellLinked;
      var updateTimes := now - last;
      var i := 0;
      while i < updateTimes
        invariant 0 <= i && (updateTimes >= 0 ==> i <= updateTimes) && last == old(last) + i
        invariant Valid() && timers == old(timers) && Closed(View()) && TurnDefined(View(), cb, now)
        invariant FullTurn(View(), cb, now) == FullTurn(old(View()), cb, now)
      {
        Tick(cb);
        i := i + 1;
      }
    }
  }
}
