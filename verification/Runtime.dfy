/** The loops of the runtime that run between two suspensions, as methods. */
module Runtime {
  import opened SchedulerModel

  lemma {:induction false} LeastExists(s: set<nat>)
    requires s != {}
    ensures exists r :: IsLeast(r, s)
    decreases |s|
  {
    var r :| r in s;
    var rest := s - {r};
    if rest == {} {
      assert s == {r};
      assert IsLeast(r, s);
    } else {
      LeastExists(rest);
      var m :| IsLeast(m, rest);
      forall x | x in s
        ensures (if m < r then m else r) <= x
      {
        assert x == r || x in rest;
      }
      assert IsLeast(if m < r then m else r, s);
    }
  }

  /** kernel/runtime/routine_pool.cc.  What a task does is not known; whether it returns
      before it first suspends is told by finishes, one answer for each task started. */
  class RoutinePool {
    var free: set<nat>
    var active: set<nat>
    var tasks: seq<nat>
    ghost var started: seq<nat>

    ghost predicate Valid()
      reads this
    {
      free !! active
    }

    constructor (routines: set<nat>)
      ensures Valid() && free == routines && active == {} && tasks == [] && started == []
    {
      free, active, tasks, started := routines, {}, [], [];
    }

    /** One turn of the loop of RoutineProcess, up to the suspension of the routine: in the
        middle of its function, or after it. */
    method RoutineProcess(id: nat, finishes: bool)
      requires Valid() && id in free && tasks != []
      modifies this
      ensures Valid() && free + active == old(free + active)
      ensures id in (if finishes then free else active)
      ensures forall r :: r != id ==> (r in free <==> r in old(free))
      ensures tasks == old(tasks[1..]) && started == old(started) + [old(tasks[0])]
    {
      assert id in free && id !in active && tasks != [];
      var func := tasks[0];
      tasks := tasks[1..];
      free, active := free - {id}, active + {id};
      started := started + [func];
      if finishes {
        free, active := free + {id}, active - {id};
      }
    }

    /** RoutinePool::Start: it ends with no task or no free routine left, tasks start in
        submission order, and it calls RoutineProcess only where its assertions hold. */
    method Start(func: nat, finishes: nat -> bool)
      requires Valid()
      modifies this
      ensures Valid() && (tasks == [] || free == {})
      ensures started + tasks == old(started + tasks) + [func] && old(started) <= started
      ensures free + active == old(free + active) && free <= old(free)
      ensures forall r, x :: r in old(free) - free && x in free ==> r < x
    {
      tasks := tasks + [func];
      assert started + tasks == old(started + tasks) + [func];
      while tasks != [] && free != {}
        invariant Valid() && started + tasks == old(started + tasks) + [func] && old(started) <= started
        invariant free + active == old(free + active) && free <= old(free)
        invariant forall r, x :: r in old(free) - free && x in free ==> r < x
        decreases |tasks|
      {
        LeastExists(free);
        var id :| IsLeast(id, free);
        ghost var was := free;
        assert started + tasks == (started + [tasks[0]]) + tasks[1..];
        RoutineProcess(id, finishes(|tasks|));
        forall r, x | r in old(free) - free && x in free
          ensures r < x
        {
          assert x in was && (r == id || r in old(free) - was);
        }
      }
    }
  }

  /** What one write call returns. */
  datatype WriteResult = Wrote(n: nat) | Interrupted | WouldBlock | Failed | ZeroWithError

  datatype Outcome = Complete | Broken | Waiting

  predicate IsFailure(r: WriteResult) {
    r.Failed? || r.ZeroWithError?
  }

  /** How many bytes the kernel has taken. */
  function Written(script: seq<WriteResult>): nat {
    if script == [] then 0
    else
      Written(script[..|script| - 1]) + match script[|script| - 1] case Wrote(n) => n case _ => 0
  }

  /** The result at i is a write with which the kernel has taken size bytes or more. */
  predicate Fills(size: nat, script: seq<WriteResult>, i: nat)
    requires i < |script|
  {
    script[i].Wrote? && Written(script[..i + 1]) >= size
  }

  /** kernel/net/tcp_stream.cc, AsyncWrite.  The script is what the write calls return, across
      suspensions; the routine stays suspended when it ends.  The loop ends with the first
      failure or the write that takes the last byte, whichever comes first.  The bytes handed to
      the kernel are as many of the buffer's, in order and without gaps, as it has taken, and the
      return value counts them. */
  method AsyncWrite<T>(buffer: seq<T>, script: seq<WriteResult>) returns (ret: nat, sent: seq<T>, outcome: Outcome, used: nat)
    ensures used <= |script| && sent <= buffer && ret == |sent|
    ensures var taken := Written(script[..used]); |sent| == if taken < |buffer| then taken else |buffer|
    ensures outcome == Complete <==> used > 0 && Fills(|buffer|, script, used - 1)
    ensures outcome == Broken <==> used > 0 && IsFailure(script[used - 1])
    ensures outcome == Waiting ==> used == |script|
    ensures forall i :: 0 <= i < used - 1 ==> !IsFailure(script[i]) && !Fills(|buffer|, script, i)
  {
    var buf := buffer;
    ret, sent, used := 0, [], 0;
    while used < |script|
      invariant used <= |script| && sent + buf == buffer && ret == |sent| == Written(script[..used])
      invariant forall i :: 0 <= i < used ==> !IsFailure(script[i]) && !Fills(|buffer|, script, i)
      invariant buf != [] || buffer == []
    {
      var r := script[used];
      used := used + 1;
      assert script[..used][..used - 1] == script[..used - 1];
      match r
      case Interrupted =>
      case WouldBlock =>
      case Failed =>
        return ret, sent, Broken, used;
      case ZeroWithError =>
        return ret, sent, Broken, used;
      case Wrote(n) =>
        var wn := if n < |buf| then n else |buf|;
        sent := sent + buf[..wn];
        ret := ret + wn;
        if wn == |buf| {
          return ret, sent, Complete, used;
        }
        buf := buf[wn..];
    }
    outcome := Waiting;
  }
}
