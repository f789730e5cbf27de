/** The objects behind the handle pool: each method is one channel operation or critical section, and takes a step
    that HandlePool allows (cmd/pensiero/pool.go). */
module PoolObjects {
  import opened HandlePool

  class GraphHandle {
    ghost const id: nat
    var closed: bool

    constructor (ghost id: nat)
      ensures this.id == id && !closed
    {
      this.id := id;
      closed := false;
    }
  }

  class GraphPool {
    const handles: seq<GraphHandle>
    var available: seq<GraphHandle>
    var group: nat
    var closed: bool
    // The abstract state, which also says where each query is.
    ghost var view: State

    ghost predicate Matches()
      reads this, handles
    {
      && |handles| == view.size
      && (forall i | 0 <= i < |handles| :: handles[i].id == i && (handles[i].closed <==> i < |view.shut|))
      && |available| == |view.available|
      && (forall i | 0 <= i < |available| :: available[i] in handles && available[i].id == view.available[i])
      && group == view.group && closed == view.closed
    }

    ghost predicate Valid()
      reads this, handles
    {
      Matches() && Inv(view)
    }

    /** A pool over handles that were just opened. */
    constructor (given: seq<GraphHandle>)
      requires forall i | 0 <= i < |given| :: given[i].id == i && !given[i].closed
      ensures Valid() && Init(view) && handles == given
    {
      handles, available, group, closed := given, given, 0, false;
      view := State(|given|, seq(|given|, i => i), map[], 0, false, Idle, [], false);
      new;
      InitInv(view);
    }

    /** A query arrives; it fails if the pool is closing. */
    method Arrive(ghost q: nat) returns (ok: bool)
      requires Valid() && q !in view.queries
      modifies this`view
      ensures Valid() && HandlePool.Arrives(old(view), view, q) && ok == !closed
    {
      hide Inv;
      ok := !closed;
      ghost var was := view;
      view := Moved(was, q, if closed then Finished else Waiting);
      assert HandlePool.Arrives(was, view, q);
      QueryInv(was, view, q);
    }

    /** Take an idle handle, if there is one now. */
    method Borrow(ghost q: nat) returns (handle: GraphHandle?)
      requires Valid() && At(view, q, Waiting)
      modifies this`view, this`available
      ensures Valid() && (handle == null <==> old(available) == [])
      ensures handle == null ==> view == old(view)
      ensures handle != null ==> Takes(old(view), view, q) && handle in handles && view.queries[q] == Borrowed(handle.id)
    {
      hide Inv;
      if available == [] {
        return null;
      }
      handle := available[0];
      ghost var was := view;
      available := available[1..];
      view := Moved(was, q, Borrowed(was.available[0])).(available := was.available[1..]);
      TakesInv(was, view, q);
    }

    /** Under the lock: join the wait group, or learn that the pool was closed. */
    method Enter(ghost q: nat, handle: GraphHandle) returns (ok: bool)
      requires Valid() && At(view, q, Borrowed(handle.id))
      modifies this`view, this`group
      ensures Valid() && ok == !closed && HandlePool.Enters(old(view), view, q)
      ensures view.queries[q] == if ok then Running(handle.id) else Rejected(handle.id)
    {
      hide Inv;
      ghost var was := view;
      if closed {
        view := Moved(was, q, Rejected(handle.id));
        QueryInv(was, view, q);
        return false;
      }
      group := group + 1;
      view := Moved(was, q, Running(handle.id)).(group := was.group + 1);
      QueryInv(was, view, q);
      return true;
    }

    /** Run the query; the handle is open. */
    method Ask(ghost q: nat, handle: GraphHandle)
      requires Valid() && handle in handles && At(view, q, Running(handle.id))
      modifies this`view
      ensures Valid() && HandlePool.Answers(old(view), view, q) && !handle.closed
    {
      RunningIsOpen(view, q);
      ghost var was := view;
      view := Moved(was, q, Ran(handle.id));
      QueryInv(was, view, q);
    }

    /** Give the handle back: there is always room. */
    method ReturnHandle(ghost q: nat, handle: GraphHandle)
      requires Valid() && handle in handles && (At(view, q, Ran(handle.id)) || At(view, q, Rejected(handle.id)))
      modifies this`view, this`available
      ensures Valid() && GivesBack(old(view), view, q) && !view.panicked && |old(available)| < |handles|
      ensures available == old(available) + [handle]
    {
      RoomToGiveBack(view, q);
      hide Inv;
      ghost var was := view;
      available := available + [handle];
      view := Moved(was, q, if was.queries[q].Ran? then Returned else Finished).(available := was.available + [handle.id]);
      GivesBackInv(was, view, q);
    }

    method Leave(ghost q: nat)
      requires Valid() && At(view, q, Returned)
      modifies this`view, this`group
      ensures Valid() && HandlePool.Leaves(old(view), view, q)
    {
      InSets(view.queries, q);
      ghost var was := view;
      group := group - 1;
      view := Moved(was, q, Finished).(group := was.group - 1);
      QueryInv(was, view, q);
    }

    /** From now on no query enters. */
    method Shut()
      requires Valid() && view.closer == Idle
      modifies this`view, this`closed
      ensures Valid() && CloseBegins(old(view), view) && closed
    {
      hide Inv;
      ghost var was := view;
      closed := true;
      view := was.(closed := true, closer := Draining);
      CloseInv(was, view);
    }

    /** Once every query has left, close all handles. */
    method CloseHandles()
      requires Valid() && view.closer == Draining && group == 0
      modifies this`view, handles
      ensures Valid() && view.closer == Gone && forall h | h in handles :: h.closed
      ensures view == old(view).(closer := Gone, shut := view.shut)
    {
      ghost var was := view;
      view := was.(closer := Closing);
      CloseInv(was, view);
      for i := 0 to |handles|
        invariant Valid() && view == was.(closer := Closing, shut := view.shut) && |view.shut| == i
      {
        ghost var before := view;
        handles[i].closed := true;
        view := before.(shut := before.shut + [i]);
        assert ClosesHandle(before, view);
        CloseInv(before, view);
      }
      ghost var full := view;
      view := full.(closer := Gone);
      CloseInv(full, view);
    }
  }

  lemma RunningIsOpen(s: State, q: nat)
    requires Inv(s) && q in s.queries && s.queries[q].Running?
    ensures s.shut == []
  {
    InSets(s.queries, q);
  }

  lemma RoomToGiveBack(s: State, q: nat)
    requires Inv(s) && q in s.queries && s.queries[q].Holds()
    ensures |s.available| < s.size
  {
    InSets(s.queries, q);
  }
}
