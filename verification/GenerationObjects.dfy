/** The objects behind the generation store: each method is one critical section of the lock, and takes a step that
    GenerationStore allows (cmd/pensiero/generation.go). */
module GenerationObjects {
  import opened Options
  import opened GenerationStore

  class GenerationRef {
    ghost const id: nat
    var refs: nat
    var closes: nat

    constructor (ghost id: nat)
      ensures this.id == id && refs == 1 && closes == 0
    {
      this.id := id;
      refs, closes := 1, 0;
    }
  }

  class Store {
    var current: GenerationRef?
    var rollback: seq<GenerationRef>
    var closed: bool
    // All references ever made, and the abstract state, which also says who holds what.
    ghost var known: seq<GenerationRef>
    ghost var view: State

    /** The objects are in the abstract state. */
    ghost predicate Matches()
      reads this, known
    {
      && |known| == |view.refs| == |view.closes|
      && (forall i | 0 <= i < |known| :: known[i].id == i && known[i].refs == view.refs[i] && known[i].closes == view.closes[i])
      && (current == null <==> view.current.None?)
      && (current != null ==> current in known && view.current == Some(current.id))
      && |rollback| == |view.rollback|
      && (forall i | 0 <= i < |rollback| :: rollback[i] in known && rollback[i].id == view.rollback[i])
      && closed == view.closed
    }

    ghost predicate Valid()
      reads this, known
    {
      Matches() && Inv(view)
    }

    constructor ()
      ensures Valid() && Init(view) && current == null
    {
      current, rollback, closed := null, [], false;
      known, view := [], State([], [], None, [], false, map[], 0, multiset{}, multiset{}, {});
      new;
      InitInv(view);
    }

    /** A reader takes a handle. */
    method Acquire() returns (ref: GenerationRef?)
      requires Valid()
      modifies this, known
      ensures Valid() && known == old(known)
      ensures ref == null <==> old(closed) || old(current) == null
      ensures if ref == null then view == old(view) else ref == old(current) && Acquired(old(view), view)
    {
      hide Inv;
      if closed || current == null {
        return null;
      }
      ref := current;
      ref.refs := ref.refs + 1;
      ghost var was := view;
      view := was.(refs := was.refs[ref.id := was.refs[ref.id] + 1], live := was.live[was.issued := ref.id], issued := was.issued + 1);
      AcquiredInv(was, view);
    }

    /** A reader's release function is called: the first call has the reference released, others do nothing. */
    ghost method GiveUp(h: nat)
      requires Valid()
      modifies this
      ensures Valid() && known == old(known)
      ensures if h in old(view).live then GivenUp(old(view), view, h) else view == old(view)
    {
      hide Inv;
      if h in view.live {
        ghost var was := view;
        view := was.(live := was.live - {h}, pending := was.pending + multiset{was.live[h]});
        GivenUpInv(was, view, h);
      }
    }

    /** A release runs; it says whether it is for the caller to close the generation. */
    method Release(ref: GenerationRef) returns (shouldClose: bool)
      requires Valid() && ref in known && ref.id in view.pending
      modifies this`view, ref`refs
      ensures Valid()
      ensures Released(old(view), view, ref.id) && shouldClose == (old(ref.refs) == 1)
    {
      hide Inv;
      ghost var was, r := view, ref.id;
      view := was.(pending := was.pending - multiset{r});
      if ref.refs == 0 {
        ReleasedInv(was, view, r);
        return false;
      }
      ref.refs := ref.refs - 1;
      shouldClose := ref.refs == 0;
      view := view.(refs := was.refs[r := was.refs[r] - 1],
                    toClose := was.toClose + if was.refs[r] == 1 then multiset{r} else multiset{});
      ReleasedInv(was, view, r);
    }

    method ClosePool(ref: GenerationRef)
      requires Valid() && ref in known && ref.id in view.toClose
      modifies this`view, ref`closes
      ensures Valid() && ref.closes == old(ref.closes) + 1 && PoolClosed(old(view), view, ref.id)
      ensures view.toClose == old(view).toClose - multiset{ref.id} && view.pending == old(view).pending && view.live == old(view).live
    {
      hide Inv;
      ghost var was, r := view, ref.id;
      ref.closes := ref.closes + 1;
      view := was.(toClose := was.toClose - multiset{r}, closes := was.closes[r := was.closes[r] + 1]);
      PoolClosedInv(was, view, r);
    }

    /** Put the current generation in front of those kept for rollback, and drop the last if there are too many. */
    method KeepForRollback() returns (evicted: GenerationRef?)
      requires Matches() && current != null && view.current.Some? && |rollback| <= ROLLBACK_SLOTS
      modifies this`rollback, this`view
      ensures Matches() && rollback == [current]
      ensures view == old(view).(rollback := Trimmed([old(view).current.value] + old(view).rollback),
                                 pending := old(view).pending + Evicted([old(view).current.value] + old(view).rollback))
      ensures evicted != null ==> evicted in known && evicted.id in view.pending
      ensures view.pending == if evicted == null then old(view).pending else old(view).pending + multiset{evicted.id}
    {
      ghost var queue := [view.current.value] + view.rollback;
      rollback, evicted := [current] + rollback, null;
      if |rollback| > ROLLBACK_SLOTS {
        evicted := rollback[|rollback| - 1];
        rollback := rollback[..ROLLBACK_SLOTS];
      }
      view := view.(rollback := Trimmed(queue), pending := view.pending + Evicted(queue));
    }

    /** A new generation becomes current, if the store is open; otherwise it is for the caller to close it. */
    method Install() returns (next: GenerationRef, evicted: GenerationRef?)
      requires Valid()
      modifies this
      ensures Valid() && fresh(next) && next.refs == 1 && next.closes == 0 && known == old(known) + [next] && Swapped(old(view), view)
      ensures closed == old(closed) && (if closed then next.id in view.toClose else current == next)
      ensures evicted != null ==> !closed && evicted in old(known) && evicted.id in view.pending
      ensures view.pending == if evicted == null then old(view).pending else old(view).pending + multiset{evicted.id}
      ensures view.live == old(view).live
      ensures view.toClose == if closed then old(view).toClose + multiset{next.id} else old(view).toClose
      ensures if closed then current == old(current) else old(current) != null ==> rollback == [old(current)]
    {
      hide Inv, Trimmed, Evicted;
      ghost var was := view;
      FewKept(was);
      next := new GenerationRef(|known|);
      evicted := null;
      if closed {
        view := was.(toClose := was.toClose + multiset{|was.refs|}, rejected := was.rejected + {|was.refs|});
      } else {
        if current != null {
          evicted := KeepForRollback();
        }
        current := next;
        view := view.(current := Some(|was.refs|));
      }
      known := known + [next];
      view := view.(refs := was.refs + [1], closes := was.closes + [0]);
      SwappedInv(was, view);
    }

    /** The current generation and the one before change places. */
    method Rollback() returns (ok: bool)
      requires Valid()
      modifies this
      ensures Valid() && known == old(known)
      ensures ok <==> !old(closed) && old(current) != null && old(rollback) != []
      ensures if ok then RolledBack(old(view), view) && current == old(rollback)[0] else view == old(view)
    {
      hide Inv;
      if closed || current == null || rollback == [] {
        return false;
      }
      ghost var was := view;
      var previous := rollback[0];
      rollback := rollback[0 := current];
      current := previous;
      view := was.(current := Some(was.rollback[0]), rollback := was.rollback[0 := was.current.value]);
      RolledBackInv(was, view);
      return true;
    }

    /** Let go of everything retained; it is for the caller to release it. */
    method LetGo() returns (refs: seq<GenerationRef>)
      requires Valid()
      modifies this
      ensures Valid() && known == old(known) && closed
      ensures if old(closed) then refs == [] && view == old(view) else StoreClosed(old(view), view)
      ensures !old(closed) ==> refs == (if old(current) == null then [] else [old(current)]) + old(rollback)
      ensures (forall r | r in refs :: r in known) && view.pending == old(view).pending + multiset(Ids(refs))
      ensures view.live == old(view).live && view.toClose == old(view).toClose
    {
      hide Inv;
      if closed {
        return [];
      }
      ghost var was := view;
      refs := (if current == null then [] else [current]) + rollback;
      assert Ids(refs) == (if was.current.Some? then [was.current.value] else []) + was.rollback;
      closed, current, rollback := true, null, [];
      view := was.(closed := true, current := None, rollback := [],
                   pending := was.pending + (if was.current.Some? then multiset{was.current.value} else multiset{}) + multiset(was.rollback));
      StoreClosedInv(was, view);
    }

    /** Release a reference and close the generation if that was the last. */
    method Drop(ref: GenerationRef)
      requires Valid() && ref in known && ref.id in view.pending
      modifies this`view, ref
      ensures Valid()
      ensures view.pending == old(view).pending - multiset{ref.id} && view.live == old(view).live
      ensures view.toClose == old(view).toClose
      ensures ref.refs == old(ref.refs) - 1 && ref.closes == old(ref.closes) + if old(ref.refs) == 1 then 1 else 0
    {
      hide Inv;
      NeverBelowZero(view, ref.id);
      ghost var was := view;
      var shouldClose := Release(ref);
      if shouldClose {
        ghost var mid := view;
        ClosePool(ref);
        assert mid.toClose == was.toClose + multiset{ref.id} && view.toClose == mid.toClose - multiset{ref.id};
      }
    }

    /** Make a new generation current; says whether the store took it. */
    method Swap() returns (ok: bool, next: GenerationRef)
      requires Valid()
      modifies this, known
      ensures Valid() && closed == old(closed) && ok == !closed && fresh(next) && known == old(known) + [next]
      ensures view.pending == old(view).pending && view.toClose == old(view).toClose && view.live == old(view).live
      ensures ok ==> current == next && next.refs == 1 && (old(current) != null ==> rollback == [old(current)])
      ensures !ok ==> current == old(current) && next.closes == 1
    {
      hide Inv, Matches, Swapped, Released, PoolClosed;
      var evicted;
      next, evicted := Install();
      ok := !closed;
      ghost var mid := view;
      if closed {
        ClosePool(next);
        AddedAndTaken(old(view).toClose, next.id);
      } else if evicted != null {
        Drop(evicted);
        AddedAndTaken(old(view).pending, evicted.id);
      }
    }

    lemma AllClosed()
      requires Valid() && closed && Quiet(view)
      ensures forall r | r in known :: r.closes == 1
    {
      forall r | r in known ensures r.closes == 1 {
        QuietIsClosed(view, r.id);
      }
    }

    /** Close the store: what it retained is released, and so closed unless readers still hold it. */
    method Close()
      requires Valid()
      modifies this, known
      ensures Valid() && known == old(known) && closed
      ensures view.pending == old(view).pending && view.toClose == old(view).toClose && view.live == old(view).live
      ensures old(Quiet(view)) ==> forall r | r in known :: r.closes == 1
    {
      hide Inv, Matches, StoreClosed, Ids;
      ghost var was := view;
      var refs := LetGo();
      assert refs[0..] == refs;
      for i := 0 to |refs|
        invariant Valid() && known == old(known) && closed && forall r | r in refs :: r in known
        invariant view.pending == was.pending + multiset(Ids(refs[i..]))
        invariant view.toClose == was.toClose && view.live == was.live
      {
        IdsFrom(refs, i, was.pending);
        Drop(refs[i]);
      }
      NoIds(refs);
      if Quiet(was) {
        AllClosed();
      }
    }
  }

  ghost function Ids(refs: seq<GenerationRef>): seq<nat> {
    seq(|refs|, i requires 0 <= i < |refs| => refs[i].id)
  }

  lemma NoIds(refs: seq<GenerationRef>)
    ensures Ids(refs[|refs|..]) == []
  {}

  lemma IdsFrom(refs: seq<GenerationRef>, i: nat, base: multiset<nat>)
    requires i < |refs|
    ensures refs[i] in refs && refs[i].id in base + multiset(Ids(refs[i..]))
    ensures base + multiset(Ids(refs[i..])) - multiset{refs[i].id} == base + multiset(Ids(refs[i + 1..]))
  {
    assert Ids(refs[i..]) == [refs[i].id] + Ids(refs[i + 1..]);
  }

  lemma FewKept(s: State)
    requires Inv(s)
    ensures |s.rollback| <= ROLLBACK_SLOTS && (s.closed ==> s.current.None? && s.rollback == [])
  {}

  lemma AddedAndTaken(m: multiset<nat>, r: nat)
    ensures (m + multiset{r}) - multiset{r} == m
  {}

  lemma QuietIsClosed(s: State, r: nat)
    requires Inv(s) && s.closed && Quiet(s) && r < |s.closes|
    ensures s.closes[r] == 1
  {
    assert Counted(s, r);
    assert HandlesOn(s.live, r) == {};
  }
}
