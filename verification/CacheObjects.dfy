/** The objects behind the proof cache (cmd/pensiero/cache.go): one method for each critical section or announcement,
    taking a step that ProofCache allows, and the loading method itself, which runs among the steps of all others. */
module CacheObjects {
  import opened Options
  import opened LruCache
  import opened ProofCache

  class CallRef {
    ghost const id: nat
    var result: Option<Result>
    var done: bool

    constructor (ghost id: nat)
      ensures this.id == id && result == None && !done
    {
      this.id := id;
      result, done := None, false;
    }
  }

  /** The caller's function that gives up its generation, which counts its calls. */
  class Counter {
    var count: nat

    method Release()
      modifies this
      ensures count == old(count) + 1
    {
      count := count + 1;
    }
  }

  /** The caller's context: it outlasts a number of waits, and is never revived once cancelled. */
  class Context {
    var cancelled: bool
    var left: nat

    /** The time of one wait passes. */
    method Pass()
      modifies this
      ensures old(cancelled) ==> cancelled
      ensures left <= old(left) && (cancelled || left < old(left))
    {
      if left == 0 {
        cancelled := true;
      } else {
        left := left - 1;
      }
    }
  }

  /** Found in the cache, taken over from another request, or neither. */
  datatype Status = WasCached | WasShared | WasMissed

  // ------------------------------------------------------------------ runs of the protocol

  /** A step of some request other than the excepted one. */
  ghost predicate StepBut(s: State, s': State, except: Option<nat>) {
    exists t: nat :: StepOf(s, s', t) && except != Some(t)
  }

  /** Steps that lead from one state to another. */
  ghost predicate Path(path: seq<State>, s: State, s': State, except: Option<nat>) {
    && path != [] && path[0] == s && path[|path| - 1] == s'
    && forall i | 0 < i < |path| :: StepBut(path[i - 1], path[i], except)
  }

  ghost predicate Reaches(s: State, s': State) {
    exists path :: Path(path, s, s', None)
  }

  /** Without the request. */
  ghost predicate OthersReach(s: State, s': State, r: nat) {
    exists path :: Path(path, s, s', Some(r))
  }

  lemma NoSteps(s: State, r: nat)
    ensures Reaches(s, s) && OthersReach(s, s, r)
  {
    assert Path([s], s, s, None) && Path([s], s, s, Some(r));
  }

  lemma ReachesOn(s: State, mid: State, s': State)
    requires Reaches(s, mid) && Reaches(mid, s')
    ensures Reaches(s, s')
  {
    hide StepBut;
    var a :| Path(a, s, mid, None);
    var b :| Path(b, mid, s', None);
    var path := a + b[1..];
    forall i | 0 < i < |path| ensures StepBut(path[i - 1], path[i], None) {
      if i >= |a| {
        assert StepBut(b[i - |a|], b[i - |a| + 1], None);
      }
    }
    assert Path(path, s, s', None);
  }

  /** No step of another request touches this one. */
  lemma {:induction false} OthersLeaveAlone(path: seq<State>, s: State, s': State, r: nat)
    requires Path(path, s, s', Some(r)) && r in s.requests
    ensures r in s'.requests && s'.requests[r] == s.requests[r]
    decreases |path|
  {
    hide StepOf;
    if |path| > 1 {
      var mid := path[|path| - 2];
      OthersLeaveAlone(path[..|path| - 1], s, mid, r);
      assert StepBut(mid, s', Some(r));
      var t: nat :| t != r && StepOf(mid, s', t);
      OthersStay(mid, s', t);
    }
  }

  lemma RunsGoOn(s: State, r: nat)
    ensures forall a, b | StepOf(a, b, r) ::
              r in b.requests && Reaches(a, b) && (r in a.requests ==> a.requests[r].key == b.requests[r].key)
    ensures forall a, b | OthersReach(a, b, r) :: Reaches(a, b)
    ensures forall a, b | Reaches(s, a) && Reaches(a, b) :: Reaches(s, b)
    ensures forall a, b | OthersReach(a, b, r) && r in a.requests :: r in b.requests && b.requests[r] == a.requests[r]
  {
    hide StepOf, Reaches;
    forall a, b | StepOf(a, b, r)
      ensures r in b.requests && Reaches(a, b) && (r in a.requests ==> a.requests[r].key == b.requests[r].key)
    {
      OneStep(a, b, r);
      OthersStay(a, b, r);
    }
    forall a, b | OthersReach(a, b, r) ensures Reaches(a, b) {
      OthersAreSome(a, b, r);
    }
    forall a, b | Reaches(s, a) && Reaches(a, b) ensures Reaches(s, b) {
      ReachesOn(s, a, b);
    }
    forall a, b | OthersReach(a, b, r) && r in a.requests ensures r in b.requests && b.requests[r] == a.requests[r] {
      var path :| Path(path, a, b, Some(r));
      OthersLeaveAlone(path, a, b, r);
    }
  }

  lemma OneStep(a: State, b: State, r: nat)
    requires StepOf(a, b, r)
    ensures Reaches(a, b)
  {
    hide StepOf;
    assert StepBut(a, b, None);
    assert Path([a, b], a, b, None);
  }

  lemma OthersAreSome(a: State, b: State, r: nat)
    requires OthersReach(a, b, r)
    ensures Reaches(a, b)
  {
    hide StepOf;
    var path :| Path(path, a, b, Some(r));
    forall i | 0 < i < |path| ensures StepBut(path[i - 1], path[i], None) {
      assert StepBut(path[i - 1], path[i], Some(r));
    }
    assert Path(path, a, b, None);
  }

  // ------------------------------------------------------------------ the loader

  /** What a request learns under the lock. */
  datatype Looked = Hit(value: Answer) | Join(call: CallRef) | Abort | Start(call: CallRef)

  /** The table of calls in flight has the calls that the abstract state says. */
  ghost predicate Table(calls: map<string, CallRef>, known: seq<CallRef>, inFlight: map<string, nat>) {
    && (forall k :: k in calls <==> k in inFlight)
    && (forall k | k in calls :: inFlight[k] < |known| && calls[k] == known[inFlight[k]])
  }

  lemma TableWithout(calls: map<string, CallRef>, known: seq<CallRef>, inFlight: map<string, nat>, key: string)
    requires Table(calls, known, inFlight)
    ensures Table(calls - {key}, known, inFlight - {key})
  {}

  lemma TableWith(calls: map<string, CallRef>, known: seq<CallRef>, inFlight: map<string, nat>, key: string, call: CallRef)
    requires Table(calls, known, inFlight)
    ensures Table(calls[key := call], known + [call], inFlight[key := |known|])
  {}

  lemma TableEntry(calls: map<string, CallRef>, known: seq<CallRef>, inFlight: map<string, nat>, key: string)
    requires Table(calls, known, inFlight)
    ensures key in calls <==> key in inFlight
    ensures key in calls ==> inFlight[key] < |known| && calls[key] == known[inFlight[key]]
  {}

  class Loader {
    const cache: Cache
    var calls: map<string, CallRef>
    // All calls ever made, and the abstract state, which also says where each request is.
    ghost var known: seq<CallRef>
    ghost var view: State

    ghost predicate CallsMatch()
      reads this, known
    {
      && |known| == |view.calls|
      && (forall i | 0 <= i < |known| ::
            known[i].id == i && known[i].result == view.calls[i].result && known[i].done == view.calls[i].done)
    }

    ghost predicate IsKnown(call: CallRef)
      reads this
    {
      call.id < |known| && known[call.id] == call
    }

    /** All calls are kept, and those that came are new. */
    twostate predicate Grown()
      reads this
    {
      old(known) <= known && forall i | |old(known)| <= i < |known| :: fresh(known[i])
    }

    /** The call is new, and the request's own. */
    twostate predicate Started(r: nat, new call: CallRef)
      reads this
    {
      fresh(call) && known == old(known) + [call] && call.id == |old(known)| && At(view, r, Computing(call.id))
    }

    ghost predicate Valid()
      reads this, cache, known
    {
      && CallsMatch() && Table(calls, known, view.inFlight) && Inv(view)
      && cache.Valid() && cache.lru == view.lru && cache.lim == view.lim
    }

    constructor (lim: Limits)
      ensures Valid() && Init(view) && fresh(cache)
    {
      cache := new Cache(lim);
      calls := map[];
      known, view := [], State(lim, map[], [], map[], [], {});
      new;
      InitInv(view);
    }

    /** Under the lock: take the answer from the cache, join a call in flight, give up, or start a call. */
    method Look(ghost r: nat, key: string, cancelled: bool) returns (looked: Looked)
      requires Valid() && At(view, r, AtLock) && view.requests[r].key == key
      modifies this, cache
      ensures Valid() && StepOf(old(view), view, r)
      ensures match looked
              case Hit(v) => Hits(old(view), view, r) && At(view, r, Leaving(Answered(v)))
              case Join(call) => Joins(old(view), view, r) && IsKnown(call) && At(view, r, WaitingOn(call.id))
              case Abort => cancelled && Aborts(old(view), view, r) && At(view, r, Leaving(Error))
              case Start(call) => !cancelled && Starts(old(view), view, r) && Started(r, call)
      ensures !looked.Start? ==> known == old(known)
    {
      hide Inv, Without, Agree, DistinctKeys, InOrder, Sum, Fits, Starts, Cached, Table;
      TableEntry(calls, known, view.inFlight, key);
      ghost var was := view;
      CachedIsListed(cache.lru, cache.entries, key);
      ghost var entry := if key in cache.entries then Some(cache.entries[key]) else None;
      var found := cache.Lookup(key);
      if found.Some? {
        view := Moved(was, r, Leaving(Answered(found.value))).(lru := cache.lru);
        assert Hits(was, view, r) by {
          assert entry.value in was.lru;
        }
        HitsInv(was, view, r);
        return Hit(found.value);
      }
      if key in calls {
        view := Moved(was, r, WaitingOn(was.inFlight[key]));
        OthersInv(was, view, r);
        return Join(calls[key]);
      }
      if cancelled {
        view := Moved(was, r, Leaving(Error));
        OthersInv(was, view, r);
        return Abort;
      }
      var call := StartCall(r, key);
      return Start(call);
    }

    /** Nobody computes for the key, so the request does. */
    method StartCall(ghost r: nat, key: string) returns (call: CallRef)
      requires Valid() && At(view, r, AtLock) && view.requests[r].key == key
      requires !Cached(view.lru, key) && key !in calls
      modifies this`calls, this`known, this`view
      ensures Valid() && StepOf(old(view), view, r) && Starts(old(view), view, r) && Started(r, call)
    {
      hide Inv, Cached, Agree, DistinctKeys, InOrder, Sum, Fits, Table;
      TableEntry(calls, known, view.inFlight, key);
      ghost var was := view;
      call := new CallRef(|known|);
      TableWith(calls, known, view.inFlight, key, call);
      calls := calls[key := call];
      known := known + [call];
      view := Moved(was, r, Computing(|was.calls|)).(calls := was.calls + [Call(key, r, None, false)],
                                                    inFlight := was.inFlight[key := |was.calls|]);
      StartsInv(was, view, r);
    }

    /** Put a computed answer into the cache. */
    method Store(ghost r: nat, key: string, value: Answer, size: nat)
      requires Valid() && r in view.requests && view.requests[r].key == key
      requires view.requests[r].phase.Computed? && view.requests[r].phase.result == Answered(value)
      modifies this`view, cache
      ensures At(view, r, Finishing(old(view).requests[r].phase.call, Answered(value)))
      ensures Valid() && StepOf(old(view), view, r) && Stores(old(view), view, r) && cache.lru == Inserted(old(cache.lru), Entry(key, value, size), cache.lim)
    {
      hide Inv, Inserted, Agree, DistinctKeys, InOrder, Sum, Fits;
      ghost var was := view;
      cache.Insert(key, value, size);
      view := Moved(was, r, Finishing(was.requests[r].phase.call, Answered(value))).(lru := cache.lru);
      assert view == Moved(was, r, Finishing(was.requests[r].phase.call, Answered(value))).(
                       lru := Inserted(was.lru, Entry(was.requests[r].key, value, size), was.lim));
      StoresInv(was, view, r);
    }

    /** Under the lock: leave the result with the call and take the call out of flight. */
    method FinishCall(ghost r: nat, key: string, call: CallRef, result: Result)
      requires Valid() && r in view.requests && view.requests[r].key == key && IsKnown(call)
      requires view.requests[r].phase == Finishing(call.id, result)
      modifies this`calls, this`view, call`result
      ensures Valid() && StepOf(old(view), view, r) && Finishes(old(view), view, r) && At(view, r, Announcing(call.id, result))
      ensures call.result == Some(result) && key !in calls
    {
      hide Inv, Agree, DistinctKeys, InOrder, Sum, Fits, Table;
      OwnCall(view, r);
      TableWithout(calls, known, view.inFlight, key);
      ghost var was := view;
      call.result := Some(result);
      calls := calls - {key};
      view := Moved(was, r, Announcing(call.id, result)).(calls := was.calls[call.id := was.calls[call.id].(result := Some(result))],
                                                         inFlight := was.inFlight - {key});
      FinishesInv(was, view, r);
    }

    /** Wake everyone who waits for the call. */
    method Announce(ghost r: nat, call: CallRef)
      requires Valid() && r in view.requests && IsKnown(call)
      requires view.requests[r].phase.Announcing? && view.requests[r].phase.call == call.id
      modifies this`view, call`done
      ensures Valid() && StepOf(old(view), view, r) && Announces(old(view), view, r) && call.done
      ensures At(view, r, Leaving(old(view).requests[r].phase.result))
    {
      hide Inv, Agree, DistinctKeys, InOrder, Sum, Fits;
      ghost var was := view;
      call.done := true;
      view := Moved(was, r, Leaving(was.requests[r].phase.result)).(calls := was.calls[call.id := was.calls[call.id].(done := true)]);
      AnnouncesInv(was, view, r);
    }

    /** A waiting request takes over an answer; after a failure it leaves if cancelled, and else goes to the lock again. */
    method Wake(ghost r: nat, call: CallRef, cancelled: bool) returns (result: Result)
      requires Valid() && IsKnown(call) && At(view, r, WaitingOn(call.id)) && call.done
      modifies this`view
      ensures Valid() && StepOf(old(view), view, r) && Wakes(old(view), view, r) && call.result == Some(result)
      ensures At(view, r, if result.Error? && !cancelled then AtLock else Leaving(result))
    {
      hide Inv, Agree, DistinctKeys, InOrder, Sum, Fits, Table, Cached;
      ghost var was := view;
      DoneHasResult(view, call.id);
      result := call.result.value;
      view := Moved(was, r, if result.Error? && !cancelled then AtLock else Leaving(result));
      WakesInv(was, view, r);
    }

    /** A waiting request is cancelled. */
    method Cancel(ghost r: nat)
      requires Valid() && r in view.requests && view.requests[r].phase.WaitingOn?
      modifies this`view
      ensures Valid() && StepOf(old(view), view, r) && Cancels(old(view), view, r) && At(view, r, Leaving(Error))
    {
      hide Inv, Agree, DistinctKeys, InOrder, Sum, Fits, Table, Cached;
      ghost var was := view;
      view := Moved(was, r, Leaving(Error));
      OthersInv(was, view, r);
    }

    /** The computation is over; a successful one has produced an answer for the key, which a cancelled request drops. */
    method EndCompute(ghost r: nat, ghost call: nat, computed: Result, cancelled: bool) returns (result: Result)
      requires Valid() && At(view, r, Computing(call))
      modifies this`view
      ensures result == if cancelled then Error else computed
      ensures Valid() && StepOf(old(view), view, r) && Computes(old(view), view, r) && At(view, r, Computed(call, result))
    {
      hide Inv, Agree, DistinctKeys, InOrder, Sum, Fits, Table, Cached;
      ghost var was := view;
      result := if cancelled then Error else computed;
      view := Moved(was, r, Computed(call, result));
      if result.Answered? {
        view := view.(log := was.log + {(was.requests[r].key, result.value)});
      }
      ComputesInv(was, view, r);
    }

    /** An error is not put into the cache. */
    method StoreNothing(ghost r: nat, ghost call: nat)
      requires Valid() && At(view, r, Computed(call, Error))
      modifies this`view
      ensures Valid() && StepOf(old(view), view, r) && Stores(old(view), view, r) && At(view, r, Finishing(call, Error))
    {
      hide Inv, Agree, DistinctKeys, InOrder, Sum, Fits, Table, Cached;
      ghost var was := view;
      view := Moved(was, r, Finishing(call, Error));
      StoresInv(was, view, r);
    }

    /** The lock is free: the other requests may take any steps, and the context may be cancelled. Callers rely on the
        contract alone; in the body only the caller cancels. */
    method LetOthers(ghost r: nat, ctx: Context)
      requires Valid()
      modifies this, cache, known, ctx
      ensures Valid() && OthersReach(old(view), view, r)
      ensures Grown()
      ensures (old(ctx.cancelled) ==> ctx.cancelled) && ctx.left <= old(ctx.left)
    {
      NoSteps(view, r);
      var cancels: bool := *;
      if cancels {
        ctx.cancelled := true;
      }
    }

    /** Wait until the call is announced or the context is cancelled; if both have happened, either may be noticed. */
    method WaitFor(ghost r: nat, call: CallRef, ctx: Context) returns (noticed: bool)
      requires Valid() && IsKnown(call)
      modifies this, cache, known, ctx
      ensures Valid() && OthersReach(old(view), view, r)
      ensures Grown()
      ensures if noticed then call.done else ctx.cancelled
      ensures (old(ctx.cancelled) ==> ctx.cancelled) && (ctx.cancelled || ctx.left < old(ctx.left))
    {
      LetOthers(r, ctx);
      ctx.Pass();
      var either: bool := *;
      noticed := call.done && (!ctx.cancelled || either);
      if !noticed {
        ctx.cancelled := true;
      }
    }

    /** Give up the generation, with the lock free; what the request leaves with was found or computed for its key. */
    method GiveUp(ghost r: nat, release: Counter, ctx: Context, ghost result: Result)
      requires Valid() && At(view, r, Leaving(result))
      modifies this, cache, known, release, ctx
      ensures Valid() && Reaches(old(view), view) && At(view, r, Ended(result))
      ensures view.requests[r].key == old(view).requests[r].key && view.requests[r].releases == 1
      ensures Genuine(view.log, view.requests[r].key, result)
      ensures release.count == old(release.count) + 1 && (old(ctx.cancelled) ==> ctx.cancelled)
    {
      hide Inv, StepOf, OthersReach, Reaches, Table, Agree, DistinctKeys, InOrder, Sum, Fits, Releases;
      ghost var was := view;
      NoSteps(view, r);
      RunsGoOn(was, r);
      LetOthers(r, ctx);
      release.Release();
      GivenUp(r, result);
    }

    /** The abstract state follows. */
    ghost method GivenUp(r: nat, result: Result)
      requires Valid() && At(view, r, Leaving(result))
      modifies this`view
      ensures Valid() && StepOf(old(view), view, r) && Releases(old(view), view, r) && At(view, r, Ended(result))
      ensures view.requests[r].releases == 1 && Genuine(view.log, view.requests[r].key, result)
    {
      hide Inv, Agree, DistinctKeys, InOrder, Sum, Fits, Table, Cached;
      var was := view;
      view := was.(requests := was.requests[r := Request(was.requests[r].key, Ended(result), was.requests[r].releases + 1)]);
      ReleasesInv(was, view, r);
      EndedIsReleased(view, r);
    }

    /** Wait for the lock, and look. */
    method LockAndLook(ghost r: nat, key: string, ctx: Context) returns (looked: Looked)
      requires Valid() && At(view, r, AtLock) && view.requests[r].key == key
      modifies this, cache, known, ctx
      ensures Valid() && Reaches(old(view), view) && r in view.requests && view.requests[r].key == key
      ensures Grown() && (old(ctx.cancelled) ==> ctx.cancelled) && ctx.left <= old(ctx.left)
      ensures match looked
              case Hit(v) => view.requests[r].phase == Leaving(Answered(v))
              case Join(call) => IsKnown(call) && view.requests[r].phase == WaitingOn(call.id)
              case Abort => ctx.cancelled && view.requests[r].phase == Leaving(Error)
              case Start(call) => IsKnown(call) && view.requests[r].phase == Computing(call.id)
    {
      hide Inv, StepOf, OthersReach, Reaches, CallsMatch, Table, Agree, DistinctKeys, InOrder, Sum, Fits, Hits, Joins, Aborts, Starts,
           Wakes, Cancels, Computes, Stores, Finishes, Announces, Releases, Inserted;
      ghost var was := view;
      NoSteps(view, r);
      RunsGoOn(was, r);
      LetOthers(r, ctx);
      looked := Look(r, key, ctx.cancelled);
    }

    /** Load the answer for the key, or compute it, at most one request at a time. Whichever way the method ends, after
        however many retries and whatever the others do meanwhile, the generation has been given up exactly once. */
    method LoadOrCompute(ghost r: nat, key: string, release: Counter, ctx: Context, computed: Result, size: nat)
      returns (result: Result, status: Status)
      requires Valid() && At(view, r, AtLock) && view.requests[r].key == key
      modifies this, cache, known, release, ctx
      ensures Valid() && Reaches(old(view), view)
      ensures release.count == old(release.count) + 1
      ensures At(view, r, Ended(result)) && view.requests[r].key == key && view.requests[r].releases == 1
      ensures result.Answered? ==> (key, result.value) in view.log
      ensures status.WasMissed? ==> result == computed || result.Error?
      ensures status.WasCached? ==> result.Answered?
      ensures result.Error? ==> ctx.cancelled || (status.WasMissed? && computed.Error?)
    {
      hide Inv, StepOf, OthersReach, Reaches, CallsMatch, Table, Agree, DistinctKeys, InOrder, Sum, Fits, Hits, Joins, Aborts, Starts,
           Wakes, Cancels, Computes, Stores, Finishes, Announces, Releases, Inserted;
      ghost var was := view;
      NoSteps(view, r);
      RunsGoOn(was, r);
      while true
        invariant Valid() && Reaches(was, view) && At(view, r, AtLock) && view.requests[r].key == key
        invariant Grown()
        invariant release.count == old(release.count)
        decreases !ctx.cancelled, ctx.left
      {
        var looked := LockAndLook(r, key, ctx);
        match looked {
          case Hit(v) =>
            GiveUp(r, release, ctx, Answered(v));
            return Answered(v), WasCached;
          case Join(call) =>
            var noticed := WaitFor(r, call, ctx);
            if !noticed {
              Cancel(r);
              GiveUp(r, release, ctx, Error);
              return Error, WasShared;
            }
            var shared := Wake(r, call, ctx.cancelled);
            if shared.Error? && !ctx.cancelled {
              continue;
            }
            GiveUp(r, release, ctx, shared);
            return shared, WasShared;
          case Abort =>
            GiveUp(r, release, ctx, Error);
            return Error, WasMissed;
          case Start(call) =>
            result := ComputeAndFinish(r, key, call, ctx, computed, size);
            GiveUp(r, release, ctx, result);
            return result, WasMissed;
        }
      }
    }

    /** The part of the one request that nobody is ahead of. */
    method ComputeAndFinish(ghost r: nat, key: string, call: CallRef, ctx: Context, computed: Result, size: nat) returns (result: Result)
      requires Valid() && IsKnown(call) && At(view, r, Computing(call.id)) && view.requests[r].key == key
      modifies this, cache, known, ctx
      ensures Valid() && Reaches(old(view), view) && At(view, r, Leaving(result)) && view.requests[r].key == key
      ensures Grown() && (old(ctx.cancelled) ==> ctx.cancelled)
      ensures result == computed || (result.Error? && ctx.cancelled)
    {
      hide Inv, StepOf, OthersReach, Reaches, CallsMatch, Table, Agree, DistinctKeys, InOrder, Sum, Fits, Hits, Joins, Aborts, Starts,
           Wakes, Cancels, Computes, Stores, Finishes, Announces, Releases, Inserted;
      ghost var was := view;
      result := ComputeAndStore(r, key, call.id, ctx, computed, size);
      FinishAndAnnounce(r, key, call, ctx, result);
      RunsGoOn(was, r);
    }

    /** Panics and cancellation count as errors, which are not stored. */
    method ComputeAndStore(ghost r: nat, key: string, ghost call: nat, ctx: Context, computed: Result, size: nat) returns (result: Result)
      requires Valid() && At(view, r, Computing(call)) && view.requests[r].key == key
      modifies this, cache, known, ctx
      ensures Valid() && Reaches(old(view), view) && At(view, r, Finishing(call, result)) && view.requests[r].key == key
      ensures Grown() && (old(ctx.cancelled) ==> ctx.cancelled)
      ensures result == computed || (result.Error? && ctx.cancelled)
    {
      hide Inv, StepOf, OthersReach, Reaches, CallsMatch, Table, Agree, DistinctKeys, InOrder, Sum, Fits, Hits, Joins, Aborts, Starts,
           Wakes, Cancels, Computes, Stores, Finishes, Announces, Releases, Inserted;
      ghost var was := view;
      NoSteps(view, r);
      RunsGoOn(was, r);
      LetOthers(r, ctx);
      result := EndCompute(r, call, computed, ctx.cancelled);
      LetOthers(r, ctx);
      if result.Answered? {
        Store(r, key, result.value, size);
      } else {
        StoreNothing(r, call);
      }
    }

    /** Leave the result with the call, take it out of flight and wake those who wait. */
    method FinishAndAnnounce(ghost r: nat, key: string, call: CallRef, ctx: Context, result: Result)
      requires Valid() && IsKnown(call) && At(view, r, Finishing(call.id, result)) && view.requests[r].key == key
      modifies this, cache, known, ctx
      ensures Valid() && Reaches(old(view), view) && At(view, r, Leaving(result)) && view.requests[r].key == key
      ensures Grown() && (old(ctx.cancelled) ==> ctx.cancelled)
    {
      hide Inv, StepOf, OthersReach, Reaches, CallsMatch, Table, Agree, DistinctKeys, InOrder, Sum, Fits, Hits, Joins, Aborts, Starts,
           Wakes, Cancels, Computes, Stores, Finishes, Announces, Releases, Inserted;
      ghost var was := view;
      NoSteps(view, r);
      RunsGoOn(was, r);
      LetOthers(r, ctx);
      FinishCall(r, key, call, result);
      LetOthers(r, ctx);
      Announce(r, call);
    }
  }

  lemma CachedIsListed(lru: seq<Entry>, entries: map<string, Entry>, key: string)
    requires Agree(lru, entries)
    ensures Cached(lru, key) <==> key in entries
    ensures key in entries ==> entries[key] in lru && entries[key].key == key
  {}

  lemma EndedIsReleased(s: State, r: nat)
    requires Inv(s) && r in s.requests && s.requests[r].phase.Ended?
    ensures s.requests[r].releases == 1 && Genuine(s.log, s.requests[r].key, s.requests[r].phase.result)
  {}

  lemma DoneHasResult(s: State, c: nat)
    requires Inv(s) && c < |s.calls| && s.calls[c].done
    ensures s.calls[c].result.Some?
  {}

  lemma OwnCall(s: State, r: nat)
    requires Inv(s) && r in s.requests && s.requests[r].phase.Finishing?
    ensures s.requests[r].key in s.inFlight && s.inFlight[s.requests[r].key] == s.requests[r].phase.call < |s.calls|
    ensures forall k | k in s.inFlight && k != s.requests[r].key :: s.inFlight[k] != s.requests[r].phase.call
  {}
}
