/** Why nobody waits for ever at the proof cache (cmd/pensiero/cache.go): a call needs four steps of its owner, whatever
    the others do meanwhile, and once no more requests arrive, every interleaving is short and leaves all ended. */
module CacheProgress {
  import opened Options
  import opened LruCache
  import opened ProofCache
  import opened Sets

  // ------------------------------------------------------------------ one call

  /** The steps that the owner has yet to take until it has announced its call. */
  function OwnerRank(p: Phase): nat {
    match p
    case Computing(_) => 4
    case Computed(_, _) => 3
    case Finishing(_, _) => 2
    case Announcing(_, _) => 1
    case _ => 0
  }

  /** The same for a call, with nothing left once it is announced. */
  function CallRank(s: State, c: nat): nat
    requires c < |s.calls|
  {
    if s.calls[c].done || s.calls[c].owner !in s.requests then 0 else OwnerRank(s.requests[s.calls[c].owner].phase)
  }

  lemma DoneIfRankZero(s: State, c: nat)
    requires Inv(s) && c < |s.calls|
    ensures CallRank(s, c) == 0 <==> s.calls[c].done
  {}

  /** A call keeps its owner, and only its owner can announce it. */
  lemma CallStays(s: State, s': State, t: nat, c: nat)
    requires Inv(s) && StepOf(s, s', t) && c < |s.calls|
    ensures c < |s'.calls| && s'.calls[c].owner == s.calls[c].owner && s'.calls[c].key == s.calls[c].key
    ensures s'.calls[c].done <==>
              s.calls[c].done || (t in s.requests && s.requests[t].phase.Announcing? && s.requests[t].phase.call == c)
    ensures t != s.calls[c].owner ==> s'.calls[c].done == s.calls[c].done
  {
    hide Cached, Inserted, Without, GoodCalls, GoodInFlight, GoodEntries;
  }

  /** One that drives a call takes its steps in order. */
  lemma OwnerAdvances(s: State, s': State, t: nat, c: nat)
    requires StepOf(s, s', t) && t in s.requests && s.requests[t].phase.Drives(c)
    ensures OwnerRank(s'.requests[t].phase) == OwnerRank(s.requests[t].phase) - 1
  {
    hide Cached, Inserted, Without;
  }

  /** A step of the owner brings its call one step closer; no step of another request touches that. */
  lemma CallRankStep(s: State, s': State, t: nat, c: nat)
    requires Inv(s) && StepOf(s, s', t) && c < |s.calls|
    ensures c < |s'.calls| && s'.calls[c].owner == s.calls[c].owner
    ensures CallRank(s', c) == CallRank(s, c) - if t == s.calls[c].owner && CallRank(s, c) > 0 then 1 else 0
  {
    hide StepOf;
    OthersStay(s, s', t);
    CallStays(s, s', t, c);
    if !s.calls[c].done && t == s.calls[c].owner {
      OwnerAdvances(s, s', t, c);
    }
  }

  /** A run, and which request took which step. */
  ghost predicate Schedule(run: seq<State>, actors: seq<nat>) {
    && run != [] && |actors| == |run| - 1 && Init(run[0])
    && forall i | 0 < i < |run| :: StepOf(run[i - 1], run[i], actors[i - 1])
  }

  lemma ScheduleIsRun(run: seq<State>, actors: seq<nat>)
    requires Schedule(run, actors)
    ensures Run(run)
  {
    hide StepOf;
    forall i | 0 < i < |run| ensures Step(run[i - 1], run[i]) {
      assert StepOf(run[i - 1], run[i], actors[i - 1]);
    }
  }

  /** How many of the steps from i to j the request took. */
  ghost function StepsBy(actors: seq<nat>, i: nat, j: nat, r: nat): nat
    requires i <= j <= |actors|
  {
    if i == j then 0 else StepsBy(actors, i, j - 1, r) + if actors[j - 1] == r then 1 else 0
  }

  lemma {:induction false} RankFalls(run: seq<State>, actors: seq<nat>, i: nat, j: nat, c: nat)
    requires Schedule(run, actors) && i <= j < |run| && c < |run[i].calls|
    ensures c < |run[j].calls| && run[j].calls[c].owner == run[i].calls[c].owner
    ensures var k := CallRank(run[i], c) - StepsBy(actors, i, j, run[i].calls[c].owner);
            CallRank(run[j], c) == if k > 0 then k else 0
  {
    hide StepOf, Inv, CallRank;
    if i < j {
      RankFalls(run, actors, i, j - 1, c);
      ScheduleIsRun(run, actors);
      RunInv(run, j - 1);
      CallRankStep(run[j - 1], run[j], actors[j - 1], c);
    }
  }

  /** In every run a call is done exactly when its owner has taken as many steps as it had left, so after four at most,
      however the steps of the others fall in between; and whoever still waits for it then can wake. */
  lemma CallsAreAnswered(run: seq<State>, actors: seq<nat>, i: nat, j: nat, c: nat)
    requires Schedule(run, actors) && i <= j < |run| && c < |run[i].calls|
    ensures c < |run[j].calls|
    ensures run[j].calls[c].done <==> StepsBy(actors, i, j, run[i].calls[c].owner) >= CallRank(run[i], c)
    ensures CallRank(run[i], c) <= 4
    ensures run[j].calls[c].done ==> forall r | r in run[j].requests && run[j].requests[r].phase == WaitingOn(c) ::
              exists s' :: Wakes(run[j], s', r)
  {
    RankFalls(run, actors, i, j, c);
    ScheduleIsRun(run, actors);
    RunInv(run, j);
    DoneIfRankZero(run[j], c);
    if run[j].calls[c].done {
      assert GoodCalls(run[j]);
      forall r | r in run[j].requests && run[j].requests[r].phase == WaitingOn(c) ensures exists s' :: Wakes(run[j], s', r) {
        CanWake(run[j], r);
      }
    }
  }

  lemma CanWake(s: State, r: nat)
    requires Inv(s) && r in s.requests && s.requests[r].phase.WaitingOn? && s.calls[s.requests[r].phase.call].done
    ensures exists s' :: Wakes(s, s', r)
  {
    var result := s.calls[s.requests[r].phase.call].result.value;
    assert Wakes(s, Moved(s, r, if result.Answered? then Leaving(result) else AtLock), r);
  }

  // ------------------------------------------------------------------ somebody can go on

  /** A request that has not ended can go on itself, or waits for a call whose owner can, and comes closer with that. */
  lemma NobodyIsStuck(run: seq<State>, i: nat, r: nat) returns (t: nat, s': State)
    requires Run(run) && i < |run| && r in run[i].requests && !run[i].requests[r].phase.Ended?
    ensures t in run[i].requests && StepOf(run[i], s', t) && !Arrives(run[i], s', t)
    ensures t == r || (&& run[i].requests[r].phase.WaitingOn?
                       && var c := run[i].requests[r].phase.call;
                          && c < |run[i].calls| && run[i].calls[c].owner == t
                          && c < |s'.calls| && CallRank(s', c) < CallRank(run[i], c))
  {
    RunInv(run, i);
    var s := run[i];
    t := r;
    if s.requests[r].phase.WaitingOn? && !s.calls[s.requests[r].phase.call].done {
      t := s.calls[s.requests[r].phase.call].owner;
    }
    s' := GoesOn(s, t);
    if t != r {
      CallRankStep(s, s', t, s.requests[r].phase.call);
      DoneIfRankZero(s, s.requests[r].phase.call);
    }
  }

  lemma GoesOn(s: State, t: nat) returns (s': State)
    requires Inv(s) && t in s.requests && !s.requests[t].phase.Ended?
    requires s.requests[t].phase.WaitingOn? ==> s.calls[s.requests[t].phase.call].done
    ensures StepOf(s, s', t)
  {
    hide GoodEntries;
    match s.requests[t].phase
    case AtLock =>
      s' := AtLockGoesOn(s, t);
    case WaitingOn(c) =>
      var result := s.calls[c].result.value;
      s' := Moved(s, t, if result.Answered? then Leaving(result) else AtLock);
      assert Wakes(s, s', t);
    case Computing(c) =>
      s' := Moved(s, t, Computed(c, Error));
      assert Computes(s, s', t);
    case Computed(c, result) =>
      s' := Moved(s, t, Finishing(c, result));
      if result.Answered? {
        s' := s'.(lru := Inserted(s.lru, Entry(s.requests[t].key, result.value, 0), s.lim));
      }
      assert Stores(s, s', t);
    case Finishing(c, result) =>
      s' := Moved(s, t, Announcing(c, result)).(calls := s.calls[c := s.calls[c].(result := Some(result))],
                                               inFlight := s.inFlight - {s.requests[t].key});
      assert Finishes(s, s', t);
    case Announcing(c, result) =>
      s' := Moved(s, t, Leaving(result)).(calls := s.calls[c := s.calls[c].(done := true)]);
      assert Announces(s, s', t);
    case Leaving(result) =>
      s' := s.(requests := s.requests[t := Request(s.requests[t].key, Ended(result), s.requests[t].releases + 1)]);
      assert Releases(s, s', t);
  }

  lemma AtLockGoesOn(s: State, t: nat) returns (s': State)
    requires At(s, t, AtLock)
    ensures StepOf(s, s', t)
  {
    var key := s.requests[t].key;
    if Cached(s.lru, key) {
      var e :| e in s.lru && e.key == key;
      s' := Moved(s, t, Leaving(Answered(e.value))).(lru := [e] + Without(s.lru, e.key));
      assert Hits(s, s', t);
    } else if key in s.inFlight {
      s' := Moved(s, t, WaitingOn(s.inFlight[key]));
      assert Joins(s, s', t);
    } else {
      s' := Moved(s, t, Leaving(Error));
      assert Aborts(s, s', t);
    }
  }

  // ------------------------------------------------------------------ how long everyone takes

  /** The requests that may still start a call. */
  ghost function Undecided(s: State): set<nat> {
    set r | r in s.requests && (s.requests[r].phase.AtLock? || s.requests[r].phase.WaitingOn?)
  }

  /** How many calls there can be in all, if no more requests arrive. */
  ghost function Bound(s: State): nat {
    |s.calls| + |Undecided(s)|
  }

  /** The call that a request for the key would join or start. */
  function NextCall(s: State, key: string): nat {
    if key in s.inFlight then s.inFlight[key] else |s.calls|
  }

  /** How many calls there can be from this one on. */
  ghost function Room(s: State, c: nat): nat {
    if c < Bound(s) then Bound(s) - c else 0
  }

  /** The steps that a request has yet to take at most: after a failed call it may go to the lock again and wait for
      a later one. */
  ghost function ToGo(s: State, q: Request): nat {
    match q.phase
    case AtLock => 2 * Room(s, NextCall(s, q.key)) + 7
    case WaitingOn(c) => 2 * Room(s, c) + 6
    case Leaving(_) => 1
    case Ended(_) => 0
    case _ => OwnerRank(q.phase) + 1
  }

  ghost function Weights(s: State): map<nat, nat> {
    map r | r in s.requests :: ToGo(s, s.requests[r])
  }

  ghost function WeightOf<T(!new)>(w: map<T, nat>): nat {
    if w == map[] then 0
    else
      var x :| x in w;
      w[x] + WeightOf(w - {x})
  }

  lemma {:induction false} SumWithout<T(!new)>(w: map<T, nat>, x: T)
    requires x in w
    ensures WeightOf(w) == w[x] + WeightOf(w - {x})
    decreases |w|
  {
    var y :| y in w && WeightOf(w) == w[y] + WeightOf(w - {y});
    if y != x {
      SumWithout(w - {y}, x);
      SumWithout(w - {x}, y);
      assert w - {y} - {x} == w - {x} - {y};
    }
  }

  lemma {:induction false} SumAtMost<T(!new)>(w: map<T, nat>, v: map<T, nat>)
    requires w.Keys == v.Keys && forall x | x in w :: w[x] <= v[x]
    ensures WeightOf(w) <= WeightOf(v)
    decreases |w|
  {
    if w.Keys != {} {
      var x :| x in w;
      SumWithout(w, x);
      SumWithout(v, x);
      SumAtMost(w - {x}, v - {x});
    }
  }

  lemma SumLess<T(!new)>(w: map<T, nat>, v: map<T, nat>, x: T)
    requires w.Keys == v.Keys && (forall y | y in w :: w[y] <= v[y]) && x in w && w[x] < v[x]
    ensures WeightOf(w) < WeightOf(v)
  {
    SumWithout(w, x);
    SumWithout(v, x);
    SumAtMost(w - {x}, v - {x});
  }

  ghost function Remaining(s: State): nat {
    WeightOf(Weights(s))
  }

  /** The call in flight for a key is the latest call for it. */
  ghost predicate Latest(s: State) {
    forall c | 0 <= c < |s.calls| && s.calls[c].key in s.inFlight :: c <= s.inFlight[s.calls[c].key]
  }

  lemma LatestStep(s: State, s': State, t: nat)
    requires Inv(s) && Latest(s) && StepOf(s, s', t)
    ensures Latest(s')
  {
    hide Cached, Genuine, GoodEntries, GoodRequests, ReleasedOnce, Inserted, Without;
  }

  lemma {:induction false} RunLatest(run: seq<State>, i: nat)
    requires Run(run) && i < |run|
    ensures Latest(run[i])
    decreases i
  {
    hide Inv, StepOf, Latest;
    if i == 0 {
      NoCalls(run[0]);
    } else {
      RunLatest(run, i - 1);
      RunInv(run, i - 1);
      var r :| StepOf(run[i - 1], run[i], r);
      LatestStep(run[i - 1], run[i], r);
    }
  }

  lemma NoCalls(s: State)
    requires Init(s)
    ensures Latest(s)
  {}

  lemma StartsBound(s: State, s': State, t: nat)
    requires Starts(s, s', t)
    ensures |s.calls| < |s'.calls| && Bound(s') == Bound(s)
  {
    hide Cached;
    assert Undecided(s') == Undecided(s) - {t};
  }

  /** Only starting a call makes one, and no decided request becomes undecided. */
  lemma StaysDecided(s: State, s': State, t: nat)
    requires StepOf(s, s', t) && t in s.requests && !Starts(s, s', t)
    ensures t in s'.requests && |s.calls| == |s'.calls|
    ensures s'.requests[t].phase.AtLock? || s'.requests[t].phase.WaitingOn? ==>
              s.requests[t].phase.AtLock? || s.requests[t].phase.WaitingOn?
  {
    hide Cached, Inserted, Without, Starts;
  }

  lemma KeysStay(s: State, s': State, t: nat)
    requires StepOf(s, s', t) && t in s.requests
    ensures s'.requests.Keys == s.requests.Keys
  {
    hide Cached, Inserted, Without;
  }

  /** Without arrivals the calls that there can be do not become more. */
  lemma BoundFalls(s: State, s': State, t: nat)
    requires StepOf(s, s', t) && t in s.requests
    ensures s'.requests.Keys == s.requests.Keys && |s.calls| <= |s'.calls| && Bound(s') <= Bound(s)
  {
    hide StepOf, Starts;
    OthersStay(s, s', t);
    KeysStay(s, s', t);
    if Starts(s, s', t) {
      StartsBound(s, s', t);
    } else {
      StaysDecided(s, s', t);
      assert Undecided(s') <= Undecided(s);
      SubsetIsSmaller(Undecided(s'), Undecided(s));
    }
  }

  lemma NextCallGrows(s: State, s': State, t: nat, key: string)
    requires Inv(s) && StepOf(s, s', t)
    ensures NextCall(s, key) <= NextCall(s', key)
  {
    hide Cached, Genuine, GoodEntries, GoodCalls, ReleasedOnce, Inserted, Without;
  }

  /** A request that wakes after a failure has only later calls before it. */
  lemma LaterCalls(s: State, r: nat)
    requires Inv(s) && Latest(s) && r in s.requests && s.requests[r].phase.WaitingOn?
    ensures var c := s.requests[r].phase.call; c < |s.calls| && (s.calls[c].done ==> c < NextCall(s, s.requests[r].key))
  {}

  lemma OthersComeNoFurther(s: State, s': State, t: nat, r: nat)
    requires Inv(s) && StepOf(s, s', t) && t in s.requests && r in s.requests && r != t
    ensures r in s'.requests && ToGo(s', s'.requests[r]) <= ToGo(s, s.requests[r])
  {
    hide StepOf, Inv, Bound, NextCall;
    OthersStay(s, s', t);
    BoundFalls(s, s', t);
    NextCallGrows(s, s', t, s.requests[r].key);
  }

  lemma LockLeft(s: State, s': State, t: nat)
    requires StepOf(s, s', t) && At(s, t, AtLock) && Bound(s') <= Bound(s)
    ensures t in s'.requests && ToGo(s', s'.requests[t]) < ToGo(s, s.requests[t])
  {
    hide Bound, Cached, Inserted, Without;
  }

  lemma WaitLeft(s: State, s': State, t: nat)
    requires Inv(s) && Latest(s) && StepOf(s, s', t) && t in s.requests && s.requests[t].phase.WaitingOn? && Bound(s') <= Bound(s)
    ensures t in s'.requests && ToGo(s', s'.requests[t]) < ToGo(s, s.requests[t])
  {
    hide Inv, Latest, Bound, Cached, Inserted, Without;
    CallsWithinBound(s);
    LaterCalls(s, t);
  }

  lemma WorkAdvances(s: State, s': State, t: nat)
    requires StepOf(s, s', t) && t in s.requests && !s.requests[t].phase.AtLock? && !s.requests[t].phase.WaitingOn?
    ensures t in s'.requests && ToGo(s', s'.requests[t]) < ToGo(s, s.requests[t])
  {
    hide Bound, Cached, Inserted, Without;
  }

  /** Every step brings the request that takes it closer to its end. */
  lemma ActorAdvances(s: State, s': State, t: nat)
    requires Inv(s) && Latest(s) && StepOf(s, s', t) && t in s.requests
    ensures t in s'.requests && ToGo(s', s'.requests[t]) < ToGo(s, s.requests[t])
  {
    hide Inv, Latest, Bound, StepOf, ToGo;
    BoundFalls(s, s', t);
    if s.requests[t].phase.WaitingOn? {
      WaitLeft(s, s', t);
    } else if s.requests[t].phase.AtLock? {
      LockLeft(s, s', t);
    } else {
      WorkAdvances(s, s', t);
    }
  }

  lemma CallsWithinBound(s: State)
    ensures |s.calls| <= Bound(s)
  {}

  lemma RemainingFalls(s: State, s': State, t: nat)
    requires Inv(s) && Latest(s) && StepOf(s, s', t) && t in s.requests
    ensures Remaining(s') < Remaining(s)
  {
    hide Inv, Latest, StepOf, ToGo;
    BoundFalls(s, s', t);
    ActorAdvances(s, s', t);
    forall r | r in s.requests ensures ToGo(s', s'.requests[r]) <= ToGo(s, s.requests[r]) {
      if r != t {
        OthersComeNoFurther(s, s', t, r);
      }
    }
    SumLess(Weights(s'), Weights(s), t);
  }

  ghost predicate AllEnded(s: State) {
    forall r | r in s.requests :: s.requests[r].phase.Ended?
  }

  lemma NothingRemains(s: State)
    ensures Remaining(s) == 0 <==> AllEnded(s)
  {
    if r :| r in s.requests && !s.requests[r].phase.Ended? {
      SumWithout(Weights(s), r);
    } else {
      AllZero(Weights(s));
    }
  }

  lemma {:induction false} AllZero(w: map<nat, nat>)
    requires forall x | x in w :: w[x] == 0
    ensures WeightOf(w) == 0
    decreases |w|
  {
    if w.Keys != {} {
      var x :| x in w;
      SumWithout(w, x);
      AllZero(w - {x});
    }
  }

  lemma {:induction false} SumBound(w: map<nat, nat>, most: nat)
    requires forall x | x in w :: w[x] <= most
    ensures WeightOf(w) <= |w| * most
    decreases |w|
  {
    if w.Keys != {} {
      var x :| x in w;
      SumWithout(w, x);
      SumBound(w - {x}, most);
      assert (w - {x}).Keys == w.Keys - {x};
      assert |w| * most == (|w| - 1) * most + most;
    }
  }

  lemma {:induction false} StepsAreCounted(run: seq<State>, i: nat, j: nat)
    requires Run(run) && i <= j < |run|
    ensures run[i].requests.Keys <= run[j].requests.Keys
    ensures run[i].requests.Keys == run[j].requests.Keys ==> j - i + Remaining(run[j]) <= Remaining(run[i])
  {
    hide Inv, StepOf, Latest, Remaining;
    if i < j {
      StepsAreCounted(run, i, j - 1);
      RunInv(run, j - 1);
      RunLatest(run, j - 1);
      var t :| StepOf(run[j - 1], run[j], t);
      OthersStay(run[j - 1], run[j], t);
      if t in run[j - 1].requests {
        BoundFalls(run[j - 1], run[j], t);
        RemainingFalls(run[j - 1], run[j], t);
      }
    }
  }

  /** While no request arrives, a run is short, and as long as some request has not ended it can go on; so whatever the
      order of the steps, and however often calls fail and are tried again, all requests end. */
  lemma EveryoneEnds(run: seq<State>, i: nat, j: nat) returns (s': State)
    requires Run(run) && i <= j < |run| && run[j].requests.Keys == run[i].requests.Keys
    ensures j - i <= |run[i].requests| * (2 * (|run[i].calls| + |run[i].requests|) + 7)
    ensures !AllEnded(run[j]) ==> Step(run[j], s') && s'.requests.Keys == run[j].requests.Keys
  {
    hide Inv, StepOf, Remaining;
    StepsAreCounted(run, i, j);
    RemainingBound(run[i]);
    s' := run[j];
    if r :| r in run[j].requests && !run[j].requests[r].phase.Ended? {
      var t;
      t, s' := NobodyIsStuck(run, j, r);
      BoundFalls(run[j], s', t);
    }
  }

  lemma RemainingBound(s: State)
    ensures Remaining(s) <= |s.requests| * (2 * (|s.calls| + |s.requests|) + 7)
  {
    var most := 2 * (|s.calls| + |s.requests|) + 7;
    SubsetIsSmaller(Undecided(s), s.requests.Keys);
    assert |s.requests.Keys| == |s.requests|;
    forall r | r in s.requests ensures ToGo(s, s.requests[r]) <= most {}
    SumBound(Weights(s), most);
    assert Weights(s).Keys == s.requests.Keys && |s.requests.Keys| == |s.requests| && |Weights(s).Keys| == |Weights(s)|;
  }
}
