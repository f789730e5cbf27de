/** Single-flight loading through the proof cache (cmd/pensiero/cache.go): what happens under the mutex, the
    computation, the announcement and the release are single steps, and the steps of all requests interleave freely. */
module ProofCache {
  import opened Options
  import opened LruCache

  /** What a computation or a request ends with; failing, panicking and being cancelled all count as an error. */
  datatype Result = Answered(value: Answer) | Error

  datatype Phase =
    | AtLock
    | WaitingOn(call: nat)
    | Computing(call: nat)
    | Computed(call: nat, result: Result)
    | Finishing(call: nat, result: Result)
    | Announcing(call: nat, result: Result)
    | Leaving(result: Result)
    | Ended(result: Result)
  {
    /** With a call that is still in the table of calls in flight. */
    predicate Flies() { Computing? || Computed? || Finishing? }

    /** With a call that it has yet to announce. */
    predicate Drives(c: nat) { (Flies() || Announcing?) && call == c }
  }

  /** A request holds a generation, and releases counts how often it has given it up. */
  datatype Request = Request(key: string, phase: Phase, releases: nat)

  datatype Call = Call(key: string, owner: nat, result: Option<Result>, done: bool)

  /** The log remembers every successful computation. */
  datatype State = State(lim: Limits, requests: map<nat, Request>, calls: seq<Call>, inFlight: map<string, nat>,
                         lru: seq<Entry>, log: set<(string, Answer)>)

  ghost predicate Init(s: State) {
    s == State(s.lim, map[], [], map[], [], {})
  }

  predicate Cached(lru: seq<Entry>, key: string) {
    exists e :: e in lru && e.key == key
  }

  function Moved(s: State, r: nat, p: Phase): State
    requires r in s.requests
  {
    s.(requests := s.requests[r := s.requests[r].(phase := p)])
  }

  ghost predicate At(s: State, r: nat, p: Phase) {
    r in s.requests && s.requests[r].phase == p
  }

  // ------------------------------------------------------------------ the steps

  ghost predicate Arrives(s: State, s': State, r: nat) {
    r !in s.requests && exists key :: s' == s.(requests := s.requests[r := Request(key, AtLock, 0)])
  }

  /** The answer is in the cache, and becomes the most recently used. */
  ghost predicate Hits(s: State, s': State, r: nat) {
    && At(s, r, AtLock)
    && exists e :: e in s.lru && e.key == s.requests[r].key
                   && s' == Moved(s, r, Leaving(Answered(e.value))).(lru := [e] + Without(s.lru, e.key))
  }

  /** Someone is computing the answer. */
  ghost predicate Joins(s: State, s': State, r: nat) {
    && At(s, r, AtLock) && !Cached(s.lru, s.requests[r].key) && s.requests[r].key in s.inFlight
    && s' == Moved(s, r, WaitingOn(s.inFlight[s.requests[r].key]))
  }

  /** Nobody is, and the request is cancelled already. */
  ghost predicate Aborts(s: State, s': State, r: nat) {
    && At(s, r, AtLock) && !Cached(s.lru, s.requests[r].key) && s.requests[r].key !in s.inFlight
    && s' == Moved(s, r, Leaving(Error))
  }

  /** Nobody is, so the request does it itself. */
  ghost predicate Starts(s: State, s': State, r: nat) {
    && At(s, r, AtLock) && !Cached(s.lru, s.requests[r].key) && s.requests[r].key !in s.inFlight
    && s' == Moved(s, r, Computing(|s.calls|)).(calls := s.calls + [Call(s.requests[r].key, r, None, false)],
                                               inFlight := s.inFlight[s.requests[r].key := |s.calls|])
  }

  /** A waiting request wakes up: it takes over an answer, and after a failure it tries again or is cancelled. */
  ghost predicate Wakes(s: State, s': State, r: nat) {
    && r in s.requests && s.requests[r].phase.WaitingOn? && s.requests[r].phase.call < |s.calls|
    && var call := s.calls[s.requests[r].phase.call];
       && call.done && call.result.Some?
       && if call.result.value.Answered? then s' == Moved(s, r, Leaving(call.result.value))
          else s' == Moved(s, r, AtLock) || s' == Moved(s, r, Leaving(Error))
  }

  ghost predicate Cancels(s: State, s': State, r: nat) {
    r in s.requests && s.requests[r].phase.WaitingOn? && s' == Moved(s, r, Leaving(Error))
  }

  /** The computation ends; if it succeeded, the request may still find itself cancelled. */
  ghost predicate Computes(s: State, s': State, r: nat) {
    && r in s.requests && s.requests[r].phase.Computing?
    && var c := s.requests[r].phase.call;
       || s' == Moved(s, r, Computed(c, Error))
       || exists v :: s' == Moved(s, r, Computed(c, Answered(v))).(log := s.log + {(s.requests[r].key, v)})
  }

  /** An answer is put into the cache; an error is not. */
  ghost predicate Stores(s: State, s': State, r: nat) {
    && r in s.requests && s.requests[r].phase.Computed?
    && var c, result := s.requests[r].phase.call, s.requests[r].phase.result;
       if result.Error? then s' == Moved(s, r, Finishing(c, result))
       else exists size :: s' == Moved(s, r, Finishing(c, result)).(
                                   lru := Inserted(s.lru, Entry(s.requests[r].key, result.value, size), s.lim))
  }

  /** The result is left with the call, and the call is no longer in flight. */
  ghost predicate Finishes(s: State, s': State, r: nat) {
    && r in s.requests && s.requests[r].phase.Finishing? && s.requests[r].phase.call < |s.calls|
    && var c, result := s.requests[r].phase.call, s.requests[r].phase.result;
       s' == Moved(s, r, Announcing(c, result)).(calls := s.calls[c := s.calls[c].(result := Some(result))],
                                                inFlight := s.inFlight - {s.requests[r].key})
  }

  ghost predicate Announces(s: State, s': State, r: nat) {
    && r in s.requests && s.requests[r].phase.Announcing? && s.requests[r].phase.call < |s.calls|
    && var c := s.requests[r].phase.call;
       s' == Moved(s, r, Leaving(s.requests[r].phase.result)).(calls := s.calls[c := s.calls[c].(done := true)])
  }

  ghost predicate Releases(s: State, s': State, r: nat) {
    && r in s.requests && s.requests[r].phase.Leaving?
    && s' == s.(requests := s.requests[r := Request(s.requests[r].key, Ended(s.requests[r].phase.result), s.requests[r].releases + 1)])
  }

  ghost predicate StepOf(s: State, s': State, r: nat) {
    || Arrives(s, s', r) || Hits(s, s', r) || Joins(s, s', r) || Aborts(s, s', r) || Starts(s, s', r)
    || Wakes(s, s', r) || Cancels(s, s', r) || Computes(s, s', r) || Stores(s, s', r)
    || Finishes(s, s', r) || Announces(s, s', r) || Releases(s, s', r)
  }

  /** A step touches no other request. */
  lemma OthersStay(s: State, s': State, t: nat)
    requires StepOf(s, s', t)
    ensures forall r | r in s.requests && r != t :: r in s'.requests && s'.requests[r] == s.requests[r]
    ensures t in s'.requests && (t in s.requests ==> s'.requests[t].key == s.requests[t].key)
  {
    hide Arrives, Hits, Joins, Aborts, Starts, Wakes, Cancels, Computes, Stores, Finishes, Announces, Releases;
    if Arrives(s, s', t) || Hits(s, s', t) || Joins(s, s', t) || Aborts(s, s', t) || Starts(s, s', t) {
      OthersStayAtLock(s, s', t);
    } else {
      OthersStayLater(s, s', t);
    }
  }

  lemma OthersStayLater(s: State, s': State, t: nat)
    requires || Wakes(s, s', t) || Cancels(s, s', t) || Computes(s, s', t) || Stores(s, s', t)
             || Finishes(s, s', t) || Announces(s, s', t) || Releases(s, s', t)
    ensures forall r | r in s.requests && r != t :: r in s'.requests && s'.requests[r] == s.requests[r]
    ensures t in s'.requests && s'.requests[t].key == s.requests[t].key
  {
    hide Inserted;
  }

  lemma OthersStayAtLock(s: State, s': State, t: nat)
    requires Arrives(s, s', t) || Hits(s, s', t) || Joins(s, s', t) || Aborts(s, s', t) || Starts(s, s', t)
    ensures forall r | r in s.requests && r != t :: r in s'.requests && s'.requests[r] == s.requests[r]
    ensures t in s'.requests && (t in s.requests ==> s'.requests[t].key == s.requests[t].key)
  {
    hide Cached, Inserted, Without;
  }

  ghost predicate Step(s: State, s': State) {
    exists r :: StepOf(s, s', r)
  }

  ghost predicate Run(run: seq<State>) {
    run != [] && Init(run[0]) && forall i | 0 < i < |run| :: Step(run[i - 1], run[i])
  }

  // ------------------------------------------------------------------ the invariant

  /** An answer was computed for the key. */
  predicate Genuine(log: set<(string, Answer)>, key: string, result: Result) {
    result.Answered? ==> (key, result.value) in log
  }

  ghost predicate GoodPhase(s: State, r: nat, key: string, p: Phase) {
    match p
    case AtLock => true
    case WaitingOn(c) => c < |s.calls| && s.calls[c].key == key
    case Computing(c) => Flying(s, r, key, c) && !Cached(s.lru, key)
    case Computed(c, result) => Flying(s, r, key, c) && !Cached(s.lru, key) && Genuine(s.log, key, result)
    case Finishing(c, result) => Flying(s, r, key, c) && Genuine(s.log, key, result)
    case Announcing(c, result) => c < |s.calls| && s.calls[c] == Call(key, r, Some(result), false) && Genuine(s.log, key, result)
    case Leaving(result) => Genuine(s.log, key, result)
    case Ended(result) => Genuine(s.log, key, result)
  }

  /** The request's own call is the one in flight for its key. */
  ghost predicate Flying(s: State, r: nat, key: string, c: nat) {
    c < |s.calls| && s.calls[c] == Call(key, r, None, false) && key in s.inFlight && s.inFlight[key] == c
  }

  ghost predicate GoodRequests(s: State) {
    forall r | r in s.requests :: GoodPhase(s, r, s.requests[r].key, s.requests[r].phase)
  }

  ghost predicate ReleasedOnce(s: State) {
    forall r | r in s.requests :: s.requests[r].releases == if s.requests[r].phase.Ended? then 1 else 0
  }

  /** A call that is not done has an owner that will see to it. */
  ghost predicate GoodCalls(s: State) {
    forall c | 0 <= c < |s.calls| ::
      && (s.calls[c].done ==> s.calls[c].result.Some?)
      && (s.calls[c].result.Some? ==> Genuine(s.log, s.calls[c].key, s.calls[c].result.value))
      && (!s.calls[c].done ==> s.calls[c].owner in s.requests && s.requests[s.calls[c].owner].phase.Drives(c))
  }

  ghost predicate GoodInFlight(s: State) {
    forall k | k in s.inFlight :: s.inFlight[k] < |s.calls| && s.calls[s.inFlight[k]].key == k && s.calls[s.inFlight[k]].result.None?
  }

  ghost predicate GoodEntries(s: State) {
    forall e | e in s.lru :: (e.key, e.value) in s.log
  }

  ghost predicate Inv(s: State) {
    GoodRequests(s) && ReleasedOnce(s) && GoodCalls(s) && GoodInFlight(s) && GoodEntries(s)
  }

  lemma InitInv(s: State)
    requires Init(s)
    ensures Inv(s)
  {}

  /** A step that only moves a request that drives no call. */
  lemma MovesInv(s: State, s': State, r: nat, p: Phase)
    requires Inv(s) && r in s.requests && s' == Moved(s, r, p)
    requires forall c :: !s.requests[r].phase.Drives(c)
    requires GoodPhase(s, r, s.requests[r].key, p) && !p.Ended? && !s.requests[r].phase.Ended?
    ensures Inv(s')
  {}

  lemma ArrivesInv(s: State, s': State, r: nat)
    requires Inv(s) && Arrives(s, s', r)
    ensures Inv(s')
  {}

  /** Other entries, as long as no key that is being computed is among them. */
  lemma EntriesInv(s: State, s': State, q: seq<Entry>)
    requires Inv(s) && s' == s.(lru := q)
    requires forall e | e in q :: (e.key, e.value) in s.log
    requires forall r | r in s.requests && (s.requests[r].phase.Computing? || s.requests[r].phase.Computed?) :: !Cached(q, s.requests[r].key)
    ensures Inv(s')
  {
    hide Cached;
  }

  lemma HitsInv(s: State, s': State, r: nat)
    requires Inv(s) && Hits(s, s', r)
    ensures Inv(s')
  {
    hide Without;
    var e :| e in s.lru && e.key == s.requests[r].key
             && s' == Moved(s, r, Leaving(Answered(e.value))).(lru := [e] + Without(s.lru, e.key));
    WithoutMembers(s.lru, e.key);
    assert forall x :: x in s'.lru <==> x == e || (x in s.lru && x.key != e.key);
    var mid := Moved(s, r, Leaving(Answered(e.value)));
    MovesInv(s, mid, r, Leaving(Answered(e.value)));
    EntriesInv(mid, s', s'.lru);
  }

  lemma StartsInv(s: State, s': State, r: nat)
    requires Inv(s) && Starts(s, s', r)
    ensures Inv(s')
  {}

  lemma WakesInv(s: State, s': State, r: nat)
    requires Inv(s) && Wakes(s, s', r)
    ensures Inv(s')
  {
    hide Cached, GoodEntries, GoodInFlight;
    MovesInv(s, s', r, s'.requests[r].phase);
  }

  lemma ComputesInv(s: State, s': State, r: nat)
    requires Inv(s) && Computes(s, s', r)
    ensures Inv(s')
  {}

  lemma StoresNothingInv(s: State, s': State, r: nat)
    requires Inv(s) && r in s.requests && s.requests[r].phase.Computed?
    requires s' == Moved(s, r, Finishing(s.requests[r].phase.call, s.requests[r].phase.result))
    ensures Inv(s')
  {
    hide Cached;
  }

  /** Storing puts in nothing but the answer. */
  lemma InsertedEntries(q: seq<Entry>, e: Entry, lim: Limits)
    ensures forall x | x in Inserted(q, e, lim) :: x == e || x in q
  {
    WithoutMembers(q, e.key);
    KeptIsLongest([e] + Without(q, e.key), lim);
  }

  lemma StoresInv(s: State, s': State, r: nat)
    requires Inv(s) && Stores(s, s', r)
    ensures Inv(s')
  {
    hide Inserted;
    var key, result := s.requests[r].key, s.requests[r].phase.result;
    var mid := Moved(s, r, Finishing(s.requests[r].phase.call, result));
    StoresNothingInv(s, mid, r);
    if result.Answered? {
      var size :| s' == mid.(lru := Inserted(s.lru, Entry(key, result.value, size), s.lim));
      InsertedEntries(s.lru, Entry(key, result.value, size), s.lim);
      NobodyElseComputes(s, r);
      EntriesInv(mid, s', s'.lru);
    }
  }

  /** At most one request computes for a key. */
  lemma NobodyElseComputes(s: State, r: nat)
    requires Inv(s) && r in s.requests && s.requests[r].phase.Flies()
    ensures forall t | t in s.requests && t != r && s.requests[t].key == s.requests[r].key :: !s.requests[t].phase.Flies()
  {}

  lemma FinishesRequests(s: State, s': State, r: nat)
    requires Inv(s) && Finishes(s, s', r)
    ensures GoodRequests(s') && ReleasedOnce(s')
  {
    hide Cached, Genuine, GoodEntries;
  }

  lemma FinishesCalls(s: State, s': State, r: nat)
    requires Inv(s) && Finishes(s, s', r)
    ensures GoodCalls(s') && GoodEntries(s')
  {
    hide Cached, Genuine, GoodInFlight, ReleasedOnce;
  }

  lemma FinishesInFlight(s: State, s': State, r: nat)
    requires Inv(s) && Finishes(s, s', r)
    ensures GoodInFlight(s')
  {
    hide Cached, Genuine, GoodEntries, GoodCalls, ReleasedOnce;
  }

  lemma FinishesInv(s: State, s': State, r: nat)
    requires Inv(s) && Finishes(s, s', r)
    ensures Inv(s')
  {
    FinishesRequests(s, s', r);
    FinishesCalls(s, s', r);
    FinishesInFlight(s, s', r);
    hide Finishes, GoodRequests, GoodCalls, GoodInFlight, GoodEntries;
  }

  lemma AnnouncesInv(s: State, s': State, r: nat)
    requires Inv(s) && Announces(s, s', r)
    ensures Inv(s')
  {
    hide Cached;
  }

  lemma ReleasesInv(s: State, s': State, r: nat)
    requires Inv(s) && Releases(s, s', r)
    ensures Inv(s')
  {}

  lemma StepInv(s: State, s': State, r: nat)
    requires Inv(s) && StepOf(s, s', r)
    ensures Inv(s')
  {
    hide Inv, Arrives, Hits, Starts, Wakes, Computes, Stores, Finishes, Announces, Releases;
    if Arrives(s, s', r) {
      ArrivesInv(s, s', r);
    } else if Hits(s, s', r) {
      HitsInv(s, s', r);
    } else if Starts(s, s', r) {
      StartsInv(s, s', r);
    } else if Wakes(s, s', r) {
      WakesInv(s, s', r);
    } else if Computes(s, s', r) {
      ComputesInv(s, s', r);
    } else if Stores(s, s', r) {
      StoresInv(s, s', r);
    } else if Finishes(s, s', r) {
      FinishesInv(s, s', r);
    } else if Announces(s, s', r) {
      AnnouncesInv(s, s', r);
    } else if Releases(s, s', r) {
      ReleasesInv(s, s', r);
    } else {
      OthersInv(s, s', r);
    }
  }

  lemma OthersInv(s: State, s': State, r: nat)
    requires Inv(s) && (Joins(s, s', r) || Aborts(s, s', r) || Cancels(s, s', r))
    ensures Inv(s')
  {
    MovesInv(s, s', r, s'.requests[r].phase);
  }

  lemma {:induction false} RunInv(run: seq<State>, i: nat)
    requires Run(run) && i < |run|
    ensures Inv(run[i])
    decreases i
  {
    hide Inv, StepOf;
    if i == 0 {
      InitInv(run[0]);
    } else {
      RunInv(run, i - 1);
      var r :| StepOf(run[i - 1], run[i], r);
      StepInv(run[i - 1], run[i], r);
    }
  }

  // ------------------------------------------------------------------ what every interleaving keeps

  /** In every run: an answer that a request ends with, or that is in the cache, was computed for that very key by a
      computation that succeeded; errors are never stored; and a request has given up its generation exactly once when
      it has ended, and never before. */
  lemma AnswersAreGenuine(run: seq<State>, i: nat)
    requires Run(run) && i < |run|
    ensures forall r | r in run[i].requests && run[i].requests[r].phase.Ended? && run[i].requests[r].phase.result.Answered? ::
              (run[i].requests[r].key, run[i].requests[r].phase.result.value) in run[i].log
    ensures forall e | e in run[i].lru :: (e.key, e.value) in run[i].log
    ensures forall r | r in run[i].requests :: run[i].requests[r].releases == if run[i].requests[r].phase.Ended? then 1 else 0
  {
    RunInv(run, i);
    assert GoodRequests(run[i]);
  }

  /** In every run at most one request computes for a key at a time, and then the key is not in the cache, so storing
      the answer never replaces one. */
  lemma OneFlight(run: seq<State>, i: nat)
    requires Run(run) && i < |run|
    ensures forall r, t | r in run[i].requests && t in run[i].requests && run[i].requests[r].phase.Flies()
                          && run[i].requests[t].phase.Flies() && run[i].requests[r].key == run[i].requests[t].key :: r == t
    ensures forall r | r in run[i].requests && run[i].requests[r].phase.Computed? :: !Cached(run[i].lru, run[i].requests[r].key)
  {
    RunInv(run, i);
    assert GoodRequests(run[i]);
    forall r, t | r in run[i].requests && t in run[i].requests && run[i].requests[r].phase.Flies()
                  && run[i].requests[t].phase.Flies() && run[i].requests[r].key == run[i].requests[t].key
      ensures r == t
    {
      NobodyElseComputes(run[i], r);
    }
  }
}
