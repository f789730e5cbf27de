/** Reference-counted generations with swap, rollback and close (cmd/pensiero/generation.go): every critical section
    and every call to close a generation is one step, and steps of different callers interleave freely. */
module GenerationStore {
  import opened Options

  /** A reference is known by the order in which it was made. The pending ones are about to be released once, by a
      reader, an eviction or Close; those in toClose are about to be closed; issued counts the readers' handles. */
  datatype State = State(refs: seq<nat>, closes: seq<nat>,
                         current: Option<nat>, rollback: seq<nat>, closed: bool,
                         live: map<nat, nat>, issued: nat,
                         pending: multiset<nat>, toClose: multiset<nat>, rejected: set<nat>)

  const ROLLBACK_SLOTS := 1

  // ------------------------------------------------------------------ the steps

  ghost predicate Init(s: State) {
    || s == State([], [], None, [], false, map[], 0, multiset{}, multiset{}, {})
    || s == State([1], [0], Some(0), [], false, map[], 0, multiset{}, multiset{}, {})
  }

  /** A reader takes a handle on the current generation. */
  ghost predicate Acquired(s: State, s': State) {
    && !s.closed && s.current.Some? && s.current.value < |s.refs|
    && s' == s.(refs := s.refs[s.current.value := s.refs[s.current.value] + 1], live := s.live[s.issued := s.current.value],
                issued := s.issued + 1)
  }

  /** A reader gives up a handle; giving it up again does nothing. */
  ghost predicate GivenUp(s: State, s': State, h: nat) {
    h in s.live && s' == s.(live := s.live - {h}, pending := s.pending + multiset{s.live[h]})
  }

  /** A pending release runs. */
  ghost predicate Released(s: State, s': State, r: nat) {
    && r in s.pending && r < |s.refs|
    && if s.refs[r] == 0 then s' == s.(pending := s.pending - multiset{r})
       else s' == s.(pending := s.pending - multiset{r}, refs := s.refs[r := s.refs[r] - 1],
                     toClose := s.toClose + if s.refs[r] == 1 then multiset{r} else multiset{})
  }

  /** The pool of a generation is closed. */
  ghost predicate PoolClosed(s: State, s': State, r: nat) {
    && r in s.toClose && r < |s.closes|
    && s' == s.(toClose := s.toClose - multiset{r}, closes := s.closes[r := s.closes[r] + 1])
  }

  function Trimmed(q: seq<nat>): seq<nat> {
    if |q| > ROLLBACK_SLOTS then q[..ROLLBACK_SLOTS] else q
  }

  function Evicted(q: seq<nat>): multiset<nat> {
    if |q| > ROLLBACK_SLOTS then multiset{q[|q| - 1]} else multiset{}
  }

  /** A new generation becomes current, and the one before moves to the rollback slot; a closed store closes the
      new one instead. */
  ghost predicate Swapped(s: State, s': State) {
    var made := s.(refs := s.refs + [1], closes := s.closes + [0]);
    if s.closed then
      s' == made.(toClose := s.toClose + multiset{|s.refs|}, rejected := s.rejected + {|s.refs|})
    else if s.current.None? then
      s' == made.(current := Some(|s.refs|))
    else
      s' == made.(current := Some(|s.refs|), rollback := Trimmed([s.current.value] + s.rollback),
                  pending := s.pending + Evicted([s.current.value] + s.rollback))
  }

  /** The current generation and the one before change places. */
  ghost predicate RolledBack(s: State, s': State) {
    && !s.closed && s.current.Some? && s.rollback != []
    && s' == s.(current := Some(s.rollback[0]), rollback := s.rollback[0 := s.current.value])
  }

  /** The store lets go of everything it retains. */
  ghost predicate StoreClosed(s: State, s': State) {
    && !s.closed
    && s' == s.(closed := true, current := None, rollback := [],
                pending := s.pending + (if s.current.Some? then multiset{s.current.value} else multiset{}) + multiset(s.rollback))
  }

  ghost predicate Step(s: State, s': State) {
    || Acquired(s, s')
    || (exists h :: GivenUp(s, s', h))
    || (exists r :: Released(s, s', r))
    || (exists r :: PoolClosed(s, s', r))
    || Swapped(s, s')
    || RolledBack(s, s')
    || StoreClosed(s, s')
    || s' == s
  }

  /** Some interleaving of the callers. */
  ghost predicate Run(run: seq<State>) {
    run != [] && Init(run[0]) && forall i | 0 < i < |run| :: Step(run[i - 1], run[i])
  }

  // ------------------------------------------------------------------ the invariant

  ghost predicate Retained(s: State, r: nat) {
    s.current == Some(r) || r in s.rollback
  }

  ghost function HandlesOn(live: map<nat, nat>, r: nat): set<nat> {
    set h | h in live && live[h] == r
  }

  ghost predicate Shape(s: State) {
    && |s.closes| == |s.refs|
    && |s.rollback| <= ROLLBACK_SLOTS
    && (s.current.Some? ==> s.current.value < |s.refs| && s.current.value !in s.rollback)
    && (forall r: nat | Retained(s, r) || r in s.pending || r in s.toClose || r in s.rejected :: r < |s.refs|)
    && (forall h | h in s.live :: h < s.issued && s.live[h] < |s.refs|)
    && (s.closed ==> s.current.None? && s.rollback == [])
    && (s.rejected != {} ==> s.closed)
  }

  /** The count of a reference is what the store, the readers and the pending releases hold; it is closed, or about
      to be, exactly if nothing holds it. */
  ghost predicate Counted(s: State, r: nat)
    requires r < |s.refs| && r < |s.closes|
  {
    if r in s.rejected then
      !Retained(s, r) && HandlesOn(s.live, r) == {} && s.pending[r] == 0 && s.toClose[r] + s.closes[r] == 1
    else
      && s.refs[r] == (if Retained(s, r) then 1 else 0) + |HandlesOn(s.live, r)| + s.pending[r]
      && s.toClose[r] + s.closes[r] == (if s.refs[r] == 0 then 1 else 0)
  }

  ghost predicate Inv(s: State) {
    Shape(s) && forall r: nat | r < |s.refs| :: Counted(s, r)
  }

  lemma InitInv(s: State)
    requires Init(s)
    ensures Inv(s)
  {
    forall r: nat | r < |s.refs| ensures Counted(s, r) {
      assert HandlesOn(s.live, r) == {};
    }
  }

  lemma AcquiredInv(s: State, s': State)
    requires Inv(s) && Acquired(s, s')
    ensures Inv(s')
  {
    forall r: nat | r < |s'.refs| ensures Counted(s', r) {
      assert Counted(s, r);
      assert HandlesOn(s'.live, r) == HandlesOn(s.live, r) + if r == s.current.value then {s.issued} else {};
      assert s.issued !in HandlesOn(s.live, r);
    }
  }

  lemma GivenUpInv(s: State, s': State, h: nat)
    requires Inv(s) && GivenUp(s, s', h)
    ensures Inv(s')
  {
    forall r: nat | r < |s'.refs| ensures Counted(s', r) {
      assert Counted(s, r);
      assert HandlesOn(s'.live, r) == HandlesOn(s.live, r) - {h};
      assert h in HandlesOn(s.live, r) <==> s.live[h] == r;
    }
  }

  /** A pending release never finds the count at zero. */
  lemma NeverBelowZero(s: State, r: nat)
    requires Inv(s) && r in s.pending
    ensures r < |s.refs| && s.refs[r] > 0
  {
    assert Counted(s, r);
  }

  lemma ReleasedInv(s: State, s': State, r: nat)
    requires Inv(s) && Released(s, s', r)
    ensures Inv(s')
  {
    NeverBelowZero(s, r);
    forall x: nat | x < |s'.refs| ensures Counted(s', x) {
      assert Counted(s, x);
    }
  }

  lemma PoolClosedInv(s: State, s': State, r: nat)
    requires Inv(s) && PoolClosed(s, s', r)
    ensures Inv(s')
  {
    forall x: nat | x < |s'.refs| ensures Counted(s', x) {
      assert Counted(s, x);
    }
  }

  lemma SwapEvicts(s: State)
    requires Shape(s) && s.current.Some?
    ensures Trimmed([s.current.value] + s.rollback) == [s.current.value]
    ensures Evicted([s.current.value] + s.rollback) == multiset(s.rollback)
  {
    assert s.rollback == [] || s.rollback == [s.rollback[0]];
  }

  lemma SwapAddsOne(s: State, s': State)
    requires Inv(s) && Shape(s') && s'.refs == s.refs + [1] && s'.closes == s.closes + [0] && s'.live == s.live
    requires forall x: nat | x < |s.refs| :: (Retained(s, x) || x in s.pending) <==> (Retained(s', x) || x in s'.pending)
    requires forall x: nat | x < |s.refs| ::
               && (if Retained(s, x) then 1 else 0) + s.pending[x] == (if Retained(s', x) then 1 else 0) + s'.pending[x]
               && s'.toClose[x] == s.toClose[x] && (x in s'.rejected <==> x in s.rejected)
    requires Counted(s', |s.refs|)
    ensures Inv(s')
  {
    forall x: nat | x < |s'.refs| ensures Counted(s', x) {
      if x < |s.refs| {
        assert Counted(s, x);
      }
    }
  }

  lemma NothingOnNew(s: State)
    requires Inv(s)
    ensures HandlesOn(s.live, |s.refs|) == {} && |s.refs| !in s.pending && |s.refs| !in s.toClose && !Retained(s, |s.refs|)
  {}

  lemma SwapRejectedInv(s: State, s': State)
    requires Inv(s) && Swapped(s, s') && s.closed
    ensures Inv(s')
  {
    hide Trimmed, Evicted;
    NothingOnNew(s);
    SwapAddsOne(s, s');
  }

  lemma SwapFirstInv(s: State, s': State)
    requires Inv(s) && Swapped(s, s') && !s.closed && s.current.None?
    ensures Inv(s')
  {
    hide Trimmed, Evicted;
    NothingOnNew(s);
    SwapAddsOne(s, s');
  }

  lemma SwapReplacesInv(s: State, s': State)
    requires Inv(s) && Swapped(s, s') && !s.closed && s.current.Some?
    ensures Inv(s')
  {
    hide Trimmed, Evicted, HandlesOn;
    SwapEvicts(s);
    NothingOnNew(s);
    assert s'.rollback == [s.current.value] && s'.pending == s.pending + multiset(s.rollback);
    forall r: nat | Retained(s', r) || r in s'.pending ensures r < |s'.refs| {
      assert Retained(s, r) || r in s.pending || r == |s.refs|;
    }
    assert s.rollback == [] || s.rollback == [s.rollback[0]];
    SwapAddsOne(s, s');
  }

  lemma SwappedInv(s: State, s': State)
    requires Inv(s) && Swapped(s, s')
    ensures Inv(s')
  {
    hide Swapped, Inv;
    if s.closed {
      SwapRejectedInv(s, s');
    } else if s.current.None? {
      SwapFirstInv(s, s');
    } else {
      SwapReplacesInv(s, s');
    }
  }

  lemma RolledBackInv(s: State, s': State)
    requires Inv(s) && RolledBack(s, s')
    ensures Inv(s')
  {
    assert s.rollback[0] in s.rollback && Retained(s, s.rollback[0]);
    assert s.rollback == [s.rollback[0]] && s'.rollback == [s.current.value];
    forall x: nat | x < |s'.refs| ensures Counted(s', x) {
      assert Counted(s, x);
    }
  }

  lemma StoreClosedInv(s: State, s': State)
    requires Inv(s) && StoreClosed(s, s')
    ensures Inv(s')
  {
    forall x: nat | x < |s'.refs| ensures Counted(s', x) {
      assert Counted(s, x);
      assert s.rollback == [] || s.rollback == [s.rollback[0]];
    }
  }

  lemma StepInv(s: State, s': State)
    requires Inv(s) && Step(s, s')
    ensures Inv(s')
  {
    hide Inv, Acquired, GivenUp, Released, PoolClosed, Swapped, RolledBack, StoreClosed;
    if Acquired(s, s') {
      AcquiredInv(s, s');
    } else if h :| GivenUp(s, s', h) {
      GivenUpInv(s, s', h);
    } else if r :| Released(s, s', r) {
      ReleasedInv(s, s', r);
    } else if r :| PoolClosed(s, s', r) {
      PoolClosedInv(s, s', r);
    } else if Swapped(s, s') {
      SwappedInv(s, s');
    } else if RolledBack(s, s') {
      RolledBackInv(s, s');
    } else if StoreClosed(s, s') {
      StoreClosedInv(s, s');
    }
  }

  lemma {:induction false} RunInv(run: seq<State>, i: nat)
    requires Run(run) && i < |run|
    ensures Inv(run[i])
    decreases i
  {
    if i == 0 {
      InitInv(run[0]);
    } else {
      RunInv(run, i - 1);
      StepInv(run[i - 1], run[i]);
    }
  }

  // ------------------------------------------------------------------ what every interleaving keeps

  /** In every run a generation is not closed, nor about to be, while a reader holds it or the store retains it; none
      is closed twice; and no more than one is kept for rollback. */
  lemma SafeThroughout(run: seq<State>, i: nat)
    requires Run(run) && i < |run|
    ensures forall h | h in run[i].live ::
              run[i].live[h] < |run[i].closes| && run[i].closes[run[i].live[h]] == 0 && run[i].live[h] !in run[i].toClose
    ensures forall r: nat | Retained(run[i], r) :: r < |run[i].closes| && run[i].closes[r] == 0 && r !in run[i].toClose
    ensures forall r | 0 <= r < |run[i].closes| :: run[i].closes[r] + run[i].toClose[r] <= 1
    ensures |run[i].rollback| <= 1
  {
    RunInv(run, i);
    var s := run[i];
    forall h | h in s.live ensures s.live[h] < |s.closes| && s.closes[s.live[h]] == 0 && s.live[h] !in s.toClose {
      assert Counted(s, s.live[h]);
      assert h in HandlesOn(s.live, s.live[h]);
    }
    forall r: nat | Retained(s, r) ensures r < |s.closes| && s.closes[r] == 0 && r !in s.toClose {
      assert Counted(s, r);
    }
    forall r | 0 <= r < |s.closes| ensures s.closes[r] + s.toClose[r] <= 1 {
      assert Counted(s, r);
    }
  }

  /** Nothing is left to do for anyone. */
  ghost predicate Quiet(s: State) {
    s.live == map[] && s.pending == multiset{} && s.toClose == multiset{}
  }

  /** In every run, once the store is closed, all handles are given up and all that was pending is done, every
      generation ever offered to the store has been closed exactly once. */
  lemma AllClosedOnce(run: seq<State>, i: nat)
    requires Run(run) && i < |run| && run[i].closed && Quiet(run[i])
    ensures forall r | 0 <= r < |run[i].closes| :: run[i].closes[r] == 1
  {
    RunInv(run, i);
    var s := run[i];
    forall r | 0 <= r < |s.closes| ensures s.closes[r] == 1 {
      assert Counted(s, r);
      assert HandlesOn(s.live, r) == {};
    }
  }

  /** How far the store is from being quiet. */
  ghost function Work(s: State): nat {
    3 * |s.live| + 2 * |s.pending| + |s.toClose|
  }

  lemma ReleaseDrains(s: State, r: nat) returns (s': State)
    requires Inv(s) && r in s.pending
    ensures Released(s, s', r) && Work(s') < Work(s) && SameStore(s, s')
  {
    NeverBelowZero(s, r);
    hide Inv;
    s' := s.(pending := s.pending - multiset{r}, refs := s.refs[r := s.refs[r] - 1],
             toClose := s.toClose + if s.refs[r] == 1 then multiset{r} else multiset{});
  }

  lemma CloseDrains(s: State, r: nat) returns (s': State)
    requires r < |s.closes| && r in s.toClose
    ensures PoolClosed(s, s', r) && Work(s') < Work(s) && SameStore(s, s')
  {
    s' := s.(toClose := s.toClose - multiset{r}, closes := s.closes[r := s.closes[r] + 1]);
  }

  lemma HandleDrains(s: State, h: nat) returns (s': State)
    requires h in s.live
    ensures GivenUp(s, s', h) && Work(s') < Work(s) && SameStore(s, s')
  {
    s' := s.(live := s.live - {h}, pending := s.pending + multiset{s.live[h]});
    assert s'.live.Keys == s.live.Keys - {h};
    assert |s'.live| == |s'.live.Keys| && |s.live| == |s.live.Keys|;
  }

  ghost predicate SameStore(s: State, s': State) {
    s'.closed == s.closed && s'.current == s.current && s'.rollback == s.rollback && |s'.refs| == |s.refs|
  }

  /** Readers giving up, releases and closings can always go on until the store is quiet, and they get there. */
  lemma Drains(s: State) returns (s': State)
    requires Inv(s) && !Quiet(s)
    ensures Step(s, s') && Inv(s') && Work(s') < Work(s) && SameStore(s, s')
  {
    hide Inv, Released, PoolClosed, GivenUp, Work, SameStore;
    if s.pending != multiset{} {
      var r :| r in s.pending;
      s' := ReleaseDrains(s, r);
    } else if s.toClose != multiset{} {
      var r :| r in s.toClose;
      InRange(s, r);
      s' := CloseDrains(s, r);
    } else {
      assert s.live.Keys != {};
      var h :| h in s.live;
      s' := HandleDrains(s, h);
    }
    StepInv(s, s');
  }

  lemma InRange(s: State, r: nat)
    requires Inv(s) && r in s.toClose
    ensures r < |s.closes|
  {}
}
