/** The pool of graph handles (cmd/pensiero/pool.go): channel operations and critical sections are single steps, and
    the steps of different queries and of Close interleave freely. */
module HandlePool {

  /** Where a query is. From Running until it has left the wait group it is counted there. */
  datatype Phase =
    | Waiting
    | Borrowed(handle: nat)
    | Rejected(handle: nat)
    | Running(handle: nat)
    | Ran(handle: nat)
    | Returned
    | Finished
  {
    predicate Holds() { Borrowed? || Rejected? || Running? || Ran? }
    predicate Counted() { Running? || Ran? || Returned? }
  }

  /** Where Close is. */
  datatype Closer = Idle | Draining | Closing | Gone

  datatype State = State(size: nat, available: seq<nat>, queries: map<nat, Phase>, group: nat,
                         closed: bool, closer: Closer, shut: seq<nat>, panicked: bool)

  ghost predicate Init(s: State) {
    && |s.available| == s.size && (forall i | 0 <= i < s.size :: s.available[i] == i)
    && s == State(s.size, s.available, map[], 0, false, Idle, [], false)
  }

  // ------------------------------------------------------------------ the steps of a query

  ghost predicate At(s: State, q: nat, p: Phase) {
    q in s.queries && s.queries[q] == p
  }

  function Moved(s: State, q: nat, p: Phase): State {
    s.(queries := s.queries[q := p])
  }

  /** A query arrives; once the pool is closing it fails at once. */
  ghost predicate Arrives(s: State, s': State, q: nat) {
    q !in s.queries && s' == Moved(s, q, if s.closed then Finished else Waiting)
  }

  /** A waiting query takes the handle that has been idle longest. */
  ghost predicate Takes(s: State, s': State, q: nat) {
    At(s, q, Waiting) && s.available != [] && s' == Moved(s, q, Borrowed(s.available[0])).(available := s.available[1..])
  }

  /** A waiting query is cancelled, or sees that the pool is closing. */
  ghost predicate GivesUp(s: State, s': State, q: nat) {
    At(s, q, Waiting) && s' == Moved(s, q, Finished)
  }

  /** Under the lock: the query joins the wait group, unless the pool was closed meanwhile. */
  ghost predicate Enters(s: State, s': State, q: nat) {
    && q in s.queries && s.queries[q].Borrowed?
    && s' == if s.closed then Moved(s, q, Rejected(s.queries[q].handle))
             else Moved(s, q, Running(s.queries[q].handle)).(group := s.group + 1)
  }

  ghost predicate Answers(s: State, s': State, q: nat) {
    q in s.queries && s.queries[q].Running? && s' == Moved(s, q, Ran(s.queries[q].handle))
  }

  /** The handle goes back, which panics if the channel is full. */
  ghost predicate GivesBack(s: State, s': State, q: nat) {
    && q in s.queries && (s.queries[q].Ran? || s.queries[q].Rejected?)
    && var next := Moved(s, q, if s.queries[q].Ran? then Returned else Finished);
       s' == if |s.available| < s.size then next.(available := s.available + [s.queries[q].handle]) else next.(panicked := true)
  }

  ghost predicate Leaves(s: State, s': State, q: nat) {
    At(s, q, Returned) && s.group > 0 && s' == Moved(s, q, Finished).(group := s.group - 1)
  }

  // ------------------------------------------------------------------ the steps of Close

  ghost predicate CloseBegins(s: State, s': State) {
    s.closer == Idle && s' == s.(closed := true, closer := Draining)
  }

  ghost predicate CloseDrained(s: State, s': State) {
    s.closer == Draining && s.group == 0 && s' == s.(closer := Closing)
  }

  ghost predicate ClosesHandle(s: State, s': State) {
    s.closer == Closing && |s.shut| < s.size && s' == s.(shut := s.shut + [|s.shut|])
  }

  ghost predicate CloseEnds(s: State, s': State) {
    s.closer == Closing && |s.shut| == s.size && s' == s.(closer := Gone)
  }

  ghost predicate QueryStep(s: State, s': State, q: nat) {
    || Arrives(s, s', q) || Takes(s, s', q) || GivesUp(s, s', q) || Enters(s, s', q)
    || Answers(s, s', q) || GivesBack(s, s', q) || Leaves(s, s', q)
  }

  ghost predicate CloseStep(s: State, s': State) {
    CloseBegins(s, s') || CloseDrained(s, s') || ClosesHandle(s, s') || CloseEnds(s, s')
  }

  ghost predicate Step(s: State, s': State) {
    (exists q :: QueryStep(s, s', q)) || CloseStep(s, s')
  }

  ghost predicate Run(run: seq<State>) {
    run != [] && Init(run[0]) && forall i | 0 < i < |run| :: Step(run[i - 1], run[i])
  }

  // ------------------------------------------------------------------ the invariant

  ghost function Holding(queries: map<nat, Phase>): set<nat> {
    set q | q in queries && queries[q].Holds()
  }

  ghost function InGroup(queries: map<nat, Phase>): set<nat> {
    set q | q in queries && queries[q].Counted()
  }

  ghost predicate IdleOnce(available: seq<nat>, size: nat) {
    && (forall i, j | 0 <= i < j < |available| :: available[i] != available[j])
    && (forall h | h in available :: h < size)
  }

  ghost predicate HeldOnce(queries: map<nat, Phase>) {
    forall q, r | q in queries && r in queries && queries[q].Holds() && queries[r].Holds() && q != r ::
      queries[q].handle != queries[r].handle
  }

  ghost predicate HeldNotIdle(queries: map<nat, Phase>, available: seq<nat>, size: nat) {
    forall q | q in queries && queries[q].Holds() :: queries[q].handle < size && queries[q].handle !in available
  }

  /** Every handle is idle or with one query, and never both. */
  ghost predicate Owned(s: State) {
    IdleOnce(s.available, s.size) && HeldOnce(s.queries) && HeldNotIdle(s.queries, s.available, s.size)
  }

  ghost predicate Closes(s: State) {
    && (s.closed <==> s.closer != Idle)
    && (s.closer in {Closing, Gone} ==> s.group == 0)
    && (s.closer in {Idle, Draining} ==> s.shut == [])
    && |s.shut| <= s.size && (s.closer == Gone ==> |s.shut| == s.size)
    && (forall i | 0 <= i < |s.shut| :: s.shut[i] == i)
  }

  ghost predicate Inv(s: State) {
    && Owned(s) && Closes(s) && !s.panicked
    && |s.available| + |Holding(s.queries)| == s.size
    && s.group == |InGroup(s.queries)|
  }

  lemma InitInv(s: State)
    requires Init(s)
    ensures Inv(s)
  {
    assert Holding(s.queries) == {} && InGroup(s.queries) == {};
  }

  /** Sets that agree on everything but q. */
  lemma CardUpdate(A: set<nat>, B: set<nat>, q: nat)
    requires forall r | r != q :: r in A <==> r in B
    ensures |B| == |A| - (if q in A then 1 else 0) + (if q in B then 1 else 0)
  {
    assert A - {q} == B - {q};
    assert |A - {q}| == |A| - if q in A then 1 else 0;
    assert |B - {q}| == |B| - if q in B then 1 else 0;
  }

  lemma SetsMoved(queries: map<nat, Phase>, q: nat, p: Phase)
    ensures |Holding(queries[q := p])| == |Holding(queries)| - (if q in queries && queries[q].Holds() then 1 else 0) + (if p.Holds() then 1 else 0)
    ensures |InGroup(queries[q := p])| == |InGroup(queries)| - (if q in queries && queries[q].Counted() then 1 else 0) + (if p.Counted() then 1 else 0)
  {
    CardUpdate(Holding(queries), Holding(queries[q := p]), q);
    CardUpdate(InGroup(queries), InGroup(queries[q := p]), q);
  }

  lemma InSets(queries: map<nat, Phase>, q: nat)
    ensures q in Holding(queries) <==> q in queries && queries[q].Holds()
    ensures q in InGroup(queries) <==> q in queries && queries[q].Counted()
    ensures q in Holding(queries) ==> |Holding(queries)| > 0
    ensures q in InGroup(queries) ==> |InGroup(queries)| > 0
  {}

  /** A query that goes on with the handle it has, or none, keeps who owns what. */
  lemma MovesOn(s: State, s': State, q: nat, p: Phase)
    requires Inv(s) && s' == Moved(s, q, p).(group := s'.group)
    requires (q in s.queries && s.queries[q].Holds()) == p.Holds()
    requires p.Holds() ==> p.handle == s.queries[q].handle
    requires s'.group == s.group - (if q in s.queries && s.queries[q].Counted() then 1 else 0) + (if p.Counted() then 1 else 0)
    requires p.Counted() && !(q in s.queries && s.queries[q].Counted()) ==> !s.closed
    ensures Inv(s')
  {
    hide Holding, InGroup, IdleOnce;
    InSets(s.queries, q);
    SetsMoved(s.queries, q, p);
  }

  lemma TakesInv(s: State, s': State, q: nat)
    requires Inv(s) && Takes(s, s', q)
    ensures Inv(s')
  {
    hide Holding, InGroup;
    InSets(s.queries, q);
    SetsMoved(s.queries, q, Borrowed(s.available[0]));
    TailIdle(s.available, s.size);
  }

  lemma TailIdle(available: seq<nat>, size: nat)
    requires IdleOnce(available, size) && available != []
    ensures IdleOnce(available[1..], size) && available[0] < size && available[0] !in available[1..]
    ensures forall h :: h in available[1..] ==> h in available
  {
    assert available[0] in available && available == [available[0]] + available[1..];
    forall h | h in available[1..] ensures h < size {
      assert h in available;
    }
  }

  lemma GivesBackInv(s: State, s': State, q: nat)
    requires Inv(s) && GivesBack(s, s', q)
    ensures Inv(s') && !s'.panicked
  {
    hide Holding, InGroup;
    var p := if s.queries[q].Ran? then Returned else Finished;
    InSets(s.queries, q);
    SetsMoved(s.queries, q, p);
  }

  lemma QueryInv(s: State, s': State, q: nat)
    requires Inv(s) && QueryStep(s, s', q)
    ensures Inv(s')
  {
    if Takes(s, s', q) {
      TakesInv(s, s', q);
    } else if GivesBack(s, s', q) {
      GivesBackInv(s, s', q);
    } else {
      MovesOn(s, s', q, s'.queries[q]);
    }
  }

  lemma CloseInv(s: State, s': State)
    requires Inv(s) && CloseStep(s, s')
    ensures Inv(s')
  {}

  lemma StepInv(s: State, s': State)
    requires Inv(s) && Step(s, s')
    ensures Inv(s')
  {
    hide Inv, QueryStep, CloseStep;
    if CloseStep(s, s') {
      CloseInv(s, s');
    } else {
      var q :| QueryStep(s, s', q);
      QueryInv(s, s', q);
    }
  }

  lemma {:induction false} RunInv(run: seq<State>, i: nat)
    requires Run(run) && i < |run|
    ensures Inv(run[i])
    decreases i
  {
    hide Inv, Step;
    if i == 0 {
      InitInv(run[0]);
    } else {
      RunInv(run, i - 1);
      StepInv(run[i - 1], run[i]);
    }
  }

  // ------------------------------------------------------------------ what every interleaving keeps

  /** In every run: idle and borrowed handles together are all the handles, so giving one back never panics; no two
      queries run on the same handle; and no query runs on a handle that Close has closed, or once it closes any. */
  lemma SafeThroughout(run: seq<State>, i: nat)
    requires Run(run) && i < |run|
    ensures !run[i].panicked && |run[i].available| + |Holding(run[i].queries)| == run[i].size
    ensures forall q, r | q in run[i].queries && r in run[i].queries && q != r && run[i].queries[q].Running? && run[i].queries[r].Running? ::
              run[i].queries[q].handle != run[i].queries[r].handle
    ensures (exists q :: q in run[i].queries && run[i].queries[q].Running?) ==> run[i].shut == []
    ensures forall j, k | 0 <= j < k < |run[i].shut| :: run[i].shut[j] != run[i].shut[k]
  {
    RunInv(run, i);
    var s := run[i];
    if q :| q in s.queries && s.queries[q].Running? {
      assert q in InGroup(s.queries);
    }
  }

  /** In every run: when Close is through, every handle has been closed exactly once, and no query is left running. */
  lemma ClosedForGood(run: seq<State>, i: nat)
    requires Run(run) && i < |run| && run[i].closer == Gone
    ensures |run[i].shut| == run[i].size && forall h | 0 <= h < run[i].size :: run[i].shut[h] == h
    ensures forall q | q in run[i].queries :: !run[i].queries[q].Counted()
  {
    RunInv(run, i);
    forall q | q in run[i].queries ensures !run[i].queries[q].Counted() {
      InSets(run[i].queries, q);
    }
  }

  // ------------------------------------------------------------------ nobody is stuck

  function Rank(p: Phase): nat {
    match p
    case Waiting => 5
    case Borrowed(_) => 4
    case Running(_) => 3
    case Ran(_) => 2
    case Rejected(_) => 1
    case Returned => 1
    case Finished => 0
  }

  ghost predicate Busy(s: State) {
    exists q :: q in s.queries && s.queries[q] != Finished
  }

  lemma SomeHolder(s: State) returns (q: nat)
    requires Inv(s) && s.size > 0 && s.available == []
    ensures q in s.queries && s.queries[q].Holds()
  {
    assert Holding(s.queries) != {};
    q :| q in Holding(s.queries);
  }

  /** While some query is not finished, some query can go on, whether or not the pool is closing. */
  lemma SomeoneGoesOn(s: State) returns (q: nat, s': State)
    requires Inv(s) && s.size > 0 && Busy(s)
    ensures q in s.queries && QueryStep(s, s', q)
    ensures q in s'.queries && s'.queries == s.queries[q := s'.queries[q]] && Rank(s'.queries[q]) < Rank(s.queries[q])
    ensures !s'.panicked && s'.closer == s.closer && s'.closed == s.closed
  {
    q :| q in s.queries && s.queries[q] != Finished;
    if s.queries[q] == Waiting && s.available == [] {
      q := SomeHolder(s);
    }
    InSets(s.queries, q);
    hide Holding, InGroup, IdleOnce, HeldOnce, HeldNotIdle;
    match s.queries[q]
    case Waiting =>
      s' := Moved(s, q, Borrowed(s.available[0])).(available := s.available[1..]);
      assert Takes(s, s', q);
    case Borrowed(h) =>
      s' := if s.closed then Moved(s, q, Rejected(h)) else Moved(s, q, Running(h)).(group := s.group + 1);
      assert Enters(s, s', q);
    case Running(h) =>
      s' := Moved(s, q, Ran(h));
      assert Answers(s, s', q);
    case Ran(h) =>
      s' := Moved(s, q, Returned).(available := s.available + [h]);
      assert GivesBack(s, s', q);
    case Rejected(h) =>
      s' := Moved(s, q, Finished).(available := s.available + [h]);
      assert GivesBack(s, s', q);
    case Returned =>
      s' := Moved(s, q, Finished).(group := s.group - 1);
      assert Leaves(s, s', q);
  }

  /** And once all are finished, Close can go on to its end. */
  lemma CloseGoesOn(s: State) returns (s': State)
    requires Inv(s) && s.closed && !Busy(s) && s.closer != Gone
    ensures CloseStep(s, s')
    ensures s'.closer == Gone || |s'.shut| > |s.shut| || (s.closer == Draining && s'.closer == Closing)
  {
    assert InGroup(s.queries) == {};
    if s.closer == Draining {
      s' := s.(closer := Closing);
    } else if |s.shut| < s.size {
      s' := s.(shut := s.shut + [|s.shut|]);
    } else {
      s' := s.(closer := Gone);
    }
  }
}
