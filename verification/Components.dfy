/** Strongly connected components of the stored taxonomy (pkg/generalization/queries.go, `components`). */
module Components {
  import opened Graphs

  /** An entity of the hierarchy, identified by its reference key. */
  datatype Key = Key(id: string)

  type Edges = set<(Key, Key)>
  type Numbers = map<Key, int>

  /** The child-to-parent edges that the search follows: parents that are no node are skipped. */
  ghost function EdgesOf(nodes: set<Key>, childParents: map<Key, seq<Key>>): Edges {
    set c, p | c in nodes && p in nodes && c in childParents && p in childParents[c] :: (c, p)
  }

  /** The parents of a node in the order the search visits them. */
  function ParentsOf(childParents: map<Key, seq<Key>>, node: Key): seq<Key> {
    if node in childParents then childParents[node] else []
  }

  lemma ParentEdges(nodes: set<Key>, childParents: map<Key, seq<Key>>, node: Key)
    requires node in nodes
    ensures forall w :: (node, w) in EdgesOf(nodes, childParents) <==> w in nodes && w in ParentsOf(childParents, node)
  {}

  /** What the whole computation promises: one number per node, equal numbers exactly for
      mutually reachable nodes, and edges never going from a lower to a higher number. */
  ghost predicate IsCondensation(nodes: set<Key>, E: Edges, components: Numbers) {
    && components.Keys == nodes
    && (forall v | v in components :: 0 <= components[v])
    && Finished(E, components)
  }

  /** The finished components are complete, and no edge leaves them for unfinished ground. */
  ghost predicate Finished(E: Edges, components: Numbers) {
    && (forall v, w | (v, w) in E && v in components :: w in components && components[w] <= components[v])
    && (forall v, w | v in components && w in components :: components[v] == components[w] <==> Mutual(E, v, w))
  }

  /** The variables the recursive search shares. */
  datatype Dfs = Dfs(index: int, component: int, stack: seq<Key>, indexes: Numbers,
                     lowlink: Numbers, onStack: set<Key>, components: Numbers)

  // ------------------------------------------------------------------ what holds throughout the search

  /** The stack holds exactly the nodes flagged as being on it, in the order they were numbered. */
  ghost predicate StackShape(stack: seq<Key>, onStack: set<Key>, indexes: Numbers) {
    && (forall i | 0 <= i < |stack| :: stack[i] in onStack && stack[i] in indexes)
    && (forall v | v in onStack :: v in stack)
    && (forall i, j | 0 <= i < j < |stack| :: indexes[stack[i]] < indexes[stack[j]])
  }

  ghost predicate Shape(nodes: set<Key>, s: Dfs) {
    && 0 <= s.index && 0 <= s.component
    && s.indexes.Keys <= nodes
    && s.lowlink.Keys == s.indexes.Keys
    && s.indexes.Keys == s.components.Keys + s.onStack
    && s.components.Keys !! s.onStack
    && (forall v | v in s.indexes :: 0 <= s.indexes[v] < s.index)
    && (forall v | v in s.components :: 0 <= s.components[v] < s.component)
  }

  /** A visited node that is no longer being explored has only visited parents. */
  ghost predicate Explored(E: Edges, indexes: Numbers, gray: set<Key>) {
    forall v, w | (v, w) in E && v in indexes && v !in gray :: w in indexes
  }

  /** An older node on the stack reaches every younger one. */
  ghost predicate StackReach(E: Edges, onStack: set<Key>, indexes: Numbers) {
    forall v, w | v in onStack && w in onStack && v in indexes && w in indexes && indexes[v] <= indexes[w] ::
      Reach(E, v, w)
  }

  ghost predicate ReachesOlder(E: Edges, indexes: Numbers, v: Key, g: Key) {
    v in indexes && g in indexes && indexes[g] <= indexes[v] && Reach(E, v, g)
  }

  ghost predicate HasOlderGray(E: Edges, indexes: Numbers, gray: set<Key>, v: Key) {
    exists g :: g in gray && ReachesOlder(E, indexes, v, g)
  }

  /** Every node on the stack reaches an older node that is still being explored. */
  ghost predicate GrayBelow(E: Edges, onStack: set<Key>, indexes: Numbers, gray: set<Key>) {
    && gray <= onStack
    && (forall v {:trigger HasOlderGray(E, indexes, gray, v)} :: v in onStack ==> HasOlderGray(E, indexes, gray, v))
  }

  ghost predicate Inv(nodes: set<Key>, E: Edges, s: Dfs, gray: set<Key>) {
    && StackShape(s.stack, s.onStack, s.indexes)
    && Shape(nodes, s)
    && Explored(E, s.indexes, gray)
    && Finished(E, s.components)
    && StackReach(E, s.onStack, s.indexes)
    && GrayBelow(E, s.onStack, s.indexes, gray)
  }

  // ------------------------------------------------------------------ what a call leaves behind

  ghost predicate Keeps(a: Numbers, b: Numbers) {
    forall v | v in a :: v in b && b[v] == a[v]
  }

  /** t continues s: the stack only grew, numbers and finished components stay. */
  ghost predicate Continues(s: Dfs, t: Dfs) {
    && s.onStack <= t.onStack
    && s.index <= t.index
    && Keeps(s.indexes, t.indexes)
    && Keeps(s.components, t.components)
    && (forall v | v in t.indexes && v !in s.indexes :: s.index <= t.indexes[v])
  }

  ghost predicate Extends(s: Dfs, t: Dfs) {
    Continues(s, t) && Keeps(s.lowlink, t.lowlink) && s.stack <= t.stack
  }

  /** No edge that leaves what was pushed onto the stack below enters below beneath low. */
  ghost predicate EdgesAbove(E: Edges, below: set<Key>, onStack: set<Key>, indexes: Numbers, low: int) {
    forall v, w | (v, w) in E && v in onStack && v !in below && w in below && w in indexes :: low <= indexes[w]
  }

  /** low is the number of a node of S that node reaches. */
  ghost predicate LowReached(E: Edges, S: set<Key>, indexes: Numbers, node: Key, low: int) {
    exists y :: y in S && y in indexes && indexes[y] == low && Reach(E, node, y)
  }

  /** What a call of the search on node, made in s, leaves behind in t. */
  ghost predicate Explores(E: Edges, s: Dfs, t: Dfs, node: Key) {
    && Extends(s, t)
    && node in t.indexes && s.index <= t.indexes[node] && node in t.lowlink
    && (node in t.components ==> t.onStack == s.onStack && t.lowlink[node] == t.indexes[node])
    && (node !in t.components ==> LowReached(E, s.onStack, t.indexes, node, t.lowlink[node]))
    && EdgesAbove(E, s.onStack, t.onStack, t.indexes, t.lowlink[node])
  }

  // ------------------------------------------------------------------ while a node is being explored

  /** t is s once node has been given the next number and pushed. */
  function Push(s: Dfs, node: Key): Dfs {
    Dfs(s.index + 1, s.component, s.stack + [node], s.indexes[node := s.index],
        s.lowlink[node := s.index], s.onStack + {node}, s.components)
  }

  /** below is what lay on the stack when node was pushed. */
  ghost predicate Splits(below: set<Key>, onStack: set<Key>, indexes: Numbers, node: Key) {
    && node in onStack && node in indexes && node !in below && below <= onStack
    && (forall v | v in onStack && v in indexes :: v in below <==> indexes[v] < indexes[node])
  }

  /** As far as its first k parents go, node's low is right. */
  ghost predicate LowSoFar(nodes: set<Key>, E: Edges, below: set<Key>, onStack: set<Key>, indexes: Numbers,
                           node: Key, parents: seq<Key>, k: nat, low: int)
  {
    && node in indexes && low <= indexes[node] && k <= |parents|
    && LowReached(E, below + {node}, indexes, node, low)
    && EdgesAbove(E, below + {node}, onStack, indexes, low)
    && (forall j | 0 <= j < k && parents[j] in nodes ::
          parents[j] in indexes && (parents[j] in below ==> low <= indexes[parents[j]]))
  }

  /** The search on node, started in s, has dealt with the first k of its parents and is now in t. */
  ghost predicate Exploring(nodes: set<Key>, E: Edges, s: Dfs, t: Dfs, gray: set<Key>, node: Key,
                            parents: seq<Key>, k: nat)
  {
    && Inv(nodes, E, t, gray + {node})
    && Continues(Push(s, node), t) && Keeps(s.lowlink, t.lowlink) && s.stack + [node] <= t.stack
    && node in t.lowlink && node in t.indexes
    && Splits(s.onStack, t.onStack, t.indexes, node)
    && LowSoFar(nodes, E, s.onStack, t.onStack, t.indexes, node, parents, k, t.lowlink[node])
  }

  /** What the search may assume when it is started on node. */
  ghost predicate CanExplore(nodes: set<Key>, E: Edges, s: Dfs, gray: set<Key>, node: Key) {
    && Inv(nodes, E, s, gray)
    && node in nodes && node !in s.indexes
    && (forall g | g in gray :: Reach(E, g, node))
  }

  /** s with another low for node. */
  function SetLow(s: Dfs, node: Key, low: int): Dfs {
    Dfs(s.index, s.component, s.stack, s.indexes, s.lowlink[node := low], s.onStack, s.components)
  }

  lemma SetLowSame(s: Dfs, node: Key)
    requires node in s.lowlink
    ensures SetLow(s, node, s.lowlink[node]) == s
  {
    assert s.lowlink[node := s.lowlink[node]] == s.lowlink;
  }

  function Min(a: int, b: int): int {
    if b < a then b else a
  }

  // ------------------------------------------------------------------ starting on a node

  lemma PushKeepsStack(s: Dfs, node: Key)
    requires StackShape(s.stack, s.onStack, s.indexes) && node !in s.indexes
    requires forall v | v in s.indexes :: s.indexes[v] < s.index
    ensures var t := Push(s, node); StackShape(t.stack, t.onStack, t.indexes)
  {
    var t := Push(s, node);
    assert t.stack[|s.stack|] == node;
    forall v | v in s.onStack ensures v in t.stack {
      var i :| 0 <= i < |s.stack| && s.stack[i] == v;
      assert t.stack[i] == v;
    }
  }

  lemma PushKeepsReach(E: Edges, s: Dfs, gray: set<Key>, node: Key)
    requires StackReach(E, s.onStack, s.indexes) && GrayBelow(E, s.onStack, s.indexes, gray) && node !in s.indexes
    requires forall v | v in s.onStack :: v in s.indexes && s.indexes[v] < s.index
    requires forall g | g in gray :: Reach(E, g, node)
    ensures var t := Push(s, node);
            StackReach(E, t.onStack, t.indexes) && GrayBelow(E, t.onStack, t.indexes, gray + {node})
  {
    var t := Push(s, node);
    ReachSelf(E, node);
    forall v | v in s.onStack
      ensures Reach(E, v, node) && HasOlderGray(E, t.indexes, gray + {node}, v)
    {
      assert HasOlderGray(E, s.indexes, gray, v);
      var g :| g in gray && ReachesOlder(E, s.indexes, v, g);
      ReachTrans(E, v, g, node);
      assert ReachesOlder(E, t.indexes, v, g);
    }
    assert ReachesOlder(E, t.indexes, node, node);
  }

  lemma PushKeepsInv(nodes: set<Key>, E: Edges, s: Dfs, gray: set<Key>, node: Key)
    requires CanExplore(nodes, E, s, gray, node)
    ensures Inv(nodes, E, Push(s, node), gray + {node})
  {
    hide StackReach, GrayBelow, StackShape, Finished;
    PushKeepsStack(s, node);
    PushKeepsReach(E, s, gray, node);
  }

  lemma StartExploring(nodes: set<Key>, E: Edges, s: Dfs, gray: set<Key>, node: Key, parents: seq<Key>)
    requires CanExplore(nodes, E, s, gray, node)
    ensures Exploring(nodes, E, s, Push(s, node), gray, node, parents, 0)
  {
    hide StackReach, GrayBelow, StackShape, Finished, Explored, Reach;
    PushKeepsInv(nodes, E, s, gray, node);
    ReachSelf(E, node);
    assert LowReached(E, s.onStack + {node}, Push(s, node).indexes, node, s.index) by {
      assert node in s.onStack + {node} && Push(s, node).indexes[node] == s.index;
    }
    assert Shape(nodes, s);
  }

  // ------------------------------------------------------------------ one parent

  lemma ContinuesTrans(s: Dfs, t: Dfs, u: Dfs)
    requires Continues(s, t) && Continues(t, u)
    ensures Continues(s, u)
  {}

  lemma ExploringNode(nodes: set<Key>, E: Edges, s: Dfs, t: Dfs, gray: set<Key>, node: Key, parents: seq<Key>, k: nat)
    requires Exploring(nodes, E, s, t, gray, node, parents, k)
    ensures node in t.lowlink && node in t.indexes && t.indexes.Keys <= nodes
  {}

  /** The search may go on to a parent it has not seen. */
  lemma GoDeeper(nodes: set<Key>, E: Edges, s: Dfs, t: Dfs, gray: set<Key>, node: Key, parents: seq<Key>, k: nat)
    requires CanExplore(nodes, E, s, gray, node) && Exploring(nodes, E, s, t, gray, node, parents, k)
    requires k < |parents| && parents[k] in nodes && parents[k] !in t.indexes && (node, parents[k]) in E
    ensures CanExplore(nodes, E, t, gray + {node}, parents[k])
    ensures nodes - t.indexes.Keys < nodes - s.indexes.Keys
  {
    hide Inv, LowSoFar, Splits;
    ReachEdge(E, node, parents[k]);
    forall g | g in gray ensures Reach(E, g, parents[k]) {
      ReachTrans(E, g, node, parents[k]);
    }
    assert node in (nodes - s.indexes.Keys) - (nodes - t.indexes.Keys);
  }

  /** The low of node once the search has come back from a parent it had not seen before. */
  lemma TreeEdge(nodes: set<Key>, E: Edges, below: set<Key>, s: Dfs, t: Dfs, node: Key, parents: seq<Key>, k: nat, low: int)
    requires Splits(below, s.onStack, s.indexes, node) && Splits(below, t.onStack, t.indexes, node)
    requires forall v | v in s.indexes :: s.indexes[v] < s.index
    requires LowSoFar(nodes, E, below, s.onStack, s.indexes, node, parents, k, low)
    requires k < |parents| && (node, parents[k]) in E && parents[k] !in s.indexes && Explores(E, s, t, parents[k])
    requires below <= s.indexes.Keys
    ensures LowSoFar(nodes, E, below, t.onStack, t.indexes, node, parents, k + 1, Min(low, t.lowlink[parents[k]]))
  {
    var parent := parents[k];
    var p := t.lowlink[parent];
    if p < low {
      var y :| y in s.onStack && y in t.indexes && t.indexes[y] == p && Reach(E, parent, y);
      ReachEdge(E, node, parent);
      ReachTrans(E, node, parent, y);
      assert y in below + {node};
    } else {
      var y :| y in below + {node} && y in s.indexes && s.indexes[y] == low && Reach(E, node, y);
      assert t.indexes[y] == low;
    }
  }

  lemma SplitsKept(below: set<Key>, s: Dfs, t: Dfs, node: Key)
    requires Splits(below, s.onStack, s.indexes, node) && Continues(s, t)
    requires forall v | v in s.indexes :: s.indexes[v] < s.index
    requires below <= s.indexes.Keys && t.components.Keys !! t.onStack
    requires s.indexes.Keys == s.components.Keys + s.onStack
    ensures Splits(below, t.onStack, t.indexes, node)
  {
    forall v | v in t.onStack && v in t.indexes ensures v in below <==> t.indexes[v] < t.indexes[node] {
      if v in s.indexes {
        assert v !in t.components;
        assert v !in s.components;
      }
    }
  }

  lemma SetLowKeepsInv(nodes: set<Key>, E: Edges, s: Dfs, gray: set<Key>, node: Key, low: int)
    requires Inv(nodes, E, s, gray) && node in s.lowlink
    ensures Inv(nodes, E, SetLow(s, node, low), gray)
  {
    hide StackShape, Explored, Finished, StackReach, GrayBelow;
  }

  lemma CameBackLow(nodes: set<Key>, E: Edges, s: Dfs, t: Dfs, u: Dfs, gray: set<Key>, node: Key, parents: seq<Key>, k: nat)
    requires Exploring(nodes, E, s, t, gray, node, parents, k) && Shape(nodes, s)
    requires k < |parents| && parents[k] !in t.indexes && (node, parents[k]) in E
    requires Shape(nodes, u) && Explores(E, t, u, parents[k])
    ensures Splits(s.onStack, u.onStack, u.indexes, node)
    ensures node in u.lowlink && u.lowlink[node] == t.lowlink[node]
    ensures LowSoFar(nodes, E, s.onStack, u.onStack, u.indexes, node, parents, k + 1,
                     Min(u.lowlink[node], u.lowlink[parents[k]]))
  {
    hide StackShape, Explored, Finished, StackReach, GrayBelow, LowSoFar, EdgesAbove, LowReached;
    assert s.onStack <= t.indexes.Keys;
    SplitsKept(s.onStack, t, u, node);
    TreeEdge(nodes, E, s.onStack, t, u, node, parents, k, t.lowlink[node]);
  }

  /** The search came back from the parent it went to. */
  lemma CameBack(nodes: set<Key>, E: Edges, s: Dfs, t: Dfs, u: Dfs, gray: set<Key>, node: Key, parents: seq<Key>, k: nat)
    requires CanExplore(nodes, E, s, gray, node) && Exploring(nodes, E, s, t, gray, node, parents, k)
    requires k < |parents| && parents[k] in nodes && parents[k] !in t.indexes && (node, parents[k]) in E
    requires Inv(nodes, E, u, gray + {node}) && Explores(E, t, u, parents[k])
    ensures node in u.lowlink && parents[k] in u.lowlink
    ensures Exploring(nodes, E, s, SetLow(u, node, Min(u.lowlink[node], u.lowlink[parents[k]])), gray, node, parents, k + 1)
  {
    hide StackShape, Explored, Finished, StackReach, GrayBelow, LowSoFar, EdgesAbove, LowReached, Splits;
    CameBackLow(nodes, E, s, t, u, gray, node, parents, k);
    SetLowKeepsInv(nodes, E, u, gray + {node}, node, Min(u.lowlink[node], u.lowlink[parents[k]]));
    ContinuesTrans(Push(s, node), t, u);
  }

  /** The low of node after meeting a parent that was already seen and is still on the stack. */
  lemma SeenEdge(nodes: set<Key>, E: Edges, below: set<Key>, onStack: set<Key>, indexes: Numbers, node: Key,
                 parents: seq<Key>, k: nat, low: int)
    requires Splits(below, onStack, indexes, node) && LowSoFar(nodes, E, below, onStack, indexes, node, parents, k, low)
    requires k < |parents| && (node, parents[k]) in E && parents[k] in indexes
    ensures parents[k] in onStack ==>
              LowSoFar(nodes, E, below, onStack, indexes, node, parents, k + 1, Min(low, indexes[parents[k]]))
    ensures parents[k] !in onStack ==> LowSoFar(nodes, E, below, onStack, indexes, node, parents, k + 1, low)
  {
    var parent := parents[k];
    if parent in onStack && indexes[parent] < low {
      ReachEdge(E, node, parent);
      assert parent in below + {node};
    }
  }

  lemma AlreadySeen(nodes: set<Key>, E: Edges, s: Dfs, t: Dfs, gray: set<Key>, node: Key, parents: seq<Key>, k: nat)
    requires CanExplore(nodes, E, s, gray, node) && Exploring(nodes, E, s, t, gray, node, parents, k)
    requires k < |parents| && parents[k] in t.indexes && (node, parents[k]) in E
    ensures parents[k] in t.onStack ==>
              Exploring(nodes, E, s, SetLow(t, node, Min(t.lowlink[node], t.indexes[parents[k]])), gray, node, parents, k + 1)
    ensures parents[k] !in t.onStack ==> Exploring(nodes, E, s, t, gray, node, parents, k + 1)
  {
    hide StackShape, Explored, Finished, StackReach, GrayBelow, LowSoFar, Splits;
    SeenEdge(nodes, E, s.onStack, t.onStack, t.indexes, node, parents, k, t.lowlink[node]);
    SetLowKeepsInv(nodes, E, t, gray + {node}, node, Min(t.lowlink[node], t.indexes[parents[k]]));
  }

  lemma NotANode(nodes: set<Key>, E: Edges, s: Dfs, t: Dfs, gray: set<Key>, node: Key, parents: seq<Key>, k: nat)
    requires Exploring(nodes, E, s, t, gray, node, parents, k)
    requires k < |parents| && parents[k] !in nodes
    ensures Exploring(nodes, E, s, t, gray, node, parents, k + 1)
  {
    hide Inv, Continues, Splits, EdgesAbove, LowReached;
  }

  // ------------------------------------------------------------------ node is done, but reaches an older node

  /** Once node is known to reach an older node, it is no longer needed as anyone's older gray node. */
  lemma GrayWithout(E: Edges, onStack: set<Key>, indexes: Numbers, gray: set<Key>, node: Key, y: Key)
    requires GrayBelow(E, onStack, indexes, gray + {node}) && node !in gray
    requires y in onStack && node in indexes && y in indexes && indexes[y] < indexes[node]
    requires Reach(E, node, y)
    ensures GrayBelow(E, onStack, indexes, gray)
  {
    assert HasOlderGray(E, indexes, gray + {node}, y);
    var h :| h in gray + {node} && ReachesOlder(E, indexes, y, h);
    ReachTrans(E, node, y, h);
    forall v | v in onStack ensures HasOlderGray(E, indexes, gray, v) {
      assert HasOlderGray(E, indexes, gray + {node}, v);
      var g :| g in gray + {node} && ReachesOlder(E, indexes, v, g);
      if g == node {
        ReachTrans(E, v, node, h);
        assert ReachesOlder(E, indexes, v, h);
      }
    }
  }

  /** Every parent of node has been visited; the low of node accounts for those below it. */
  lemma ParentsDone(nodes: set<Key>, E: Edges, below: set<Key>, onStack: set<Key>, indexes: Numbers, node: Key,
                    parents: seq<Key>, low: int)
    requires LowSoFar(nodes, E, below, onStack, indexes, node, parents, |parents|, low)
    requires forall w | (node, w) in E :: w in parents && w in nodes
    ensures forall w | (node, w) in E :: w in indexes && (w in below ==> low <= indexes[w])
    ensures low <= indexes[node]
    ensures below <= onStack && node !in below ==> EdgesAbove(E, below, onStack, indexes, low)
  {
    forall w | (node, w) in E ensures w in indexes && (w in below ==> low <= indexes[w]) {
      var j :| 0 <= j < |parents| && parents[j] == w;
    }
  }

  /** node has a low other than its number, so it reaches an older node. */
  lemma ReachesBelow(nodes: set<Key>, E: Edges, s: Dfs, t: Dfs, gray: set<Key>, node: Key, parents: seq<Key>) returns (y: Key)
    requires CanExplore(nodes, E, s, gray, node) && Exploring(nodes, E, s, t, gray, node, parents, |parents|)
    requires forall w | (node, w) in E :: w in parents && w in nodes
    requires t.lowlink[node] != t.indexes[node]
    ensures y in s.onStack && y in t.onStack && node in t.indexes && y in t.indexes && t.indexes[y] < t.indexes[node] && Reach(E, node, y)
  {
    hide Inv, Finished, StackReach, GrayBelow, Explored, EdgesAbove, Splits, Reach;
    var low := t.lowlink[node];
    ParentsDone(nodes, E, s.onStack, t.onStack, t.indexes, node, parents, low);
    LowBelow(E, s.onStack, t.indexes, node, low);
    y :| y in s.onStack && y in t.indexes && t.indexes[y] == low && Reach(E, node, y);
  }

  /** All parents are dealt with and node is not the root of its component. */
  lemma StaysOnStack(nodes: set<Key>, E: Edges, s: Dfs, t: Dfs, gray: set<Key>, node: Key, parents: seq<Key>)
    requires CanExplore(nodes, E, s, gray, node) && Exploring(nodes, E, s, t, gray, node, parents, |parents|)
    requires forall w | (node, w) in E :: w in parents && w in nodes
    requires t.lowlink[node] != t.indexes[node]
    ensures Inv(nodes, E, t, gray) && Explores(E, s, t, node)
  {
    hide StackShape, Finished, StackReach, GrayBelow, Explored, EdgesAbove, Reach, LowReached;
    ParentsDone(nodes, E, s.onStack, t.onStack, t.indexes, node, parents, t.lowlink[node]);
    LowBelow(E, s.onStack, t.indexes, node, t.lowlink[node]);
    GrayOnStack(E, s, gray);
    var y := ReachesBelow(nodes, E, s, t, gray, node, parents);
    GrayWithout(E, t.onStack, t.indexes, gray, node, y);
    ExploredWithout(E, t.indexes, gray, node);
  }

  lemma LowBelow(E: Edges, below: set<Key>, indexes: Numbers, node: Key, low: int)
    requires LowReached(E, below + {node}, indexes, node, low) && node in indexes && low != indexes[node]
    ensures LowReached(E, below, indexes, node, low)
  {}

  // ------------------------------------------------------------------ node is the root of a component

  /** s once everything from position m of its stack has been moved to the component being numbered. */
  ghost function Popped(s: Dfs, m: nat): Dfs
    requires m <= |s.stack|
  {
    Dfs(s.index, s.component, s.stack[..m], s.indexes, s.lowlink, s.onStack - Elements(s.stack[m..]),
        s.components + AllTo(Elements(s.stack[m..]), s.component))
  }

  ghost function Elements(q: seq<Key>): set<Key> {
    set v | v in q
  }

  ghost function AllTo(S: set<Key>, n: int): Numbers {
    map v | v in S :: n
  }

  ghost function NextComponent(s: Dfs): Dfs {
    Dfs(s.index, s.component + 1, s.stack, s.indexes, s.lowlink, s.onStack, s.components)
  }

  lemma NothingPopped(s: Dfs)
    ensures Elements(s.stack[|s.stack|..]) == {}
    ensures s.components + AllTo({}, s.component) == s.components
  {}

  lemma PopOne(s: Dfs, m: nat)
    requires 0 < m <= |s.stack|
    ensures Elements(s.stack[m - 1..]) == Elements(s.stack[m..]) + {s.stack[m - 1]}
  {
    assert s.stack[m - 1..] == [s.stack[m - 1]] + s.stack[m..];
  }

  lemma AllToOne(components: Numbers, S: set<Key>, v: Key, n: int)
    ensures (components + AllTo(S, n))[v := n] == components + AllTo(S + {v}, n)
  {}

  lemma StackDistinct(s: Dfs, i: nat, j: nat)
    requires StackShape(s.stack, s.onStack, s.indexes) && i < |s.stack| && j < |s.stack| && s.stack[i] == s.stack[j]
    ensures i == j
  {}

  lemma StackHolds(s: Dfs)
    requires StackShape(s.stack, s.onStack, s.indexes)
    ensures forall v :: v in s.stack <==> v in s.onStack
  {}

  /** Above an earlier state's stack lie exactly the nodes that were not on that stack. */
  lemma PopRestores(s: Dfs, t: Dfs)
    requires StackShape(s.stack, s.onStack, s.indexes) && StackShape(t.stack, t.onStack, t.indexes)
    requires s.stack <= t.stack
    ensures Elements(t.stack[|s.stack|..]) == t.onStack - s.onStack
  {
    hide StackShape;
    StackHolds(s);
    StackHolds(t);
    assert t.stack == s.stack + t.stack[|s.stack|..];
    forall v | v in t.stack[|s.stack|..] ensures v !in s.stack {
      var i :| |s.stack| <= i < |t.stack| && t.stack[i] == v;
      if j :| 0 <= j < |s.stack| && s.stack[j] == v {
        StackDistinct(t, i, j);
        assert false;
      }
    }
  }

  /** node reaches nothing older, so all that lies above it on the stack leads nowhere but to itself
      and to finished components, and reaches node. */
  lemma RootCloses(nodes: set<Key>, E: Edges, below: set<Key>, s: Dfs, gray: set<Key>, node: Key)
    requires Inv(nodes, E, s, gray + {node}) && gray <= below && Splits(below, s.onStack, s.indexes, node)
    requires EdgesAbove(E, below, s.onStack, s.indexes, s.indexes[node])
    requires forall w | (node, w) in E :: w in s.indexes
    ensures Closed(E, s.components.Keys + (s.onStack - below))
    ensures forall v | v in s.onStack - below :: Reach(E, v, node) && Reach(E, node, v)
  {
    var S := s.onStack - below;
    assert Closed(E, s.components.Keys + S) by {
      forall v, w | (v, w) in E && v in s.components.Keys + S ensures w in s.components.Keys + S {
        if v in S {
          assert w in s.indexes;
        }
      }
    }
    forall v | v in S ensures Reach(E, v, node) && Reach(E, node, v) {
      assert HasOlderGray(E, s.indexes, gray + {node}, v);
      var g :| g in gray + {node} && ReachesOlder(E, s.indexes, v, g);
      ClosedReach(E, s.components.Keys + S, v, g);
    }
  }

  /** The popped nodes are one complete strongly connected component. */
  lemma RootFinished(E: Edges, S: set<Key>, components: Numbers, component: int, node: Key)
    requires Finished(E, components) && S !! components.Keys
    requires forall v | v in components :: components[v] < component
    requires Closed(E, components.Keys + S)
    requires forall v | v in S :: Reach(E, v, node) && Reach(E, node, v)
    ensures Finished(E, components + AllTo(S, component))
  {
    var u := components + AllTo(S, component);
    forall v, w | v in u && w in u
      ensures u[v] == u[w] <==> Mutual(E, v, w)
    {
      if v in S && w in S {
        ReachTrans(E, v, node, w);
        ReachTrans(E, w, node, v);
      } else if v in S || w in S {
        assert Closed(E, components.Keys);
        if Mutual(E, v, w) {
          if v in S { ClosedReach(E, components.Keys, w, v); } else { ClosedReach(E, components.Keys, v, w); }
        }
      }
    }
  }

  lemma GrayKept(E: Edges, s: Dfs, u: Dfs, gray: set<Key>)
    requires GrayBelow(E, s.onStack, s.indexes, gray) && u.onStack == s.onStack && Keeps(s.indexes, u.indexes)
    ensures GrayBelow(E, u.onStack, u.indexes, gray)
  {
    forall v | v in u.onStack ensures HasOlderGray(E, u.indexes, gray, v) {
      assert HasOlderGray(E, s.indexes, gray, v);
      var g :| g in gray && ReachesOlder(E, s.indexes, v, g);
      assert ReachesOlder(E, u.indexes, v, g);
    }
  }

  /** What popping down to an earlier stack leaves. */
  lemma PoppedParts(s: Dfs, t: Dfs)
    requires StackShape(s.stack, s.onStack, s.indexes) && StackShape(t.stack, t.onStack, t.indexes)
    requires s.stack <= t.stack && s.onStack <= t.onStack
    ensures var u := NextComponent(Popped(t, |s.stack|));
            && u.stack == s.stack && u.onStack == s.onStack && u.indexes == t.indexes && u.lowlink == t.lowlink
            && u.index == t.index && u.component == t.component + 1
            && u.components == t.components + AllTo(t.onStack - s.onStack, t.component)
  {
    PopRestores(s, t);
    hide StackShape;
    assert t.onStack - (t.onStack - s.onStack) == s.onStack;
  }

  lemma PoppedShape(nodes: set<Key>, s: Dfs, t: Dfs, u: Dfs)
    requires Shape(nodes, t) && s.onStack <= t.onStack
    requires u.onStack == s.onStack && u.indexes == t.indexes && u.lowlink == t.lowlink
    requires u.index == t.index && u.component == t.component + 1
    requires u.components == t.components + AllTo(t.onStack - s.onStack, t.component)
    ensures Shape(nodes, u) && Keeps(t.components, u.components)
  {
    assert u.components.Keys == t.components.Keys + (t.onStack - s.onStack);
  }

  lemma NumberedKept(s: Dfs, indexes: Numbers)
    requires StackShape(s.stack, s.onStack, s.indexes) && Keeps(s.indexes, indexes)
    ensures StackShape(s.stack, s.onStack, indexes)
  {}

  lemma ExploredWithout(E: Edges, indexes: Numbers, gray: set<Key>, node: Key)
    requires Explored(E, indexes, gray + {node}) && forall w | (node, w) in E :: w in indexes
    ensures Explored(E, indexes, gray)
  {}

  lemma RootComponents(nodes: set<Key>, E: Edges, below: set<Key>, t: Dfs, gray: set<Key>, node: Key)
    requires Inv(nodes, E, t, gray + {node}) && gray <= below && Splits(below, t.onStack, t.indexes, node)
    requires EdgesAbove(E, below, t.onStack, t.indexes, t.indexes[node])
    requires forall w | (node, w) in E :: w in t.indexes
    ensures Finished(E, t.components + AllTo(t.onStack - below, t.component))
    ensures node in t.onStack - below
  {
    hide StackShape, StackReach, GrayBelow, Explored, Finished, EdgesAbove, Closed, Reach;
    RootCloses(nodes, E, below, t, gray, node);
    RootFinished(E, t.onStack - below, t.components, t.component, node);
  }

  /** Popping down to node leaves the search as it was before node, one component richer. */
  lemma Root(nodes: set<Key>, E: Edges, s: Dfs, t: Dfs, gray: set<Key>, node: Key)
    requires CanExplore(nodes, E, s, gray, node) && Inv(nodes, E, t, gray + {node})
    requires Continues(Push(s, node), t) && s.stack <= t.stack && Splits(s.onStack, t.onStack, t.indexes, node)
    requires EdgesAbove(E, s.onStack, t.onStack, t.indexes, t.indexes[node])
    requires forall w | (node, w) in E :: w in t.indexes
    ensures var u := NextComponent(Popped(t, |s.stack|));
            Inv(nodes, E, u, gray) && u.onStack == s.onStack && u.stack == s.stack
            && node in u.components && Keeps(t.components, u.components)
  {
    hide StackShape, Shape, Explored, Finished, StackReach, GrayBelow, EdgesAbove, Reach, Splits, Popped, NextComponent;
    var u := NextComponent(Popped(t, |s.stack|));
    GrayOnStack(E, s, gray);
    PoppedParts(s, t);
    PoppedShape(nodes, s, t, u);
    RootComponents(nodes, E, s.onStack, t, gray, node);
    GrayKept(E, s, u, gray);
    NumberedKept(s, t.indexes);
    StackReachKept(E, s, t);
    ExploredWithout(E, t.indexes, gray, node);
  }

  lemma GrayOnStack(E: Edges, s: Dfs, gray: set<Key>)
    requires GrayBelow(E, s.onStack, s.indexes, gray)
    ensures gray <= s.onStack
  {}

  lemma StackReachKept(E: Edges, s: Dfs, t: Dfs)
    requires StackReach(E, t.onStack, t.indexes) && s.onStack <= t.onStack
    ensures StackReach(E, s.onStack, t.indexes)
  {}

  /** All parents are dealt with and node is the root of its component. */
  lemma ClosesComponent(nodes: set<Key>, E: Edges, s: Dfs, t: Dfs, gray: set<Key>, node: Key, parents: seq<Key>)
    requires CanExplore(nodes, E, s, gray, node) && Exploring(nodes, E, s, t, gray, node, parents, |parents|)
    requires forall w | (node, w) in E :: w in parents && w in nodes
    requires t.lowlink[node] == t.indexes[node]
    ensures StackShape(t.stack, t.onStack, t.indexes) && |s.stack| < |t.stack| && t.stack[|s.stack|] == node
    ensures var u := NextComponent(Popped(t, |s.stack|)); Inv(nodes, E, u, gray) && Explores(E, s, u, node)
  {
    hide StackShape, Finished, StackReach, GrayBelow, LowSoFar, LowReached, Closed, Reach, Popped, Shape, Explored;
    ParentsDone(nodes, E, s.onStack, t.onStack, t.indexes, node, parents, t.lowlink[node]);
    Root(nodes, E, s, t, gray, node);
    PoppedParts(s, t);
  }

  /** One run of the search over the stored hierarchy; the fields are the variables its recursion shares. */
  class TarjanSearch {
    const nodes: set<Key>
    const childParents: map<Key, seq<Key>>
    var index: int
    var component: int
    var stack: seq<Key>
    var indexes: Numbers
    var lowlink: Numbers
    var onStack: set<Key>
    var components: Numbers

    ghost function View(): Dfs reads this {
      Dfs(index, component, stack, indexes, lowlink, onStack, components)
    }

    ghost function E(): Edges {
      EdgesOf(nodes, childParents)
    }

    constructor (nodes: set<Key>, childParents: map<Key, seq<Key>>)
      ensures this.nodes == nodes && this.childParents == childParents
      ensures View() == Dfs(0, 0, [], map[], map[], {}, map[])
    {
      this.nodes, this.childParents := nodes, childParents;
      index, component, stack := 0, 0, [];
      indexes, lowlink, onStack, components := map[], map[], {}, map[];
    }

    /** Move everything from the top of the stack down to node, which is at position k, to the next component. */
    method PopComponent(node: Key, ghost k: nat)
      requires StackShape(stack, onStack, indexes) && k < |stack| && stack[k] == node
      modifies this
      ensures View() == NextComponent(Popped(old(View()), k))
    {
      hide StackShape, Elements, AllTo;
      ghost var s := View();
      ghost var m := |stack|;
      NothingPopped(s);
      while true
        invariant k < m <= |s.stack| && stack == s.stack[..m]
        invariant onStack == s.onStack - Elements(s.stack[m..])
        invariant components == s.components + AllTo(Elements(s.stack[m..]), s.component)
        invariant index == s.index && component == s.component && indexes == s.indexes && lowlink == s.lowlink
        decreases m
      {
        var last := stack[|stack| - 1];
        PopOne(s, m);
        AllToOne(s.components, Elements(s.stack[m..]), last, component);
        stack := stack[..|stack| - 1];
        onStack := onStack - {last};
        components := components[last := component];
        m := m - 1;
        if last == node {
          StackDistinct(s, m, k);
          break;
        }
      }
      component := component + 1;
    }

    /** Give node the next number and push it. */
    method Enter(node: Key)
      modifies this
      ensures View() == Push(old(View()), node)
    {
      indexes := indexes[node := index];
      lowlink := lowlink[node := index];
      index := index + 1;
      stack := stack + [node];
      onStack := onStack + {node};
    }

    /** Take the k-th parent of node into account, exploring it first if it is new. */
    method VisitParent(node: Key, parents: seq<Key>, k: nat, ghost s: Dfs, ghost gray: set<Key>)
      requires CanExplore(nodes, E(), s, gray, node) && Exploring(nodes, E(), s, View(), gray, node, parents, k)
      requires k < |parents| && parents == ParentsOf(childParents, node) && node in nodes
      modifies this
      ensures Exploring(nodes, E(), s, View(), gray, node, parents, k + 1)
      decreases nodes - s.indexes.Keys, 0
    {
      hide CanExplore, Inv, Explores, Exploring, EdgesOf, ParentsOf;
      ParentEdges(nodes, childParents, node);
      var parent := parents[k];
      ghost var t := View();
      ExploringNode(nodes, E(), s, t, gray, node, parents, k);
      if parent !in nodes {
        NotANode(nodes, E(), s, t, gray, node, parents, k);
      } else if parent !in indexes {
        GoDeeper(nodes, E(), s, t, gray, node, parents, k);
        StrongConnect(parent, gray + {node});
        CameBack(nodes, E(), s, t, View(), gray, node, parents, k);
        SetLowSame(View(), node);
        if lowlink[parent] < lowlink[node] {
          lowlink := lowlink[node := lowlink[parent]];
        }
      } else {
        AlreadySeen(nodes, E(), s, t, gray, node, parents, k);
        SetLowSame(t, node);
        if parent in onStack && indexes[parent] < lowlink[node] {
          lowlink := lowlink[node := indexes[parent]];
        }
      }
    }

    /** Explore node and everything it reaches that has not been visited. */
    method StrongConnect(node: Key, ghost gray: set<Key>)
      requires CanExplore(nodes, E(), View(), gray, node)
      modifies this
      ensures Inv(nodes, E(), View(), gray)
      ensures Explores(E(), old(View()), View(), node)
      decreases nodes - indexes.Keys, 1
    {
      ghost var s := View();
      assert node in nodes;
      ParentEdges(nodes, childParents, node);
      hide CanExplore, Inv, Explores, Exploring, EdgesOf, Popped, NextComponent, ParentsOf;
      var parents := ParentsOf(childParents, node);
      StartExploring(nodes, E(), s, gray, node, parents);
      Enter(node);
      for i := 0 to |parents|
        invariant Exploring(nodes, E(), s, View(), gray, node, parents, i)
      {
        VisitParent(node, parents, i, s, gray);
      }
      ghost var t := View();
      ExploringNode(nodes, E(), s, t, gray, node, parents, |parents|);
      if lowlink[node] != indexes[node] {
        StaysOnStack(nodes, E(), s, t, gray, node, parents);
        return;
      }
      ClosesComponent(nodes, E(), s, t, gray, node, parents);
      PopComponent(node, |s.stack|);
    }

    /** Number the strongly connected components of the whole hierarchy; keys lists its nodes in some order. */
    method Run(keys: seq<Key>)
      requires Inv(nodes, E(), View(), {})
      requires nodes == set k | k in keys
      modifies this
      ensures IsCondensation(nodes, E(), components)
    {
      hide CanExplore, Explores, EdgesOf, Inv, IsCondensation;
      for i := 0 to |keys|
        invariant Inv(nodes, E(), View(), {})
        invariant forall j | 0 <= j < i :: keys[j] in indexes
      {
        if keys[i] !in indexes {
          ghost var s := View();
          MayStart(nodes, E(), s, keys[i]);
          StrongConnect(keys[i], {});
          Visited(E(), s, View(), keys[i]);
        }
      }
      AllFinished(nodes, E(), View());
    }
  }

  lemma MayStart(nodes: set<Key>, E: Edges, s: Dfs, node: Key)
    requires Inv(nodes, E, s, {}) && node in nodes && node !in s.indexes
    ensures CanExplore(nodes, E, s, {}, node)
  {}

  lemma Visited(E: Edges, s: Dfs, t: Dfs, node: Key)
    requires Explores(E, s, t, node)
    ensures node in t.indexes && s.indexes.Keys <= t.indexes.Keys
  {}

  /** With nothing left to explore the stack is empty, so every visited node has its component. */
  lemma AllFinished(nodes: set<Key>, E: Edges, s: Dfs)
    requires Inv(nodes, E, s, {}) && nodes <= s.indexes.Keys
    ensures IsCondensation(nodes, E, s.components)
  {
    hide Finished, StackShape, StackReach, Explored;
    forall v ensures v !in s.onStack {
      assert v in s.onStack ==> HasOlderGray(E, s.indexes, {}, v);
    }
  }

  /** The component number of every node; keys lists the nodes in the order they are tried. */
  method ComponentsOf(nodes: set<Key>, childParents: map<Key, seq<Key>>, keys: seq<Key>) returns (components: Numbers)
    requires nodes == set k | k in keys
    ensures IsCondensation(nodes, EdgesOf(nodes, childParents), components)
  {
    var search := new TarjanSearch(nodes, childParents);
    NothingVisited(nodes, search.E());
    search.Run(keys);
    components := search.components;
  }

  lemma NothingVisited(nodes: set<Key>, E: Edges)
    ensures Inv(nodes, E, Dfs(0, 0, [], map[], map[], {}, map[]), {})
  {}

  /** Different components cannot reach each other both ways, and the numbering is what shows it. */
  lemma CrossEdgesDescend(nodes: set<Key>, E: Edges, components: Numbers, v: Key, w: Key)
    requires IsCondensation(nodes, E, components) && v in nodes && Reach(E, v, w)
    ensures w in nodes && components[w] <= components[v]
    ensures components[w] == components[v] <==> Reach(E, w, v)
  {
    var n: nat :| ReachIn(E, v, w, n);
    ReachDescends(nodes, E, components, v, w, n);
  }

  lemma {:induction false} ReachDescends(nodes: set<Key>, E: Edges, components: Numbers, v: Key, w: Key, n: nat)
    requires IsCondensation(nodes, E, components) && v in nodes && ReachIn(E, v, w, n)
    ensures w in nodes && components[w] <= components[v]
    decreases n
  {
    if n > 0 {
      var u :| (v, u) in E && ReachIn(E, u, w, n - 1);
      ReachDescends(nodes, E, components, u, w, n - 1);
    }
  }
}
