/**
 * The bookkeeping of the Monte Carlo tree search `MCTS_V2`: visit counts `N`,
 * accumulated rewards `Q` and the expanded `children` of each node. The game
 * enters only through a node's successor set and terminal test, given as
 * functions; a playout's reward is a parameter of `DoRollout`, and the UCT
 * choice is any child of the node.
 */
module Search {

  /** `defaultdict(int)` reads: a missing key counts as zero. */
  function Get<K>(m: map<K, nat>, k: K): nat
  {
    if k in m then m[k] else 0
  }

  function GetQ<K>(m: map<K, real>, k: K): real
  {
    if k in m then m[k] else 0.0
  }

  /** The visit counts after `_backpropagate(path, ...)`: one more visit per occurrence on the path. */
  function BumpN<K>(n: map<K, nat>, path: seq<K>): map<K, nat>
    decreases |path|
  {
    if path == [] then n
    else
      var last := path[|path| - 1];
      BumpN(n[last := Get(n, last) + 1], path[..|path| - 1])
  }

  /**
   * The rewards after `_backpropagate(path, w)`: walking from the leaf to the
   * root, each node gets the current reward, which then flips to `1 - w`.
   */
  function BumpQ<K>(q: map<K, real>, path: seq<K>, w: real): map<K, real>
    decreases |path|
  {
    if path == [] then q
    else
      var last := path[|path| - 1];
      BumpQ(q[last := GetQ(q, last) + w], path[..|path| - 1], 1.0 - w)
  }

  /** Every occurrence of a node on the path adds one visit, and nothing else changes. */
  lemma {:induction false} BumpNCount<K>(n: map<K, nat>, path: seq<K>, k: K)
    ensures Get(BumpN(n, path), k) == Get(n, k) + multiset(path)[k]
    decreases |path|
  {
    if path != [] {
      var last := path[|path| - 1];
      BumpNCount(n[last := Get(n, last) + 1], path[..|path| - 1], k);
      assert path == path[..|path| - 1] + [last];
    }
  }

  /** A node off the path keeps its reward. */
  lemma {:induction false} BumpQUntouched<K>(q: map<K, real>, path: seq<K>, w: real, k: K)
    requires k !in path
    ensures GetQ(BumpQ(q, path, w), k) == GetQ(q, k)
    decreases |path|
  {
    if path != [] {
      var last := path[|path| - 1];
      assert k !in path[..|path| - 1];
      BumpQUntouched(q[last := GetQ(q, last) + w], path[..|path| - 1], 1.0 - w, k);
    }
  }

  /**
   * On a path without repetitions, the node `i` steps from the root gets
   * `w` if it is an even number of steps above the leaf and `1 - w` otherwise.
   */
  lemma {:induction false} BumpQAlternates<K>(q: map<K, real>, path: seq<K>, w: real, i: nat)
    requires i < |path|
    requires forall a, b :: 0 <= a < b < |path| ==> path[a] != path[b]
    ensures GetQ(BumpQ(q, path, w), path[i]) ==
      GetQ(q, path[i]) + (if (|path| - 1 - i) % 2 == 0 then w else 1.0 - w)
    decreases |path|
  {
    var last := path[|path| - 1];
    var rest := path[..|path| - 1];
    var q' := q[last := GetQ(q, last) + w];
    if i == |path| - 1 {
      assert last !in rest;
      BumpQUntouched(q', rest, 1.0 - w, last);
    } else {
      assert rest[i] == path[i];
      assert path[i] != last;
      BumpQAlternates(q', rest, 1.0 - w, i);
      if (|path| - 1 - i) % 2 == 0 {
        assert (|rest| - 1 - i) % 2 == 1;
      } else {
        assert (|rest| - 1 - i) % 2 == 0;
      }
    }
  }

  /**
   * With a reward in [0, 1], a node whose reward was within [0, N] before
   * backpropagation is still within [0, N] after.
   */
  lemma {:induction false} BumpBounds<K>(n: map<K, nat>, q: map<K, real>, path: seq<K>, w: real, k: K)
    requires 0.0 <= w <= 1.0
    requires forall x :: 0.0 <= GetQ(q, x) <= Get(n, x) as real
    ensures 0.0 <= GetQ(BumpQ(q, path, w), k) <= Get(BumpN(n, path), k) as real
    decreases |path|
  {
    if path != [] {
      var last := path[|path| - 1];
      var n' := n[last := Get(n, last) + 1];
      var q' := q[last := GetQ(q, last) + w];
      assert forall x :: 0.0 <= GetQ(q', x) <= Get(n', x) as real by {
        forall x ensures 0.0 <= GetQ(q', x) <= Get(n', x) as real {
          if x == last {
            assert GetQ(q', x) == GetQ(q, x) + w && Get(n', x) == Get(n, x) + 1;
          } else {
            assert GetQ(q', x) == GetQ(q, x) && Get(n', x) == Get(n, x);
          }
        }
      }
      BumpBounds(n', q', path[..|path| - 1], 1.0 - w, k);
    }
  }

  /** The value `choose` maximises: minus infinity for an unvisited child, otherwise `Q + N`. */
  datatype Score = NegInf | Finite(x: real)
  {
    predicate Le(other: Score)
    {
      match this
      case NegInf => true
      case Finite(a) => other.Finite? && a <= other.x
    }
  }

  /** What `choose` does: raise, fall back to a random play, raise on an empty max, or pick a child. */
  datatype Choice<Node> = TerminalError | RandomPlay | EmptyError | Chosen(child: Node)

  class Mcts<Node(==, !new)> {
    /** `node.legal_plays(node.turn)`: the successors of a node. */
    const successors: Node -> set<Node>
    /** `node.is_terminal()`. */
    const isTerminal: Node -> bool
    var N: map<Node, nat>
    var Q: map<Node, real>
    var children: map<Node, set<Node>>

    /**
     * Every expanded node has been visited (so the logarithm and the
     * divisions of the UCT score are defined), and every node's reward lies
     * between 0 and its visit count.
     */
    ghost predicate Valid()
      reads this
    {
      && (forall k :: k in children ==> Get(N, k) >= 1)
      && (forall k :: 0.0 <= GetQ(Q, k) <= Get(N, k) as real)
    }

    constructor(successors: Node -> set<Node>, isTerminal: Node -> bool)
      ensures Valid()
      ensures this.successors == successors && this.isTerminal == isTerminal
      ensures N == map[] && Q == map[] && children == map[]
    {
      this.successors := successors;
      this.isTerminal := isTerminal;
      N := map[];
      Q := map[];
      children := map[];
    }

    function Score(n: Node): Score
      reads this
    {
      if Get(N, n) == 0 then NegInf else Finite(GetQ(Q, n) + Get(N, n) as real)
    }

    /** `choose(node)`: the best child by score, once the node has been expanded. */
    method Choose(node: Node) returns (r: Choice<Node>)
      ensures r == TerminalError <==> isTerminal(node)
      ensures r == RandomPlay <==> !isTerminal(node) && node !in children
      ensures r == EmptyError <==> !isTerminal(node) && node in children && children[node] == {}
      ensures r.Chosen? ==> node in children && r.child in children[node]
      ensures r.Chosen? ==> forall d :: d in children[node] ==> Score(d).Le(Score(r.child))
    {
      if isTerminal(node) {
        return TerminalError;
      }
      if node !in children {
        return RandomPlay;
      }
      var kids := children[node];
      if kids == {} {
        return EmptyError;
      }
      var best :| best in kids;
      var rest := kids - {best};
      while rest != {}
        invariant rest <= kids && best in kids
        invariant forall d :: d in kids && d !in rest ==> Score(d).Le(Score(best))
        decreases |rest|
      {
        var x :| x in rest;
        if !Score(x).Le(Score(best)) {
          best := x;
        }
        rest := rest - {x};
      }
      return Chosen(best);
    }

    /**
     * `_uct_select(node)`: some child of a node all of whose children are
     * expanded; the requirements are the assertion of line 106 and what the
     * logarithm and the divisions of the UCT score need.
     */
    method UctSelect(node: Node) returns (c: Node)
      requires node in children && children[node] != {}
      requires forall k :: k in children[node] ==> k in children
      requires Get(N, node) >= 1
      requires forall k :: k in children[node] ==> Get(N, k) >= 1
      ensures c in children[node]
    {
      c :| c in children[node];
    }

    /**
     * `_select(node)`: a walk down the expanded tree from `node`, ending at a
     * node that is unexpanded or has no children (then `complete` holds), or
     * at an expanded node with children when the `fuel` bound runs out.
     */
    method Select(node: Node, fuel: nat) returns (path: seq<Node>, complete: bool)
      requires Valid()
      ensures |path| >= 1 && path[0] == node
      ensures forall i :: 0 <= i < |path| - 1 ==> path[i] in children && path[i + 1] in children[path[i]]
      ensures complete <==> path[|path| - 1] !in children || children[path[|path| - 1]] == {}
    {
      path := [];
      var current := node;
      var remaining := fuel;
      while true
        invariant path == [] ==> current == node
        invariant path != [] ==> path[0] == node
        invariant path != [] ==> path[|path| - 1] in children && current in children[path[|path| - 1]]
        invariant forall i :: 0 <= i < |path| - 1 ==> path[i] in children && path[i + 1] in children[path[i]]
        decreases remaining
      {
        path := path + [current];
        if current !in children || children[current] == {} {
          return path, true;
        }
        var unexplored := children[current] - children.Keys;
        if unexplored != {} {
          var n :| n in unexplored;
          path := path + [n];
          return path, true;
        }
        if remaining == 0 {
          return path, false;
        }
        assert forall k :: k in children[current] ==> k in children by {
          forall k | k in children[current] ensures k in children {
            assert k !in unexplored;
          }
        }
        current := UctSelect(current);
        remaining := remaining - 1;
      }
    }

    /** `_expand(node)`: record the node's successors, unless it is already expanded. */
    method Expand(node: Node)
      modifies this
      ensures children == if node in old(children) then old(children) else old(children)[node := successors(node)]
      ensures N == old(N) && Q == old(Q)
    {
      if node in children {
        return;
      }
      children := children[node := successors(node)];
    }

    /** `_backpropagate(path, winner)`: leaf to root, one visit each and an alternating reward. */
    method Backpropagate(path: seq<Node>, winner: real)
      modifies this
      ensures N == BumpN(old(N), path)
      ensures Q == BumpQ(old(Q), path, winner)
      ensures children == old(children)
    {
      var i := |path|;
      var w := winner;
      assert path[..i] == path;
      while i > 0
        invariant 0 <= i <= |path|
        invariant BumpN(N, path[..i]) == BumpN(old(N), path)
        invariant BumpQ(Q, path[..i], w) == BumpQ(old(Q), path, winner)
        invariant children == old(children)
      {
        var n := path[i - 1];
        assert path[..i][..i - 1] == path[..i - 1];
        N := N[n := Get(N, n) + 1];
        Q := Q[n := GetQ(Q, n) + w];
        w := 1.0 - w;
        i := i - 1;
      }
    }

    /**
     * `do_rollout(node)` with the playout's reward `reward`: select, expand the
     * leaf, backpropagate. The new state is that of `path`, the walk `_select`
     * took down the old tree, and `complete` holds exactly when that walk ended
     * at an unexpanded or childless node rather than running out of `fuel`:
     * only its leaf may gain an entry in `children`,
     * and `N` and `Q` are bumped along it. The invariant is kept, the root
     * ends up expanded, and it has one visit more.
     */
    method DoRollout(node: Node, reward: real, fuel: nat) returns (ghost path: seq<Node>, ghost complete: bool)
      requires Valid()
      requires 0.0 <= reward <= 1.0
      modifies this
      ensures |path| >= 1 && path[0] == node
      ensures forall i :: 0 <= i < |path| - 1 ==> path[i] in old(children) && path[i + 1] in old(children)[path[i]]
      ensures complete <==> path[|path| - 1] !in old(children) || old(children)[path[|path| - 1]] == {}
      ensures var leaf := path[|path| - 1];
        children == if leaf in old(children) then old(children) else old(children)[leaf := successors(leaf)]
      ensures N == BumpN(old(N), path) && Q == BumpQ(old(Q), path, reward)
      ensures Valid()
      ensures node in children
      ensures Get(N, node) > old(Get(N, node))
    {
      var walk, done := Select(node, fuel);
      path, complete := walk, done;
      var leaf := walk[|walk| - 1];
      Expand(leaf);
      ghost var n0 := N;
      ghost var q0 := Q;
      Backpropagate(walk, reward);
      forall k | k in children ensures Get(N, k) >= 1 {
        BumpNCount(n0, path, k);
        if k == leaf {
          assert leaf in multiset(path);
        }
      }
      forall k ensures 0.0 <= GetQ(Q, k) <= Get(N, k) as real {
        BumpBounds(n0, q0, path, reward, k);
      }
      BumpNCount(n0, path, node);
      assert node in multiset(path);
    }
  }
}
