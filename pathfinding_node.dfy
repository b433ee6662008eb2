/**
 * `PathfindingNode.h`: the per-tile record of the battlescape path search and the
 * cost order its open set uses. The TU cost is computed outside this header and
 * is taken as a function of the node.
 */
module PathfindingNode {

  datatype Position = Position(x: int, y: int, z: int)

  /** The open set's entry for a node; only whether it exists matters here. */
  class OpenSetEntry {
  }

  class PathfindingNode {
    const pos: Position
    var checked: bool
    var tuCost: int
    var prevNode: PathfindingNode?
    var prevDir: int
    var tuGuess: int
    var openEntry: OpenSetEntry?

    /**
     * The constructor's body is not part of this model: only the position it
     * stores is promised; the other fields start with arbitrary values.
     */
    constructor (pos: Position)
      ensures Position() == pos
    {
      this.pos := pos;
    }

    /** `inOpenSet`: the node has an open-set entry. */
    function InOpenSet(): (b: bool)
      reads this`openEntry
      ensures b ==> openEntry != null
      ensures openEntry != null ==> b
    {
      openEntry != null
    }

    /** `isChecked`. */
    function IsChecked(): (b: bool)
      reads this`checked
    {
      checked
    }

    /** `setChecked`: marks the node; nothing else changes. */
    method SetChecked()
      modifies this`checked
      ensures IsChecked()
      ensures InOpenSet() == old(InOpenSet())
      ensures PrevNode() == old(PrevNode())
      ensures PrevDir() == old(PrevDir()) && TUGuess() == old(TUGuess())
    {
      checked := true;
    }

    /** `getPosition`: the position is fixed at construction. */
    function Position(): (p: Position)
    {
      pos
    }

    /** `getPrevNode`. */
    function PrevNode(): (n: PathfindingNode?)
      reads this`prevNode
    {
      prevNode
    }

    /** `getPrevDir`. */
    function PrevDir(): (d: int)
      reads this`prevDir
    {
      prevDir
    }

    /** `getTUGuess`. */
    function TUGuess(): (g: int)
      reads this`tuGuess
    {
      tuGuess
    }
  }

  /** `MinNodeCosts`: `a` comes before `b` when its non-missile TU cost is lower. */
  predicate MinNodeCosts<N>(cost: N -> int, a: N, b: N)
  {
    cost(a) < cost(b)
  }

  /** No node comes before itself, and two nodes are never each before the other. */
  lemma MinNodeCostsStrict<N>(cost: N -> int, a: N, b: N)
    ensures !MinNodeCosts(cost, a, a)
    ensures !(MinNodeCosts(cost, a, b) && MinNodeCosts(cost, b, a))
  {
  }

  lemma MinNodeCostsTransitive<N>(cost: N -> int, a: N, b: N, c: N)
    requires MinNodeCosts(cost, a, b) && MinNodeCosts(cost, b, c)
    ensures MinNodeCosts(cost, a, c)
  {
  }

  /** Nodes are unordered exactly when their costs tie: there is no tie-break. */
  lemma MinNodeCostsTies<N>(cost: N -> int, a: N, b: N)
    ensures !MinNodeCosts(cost, a, b) && !MinNodeCosts(cost, b, a) <==> cost(a) == cost(b)
  {
  }

  /** Being unordered is transitive, so the order is a strict weak order. */
  lemma MinNodeCostsIncomparableTransitive<N>(cost: N -> int, a: N, b: N, c: N)
    requires !MinNodeCosts(cost, a, b) && !MinNodeCosts(cost, b, a)
    requires !MinNodeCosts(cost, b, c) && !MinNodeCosts(cost, c, b)
    ensures !MinNodeCosts(cost, a, c) && !MinNodeCosts(cost, c, a)
  {
  }
}
