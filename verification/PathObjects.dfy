/** The node objects of jsonpath/path.go: an ambiguousPath grows its ending in place. */
module PathObjects {
  import opened Selectors
  import opened Paths

  /** The path interface: a plainPath slice or a pointer to an ambiguousPath. */
  datatype PathRef = PlainRef(sels: seq<PlainSelector>) | NodeRef(node: AmbiguousNode)
  {
    ghost function Chain(): set<AmbiguousNode> {
      if NodeRef? then node.chain else {}
    }

    ghost predicate Valid()
      reads Chain()
    {
      NodeRef? ==> node.Valid()
    }

    /** The node chain as a value. */
    ghost function Value(): Path
      requires Valid()
      reads Chain()
    {
      match this
      case PlainRef(sels) => Plain(sels)
      case NodeRef(node) => node.Value()
    }

    /** withPlainSelector: extends the slice, or the ending of the node in place. */
    method WithPlainSelector(sel: PlainSelector) returns (p: PathRef)
      requires Valid()
      modifies if NodeRef? then {node} else {}
      ensures p.Valid() && p.Chain() == Chain()
      ensures p.Value() == old(Value()).WithPlain(sel)
    {
      match this {
        case PlainRef(sels) => p := PlainRef(sels + [sel]);
        case NodeRef(node) =>
          node.ending := node.ending + [sel];
          p := this;
      }
    }

    /** withAmbiguousSelector: a new node on top; the nodes below keep their meaning. */
    method WithAmbiguousSelector(sel: BranchSelector) returns (p: PathRef)
      requires Valid()
      ensures p.Valid() && p.NodeRef? && fresh(p.node) && p.Chain() == Chain() + {p.node}
      ensures p.Value() == Value().WithBranch(sel)
    {
      var node := new AmbiguousNode(this, sel);
      p := NodeRef(node);
    }
  }

  class AmbiguousNode {
    const parent: PathRef
    const branch: BranchSelector
    var ending: seq<PlainSelector>
    ghost const chain: set<AmbiguousNode>

    ghost predicate Valid()
      reads chain
      decreases chain
    {
      this in chain &&
      (parent.NodeRef? ==> parent.node.chain < chain && this !in parent.node.chain && parent.node.Valid())
    }

    ghost function Value(): Path
      requires Valid()
      reads chain
      decreases chain
    {
      Ambiguous(if parent.NodeRef? then parent.node.Value() else Plain(parent.sels), branch, ending)
    }

    constructor (parent: PathRef, branch: BranchSelector)
      requires parent.Valid()
      ensures Valid() && chain == parent.Chain() + {this}
      ensures Value() == parent.Value().WithBranch(branch)
    {
      this.parent := parent;
      this.branch := branch;
      ending := [];
      chain := parent.Chain() + {this};
    }
  }
}
