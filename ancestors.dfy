/**
 * `Layout.getAncestors`: a layout's children in order, followed by the
 * flattened contents of each child that is itself a layout (a Layout or a
 * Frame). The lists and the frame layout extend `Tile` directly, so the
 * flatten does not descend into them.
 */
module Ancestry {

  import opened Nodes

  /** The children `getAncestors` descends into: instances of `Layout`. */
  predicate IsLayout(n: Node)
  {
    n.Container? && (n.kind == LayoutKind || n.kind == FrameKind)
  }

  function Ancestors(cs: seq<Node>): seq<Node>
    decreases SizeSeq(cs), 1
  {
    cs + Nested(cs)
  }

  /** The concatenated ancestors of the layout children, in child order. */
  function Nested(cs: seq<Node>): seq<Node>
    decreases SizeSeq(cs), 0
  {
    if cs == [] then []
    else
      var n := |cs| - 1;
      SizeSeqSnoc(cs);
      var last := cs[n];
      Nested(cs[..n]) + (if IsLayout(last) then (ContainerSize(last); Ancestors(last.children)) else [])
  }

  /** The direct children come first, in their order. */
  lemma ChildrenFirst(cs: seq<Node>)
    ensures |Ancestors(cs)| >= |cs| && Ancestors(cs)[..|cs|] == cs
  {
  }

  /**
   * A tile is an ancestor exactly when it is a direct child or an ancestor
   * of a layout child.
   */
  lemma {:induction false} AncestorMember(cs: seq<Node>, x: Node)
    ensures x in Ancestors(cs) <==>
      x in cs || exists i :: 0 <= i < |cs| && IsLayout(cs[i]) && x in Ancestors(cs[i].children)
  {
    NestedMember(cs, x);
  }

  lemma {:induction false} NestedMember(cs: seq<Node>, x: Node)
    ensures x in Nested(cs) <==> exists i :: 0 <= i < |cs| && IsLayout(cs[i]) && x in Ancestors(cs[i].children)
    decreases |cs|
  {
    if cs != [] {
      var n := |cs| - 1;
      NestedMember(cs[..n], x);
      assert forall i :: 0 <= i < n ==> cs[..n][i] == cs[i];
      if x in Nested(cs) && !(IsLayout(cs[n]) && x in Ancestors(cs[n].children)) {
        assert x in Nested(cs[..n]);
      }
    }
  }

  /**
   * Every ancestor is a strictly smaller tree than the layout holding the
   * children, so a layout is never among its own ancestors.
   */
  lemma {:induction false} AncestorsSmaller(cs: seq<Node>)
    ensures forall x :: x in Ancestors(cs) ==> Size(x) <= SizeSeq(cs)
    decreases SizeSeq(cs), 1
  {
    forall x | x in cs
      ensures Size(x) <= SizeSeq(cs)
    {
      var i :| 0 <= i < |cs| && cs[i] == x;
      ChildSize(cs, i);
    }
    NestedSmaller(cs);
  }

  lemma {:induction false} NestedSmaller(cs: seq<Node>)
    ensures forall x :: x in Nested(cs) ==> Size(x) <= SizeSeq(cs)
    decreases SizeSeq(cs), 0
  {
    if cs != [] {
      var n := |cs| - 1;
      SizeSeqSnoc(cs);
      NestedSmaller(cs[..n]);
      var last := cs[n];
      if IsLayout(last) {
        ContainerSize(last);
        AncestorsSmaller(last.children);
      }
    }
  }

  lemma RootNotAncestor(root: Node)
    requires root.Container?
    ensures root !in Ancestors(root.children)
  {
    AncestorsSmaller(root.children);
    ContainerSize(root);
  }
}
