/** The pointers of the closure tree: the doubly linked list of spawned children,
    reached from the right-most one. */
module SiblingList {
  class Closure {
    var spawnParent: Closure?
    var leftSib: Closure?
    var rightSib: Closure?
    var rightMostChild: Closure?
    var joinCounter: nat
    ghost var children: seq<Closure>
    ghost var hasCallee: bool

    constructor ()
      ensures Linked() && children == [] && Alone() && joinCounter == 0 && !hasCallee
    {
      spawnParent, leftSib, rightSib, rightMostChild, joinCounter := null, null, null, null, 0;
      children, hasCallee := [], false;
    }

    ghost predicate Alone()
      reads this
    {
      spawnParent == null && Unlinked()
    }

    /** Without siblings. A child that has been removed keeps its link to the parent. */
    ghost predicate Unlinked()
      reads this
    {
      leftSib == null && rightSib == null
    }

    /** The pointers are those of the list, and the counter counts its members and
        an outstanding callee. */
    ghost predicate Linked()
      reads this, children
    {
      && this !in children && (forall i, j | 0 <= i < j < |children| :: children[i] != children[j])
      && rightMostChild == (if children == [] then null else children[|children| - 1])
      && (forall i | 0 <= i < |children| :: LinkAt(this, children, i))
      && joinCounter == |children| + if hasCallee then 1 else 0
    }

    /** A promoted child becomes the right-most one. */
    method AddChild(child: Closure)
      requires Linked() && child != this && child !in children && child.Alone()
      modifies this`rightMostChild, this`joinCounter, this`children, child`leftSib, child`spawnParent, Present(rightMostChild)`rightSib
      ensures Linked() && children == old(children) + [child]
    {
      ghost var before := children;
      if rightMostChild != null {
        assert LinkAt(this, children, |children| - 1);
        rightMostChild.rightSib := child;
      }
      child.leftSib := rightMostChild;
      child.spawnParent := this;
      rightMostChild := child;
      joinCounter := joinCounter + 1;
      children := children + [child];
      forall i | 0 <= i < |children|
        ensures LinkAt(this, children, i)
      {
        if i < |before| {
          assert old(LinkAt(this, before, i));
        }
      }
    }

    method AddCallee()
      requires Linked() && !hasCallee
      modifies this`joinCounter, this`hasCallee
      ensures Linked() && hasCallee
    {
      joinCounter := joinCounter + 1;
      hasCallee := true;
    }

    method RemoveCallee()
      requires Linked() && hasCallee
      modifies this`joinCounter, this`hasCallee
      ensures Linked() && !hasCallee
    {
      joinCounter := joinCounter - 1;
      hasCallee := false;
    }

    /** Joins the siblings of this closure. */
    method UnlinkChild()
      requires leftSib != this && rightSib != this && (leftSib != null ==> leftSib != rightSib)
      modifies this`leftSib, this`rightSib, Present(leftSib)`rightSib, Present(rightSib)`leftSib
      ensures leftSib == null && rightSib == null
      ensures old(leftSib) != null ==> old(leftSib).rightSib == old(rightSib)
      ensures old(rightSib) != null ==> old(rightSib).leftSib == old(leftSib)
    {
      if leftSib != null {
        leftSib.rightSib := rightSib;
      }
      if rightSib != null {
        rightSib.leftSib := leftSib;
      }
      leftSib, rightSib := null, null;
    }

    /** The pointer updates of an unlinking: the neighbours of the child at `j` become
        each other's. */
    method CutOut(child: Closure, ghost j: nat)
      requires Linked() && j < |children| && children[j] == child
      modifies this`rightMostChild, children`leftSib, children`rightSib
      ensures child.Unlinked() && rightMostChild == if j < |children| - 1 then old(rightMostChild) else if j == 0 then null else children[j - 1]
      ensures forall i | 0 <= i < |children| && i != j :: CutAt(this, children, j, i)
    {
      assert LinkAt(this, children, j);
      assert j > 0 ==> LinkAt(this, children, j - 1);
      assert j < |children| - 1 ==> LinkAt(this, children, j + 1);
      if child == rightMostChild {
        rightMostChild := child.leftSib;
      }
      child.UnlinkChild();
      forall i | 0 <= i < |children| && i != j
        ensures CutAt(this, children, j, i)
      {
        assert children[i] != child;
        assert old(LinkAt(this, children, i));
      }
    }

    /** Removes the child at `j`. */
    method RemoveChild(child: Closure, ghost j: nat)
      requires Linked() && j < |children| && children[j] == child
      modifies this`rightMostChild, this`joinCounter, this`children, children`leftSib, children`rightSib
      ensures Linked() && children == old(children)[..j] + old(children)[j + 1..] && child.Unlinked()
    {
      CutOut(child, j);
      joinCounter := joinCounter - 1;
      ghost var before := children;
      children := before[..j] + before[j + 1..];
      assert forall i | 0 <= i < |children| :: children[i] == before[if i < j then i else i + 1];
      forall i | 0 <= i < |children|
        ensures LinkAt(this, children, i)
      {
        assert CutAt(this, before, j, if i < j then i else i + 1);
      }
    }

    /** Where a returning child leaves its reducer map: at its left sibling, or at its
        parent if it is the first child. */
    method DepositPlace(child: Closure, ghost j: nat) returns (place: Closure)
      requires Linked() && j < |children| && children[j] == child
      ensures place == if j == 0 then this else children[j - 1]
    {
      assert LinkAt(this, children, j);
      place := if child.leftSib != null then child.leftSib else this;
    }
  }

  ghost function Present(c: Closure?): set<Closure> { if c == null then {} else {c} }

  /** The neighbours of the child at `i`, and its parent. */
  ghost predicate LinkAt(p: Closure, cs: seq<Closure>, i: int)
    requires 0 <= i < |cs|
    reads cs[i]
  {
    && cs[i].spawnParent == p
    && cs[i].leftSib == (if i == 0 then null else cs[i - 1])
    && cs[i].rightSib == (if i == |cs| - 1 then null else cs[i + 1])
  }

  /** The neighbours of the child at `i` once the one at `j` has been cut out. */
  ghost predicate CutAt(p: Closure, cs: seq<Closure>, j: int, i: int)
    requires 0 <= i < |cs| && 0 <= j < |cs| && i != j
    reads cs[i]
  {
    var l, r := if i - 1 == j then i - 2 else i - 1, if i + 1 == j then i + 2 else i + 1;
    && cs[i].spawnParent == p
    && cs[i].leftSib == (if l < 0 then null else cs[l])
    && cs[i].rightSib == (if r >= |cs| then null else cs[r])
  }
}
