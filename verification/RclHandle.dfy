/**
 `RclHandle`: native pointers owned through JavaScript objects that form a forest
 (`src/rcl_handle.cpp`, `src/rcl_handle.h`). Resetting a handle resets its whole subtree, children
 first, and runs each deleter once.
 */
module RclHandles {

  /** The deleters in the order they ran, and the handles in the order their pointers were cleared. */
  class Log {
    var deleted: seq<RclHandle>
    ghost var cleared: seq<RclHandle>

    constructor ()
      ensures deleted == [] && cleared == []
    {
      deleted, cleared := [], [];
    }
  }

  class RclHandle {
    var pointer: bool                // pointer_ is not null
    var parent: RclHandle?
    var children: set<RclHandle>
    const hasDeleter: bool
    ghost const serial: nat          // creation order
    ghost const creator: RclHandle?  // the parent given at creation

    constructor (pointer: bool, parent: RclHandle?, hasDeleter: bool, ghost serial: nat)
      ensures this.pointer == pointer && this.parent == parent && children == {}
      ensures this.hasDeleter == hasDeleter && this.serial == serial && creator == parent
    {
      this.pointer, this.parent, children := pointer, parent, {};
      this.hasDeleter, this.serial, creator := hasDeleter, serial, parent;
    }

    predicate Isolated()
      reads this
    {
      !pointer && parent == null && children == {}
    }

    function Above(): set<RclHandle>
      reads this
    {
      if parent == null then {} else {parent}
    }

    /**
     Clears this handle and everything below it. `tree` is the subtree of a live handle, and empty
     for a handle that was cleared before, of which nothing changes.
     */
    method Reset(log: Log, ghost tree: set<RclHandle>)
      requires pointer ==> TreeAt(this, tree) && parent !in tree
      requires !pointer ==> tree == {}
      modifies tree, Above(), log
      ensures AllIsolated(tree)
      ensures forall p | p in old(Above()) ::
                p.pointer == old(p.pointer) && p.parent == old(p.parent) &&
                p.children == if old(pointer) then old(p.children) - {this} else old(p.children)
      ensures Cleared(old(log.cleared), log.cleared, old(log.deleted), log.deleted, tree)
      decreases tree, 1
    {
      if !pointer {
        return;
      }
      if parent != null {
        parent.RemoveChild(this);
        parent := null;
      }
      assert TreeAt(this, tree);
      ResetChildren(log, tree);
      assert AllIsolated(tree - {this});
      RootClearedLast(this, old(log.cleared), log.cleared, old(log.deleted), log.deleted, tree);
      Delete(log);
    }

    /** The end of `Reset`: the deleter runs on the pointer, which is then cleared. */
    method Delete(log: Log)
      modifies this`pointer, this`children, log
      ensures !pointer && children == {}
      ensures log.deleted == old(log.deleted) + if hasDeleter then [this] else []
      ensures log.cleared == old(log.cleared) + [this]
    {
      if hasDeleter {
        log.deleted := log.deleted + [this];
      }
      log.cleared := log.cleared + [this];
      pointer := false;
      children := {};
    }

    method RemoveChild(child: RclHandle)
      modifies this`children
      ensures children == old(children) - {child}
    {
      children := children - {child};
    }

    method AddChild(child: RclHandle)
      modifies this`children
      ensures children == old(children) + {child}
    {
      children := children + {child};
    }

    /** The loop of `Reset`: the children in any order, each cut off first so it does not call back. */
    method ResetChildren(log: Log, ghost tree: set<RclHandle>)
      requires pointer && parent == null && TreeAt(this, tree)
      modifies tree, log
      ensures pointer && parent == null && children == old(children)
      ensures AllIsolated(tree - {this})
      ensures Cleared(old(log.cleared), log.cleared, old(log.deleted), log.deleted, tree - {this})
      decreases tree, 0
    {
      ghost var done, rest := {}, tree - {this};
      var todo := children;
      TreeBelow(this, tree);
      NothingCleared(log.cleared, log.deleted);
      while todo != {}
        invariant pointer && parent == null && children == old(children)
        invariant this in tree && Below(this, todo, rest)
        invariant done == tree - {this} - rest && rest <= tree - {this} && AllIsolated(done)
        invariant Cleared(old(log.cleared), log.cleared, old(log.deleted), log.deleted, done)
        decreases todo
      {
        var child :| child in todo;
        ghost var subtree := Subtree(child, rest);
        SubtreeSplits(this, child, todo, rest);
        MoveToDone(tree - {this}, done, rest, subtree);
        ResetChild(log, child, subtree, done, old(log.cleared), old(log.deleted));
        todo, rest, done := todo - {child}, rest - subtree, done + subtree;
      }
      NothingLeft(this, rest);
      assert done == tree - {this};
    }

    /** One turn of the loop: the child is cut off, then reset. */
    method ResetChild(log: Log, child: RclHandle, ghost subtree: set<RclHandle>, ghost done: set<RclHandle>,
                      ghost cleared: seq<RclHandle>, ghost deleted: seq<RclHandle>)
      requires TreeAt(child, subtree) && this !in subtree && done !! subtree && AllIsolated(done)
      requires forall x | x in subtree && x.creator != null :: x.creator !in done
      requires Cleared(cleared, log.cleared, deleted, log.deleted, done)
      modifies subtree, log
      ensures AllIsolated(done + subtree)
      ensures Cleared(cleared, log.cleared, deleted, log.deleted, done + subtree)
      decreases subtree, 2
    {
      ghost var c1, d1 := log.cleared, log.deleted;
      child.parent := null;
      child.Reset(log, subtree);
      ClearedTogether(cleared, c1, log.cleared, deleted, d1, log.deleted, done, subtree);
    }
  }

  predicate AllIsolated(hs: set<RclHandle>)
    reads hs
  {
    forall x | x in hs :: x.Isolated()
  }

  // ----- Subtrees -----

  /** `x` was created below `c`, directly or not, or is `c`. */
  ghost predicate Under(x: RclHandle, c: RclHandle)
    decreases x.serial
  {
    x == c || (x.creator != null && x.creator.serial < x.serial && Under(x.creator, c))
  }

  ghost function Subtree(c: RclHandle, within: set<RclHandle>): set<RclHandle> {
    set x | x in within && Under(x, c)
  }

  /** A live handle whose parent is its creator. */
  ghost predicate Linked(x: RclHandle)
    reads x`pointer, x`parent
  {
    x.pointer && x.parent != null && x.parent == x.creator && x.parent.serial < x.serial
  }

  /**
   `tree` is the whole subtree of `root`: live, with every link in it present in both directions.
   It does not depend on the parent of `root`.
   */
  ghost predicate TreeAt(root: RclHandle, tree: set<RclHandle>)
    reads tree`pointer, tree`children, (tree - {root})`parent
  {
    && root in tree && root.pointer && root.creator !in tree
    && (forall x, y | x in tree && y in x.children :: y in tree && y != root && y.parent == x)
    && (forall x | x in tree && x != root ::
          Linked(x) && root.serial < x.serial && x.parent in tree && x in x.parent.children)
  }

  /** What is left below `root` while its children are being reset: the subtrees of those in `todo`. */
  ghost predicate Below(root: RclHandle, todo: set<RclHandle>, rest: set<RclHandle>)
    reads rest
  {
    && todo <= rest
    && (forall x, y | x in rest && y in x.children :: y in rest && y.parent == x)
    && (forall x | x in todo :: x.parent == root)
    && (forall x | x in rest :: Linked(x) && root.serial < x.serial)
    && (forall x | x in rest && x !in todo :: x.parent in rest && x in x.parent.children)
  }

  lemma MoveToDone(total: set<RclHandle>, done: set<RclHandle>, rest: set<RclHandle>, part: set<RclHandle>)
    requires done == total - rest && part <= rest <= total
    ensures done !! part && done + part == total - (rest - part) && rest - part <= total
  {
  }

  lemma TreeBelow(root: RclHandle, tree: set<RclHandle>)
    requires TreeAt(root, tree)
    ensures Below(root, root.children, tree - {root})
  {
  }

  /** With no child to do nothing is left: following parents cannot go on for ever. */
  lemma NothingLeft(root: RclHandle, rest: set<RclHandle>)
    requires Below(root, {}, rest)
    ensures rest == {}
  {
    if x :| x in rest {
      ClimbsOut(root, x, rest);
    }
  }

  lemma {:induction false} ClimbsOut(root: RclHandle, x: RclHandle, rest: set<RclHandle>)
    requires Below(root, {}, rest) && x in rest
    ensures false
    decreases x.serial
  {
    ClimbsOut(root, x.parent, rest);
  }

  lemma {:induction false} UnderIsLater(x: RclHandle, c: RclHandle)
    requires Under(x, c)
    ensures c.serial <= x.serial
    decreases x.serial
  {
    if x != c {
      UnderIsLater(x.creator, c);
    }
  }

  /** One child's subtree can be taken out of what is left, and the others stay whole. */
  lemma SubtreeSplits(root: RclHandle, c: RclHandle, todo: set<RclHandle>, rest: set<RclHandle>)
    requires Below(root, todo, rest) && c in todo && root !in rest
    ensures TreeAt(c, Subtree(c, rest))
    ensures Below(root, todo - {c}, rest - Subtree(c, rest))
    ensures c in Subtree(c, rest)
    ensures forall x | x in Subtree(c, rest) && x.creator != null :: x.creator in rest || x.creator == root
  {
    var t := Subtree(c, rest);
    forall x | x in t && x != c
      ensures c.serial < x.serial && x !in todo && x.parent in t
    {
      UnderIsLater(x.creator, c);
    }
    forall x, y | x in t && y in x.children
      ensures y in t && y != c
    {
      assert x in rest && y in rest && Linked(y);
      assert y.creator == x && Under(y, c);
    }
    forall x, y | x in rest - t && y in x.children
      ensures y !in t
    {
      assert y in rest && Linked(y);
      assert y != c && y.creator == x;
    }
  }

  // ----- Orders of clearing -----

  ghost predicate NoDuplicates(order: seq<RclHandle>) {
    forall i, j | 0 <= i < j < |order| :: order[i] != order[j]
  }

  /** No handle comes before one that was created below it. */
  ghost predicate ChildrenFirst(order: seq<RclHandle>) {
    forall i, j | 0 <= i < |order| && 0 <= j < |order| && order[i].creator == order[j] :: i < j
  }

  function WithDeleter(order: seq<RclHandle>): seq<RclHandle> {
    if order == [] then []
    else WithDeleter(order[..|order| - 1]) + if order[|order| - 1].hasDeleter then [order[|order| - 1]] else []
  }

  /** Of the cleared handles exactly those with a deleter are deleted, as often as they are cleared. */
  lemma {:induction false} WithDeleterIsExact(order: seq<RclHandle>, x: RclHandle)
    ensures multiset(WithDeleter(order))[x] == if x.hasDeleter then multiset(order)[x] else 0
  {
    if order != [] {
      var init, last := order[..|order| - 1], order[|order| - 1];
      WithDeleterIsExact(init, x);
      assert order == init + [last];
    }
  }

  ghost predicate InOrder(order: seq<RclHandle>, handles: set<RclHandle>) {
    && (forall i | 0 <= i < |order| :: order[i] in handles)
    && (forall x | x in handles :: x in order)
    && NoDuplicates(order) && ChildrenFirst(order)
  }

  /**
   The clearing history grew by exactly `handles`, each once and children first, and the deleters
   of those that have one ran in that order.
   */
  ghost predicate Cleared(c0: seq<RclHandle>, c1: seq<RclHandle>, d0: seq<RclHandle>, d1: seq<RclHandle>,
                          handles: set<RclHandle>) {
    c0 <= c1 && InOrder(c1[|c0|..], handles) && d1 == d0 + WithDeleter(c1[|c0|..])
  }

  lemma NothingCleared(c: seq<RclHandle>, d: seq<RclHandle>)
    ensures Cleared(c, c, d, d, {})
  {
  }

  lemma {:induction false} WithDeleterConcat(a: seq<RclHandle>, b: seq<RclHandle>)
    ensures WithDeleter(a + b) == WithDeleter(a) + WithDeleter(b)
  {
    if b == [] {
      assert a + b == a;
    } else {
      assert (a + b)[..|a + b| - 1] == a + b[..|b| - 1];
      WithDeleterConcat(a, b[..|b| - 1]);
    }
  }

  lemma InOrderConcat(a: seq<RclHandle>, b: seq<RclHandle>, first: set<RclHandle>, second: set<RclHandle>)
    requires InOrder(a, first) && InOrder(b, second) && first !! second
    requires forall x | x in second && x.creator != null :: x.creator !in first
    ensures InOrder(a + b, first + second)
  {
    var ab := a + b;
    forall i | 0 <= i < |ab|
      ensures i < |a| ==> ab[i] == a[i] && ab[i] in first
      ensures i >= |a| ==> ab[i] == b[i - |a|] && ab[i] in second
    {
    }
    forall x | x in first + second
      ensures x in ab
    {
      assert x in a || x in b;
    }
    assert ChildrenFirst(ab);
  }

  lemma SuffixesConcat<T>(a: seq<T>, b: seq<T>, c: seq<T>)
    requires a <= b <= c
    ensures a <= c && c[|a|..] == b[|a|..] + c[|b|..]
  {
    assert c == b + c[|b|..];
  }

  /** Clearing one set and then another that was not created below the first. */
  lemma ClearedTogether(c0: seq<RclHandle>, c1: seq<RclHandle>, c2: seq<RclHandle>,
                        d0: seq<RclHandle>, d1: seq<RclHandle>, d2: seq<RclHandle>,
                        first: set<RclHandle>, second: set<RclHandle>)
    requires Cleared(c0, c1, d0, d1, first) && Cleared(c1, c2, d1, d2, second)
    requires first !! second && forall x | x in second && x.creator != null :: x.creator !in first
    ensures Cleared(c0, c2, d0, d2, first + second)
  {
    var a, b := c1[|c0|..], c2[|c1|..];
    SuffixesConcat(c0, c1, c2);
    WithDeleterConcat(a, b);
    InOrderConcat(a, b, first, second);
  }

  /** Clearing a root after everything below it. */
  lemma RootClearedLast(root: RclHandle, c0: seq<RclHandle>, c1: seq<RclHandle>,
                        d0: seq<RclHandle>, d1: seq<RclHandle>, tree: set<RclHandle>)
    requires Cleared(c0, c1, d0, d1, tree - {root}) && root in tree && root.creator !in tree
    ensures Cleared(c0, c1 + [root], d0, d1 + if root.hasDeleter then [root] else [], tree)
  {
    var c2, d2 := c1 + [root], d1 + if root.hasDeleter then [root] else [];
    assert c2[|c1|..] == [root];
    assert Cleared(c1, c2, d1, d2, {root});
    ClearedTogether(c0, c1, c2, d0, d1, d2, tree - {root}, {root});
    assert tree - {root} + {root} == tree;
  }

  /** Clearing handles that were live, below creators that were live, keeps a good history good. */
  lemma HistoryKept(c0: seq<RclHandle>, c1: seq<RclHandle>, d0: seq<RclHandle>, d1: seq<RclHandle>,
                    tree: set<RclHandle>)
    requires NoDuplicates(c0) && ChildrenFirst(c0) && d0 == WithDeleter(c0)
    requires Cleared(c0, c1, d0, d1, tree)
    requires forall x | x in tree :: x !in c0 && (x.creator != null ==> x.creator !in c0)
    ensures NoDuplicates(c1) && ChildrenFirst(c1) && d1 == WithDeleter(c1)
    ensures forall i | 0 <= i < |c1| :: c1[i] in c0 || c1[i] in tree
  {
    var before := set x | x in c0;
    assert InOrder(c0, before);
    assert c1 == c0 + c1[|c0|..];
    InOrderConcat(c0, c1[|c0|..], before, tree);
    WithDeleterConcat(c0, c1[|c0|..]);
  }

  // ----- All handles -----

  /** Every handle object alive in the process, and what has been done to handles so far. */
  class HandleTable {
    ghost var all: set<RclHandle>
    ghost var next: nat
    const log: Log

    constructor ()
      ensures Valid() && all == {} && fresh(log) && log.cleared == [] && log.deleted == []
    {
      all, next := {}, 0;
      log := new Log();
    }

    /**
     The links form a forest with both ends of each link in step; a child is live only under a live
     parent; no pointer has been cleared twice, and none after that of its creator.
     */
    ghost predicate Valid()
      reads this, log, all
    {
      Forest(all) && History(all, log.cleared, log.deleted) && forall x | x in all :: x.serial < next
    }

    /** `NewInstance`: a parent must be live, and so must the new pointer be if there is a parent. */
    method NewInstance(pointer: bool, parent: RclHandle?, hasDeleter: bool) returns (h: RclHandle)
      requires Valid()
      requires parent != null ==> parent in all && parent.pointer && pointer
      modifies this`all, this`next, (if parent == null then {} else {parent})`children
      ensures Valid() && fresh(h) && all == old(all) + {h}
      ensures h.pointer == pointer && h.parent == parent && h.children == {} && h.hasDeleter == hasDeleter
      ensures parent != null ==> parent.children == old(parent.children) + {h}
    {
      h := new RclHandle(pointer, parent, hasDeleter, next);
      if parent != null {
        parent.AddChild(h);
      }
      all, next := all + {h}, next + 1;
    }

    /** The live handles created below `h`, and `h`; nothing if `h` is not live. */
    ghost function LiveTree(h: RclHandle): set<RclHandle>
      reads this, all, h
    {
      if h.pointer then Subtree(h, set x | x in all && x.pointer) else {}
    }

    /**
     `Release`, which only a live pointer answers to: exactly the live handles of the subtree are
     cleared, each once and children first; all others keep their pointer, their parent and their
     children, except that the parent of `h` no longer has it as a child.
     */
    method Release(h: RclHandle)
      requires Valid() && h in all
      modifies all, log
      ensures Valid() && all == old(all) && next == old(next)
      ensures AllIsolated(old(LiveTree(h)))
      ensures forall x | x in all - old(LiveTree(h)) ::
                x.pointer == old(x.pointer) && x.parent == old(x.parent) && x.children == old(x.children) - {h}
      ensures Cleared(old(log.cleared), log.cleared, old(log.deleted), log.deleted, old(LiveTree(h)))
    {
      ghost var tree := LiveTree(h);
      if !h.pointer {
        NothingCleared(log.cleared, log.deleted);
        return;
      }
      LiveTreeIsTree(h);
      h.Reset(log, tree);
      forall x | x in all
        ensures InForest(x, all)
      {
        if x !in tree {
          assert old(InForest(x, all));
          forall y | y in x.children
            ensures y in all && y.parent == x
          {
            assert old(InForest(y, all));
          }
        }
      }
      HistoryKept(old(log.cleared), log.cleared, old(log.deleted), log.deleted, tree);
      forall i | 0 <= i < |log.cleared|
        ensures CreatorKnown(log.cleared[i], all, log.cleared)
      {
        var x := log.cleared[i];
        assert x in tree ==> old(InForest(x, all));
        assert x !in tree ==> x in old(log.cleared) && old(CreatorKnown(x, all, log.cleared));
      }
    }

    /** The object is collected: it releases its pointer, and then nothing refers to it any more. */
    method Destroy(h: RclHandle)
      requires Valid() && h in all
      modifies this`all, all, log
      ensures Valid() && all == old(all) - {h} && next == old(next)
      ensures forall x | x in all :: x.parent != h && h !in x.children
      ensures forall x | x in all - old(LiveTree(h)) ::
                x.pointer == old(x.pointer) && x.parent == old(x.parent) && x.children == old(x.children) - {h}
      ensures Cleared(old(log.cleared), log.cleared, old(log.deleted), log.deleted, old(LiveTree(h)))
    {
      if h.pointer {
        Release(h);
      } else {
        NothingCleared(log.cleared, log.deleted);
      }
      assert h.Isolated();
      ForgetIsolated(all, h, log.cleared, log.deleted);
      all := all - {h};
    }

    /** All ancestors of a live handle are live. */
    lemma {:induction false} LiveAncestors(x: RclHandle, a: RclHandle)
      requires Valid() && x in all && x.pointer && Under(x, a)
      ensures a in all && a.pointer
      decreases x.serial
    {
      if x != a {
        LiveAncestors(x.creator, a);
      }
    }

    /** No pointer is ever cleared, and so no deleter ever run, after that of any ancestor. */
    lemma {:induction false} ClearedBeforeAncestors(i: nat, j: nat)
      requires Valid() && i < |log.cleared| && j < |log.cleared|
      requires Under(log.cleared[i], log.cleared[j]) && log.cleared[i] != log.cleared[j]
      ensures i < j
      decreases log.cleared[i].serial
    {
      var m := log.cleared[i].creator;
      if m in log.cleared {
        var k :| 0 <= k < |log.cleared| && log.cleared[k] == m;
        if m != log.cleared[j] {
          ClearedBeforeAncestors(k, j);
        }
      } else {
        LiveAncestors(m, log.cleared[j]);
      }
    }

    lemma LiveTreeIsTree(h: RclHandle)
      requires Valid() && h in all && h.pointer
      ensures TreeAt(h, LiveTree(h)) && h.parent !in LiveTree(h)
      ensures forall x | x in LiveTree(h) && x.creator != null :: x.creator !in log.cleared && x !in log.cleared
      ensures forall x | x in all && x.parent in LiveTree(h) :: x in LiveTree(h)
    {
      var t := LiveTree(h);
      forall x | x in t && x != h
        ensures h.serial < x.serial && x.parent in t
      {
        UnderIsLater(x.creator, h);
      }
    }
  }

  /** Dead handles are isolated; live ones hang under a live creator, which knows them as children. */
  ghost predicate InForest(x: RclHandle, all: set<RclHandle>)
    requires x in all
    reads all
  {
    && (if x.pointer then x.parent == x.creator else x.Isolated())
    && (x.parent != null ==> Linked(x) && x.parent in all && x.parent.pointer && x in x.parent.children)
    && (forall y | y in x.children :: y in all && y.parent == x)
  }

  ghost predicate Forest(all: set<RclHandle>)
    reads all
  {
    forall x | x in all :: InForest(x, all)
  }

  ghost predicate History(all: set<RclHandle>, cleared: seq<RclHandle>, deleted: seq<RclHandle>)
    reads all
  {
    && NoDuplicates(cleared) && ChildrenFirst(cleared) && deleted == WithDeleter(cleared)
    && (forall x | x in all && x.pointer :: x !in cleared && (x.creator != null ==> x.creator !in cleared))
    && (forall i | 0 <= i < |cleared| :: CreatorKnown(cleared[i], all, cleared))
  }

  /** The creator of a cleared handle has been cleared as well, or is live. */
  ghost predicate CreatorKnown(x: RclHandle, all: set<RclHandle>, cleared: seq<RclHandle>)
    reads all
  {
    x.creator != null ==>
      x.creator.serial < x.serial && (x.creator in cleared || (x.creator in all && x.creator.pointer))
  }

  /** A handle that was cleared can be forgotten: nothing refers to it. */
  lemma ForgetIsolated(all: set<RclHandle>, h: RclHandle, cleared: seq<RclHandle>, deleted: seq<RclHandle>)
    requires Forest(all) && History(all, cleared, deleted) && h in all && h.Isolated()
    ensures Forest(all - {h}) && History(all - {h}, cleared, deleted)
    ensures forall x | x in all :: x.parent != h && h !in x.children
  {
    forall i | 0 <= i < |cleared|
      ensures CreatorKnown(cleared[i], all - {h}, cleared)
    {
      assert CreatorKnown(cleared[i], all, cleared);
    }
  }
}
