/** The mutable trie used to find rules by path prefix, refined to a map from component paths. */
module PrefixTrees {
  import opened Wrappers
  import opened Text

  // ---------- What the tree means ----------

  function Parent(p: Path): Path
    requires p != []
  {
    p[..|p| - 1]
  }

  function Last(p: Path): wstring
    requires p != []
  {
    p[|p| - 1]
  }

  function Extend(p: Path, c: wstring): Path {
    p + [c]
  }

  /** The longest key that is a prefix of the path. */
  function LongestPrefixKey<T>(m: map<Path, T>, p: Path): Option<Path> {
    if p in m then Some(p)
    else if p == [] then None
    else LongestPrefixKey(m, Parent(p))
  }

  /** The longest key that is a proper prefix of the path. */
  function ClosestAncestorKey<T>(m: map<Path, T>, p: Path): Option<Path> {
    if p == [] then None else LongestPrefixKey(m, Parent(p))
  }

  lemma {:induction false} LongestPrefixIsLongest<T>(m: map<Path, T>, p: Path)
    ensures
      match LongestPrefixKey(m, p)
      case Some(key) => key in m && key <= p && forall k :: k in m && k <= p ==> k <= key
      case None => forall k :: k in m ==> !(k <= p)
  {
    if p !in m && p != [] {
      LongestPrefixIsLongest(m, Parent(p));
      forall k | k in m && k <= p
        ensures k <= Parent(p)
      {
        assert k == p[..|k|] && p == p[..|p|];
      }
    }
  }

  lemma ClosestAncestorIsLongest<T>(m: map<Path, T>, p: Path)
    ensures
      match ClosestAncestorKey(m, p)
      case Some(key) => key in m && key < p && forall k :: k in m && k < p ==> k <= key
      case None => forall k :: k in m ==> !(k < p)
  {
    if p != [] {
      LongestPrefixIsLongest(m, Parent(p));
      assert forall k :: k in m && k < p ==> k <= Parent(p);
    }
  }

  lemma LongestOrAncestor<T>(m: map<Path, T>, p: Path)
    ensures LongestPrefixKey(m, p) == if p in m then Some(p) else ClosestAncestorKey(m, p)
  {
  }

  lemma AncestorOfExtend<T>(m: map<Path, T>, p: Path, c: wstring)
    ensures ClosestAncestorKey(m, Extend(p, c)) == LongestPrefixKey(m, p)
  {
    assert Parent(Extend(p, c)) == p;
  }

  /** Components without data below the last key do not matter. */
  lemma LongestPrefixSkips<T>(m: map<Path, T>, p: Path, q: Path)
    requires p <= q
    requires forall k :: k in m && k <= q ==> k <= p
    ensures LongestPrefixKey(m, q) == LongestPrefixKey(m, p)
  {
    LongestPrefixIsLongest(m, p);
    LongestPrefixIsLongest(m, q);
    var a, b := LongestPrefixKey(m, p), LongestPrefixKey(m, q);
    assert a.Some? ==> a.value <= q;
    if b.Some? {
      assert b.value <= p;
      assert a.value == q[..|a.value|] && b.value == q[..|b.value|];
    }
  }

  // ---------- Walking a delimited string ----------

  /** The key made of the first tokens. */
  ghost function KeyUpTo(tokens: seq<wstring>, i: nat): Path
    requires i <= |tokens|
  {
    NonEmpty(FoldAll(tokens[..i]))
  }

  lemma KeyUpToStep(tokens: seq<wstring>, i: nat)
    requires i < |tokens|
    ensures KeyUpTo(tokens, i + 1) ==
            if tokens[i] == [] then KeyUpTo(tokens, i) else Extend(KeyUpTo(tokens, i), Fold(tokens[i]))
  {
    assert FoldAll(tokens[..i + 1]) == FoldAll(tokens[..i]) + [Fold(tokens[i])];
    NonEmptyConcat(FoldAll(tokens[..i]), [Fold(tokens[i])]);
  }

  lemma KeyUpToEnds(s: wstring)
    ensures KeyUpTo(Split(s), 0) == []
    ensures KeyUpTo(Split(s), |Split(s)|) == Key(s)
    ensures forall i :: 0 <= i <= |Split(s)| ==> KeyUpTo(Split(s), i) <= Key(s)
  {
    var tokens := Split(s);
    SplitFold(s);
    assert tokens[..|tokens|] == tokens;
    forall i | 0 <= i <= |tokens|
      ensures KeyUpTo(tokens, i) <= Key(s)
    {
      assert FoldAll(tokens) == FoldAll(tokens[..i]) + FoldAll(tokens[i..]);
      NonEmptyConcat(FoldAll(tokens[..i]), FoldAll(tokens[i..]));
    }
  }

  // ---------- The tree ----------

  class Node<T> {
    var data: Option<T>
    const parent: Node?<T>
    const parentKey: wstring
    /** Children by folded component: the source hashes and compares components without case. */
    var children: map<wstring, Node<T>>

    constructor (parent: Node?<T>, parentKey: wstring)
      ensures data == None && children == map[]
      ensures this.parent == parent && this.parentKey == parentKey
    {
      data := None;
      this.parent := parent;
      this.parentKey := parentKey;
      children := map[];
    }

    /** Climbs parent pointers to the first node that has data. */
    method GetClosestAncestor(ghost tree: PrefixTree<T>, ghost path: Path) returns (r: Node?<T>)
      requires tree.Valid() && path in tree.nodes && tree.nodes[path] == this
      ensures r == tree.NodeAt(ClosestAncestorKey(tree.Contents(), path))
    {
      var current := parent;
      ghost var at := path;
      while current != null
        invariant at in tree.nodes && tree.NodeValid(at) && current == tree.nodes[at].parent
        invariant ClosestAncestorKey(tree.Contents(), path) == ClosestAncestorKey(tree.Contents(), at)
        decreases |at|
      {
        at := Parent(at);
        if current.data.Some? {
          assert at in tree.Contents();
          return current;
        }
        assert tree.NodeValid(at);
        current := current.parent;
      }
      return null;
    }
  }

  class PrefixTree<T> {
    const root: Node<T>
    /** Every node by the path that leads to it. */
    ghost var nodes: map<Path, Node<T>>
    /** The way back from a node to its path, so that no node sits at two paths. */
    ghost var pathOf: map<Node<T>, Path>

    ghost predicate NodeValid(p: Path)
      requires p in nodes
      reads this, nodes.Values
    {
      var n := nodes[p];
      && n in pathOf && pathOf[n] == p
      && (forall c :: c in n.children ==> Extend(p, c) in nodes)
      && if p == [] then n.parent == null
         else
           && Parent(p) in nodes && n.parent == nodes[Parent(p)] && Fold(n.parentKey) == Last(p)
           && Last(p) in n.parent.children && n.parent.children[Last(p)] == n
    }

    ghost predicate Valid()
      reads this, nodes.Values
    {
      && [] in nodes && nodes[[]] == root
      && (forall p {:trigger NodeValid(p)} :: p in nodes ==> NodeValid(p))
    }

    /** A node that has neither data nor children. */
    ghost predicate Bare(p: Path)
      requires p in nodes
      reads this, nodes.Values
    {
      nodes[p].data == None && nodes[p].children == map[]
    }

    /** No node other than the root is there for nothing, except perhaps the one at a path. */
    ghost predicate PrunedExcept(at: Path)
      reads this, nodes.Values
    {
      forall p :: p in nodes && p != [] && p != at ==> !Bare(p)
    }

    ghost predicate Pruned()
      reads this, nodes.Values
    {
      PrunedExcept([])
    }

    ghost function Contents(): map<Path, T>
      reads this, nodes.Values
    {
      map p | p in nodes && nodes[p].data.Some? :: nodes[p].data.value
    }

    ghost function NodeAt(key: Option<Path>): Node?<T>
      reads this
    {
      if key.Some? && key.value in nodes then nodes[key.value] else null
    }

    constructor ()
      ensures Valid() && Pruned() && Contents() == map[]
      ensures fresh(this) && fresh(nodes.Values)
    {
      root := new Node(null, []);
      new;
      nodes, pathOf := map[[] := root], map[root := []];
    }

    lemma {:induction false} PrefixClosed(p: Path, q: Path)
      requires Valid() && q in nodes && p <= q
      ensures p in nodes
      decreases |q|
    {
      if p != q {
        assert NodeValid(q);
        PrefixClosed(p, Parent(q));
      }
    }

    lemma ChildLink(p: Path, c: wstring)
      requires Valid() && p in nodes
      ensures c in nodes[p].children <==> Extend(p, c) in nodes
      ensures c in nodes[p].children ==> nodes[p].children[c] == nodes[Extend(p, c)]
    {
      assert NodeValid(p);
      assert Parent(Extend(p, c)) == p;
      if Extend(p, c) in nodes { assert NodeValid(Extend(p, c)); }
    }

    /** Walks down the tree; the node need not have data. */
    method TraverseTo(prefix: wstring) returns (r: Node?<T>)
      requires Valid()
      ensures r == NodeAt(Some(Key(prefix)))
    {
      var current := root;
      var tokens := Split(prefix);
      KeyUpToEnds(prefix);
      for i := 0 to |tokens|
        invariant KeyUpTo(tokens, i) in nodes && nodes[KeyUpTo(tokens, i)] == current
      {
        ghost var at := KeyUpTo(tokens, i);
        KeyUpToStep(tokens, i);
        if tokens[i] == [] { continue; }
        var c := Fold(tokens[i]);
        ChildLink(at, c);
        if c !in current.children {
          if Key(prefix) in nodes { PrefixClosed(Extend(at, c), Key(prefix)); }
          return null;
        }
        current := current.children[c];
      }
      return current;
    }

    method Find(prefix: wstring) returns (r: Node?<T>)
      requires Valid()
      ensures r == if Key(prefix) in Contents() then nodes[Key(prefix)] else null
    {
      r := TraverseTo(prefix);
      if r == null || r.data == None {
        return null;
      }
    }

    method Contains(prefix: wstring) returns (r: bool)
      requires Valid()
      ensures r <==> Key(prefix) in Contents()
    {
      var n := Find(prefix);
      return n != null;
    }

    method LongestMatchingPrefix(stringToMatch: wstring) returns (r: Node?<T>)
      requires Valid()
      ensures r == NodeAt(LongestPrefixKey(Contents(), Key(stringToMatch)))
    {
      hide LongestPrefixKey, KeyUpTo, Split, Key;
      var current := root;
      r := null;
      var tokens := Split(stringToMatch);
      KeyUpToEnds(stringToMatch);
      ghost var at, longest, m := [], None, Contents();
      for i := 0 to |tokens|
        invariant at == KeyUpTo(tokens, i) && at in nodes && nodes[at] == current
        invariant r == NodeAt(longest)
        invariant longest == ClosestAncestorKey(m, at) || longest == LongestPrefixKey(m, at)
      {
        KeyUpToStep(tokens, i);
        if tokens[i] == [] { continue; }
        LongestOrAncestor(m, at);
        if current.data.Some? {
          r, longest := current, Some(at);
        }
        var c := Fold(tokens[i]);
        ChildLink(at, c);
        if c !in current.children {
          NothingBelow(at, c, Key(stringToMatch));
          return;
        }
        current := current.children[c];
        AncestorOfExtend(m, at, c);
        at := Extend(at, c);
      }
      LongestOrAncestor(m, at);
      if current.data.Some? {
        r := current;
      }
    }

    /** Where the walk stops for want of a child, the longest key has been passed. */
    lemma NothingBelow(at: Path, c: wstring, full: Path)
      requires Valid() && at in nodes && Extend(at, c) !in nodes && Extend(at, c) <= full
      ensures LongestPrefixKey(Contents(), full) == LongestPrefixKey(Contents(), at)
    {
      forall k | k in Contents() && k <= full
        ensures k <= at
      {
        if !(k <= at) { PrefixClosed(Extend(at, c), k); }
      }
      LongestPrefixSkips(Contents(), at, full);
    }

    // ---------- Changing the tree ----------

    /** One step of the descent: the child is found, or a fresh bare one is added. */
    method FindOrEmplaceChild(node: Node<T>, childKey: wstring, ghost at: Path) returns (child: Node<T>)
      requires Valid() && at in nodes && nodes[at] == node
      modifies this, node`children
      ensures Valid()
      ensures nodes == old(nodes)[Extend(at, Fold(childKey)) := child]
      ensures Extend(at, Fold(childKey)) in old(nodes) ==> nodes == old(nodes)
      ensures Extend(at, Fold(childKey)) !in old(nodes) ==>
          fresh(child) && child.data == None && child.children == map[]
      ensures Fold(childKey) in node.children
    {
      var c := Fold(childKey);
      ChildLink(at, c);
      if c in node.children {
        return node.children[c];
      }
      assert NodeValid(at) && Parent(Extend(at, c)) == at && Last(Extend(at, c)) == c;
      child := new Node(node, childKey);
      node.children := node.children[c := child];
      nodes, pathOf := nodes[Extend(at, c) := child], pathOf[child := Extend(at, c)];
      forall p {:trigger NodeValid(p)} | p in nodes
        ensures NodeValid(p)
      {
        if p != Extend(at, c) { assert old(NodeValid(p)); }
      }
    }

    /** `FindOrEmplaceChild`, with what it means for the contents. */
    method Descend(node: Node<T>, childKey: wstring, ghost at: Path) returns (child: Node<T>)
      requires Valid() && at in nodes && nodes[at] == node
      modifies this, node`children
      ensures Valid()
      ensures Extend(at, Fold(childKey)) in nodes && child == nodes[Extend(at, Fold(childKey))]
      ensures fresh(nodes.Values - old(nodes.Values))
      ensures Contents() == old(Contents())
      ensures old(PrunedExcept(at)) ==> PrunedExcept(Extend(at, Fold(childKey)))
    {
      child := FindOrEmplaceChild(node, childKey, at);
    }

    /** Makes sure the whole path exists. Only bare nodes are added, so nothing new is contained. */
    method PrefixPathCreate(prefix: wstring) returns (r: Node<T>)
      requires Valid() && Pruned()
      modifies this, nodes.Values
      ensures Valid() && PrunedExcept(Key(prefix))
      ensures Key(prefix) in nodes && r == nodes[Key(prefix)]
      ensures Contents() == old(Contents())
      ensures fresh(nodes.Values - old(nodes.Values))
    {
      r := root;
      var tokens := Split(prefix);
      KeyUpToEnds(prefix);
      ghost var at := [];
      for i := 0 to |tokens|
        invariant Valid() && PrunedExcept(at)
        invariant at == KeyUpTo(tokens, i) && at in nodes && nodes[at] == r
        invariant Contents() == old(Contents())
        invariant fresh(nodes.Values - old(nodes.Values))
      {
        KeyUpToStep(tokens, i);
        if tokens[i] == [] { continue; }
        r := Descend(r, tokens[i], at);
        at := Extend(at, Fold(tokens[i]));
      }
    }

    /** Storing or clearing data at an existing node is one change of the map. */
    method SetData(node: Node<T>, data: Option<T>, ghost at: Path)
      requires Valid() && at in nodes && nodes[at] == node
      modifies node`data
      ensures Valid()
      ensures Contents() == if data.Some? then old(Contents())[at := data.value] else old(Contents()) - {at}
      ensures old(PrunedExcept(at)) ==> if data.Some? then Pruned() else PrunedExcept(at)
    {
      node.data := data;
      assert old(NodeValid(at));
      forall p {:trigger NodeValid(p)} | p in nodes
        ensures NodeValid(p)
      {
        assert old(NodeValid(p));
      }
      forall p {:trigger nodes[p]} | p in nodes && nodes[p] == node
        ensures p == at
      {
        assert old(NodeValid(p));
      }
    }

    /** Adds data unless the prefix already has some. */
    method Insert(prefix: wstring, data: T) returns (r: Node<T>, inserted: bool)
      requires Valid() && Pruned()
      modifies this, nodes.Values
      ensures Valid() && Pruned() && fresh(nodes.Values - old(nodes.Values))
      ensures inserted <==> Key(prefix) !in old(Contents())
      ensures Contents() == if inserted then old(Contents())[Key(prefix) := data] else old(Contents())
      ensures Key(prefix) in nodes && r == nodes[Key(prefix)]
    {
      r := PrefixPathCreate(prefix);
      if r.data.Some? {
        assert Key(prefix) in Contents();
        return r, false;
      }
      assert Key(prefix) !in Contents();
      SetData(r, Some(data), Key(prefix));
      return r, true;
    }

    /** Adds data or replaces what was there. */
    method Update(prefix: wstring, data: T) returns (r: Node<T>)
      requires Valid() && Pruned()
      modifies this, nodes.Values
      ensures Valid() && Pruned() && fresh(nodes.Values - old(nodes.Values))
      ensures Contents() == old(Contents())[Key(prefix) := data]
      ensures Key(prefix) in nodes && r == nodes[Key(prefix)]
    {
      r := PrefixPathCreate(prefix);
      SetData(r, Some(data), Key(prefix));
    }

    /** Unlinks a bare node from its parent. */
    method EraseChild(parentNode: Node<T>, childKey: wstring, ghost at: Path)
      requires Valid() && at in nodes && nodes[at] == parentNode
      requires Extend(at, Fold(childKey)) in nodes && Bare(Extend(at, Fold(childKey)))
      modifies this, parentNode`children
      ensures Valid()
      ensures at in nodes && nodes[at] == parentNode && nodes.Values <= old(nodes.Values)
      ensures Contents() == old(Contents())
      ensures old(PrunedExcept(Extend(at, Fold(childKey)))) ==> PrunedExcept(at)
    {
      var c := Fold(childKey);
      ghost var gone := Extend(at, c);
      assert NodeValid(at) && NodeValid(gone) && Parent(gone) == at && Last(gone) == c;
      parentNode.children := parentNode.children - {c};
      nodes := nodes - {gone};
      forall p {:trigger NodeValid(p)} | p in nodes
        ensures NodeValid(p)
      {
        assert old(NodeValid(p));
      }
      forall p {:trigger nodes[p]} | p in nodes && nodes[p] == parentNode
        ensures p == at
      {
        assert old(NodeValid(p));
      }
    }

    /** Climbs from a node, unlinking it as long as it is bare. */
    method PruneUpwards(start: Node<T>, ghost path: Path)
      requires Valid() && PrunedExcept(path) && path in nodes && nodes[path] == start
      modifies this, nodes.Values
      ensures Valid() && Pruned() && nodes.Values <= old(nodes.Values)
      ensures Contents() == old(Contents())
    {
      var node := start;
      ghost var at := path;
      while node.data == None && node.children == map[] && node.parent != null
        invariant Valid() && PrunedExcept(at) && nodes.Values <= old(nodes.Values)
        invariant at in nodes && nodes[at] == node
        invariant Contents() == old(Contents())
        decreases |at|
      {
        assert NodeValid(at) && Extend(Parent(at), Last(at)) == at;
        var childKeyToErase := node.parentKey;
        node := node.parent;
        at := Parent(at);
        EraseChild(node, childKeyToErase, at);
      }
      assert NodeValid(at);
    }

    /** Removes the data at a prefix, then every node that is left without a purpose. */
    method Erase(prefix: wstring) returns (erased: bool)
      requires Valid() && Pruned()
      modifies this, nodes.Values
      ensures Valid() && Pruned() && nodes.Values <= old(nodes.Values)
      ensures erased <==> Key(prefix) in old(Contents())
      ensures Contents() == old(Contents()) - {Key(prefix)}
    {
      var node := Find(prefix);
      if node == null {
        return false;
      }
      SetData(node, None, Key(prefix));
      PruneUpwards(node, Key(prefix));
      return true;
    }

    // ---------- What pruning is for ----------

    /** Below every node that is not the root, and at the root of a tree that is not empty, there is
        a key: a path exists in a pruned tree only because a key needs it. */
    lemma {:induction false} SomeKeyBelow(p: Path, depth: nat)
      requires Valid() && Pruned() && p in nodes && p != []
      requires forall q :: q in nodes ==> |q| <= depth
      ensures exists k :: k in Contents() && p <= k
      decreases depth - |p|
    {
      if nodes[p].data.Some? {
        assert p in Contents() && p <= p;
      } else {
        assert !Bare(p) && NodeValid(p);
        var c :| c in nodes[p].children;
        SomeKeyBelow(Extend(p, c), depth);
        var k :| k in Contents() && Extend(p, c) <= k;
        assert p <= k;
      }
    }

    lemma DeepestPath(paths: set<Path>) returns (depth: nat)
      ensures forall q :: q in paths ==> |q| <= depth
    {
      if paths == {} {
        depth := 0;
      } else {
        var q :| q in paths;
        var d := DeepestPath(paths - {q});
        depth := if |q| > d then |q| else d;
        assert forall r :: r in paths ==> r == q || r in paths - {q};
      }
    }

    /** Whether a walk down the tree succeeds says exactly whether some key extends the prefix. */
    method HasPathForPrefix(prefix: wstring) returns (r: bool)
      requires Valid() && Pruned()
      ensures Key(prefix) != [] ==> (r <==> exists k :: k in Contents() && Key(prefix) <= k)
      ensures Key(prefix) == [] ==> r
    {
      var n := TraverseTo(prefix);
      r := n != null;
      if r && Key(prefix) != [] {
        ghost var depth := DeepestPath(nodes.Keys);
        SomeKeyBelow(Key(prefix), depth);
      }
      if k :| k in Contents() && Key(prefix) <= k {
        PrefixClosed(Key(prefix), k);
      }
    }
  }
}
