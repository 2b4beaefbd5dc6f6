/** db_simple.c: the key-value database over the red-black tree. */
module DbSimple {
  import opened Options
  import opened Keys
  import opened KeyValue
  import opened Sequences
  import opened RBShape
  import opened RBOrder
  import opened RBBalance
  import RBQueries
  import opened RedBlack

  /** The nodes of `S`, leaving out those with the key `k`, hold exactly the pairs of `m`. */
  ghost predicate StoresBut(S: set<Node>, m: Contents, k: Key)
    reads S`value
  {
    && (forall n :: n in S && n.key != k ==> n.key in m && m[n.key] == n.value)
    && (forall key :: key in m && key != k ==> exists n :: n in S && n.key == key)
  }

  /** The nodes of `S` hold exactly the pairs of `m`. */
  ghost predicate Stores(S: set<Node>, m: Contents)
    reads S`value
  {
    && (forall n :: n in S ==> n.key in m && m[n.key] == n.value)
    && (forall k :: k in m ==> exists n :: n in S && n.key == k)
  }

  /** `x` is the node of `S` with its key. */
  ghost predicate Only(S: set<Node>, x: Node) {
    x in S && forall n :: n in S && n.key == x.key ==> n == x
  }

  class SimpleDb {
    const head: Head
    ghost var contents: Contents

    ghost predicate Valid()
      reads this, head, head.Repr`left, head.Repr`right, head.Repr`parent, head.Repr`red, head.Repr`value
    {
      head.Searchable() && Stores(head.Repr, contents)
    }

    constructor ()
      ensures Valid() && contents == map[] && fresh(head) && head.Repr == {}
    {
      head := new Head();
      contents := map[];
    }

    /** Two nodes of the tree never share a key. */
    lemma KeyOnce(x: Node)
      requires head.Searchable() && x in head.Repr
      ensures Only(head.Repr, x)
    {
      InorderNodes(head.tree);
      var s := Inorder(head.tree);
      forall n | n in head.Repr && n.key == x.key ensures n == x {
        var i :| 0 <= i < |s| && s[i] == n;
        var j :| 0 <= j < |s| && s[j] == x;
        StrcmpOrder(n.key, x.key);
      }
    }

    method Get(key: Key) returns (r: Option<string>)
      requires Valid()
      ensures r == Lookup(contents, key)
      ensures (r.Some? <==> key in contents) && (r.Some? ==> r.value == contents[key])
    {
      var found := RBQueries.Find(head, key);
      if found != null {
        return Some(found.value);
      }
      return None;
    }

    method DropNode(key: Key)
      requires Valid()
      modifies this`contents, head, head.Repr`left, head.Repr`right, head.Repr`parent, head.Repr`red
      ensures Valid() && contents == old(contents) - {key}
      ensures head.Repr <= old(head.Repr)
    {
      hide Ordered, Whole, RedBlackTree, Stores;
      var found := RBQueries.Find(head, key);
      ghost var S := head.Repr;
      if found != null {
        KeyOnce(found);
        var removed; ghost var pos;
        removed, pos := head.Remove(found);
        Dropped(S, head.Repr, contents, found);
      } else {
        Absent(S, contents, key);
      }
      contents := contents - {key};
    }

    static lemma Dropped(S: set<Node>, S': set<Node>, m: Contents, x: Node)
      requires Stores(S, m) && Only(S, x) && S' == S - {x}
      ensures Stores(S', m - {x.key})
    {
    }

    static lemma Absent(S: set<Node>, m: Contents, key: Key)
      requires Stores(S, m) && forall n :: n in S ==> n.key != key
      ensures Stores(S, m - {key})
    {
    }

    /** RB_INSERT of a node for `key`: afterwards `x` is the node with that key. */
    method InsertKey(key: Key) returns (x: Node)
      requires Valid()
      modifies head, head.Repr`left, head.Repr`right, head.Repr`parent, head.Repr`red
      ensures head.Searchable() && Only(head.Repr, x) && x.key == key
      ensures StoresBut(head.Repr, contents, key)
      ensures fresh(head.Repr - old(head.Repr))
    {
      hide Ordered, Whole, RedBlackTree;
      var node := new Node(key);
      var collision; ghost var pos;
      collision, pos := head.Insert(node);
      x := if collision != null then collision else node;
      KeyOnce(x);
    }

    method SetValue(x: Node, value: string)
      requires head.Searchable() && Only(head.Repr, x) && StoresBut(head.Repr, contents, x.key)
      modifies x`value, this`contents
      ensures Valid() && contents == old(contents)[x.key := value]
    {
      hide Ordered, Whole, RedBlackTree;
      x.value := value;
      contents := contents[x.key := value];
    }

    method Set(key: Key, value: Option<string>)
      requires Valid()
      modifies this`contents, head, head.Repr
      ensures Valid() && contents == Updated(old(contents), key, value)
      ensures value.Some? ==> contents == old(contents)[key := value.value]
      ensures value.None? ==> contents == old(contents) - {key}
      ensures fresh(head.Repr - old(head.Repr))
    {
      if value.None? {
        DropNode(key);
        return;
      }
      var x := InsertKey(key);
      SetValue(x, value.value);
    }

    method Destroy() returns (ghost freed: seq<Node>)
      requires Valid()
      modifies this`contents, head, head.Repr`left, head.Repr`right, head.Repr`parent, head.Repr`red
      ensures freed == old(Inorder(head.tree)) && head.root == null && Valid() && contents == map[]
    {
      freed := DestroyNodes();
      NothingLeft();
      contents := map[];
    }

    lemma NothingLeft()
      requires head.Searchable() && Inorder(head.tree) == []
      ensures head.Repr == {} && head.root == null && Stores(head.Repr, map[])
    {
      InorderNodes(head.tree);
    }

    /** The loop of destroy: visits the nodes in order, taking the next one before the current one is removed
        and freed. */
    method DestroyNodes() returns (ghost freed: seq<Node>)
      requires head.Searchable()
      modifies head, head.Repr`left, head.Repr`right, head.Repr`parent, head.Repr`red
      ensures head.Searchable() && Inorder(head.tree) == [] && freed == old(Inorder(head.tree))
    {
      hide Ordered, Whole, RedBlackTree;
      freed := [];
      var node := RBQueries.MinMax(head, -1);
      while node != null
        invariant head.Searchable() && head.Repr <= old(head.Repr)
        invariant old(Inorder(head.tree)) == freed + Inorder(head.tree) && node == RBQueries.First(Inorder(head.tree))
        decreases |Inorder(head.tree)|
      {
        ghost var x := node;
        node := DestroyFirst(node);
        Assoc(freed, [x], Inorder(head.tree));
        freed := freed + [x];
      }
    }

    /** One round of that loop: the first node leaves, and the one behind it is next. */
    method DestroyFirst(node: Node) returns (next: Node?)
      requires head.Searchable() && Inorder(head.tree) != [] && Inorder(head.tree)[0] == node
      modifies head, head.Repr`left, head.Repr`right, head.Repr`parent, head.Repr`red
      ensures head.Searchable() && head.Repr <= old(head.Repr)
      ensures old(Inorder(head.tree)) == [node] + Inorder(head.tree) && next == RBQueries.First(Inorder(head.tree))
    {
      InorderNodes(head.tree);
      ghost var all := Inorder(head.tree);
      next := RBQueries.Next(head, node, 0);
      var removed; ghost var pos;
      removed, pos := head.Remove(node);
      RBQueries.WithoutFirst(all, Inorder(head.tree), pos);
    }
  }
}
