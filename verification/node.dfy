/** The trie's node (`Node` in trie.py), with parent back-pointers replaced by
    paths: a node is identified by the key that reaches it from the root. */
module TrieNode {
  import opened Symbols

  /** A value that may be absent; `None` plays the part of `Node.no_value`. */
  datatype Option<T> = None | Some(value: T)

  /** A node: its optional stored value and its children keyed by symbol. */
  datatype Node<V> = Node(value: Option<V>, children: map<Sym, Node<V>>)

  /** A fresh node: no value, no children. */
  function Fresh<V>(): Node<V> {
    Node(None, map[])
  }

  /** `Trie._getnode`: the node reached from `n` by following `k`, or `None`
      (the source's `KeyError`) at the first symbol with no child. */
  function Find<V>(n: Node<V>, k: Key): Option<Node<V>>
    decreases k
  {
    if k == [] then Some(n)
    else if k[0] in n.children then Find(n.children[k[0]], k[1..])
    else None
  }

  /** The value stored under `k`, if the path exists and its node holds one. */
  function Lookup<V>(n: Node<V>, k: Key): Option<V> {
    match Find(n, k)
    case None => None
    case Some(m) => m.value
  }

  /** A node worth keeping: it holds a value or has children. */
  predicate Live<V>(n: Node<V>) {
    n.value.Some? || n.children != map[]
  }

  /** No dead node below `n`: every descendant holds a value or has children.
      The node itself (the root, for a whole trie) may be dead. */
  predicate WellFormed<V>(n: Node<V>) {
    forall c :: c in n.children ==> Live(n.children[c]) && WellFormed(n.children[c])
  }

  /** Walking `p` then `q` is walking `p + q`. */
  lemma {:induction false} FindAppend<V>(n: Node<V>, p: Key, q: Key)
    ensures Find(n, p + q) == (match Find(n, p) case None => None case Some(m) => Find(m, q))
  {
    if p != [] {
      assert (p + q)[0] == p[0] && (p + q)[1..] == p[1..] + q;
      if p[0] in n.children {
        FindAppend(n.children[p[0]], p[1..], q);
      }
    } else {
      assert p + q == q;
    }
  }

  /** One more symbol: the child of the node at `p`. */
  lemma FindChild<V>(n: Node<V>, p: Key, c: Sym)
    ensures Find(n, p + [c]) ==
      (match Find(n, p)
       case None => None
       case Some(m) => if c in m.children then Some(m.children[c]) else None)
  {
    FindAppend(n, p, [c]);
  }

  /** Every node below a well-formed node is well-formed, and every node
      other than the starting one is live. */
  lemma {:induction false} FindWellFormed<V>(n: Node<V>, k: Key)
    requires WellFormed(n) && Find(n, k).Some?
    ensures WellFormed(Find(n, k).value)
    ensures k != [] ==> Live(Find(n, k).value)
    decreases k
  {
    if k != [] {
      FindWellFormed(n.children[k[0]], k[1..]);
    }
  }

  /** A path from a live, well-formed node to some stored value. */
  function StoredPath<V>(n: Node<V>): (p: Key)
    requires WellFormed(n) && Live(n)
    ensures Lookup(n, p).Some?
  {
    if n.value.Some? then []
    else
      var c := MinSym(n.children.Keys);
      var p' := StoredPath(n.children[c]);
      assert ([c] + p')[0] == c && ([c] + p')[1..] == p';
      [c] + p'
  }

  /** A well-formed node that stores nothing anywhere below it has no children. */
  lemma EmptyWellFormed<V>(n: Node<V>)
    requires WellFormed(n)
    requires forall q :: Lookup(n, q).None?
    ensures n.children == map[]
  {
    if n.children != map[] {
      var c := MinSym(n.children.Keys);
      var p := StoredPath(n.children[c]);
      assert Lookup(n, [c] + p).Some? by {
        assert ([c] + p)[0] == c && ([c] + p)[1..] == p;
      }
    }
  }
}
