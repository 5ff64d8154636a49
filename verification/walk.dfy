/** Ordered traversal: `Node.walk` and the `Trie` iterators built on it
    (`__iter__`, `iteritems`, `itervalues`). Generators become sequences,
    and the key of each yielded node is the path that reached it. */
module TrieWalk {
  import opened Symbols
  import opened TrieNode
  import opened Trie

  /** A node together with the key that reaches it. */
  datatype Entry<V> = Entry(path: Key, node: Node<V>)

  /** The entries of `es` with `p` put in front of every path. */
  function Relocate<V>(p: Key, es: seq<Entry<V>>): seq<Entry<V>>
  {
    if es == [] then []
    else [Entry(p + es[0].path, es[0].node)] + Relocate(p, es[1..])
  }

  /** `Relocate` entry by entry. */
  lemma {:induction false} RelocateIndex<V>(p: Key, es: seq<Entry<V>>)
    ensures |Relocate(p, es)| == |es|
    ensures forall i :: 0 <= i < |es| ==> Relocate(p, es)[i] == Entry(p + es[i].path, es[i].node)
  {
    if es != [] {
      RelocateIndex(p, es[1..]);
    }
  }

  /** The paths of a sequence of entries. */
  function Paths<V>(es: seq<Entry<V>>): (r: seq<Key>)
    ensures |r| == |es|
    ensures forall i :: 0 <= i < |r| ==> r[i] == es[i].path
  {
    seq(|es|, i requires 0 <= i < |es| => es[i].path)
  }

  /** The keys of a sequence of (key, value) pairs. */
  function PairKeys<V>(items: seq<(Key, V)>): (r: seq<Key>)
    ensures |r| == |items|
    ensures forall i :: 0 <= i < |r| ==> r[i] == items[i].0
  {
    seq(|items|, i requires 0 <= i < |items| => items[i].0)
  }

  /** Every node of `n`, depth first, children in ascending symbol order:
      the order in which `walk` pops nodes off its stack. */
  function Preorder<V>(n: Node<V>): seq<Entry<V>>
    decreases n, 1, 0
  {
    [Entry([], n)] + Under(n, SortedSyms(n.children.Keys))
  }

  /** The subtrees of `n`'s children `ks`, in the order of `ks`. */
  function Under<V>(n: Node<V>, ks: seq<Sym>): seq<Entry<V>>
    requires forall i :: 0 <= i < |ks| ==> ks[i] in n.children
    decreases n, 0, |ks|
  {
    if ks == [] then []
    else Relocate([ks[0]], Preorder(n.children[ks[0]])) + Under(n, ks[1..])
  }

  /** The (key, value) pairs of the entries holding a value, in order. */
  function Valued<V>(es: seq<Entry<V>>): seq<(Key, V)> {
    if es == [] then []
    else
      (if es[0].node.value.Some? then [(es[0].path, es[0].node.value.value)] else [])
      + Valued(es[1..])
  }

  /** `Trie.iteritems`: every stored (key, value) pair in traversal order. */
  function Items<V>(t: Node<V>): seq<(Key, V)> {
    Valued(Preorder(t))
  }

  /** Filtering distributes over concatenation. */
  lemma {:induction false} ValuedAppend<V>(a: seq<Entry<V>>, b: seq<Entry<V>>)
    ensures Valued(a + b) == Valued(a) + Valued(b)
  {
    if a != [] {
      assert (a + b)[0] == a[0] && (a + b)[1..] == a[1..] + b;
      ValuedAppend(a[1..], b);
    } else {
      assert a + b == b;
    }
  }

  /** A pair is yielded iff some entry holds it. */
  lemma {:induction false} ValuedMember<V>(es: seq<Entry<V>>, k: Key, v: V)
    ensures (k, v) in Valued(es) <==> exists i :: 0 <= i < |es| && es[i].path == k && es[i].node.value == Some(v)
  {
    if es != [] {
      ValuedMember(es[1..], k, v);
      if (k, v) in Valued(es[1..]) {
        var i :| 0 <= i < |es[1..]| && es[1..][i].path == k && es[1..][i].node.value == Some(v);
        assert es[i + 1] == es[1..][i];
      }
      if exists i :: 0 <= i < |es| && es[i].path == k && es[i].node.value == Some(v) {
        var i :| 0 <= i < |es| && es[i].path == k && es[i].node.value == Some(v);
        if i > 0 {
          assert es[1..][i - 1] == es[i];
        }
      }
    }
  }

  /** Filtering keeps ascending order. */
  lemma {:induction false} ValuedAscending<V>(es: seq<Entry<V>>)
    requires Ascending(Paths(es))
    ensures Ascending(PairKeys(Valued(es)))
  {
    if es != [] {
      var tail := es[1..];
      assert Ascending(Paths(tail)) by {
        forall i, j | 0 <= i < j < |tail|
          ensures LexLess(tail[i].path, tail[j].path)
        {
          assert tail[i] == es[i + 1] && tail[j] == es[j + 1];
          assert Paths(es)[i + 1] == es[i + 1].path && Paths(es)[j + 1] == es[j + 1].path;
        }
      }
      ValuedAscending(tail);
      var rest := Valued(tail);
      if es[0].node.value.Some? {
        var all := Valued(es);
        assert all == [(es[0].path, es[0].node.value.value)] + rest;
        forall j | 0 <= j < |rest|
          ensures LexLess(es[0].path, rest[j].0)
        {
          assert rest[j] in rest;
          ValuedMember(tail, rest[j].0, rest[j].1);
          var i :| 0 <= i < |tail| && tail[i].path == rest[j].0 && tail[i].node.value == Some(rest[j].1);
          assert tail[i] == es[i + 1];
          assert Paths(es)[0] == es[0].path && Paths(es)[i + 1] == es[i + 1].path;
        }
        forall i, j | 0 <= i < j < |all|
          ensures LexLess(PairKeys(all)[i], PairKeys(all)[j])
        {
          assert all[j] == rest[j - 1];
          if i > 0 {
            assert all[i] == rest[i - 1];
            assert PairKeys(rest)[i - 1] == rest[i - 1].0 && PairKeys(rest)[j - 1] == rest[j - 1].0;
          }
        }
      } else {
        assert Valued(es) == rest;
      }
    }
  }

  /** An entry lies in the subtrees `ks` iff its path starts with a symbol of
      `ks` and the rest of the path reaches it within that child. */
  lemma {:induction false} UnderMember<V>(n: Node<V>, ks: seq<Sym>, e: Entry<V>)
    requires forall i :: 0 <= i < |ks| ==> ks[i] in n.children
    ensures e in Under(n, ks) <==>
      |e.path| > 0 && e.path[0] in ks && Entry(e.path[1..], e.node) in Preorder(n.children[e.path[0]])
    decreases |ks|
  {
    if ks != [] {
      UnderMember(n, ks[1..], e);
      var here := Relocate([ks[0]], Preorder(n.children[ks[0]]));
      RelocateIndex([ks[0]], Preorder(n.children[ks[0]]));
      if e in here {
        var i :| 0 <= i < |here| && here[i] == e;
        assert e.path[1..] == Preorder(n.children[ks[0]])[i].path;
      }
      if |e.path| > 0 && e.path[0] == ks[0] && Entry(e.path[1..], e.node) in Preorder(n.children[ks[0]]) {
        var pre := Preorder(n.children[ks[0]]);
        var i :| 0 <= i < |pre| && pre[i] == Entry(e.path[1..], e.node);
        assert e.path == [ks[0]] + e.path[1..];
        assert here[i] == e;
      }
    }
  }

  /** Every node appears in the traversal at exactly the key that reaches it. */
  lemma {:induction false} PreorderMember<V>(n: Node<V>, e: Entry<V>)
    ensures e in Preorder(n) <==> Find(n, e.path) == Some(e.node)
    decreases e.path
  {
    var ks := SortedSyms(n.children.Keys);
    UnderMember(n, ks, e);
    if e.path != [] {
      if e.path[0] in n.children {
        PreorderMember(n.children[e.path[0]], Entry(e.path[1..], e.node));
      }
    }
  }

  /** A common prefix keeps the paths in order. */
  lemma RelocateAscending<V>(p: Key, es: seq<Entry<V>>)
    requires Ascending(Paths(es))
    ensures Ascending(Paths(Relocate(p, es)))
  {
    RelocateIndex(p, es);
    forall i, j | 0 <= i < j < |es|
      ensures LexLess(p + es[i].path, p + es[j].path)
    {
      LexCommonPrefix(p, es[i].path, es[j].path);
    }
  }

  /** The traversal of a node lists paths in strictly ascending order. */
  lemma {:induction false} PreorderAscending<V>(n: Node<V>)
    ensures Ascending(Paths(Preorder(n)))
    decreases n, 1, 0
  {
    var ks := SortedSyms(n.children.Keys);
    SortedSymsIncreasing(n.children.Keys);
    UnderAscending(n, ks);
    var u := Under(n, ks);
    forall j | 0 <= j < |u|
      ensures |u[j].path| > 0
    {
      UnderMember(n, ks, u[j]);
    }
  }

  /** Every path in the subtrees `ks` starts with a symbol of `ks`. */
  lemma UnderHeads<V>(n: Node<V>, ks: seq<Sym>)
    requires forall i :: 0 <= i < |ks| ==> ks[i] in n.children
    ensures forall j :: 0 <= j < |Under(n, ks)| ==> |Under(n, ks)[j].path| > 0 && Under(n, ks)[j].path[0] in ks
  {
    var u := Under(n, ks);
    forall j | 0 <= j < |u|
      ensures |u[j].path| > 0 && u[j].path[0] in ks
    {
      UnderMember(n, ks, u[j]);
    }
  }

  /** Two ascending runs, the first entirely below the second, make one. */
  lemma AscendingConcat<V>(a: seq<Entry<V>>, b: seq<Entry<V>>)
    requires Ascending(Paths(a)) && Ascending(Paths(b))
    requires forall i, j :: 0 <= i < |a| && 0 <= j < |b| ==> LexLess(a[i].path, b[j].path)
    ensures Ascending(Paths(a + b))
  {
  }

  /** Subtrees taken in increasing symbol order list ascending paths. */
  lemma {:induction false} UnderAscending<V>(n: Node<V>, ks: seq<Sym>)
    requires forall i :: 0 <= i < |ks| ==> ks[i] in n.children
    requires Increasing(ks)
    ensures Ascending(Paths(Under(n, ks)))
    decreases n, 0, |ks|
  {
    if ks != [] {
      var here := Relocate([ks[0]], Preorder(n.children[ks[0]]));
      var rest := Under(n, ks[1..]);
      PreorderAscending(n.children[ks[0]]);
      RelocateAscending([ks[0]], Preorder(n.children[ks[0]]));
      RelocateIndex([ks[0]], Preorder(n.children[ks[0]]));
      UnderAscending(n, ks[1..]);
      UnderHeads(n, ks[1..]);
      forall i, j | 0 <= i < |here| && 0 <= j < |rest|
        ensures LexLess(here[i].path, rest[j].path)
      {
        var h := rest[j].path[0];
        assert h in ks[1..];
        assert here[i].path[0] == ks[0];
      }
      AscendingConcat(here, rest);
    }
  }

  /** `Trie.__iter__`: the stored keys, each once, in ascending
      lexicographic order; a key comes before its extensions. */
  function Keys<V>(t: Node<V>): (r: seq<Key>)
    ensures |r| == |Items(t)| && forall i :: 0 <= i < |r| ==> r[i] == Items(t)[i].0
    ensures Ascending(r)
    ensures forall k :: k in r <==> Lookup(t, k).Some?
  {
    var items := Items(t);
    var r := PairKeys(items);
    PreorderAscending(t);
    ValuedAscending(Preorder(t));
    forall k
      ensures k in r <==> Lookup(t, k).Some?
    {
      if k in r {
        var i :| 0 <= i < |r| && r[i] == k;
        ItemsMember(t, k, items[i].1);
      }
      if Lookup(t, k).Some? {
        ItemsMember(t, k, Lookup(t, k).value);
        var i :| 0 <= i < |items| && items[i] == (k, Lookup(t, k).value);
        assert r[i] == k;
      }
    }
    r
  }

  /** `Trie.itervalues`: the stored values, in the order of `Keys`. */
  function Values<V>(t: Node<V>): (r: seq<V>)
    ensures |r| == |Keys(t)|
    ensures forall i :: 0 <= i < |r| ==> Lookup(t, Keys(t)[i]) == Some(r[i])
  {
    var items := Items(t);
    forall i | 0 <= i < |items|
      ensures Lookup(t, items[i].0) == Some(items[i].1)
    {
      ItemsMember(t, items[i].0, items[i].1);
    }
    seq(|items|, i requires 0 <= i < |items| => items[i].1)
  }

  /** A pair is yielded by `iteritems` iff that value is stored under that key. */
  lemma ItemsMember<V>(t: Node<V>, k: Key, v: V)
    ensures (k, v) in Items(t) <==> Lookup(t, k) == Some(v)
  {
    var pre := Preorder(t);
    ValuedMember(pre, k, v);
    if Lookup(t, k) == Some(v) {
      var m := Find(t, k).value;
      PreorderMember(t, Entry(k, m));
      var i :| 0 <= i < |pre| && pre[i] == Entry(k, m);
    }
    if (k, v) in Items(t) {
      var i :| 0 <= i < |pre| && pre[i].path == k && pre[i].node.value == Some(v);
      PreorderMember(t, pre[i]);
    }
  }

  /** Round trip: a constructed trie yields exactly the keys of `mapping`
      (and the empty key when `rootData` is present), each with its last
      write; `Keys` states the order. */
  lemma InitItems<V>(rootData: Option<V>, mapping: seq<(Key, V)>, k: Key, v: V)
    ensures (k, v) in Items(Init(rootData, mapping)) <==>
      LastWrite(mapping, k, if k == [] then rootData else None) == Some(v)
  {
    ItemsMember(Init(rootData, mapping), k, v);
    InitContents(rootData, mapping, k);
  }

  /** A root holding a value is yielded first, under the empty key. */
  lemma ItemsRootFirst<V>(t: Node<V>)
    requires t.value.Some?
    ensures |Items(t)| > 0 && Items(t)[0] == ([], t.value.value)
  {
  }

  /** The stack `walk` keeps, bottom first: the entries its pending nodes
      will still produce, the top of the stack first. */
  function Pending<V>(stack: seq<Entry<V>>): seq<Entry<V>>
  {
    if stack == [] then []
    else Pending(stack[1..]) + Relocate(stack[0].path, Preorder(stack[0].node))
  }

  /** The entries `walk` pushes for `n`'s children `ks`, largest symbol
      first, so that the smallest is popped next. */
  function Pushed<V>(p: Key, n: Node<V>, ks: seq<Sym>): seq<Entry<V>>
    requires forall i :: 0 <= i < |ks| ==> ks[i] in n.children
  {
    if ks == [] then []
    else Pushed(p, n, ks[1..]) + [Entry(p + [ks[0]], n.children[ks[0]])]
  }

  /** Stacking `b` on `a`: `b`'s entries are produced first. */
  lemma {:induction false} PendingAppend<V>(a: seq<Entry<V>>, b: seq<Entry<V>>)
    ensures Pending(a + b) == Pending(b) + Pending(a)
  {
    if a == [] {
      assert a + b == b;
    } else {
      assert (a + b)[0] == a[0] && (a + b)[1..] == a[1..] + b;
      PendingAppend(a[1..], b);
    }
  }

  /** The empty prefix changes nothing. */
  lemma {:induction false} RelocateEmpty<V>(es: seq<Entry<V>>)
    ensures Relocate([], es) == es
  {
    if es != [] {
      RelocateEmpty(es[1..]);
      assert [] + es[0].path == es[0].path;
      assert es == [es[0]] + es[1..];
    }
  }

  /** Prefixing distributes over concatenation. */
  lemma {:induction false} RelocateAppend<V>(p: Key, a: seq<Entry<V>>, b: seq<Entry<V>>)
    ensures Relocate(p, a + b) == Relocate(p, a) + Relocate(p, b)
  {
    if a == [] {
      assert a + b == b;
    } else {
      assert (a + b)[0] == a[0] && (a + b)[1..] == a[1..] + b;
      RelocateAppend(p, a[1..], b);
    }
  }

  /** Prefixing twice is prefixing once with the joined prefix. */
  lemma {:induction false} RelocateRelocate<V>(p: Key, q: Key, es: seq<Entry<V>>)
    ensures Relocate(p, Relocate(q, es)) == Relocate(p + q, es)
  {
    if es != [] {
      RelocateRelocate(p, q, es[1..]);
      assert p + (q + es[0].path) == (p + q) + es[0].path;
    }
  }

  /** Popping the children pushed for `n` produces `n`'s subtrees in
      ascending order. */
  lemma {:induction false} PendingPushed<V>(p: Key, n: Node<V>, ks: seq<Sym>)
    requires forall i :: 0 <= i < |ks| ==> ks[i] in n.children
    ensures Pending(Pushed(p, n, ks)) == Relocate(p, Under(n, ks))
    decreases |ks|
  {
    if ks != [] {
      var top := Entry(p + [ks[0]], n.children[ks[0]]);
      var below := Pushed(p, n, ks[1..]);
      assert Pushed(p, n, ks) == below + [top];
      PendingAppend(below, [top]);
      assert Pending([top]) == Relocate(p + [ks[0]], Preorder(n.children[ks[0]])) by {
        assert [top][1..] == [];
      }
      PendingPushed(p, n, ks[1..]);
      RelocateRelocate(p, [ks[0]], Preorder(n.children[ks[0]]));
      RelocateAppend(p, Relocate([ks[0]], Preorder(n.children[ks[0]])), Under(n, ks[1..]));
    }
  }

  /** The top of the stack is traversed first. */
  lemma PendingTop<V>(rest: seq<Entry<V>>, top: Entry<V>)
    ensures Pending(rest + [top]) == Relocate(top.path, Preorder(top.node)) + Pending(rest)
  {
    PendingAppend(rest, [top]);
    assert [top][1..] == [];
  }

  /** A relocated traversal starts with its own node, then its subtrees. */
  lemma RelocatePreorder<V>(p: Key, n: Node<V>)
    ensures Relocate(p, Preorder(n)) == [Entry(p, n)] + Relocate(p, Under(n, SortedSyms(n.children.Keys)))
  {
    var u := Under(n, SortedSyms(n.children.Keys));
    RelocateAppend(p, [Entry([], n)], u);
    assert p + [] == p;
  }

  /** Popping the top of the stack yields its entry first; pushing its
      children in their place leaves the rest of the traversal pending. */
  lemma PopStep<V>(rest: seq<Entry<V>>, top: Entry<V>, ks: seq<Sym>)
    requires ks == SortedSyms(top.node.children.Keys)
    ensures Pending(rest + [top]) == [top] + Pending(rest + Pushed(top.path, top.node, ks))
  {
    var pushed := Pushed(top.path, top.node, ks);
    var under := Relocate(top.path, Under(top.node, ks));
    PendingTop(rest, top);
    RelocatePreorder(top.path, top.node);
    PendingAppend(rest, pushed);
    PendingPushed(top.path, top.node, ks);
    ghost var a := Pending(rest + [top]);
    ghost var p := Pending(rest);
    ghost var b := Pending(rest + pushed);
    assert a == ([top] + under) + p;
    assert b == under + p;
    SeqAssoc([top], under, p);
  }

  /** Concatenation is associative. */
  lemma SeqAssoc<T>(x: seq<T>, y: seq<T>, z: seq<T>)
    ensures (x + y) + z == x + (y + z)
  {
  }

  /** One turn of `walk`'s loop keeps the traversal on course: the popped
      entry joins the visited ones, its children take its place, and what is
      pending shrinks. */
  lemma WalkStep<V>(t: Node<V>, visited: seq<Entry<V>>, rest: seq<Entry<V>>, top: Entry<V>, ks: seq<Sym>)
    requires ks == SortedSyms(top.node.children.Keys)
    requires visited + Pending(rest + [top]) == Preorder(t)
    ensures (visited + [top]) + Pending(rest + Pushed(top.path, top.node, ks)) == Preorder(t)
    ensures |Pending(rest + Pushed(top.path, top.node, ks))| < |Pending(rest + [top])|
  {
    PopStep(rest, top, ks);
    ghost var next := Pending(rest + Pushed(top.path, top.node, ks));
    SeqAssoc(visited, [top], next);
  }

  /** Visiting one more entry yields it if it holds a value. */
  lemma ValuedSnoc<V>(es: seq<Entry<V>>, e: Entry<V>)
    ensures Valued(es + [e]) == Valued(es) + (if e.node.value.Some? then [(e.path, e.node.value.value)] else [])
  {
    ValuedAppend(es, [e]);
    assert [e][1..] == [];
  }

  /** `walk` starts with the root alone on its stack. */
  lemma WalkStart<V>(t: Node<V>)
    ensures Pending([Entry([], t)]) == Preorder(t)
  {
    PendingTop([], Entry([], t));
    assert [] + [Entry([], t)] == [Entry([], t)];
    RelocateEmpty(Preorder(t));
  }

  /** `iteritems` as `walk` computes it: pop a node, yield it if it holds a
      value, push its children in descending symbol order. */
  method Walk<V>(t: Node<V>) returns (out: seq<(Key, V)>)
    ensures out == Items(t)
  {
    var stack := [Entry([], t)];
    ghost var visited: seq<Entry<V>> := [];
    WalkStart(t);
    out := [];
    while stack != []
      invariant visited + Pending(stack) == Preorder(t)
      invariant out == Valued(visited)
      decreases |Pending(stack)|
    {
      var top := stack[|stack| - 1];
      var rest := stack[..|stack| - 1];
      var ks := SortedSyms(top.node.children.Keys);
      assert stack == rest + [top];
      WalkStep(t, visited, rest, top, ks);
      ValuedSnoc(visited, top);
      if top.node.value.Some? {
        out := out + [(top.path, top.node.value.value)];
      }
      visited := visited + [top];
      stack := rest + Pushed(top.path, top.node, ks);
    }
    assert visited == Preorder(t);
  }
}
