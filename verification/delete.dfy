/** `del t[k]` (`Trie.__delitem__`) as trie.py writes it: clear the value at
    `k`, then walk upwards removing each node that has no children, stopping
    at a node with children or at the root. The test never looks at the
    value of an ancestor, so a stored ancestor left childless is removed too.
    `PruneKeeping` is the evidently intended compaction, which also stops at
    an ancestor holding a value. */
module TrieDelete {
  import opened Symbols
  import opened TrieNode
  import opened Trie

  /** Below `n` the path `k` has no branches and ends at a childless node:
      every node on it has the next symbol of `k` as its only child. */
  predicate SoleChain<V>(n: Node<V>, k: Key)
    requires Find(n, k).Some?
    decreases k
  {
    if k == [] then n.children == map[]
    else n.children.Keys == {k[0]} && SoleChain(n.children[k[0]], k[1..])
  }

  /** Clears the value at `k` below `n` and compacts as the source's loop
      does. Returns the new node and whether `n` itself is unlinked from its
      parent; `isRoot` marks the root, which is never unlinked. */
  function Prune<V>(n: Node<V>, k: Key, isRoot: bool): (r: (Node<V>, bool))
    requires Find(n, k).Some?
    ensures r.1 <==> !isRoot && SoleChain(n, k)
    ensures k == [] ==> r.0.value.None?
    ensures k != [] ==> r.0.value == n.value
    ensures r.0.children.Keys <= n.children.Keys
    ensures !r.1 && !isRoot ==> r.0.children != map[]
    ensures r.1 ==> r.0.children == map[]
    decreases k
  {
    if k == [] then (n.(value := None), !isRoot && n.children == map[])
    else
      var (child, gone) := Prune(n.children[k[0]], k[1..], false);
      if gone then
        var rest := n.children - {k[0]};
        assert rest == map[] <==> n.children.Keys == {k[0]} by {
          assert rest.Keys == n.children.Keys - {k[0]};
          assert k[0] in n.children;
          if n.children.Keys == {k[0]} {
            assert rest.Keys == {};
          }
          if rest == map[] {
            assert n.children.Keys - {k[0]} == {};
          }
        }
        (n.(children := rest), !isRoot && rest == map[])
      else
        var kept := n.children[k[0] := child];
        assert k[0] in kept;
        (n.(children := kept), false)
  }

  /** `del t[k]`: `KeyError` unless a value is stored at `k`. */
  function Delete<V>(t: Node<V>, k: Key): (r: Result<Node<V>>)
    ensures !r.NeedMore?
    ensures r.NoSuchPath? <==> Lookup(t, k).None?
  {
    match Find(t, k)
    case None => NoSuchPath
    case Some(n) => if n.value.None? then NoSuchPath else Ok(Prune(t, k, true).0)
  }

  /** A sole chain holds no path that leaves `k`. */
  lemma {:induction false} SoleChainPaths<V>(n: Node<V>, k: Key, q: Key)
    requires Find(n, k).Some? && SoleChain(n, k)
    requires Find(n, q).Some?
    ensures IsPrefix(q, k)
    decreases k
  {
    if q != [] {
      SoleChainPaths(n.children[k[0]], k[1..], q[1..]);
      assert q == [q[0]] + q[1..];
    }
  }

  /** The rest of a sole chain is a sole chain. */
  lemma {:induction false} SoleChainSuffix<V>(n: Node<V>, k: Key, q: Key)
    requires Find(n, k).Some? && SoleChain(n, k) && IsPrefix(q, k)
    ensures Find(n, q).Some? && Find(Find(n, q).value, k[|q|..]).Some?
    ensures SoleChain(Find(n, q).value, k[|q|..])
    decreases k
  {
    assert k == q + k[|q|..];
    FindAppend(n, q, k[|q|..]);
    if q != [] {
      assert q[1..] == k[1..][..|q| - 1];
      assert k[1..][|q| - 1..] == k[|q|..];
      SoleChainSuffix(n.children[k[0]], k[1..], q[1..]);
    }
  }

  /** Off the path nothing changes: a key that is not a prefix of `k`
      reaches the same node after pruning as before. */
  lemma {:induction false} PruneOffPath<V>(n: Node<V>, k: Key, isRoot: bool, q: Key)
    requires Find(n, k).Some? && !IsPrefix(q, k)
    ensures Find(Prune(n, k, isRoot).0, q) == Find(n, q)
    decreases k
  {
    var r := Prune(n, k, isRoot).0;
    if k != [] && q != [] && q[0] == k[0] {
      assert q == [q[0]] + q[1..];
      assert !IsPrefix(q[1..], k[1..]) by {
        if |q[1..]| <= |k[1..]| {
          assert k[..|q|] == [k[0]] + k[1..][..|q| - 1];
        }
      }
      var child := n.children[k[0]];
      if Prune(child, k[1..], false).1 {
        if Find(child, q[1..]).Some? {
          SoleChainPaths(child, k[1..], q[1..]);
        }
      } else {
        PruneOffPath(child, k[1..], false, q[1..]);
      }
    }
  }

  /** On the path, below the top: the node at a non-empty prefix `q` of `k`
      is gone exactly when a sole chain runs from it to `k`; otherwise it is
      the old node pruned along the rest of `k`. */
  lemma {:induction false} PruneOnPath<V>(n: Node<V>, k: Key, isRoot: bool, q: Key)
    requires Find(n, k).Some? && IsPrefix(q, k) && q != []
    ensures Find(n, q).Some? && Find(Find(n, q).value, k[|q|..]).Some?
    ensures Find(Prune(n, k, isRoot).0, q) ==
      if SoleChain(Find(n, q).value, k[|q|..]) then None
      else Some(Prune(Find(n, q).value, k[|q|..], false).0)
    decreases k
  {
    assert k == q + k[|q|..];
    FindAppend(n, q, k[|q|..]);
    var child := n.children[k[0]];
    var q' := q[1..];
    assert q' == k[1..][..|q'|] && k[1..][|q'|..] == k[|q|..];
    assert Find(n, q) == Find(child, q');
    if Prune(child, k[1..], false).1 {
      SoleChainSuffix(child, k[1..], q');
    } else if q' != [] {
      PruneOnPath(child, k[1..], false, q');
    }
  }

  /** Pruning keeps a well-formed node well-formed. */
  lemma {:induction false} PruneWellFormed<V>(n: Node<V>, k: Key, isRoot: bool)
    requires Find(n, k).Some? && WellFormed(n)
    ensures WellFormed(Prune(n, k, isRoot).0)
    decreases k
  {
    if k != [] {
      var child := n.children[k[0]];
      if !Prune(child, k[1..], false).1 {
        PruneWellFormed(child, k[1..], false);
      }
    }
  }

  /** After `del t[k]`, nothing is stored under `k`. */
  lemma DeleteRemovesKey<V>(t: Node<V>, k: Key)
    requires Delete(t, k).Ok?
    ensures Lookup(Delete(t, k).value, k).None?
  {
    if k != [] {
      PruneOnPath(t, k, true, k);
      assert k[|k|..] == [];
    }
  }

  /** `del t[k]` changes nothing at a key that is not a prefix of `k`. */
  lemma DeleteKeepsOffPath<V>(t: Node<V>, k: Key, q: Key)
    requires Delete(t, k).Ok? && !IsPrefix(q, k)
    ensures Find(Delete(t, k).value, q) == Find(t, q)
    ensures Lookup(Delete(t, k).value, q) == Lookup(t, q)
  {
    PruneOffPath(t, k, true, q);
  }

  /** At a proper prefix `q` of `k`: the root keeps its value; any other
      stored prefix keeps its value unless a sole chain runs from it to `k`,
      in which case it is lost. A value is never invented or changed. */
  lemma DeleteOnPrefix<V>(t: Node<V>, k: Key, q: Key)
    requires Delete(t, k).Ok? && IsPrefix(q, k) && q != k
    ensures Find(t, q).Some? && Find(Find(t, q).value, k[|q|..]).Some?
    ensures Lookup(Delete(t, k).value, q) ==
      if q != [] && SoleChain(Find(t, q).value, k[|q|..]) then None else Lookup(t, q)
  {
    assert k == q + k[|q|..];
    FindAppend(t, q, k[|q|..]);
    if q != [] {
      PruneOnPath(t, k, true, q);
    }
  }

  /** No childless node other than the root remains on `k`'s path. */
  lemma DeleteLeavesNoDeadOnPath<V>(t: Node<V>, k: Key, q: Key)
    requires Delete(t, k).Ok? && IsPrefix(q, k) && q != []
    requires Find(Delete(t, k).value, q).Some?
    ensures Find(Delete(t, k).value, q).value.children != map[]
  {
    PruneOnPath(t, k, true, q);
  }

  /** `del t[k]` keeps a well-formed trie well-formed. */
  lemma DeleteWellFormed<V>(t: Node<V>, k: Key)
    requires Delete(t, k).Ok? && WellFormed(t)
    ensures WellFormed(Delete(t, k).value)
  {
    PruneWellFormed(t, k, true);
  }

  /** Deleting the only stored key of a well-formed trie leaves a root with
      no value and no children. */
  lemma DeleteSoleKey<V>(t: Node<V>, k: Key)
    requires WellFormed(t) && Lookup(t, k).Some?
    requires forall q :: Lookup(t, q).Some? ==> q == k
    ensures Delete(t, k).Ok?
    ensures Delete(t, k).value.children == map[]
    ensures Delete(t, k).value.value.None?
  {
    var t' := Delete(t, k).value;
    forall q
      ensures Lookup(t', q).None?
    {
      if q == k {
        DeleteRemovesKey(t, k);
      } else if IsPrefix(q, k) {
        DeleteOnPrefix(t, k, q);
      } else {
        DeleteKeepsOffPath(t, k, q);
      }
    }
    DeleteWellFormed(t, k);
    EmptyWellFormed(t');
    assert Lookup(t', []).None?;
  }

  /** trie.py:117 ignores values: with "f" and "foo" stored, deleting "foo"
      also removes "f". */
  lemma DeleteDropsStoredPrefix()
    ensures var t := Set(Set(Fresh<int>(), "f", 1), "foo", 2);
      Lookup(t, "f") == Some(1) && Delete(t, "foo").Ok? && Lookup(Delete(t, "foo").value, "f").None?
  {
  }

  /** Compaction that stops at an ancestor holding a value: a node is
      unlinked only when it has neither children nor a value. */
  function PruneKeeping<V>(n: Node<V>, k: Key, isRoot: bool): (r: (Node<V>, bool))
    requires Find(n, k).Some?
    ensures k == [] ==> r.0.value.None?
    ensures k != [] ==> r.0.value == n.value
    ensures !r.1 && !isRoot ==> Live(r.0)
    ensures r.1 ==> !isRoot && r.0.children == map[] && r.0.value.None?
    decreases k
  {
    if k == [] then (n.(value := None), !isRoot && n.children == map[])
    else
      var (child, gone) := PruneKeeping(n.children[k[0]], k[1..], false);
      if gone then
        var rest := n.children - {k[0]};
        (n.(children := rest), !isRoot && rest == map[] && n.value.None?)
      else
        var kept := n.children[k[0] := child];
        assert k[0] in kept;
        (n.(children := kept), false)
  }

  /** `del t[k]` with value-aware compaction. */
  function DeleteKeeping<V>(t: Node<V>, k: Key): (r: Result<Node<V>>)
    ensures !r.NeedMore?
    ensures r.NoSuchPath? <==> Lookup(t, k).None?
  {
    match Find(t, k)
    case None => NoSuchPath
    case Some(n) => if n.value.None? then NoSuchPath else Ok(PruneKeeping(t, k, true).0)
  }

  /** Value-aware pruning changes no key other than `k`; a node it unlinks
      stored nothing except at `k`. */
  lemma {:induction false} PruneKeepingLookup<V>(n: Node<V>, k: Key, isRoot: bool, q: Key)
    requires Find(n, k).Some? && q != k
    ensures !PruneKeeping(n, k, isRoot).1 ==> Lookup(PruneKeeping(n, k, isRoot).0, q) == Lookup(n, q)
    ensures PruneKeeping(n, k, isRoot).1 ==> Lookup(n, q).None?
    decreases k
  {
    if k != [] && q != [] && q[0] == k[0] {
      assert q[1..] != k[1..] by {
        assert q == [q[0]] + q[1..] && k == [k[0]] + k[1..];
      }
      PruneKeepingLookup(n.children[k[0]], k[1..], false, q[1..]);
    } else if k != [] && q != [] && PruneKeeping(n, k, isRoot).1 {
      var rest := n.children - {k[0]};
      assert PruneKeeping(n.children[k[0]], k[1..], false).1;
      assert rest == map[];
      var h := q[0];
      assert h in n.children ==> h in rest;
    }
  }

  /** Value-aware pruning keeps a well-formed node well-formed. */
  lemma {:induction false} PruneKeepingWellFormed<V>(n: Node<V>, k: Key, isRoot: bool)
    requires Find(n, k).Some? && WellFormed(n)
    ensures WellFormed(PruneKeeping(n, k, isRoot).0)
    decreases k
  {
    if k != [] {
      var child := n.children[k[0]];
      if !PruneKeeping(child, k[1..], false).1 {
        PruneKeepingWellFormed(child, k[1..], false);
      }
    }
  }

  /** With value-aware compaction `del t[k]` removes `k`, keeps every other
      stored key, and keeps the trie well-formed. */
  lemma DeleteKeepingContents<V>(t: Node<V>, k: Key, q: Key)
    requires DeleteKeeping(t, k).Ok?
    ensures Lookup(DeleteKeeping(t, k).value, k).None?
    ensures q != k ==> Lookup(DeleteKeeping(t, k).value, q) == Lookup(t, q)
    ensures WellFormed(t) ==> WellFormed(DeleteKeeping(t, k).value)
  {
    if q != k {
      PruneKeepingLookup(t, k, true, q);
    }
    if WellFormed(t) {
      PruneKeepingWellFormed(t, k, true);
    }
    PruneKeepingRemoves(t, k, true);
  }

  /** Value-aware pruning leaves nothing stored at `k`. */
  lemma {:induction false} PruneKeepingRemoves<V>(n: Node<V>, k: Key, isRoot: bool)
    requires Find(n, k).Some?
    ensures !PruneKeeping(n, k, isRoot).1 ==> Lookup(PruneKeeping(n, k, isRoot).0, k).None?
    decreases k
  {
    if k != [] {
      PruneKeepingRemoves(n.children[k[0]], k[1..], false);
    }
  }

  /** With value-aware compaction, deleting "foo" keeps "f". */
  lemma DeleteKeepingKeepsStoredPrefix()
    ensures var t := Set(Set(Fresh<int>(), "f", 1), "foo", 2);
      DeleteKeeping(t, "foo").Ok? && Lookup(DeleteKeeping(t, "foo").value, "f") == Some(1)
  {
  }
}
