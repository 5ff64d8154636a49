/** The `Trie` container of trie.py: insertion, construction, lookup and the
    one-level `children` query. A trie is its root node; the root always
    exists, even when nothing is stored. */
module Trie {
  import opened Symbols
  import opened TrieNode

  /** Outcome of a lookup-family operation: a value, `KeyError` (no such
      path) or `NeedMore` (a valueless interior node). */
  datatype Result<T> = Ok(value: T) | NoSuchPath | NeedMore

  /** `t[k] = v` (`Trie.__setitem__`): walks `k`, creating missing nodes,
      and stores `v` at the end of the walk. */
  function Set<V>(t: Node<V>, k: Key, v: V): (r: Node<V>)
    ensures Lookup(r, k) == Some(v)
    ensures r.children.Keys >= t.children.Keys
    decreases k
  {
    if k == [] then t.(value := Some(v))
    else
      var child := if k[0] in t.children then t.children[k[0]] else Fresh();
      t.(children := t.children[k[0] := Set(child, k[1..], v)])
  }

  /** A fresh node stores nothing. */
  lemma FreshStoresNothing<V>(q: Key)
    ensures Lookup(Fresh<V>(), q) == None
  {
  }

  /** Setting `k` changes the value stored under no other key. */
  lemma {:induction false} SetKeepsOthers<V>(t: Node<V>, k: Key, v: V, q: Key)
    requires q != k
    ensures Lookup(Set(t, k, v), q) == Lookup(t, q)
    decreases k
  {
    if k != [] && q != [] {
      var child := if k[0] in t.children then t.children[k[0]] else Fresh();
      if q[0] == k[0] {
        assert q[1..] != k[1..] by {
          assert q == [q[0]] + q[1..] && k == [k[0]] + k[1..];
        }
        SetKeepsOthers(child, k[1..], v, q[1..]);
        if k[0] !in t.children {
          FreshStoresNothing<V>(q[1..]);
        }
      }
    }
  }

  /** Setting `k` adds exactly the missing nodes along `k`: a path exists
      afterwards iff it existed before or is a prefix of `k`. */
  lemma {:induction false} SetAddsOnlyPath<V>(t: Node<V>, k: Key, v: V, q: Key)
    ensures Find(Set(t, k, v), q).Some? <==> Find(t, q).Some? || IsPrefix(q, k)
    decreases k
  {
    if q != [] {
      if k == [] {
        assert !IsPrefix(q, k);
      } else if q[0] == k[0] {
        var child := if k[0] in t.children then t.children[k[0]] else Fresh();
        SetAddsOnlyPath(child, k[1..], v, q[1..]);
        assert IsPrefix(q, k) <==> IsPrefix(q[1..], k[1..]) by {
          assert q == [q[0]] + q[1..] && k == [k[0]] + k[1..];
          if IsPrefix(q[1..], k[1..]) {
            assert k[..|q|] == [k[0]] + k[1..][..|q| - 1];
          }
        }
        if k[0] !in t.children && q[1..] != [] {
          assert Find(child, q[1..]).None?;
        }
      } else {
        assert !IsPrefix(q, k);
      }
    }
  }

  /** Every node `Set` creates lies on the path to the new value, so a
      well-formed trie stays well-formed. */
  lemma {:induction false} SetWellFormed<V>(t: Node<V>, k: Key, v: V)
    requires WellFormed(t)
    ensures WellFormed(Set(t, k, v))
    decreases k
  {
    if k != [] {
      var child := if k[0] in t.children then t.children[k[0]] else Fresh();
      SetWellFormed(child, k[1..], v);
      var r := Set(child, k[1..], v);
      assert Live(r) by {
        if k[1..] == [] {
          assert r.value.Some?;
        } else {
          assert k[1..][0] in r.children;
        }
      }
    }
  }

  /** `Trie.extend`: sets the pairs of `mapping` in order. */
  function Extend<V>(t: Node<V>, mapping: seq<(Key, V)>): Node<V>
    decreases |mapping|
  {
    if mapping == [] then t
    else Extend(Set(t, mapping[0].0, mapping[0].1), mapping[1..])
  }

  /** `Trie(root_data, mapping)`: a root holding `rootData`, then `extend`. */
  function Init<V>(rootData: Option<V>, mapping: seq<(Key, V)>): Node<V> {
    Extend(Node(rootData, map[]), mapping)
  }

  /** Reference for last-write-wins: the value of the last pair in `mapping`
      whose key is `q`, or `prior` when there is none. */
  function LastWrite<V>(mapping: seq<(Key, V)>, q: Key, prior: Option<V>): Option<V>
    decreases |mapping|
  {
    if mapping == [] then prior
    else if mapping[|mapping| - 1].0 == q then Some(mapping[|mapping| - 1].1)
    else LastWrite(mapping[..|mapping| - 1], q, prior)
  }

  /** Processing the first pair before the rest agrees with searching from the end. */
  lemma {:induction false} LastWriteFirst<V>(mapping: seq<(Key, V)>, q: Key, prior: Option<V>)
    requires mapping != []
    ensures LastWrite(mapping, q, prior) ==
      LastWrite(mapping[1..], q, if mapping[0].0 == q then Some(mapping[0].1) else prior)
    decreases |mapping|
  {
    if |mapping| > 1 {
      var init := mapping[..|mapping| - 1];
      assert init[1..] == mapping[1..][..|mapping[1..]| - 1];
      assert init[0] == mapping[0];
      LastWriteFirst(init, q, prior);
    }
  }

  /** After `extend`, each key holds its last write in `mapping`, or what it held before. */
  lemma {:induction false} ExtendLookup<V>(t: Node<V>, mapping: seq<(Key, V)>, q: Key)
    ensures Lookup(Extend(t, mapping), q) == LastWrite(mapping, q, Lookup(t, q))
    decreases |mapping|
  {
    if mapping != [] {
      var (k, v) := mapping[0];
      ExtendLookup(Set(t, k, v), mapping[1..], q);
      LastWriteFirst(mapping, q, Lookup(t, q));
      if k != q {
        SetKeepsOthers(t, k, v, q);
      }
    }
  }

  /** `extend` keeps a trie well-formed. */
  lemma {:induction false} ExtendWellFormed<V>(t: Node<V>, mapping: seq<(Key, V)>)
    requires WellFormed(t)
    ensures WellFormed(Extend(t, mapping))
    decreases |mapping|
  {
    if mapping != [] {
      SetWellFormed(t, mapping[0].0, mapping[0].1);
      ExtendWellFormed(Set(t, mapping[0].0, mapping[0].1), mapping[1..]);
    }
  }

  /** A constructed trie is well-formed, and each key holds its last write in
      `mapping`; the empty key otherwise holds `rootData`. */
  lemma InitContents<V>(rootData: Option<V>, mapping: seq<(Key, V)>, q: Key)
    ensures WellFormed(Init(rootData, mapping))
    ensures Lookup(Init(rootData, mapping), q) == LastWrite(mapping, q, if q == [] then rootData else None)
  {
    ExtendWellFormed(Node(rootData, map[]), mapping);
    ExtendLookup(Node(rootData, map[]), mapping, q);
  }

  /** `t[k]` (`Trie.__getitem__`). */
  function Get<V>(t: Node<V>, k: Key): (r: Result<V>)
    ensures r.Ok? <==> Lookup(t, k).Some?
    ensures r.Ok? ==> Lookup(t, k) == Some(r.value)
    ensures Find(t, k).None? ==> r.NoSuchPath?
    ensures r.NoSuchPath? && Find(t, k).Some? ==> Find(t, k).value.children == map[]
  {
    match Find(t, k)
    case None => NoSuchPath
    case Some(n) =>
      if n.value.None? then
        if n.children != map[] then NeedMore else NoSuchPath
      else Ok(n.value.value)
  }

  /** After `t[k] = v`, `t[k]` is `v`. */
  lemma GetAfterSet<V>(t: Node<V>, k: Key, v: V)
    ensures Get(Set(t, k, v), k) == Ok(v)
  {
  }

  /** `k` is a strict prefix of some stored key. */
  ghost predicate Extended<V>(t: Node<V>, k: Key) {
    exists q :: IsPrefix(k, q) && q != k && Lookup(t, q).Some?
  }

  /** In a well-formed trie `NeedMore` means exactly: nothing is stored under
      `k`, but something is stored under a longer key starting with `k`. */
  lemma GetNeedMore<V>(t: Node<V>, k: Key)
    requires WellFormed(t)
    ensures Get(t, k) == NeedMore <==> Lookup(t, k).None? && Extended(t, k)
  {
    if Get(t, k) == NeedMore {
      var n := Find(t, k).value;
      FindWellFormed(t, k);
      var c := MinSym(n.children.Keys);
      var p := StoredPath(n.children[c]);
      var q := k + ([c] + p);
      FindAppend(t, k, [c] + p);
      assert ([c] + p)[0] == c && ([c] + p)[1..] == p;
      assert q[..|k|] == k;
      assert IsPrefix(k, q) && q != k && Lookup(t, q).Some?;
    }
    if Lookup(t, k).None? && Extended(t, k) {
      var q :| IsPrefix(k, q) && q != k && Lookup(t, q).Some?;
      assert q == k + q[|k|..];
      FindAppend(t, k, q[|k|..]);
    }
  }

  /** In a well-formed trie `KeyError` means exactly: no stored key starts
      with `k`. */
  lemma GetNoSuchPath<V>(t: Node<V>, k: Key)
    requires WellFormed(t)
    ensures Get(t, k) == NoSuchPath <==> forall q :: IsPrefix(k, q) ==> Lookup(t, q).None?
  {
    GetNeedMore(t, k);
    if Get(t, k) == NoSuchPath {
      forall q | IsPrefix(k, q)
        ensures Lookup(t, q).None?
      {
        assert q == k + q[|k|..];
        FindAppend(t, k, q[|k|..]);
      }
    }
  }

  /** In a well-formed trie `KeyError` at an existing node happens only at
      the root: every other node is live. */
  lemma NoSuchPathOnlyAtRoot<V>(t: Node<V>, k: Key)
    requires WellFormed(t)
    requires Get(t, k) == NoSuchPath && Find(t, k).Some?
    ensures k == []
  {
  }

  /** `Trie.children(p)`: the valued immediate children of the node at `p`,
      by symbol; `KeyError` when `p` cannot be walked. */
  function Children<V>(t: Node<V>, p: Key): (r: Result<map<Sym, V>>)
    ensures r.NoSuchPath? <==> Find(t, p).None?
    ensures !r.NeedMore?
    ensures r.Ok? ==> forall c :: c in r.value <==> Lookup(t, p + [c]).Some?
    ensures r.Ok? ==> forall c :: c in r.value ==> Lookup(t, p + [c]) == Some(r.value[c])
  {
    match Find(t, p)
    case None => NoSuchPath
    case Some(n) =>
      var m := map c | c in n.children && n.children[c].value.Some? :: n.children[c].value.value;
      assert forall c :: Find(t, p + [c]) == (if c in n.children then Some(n.children[c]) else None) by {
        forall c
          ensures Find(t, p + [c]) == (if c in n.children then Some(n.children[c]) else None)
        {
          FindChild(t, p, c);
        }
      }
      Ok(m)
  }
}
