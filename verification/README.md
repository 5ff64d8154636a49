# trie — a verified model of a prefix tree

This project models `trie.py`, a small Python prefix tree (trie). The trie maps
keys, which are sequences of symbols, to values. A `Trie` holds a permanent root
`Node`. Each node has a map from symbol to child node and an optional value.
The operations are:

- `t[k] = v` inserts and creates the missing nodes on the way.
- `t[k]` looks a key up. It fails with `KeyError` or with `NeedMore`. `NeedMore`
  means the key names a valueless interior node.
- `del t[k]` deletes an exact stored key and then prunes upwards.
- `children(p)` answers a one-level query.
- `walk` (with `__iter__`, `iteritems`, `itervalues`) traverses the trie in order.

The model is functional. A node is the immutable datatype
`Node(value: Option<V>, children: map<Sym, Node<V>>)`, and a trie is its root
node. `Option.None` plays the part of the `Node.no_value` sentinel. Parent
back-pointers are replaced by paths: a node is named by the key that reaches it
(`TrieNode.Find`, which is `_getnode`). Symbols are `char`, because the source's
keys are strings and `sorted` orders one-character strings by code point, which
is how Dafny orders `char`. Operations that mutate in Python return a new root.
Lookup-family results are `Result<T> = Ok(value) | NoSuchPath | NeedMore`, where
`NoSuchPath` is the source's `KeyError`.

Modules:

- `Symbols` holds keys, lexicographic order and `sorted`.
- `TrieNode` holds the node, the walk `Find`, `Lookup`, and the structural
  invariant `WellFormed`. `WellFormed` says that no node other than the root has
  neither a value nor children.
- `Trie` holds `__setitem__`, `extend`, `__init__`, `__getitem__` and `children`.
- `TrieDelete` holds `__delitem__`. It is modelled as written, next to a
  corrected, value-aware compaction (see Findings).
- `TrieWalk` holds `walk` and the three iterators. `Walk` is the explicit-stack
  loop, proved equal to the recursive reference traversal `Items`.
- `TrieExamples` holds the scenarios of `test/test_trie.py`.

In two places the code does not do what a prefix tree is expected to do. The
model follows the code in the first and notes the second:

- Compaction after a delete. One would expect compaction to stop at the first
  ancestor that has a value or children. The loop at trie.py:116-120 tests only
  for children and for the root. A stored ancestor left without children is
  therefore removed too.
- Keypath reconstruction. One would expect a node's key to be the symbols on
  its path. `keypath` (trie.py:16-22) drops falsy ancestor symbols and gives
  `[None]` for the root.

## Model

| member | source | states |
|---|---|---|
| Symbols.SortedSyms | trie.py:30 | the symbols `sorted` lists are exactly the children's symbols |
| Symbols.SortedSymsIncreasing | trie.py:30 | `sorted` lists each child symbol once, in strictly increasing order |
| Symbols.AscendingUnique | trie.py:137-140 | two ascending listings of the same key set are equal, so the traversal order fixes the sequence |
| TrieNode.Find | trie.py:93-100 | no contract; `_getnode`'s walk, whose behaviour FindAppend, FindChild and FindWellFormed state |
| Trie.Set | trie.py:87-91 | after `t[k] = v` the key `k`, including the empty key at the root, holds `v`; no child of the root disappears |
| Trie.SetKeepsOthers | trie.py:87-91 | `t[k] = v` changes the value stored under no other key |
| Trie.SetAddsOnlyPath | trie.py:88-90 | after `t[k] = v` a path exists iff it existed before or is a prefix of `k`: only nodes along `k` are added |
| Trie.SetWellFormed | trie.py:87-91 | insertion never leaves a non-root node with neither value nor children |
| Trie.Extend | trie.py:82-85 | no contract; behaviour stated by ExtendLookup and ExtendWellFormed |
| Trie.Init | trie.py:72-80 | no contract; behaviour stated by InitContents |
| Trie.ExtendLookup | trie.py:82-85 | after `extend`, each key holds its last write in the sequence, or its earlier value when the sequence does not mention it |
| Trie.InitContents | trie.py:72-80 | a constructed trie is well-formed; each key holds its last write in `mapping`; the empty key otherwise holds `root_data` |
| Trie.Get | trie.py:93-109 | `t[k]` returns a value exactly when one is stored under `k`, and that value; `KeyError` whenever the walk fails, and at an existing node only when that node has no children |
| Trie.GetAfterSet | trie.py:87-109 | `t[k]` returns `v` after `t[k] = v` |
| Trie.GetNeedMore | trie.py:102-106 | in a well-formed trie, `NeedMore` iff nothing is stored under `k` but something is stored under a strict extension of `k` |
| Trie.GetNoSuchPath | trie.py:93-108 | in a well-formed trie, `KeyError` iff no stored key has `k` as a prefix |
| Trie.NoSuchPathOnlyAtRoot | trie.py:104-108 | in a well-formed trie, a valueless childless node reached by lookup is the root |
| Trie.Children | trie.py:122-135 | `KeyError` iff the walk for `p` fails; otherwise symbol `c` is in the result iff `p + [c]` stores a value, mapped to that value; never `NeedMore` |
| TrieDelete.Prune | trie.py:115-120 | the node is unlinked iff it is not the root and a childless chain with no branches runs from it along `k`; cleared at `k`, value kept above |
| TrieDelete.Delete | trie.py:111-114 | `del t[k]` fails with `KeyError` exactly when no value is stored under `k` (absent path or prefix-only node); it never raises `NeedMore` |
| TrieDelete.DeleteRemovesKey | trie.py:111-115 | after a successful delete nothing is stored under `k` |
| TrieDelete.DeleteKeepsOffPath | trie.py:116-120 | every key that is not a prefix of `k` reaches the same node, and so the same value, as before |
| TrieDelete.DeleteOnPrefix | trie.py:116-120 | a stored proper prefix of `k` is lost exactly when it is not the root and a childless chain with no branches runs from it to `k`; otherwise it keeps its value |
| TrieDelete.PruneOnPath | trie.py:116-120 | a non-empty prefix's node disappears exactly on a sole chain; otherwise it is the old node pruned along the rest of `k` |
| TrieDelete.PruneOffPath | trie.py:116-120 | pruning changes nothing off the deleted key's path |
| TrieDelete.DeleteLeavesNoDeadOnPath | trie.py:116-120 | no childless non-root node remains on `k`'s path |
| TrieDelete.DeleteWellFormed | trie.py:111-120 | deletion keeps a well-formed trie well-formed |
| TrieDelete.DeleteSoleKey | trie.py:111-120 | deleting the only stored key leaves the root, valueless and with no children |
| TrieDelete.DeleteDropsStoredPrefix | trie.py:116-120 | as written: with "f" and "foo" stored, deleting "foo" also loses "f" |
| TrieDelete.DeleteKeepingContents | trie.py:116-120 | with value-aware compaction, delete clears `k`, keeps every other stored key, and keeps the trie well-formed |
| TrieDelete.DeleteKeepingKeepsStoredPrefix | trie.py:116-120 | with value-aware compaction, deleting "foo" keeps "f" |
| TrieWalk.Items | trie.py:142-145 | no contract; behaviour stated by ItemsMember, Walk and Keys |
| TrieWalk.Walk | trie.py:24-30 | the stack loop (pop, yield if valued, push children in descending order) produces exactly the reference traversal `Items` |
| TrieWalk.PreorderMember | trie.py:24-30 | the traversal visits each node exactly at the key that reaches it |
| TrieWalk.PreorderAscending | trie.py:24-30 | nodes are visited in strictly ascending lexicographic key order, a key before its extensions |
| TrieWalk.ItemsMember | trie.py:142-145 | `iteritems` yields `(k, v)` iff `v` is stored under `k`; the root's key is `[]`, not `[None]` |
| TrieWalk.ItemsRootFirst | trie.py:25-29 | a root holding a value is yielded first, under `[]` rather than `[None]` |
| TrieWalk.Keys | trie.py:137-140 | `__iter__` yields exactly the stored keys, each once, strictly ascending, in step with `iteritems` |
| TrieWalk.Values | trie.py:147-150 | `itervalues` yields, position by position, the value stored under the key `__iter__` yields there |
| TrieWalk.InitItems | trie.py:72-85 | round trip: a constructed trie yields exactly each key of `mapping` with its last write, plus the root's data under the empty key (`[None]` in `iteritems`) |
| TrieExamples.IterationOrder | test/test_trie.py:56-83 | storing f, foo, bar, baz yields keys bar, baz, f, foo and values in the same order |
| TrieExamples.RootValue | test/test_trie.py:6-13 | the empty key reads the root: `KeyError` without root data, the data otherwise |
| TrieExamples.LookupOutcomes | test/test_trie.py:16-30 | set-then-get, `NeedMore` on "fo", and `KeyError` on an empty trie |
| TrieExamples.DeleteOnlyKey | test/test_trie.py:33-38 | deleting the only key leaves `KeyError` for it and a root with no children |
| TrieExamples.DeleteMissing | test/test_trie.py:41-45 | deleting an absent key or a prefix-only key fails |
| TrieExamples.ChildrenOneLevel | test/test_trie.py:48-53 | `children("f")` is empty and `children("fo")` is `{o: bar, x: baz}` |

## Left out

- TrieWalk.Keys: yields the empty key for a root holding a value. `keypath`
  (trie.py:16-22) yields `[None]` there. It also drops ancestor symbols that
  Python treats as false. With one-character string symbols that never
  happens, but it would with other symbol types. Neither quirk is modelled.
- TrieWalk.ItemsMember: for a root holding `v` the model yields `([], v)`;
  `iteritems` (trie.py:145) yields `node.keypath`, which is `([None], v)`
  there. Every non-root key agrees.
- TrieWalk.ItemsRootFirst: the first item is `([], v)` in the model and
  `([None], v)` from `iteritems`, for the same `keypath` reason.
- TrieWalk.InitItems: the round trip puts `root_data` under `[]`; `iteritems`
  yields it under `[None]`. Every key of `mapping` other than the empty key
  agrees.
- Symbol type: symbols are `char` only. Other hashable, orderable Python
  symbols, and Python 2 comparisons across types, are not modelled.
- `KeyError(k)` carries the key. `NoSuchPath` carries no payload.
- In-place mutation: the model returns a new root, and a failed delete
  returns no trie, so the caller keeps the old one. Python object identity,
  the `no_value` sentinel's identity, and parent back-pointers are replaced by
  values and paths.
- The throw-away `Node` that `setdefault` allocates on every step (trie.py:90)
  has no observable effect and is not modelled.
- Generators are modelled as finite sequences. Laziness is not modelled.
- The doctest `__main__` block and `setup.py` are packaging and test harness,
  not logic.

## Findings

| source | as written | input that shows it | evidently intended | confidence | as-written member | corrected member |
|---|---|---|---|---|---|---|
| trie.py:116-120 | the compaction loop stops only at a node with children or at the root; it never looks at an ancestor's value | store "f" and "foo", then delete "foo": the nodes "foo", "fo" and "f" are all unlinked, so "f" is lost | compaction also stops at an ancestor holding a value, so every other stored key survives | high; not executed | TrieDelete.DeleteDropsStoredPrefix | TrieDelete.DeleteKeepingContents |

`TrieDelete.Delete` is the library's behaviour as shipped. The lemmas about it
state what really holds. `TrieDelete.DeleteKeeping` is the corrected
definition. `DeleteKeepingContents` proves the intended property for it, and
`DeleteKeepingKeepsStoredPrefix` shows it on the same input.
