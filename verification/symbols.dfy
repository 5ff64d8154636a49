/** Key symbols and the order the trie's traversal follows.

    Keys in the source are sequences of one-character strings; Python's
    `sorted` compares those by code point, which is the order of Dafny's `char`.
 */
module Symbols {

  /** One key symbol. */
  type Sym = char

  /** A key: the symbols spelled from the root to a node. */
  type Key = seq<Sym>

  /** `a` is a prefix of `b` (every key is a prefix of itself). */
  predicate IsPrefix(a: Key, b: Key) {
    |a| <= |b| && b[..|a|] == a
  }

  /** Strict lexicographic order: a proper prefix precedes its extensions,
      otherwise the first differing symbol decides. */
  predicate LexLess(a: Key, b: Key) {
    |b| > 0 && (|a| == 0 || a[0] < b[0] || (a[0] == b[0] && LexLess(a[1..], b[1..])))
  }

  /** The keys of `ks` are in strictly ascending lexicographic order. */
  predicate Ascending(ks: seq<Key>) {
    forall i, j :: 0 <= i < j < |ks| ==> LexLess(ks[i], ks[j])
  }

  /** The symbols of `s` are strictly increasing. */
  predicate Increasing(s: seq<Sym>) {
    forall i, j :: 0 <= i < j < |s| ==> s[i] < s[j]
  }

  /** Some symbol of a non-empty set is at most every other one. */
  lemma {:induction false} MinExists(s: set<Sym>)
    requires s != {}
    ensures exists m :: m in s && forall x :: x in s ==> m <= x
  {
    var y :| y in s;
    if s != {y} {
      MinExists(s - {y});
      var m' :| m' in s - {y} && forall x :: x in s - {y} ==> m' <= x;
      assert forall x :: x in s ==> x == y || x in s - {y};
      if y <= m' {
        assert forall x :: x in s ==> y <= x;
      } else {
        assert forall x :: x in s ==> m' <= x;
      }
    } else {
      assert forall x :: x in s ==> y <= x;
    }
  }

  /** The least symbol of a non-empty set. */
  function MinSym(s: set<Sym>): (m: Sym)
    requires s != {}
    ensures m in s
    ensures forall x :: x in s ==> m <= x
  {
    MinExists(s);
    var m :| m in s && forall x :: x in s ==> m <= x;
    m
  }

  /** `sorted(node.nodes)`: the symbols of `s`, least first
      (`SortedSymsIncreasing` states the order). */
  function SortedSyms(s: set<Sym>): (r: seq<Sym>)
    ensures forall x :: x in r <==> x in s
  {
    if s == {} then []
    else
      var m := MinSym(s);
      [m] + SortedSyms(s - {m})
  }

  /** `SortedSyms` lists each symbol once, in strictly increasing order. */
  lemma {:induction false} SortedSymsIncreasing(s: set<Sym>)
    ensures Increasing(SortedSyms(s))
    ensures |SortedSyms(s)| == |s|
  {
    if s != {} {
      var m := MinSym(s);
      SortedSymsIncreasing(s - {m});
    }
  }

  /** No key comes before itself. */
  lemma {:induction false} LexIrreflexive(a: Key)
    ensures !LexLess(a, a)
  {
    if |a| > 0 {
      LexIrreflexive(a[1..]);
    }
  }

  /** The order is transitive. */
  lemma {:induction false} LexTransitive(a: Key, b: Key, c: Key)
    requires LexLess(a, b) && LexLess(b, c)
    ensures LexLess(a, c)
  {
    if |a| > 0 && a[0] == b[0] && b[0] == c[0] {
      LexTransitive(a[1..], b[1..], c[1..]);
    }
  }

  /** Any two distinct keys are ordered one way or the other. */
  lemma {:induction false} LexTotal(a: Key, b: Key)
    requires a != b
    ensures LexLess(a, b) || LexLess(b, a)
  {
    if |a| > 0 && |b| > 0 && a[0] == b[0] {
      assert a == [a[0]] + a[1..] && b == [b[0]] + b[1..];
      LexTotal(a[1..], b[1..]);
    }
  }

  /** A common prefix does not change how two keys compare. */
  lemma {:induction false} LexCommonPrefix(p: Key, a: Key, b: Key)
    ensures LexLess(p + a, p + b) <==> LexLess(a, b)
  {
    if |p| > 0 {
      assert (p + a)[1..] == p[1..] + a;
      assert (p + b)[1..] == p[1..] + b;
      LexCommonPrefix(p[1..], a, b);
    } else {
      assert p + a == a && p + b == b;
    }
  }

  /** Two ascending listings of the same keys are the same listing: the
      order fixes the sequence. */
  lemma {:induction false} AscendingUnique(a: seq<Key>, b: seq<Key>)
    requires Ascending(a) && Ascending(b)
    requires forall k :: k in a <==> k in b
    ensures a == b
  {
    if a != [] {
      assert a[0] in a;
    }
    if b != [] {
      assert b[0] in b;
    }
    if a != [] && b != [] {
      if a[0] != b[0] {
        var i :| 0 <= i < |a| && a[i] == b[0];
        var j :| 0 <= j < |b| && b[j] == a[0];
        LexTransitive(a[0], b[0], a[0]);
        LexIrreflexive(a[0]);
      }
      forall k
        ensures k in a[1..] <==> k in b[1..]
      {
        if k in a[1..] {
          var i :| 0 <= i < |a[1..]| && a[1..][i] == k;
          assert LexLess(a[0], a[i + 1]);
          LexIrreflexive(k);
          assert k in a && k in b;
          var j :| 0 <= j < |b| && b[j] == k;
          assert j != 0;
          assert b[1..][j - 1] == k;
        }
        if k in b[1..] {
          var j :| 0 <= j < |b[1..]| && b[1..][j] == k;
          assert LexLess(b[0], b[j + 1]);
          LexIrreflexive(k);
          assert k in b && k in a;
          var i :| 0 <= i < |a| && a[i] == k;
          assert i != 0;
          assert a[1..][i - 1] == k;
        }
      }
      AscendingUnique(a[1..], b[1..]);
      assert a == [a[0]] + a[1..] && b == [b[0]] + b[1..];
    }
  }
}
