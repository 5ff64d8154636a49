/** The scenarios of test/test_trie.py, stated over the model. */
module TrieExamples {
  import opened Symbols
  import opened TrieNode
  import opened Trie
  import opened TrieDelete
  import opened TrieWalk

  /** The trie of the iteration tests: "f", "foo", "bar", "baz" set in that order. */
  function Sample(): Node<string> {
    Set(Set(Set(Set(Fresh(), "f", "fval"), "foo", "fooval"), "bar", "barval"), "baz", "bazval")
  }

  /** What the sample stores under `q`. */
  function SampleValue(q: Key): Option<string> {
    if q == "f" then Some("fval")
    else if q == "foo" then Some("fooval")
    else if q == "bar" then Some("barval")
    else if q == "baz" then Some("bazval")
    else None
  }

  lemma SampleLookup(q: Key)
    ensures Lookup(Sample(), q) == SampleValue(q)
  {
    var t0 := Fresh<string>();
    var t1 := Set(t0, "f", "fval");
    var t2 := Set(t1, "foo", "fooval");
    var t3 := Set(t2, "bar", "barval");
    FreshStoresNothing<string>(q);
    if q != "f" { SetKeepsOthers(t0, "f", "fval", q); }
    if q != "foo" { SetKeepsOthers(t1, "foo", "fooval", q); }
    if q != "bar" { SetKeepsOthers(t2, "bar", "barval", q); }
    if q != "baz" { SetKeepsOthers(t3, "baz", "bazval", q); }
  }

  /** Any trie storing exactly "bar", "baz", "f" and "foo" lists them in
      that order. */
  lemma FourKeysOrder(t: Node<string>)
    requires forall q :: Lookup(t, q) == SampleValue(q)
    ensures Keys(t) == ["bar", "baz", "f", "foo"]
    ensures Values(t) == ["barval", "bazval", "fval", "fooval"]
  {
    var expected: seq<Key> := ["bar", "baz", "f", "foo"];
    var ks := Keys(t);
    assert forall k :: k in ks <==> k in expected;
    assert LexLess("bar", "baz") && LexLess("baz", "f") && LexLess("f", "foo");
    LexTransitive("bar", "baz", "f");
    LexTransitive("bar", "f", "foo");
    LexTransitive("baz", "f", "foo");
    AscendingUnique(ks, expected);
    var vs := Values(t);
    assert Lookup(t, ks[0]) == Some(vs[0]) && Lookup(t, ks[1]) == Some(vs[1]);
    assert Lookup(t, ks[2]) == Some(vs[2]) && Lookup(t, ks[3]) == Some(vs[3]);
  }

  /** test_iter, test_iteritems, test_itervalues: keys come out as
      bar, baz, f, foo, with their values alongside. */
  lemma IterationOrder()
    ensures Keys(Sample()) == ["bar", "baz", "f", "foo"]
    ensures Values(Sample()) == ["barval", "bazval", "fval", "fooval"]
  {
    forall q {
      SampleLookup(q);
    }
    FourKeysOrder(Sample());
  }

  /** test_root_no_value and test_root_with_value: the empty key reads the
      root's value. */
  lemma RootValue()
    ensures Get(Init<string>(None, []), []) == NoSuchPath
    ensures Get(Init(Some("hello"), []), []) == Ok("hello")
  {
  }

  /** test_setitem, test_needmore and test_keyerror. */
  lemma LookupOutcomes()
    ensures Get(Set(Fresh(), "foo", "bar"), "foo") == Ok("bar")
    ensures Get(Set(Fresh(), "foo", "bar"), "fo") == NeedMore
    ensures Get(Fresh<string>(), "foo") == NoSuchPath
  {
  }

  /** test_delitem: deleting the only key leaves a bare root. */
  lemma DeleteOnlyKey()
    ensures Delete(Set(Fresh(), "foo", "bar"), "foo").Ok?
    ensures Get(Delete(Set(Fresh(), "foo", "bar"), "foo").value, "foo") == NoSuchPath
    ensures Delete(Set(Fresh(), "foo", "bar"), "foo").value.children == map[]
  {
  }

  /** test_delitem_keyerror: deleting a missing key or a prefix-only key
      fails. */
  lemma DeleteMissing()
    ensures Delete(Fresh<string>(), "foo") == NoSuchPath
    ensures Delete(Set(Fresh(), "foobar", "bar"), "foo") == NoSuchPath
  {
  }

  /** Any trie storing exactly "foo" and "fox" reports no valued child
      under "f". */
  lemma ChildrenAboveTwoKeys(t: Node<string>)
    requires forall q :: Lookup(t, q) == (if q == "foo" then Some("bar") else if q == "fox" then Some("baz") else None)
    requires Find(t, "f").Some?
    ensures Children(t, "f") == Ok(map[])
  {
  }

  /** Any trie storing exactly "foo" and "fox" reports both under "fo". */
  lemma ChildrenOfTwoKeys(t: Node<string>)
    requires forall q :: Lookup(t, q) == (if q == "foo" then Some("bar") else if q == "fox" then Some("baz") else None)
    requires Find(t, "fo").Some?
    ensures Children(t, "fo") == Ok(map['o' := "bar", 'x' := "baz"])
  {
    var r := Children(t, "fo").value;
    assert "fo" + ['o'] == "foo" && "fo" + ['x'] == "fox";
    forall c
      ensures c in r <==> c == 'o' || c == 'x'
    {
      assert "fo" + [c] == "foo" <==> c == 'o';
      assert "fo" + [c] == "fox" <==> c == 'x';
    }
    assert r.Keys == {'o', 'x'};
    assert r['o'] == "bar" && r['x'] == "baz";
    var m := map['o' := "bar", 'x' := "baz"];
    assert r.Keys == m.Keys;
    assert forall c :: c in r ==> r[c] == m[c];
    assert r == m;
    assert Children(t, "fo") == Ok(r);
  }

  /** test_children: only valued immediate children are reported. */
  lemma ChildrenOneLevel()
    ensures Children(Set(Set(Fresh(), "foo", "bar"), "fox", "baz"), "f") == Ok(map[])
    ensures Children(Set(Set(Fresh(), "foo", "bar"), "fox", "baz"), "fo") == Ok(map['o' := "bar", 'x' := "baz"])
  {
    var t1 := Set(Fresh(), "foo", "bar");
    var t := Set(t1, "fox", "baz");
    forall q
      ensures Lookup(t, q) == (if q == "foo" then Some("bar") else if q == "fox" then Some("baz") else None)
    {
      FreshStoresNothing<string>(q);
      if q != "foo" { SetKeepsOthers(Fresh(), "foo", "bar", q); }
      if q != "fox" { SetKeepsOthers(t1, "fox", "baz", q); }
    }
    SetAddsOnlyPath(t1, "fox", "baz", "f");
    SetAddsOnlyPath(t1, "fox", "baz", "fo");
    assert IsPrefix("f", "fox") && IsPrefix("fo", "fox");
    ChildrenAboveTwoKeys(t);
    ChildrenOfTwoKeys(t);
  }
}
