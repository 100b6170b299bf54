/** The prefix tries of a classifier: one for each of the fields it looks at. */
module TrieBank {
  import opened Bits
  import opened Flow
  import L = Lookup
  import H = TrieClass
  import T = TrieModel

  /** What storing a prefix of length 'plen' adds to a trie; nothing if the length is zero. */
  function Stored(r: Rule, fld: L.Field, plen: nat): (m: multiset<Bits>)
    requires plen <= fld.bits
    ensures plen == 0 ==> m == multiset{}
  {
    if plen > 0 then multiset{L.FieldBits(r.flow, fld)[..plen]} else multiset{}
  }

  /** A sequence with element 'j' set, or added at the end. */
  function Put<T>(s: seq<T>, j: nat, x: T): (r: seq<T>)
    requires j <= |s|
    ensures |r| == (if j < |s| then |s| else j + 1) && r[j] == x
    ensures forall i :: 0 <= i < |s| && i != j ==> r[i] == s[i]
  {
    if j < |s| then s[j := x] else s + [x]
  }

  class Bank {
    var fields: seq<L.Field>
    var tries: seq<H.Trie>
    ghost var nodes: set<object>
    ghost var bags: seq<multiset<Bits>>
    ghost var views: seq<L.Trie>

    /** Trie 'j' is well formed, is over its field and stores its bag of prefixes. */
    ghost predicate TrieOk(j: nat)
      reads this, nodes
      requires j < |tries| == |fields| == |bags| == |views|
    {
      var t := tries[j];
      && t in nodes && t.repr <= nodes && t.Valid()
      && t.width == fields[j].bits && t.prefixes == bags[j]
      && views[j] == L.Trie(fields[j], t.Value())
    }

    ghost predicate Valid()
      reads this, nodes
    {
      && |tries| == |fields| == |bags| == |views|
      && this !in nodes
      && (forall j :: 0 <= j < |tries| ==> TrieOk(j))
      && (forall i, j :: 0 <= i < j < |tries| ==> Apart(tries[i], tries[j]))
    }

    ghost predicate Apart(t: H.Trie, u: H.Trie)
      reads this, nodes
    {
      t in nodes && u in nodes && t != u && t.repr !! u.repr
    }

    constructor ()
      ensures Valid() && fields == [] && views == [] && fresh(nodes)
    {
      fields, tries, nodes, bags, views := [], [], {}, [], [];
    }

    /** `trie_insert` into one of the tries. */
    method InsertAt(j: nat, r: Rule, plen: nat)
      requires Valid() && j < |fields| && 0 < plen <= fields[j].bits
      modifies this`nodes, this`bags, this`views, nodes
      ensures Valid() && fresh(nodes - old(nodes)) && fields == old(fields) && |bags| == |old(bags)| == |fields|
      ensures bags == old(bags)[j := old(bags)[j] + Stored(r, fields[j], plen)]
    {
      hide H.Trie.Valid, H.Trie.Value, L.FieldBits;
      var t := tries[j];
      assert TrieOk(j);
      assert forall i :: 0 <= i < |tries| && i != j ==> TrieOk(i) && (if i < j then Apart(tries[i], t) else Apart(t, tries[i]));
      t.Insert(L.FieldBits(r.flow, fields[j]), plen);
      Refresh(j);
    }

    /** `trie_remove` from one of the tries. */
    method RemoveAt(j: nat, r: Rule, plen: nat)
      requires Valid() && j < |fields| && 0 < plen <= fields[j].bits
      modifies this`nodes, this`bags, this`views, nodes
      ensures Valid() && fresh(nodes - old(nodes)) && fields == old(fields) && |bags| == |old(bags)| == |fields|
      ensures bags == old(bags)[j := old(bags)[j] - Stored(r, fields[j], plen)]
    {
      hide H.Trie.Valid, H.Trie.Value, L.FieldBits;
      var t := tries[j];
      assert TrieOk(j);
      assert forall i :: 0 <= i < |tries| && i != j ==> TrieOk(i) && (if i < j then Apart(tries[i], t) else Apart(t, tries[i]));
      var _ := t.Remove(L.FieldBits(r.flow, fields[j]), plen);
      Refresh(j);
    }

    /** The trie loop of `classifier_replace`. */
    method InsertRule(r: Rule, plens: seq<nat>)
      requires Valid() && PlensOk(plens)
      modifies this`nodes, this`bags, this`views, nodes
      ensures Valid() && fresh(nodes - old(nodes)) && fields == old(fields) && |bags| == |fields| == |old(bags)|
      ensures forall j :: 0 <= j < |fields| ==> bags[j] == old(bags)[j] + Stored(r, fields[j], plens[j])
    {
      hide H.Trie.Valid, H.Trie.Value, L.FieldBits, TrieOk, Apart, Stored;
      for j := 0 to |fields|
        invariant Valid() && PlensOk(plens) && fresh(nodes - old(nodes))
        invariant forall i :: 0 <= i < j ==> bags[i] == old(bags)[i] + Stored(r, fields[i], plens[i])
        invariant forall i :: j <= i < |fields| ==> bags[i] == old(bags)[i]
      {
        if plens[j] > 0 {
          InsertAt(j, r, plens[j]);
        }
      }
    }

    ghost predicate PlensOk(plens: seq<nat>)
      reads this
    {
      |plens| == |fields| && forall j :: 0 <= j < |fields| ==> plens[j] <= fields[j].bits
    }

    /** The trie loop of `classifier_remove`. */
    method RemoveRule(r: Rule, plens: seq<nat>)
      requires Valid() && PlensOk(plens)
      modifies this`nodes, this`bags, this`views, nodes
      ensures Valid() && fresh(nodes - old(nodes)) && fields == old(fields) && |bags| == |fields| == |old(bags)|
      ensures forall j :: 0 <= j < |fields| ==> bags[j] == old(bags)[j] - Stored(r, fields[j], plens[j])
    {
      hide H.Trie.Valid, H.Trie.Value, L.FieldBits, TrieOk, Apart, Stored;
      for j := 0 to |fields|
        invariant Valid() && PlensOk(plens) && fresh(nodes - old(nodes))
        invariant forall i :: 0 <= i < j ==> bags[i] == old(bags)[i] - Stored(r, fields[i], plens[i])
        invariant forall i :: j <= i < |fields| ==> bags[i] == old(bags)[i]
      {
        if plens[j] > 0 {
          RemoveAt(j, r, plens[j]);
        }
      }
    }

    /** The start of `trie_init`: trie 'j' becomes an empty trie on 'fld'. */
    method Reset(j: nat, fld: L.Field)
      requires Valid() && j <= |fields|
      modifies this
      ensures Valid() && fresh(nodes - old(nodes))
      ensures fields == Put(old(fields), j, fld) && |bags| == |fields|
      ensures |old(bags)| == |old(fields)| && bags == Put(old(bags), j, multiset{})
    {
      hide H.Trie.Valid, H.Trie.Value;
      var t := new H.Trie(fld.bits);
      assert forall i :: 0 <= i < |tries| ==> TrieOk(i);
      assert forall i, k :: 0 <= i < k < |tries| ==> Apart(tries[i], tries[k]);
      if j < |fields| {
        fields, tries := fields[j := fld], tries[j := t];
      } else {
        fields, tries, bags, views := fields + [fld], tries + [t], bags + [multiset{}], views + [L.Trie(fld, T.Nil)];
      }
      nodes := nodes + {t};
      Refresh(j);
      forall i | 0 <= i < |tries| && i != j ensures TrieOk(i) { assert old(TrieOk(i)); }
      forall i, k | 0 <= i < k < |tries| ensures Apart(tries[i], tries[k]) {
        if i == j {
          assert TrieOk(k);
        } else if k == j {
          assert TrieOk(i);
        } else {
          assert old(Apart(tries[i], tries[k]));
        }
      }
    }

    /** The end of `classifier_set_prefix_fields`: only the first 'n' tries remain. */
    method Truncate(n: nat)
      requires Valid() && n <= |fields|
      modifies this
      ensures Valid() && nodes == old(nodes)
      ensures fields == old(fields[..n]) && bags == old(bags[..n])
    {
      hide H.Trie.Valid, H.Trie.Value;
      assert forall i :: 0 <= i < |tries| ==> TrieOk(i);
      assert forall i, k :: 0 <= i < k < |tries| ==> Apart(tries[i], tries[k]);
      fields, tries, bags, views := fields[..n], tries[..n], bags[..n], views[..n];
      forall i | 0 <= i < n ensures TrieOk(i) { assert old(TrieOk(i)); }
      forall i, k | 0 <= i < k < n ensures Apart(tries[i], tries[k]) { assert old(Apart(tries[i], tries[k])); }
    }

    /** `trie_lookup`. */
    method LookupAt(j: nat, f: FlowBits) returns (matchLen: nat, checkbits: nat)
      requires Valid() && j < |fields|
      ensures (matchLen, checkbits) == L.TrieResult(views[j], f)
    {
      hide H.Trie.Valid, H.Trie.Value, L.FieldBits, T.Lookup;
      assert TrieOk(j);
      if fields[j].prereq(f) {
        matchLen, checkbits := tries[j].LookupValue(L.FieldBits(f, fields[j]));
      } else {
        matchLen, checkbits := L.UINT_MAX, 0;
      }
    }

    /** The trees that lookup sees store the bags. */
    lemma BagsStored()
      requires Valid()
      ensures |views| == |bags| == |fields|
      ensures forall j :: 0 <= j < |views| ==> views[j].field == fields[j] && H.Stores(views[j].tree, bags[j])
    {
      hide H.Stores;
      forall j | 0 <= j < |views| ensures views[j].field == fields[j] && H.Stores(views[j].tree, bags[j]) {
        assert TrieOk(j);
        StoresOf(tries[j]);
      }
    }

    lemma StoresOf(t: H.Trie)
      requires t.Valid()
      ensures H.Stores(t.Value(), t.prefixes)
    {
    }

    /** Catches up with trie 'j'. */
    ghost method Refresh(j: nat)
      requires |tries| == |fields| == |bags| == |views| && j < |tries|
      requires tries[j].Valid() && tries[j].width == fields[j].bits
      modifies this`nodes, this`bags, this`views
      ensures nodes == old(nodes) + tries[j].repr
      ensures bags == old(bags)[j := tries[j].prefixes]
      ensures |views| == |old(views)| && views == old(views)[j := L.Trie(fields[j], tries[j].Value())]
    {
      var t := tries[j];
      nodes := nodes + t.repr;
      bags := bags[j := t.prefixes];
      views := views[j := L.Trie(fields[j], t.Value())];
    }
  }
}
