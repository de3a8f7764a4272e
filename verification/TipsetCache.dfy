/** The cache of processed tipsets, one per height. */
module TipsetCaches {
  import opened Chain
  import opened Ancestors

  const MAX_STORE_TIPSET_COUNT: nat := 900

  type Entries = map<nat, Tipset>

  ghost predicate Keyed(m: Entries) {
    forall h :: h in m ==> m[h].Height() == h
  }

  /** Later tipsets of the list overwrite earlier ones and old entries of the same height. */
  function AddAll(m: Entries, list: seq<Tipset>): Entries {
    if list == [] then m
    else
      var last := list[|list| - 1];
      AddAll(m, list[..|list| - 1])[last.Height() := last]
  }

  /** A full cache drops the entries more than MAX_STORE_TIPSET_COUNT epochs below the current height. */
  function Reduced(m: Entries, curr: int): Entries {
    if |m| < MAX_STORE_TIPSET_COUNT then m
    else map h | h in m && h >= curr - MAX_STORE_TIPSET_COUNT :: m[h]
  }

  lemma {:induction false} AddAllKeyed(m: Entries, list: seq<Tipset>)
    requires Keyed(m)
    ensures Keyed(AddAll(m, list))
  {
    if list != [] {
      AddAllKeyed(m, list[..|list| - 1]);
    }
  }

  /** Heights not in the list keep their entry, and only listed heights are added. */
  lemma {:induction false} AddAllElsewhere(m: Entries, list: seq<Tipset>, h: nat)
    requires forall t :: t in list ==> t.Height() != h
    ensures h in AddAll(m, list) <==> h in m
    ensures h in m ==> AddAll(m, list)[h] == m[h]
  {
    if list != [] {
      assert list[|list| - 1] in list;
      AddAllElsewhere(m, list[..|list| - 1], h);
    }
  }

  /** A height of the list gets the last tipset listed for it. */
  lemma {:induction false} AddAllStored(m: Entries, list: seq<Tipset>, k: nat)
    requires k < |list| && forall j :: k < j < |list| ==> list[j].Height() != list[k].Height()
    ensures list[k].Height() in AddAll(m, list) && AddAll(m, list)[list[k].Height()] == list[k]
  {
    if k < |list| - 1 {
      AddAllStored(m, list[..|list| - 1], k);
    }
  }

  lemma AddAllEntries(m: Entries, list: seq<Tipset>)
    requires DistinctHeights(list)
    ensures forall t :: t in list ==> t.Height() in AddAll(m, list) && AddAll(m, list)[t.Height()] == t
    ensures forall h :: h in m && (forall t :: t in list ==> t.Height() != h)
              ==> h in AddAll(m, list) && AddAll(m, list)[h] == m[h]
    ensures forall h :: h in AddAll(m, list) ==> h in m || exists t :: t in list && t.Height() == h
  {
    forall t | t in list
      ensures t.Height() in AddAll(m, list) && AddAll(m, list)[t.Height()] == t
    {
      var k :| 0 <= k < |list| && list[k] == t;
      AddAllStored(m, list, k);
    }
    forall h | forall t :: t in list ==> t.Height() != h
      ensures h in AddAll(m, list) <==> h in m
      ensures h in m ==> AddAll(m, list)[h] == m[h]
    {
      AddAllElsewhere(m, list, h);
    }
  }

  class TipsetCache {
    var entries: Entries
    var currHeight: int

    ghost predicate Valid()
      reads this
    {
      Keyed(entries)
    }

    constructor ()
      ensures Valid() && entries == map[] && currHeight == 0
    {
      entries := map[];
      currHeight := 0;
    }

    method Add(list: seq<Tipset>)
      requires Valid()
      modifies this`entries
      ensures Valid() && entries == AddAll(old(entries), list)
    {
      for k := 0 to |list|
        invariant entries == AddAll(old(entries), list[..k])
      {
        entries := entries[list[k].Height() := list[k]];
        assert list[..k + 1][..k] == list[..k];
      }
      assert list[..|list|] == list;
      AddAllKeyed(old(entries), list);
    }

    method Reduce()
      requires Valid()
      modifies this`entries
      ensures Valid() && entries == Reduced(old(entries), currHeight)
    {
      if |entries| < MAX_STORE_TIPSET_COUNT {
        return;
      }
      var minHeight := currHeight - MAX_STORE_TIPSET_COUNT;
      var todo := entries.Keys;
      while todo != {}
        invariant todo <= old(entries.Keys)
        invariant forall h :: h in entries <==> h in old(entries) && (h in todo || h >= minHeight)
        invariant forall h :: h in entries ==> entries[h] == old(entries)[h]
        decreases todo
      {
        var h :| h in todo;
        if h in entries && entries[h].Height() < minHeight {
          entries := entries - {entries[h].Height()};
        }
        todo := todo - {h};
      }
    }

    /** The entries in some order. */
    method List() returns (l: seq<Tipset>)
      requires Valid()
      ensures forall t :: t in l <==> t in entries.Values
      ensures DistinctHeights(l)
    {
      l := [];
      var todo := entries.Keys;
      while todo != {}
        invariant todo <= entries.Keys
        invariant forall t :: t in l <==> exists h :: h in entries && h !in todo && entries[h] == t
        invariant DistinctHeights(l)
        decreases todo
      {
        var h :| h in todo;
        assert forall i :: 0 <= i < |l| ==> l[i] in l;
        forall t
          ensures t in l + [entries[h]] <==> exists k :: k in entries && k !in todo - {h} && entries[k] == t
        {
          if t in l {
            var k :| k in entries && k !in todo && entries[k] == t;
            assert k !in todo - {h};
          }
        }
        l := l + [entries[h]];
        todo := todo - {h};
      }
    }
  }

  /** `l` is the cache listed from the highest tipset down. */
  ghost predicate Listing(l: seq<Tipset>, m: Entries) {
    Descending(l) && forall t :: t in l <==> t in m.Values
  }

  ghost predicate DistinctHeights(l: seq<Tipset>) {
    forall i, j :: 0 <= i < j < |l| ==> l[i].Height() != l[j].Height()
  }

  lemma InsertDescending(r: seq<Tipset>, p: nat, t: Tipset)
    requires Descending(r) && p <= |r|
    requires forall i :: 0 <= i < p ==> r[i].Height() > t.Height()
    requires p < |r| ==> r[p].Height() < t.Height()
    ensures Descending(r[..p] + [t] + r[p..])
    ensures forall x :: x in r[..p] + [t] + r[p..] <==> x in r || x == t
  {
    assert r == r[..p] + r[p..];
  }

  /** Sorting the listed cache from the highest tipset down. */
  method SortByHeight(l: seq<Tipset>) returns (r: seq<Tipset>)
    requires DistinctHeights(l)
    ensures Descending(r)
    ensures forall t :: t in r <==> t in l
  {
    r := [];
    for k := 0 to |l|
      invariant Descending(r)
      invariant forall t :: t in r <==> t in l[..k]
    {
      var p := 0;
      while p < |r| && r[p].Height() > l[k].Height()
        invariant 0 <= p <= |r|
        invariant forall i :: 0 <= i < p ==> r[i].Height() > l[k].Height()
      {
        p := p + 1;
      }
      assert p < |r| ==> r[p] in l[..k];
      InsertDescending(r, p, l[k]);
      assert l[..k + 1] == l[..k] + [l[k]];
      r := r[..p] + [l[k]] + r[p..];
    }
    assert l[..|l|] == l;
  }

  method ListDescending(cache: TipsetCache) returns (l: seq<Tipset>)
    requires cache.Valid()
    ensures Listing(l, cache.entries)
  {
    var raw := cache.List();
    l := SortByHeight(raw);
  }

  lemma ListOne(m: Entries, a: Tipset)
    requires m == map[a.Height() := a]
    ensures Keyed(m) && Listing([a], m)
  {
    assert m[a.Height()] == a;
  }

  lemma ListTwo(m: Entries, a: Tipset, b: Tipset)
    requires a.Height() > b.Height() && m == map[b.Height() := b, a.Height() := a]
    ensures Keyed(m) && Listing([a, b], m)
  {
    assert m[a.Height()] == a && m[b.Height()] == b;
    forall t
      ensures t in [a, b] <==> t in m.Values
    {
      if t in m.Values {
        var h :| h in m && m[h] == t;
      }
    }
  }

  lemma ListThree(m: Entries, a: Tipset, b: Tipset, c: Tipset)
    requires a.Height() > b.Height() > c.Height() && m == map[c.Height() := c, b.Height() := b, a.Height() := a]
    ensures Keyed(m) && Listing([a, b, c], m)
  {
    assert m[a.Height()] == a && m[b.Height()] == b && m[c.Height()] == c;
    forall t
      ensures t in [a, b, c] <==> t in m.Values
    {
      if t in m.Values {
        var h :| h in m && m[h] == t;
      }
    }
  }
}
