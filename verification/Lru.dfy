/** The LRU cache itself: a list, a map into the same entry objects, and a byte counter. */
module Lru {
  import opened Base
  import opened LruSpec

  class Entry {
    const key: string
    var val: Value

    constructor (key: string, val: Value)
      ensures this.key == key && this.val == val
    {
      this.key := key;
      this.val := val;
    }
  }

  /** Every listed entry is the one its key maps to, and nothing else is mapped. */
  ghost predicate Indexed(dl: seq<Entry>, cache: map<string, Entry>) {
    && (forall e :: e in dl ==> e.key in cache && cache[e.key] == e)
    && (forall k :: k in cache ==> cache[k] in dl && cache[k].key == k)
  }

  /** items are the contents of the entries. */
  ghost predicate Mirrors(items: seq<Item>, dl: seq<Entry>)
    reads dl
  {
    |items| == |dl| && forall i :: 0 <= i < |dl| ==> items[i] == Item(dl[i].key, dl[i].val)
  }

  class Cache {
    const maxBytes: int
    var nBytes: int
    var dl: seq<Entry>
    var cache: map<string, Entry>
    /** What OnEvicted has been called with, in order. */
    var evicted: seq<Item>
    /** The contents of dl as values. */
    ghost var items: seq<Item>

    /** List, map and counter agree. */
    ghost predicate Valid()
      reads this, dl
    {
      Mirrors(items, dl) && Distinct(items) && Indexed(dl, cache) && nBytes == Total(items)
    }

    constructor (maxBytes: int)
      ensures Valid() && items == [] && evicted == [] && this.maxBytes == maxBytes
    {
      this.maxBytes := maxBytes;
      nBytes, dl, cache, evicted, items := 0, [], map[], [], [];
    }

    /** The map answers membership for the list. */
    lemma MapIsList(k: string)
      requires Valid()
      ensures k in cache <==> Has(items, k)
    {
      HasMember(items, k);
      if k in cache {
        var i :| 0 <= i < |dl| && dl[i] == cache[k];
        assert items[i] in items;
      }
    }

    method MoveToFront(e: Entry)
      requires Valid() && e in dl
      modifies this`dl, this`items
      ensures Valid() && items == Put(old(items), e.key, e.val) && dl[0] == e
      ensures forall x :: x in dl <==> x in old(dl)
    {
      var i :| 0 <= i < |dl| && dl[i] == e;
      PromotedList(items, i);
      PromotedTotal(items, i);
      PutKeepsDistinct(items, e.key, e.val);
      PromotedMirrors(items, dl, i);
      PromotedIndexed(dl, cache, i);
      items := [items[i]] + items[..i] + items[i + 1..];
      dl := [dl[i]] + dl[..i] + dl[i + 1..];
    }

    method Get(key: string) returns (r: Option<Value>)
      requires Valid()
      modifies this`dl, this`items
      ensures Valid() && r == Lookup(old(items), key) && items == Touch(old(items), key)
      ensures forall e :: e in dl <==> e in old(dl)
    {
      MapIsList(key);
      LookupHas(items, key);
      if key in cache {
        var e := cache[key];
        ghost var i :| 0 <= i < |dl| && dl[i] == e;
        WithoutAt(items, key, i);
        MoveToFront(e);
        return Some(e.val);
      }
      r := None;
    }

    method RemoveOldest()
      requires Valid()
      modifies this`dl, this`cache, this`nBytes, this`evicted, this`items
      ensures Valid()
      ensures if old(items) == [] then items == [] && evicted == old(evicted)
              else items == old(items)[..|old(items)| - 1] && evicted == old(evicted) + [old(items)[|old(items)| - 1]]
      ensures dl <= old(dl)
    {
      if dl != [] {
        var n := |dl| - 1;
        var e := dl[n];
        MirrorsDropLast(items, dl, n);
        LastKeyUnique(items, dl, n);
        IndexedDropLast(dl, cache, n);
        PrefixDistinct(items, items[..n]);
        items := items[..n];
        dl := dl[..n];
        cache := cache - {e.key};
        nBytes := nBytes - (|e.key| + |e.val|);
        evicted := evicted + [Item(e.key, e.val)];
      }
    }

    /** Add for a key already cached: move its entry to the front and overwrite the value. */
    method Overwrite(key: string, val: Value)
      requires Valid() && key in cache
      modifies this`dl, this`nBytes, this`items, dl`val
      ensures Valid() && items == Put(old(items), key, val)
      ensures forall x :: x in dl ==> x in old(dl)
    {
      var e := cache[key];
      MoveToFront(e);
      PutKeepsDistinct(old(items), key, val);
      SetFront(e, val);
    }

    /** Overwrite the value of the first entry. */
    method SetFront(e: Entry, val: Value)
      requires Valid() && dl != [] && dl[0] == e && Distinct([Item(e.key, val)] + items[1..])
      modifies this`nBytes, this`items, e`val
      ensures Valid() && items == [Item(e.key, val)] + old(items)[1..]
    {
      ghost var rest := dl[1..];
      MirrorsTail(items, dl);
      TotalCons(items[0], items[1..]);
      TotalCons(Item(e.key, val), items[1..]);
      nBytes := nBytes + |val| - |e.val|;
      e.val := val;
      MirrorsCons(items[1..], rest, e);
      items := [Item(e.key, val)] + items[1..];
    }

    /** A new entry in front of list, map and counter. */
    method PushFront(e: Entry)
      requires Valid() && e.key !in cache && !Has(items, e.key)
      modifies this`dl, this`cache, this`nBytes, this`items
      ensures Valid() && items == [Item(e.key, e.val)] + old(items) && dl == [e] + old(dl)
    {
      IndexedInsert(dl, cache, e);
      MirrorsCons(items, dl, e);
      TotalCons(Item(e.key, e.val), items);
      DistinctCons(Item(e.key, e.val), items);
      nBytes := nBytes + |e.key| + |e.val|;
      cache := cache[e.key := e];
      dl := [e] + dl;
      items := [Item(e.key, e.val)] + items;
    }

    /** Add for a new key: a fresh entry in front. */
    method Insert(key: string, val: Value)
      requires Valid() && key !in cache
      modifies this`dl, this`cache, this`nBytes, this`items
      ensures Valid() && items == Put(old(items), key, val)
      ensures forall x :: x in dl ==> x in old(dl) || fresh(x)
    {
      MapIsList(key);
      WithoutAbsent(items, key);
      var e := new Entry(key, val);
      PushFront(e);
    }

    /** Add's eviction loop. */
    method Evict()
      requires Valid() && maxBytes >= 0
      modifies this`dl, this`cache, this`nBytes, this`evicted, this`items
      ensures Valid()
      ensures items == Keep(old(items), maxBytes)
      ensures evicted == old(evicted) + Reverse(old(items)[|items|..])
    {
      ghost var l, log := items, evicted;
      while OverBudget(maxBytes, nBytes)
        invariant Valid() && Shed(items, evicted, maxBytes) == Shed(l, log, maxBytes)
        decreases |items|
      {
        RemoveOldest();
      }
      ShedKeeps(l, log, maxBytes);
    }

    /** Add keeps exactly the longest prefix of the promoted list that fits; what falls off
        is reported from the back. */
    method Add(key: string, val: Value)
      requires Valid() && maxBytes >= 0
      modifies this`dl, this`cache, this`nBytes, this`evicted, this`items, dl`val
      ensures Valid()
      ensures items == Keep(Put(old(items), key, val), maxBytes)
      ensures evicted == old(evicted) + Reverse(Put(old(items), key, val)[|items|..])
    {
      if key in cache {
        Overwrite(key, val);
      } else {
        Insert(key, val);
      }
      Evict();
    }
  }

  lemma DistinctCons(x: Item, l: seq<Item>)
    requires Distinct(l) && !Has(l, x.key)
    ensures Distinct([x] + l)
  {
    assert ([x] + l)[1..] == l;
  }

  lemma MirrorsCons(items: seq<Item>, dl: seq<Entry>, e: Entry)
    requires Mirrors(items, dl)
    ensures Mirrors([Item(e.key, e.val)] + items, [e] + dl)
  {
  }

  lemma MirrorsTail(items: seq<Item>, dl: seq<Entry>)
    requires Mirrors(items, dl) && Distinct(items) && dl != []
    ensures Mirrors(items[1..], dl[1..]) && dl[0] !in dl[1..]
    ensures dl == [dl[0]] + dl[1..] && items == [items[0]] + items[1..]
  {
    forall i | 1 <= i < |dl| ensures dl[i] != dl[0] { KeysDiffer(items, 0, i); }
  }

  lemma MirrorsDropLast(items: seq<Item>, dl: seq<Entry>, n: nat)
    requires Mirrors(items, dl) && |dl| == n + 1
    ensures Mirrors(items[..n], dl[..n]) && items[n] == Item(dl[n].key, dl[n].val)
    ensures Total(items) == Total(items[..n]) + Size(items[n])
  {
    var front, last := items[..n], [items[n]];
    TotalSplit(front, last);
    assert items == front + last && last[1..] == [];
  }

  lemma PromotedMirrors(items: seq<Item>, dl: seq<Entry>, i: nat)
    requires Mirrors(items, dl) && i < |dl|
    ensures Mirrors([items[i]] + items[..i] + items[i + 1..], [dl[i]] + dl[..i] + dl[i + 1..])
  {
  }

  lemma PromotedIndexed(dl: seq<Entry>, cache: map<string, Entry>, i: nat)
    requires Indexed(dl, cache) && i < |dl|
    ensures Indexed([dl[i]] + dl[..i] + dl[i + 1..], cache)
    ensures forall x :: x in [dl[i]] + dl[..i] + dl[i + 1..] <==> x in dl
  {
    SameMembers(dl, i);
  }

  lemma SameMembers<T>(d: seq<T>, i: nat)
    requires i < |d|
    ensures forall x :: x in [d[i]] + d[..i] + d[i + 1..] <==> x in d
  {
    assert d == d[..i] + [d[i]] + d[i + 1..];
  }

  lemma LastKeyUnique(items: seq<Item>, dl: seq<Entry>, n: nat)
    requires Mirrors(items, dl) && Distinct(items) && |dl| == n + 1
    ensures forall i :: 0 <= i < n ==> dl[i].key != dl[n].key
  {
    forall i | 0 <= i < n ensures dl[i].key != dl[n].key { KeysDiffer(items, i, n); }
  }

  lemma IndexedDropLast(dl: seq<Entry>, cache: map<string, Entry>, n: nat)
    requires Indexed(dl, cache) && |dl| == n + 1 && forall i :: 0 <= i < n ==> dl[i].key != dl[n].key
    ensures Indexed(dl[..n], cache - {dl[n].key})
  {
    forall k | k in cache && k != dl[n].key ensures cache[k] in dl[..n] {
      var i :| 0 <= i < |dl| && dl[i] == cache[k];
      assert dl[..n][i] == dl[i];
    }
  }

  lemma IndexedInsert(dl: seq<Entry>, cache: map<string, Entry>, e: Entry)
    requires Indexed(dl, cache) && e.key !in cache
    ensures Indexed([e] + dl, cache[e.key := e])
  {
    forall k | k in cache ensures cache[k] in [e] + dl {
      var i :| 0 <= i < |dl| && dl[i] == cache[k];
      assert ([e] + dl)[i + 1] == dl[i];
    }
  }
}
