/** What an LRU cache keeps, as a recency list: most recently used first. */
module LruSpec {
  import opened Base

  type Value = string

  datatype Item = Item(key: string, val: Value)

  function Size(it: Item): nat { |it.key| + |it.val| }

  function Total(l: seq<Item>): nat { if l == [] then 0 else Size(l[0]) + Total(l[1..]) }

  predicate Has(l: seq<Item>, k: string) { l != [] && (l[0].key == k || Has(l[1..], k)) }

  predicate Distinct(l: seq<Item>) { l == [] || (!Has(l[1..], l[0].key) && Distinct(l[1..])) }

  function Lookup(l: seq<Item>, k: string): Option<Value> {
    if l == [] then None else if l[0].key == k then Some(l[0].val) else Lookup(l[1..], k)
  }

  function Without(l: seq<Item>, k: string): seq<Item> {
    if l == [] then [] else if l[0].key == k then Without(l[1..], k) else [l[0]] + Without(l[1..], k)
  }

  function Put(l: seq<Item>, k: string, v: Value): seq<Item> { [Item(k, v)] + Without(l, k) }

  function Touch(l: seq<Item>, k: string): seq<Item> {
    var o := Lookup(l, k);
    if o.Some? then Put(l, k, o.value) else l
  }

  /** The items that stay when `room` bytes are available, from the front. */
  function Trim(l: seq<Item>, room: int): (r: seq<Item>)
    ensures r <= l
  {
    if l == [] || Size(l[0]) > room then [] else [l[0]] + Trim(l[1..], room - Size(l[0]))
  }

  /** A budget of 0 means no limit. */
  function Keep(l: seq<Item>, budget: int): (r: seq<Item>)
    ensures r <= l
  {
    if budget == 0 then l else Trim(l, budget)
  }

  function Reverse(l: seq<Item>): seq<Item> { if l == [] then [] else Reverse(l[1..]) + [l[0]] }

  /** The guard of Add's eviction loop. */
  predicate OverBudget(budget: int, bytes: int) { budget != 0 && budget < bytes }

  // ---------------------------------------------------------------- Keep is the longest fitting prefix

  lemma {:induction false} TotalSplit(a: seq<Item>, b: seq<Item>)
    ensures Total(a + b) == Total(a) + Total(b)
  {
    if a == [] {
      assert a + b == b;
    } else {
      assert (a + b)[1..] == a[1..] + b;
      TotalSplit(a[1..], b);
    }
  }

  /** Trim keeps the longest prefix whose total size fits. */
  lemma {:induction false} TrimLongest(l: seq<Item>, room: int, n: nat)
    requires n <= |l| && room >= 0
    ensures n <= |Trim(l, room)| <==> Total(l[..n]) <= room
  {
    if l != [] && n > 0 {
      assert l[..n][1..] == l[1..][..n - 1];
      if Size(l[0]) <= room { TrimLongest(l[1..], room - Size(l[0]), n - 1); }
    } else if l != [] && Size(l[0]) <= room {
      TrimLongest(l[1..], room - Size(l[0]), 0);
    }
  }

  /** Exactly the prefixes that are within the budget survive. */
  lemma KeepLongest(l: seq<Item>, budget: nat, n: nat)
    requires n <= |l|
    ensures n <= |Keep(l, budget)| <==> !OverBudget(budget, Total(l[..n]))
  {
    if budget != 0 { TrimLongest(l, budget, n); }
  }

  /** The eviction loop can reach a state where it stops exactly when the budget is not
      negative: with a negative budget even the empty cache is over budget. */
  lemma EvictionStops(l: seq<Item>, budget: int)
    ensures budget >= 0 <==> exists n :: 0 <= n <= |l| && !OverBudget(budget, Total(l[..n]))
  {
    assert Total(l[..0]) == 0;
    assert budget >= 0 ==> !OverBudget(budget, Total(l[..0]));
  }

  /** What Add's eviction loop does to the list and to the record of what has been evicted. */
  function Shed(l: seq<Item>, evicted: seq<Item>, budget: nat): (seq<Item>, seq<Item>)
    decreases |l|
  {
    if l == [] || !OverBudget(budget, Total(l)) then (l, evicted)
    else Shed(l[..|l| - 1], evicted + [l[|l| - 1]], budget)
  }

  lemma {:induction false} ReverseSnoc(l: seq<Item>, x: Item)
    ensures Reverse(l + [x]) == [x] + Reverse(l)
  {
    if l == [] {
      assert [] + [x] == [x] && [x][1..] == [];
    } else {
      assert (l + [x])[1..] == l[1..] + [x];
      ReverseSnoc(l[1..], x);
    }
  }

  lemma {:induction false} TrimShorter(l: seq<Item>, room: int)
    requires l != [] && Total(l) > room
    ensures Trim(l, room) == Trim(l[..|l| - 1], room)
  {
    if |l| > 1 && Size(l[0]) <= room {
      TrimShorter(l[1..], room - Size(l[0]));
      assert l[..|l| - 1][1..] == l[1..][..|l| - 2];
    }
  }

  lemma ReportedFirst(front: seq<Item>, last: Item, n: nat, evicted: seq<Item>)
    requires n <= |front|
    ensures evicted + [last] + Reverse(front[n..]) == evicted + Reverse((front + [last])[n..])
  {
    var rest := front[n..];
    ReverseSnoc(rest, last);
    Regroup(evicted, [last], Reverse(rest));
    assert (front + [last])[n..] == rest + [last];
  }

  /** The loop keeps the longest prefix within the budget and reports the rest from the back. */
  lemma {:induction false} ShedKeeps(l: seq<Item>, evicted: seq<Item>, budget: nat)
    ensures Shed(l, evicted, budget) == (Keep(l, budget), evicted + Reverse(l[|Keep(l, budget)|..]))
    decreases |l|
  {
    if l == [] || !OverBudget(budget, Total(l)) {
      assert l[..|l|] == l;
      KeepLongest(l, budget, |l|);
      assert Keep(l, budget) == l && l[|l|..] == [] && evicted + [] == evicted;
    } else {
      var front, last := l[..|l| - 1], l[|l| - 1];
      var n := |Keep(front, budget)|;
      ShedKeeps(front, evicted + [last], budget);
      TrimShorter(l, budget);
      ReportedFirst(front, last, n, evicted);
      assert l == front + [last];
    }
  }

  // ---------------------------------------------------------------- list facts

  lemma {:induction false} LookupHas(l: seq<Item>, k: string)
    ensures Lookup(l, k).Some? <==> Has(l, k)
    ensures Lookup(l, k).Some? ==> Item(k, Lookup(l, k).value) in l
  {
    if l != [] { LookupHas(l[1..], k); }
  }

  lemma {:induction false} HasMember(l: seq<Item>, k: string)
    ensures Has(l, k) <==> exists x :: x in l && x.key == k
  {
    if l != [] {
      HasMember(l[1..], k);
      assert l == [l[0]] + l[1..];
    }
  }

  lemma {:induction false} WithoutAbsent(l: seq<Item>, k: string)
    requires !Has(l, k)
    ensures Without(l, k) == l
  {
    if l != [] {
      WithoutAbsent(l[1..], k);
      assert l == [l[0]] + l[1..];
    }
  }

  /** In a list without duplicate keys, key k sits at one place only. */
  lemma {:induction false} WithoutAt(l: seq<Item>, k: string, i: nat)
    requires Distinct(l) && i < |l| && l[i].key == k
    ensures Without(l, k) == l[..i] + l[i + 1..]
    ensures Lookup(l, k) == Some(l[i].val)
  {
    if i == 0 {
      WithoutAbsent(l[1..], k);
    } else {
      HasMember(l[1..], l[0].key);
      assert l[i] in l[1..];
      WithoutAt(l[1..], k, i - 1);
      assert l[..i] + l[i + 1..] == [l[0]] + (l[1..][..i - 1] + l[1..][i..]);
    }
  }

  lemma {:induction false} KeysDiffer(l: seq<Item>, i: nat, j: nat)
    requires Distinct(l) && i < j < |l|
    ensures l[i].key != l[j].key
  {
    if i == 0 {
      HasMember(l[1..], l[0].key);
      assert l[j] in l[1..];
    } else {
      KeysDiffer(l[1..], i - 1, j - 1);
    }
  }

  lemma {:induction false} WithoutOnly(l: seq<Item>, k: string)
    ensures forall x :: x in Without(l, k) <==> x in l && x.key != k
  {
    if l != [] {
      WithoutOnly(l[1..], k);
      assert l == [l[0]] + l[1..];
    }
  }

  lemma {:induction false} WithoutDistinct(l: seq<Item>, k: string)
    requires Distinct(l)
    ensures Distinct(Without(l, k))
    ensures forall x: string :: Has(Without(l, k), x) <==> Has(l, x) && x != k
  {
    if l != [] {
      WithoutDistinct(l[1..], k);
      if l[0].key != k {
        assert Without(l, k)[1..] == Without(l[1..], k);
      }
    }
  }

  /** Put, and therefore Touch, keep keys distinct and add nothing but the item put. */
  lemma PutKeepsDistinct(l: seq<Item>, k: string, v: Value)
    requires Distinct(l)
    ensures Distinct(Put(l, k, v))
    ensures forall x :: x in Put(l, k, v) ==> x == Item(k, v) || x in l
  {
    WithoutOnly(l, k);
    WithoutDistinct(l, k);
    assert Put(l, k, v)[1..] == Without(l, k);
  }

  /** What is put is found, and nothing else is looked up differently. */
  lemma {:induction false} PutLooksUp(l: seq<Item>, k: string, v: Value, q: string)
    ensures Lookup(Put(l, k, v), q) == if q == k then Some(v) else Lookup(l, q)
  {
    assert Put(l, k, v)[1..] == Without(l, k);
    if q != k { WithoutLooksUp(l, k, q); }
  }

  lemma {:induction false} WithoutLooksUp(l: seq<Item>, k: string, q: string)
    requires q != k
    ensures Lookup(Without(l, k), q) == Lookup(l, q)
  {
    if l != [] {
      WithoutLooksUp(l[1..], k, q);
      if l[0].key != k { assert Without(l, k)[1..] == Without(l[1..], k); }
    }
  }

  lemma {:induction false} PrefixDistinct(l: seq<Item>, p: seq<Item>)
    requires Distinct(l) && p <= l
    ensures Distinct(p)
  {
    if p != [] {
      PrefixDistinct(l[1..], p[1..]);
      HasMember(p[1..], p[0].key);
      HasMember(l[1..], p[0].key);
      assert forall x :: x in p[1..] ==> x in l[1..] by { assert p[1..] == l[1..][..|p| - 1]; }
    }
  }

  /** Moving position i to the front is putting its item there. */
  lemma PromotedList(l: seq<Item>, i: nat)
    requires Distinct(l) && i < |l|
    ensures [l[i]] + l[..i] + l[i + 1..] == Put(l, l[i].key, l[i].val)
  {
    WithoutAt(l, l[i].key, i);
    Regroup([l[i]], l[..i], l[i + 1..]);
  }

  lemma PromotedTotal(l: seq<Item>, i: nat)
    requires i < |l|
    ensures Total([l[i]] + l[..i] + l[i + 1..]) == Total(l)
  {
    var a, x, b := l[..i], [l[i]], l[i + 1..];
    TotalMoved(a, x, b);
    assert l == a + x + b;
  }

  lemma TotalCons(x: Item, l: seq<Item>)
    ensures Total([x] + l) == Size(x) + Total(l)
  {
    assert ([x] + l)[1..] == l;
  }

  lemma TotalMoved(a: seq<Item>, x: seq<Item>, b: seq<Item>)
    ensures Total(x + a + b) == Total(a + x + b)
  {
    TotalSplit(a + x, b);
    TotalSplit(a, x);
    TotalSplit(x + a, b);
    TotalSplit(x, a);
  }

  // ---------------------------------------------------------------- stack inclusion

  /** A request on a demand-filled cache whose source answers r: promote on a hit; on a miss
      add what the source gives, if it gives anything. The empty key is turned away. */
  function Serve(l: seq<Item>, k: string, r: Result<Value>, budget: int): seq<Item> {
    if k == "" then l else if Has(l, k) then Touch(l, k) else if r.Ok? then Keep(Put(l, k, r.value), budget) else l
  }

  function ServeAll(reqs: seq<string>, source: string -> Result<Value>, budget: int): seq<Item> {
    if reqs == [] then []
    else
      var last := reqs[|reqs| - 1];
      Serve(ServeAll(reqs[..|reqs| - 1], source, budget), last, source(last), budget)
  }

  function Hits(reqs: seq<string>, source: string -> Result<Value>, budget: int): nat {
    if reqs == [] then 0
    else
      var front := reqs[..|reqs| - 1];
      Hits(front, source, budget) + if Has(ServeAll(front, source, budget), reqs[|reqs| - 1]) then 1 else 0
  }

  predicate AtLeast(large: nat, small: nat) { large == 0 || small <= large }

  lemma KeepMonotone(s: seq<Item>, l: seq<Item>, small: nat, large: nat)
    requires s <= l && 0 < small && AtLeast(large, small)
    ensures Keep(s, small) <= Keep(l, large)
  {
    var a := Keep(s, small);
    KeepLongest(s, small, |a|);
    KeepLongest(l, large, |a|);
    assert s[..|a|] == l[..|a|];
  }

  lemma {:induction false} WithoutPrefix(s: seq<Item>, l: seq<Item>, k: string)
    requires s <= l
    ensures Without(s, k) <= Without(l, k)
  {
    if s != [] { WithoutPrefix(s[1..], l[1..], k); }
  }

  lemma {:induction false} PrefixHas(s: seq<Item>, l: seq<Item>, k: string)
    requires s <= l && Has(s, k)
    ensures Has(l, k)
  {
    if s[0].key != k { PrefixHas(s[1..], l[1..], k); }
  }

  /** Every cached value is what the source answers for its key. */
  predicate Sourced(l: seq<Item>, source: string -> Result<Value>) {
    forall x :: x in l ==> source(x.key) == Ok(x.val)
  }

  /** One request keeps the smaller cache's list a prefix of the larger one's. */
  lemma ServeInclusion(s: seq<Item>, l: seq<Item>, k: string, r: Result<Value>, small: nat, large: nat)
    requires s <= l && Distinct(l) && 0 < small && AtLeast(large, small)
    requires forall x :: x in l && x.key == k ==> r == Ok(x.val)
    ensures Serve(s, k, r, small) <= Serve(l, k, r, large)
  {
    WithoutPrefix(s, l, k);
    LookupHas(s, k);
    LookupHas(l, k);
    if Has(s, k) { PrefixHas(s, l, k); }
    if r.Ok? {
      var v := r.value;
      assert Put(s, k, v) <= Put(l, k, v);
      if !Has(s, k) {
        KeepMonotone(Put(s, k, v), Put(l, k, v), small, large);
        KeepLongest(Put(s, k, v), small, 0);
      }
    }
  }

  /** What a lookup in a sourced cache tells about the request. */
  lemma LookupServes(l: seq<Item>, source: string -> Result<Value>, k: string, budget: nat)
    requires Sourced(l, source) && k != ""
    ensures Has(l, k) <==> Lookup(l, k).Some?
    ensures Lookup(l, k).Some? ==> source(k) == Ok(Lookup(l, k).value) && Serve(l, k, source(k), budget) == Touch(l, k)
    ensures Lookup(l, k).None? ==> Touch(l, k) == l
    ensures Lookup(l, k).None? ==>
      Serve(l, k, source(k), budget) == if source(k).Ok? then Keep(Put(l, k, source(k).value), budget) else l
  {
    LookupHas(l, k);
  }

  lemma ServeKeepsSourced(l: seq<Item>, source: string -> Result<Value>, k: string, budget: nat)
    requires Distinct(l) && Sourced(l, source)
    ensures Distinct(Serve(l, k, source(k), budget)) && Sourced(Serve(l, k, source(k), budget), source)
  {
    if source(k).Ok? {
      var v := source(k).value;
      LookupHas(l, k);
      WithoutOnly(l, k);
      PutKeepsDistinct(l, k, v);
      PrefixDistinct(Put(l, k, v), Keep(Put(l, k, v), budget));
      forall x | x in Serve(l, k, source(k), budget) ensures source(x.key) == Ok(x.val) {
        assert x in Put(l, k, v) || x in l;
      }
    } else {
      LookupHas(l, k);
    }
  }

  lemma {:induction false} ServeAllOk(reqs: seq<string>, source: string -> Result<Value>, budget: nat)
    ensures Distinct(ServeAll(reqs, source, budget)) && Sourced(ServeAll(reqs, source, budget), source)
  {
    if reqs != [] {
      ServeAllOk(reqs[..|reqs| - 1], source, budget);
      ServeKeepsSourced(ServeAll(reqs[..|reqs| - 1], source, budget), source, reqs[|reqs| - 1], budget);
    }
  }

  /** Stack inclusion with variable item sizes: whatever is requested, the cache with the
      smaller positive budget holds a prefix of what the one with the larger budget holds. */
  lemma {:induction false} StackInclusion(reqs: seq<string>, source: string -> Result<Value>, small: nat, large: nat)
    requires 0 < small && AtLeast(large, small)
    ensures ServeAll(reqs, source, small) <= ServeAll(reqs, source, large)
  {
    if reqs != [] {
      var front, k := reqs[..|reqs| - 1], reqs[|reqs| - 1];
      StackInclusion(front, source, small, large);
      ServeAllOk(front, source, large);
      ServeInclusion(ServeAll(front, source, small), ServeAll(front, source, large), k, source(k), small, large);
    }
  }

  /** More memory never loses a hit. */
  lemma {:induction false} MoreMemoryMoreHits(reqs: seq<string>, source: string -> Result<Value>, small: nat,
                                              large: nat)
    requires 0 < small && AtLeast(large, small)
    ensures Hits(reqs, source, small) <= Hits(reqs, source, large)
  {
    if reqs != [] {
      var front := reqs[..|reqs| - 1];
      MoreMemoryMoreHits(front, source, small, large);
      StackInclusion(front, source, small, large);
      var s, l := ServeAll(front, source, small), ServeAll(front, source, large);
      if Has(s, reqs[|reqs| - 1]) { PrefixHas(s, l, reqs[|reqs| - 1]); }
    }
  }

  // ---------------------------------------------------------------- what is listed, by the requests alone

  /** All the characters the items are made of. */
  function Text(l: seq<Item>): string { if l == [] then "" else l[0].key + l[0].val + Text(l[1..]) }

  /** An item weighs its characters, those of the key and those of the value. */
  lemma {:induction false} TotalIsText(l: seq<Item>)
    ensures Total(l) == |Text(l)|
  {
    if l != [] { TotalIsText(l[1..]); }
  }

  /** The position of the last request for k. */
  function LastAsk(reqs: seq<string>, k: string): int {
    if reqs == [] then -1 else if reqs[|reqs| - 1] == k then |reqs| - 1 else LastAsk(reqs[..|reqs| - 1], k)
  }

  lemma {:induction false} LastAskIs(reqs: seq<string>, k: string)
    ensures var i := LastAsk(reqs, k);
      -1 <= i < |reqs| && (i >= 0 ==> reqs[i] == k) && forall j :: i < j < |reqs| ==> reqs[j] != k
  {
    if reqs != [] { LastAskIs(reqs[..|reqs| - 1], k); }
  }

  /** From most to least recently requested. */
  ghost predicate ByRecency(l: seq<Item>, reqs: seq<string>) {
    forall i, j :: 0 <= i < j < |l| ==> LastAsk(reqs, l[i].key) > LastAsk(reqs, l[j].key)
  }

  lemma {:induction false} WithoutByRecency(l: seq<Item>, reqs: seq<string>, k: string)
    requires ByRecency(l, reqs)
    ensures ByRecency(Without(l, k), reqs)
  {
    if l != [] {
      WithoutByRecency(l[1..], reqs, k);
      WithoutOnly(l[1..], k);
      var w := Without(l[1..], k);
      forall j | 0 <= j < |w| ensures LastAsk(reqs, l[0].key) > LastAsk(reqs, w[j].key) {
        assert w[j] in l[1..];
      }
    }
  }

  lemma PutByRecency(l: seq<Item>, reqs: seq<string>, k: string, v: Value)
    requires ByRecency(l, reqs)
    ensures ByRecency(Put(l, k, v), reqs + [k])
  {
    WithoutByRecency(l, reqs, k);
    WithoutOnly(l, k);
    assert (reqs + [k])[..|reqs|] == reqs;
    var w := Without(l, k);
    forall i | 0 <= i < |w| ensures LastAsk(reqs + [k], w[i].key) == LastAsk(reqs, w[i].key) < |reqs| {
      assert w[i] in w;
      LastAskIs(reqs, w[i].key);
    }
  }

  /** Whatever the budget and the source, what is listed is in order of the last request, and
      the empty key is not listed. */
  lemma {:induction false} ListedByRecency(reqs: seq<string>, source: string -> Result<Value>, budget: int)
    ensures ByRecency(ServeAll(reqs, source, budget), reqs)
    ensures forall x :: x in ServeAll(reqs, source, budget) ==> x.key != ""
  {
    if reqs != [] {
      var front, k := reqs[..|reqs| - 1], reqs[|reqs| - 1];
      var l := ServeAll(front, source, budget);
      ListedByRecency(front, source, budget);
      assert reqs == front + [k];
      LookupHas(l, k);
      HasMember(l, k);
      WithoutOnly(l, k);
      if k != "" && Has(l, k) {
        PutByRecency(l, front, k, Lookup(l, k).value);
      } else if k != "" && source(k).Ok? {
        PutByRecency(l, front, k, source(k).value);
      } else {
        NotListedByRecency(l, front, k);
      }
    }
  }

  lemma NotListedByRecency(l: seq<Item>, front: seq<string>, k: string)
    requires ByRecency(l, front) && forall x :: x in l ==> x.key != k
    ensures ByRecency(l, front + [k])
  {
    assert (front + [k])[..|front|] == front;
    forall i | 0 <= i < |l| ensures LastAsk(front + [k], l[i].key) == LastAsk(front, l[i].key) {
      assert l[i] in l;
    }
  }
}
