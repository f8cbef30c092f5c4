/** How often a demand-filled cache has to ask its source, request after request. */
module Fetches {
  import opened Base
  import opened LruSpec

  type Source = string -> Result<Value>

  // ---------------------------------------------------------------- the cache as a cut of the full list

  lemma {:induction false} TrimTwice(l: seq<Item>, room: int)
    ensures Trim(Trim(l, room), room) == Trim(l, room)
  {
    if l != [] && Size(l[0]) <= room { TrimTwice(l[1..], room - Size(l[0])); }
  }

  lemma {:induction false} TrimHas(l: seq<Item>, room: int, k: string)
    requires !Has(l, k)
    ensures !Has(Trim(l, room), k) && Without(Trim(l, room), k) == Trim(l, room)
  {
    if l != [] && Size(l[0]) <= room { TrimHas(l[1..], room - Size(l[0]), k); }
  }

  /** With c bytes set aside for key k, what has been trimmed off does not matter. */
  lemma {:induction false} TrimWithout(l: seq<Item>, k: string, c: nat, room: int)
    requires Distinct(l) && forall x :: x in l && x.key == k ==> Size(x) == c
    ensures Trim(Without(l, k), room - c) == Trim(Without(Trim(l, room), k), room - c)
  {
    if l != [] && Size(l[0]) <= room {
      if l[0].key == k {
        WithoutAbsent(l[1..], k);
        TrimHas(l[1..], room - c, k);
        TrimTwice(l[1..], room - c);
      } else {
        TrimWithout(l[1..], k, c, room - Size(l[0]));
      }
    }
  }

  lemma {:induction false} TotalWithout(l: seq<Item>, k: string, c: nat)
    requires Distinct(l) && Has(l, k) && forall x :: x in l && x.key == k ==> Size(x) == c
    ensures Total(Without(l, k)) + c == Total(l)
  {
    if l[0].key == k { WithoutAbsent(l[1..], k); } else { TotalWithout(l[1..], k, c); }
  }

  lemma TrimAll(l: seq<Item>, room: nat)
    requires Total(l) <= room
    ensures Trim(l, room) == l
  {
    TrimLongest(l, room, |l|);
    assert l[..|l|] == l;
  }

  lemma PutTrimmed(l: seq<Item>, k: string, v: Value, budget: nat)
    requires Distinct(l) && forall x :: x in l && x.key == k ==> x.val == v
    ensures Trim(Put(l, k, v), budget) == Trim(Put(Trim(l, budget), k, v), budget)
  {
    var it := Item(k, v);
    TrimWithout(l, k, Size(it), budget);
    assert ([it] + Without(l, k))[1..] == Without(l, k);
    assert ([it] + Without(Trim(l, budget), k))[1..] == Without(Trim(l, budget), k);
  }

  lemma PromotionFits(l: seq<Item>, k: string, v: Value, budget: nat)
    requires Distinct(l) && Has(l, k) && Total(l) <= budget && forall x :: x in l && x.key == k ==> x.val == v
    ensures Trim(Put(l, k, v), budget) == Put(l, k, v)
  {
    TotalWithout(l, k, Size(Item(k, v)));
    TotalCons(Item(k, v), Without(l, k));
    TrimAll(Put(l, k, v), budget);
  }

  lemma TrimFits(l: seq<Item>, room: nat)
    ensures Total(Trim(l, room)) <= room
  {
    TrimLongest(l, room, |Trim(l, room)|);
  }

  /** One request on the trimmed list gives the trimmed result of the request on the full one. */
  lemma ServeTrimmed(l: seq<Item>, k: string, r: Result<Value>, budget: nat)
    requires budget > 0 && Distinct(l) && forall x :: x in l && x.key == k ==> r == Ok(x.val)
    ensures Serve(Trim(l, budget), k, r, budget) == Trim(Serve(l, k, r, 0), budget)
  {
    var t := Trim(l, budget);
    LookupHas(l, k);
    LookupHas(t, k);
    if Has(t, k) { PrefixHas(t, l, k); }
    if r.Ok? {
      PutTrimmed(l, k, r.value, budget);
      if Has(t, k) {
        PrefixDistinct(l, t);
        TrimFits(l, budget);
        PromotionFits(t, k, r.value, budget);
      }
    }
  }

  /** A cache with a positive budget always holds exactly the part of the unlimited cache's
      list that fits the budget. */
  lemma {:induction false} ExactStack(reqs: seq<string>, source: Source, budget: nat)
    requires budget > 0
    ensures ServeAll(reqs, source, budget) == Keep(ServeAll(reqs, source, 0), budget)
  {
    if reqs != [] {
      var front, k := reqs[..|reqs| - 1], reqs[|reqs| - 1];
      ExactStack(front, source, budget);
      ServeAllOk(front, source, 0);
      ServeTrimmed(ServeAll(front, source, 0), k, source(k), budget);
    }
  }

  // ---------------------------------------------------------------- counting fetches

  /** How many of the requests for k have to ask the source. */
  function Fetched(reqs: seq<string>, source: Source, budget: int, k: string): nat {
    if reqs == [] then 0
    else
      var front, last := reqs[..|reqs| - 1], reqs[|reqs| - 1];
      Fetched(front, source, budget, k) + if last == k != "" && !Has(ServeAll(front, source, budget), k) then 1 else 0
  }

  /** What the answers for all the keys take up together. */
  function Weight(keys: seq<string>, source: Source): nat {
    if keys == [] then 0
    else (if source(keys[0]).Ok? then Size(Item(keys[0], source(keys[0]).value)) else 0) + Weight(keys[1..], source)
  }

  predicate Keys(keys: seq<string>) { "" !in keys && forall i, j :: 0 <= i < j < |keys| ==> keys[i] != keys[j] }

  ghost predicate Within(reqs: seq<string>, keys: seq<string>) { forall k :: k in reqs ==> k in keys }

  lemma {:induction false} WeightSplit(a: seq<string>, b: seq<string>, source: Source)
    ensures Weight(a + b, source) == Weight(a, source) + Weight(b, source)
  {
    if a == [] {
      assert a + b == b;
    } else {
      assert (a + b)[1..] == a[1..] + b;
      WeightSplit(a[1..], b, source);
    }
  }

  /** Setting one key of the list aside. */
  lemma WeightRemove(keys: seq<string>, i: nat, source: Source) returns (rest: seq<string>)
    requires Keys(keys) && i < |keys|
    ensures rest == keys[..i] + keys[i + 1..] && Keys(rest) && keys[i] !in rest
    ensures forall k :: k in keys <==> k in rest || k == keys[i]
    ensures Weight(keys, source) == Weight([keys[i]], source) + Weight(rest, source)
  {
    rest := keys[..i] + keys[i + 1..];
    assert keys == keys[..i] + ([keys[i]] + keys[i + 1..]);
    WeightSplit(keys[..i], [keys[i]] + keys[i + 1..], source);
    WeightSplit([keys[i]], keys[i + 1..], source);
    WeightSplit(keys[..i], keys[i + 1..], source);
  }

  /** Distinct cached answers for some of the keys weigh no more than all of them. */
  lemma {:induction false} TotalAtMost(l: seq<Item>, keys: seq<string>, source: Source)
    requires Distinct(l) && Sourced(l, source) && Keys(keys) && forall x :: x in l ==> x.key in keys
    ensures Total(l) <= Weight(keys, source)
    decreases |l|
  {
    if l != [] {
      assert l[0] in l && l[0].key in keys;
      var i: nat :| i < |keys| && keys[i] == l[0].key;
      var rest := WeightRemove(keys, i, source);
      forall x | x in l[1..] ensures x.key in rest {
        HasMember(l[1..], l[0].key);
        assert x in l;
      }
      TotalAtMost(l[1..], rest, source);
      assert [keys[i]][1..] == [];
    }
  }

  lemma {:induction false} ServedKeys(reqs: seq<string>, source: Source)
    ensures forall k :: Has(ServeAll(reqs, source, 0), k) <==> k in reqs && k != "" && source(k).Ok?
  {
    if reqs != [] {
      var front, last := reqs[..|reqs| - 1], reqs[|reqs| - 1];
      var l := ServeAll(front, source, 0);
      ServedKeys(front, source);
      assert reqs == front + [last];
      ServeAllOk(front, source, 0);
      LookupHas(l, last);
      forall k ensures Has(ServeAll(reqs, source, 0), k) <==> k in reqs && k != "" && source(k).Ok? {
        if last != "" && source(last).Ok? { HasPut(l, last, source(last).value, k); }
      }
    }
  }

  lemma HasPut(l: seq<Item>, k: string, v: Value, q: string)
    ensures Has(Put(l, k, v), q) <==> q == k || Has(l, q)
  {
    assert ([Item(k, v)] + Without(l, k))[1..] == Without(l, k);
    HasMember(l, q);
    HasMember(Without(l, k), q);
    WithoutOnly(l, k);
  }

  lemma {:induction false} UnlimitedFetches(reqs: seq<string>, source: Source, k: string)
    requires source(k).Ok?
    ensures Fetched(reqs, source, 0, k) == if k in reqs && k != "" then 1 else 0
  {
    if reqs != [] {
      var front := reqs[..|reqs| - 1];
      UnlimitedFetches(front, source, k);
      ServedKeys(front, source);
      assert reqs == front + [reqs[|reqs| - 1]];
    }
  }

  /** A budget with room for every answer is as good as none. */
  lemma {:induction false} RoomForAll(reqs: seq<string>, keys: seq<string>, source: Source, budget: nat, k: string)
    requires Keys(keys) && Within(reqs, keys) && Weight(keys, source) <= budget && budget > 0
    ensures ServeAll(reqs, source, budget) == ServeAll(reqs, source, 0)
    ensures Fetched(reqs, source, budget, k) == Fetched(reqs, source, 0, k)
  {
    var l := ServeAll(reqs, source, 0);
    ExactStack(reqs, source, budget);
    ServeAllOk(reqs, source, 0);
    ServedKeys(reqs, source);
    forall x | x in l ensures x.key in keys { HasMember(l, x.key); }
    TotalAtMost(l, keys, source);
    TrimAll(l, budget);
    if reqs != [] { RoomForAll(reqs[..|reqs| - 1], keys, source, budget, k); }
  }

  // ---------------------------------------------------------------- fetching twice

  /** A key not asked for before goes to the front of the unlimited list. */
  lemma FirstAsk(reqs: seq<string>, u: string, source: Source)
    requires u !in reqs && u != ""
    ensures var l, d := ServeAll(reqs, source, 0), ServeAll(reqs + [u], source, 0);
      && d == (if source(u).Ok? then [Item(u, source(u).value)] else []) + l
      && Total(d) == Weight([u], source) + Total(l)
  {
    var l := ServeAll(reqs, source, 0);
    assert (reqs + [u])[..|reqs|] == reqs && [u][1..] == [];
    ServedKeys(reqs, source);
    WithoutAbsent(l, u);
    assert [] + l == l;
    if source(u).Ok? { TotalCons(Item(u, source(u).value), l); }
  }

  /** After k and then each other key once, k is last on the unlimited list. */
  lemma {:induction false} AskedFirstIsLast(k: string, rest: seq<string>, source: Source)
    requires k != "" && k !in rest && Keys(rest) && source(k).Ok?
    ensures var l := ServeAll([k] + rest, source, 0);
      l != [] && l[|l| - 1].key == k && Total(l) == Weight([k], source) + Weight(rest, source)
  {
    if rest == [] {
      FirstAsk([], k, source);
      assert [] + [k] == [k] + rest == [k];
    } else {
      var front, u := rest[..|rest| - 1], rest[|rest| - 1];
      AskedFirstIsLast(k, front, source);
      FirstAsk([k] + front, u, source);
      assert [k] + front + [u] == [k] + rest && rest == front + [u];
      WeightSplit(front, [u], source);
    }
  }

  lemma LastIsCut(l: seq<Item>, budget: nat)
    requires l != [] && Distinct(l) && budget > 0 && Total(l) > budget
    ensures !Has(Keep(l, budget), l[|l| - 1].key)
  {
    var t := Keep(l, budget);
    KeepLongest(l, budget, |l|);
    assert l[..|l|] == l;
    HasMember(t, l[|l| - 1].key);
    forall i | 0 <= i < |t| ensures t[i].key != l[|l| - 1].key { KeysDiffer(l, i, |l| - 1); }
  }

  /** Asking for k, for everything else, and for k again. */
  lemma FetchedTwice(k: string, rest: seq<string>, source: Source, budget: nat)
    requires k != "" && k !in rest && Keys(rest) && source(k).Ok?
    requires budget > 0 && Weight([k], source) + Weight(rest, source) > budget
    ensures Fetched([k] + rest + [k], source, budget, k) >= 2
  {
    var reqs := [k] + rest;
    AskedFirstIsLast(k, rest, source);
    ServeAllOk(reqs, source, 0);
    ExactStack(reqs, source, budget);
    LastIsCut(ServeAll(reqs, source, 0), budget);
    assert (reqs + [k])[..|reqs|] == reqs;
    FirstIsFetched(k, rest, source, budget);
  }

  lemma {:induction false} FirstIsFetched(k: string, rest: seq<string>, source: Source, budget: int)
    requires k != ""
    ensures Fetched([k] + rest, source, budget, k) >= 1
  {
    if rest == [] {
      assert [k] + rest == [k] && [k][..0] == [];
    } else {
      var front := rest[..|rest| - 1];
      assert ([k] + rest)[..|rest|] == [k] + front;
      FirstIsFetched(k, front, source, budget);
    }
  }

  lemma FailureIsFetchedAgain(k: string, source: Source, budget: int)
    requires k != "" && source(k).Err?
    ensures Fetched([k, k], source, budget, k) == 2
  {
    assert [k, k][..1] == [k] && [k][..0] == [];
    assert Fetched([k], source, budget, k) == 1 && ServeAll([k], source, budget) == [];
  }

  /** Whatever is asked among these keys, one request after the other, k is fetched at most
      once. */
  ghost predicate FetchedOnce(keys: seq<string>, source: Source, budget: nat, k: string) {
    forall reqs :: Within(reqs, keys) ==> Fetched(reqs, source, budget, k) <= 1
  }

  /** A key is fetched only once exactly when the source answers it and the budget has room
      for the answers for all the keys in use. */
  lemma FetchedOnceExactly(keys: seq<string>, source: Source, budget: nat, k: string)
    requires Keys(keys) && k in keys
    ensures FetchedOnce(keys, source, budget, k) <==>
            source(k).Ok? && (budget == 0 || Weight(keys, source) <= budget)
  {
    if source(k).Err? {
      FailureIsFetchedAgain(k, source, budget);
      assert Within([k, k], keys);
    } else if budget == 0 || Weight(keys, source) <= budget {
      forall reqs | Within(reqs, keys) ensures Fetched(reqs, source, budget, k) <= 1 {
        UnlimitedFetches(reqs, source, k);
        if budget > 0 { RoomForAll(reqs, keys, source, budget, k); }
      }
    } else {
      var i: nat :| i < |keys| && keys[i] == k;
      var rest := WeightRemove(keys, i, source);
      FetchedTwice(k, rest, source, budget);
      assert Within([k] + rest + [k], keys);
    }
  }
}
