/** A cache group on its own: look in the cache, else ask the getter and remember. */
module GeeCache {
  import opened Base
  import opened LruSpec
  import Lru

  const KEY_REQUIRED := "key is required"

  class Group {
    const getter: string -> Result<Value>
    const cacheBytes: int
    /** Created by the first Add. */
    var lru: Lru.Cache?
    /** The keys the getter has been asked for. */
    ghost var asked: seq<string>

    ghost function Items(): seq<Item>
      reads this, lru
    {
      if lru == null then [] else lru.items
    }

    /** The cache behind the group, once there is one, is in order. */
    ghost predicate Backed()
      reads this, lru, if lru == null then {} else set e | e in lru.dl
    {
      lru != null ==> lru.Valid() && lru.maxBytes == cacheBytes
    }

    /** What is cached is what the getter answers. */
    ghost predicate Valid()
      reads this, lru, if lru == null then {} else set e | e in lru.dl
    {
      Backed() && Distinct(Items()) && Sourced(Items(), getter)
    }

    constructor (getter: string -> Result<Value>, cacheBytes: int)
      ensures Valid() && Items() == [] && asked == [] && this.getter == getter && this.cacheBytes == cacheBytes
    {
      this.getter := getter;
      this.cacheBytes := cacheBytes;
      lru, asked := null, [];
    }

    method PopulateCache(key: string, val: Value)
      requires Backed() && cacheBytes >= 0
      modifies this`lru, lru, if lru == null then {} else set e | e in lru.dl
      ensures Backed() && Items() == Keep(Put(old(Items()), key, val), cacheBytes)
    {
      if lru == null {
        lru := new Lru.Cache(cacheBytes);
      }
      lru.Add(key, val);
    }

    /** mainCache.get: a cache not yet created holds nothing. */
    method CacheGet(key: string) returns (r: Option<Value>)
      requires Backed()
      modifies lru
      ensures Backed() && r == Lookup(old(Items()), key) && Items() == Touch(old(Items()), key)
      ensures lru != null ==> forall e :: e in lru.dl <==> e in old(lru.dl)
    {
      r := None;
      if lru != null {
        r := lru.Get(key);
      }
    }

    method GetLocally(key: string) returns (r: Result<Value>)
      requires Backed() && cacheBytes >= 0
      modifies this, lru, if lru == null then {} else set e | e in lru.dl
      ensures Backed() && r == getter(key) && asked == old(asked) + [key]
      ensures Items() == if r.Ok? then Keep(Put(old(Items()), key, r.value), cacheBytes) else old(Items())
    {
      asked := asked + [key];
      r := getter(key);
      if r.Ok? {
        PopulateCache(key, r.value);
      }
    }

    /** Get answers as the getter would, leaves the cache as one demand-filled request, and
        asks the getter only on a miss. */
    method Get(key: string) returns (r: Result<Value>)
      requires Valid() && cacheBytes >= 0
      modifies this, lru, if lru == null then {} else set e | e in lru.dl
      ensures Valid() && Items() == Serve(old(Items()), key, getter(key), cacheBytes)
      ensures asked == old(asked) + if key != "" && !Has(old(Items()), key) then [key] else []
      ensures r == if key == "" then Err(KEY_REQUIRED) else getter(key)
    {
      if key == "" {
        return Err(KEY_REQUIRED);
      }
      LookupServes(Items(), getter, key, cacheBytes);
      ServeKeepsSourced(Items(), getter, key, cacheBytes);
      var hit := CacheGet(key);
      if hit.Some? {
        return Ok(hit.value);
      }
      r := GetLocally(key);
    }
  }
}
