/** The in-memory response cache: entries with a deadline in a store that may forget any of them. */
module Cache {
  import opened Collections
  import opened Dns

  /** The text whose digest is the cache key. */
  function Preimage(id: string, name: string, qtype: string): string {
    id + ['|'] + name + ['|'] + qtype
  }

  /** The last separator is where the separator-free suffix begins. */
  lemma LastCut(a: string, x: string, b: string, y: string, sep: char)
    requires sep !in x && sep !in y && a + [sep] + x == b + [sep] + y
    ensures a == b && x == y
  {
    var s, t := a + [sep] + x, b + [sep] + y;
    assert forall k | 0 <= k < |x| :: s[|a| + 1 + k] == x[k];
    assert forall k | 0 <= k < |y| :: t[|b| + 1 + k] == y[k];
    assert s[|a|] == sep && t[|b|] == sep;
    if |a| < |b| {
      assert false;
    } else if |b| < |a| {
      assert false;
    } else {
      assert a == s[..|a|] && b == t[..|b|];
      assert x == s[|a| + 1..] && y == t[|b| + 1..];
    }
  }

  /** The text is unambiguous for any resolver ID as long as name and type contain no separator. */
  lemma PreimageInjective(id: string, name: string, qtype: string, id': string, name': string, qtype': string)
    requires '|' !in name && '|' !in name' && '|' !in qtype && '|' !in qtype'
    requires Preimage(id, name, qtype) == Preimage(id', name', qtype')
    ensures id == id' && name == name' && qtype == qtype'
  {
    LastCut(id + ['|'] + name, qtype, id' + ['|'] + name', qtype', '|');
    LastCut(id, name, id', name', '|');
  }

  /** A separator in the name makes two different queries share their text, hence their key. */
  lemma PreimageConflates(id: string, head: string, tail: string, qtype: string)
    ensures Preimage(id, head + ['|'] + tail, qtype) == Preimage(id + ['|'] + head, tail, qtype)
    ensures id != id + ['|'] + head
  {
    assert Preimage(id, head + ['|'] + tail, qtype) == id + ['|'] + head + ['|'] + tail + ['|'] + qtype;
    assert |id + ['|'] + head| > |id|;
  }

  datatype Entry = Entry(value: ResolverResult, expiresAt: int)

  type Store = map<string, Entry>

  /** What a read at `now` finds. */
  function Find(store: Store, key: string, now: int): Option<ResolverResult> {
    if key in store && now <= store[key].expiresAt then Some(store[key].value) else None
  }

  /** The store after a read at `now`: an expired entry is dropped. */
  function Expire(store: Store, key: string, now: int): Store {
    if key in store && now > store[key].expiresAt then store - {key} else store
  }

  /** The store after a write that made it forget the keys in `evicted`. */
  function Put(store: Store, key: string, value: ResolverResult, expiresAt: int, evicted: set<string>): Store {
    (store - evicted)[key := Entry(value, expiresAt)]
  }

  class Memory {
    var lru: Store

    constructor ()
      ensures lru == map[]
    {
      lru := map[];
    }

    method Get(key: string, now: int) returns (r: Option<ResolverResult>)
      modifies this
      ensures r == Find(old(lru), key, now)
      ensures lru == Expire(old(lru), key, now)
      ensures forall k, at | at >= now :: Find(lru, k, at) == Find(old(lru), k, at)
      ensures forall k | k in lru :: k in old(lru) && lru[k] == old(lru)[k]
      ensures r.None? ==> key !in lru
    {
      if key !in lru {
        return None;
      }
      var e := lru[key];
      if now > e.expiresAt {
        lru := lru - {key};
        return None;
      }
      return Some(e.value);
    }

    method Set(key: string, value: ResolverResult, ttl: int, now: int, evicted: set<string>)
      modifies this
      ensures lru == Put(old(lru), key, value, now + ttl, evicted)
      ensures forall at | now <= at <= now + ttl :: Find(lru, key, at) == Some(value)
      ensures forall at | at > now + ttl :: Find(lru, key, at) == None
      ensures forall k, at | k != key && k !in evicted :: Find(lru, k, at) == Find(old(lru), k, at)
      ensures forall k, at | k != key && k in evicted :: Find(lru, k, at) == None
    {
      lru := lru - evicted;
      lru := lru[key := Entry(value, now + ttl)];
    }

    method Delete(key: string)
      modifies this
      ensures lru == old(lru) - {key}
      ensures forall at :: Find(lru, key, at) == None
      ensures forall k, at | k != key :: Find(lru, k, at) == Find(old(lru), k, at)
    {
      lru := lru - {key};
    }
  }
}
