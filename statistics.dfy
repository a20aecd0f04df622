/** The run's statistics: `defaultdict(int)` from folder name to number of files, in insertion order. */
module Statistics {

  /** The sum of `counts[k]` over `keys`. */
  function SumOver(keys: seq<string>, counts: map<string, nat>): nat
    requires forall k :: k in keys ==> k in counts
  {
    if keys == [] then 0 else SumOver(keys[..|keys| - 1], counts) + counts[keys[|keys| - 1]]
  }

  /** Changing the count of a key listed once changes the sum by the same amount. */
  lemma {:induction false} SumOverUpdate(keys: seq<string>, counts: map<string, nat>, key: string, v: nat)
    requires forall k :: k in keys ==> k in counts
    requires key in counts
    requires forall i, j :: 0 <= i < j < |keys| ==> keys[i] != keys[j]
    ensures SumOver(keys, counts[key := v]) == SumOver(keys, counts) + (if key in keys then v - counts[key] else 0)
  {
    if keys != [] {
      var init := keys[..|keys| - 1];
      SumOverUpdate(init, counts, key, v);
      assert key in keys <==> key in init || key == keys[|keys| - 1];
      if key == keys[|keys| - 1] {
        assert key !in init;
      }
    }
  }

  /** The keys with a count are those listed, each listed once. */
  ghost predicate KeysListed(keys: seq<string>, counts: map<string, nat>) {
    && (forall k :: k in counts <==> k in keys)
    && (forall i, j :: 0 <= i < j < |keys| ==> keys[i] != keys[j])
  }

  lemma AppendKeyListed(keys: seq<string>, counts: map<string, nat>, key: string)
    requires KeysListed(keys, counts) && key !in keys
    ensures KeysListed(keys + [key], counts[key := 1])
  {
    var ks := keys + [key];
    forall i, j | 0 <= i < j < |ks| ensures ks[i] != ks[j] {
      if j == |keys| {
        assert ks[i] == keys[i];
      }
    }
  }

  class Stats {
    var keys: seq<string>
    var counts: map<string, nat>

    ghost predicate Valid()
      reads this
    {
      KeysListed(keys, counts)
    }

    constructor ()
      ensures Valid() && keys == [] && counts == map[]
    {
      keys := [];
      counts := map[];
    }

    /** `stats[key]`, with the default 0 of `defaultdict(int)`. */
    function Get(key: string): nat
      reads this
    {
      CountIn(counts, key)
    }

    /** `sum(stats.values())`, the total `display_summary` prints. */
    function Total(): nat
      reads this
      requires Valid()
    {
      SumOver(keys, counts)
    }

    /** `stats[key] += 1`: one key gains one, a new key goes last, the total grows by one. */
    method Increment(key: string)
      requires Valid()
      modifies this
      ensures Valid()
      ensures forall k :: Get(k) == old(Get(k)) + (if k == key then 1 else 0)
      ensures Total() == old(Total()) + 1
      ensures keys == if key in old(keys) then old(keys) else old(keys) + [key]
    {
      var ks, cs := KeysAfter(keys, key), CountsAfter(counts, key);
      AddOneFacts(keys, counts, key);
      keys, counts := ks, cs;
    }
  }

  /** A key's count, 0 for a key never counted. */
  function CountIn(counts: map<string, nat>, key: string): nat {
    if key in counts then counts[key] else 0
  }

  /** The keys after `stats[key] += 1`: a new key goes last. */
  function KeysAfter(keys: seq<string>, key: string): seq<string> {
    if key in keys then keys else keys + [key]
  }

  /** The counts after `stats[key] += 1`. */
  function CountsAfter(counts: map<string, nat>, key: string): map<string, nat> {
    counts[key := CountIn(counts, key) + 1]
  }

  /** Adding one to a key keeps the keys listed once, adds one to that key only, and one to the sum. */
  lemma AddOneFacts(keys: seq<string>, counts: map<string, nat>, key: string)
    requires KeysListed(keys, counts)
    ensures KeysListed(KeysAfter(keys, key), CountsAfter(counts, key))
    ensures forall k :: CountIn(CountsAfter(counts, key), k) == CountIn(counts, k) + (if k == key then 1 else 0)
    ensures SumOver(KeysAfter(keys, key), CountsAfter(counts, key)) == SumOver(keys, counts) + 1
  {
    if key in counts {
      AddToListed(keys, counts, key);
    } else {
      AddToUnlisted(keys, counts, key);
    }
  }

  /** A listed key gains one: the keys stay as they are. */
  lemma AddToListed(keys: seq<string>, counts: map<string, nat>, key: string)
    requires KeysListed(keys, counts) && key in counts
    ensures KeysAfter(keys, key) == keys && CountsAfter(counts, key) == counts[key := counts[key] + 1]
    ensures KeysListed(keys, counts[key := counts[key] + 1])
    ensures SumOver(keys, counts[key := counts[key] + 1]) == SumOver(keys, counts) + 1
  {
    SumOverUpdate(keys, counts, key, counts[key] + 1);
  }

  /** A new key starts at one and is listed last. */
  lemma AddToUnlisted(keys: seq<string>, counts: map<string, nat>, key: string)
    requires KeysListed(keys, counts) && key !in counts
    ensures KeysAfter(keys, key) == keys + [key] && CountsAfter(counts, key) == counts[key := 1]
    ensures KeysListed(keys + [key], counts[key := 1])
    ensures SumOver(keys + [key], counts[key := 1]) == SumOver(keys, counts) + 1
  {
    SumOverAppend(keys, counts, key);
    AppendKeyListed(keys, counts, key);
  }

  /** A key not listed does not contribute to the sum. */
  lemma {:induction false} SumOverIgnores(keys: seq<string>, counts: map<string, nat>, key: string, v: nat)
    requires forall k :: k in keys ==> k in counts
    requires key !in keys
    ensures SumOver(keys, counts[key := v]) == SumOver(keys, counts)
  {
    if keys != [] {
      SumOverIgnores(keys[..|keys| - 1], counts, key, v);
    }
  }

  /** A new key listed last with count 1 adds 1 to the sum. */
  lemma SumOverAppend(keys: seq<string>, counts: map<string, nat>, key: string)
    requires forall k :: k in keys ==> k in counts
    requires key !in keys
    ensures SumOver(keys + [key], counts[key := 1]) == SumOver(keys, counts) + 1
  {
    var ks := keys + [key];
    assert ks[..|ks| - 1] == keys;
    SumOverIgnores(keys, counts, key, 1);
  }
}
