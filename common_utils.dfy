/** mcp_code_indexer/utils/common_utils.py: set conversion, file extensions and the LRU cache. */
module CommonUtils {
  import opened Wrappers
  import opened PyValue
  import opened OsPath
  import JsonUtils

  /** `convert_sets_to_lists` of this file tests for a set before a dict. */
  function ConvertSetsToLists(v: Value): Value {
    if v.PSet? then PList(v.elems)
    else if v.PDict? then
      PDict(seq(|v.entries|, i requires 0 <= i < |v.entries| => (v.entries[i].0, ConvertSetsToLists(v.entries[i].1))))
    else if v.PList? then
      PList(seq(|v.items|, i requires 0 <= i < |v.items| => ConvertSetsToLists(v.items[i])))
    else v
  }

  /** The two copies of the conversion agree on every value. */
  lemma {:induction false} SameAsJsonUtils(v: Value)
    ensures ConvertSetsToLists(v) == JsonUtils.ConvertSetsToLists(v)
  {
    match v
    case PDict(entries) =>
      forall i | 0 <= i < |entries| ensures ConvertSetsToLists(entries[i].1) == JsonUtils.ConvertSetsToLists(entries[i].1) {
        SameAsJsonUtils(entries[i].1);
      }
      assert ConvertSetsToLists(v).entries == JsonUtils.ConvertSetsToLists(v).entries;
    case PList(items) =>
      forall i | 0 <= i < |items| ensures ConvertSetsToLists(items[i]) == JsonUtils.ConvertSetsToLists(items[i]) {
        SameAsJsonUtils(items[i]);
      }
      assert ConvertSetsToLists(v).items == JsonUtils.ConvertSetsToLists(v).items;
    case _ =>
  }

  /** `get_file_extension`: the extension of the lowercased path, dot included,
      or "" when there is none. */
  function GetFileExtension(filePath: string): (r: string)
    ensures r == "" || (r[0] == '.' && forall k :: 1 <= k < |r| ==> r[k] != '.' && r[k] != '/')
    ensures |r| <= |filePath| && r == Lower(filePath)[|filePath| - |r|..]
    ensures forall k :: 0 <= k < |r| ==> !('A' <= r[k] <= 'Z')
  {
    var low := Lower(filePath);
    ExtIsSuffix(low);
    var r := SplitExt(low).1;
    forall k | 0 <= k < |r| ensures !('A' <= r[k] <= 'Z') {
      assert r[k] == low[|low| - |r| + k];
    }
    r
  }

  /** Upper and lower case spellings of a path have the same extension. */
  lemma ExtensionIgnoresCase(filePath: string)
    ensures GetFileExtension(filePath) == GetFileExtension(Lower(filePath))
  {
    LowerIdempotent(filePath);
  }

  /** `list.remove(x)`: drop the first occurrence of `x`. */
  function RemoveFirst<T(==, !new)>(s: seq<T>, x: T): (r: seq<T>)
    requires x in s
    ensures |r| == |s| - 1
    ensures NoDups(s) ==> NoDups(r) && forall y :: y in r <==> y in s && y != x
  {
    if s[0] == x then s[1..]
    else
      var rest := RemoveFirst(s[1..], x);
      assert NoDups(s) ==> NoDups(s[1..]) && s[0] !in s[1..];
      assert forall i :: 1 <= i < |s| ==> s[i] == s[1..][i - 1];
      [s[0]] + rest
  }

  lemma {:induction false} DistinctCount<T>(s: seq<T>)
    requires NoDups(s)
    ensures |set x | x in s| == |s|
  {
    if s != [] {
      DistinctCount(s[1..]);
      assert (set x | x in s) == (set x | x in s[1..]) + {s[0]};
      assert s[0] !in s[1..];
    }
  }

  /** A least-recently-used cache: `cache` holds the entries and `usage` their
      keys, least recently used first. */
  class LRUCache<K(==, !new), V> {
    const capacity: int
    var cache: map<K, V>
    var usage: seq<K>

    /** The cached keys and the keys in `usage` are the same, `usage` repeats
        none, and at most `capacity` entries are held (none when it is not positive). */
    ghost predicate Valid()
      reads this
    {
      && NoDups(usage)
      && (forall k :: k in cache <==> k in usage)
      && |usage| <= (if capacity < 0 then 0 else capacity)
    }

    lemma SizeMatches()
      requires Valid()
      ensures |cache| == |usage|
    {
      DistinctCount(usage);
      assert cache.Keys == set x | x in usage;
    }

    constructor (capacity: int)
      ensures Valid() && this.capacity == capacity && cache == map[] && usage == []
    {
      this.capacity := capacity;
      cache := map[];
      usage := [];
    }

    /** `get`: a hit returns the value and makes the key the most recent; a miss
        returns `default` and changes nothing. */
    method Get(key: K, default: V) returns (r: V)
      requires Valid()
      modifies this
      ensures Valid() && cache == old(cache)
      ensures key in old(cache) ==> r == old(cache)[key] && usage == RemoveFirst(old(usage), key) + [key]
      ensures key !in old(cache) ==> r == default && usage == old(usage)
    {
      if key in cache {
        usage := RemoveFirst(usage, key) + [key];
        r := cache[key];
      } else {
        r := default;
      }
    }

    /** `put`: an existing key gets the new value and becomes the most recent;
        a new key into a full cache first evicts `usage[0]`. `ok` is false when
        the source raises IndexError (`pop(0)` on an empty list), which happens
        exactly when a new key meets a capacity that is not positive. */
    method Put(key: K, value: V) returns (ok: bool)
      requires Valid()
      modifies this
      ensures Valid()
      ensures ok <==> key in old(cache) || capacity > 0
      ensures !ok ==> cache == old(cache) && usage == old(usage)
      ensures key in old(cache) ==>
        cache == old(cache)[key := value] && usage == RemoveFirst(old(usage), key) + [key]
      ensures key !in old(cache) && |old(cache)| < capacity ==>
        cache == old(cache)[key := value] && usage == old(usage) + [key]
      ensures ok && key !in old(cache) && |old(cache)| >= capacity ==>
        old(usage) != [] && cache == (old(cache) - {old(usage)[0]})[key := value] &&
        usage == old(usage)[1..] + [key]
    {
      SizeMatches();
      if key in cache {
        cache := cache[key := value];
        usage := RemoveFirst(usage, key) + [key];
        ok := true;
      } else {
        if |cache| >= capacity {
          if usage == [] {
            return false;
          }
          var lruKey := usage[0];
          usage := usage[1..];
          cache := cache - {lruKey};
        }
        cache := cache[key := value];
        usage := usage + [key];
        ok := true;
      }
    }

    method Clear()
      requires Valid()
      modifies this
      ensures Valid() && cache == map[] && usage == []
    {
      cache := map[];
      usage := [];
    }

    /** `__len__`: the number of cached keys. */
    method Len() returns (n: nat)
      requires Valid()
      ensures n == |cache| == |usage|
      ensures capacity >= 1 ==> n <= capacity
    {
      SizeMatches();
      n := |cache|;
    }
  }
}
