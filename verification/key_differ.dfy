/**
 * The key-set differencer: the `refKeys.forEach` loop that keeps every
 * reference path the comparison list does not (truthily) contain.
 */
module KeyDiffer {
  import opened Optional

  /**
   * `!compKeys.find((key) => key == refKey)` is true, so the key is kept,
   * when `find` returns `undefined` -- no equal entry -- or returns the
   * falsy empty string. An empty reference path is therefore always kept.
   */
  predicate Kept(refKey: string, compKeys: seq<string>): (kept: bool)
    ensures kept <==> !Truthy(if refKey in compKeys then Some(refKey) else None)
  {
    refKey !in compKeys || refKey == ""
  }

  /** The reference paths kept, in reference order, duplicates included. */
  function Missing(refKeys: seq<string>, compKeys: seq<string>): (missing: seq<string>)
    ensures |missing| <= |refKeys|
  {
    if refKeys == [] then []
    else
      var last := refKeys[|refKeys| - 1];
      Missing(refKeys[..|refKeys| - 1], compKeys) + (if Kept(last, compKeys) then [last] else [])
  }

  /** JavaScript truthiness of what `find` returns: a non-empty string. */
  predicate Truthy(found: Option<string>)
  {
    found.Some? && found.value != ""
  }

  /** `Array.prototype.find` with the predicate `key == target`: the first equal entry, or `undefined`. */
  method Find(keys: seq<string>, target: string) returns (found: Option<string>)
    ensures found.Some? <==> target in keys
    ensures found.Some? ==> found.value == target
  {
    var i := 0;
    while i < |keys|
      invariant 0 <= i <= |keys|
      invariant target !in keys[..i]
    {
      if keys[i] == target {
        return Some(keys[i]);
      }
      i := i + 1;
    }
    return None;
  }

  /** The diff loop: `missingKeys` starts empty and receives each reference key that `find` does not truthily match. */
  method DiffKeys(refKeys: seq<string>, compKeys: seq<string>) returns (missingKeys: seq<string>)
    ensures missingKeys == Missing(refKeys, compKeys)
  {
    missingKeys := [];
    for i := 0 to |refKeys|
      invariant missingKeys == Missing(refKeys[..i], compKeys)
    {
      var refKey := refKeys[i];
      var found := Find(compKeys, refKey);
      if !Truthy(found) {
        missingKeys := missingKeys + [refKey];
      }
      assert refKeys[..i + 1][..i] == refKeys[..i];
    }
    assert refKeys[..|refKeys|] == refKeys;
  }

  /** The elements of `s` whose flag in `mask` is set, in order. */
  function Select(s: seq<string>, mask: seq<bool>): seq<string>
    requires |mask| == |s|
  {
    if s == [] then []
    else Select(s[..|s| - 1], mask[..|s| - 1]) + (if mask[|s| - 1] then [s[|s| - 1]] else [])
  }

  /** `sub` is `s` with some entries deleted and the rest left in order. */
  ghost predicate IsSubsequence(sub: seq<string>, s: seq<string>)
  {
    exists mask: seq<bool> :: |mask| == |s| && sub == Select(s, mask)
  }

  /** The mask that selects the kept entries of `refKeys`. */
  function KeptMask(refKeys: seq<string>, compKeys: seq<string>): seq<bool>
  {
    seq(|refKeys|, i requires 0 <= i < |refKeys| => Kept(refKeys[i], compKeys))
  }

  /** The missing list is `refKeys` with exactly the non-kept entries removed, so it keeps their order. */
  lemma {:induction false} MissingIsSubsequence(refKeys: seq<string>, compKeys: seq<string>)
    ensures Missing(refKeys, compKeys) == Select(refKeys, KeptMask(refKeys, compKeys))
    ensures IsSubsequence(Missing(refKeys, compKeys), refKeys)
    decreases |refKeys|
  {
    var mask := KeptMask(refKeys, compKeys);
    if refKeys != [] {
      var n := |refKeys| - 1;
      MissingIsSubsequence(refKeys[..n], compKeys);
      assert KeptMask(refKeys[..n], compKeys) == mask[..n];
    }
  }

  /** A reference path is missing iff it occurs in `refKeys` and is kept. */
  lemma {:induction false} MissingMembership(refKeys: seq<string>, compKeys: seq<string>, key: string)
    ensures key in Missing(refKeys, compKeys) <==> key in refKeys && Kept(key, compKeys)
    decreases |refKeys|
  {
    if refKeys != [] {
      var n := |refKeys| - 1;
      MissingMembership(refKeys[..n], compKeys, key);
      assert refKeys == refKeys[..n] + [refKeys[n]];
    }
  }

  /** Duplicates survive: a kept path is missing as many times as it occurs in `refKeys`. */
  lemma {:induction false} MissingCounts(refKeys: seq<string>, compKeys: seq<string>, key: string)
    ensures multiset(Missing(refKeys, compKeys))[key] == if Kept(key, compKeys) then multiset(refKeys)[key] else 0
    decreases |refKeys|
  {
    if refKeys != [] {
      var n := |refKeys| - 1;
      MissingCounts(refKeys[..n], compKeys, key);
      assert refKeys == refKeys[..n] + [refKeys[n]];
    }
  }

  /** Nothing is missing from an empty reference list; everything is missing against an empty comparison list. */
  lemma {:induction false} MissingEmptyCases(keys: seq<string>, other: seq<string>)
    ensures Missing([], other) == []
    ensures Missing(keys, []) == keys
    decreases |keys|
  {
    if keys != [] {
      var n := |keys| - 1;
      MissingEmptyCases(keys[..n], other);
      assert keys == keys[..n] + [keys[n]];
    }
  }

  /** A list misses nothing against itself, unless it holds the empty path, which is always reported. */
  lemma MissingOfSelf(keys: seq<string>)
    ensures "" !in keys ==> Missing(keys, keys) == []
    ensures "" in keys ==> "" in Missing(keys, keys)
  {
    MissingMembership(keys, keys, "");
    var missing := Missing(keys, keys);
    if "" !in keys && missing != [] {
      MissingMembership(keys, keys, missing[0]);
      assert false;
    }
  }
}
