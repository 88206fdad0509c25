/**
 * The key flattener: `getKeys` and its inner `walk`, which turn a parsed
 * translation file into the list of dotted paths of all its keys.
 */
module KeyFlattener {
  import opened JsonValue

  /**
   * The path `walk` builds for key `k` under `parent`. JavaScript treats an
   * empty parent like a missing one (both are falsy), so a key under the
   * empty top-level key `""` gets no `"."` in front of it.
   */
  function Join(parent: string, k: string): (path: string)
    ensures parent == "" ==> path == k
    ensures parent != "" ==> parent + "." <= path && |path| == |parent| + 1 + |k|
  {
    if parent != "" then parent + "." + k else k
  }

  /**
   * The paths `walk(o, parent)` has pushed after the first `n` iterations of
   * its `for...in` loop over the members `fields` of `o`: each member's own
   * path, followed at once by the paths of its descendants when its value is
   * a plain object.
   */
  function Walked(fields: seq<(string, Value)>, n: nat, parent: string): (keys: seq<string>)
    requires n <= |fields|
    decreases Obj(fields), n
  {
    if n == 0 then []
    else
      var (k, v) := fields[n - 1];
      var current := Join(parent, k);
      Walked(fields, n - 1, parent) + [current] + (if v.Obj? then Walked(v.fields, |v.fields|, current) else [])
  }

  /** Everything `walk(o, parent)` pushes, for an object `o` with members `fields`. */
  function Flatten(fields: seq<(string, Value)>, parent: string): seq<string>
  {
    Walked(fields, |fields|, parent)
  }

  /** The keys that `getKeys(doc)` returns. */
  function KeysOf(doc: Value): seq<string>
  {
    Flatten(Entries(doc), "")
  }

  /** The number of keys at every object depth among `fields`' first `n` members. */
  function KeyCount(fields: seq<(string, Value)>, n: nat): nat
    requires n <= |fields|
    decreases Obj(fields), n
  {
    if n == 0 then 0
    else
      var v := fields[n - 1].1;
      KeyCount(fields, n - 1) + 1 + (if v.Obj? then KeyCount(v.fields, |v.fields|) else 0)
  }

  /**
   * `walk(o, parent)`, pushing onto the shared array `keys`; the array is
   * threaded through as `keys` in and `out` out. Only values whose
   * `Object.prototype.toString` is `"[object Object]"` -- plain objects -- are
   * descended into; arrays, strings, numbers, booleans and null are leaves.
   */
  method Walk(o: seq<(string, Value)>, parent: string, keys: seq<string>) returns (out: seq<string>)
    ensures out == keys + Flatten(o, parent)
    decreases Obj(o)
  {
    out := keys;
    for i := 0 to |o|
      invariant out == keys + Walked(o, i, parent)
    {
      var (k, v) := o[i];
      var current := Join(parent, k);
      WalkedStep(o, i, parent);
      out := out + [current];
      if v.Obj? {
        out := Walk(v.fields, current, out);
      }
    }
  }

  /** Iteration `i` of `walk`'s loop pushes member `i`'s path, then its descendants' when its value is an object. */
  lemma WalkedStep(o: seq<(string, Value)>, i: nat, parent: string)
    requires i < |o|
    ensures Walked(o, i + 1, parent) == Walked(o, i, parent) + [Join(parent, o[i].0)]
                                        + (if o[i].1.Obj? then Flatten(o[i].1.fields, Join(parent, o[i].0)) else [])
  {
  }

  /** `getKeys(obj)`: a fresh array, filled by `walk(obj)` with no parent. */
  method GetKeys(doc: Value) returns (keys: seq<string>)
    ensures keys == KeysOf(doc)
  {
    keys := Walk(Entries(doc), "", []);
  }

  /** What `walk` has pushed after `i` iterations is extended, never changed, by later ones. */
  lemma {:induction false} WalkedGrows(fields: seq<(string, Value)>, i: nat, j: nat, parent: string)
    requires i <= j <= |fields|
    ensures Walked(fields, i, parent) <= Walked(fields, j, parent)
    decreases j
  {
    if i < j {
      WalkedGrows(fields, i, j - 1, parent);
    }
  }

  /**
   * Pre-order: member `i`'s path comes right after the paths of members
   * `0 .. i-1` and their descendants, immediately followed by its own
   * descendants' paths; all of this is a prefix of the whole output.
   */
  lemma FlattenPreOrder(fields: seq<(string, Value)>, i: nat, parent: string)
    requires i < |fields|
    ensures var (k, v) := fields[i];
            var current := Join(parent, k);
            Walked(fields, i, parent) + [current] + (if v.Obj? then Flatten(v.fields, current) else [])
              <= Flatten(fields, parent)
  {
    WalkedGrows(fields, i + 1, |fields|, parent);
  }

  /** Sibling order: member `i`'s path sits at an earlier index than member `j`'s when `i < j`. */
  lemma FlattenSiblingOrder(fields: seq<(string, Value)>, i: nat, j: nat, parent: string)
    requires i < j < |fields|
    ensures |Walked(fields, i, parent)| < |Walked(fields, j, parent)| < |Flatten(fields, parent)|
    ensures Flatten(fields, parent)[|Walked(fields, i, parent)|] == Join(parent, fields[i].0)
    ensures Flatten(fields, parent)[|Walked(fields, j, parent)|] == Join(parent, fields[j].0)
  {
    WalkedGrows(fields, i + 1, j, parent);
    FlattenPreOrder(fields, i, parent);
    FlattenPreOrder(fields, j, parent);
  }

  /** One entry per key at every object depth; array, string and scalar values add no entries of their own. */
  lemma {:induction false} WalkedLength(fields: seq<(string, Value)>, n: nat, parent: string)
    requires n <= |fields|
    ensures |Walked(fields, n, parent)| == KeyCount(fields, n)
    decreases Obj(fields), n
  {
    if n > 0 {
      var (k, v) := fields[n - 1];
      WalkedLength(fields, n - 1, parent);
      if v.Obj? {
        WalkedLength(v.fields, |v.fields|, Join(parent, k));
      }
    }
  }

  /** `getKeys` returns one path per key at every depth, and `[]` exactly when the document has no members. */
  lemma KeysOfLength(doc: Value)
    ensures |KeysOf(doc)| == KeyCount(Entries(doc), |Entries(doc)|)
    ensures KeysOf(doc) == [] <==> Entries(doc) == []
    ensures doc.Obj? ==> (KeysOf(doc) == [] <==> doc.fields == [])
  {
    var e := Entries(doc);
    WalkedLength(e, |e|, "");
    if e != [] {
      WalkedGrows(e, 1, |e|, "");
    }
  }

  /**
   * The value stored under each path `walk` pushes, position by position:
   * entry `i` of `WalkedValues(fields, n)` is the value of the key whose path
   * is entry `i` of `Walked(fields, n, parent)`.
   */
  ghost function WalkedValues(fields: seq<(string, Value)>, n: nat): (vals: seq<Value>)
    requires n <= |fields|
    ensures |vals| == KeyCount(fields, n)
    decreases Obj(fields), n
  {
    if n == 0 then []
    else
      var v := fields[n - 1].1;
      WalkedValues(fields, n - 1) + [v] + (if v.Obj? then WalkedValues(v.fields, |v.fields|) else [])
  }

  /** Entry `i` is the path of a member of `fields` directly under `parent`, and `vals[i]` is that member's value. */
  ghost predicate MemberAt(fields: seq<(string, Value)>, parent: string, out: seq<string>, vals: seq<Value>, i: int)
  {
    0 <= i < |out| && i < |vals| &&
    exists t :: 0 <= t < |fields| && out[i] == Join(parent, fields[t].0) && vals[i] == fields[t].1
  }

  /**
   * Entry `i` is the path of a member of the object stored under an earlier
   * entry `j` -- its parent -- extended by that member's own name, and
   * `vals[i]` is that member's value.
   */
  ghost predicate ChildOfEarlier(out: seq<string>, vals: seq<Value>, i: int)
  {
    0 <= i < |out| && i < |vals| &&
    exists j, t :: 0 <= j < i && vals[j].Obj? && 0 <= t < |vals[j].fields|
                   && out[i] == Join(out[j], vals[j].fields[t].0) && vals[i] == vals[j].fields[t].1
  }

  /**
   * Every path `walk(o, parent)` pushes is either the path of a member of `o`
   * or the path of a member of a nested object, and then the path of that
   * object's own key -- its parent -- was pushed earlier.
   */
  lemma {:induction false} WalkedParentFirst(fields: seq<(string, Value)>, n: nat, parent: string)
    requires n <= |fields|
    ensures |Walked(fields, n, parent)| == |WalkedValues(fields, n)|
    ensures forall i :: 0 <= i < |Walked(fields, n, parent)| ==>
              MemberAt(fields, parent, Walked(fields, n, parent), WalkedValues(fields, n), i)
              || ChildOfEarlier(Walked(fields, n, parent), WalkedValues(fields, n), i)
    decreases Obj(fields), n
  {
    if n > 0 {
      var (k, v) := fields[n - 1];
      var current := Join(parent, k);
      var before, beforeVals := Walked(fields, n - 1, parent), WalkedValues(fields, n - 1);
      var out, vals := Walked(fields, n, parent), WalkedValues(fields, n);
      WalkedParentFirst(fields, n - 1, parent);
      WalkedUnfold(fields, n, parent);
      if v.Obj? {
        var sub, subVals := Walked(v.fields, |v.fields|, current), WalkedValues(v.fields, |v.fields|);
        WalkedParentFirst(v.fields, |v.fields|, current);
        ParentFirstStep(fields, parent, n - 1, before, beforeVals, sub, subVals, out, vals);
      } else {
        ParentFirstStep(fields, parent, n - 1, before, beforeVals, [], [], out, vals);
      }
    }
  }

  /** One loop iteration of `walk`, for the paths and for the values alike. */
  lemma WalkedUnfold(fields: seq<(string, Value)>, n: nat, parent: string)
    requires 0 < n <= |fields|
    ensures var (k, v) := fields[n - 1];
            var current := Join(parent, k);
            && Walked(fields, n, parent) == Walked(fields, n - 1, parent) + [current] + (if v.Obj? then Walked(v.fields, |v.fields|, current) else [])
            && WalkedValues(fields, n) == WalkedValues(fields, n - 1) + [v] + (if v.Obj? then WalkedValues(v.fields, |v.fields|) else [])
  {
  }

  /**
   * One iteration of `walk`'s loop keeps every entry's parent in place: it
   * pushes the path of member `t` after the earlier entries, then the
   * recursive call's entries when the member's value is an object.
   */
  lemma ParentFirstStep(fields: seq<(string, Value)>, parent: string, t: nat,
                        before: seq<string>, beforeVals: seq<Value>, sub: seq<string>, subVals: seq<Value>,
                        out: seq<string>, vals: seq<Value>)
    requires t < |fields| && |before| == |beforeVals| && |sub| == |subVals|
    requires forall i :: 0 <= i < |before| ==>
               MemberAt(fields, parent, before, beforeVals, i) || ChildOfEarlier(before, beforeVals, i)
    requires fields[t].1.Obj? ==> forall m :: 0 <= m < |sub| ==>
               MemberAt(fields[t].1.fields, Join(parent, fields[t].0), sub, subVals, m) || ChildOfEarlier(sub, subVals, m)
    requires !fields[t].1.Obj? ==> sub == []
    requires out == before + [Join(parent, fields[t].0)] + sub && vals == beforeVals + [fields[t].1] + subVals
    ensures forall i :: 0 <= i < |out| ==> MemberAt(fields, parent, out, vals, i) || ChildOfEarlier(out, vals, i)
  {
    var (k, v) := fields[t];
    var current := Join(parent, k);
    var head, headVals := before + [current], beforeVals + [v];
    assert out == head + sub && vals == headVals + subVals;
    forall i | 0 <= i < |out|
      ensures MemberAt(fields, parent, out, vals, i) || ChildOfEarlier(out, vals, i)
    {
      if i < |before| {
        ParentFirstExtends(fields, parent, before, beforeVals, out, vals, i);
      } else if i == |before| {
        assert out[i] == Join(parent, fields[t].0) && vals[i] == fields[t].1;
      } else {
        ParentFirstShifts(v, current, sub, subVals, head, headVals, i - |before| - 1);
      }
    }
  }

  /** A path placed by an earlier iteration keeps its place, its parent and its value when `walk` pushes more. */
  lemma ParentFirstExtends(fields: seq<(string, Value)>, parent: string, before: seq<string>, beforeVals: seq<Value>,
                           out: seq<string>, vals: seq<Value>, i: nat)
    requires before <= out && beforeVals <= vals && i < |before| && i < |beforeVals|
    requires MemberAt(fields, parent, before, beforeVals, i) || ChildOfEarlier(before, beforeVals, i)
    ensures MemberAt(fields, parent, out, vals, i) || ChildOfEarlier(out, vals, i)
  {
    assert out[i] == before[i] && vals[i] == beforeVals[i];
    if MemberAt(fields, parent, before, beforeVals, i) {
      var t :| 0 <= t < |fields| && before[i] == Join(parent, fields[t].0) && beforeVals[i] == fields[t].1;
      assert out[i] == Join(parent, fields[t].0) && vals[i] == fields[t].1;
    } else {
      var j, t :| 0 <= j < i && beforeVals[j].Obj? && 0 <= t < |beforeVals[j].fields|
                  && before[i] == Join(before[j], beforeVals[j].fields[t].0) && beforeVals[i] == beforeVals[j].fields[t].1;
      assert out[j] == before[j] && vals[j] == beforeVals[j];
      assert out[i] == Join(out[j], vals[j].fields[t].0) && vals[i] == vals[j].fields[t].1;
    }
  }

  /** Member `t` of the object under entry `j` is entry `i`, and `j` comes first: `j` is entry `i`'s parent. */
  lemma ChildOfEarlierAt(out: seq<string>, vals: seq<Value>, i: nat, j: nat, t: nat)
    requires j < i < |out| && i < |vals| && vals[j].Obj? && t < |vals[j].fields|
    requires out[i] == Join(out[j], vals[j].fields[t].0) && vals[i] == vals[j].fields[t].1
    ensures ChildOfEarlier(out, vals, i)
  {
  }

  /**
   * A path pushed by the recursive `walk(v, current)` that follows the push
   * of `current` has a parent earlier in the whole output: `current` itself
   * for a member of `v`, or its parent within the recursive call's output.
   */
  lemma ParentFirstShifts(v: Value, current: string, sub: seq<string>, subVals: seq<Value>,
                          head: seq<string>, headVals: seq<Value>, m: nat)
    requires v.Obj? && |head| == |headVals| >= 1 && head[|head| - 1] == current && headVals[|head| - 1] == v
    requires m < |sub| == |subVals|
    requires MemberAt(v.fields, current, sub, subVals, m) || ChildOfEarlier(sub, subVals, m)
    ensures ChildOfEarlier(head + sub, headVals + subVals, |head| + m)
  {
    if MemberAt(v.fields, current, sub, subVals, m) {
      var t :| 0 <= t < |v.fields| && sub[m] == Join(current, v.fields[t].0) && subVals[m] == v.fields[t].1;
      ShiftedMember(v, current, sub, subVals, head, headVals, m, t);
    } else {
      var j, t :| 0 <= j < m && subVals[j].Obj? && 0 <= t < |subVals[j].fields|
                  && sub[m] == Join(sub[j], subVals[j].fields[t].0) && subVals[m] == subVals[j].fields[t].1;
      ShiftedChild(sub, subVals, head, headVals, m, j, t);
    }
  }

  /** A member `t` of `v` pushed by the recursive call has `current`, the last entry of `head`, as its parent. */
  lemma ShiftedMember(v: Value, current: string, sub: seq<string>, subVals: seq<Value>,
                      head: seq<string>, headVals: seq<Value>, m: nat, t: nat)
    requires v.Obj? && |head| == |headVals| >= 1 && head[|head| - 1] == current && headVals[|head| - 1] == v
    requires m < |sub| == |subVals| && t < |v.fields|
    requires sub[m] == Join(current, v.fields[t].0) && subVals[m] == v.fields[t].1
    ensures ChildOfEarlier(head + sub, headVals + subVals, |head| + m)
  {
    var out, vals, i, p := head + sub, headVals + subVals, |head| + m, |head| - 1;
    assert out[i] == sub[m] && vals[i] == subVals[m];
    assert out[p] == current && vals[p] == v;
    ChildOfEarlierAt(out, vals, i, p, t);
  }

  /** A deeper path pushed by the recursive call keeps its parent, shifted by `|head|`. */
  lemma ShiftedChild(sub: seq<string>, subVals: seq<Value>, head: seq<string>, headVals: seq<Value>, m: nat, j: nat, t: nat)
    requires |head| == |headVals| && j < m < |sub| == |subVals|
    requires subVals[j].Obj? && t < |subVals[j].fields|
    requires sub[m] == Join(sub[j], subVals[j].fields[t].0) && subVals[m] == subVals[j].fields[t].1
    ensures ChildOfEarlier(head + sub, headVals + subVals, |head| + m)
  {
    var out, vals, i, q := head + sub, headVals + subVals, |head| + m, |head| + j;
    assert out[i] == sub[m] && vals[i] == subVals[m];
    assert out[q] == sub[j] && vals[q] == subVals[j];
    ChildOfEarlierAt(out, vals, i, q, t);
  }

  /**
   * `getKeys`: every path is a top-level member's path, or the path of a
   * member of an object whose own path -- its parent -- comes earlier, extended
   * by the member's name.
   */
  lemma KeysOfParentFirst(doc: Value)
    ensures |KeysOf(doc)| == |WalkedValues(Entries(doc), |Entries(doc)|)|
    ensures forall i :: 0 <= i < |KeysOf(doc)| ==>
              MemberAt(Entries(doc), "", KeysOf(doc), WalkedValues(Entries(doc), |Entries(doc)|), i)
              || ChildOfEarlier(KeysOf(doc), WalkedValues(Entries(doc), |Entries(doc)|), i)
  {
    var e := Entries(doc);
    WalkedParentFirst(e, |e|, "");
  }

  /** Below a non-empty parent, every path pushed starts with the parent's path and a dot. */
  lemma {:induction false} WalkedUnderParent(fields: seq<(string, Value)>, n: nat, parent: string)
    requires n <= |fields|
    requires parent != ""
    ensures forall i :: 0 <= i < |Walked(fields, n, parent)| ==> parent + "." <= Walked(fields, n, parent)[i]
    decreases Obj(fields), n
  {
    if n > 0 {
      var (k, v) := fields[n - 1];
      var current := Join(parent, k);
      var before := Walked(fields, n - 1, parent);
      var sub := if v.Obj? then Walked(v.fields, |v.fields|, current) else [];
      var out := Walked(fields, n, parent);
      assert out == before + [current] + sub;
      assert current == (parent + ".") + k;
      WalkedUnderParent(fields, n - 1, parent);
      if v.Obj? {
        WalkedUnderParent(v.fields, |v.fields|, current);
      }
      forall i | 0 <= i < |out|
        ensures parent + "." <= out[i]
      {
        if i < |before| {
          assert out[i] == before[i];
        } else if i > |before| {
          assert out[i] == sub[i - |before| - 1];
          assert current + "." <= out[i];
        }
      }
    }
  }

  /**
   * The empty key is falsy as a parent: the children of a top-level `""`
   * member get no `"."` in front and read like top-level keys.
   */
  lemma EmptyKeyChildrenUnprefixed()
    ensures KeysOf(Obj([("", Obj([("x", Scalar)]))])) == ["", "x"]
  {
    var inner: seq<(string, Value)> := [("x", Scalar)];
    assert Walked(inner, 0, "") == [];
    assert Flatten(inner, "") == ["x"];
    assert Walked([("", Obj(inner))], 0, "") == [];
  }

  /**
   * A top-level array is enumerated by index, and an object element is
   * walked under its index: `[{"x": 1}, 2]` gives `["0", "0.x", "1"]`.
   */
  lemma TopLevelArrayIndices()
    ensures KeysOf(Arr([Obj([("x", Scalar)]), Scalar])) == ["0", "0.x", "1"]
  {
    var inner: seq<(string, Value)> := [("x", Scalar)];
    var entries := Entries(Arr([Obj(inner), Scalar]));
    assert IndexName(0) == "0" && IndexName(1) == "1";
    assert entries == [("0", Obj(inner)), ("1", Scalar)];
    assert Walked(inner, 0, "0") == [];
    assert Join("0", "x") == "0.x";
    assert Walked(inner, 1, "0") == [Join("0", "x")];
    assert Walked(entries, 0, "") == [];
    assert Walked(entries, 1, "") == ["0", "0.x"];
  }
}
