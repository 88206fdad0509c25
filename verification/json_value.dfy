/**
 * The parsed JSON document that the flattener walks. `JSON.parse` itself is
 * not modelled: the parsed value is an input.
 */
module JsonValue {

  /**
   * A parsed JSON value as a closed set of tags. An object's members are
   * listed in the order in which `for...in` enumerates them. Arrays keep their
   * elements and strings their characters, because a top-level array or
   * string is still enumerated by index.
   */
  datatype Value =
    | Obj(fields: seq<(string, Value)>)
    | Arr(items: seq<Value>)
    | Str(chars: string)
    | Scalar  // a number or a boolean
    | Null

  /** The character of decimal digit `d`. */
  function DigitChar(d: nat): (c: char)
    requires d < 10
    ensures '0' <= c <= '9' && c as int - '0' as int == d
  {
    ('0' as int + d) as char
  }

  /** `s` is a non-empty run of decimal digits. */
  predicate IsDigits(s: string)
  {
    |s| >= 1 && forall i :: 0 <= i < |s| ==> '0' <= s[i] <= '9'
  }

  /** The number a run of decimal digits denotes. */
  function DigitsValue(s: string): nat
    requires forall i :: 0 <= i < |s| ==> '0' <= s[i] <= '9'
  {
    if s == [] then 0 else DigitsValue(s[..|s| - 1]) * 10 + (s[|s| - 1] as int - '0' as int)
  }

  /**
   * The decimal rendering of an array or string index, as a property name:
   * digits only, with no leading zero except in `"0"` itself.
   */
  function IndexName(n: nat): (s: string)
    ensures IsDigits(s)
    ensures s[0] == '0' <==> n == 0
    decreases n
  {
    if n < 10 then [DigitChar(n)] else IndexName(n / 10) + [DigitChar(n % 10)]
  }

  /** Reading the index name back as a decimal number gives the index. */
  lemma {:induction false} IndexNameValue(n: nat)
    ensures DigitsValue(IndexName(n)) == n
    decreases n
  {
    var s := IndexName(n);
    if n < 10 {
      assert s[..0] == [];
    } else {
      IndexNameValue(n / 10);
      assert s[..|s| - 1] == IndexName(n / 10);
    }
  }

  /** Different indices have different names. */
  lemma IndexNameInjective(m: nat, n: nat)
    ensures IndexName(m) == IndexName(n) ==> m == n
  {
    IndexNameValue(m);
    IndexNameValue(n);
  }

  /**
   * The (key, value) pairs that `for (const k in o)` visits with `o[k]`:
   * an object's own members; an array's or a string's indices; nothing for
   * numbers, booleans and null.
   */
  function Entries(v: Value): seq<(string, Value)>
  {
    match v
    case Obj(fields) => fields
    case Arr(items) => seq(|items|, i requires 0 <= i < |items| => (IndexName(i), items[i]))
    case Str(chars) => seq(|chars|, i requires 0 <= i < |chars| => (IndexName(i), Str([chars[i]])))
    case _ => []
  }

  /**
   * The names `for...in` gives a top-level array's or string's elements are
   * runs of digits without a `.`, and no two elements share a name.
   */
  lemma EntriesIndexNames(v: Value)
    requires v.Arr? || v.Str?
    ensures forall i :: 0 <= i < |Entries(v)| ==> IsDigits(Entries(v)[i].0) && '.' !in Entries(v)[i].0
    ensures forall i, j :: 0 <= i < j < |Entries(v)| ==> Entries(v)[i].0 != Entries(v)[j].0
  {
    var e := Entries(v);
    forall i | 0 <= i < |e|
      ensures IsDigits(e[i].0) && '.' !in e[i].0
    {
      assert e[i].0 == IndexName(i);
    }
    forall i, j | 0 <= i < j < |e|
      ensures e[i].0 != e[j].0
    {
      IndexNameInjective(i, j);
    }
  }
}
