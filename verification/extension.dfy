/**
 * The `find-missing-keys.findMissingKeys` command: it flattens the reference
 * and comparison translation files, keeps the reference paths the comparison
 * lacks in the extension's `missingKeys` state, and computes the ranges to
 * highlight in the active editor's text.
 */
module FindMissingKeys {
  import opened Optional
  import opened JsonValue
  import opened TextSearch
  import opened KeyFlattener
  import opened KeyDiffer
  import opened PositionLocator

  /** The state `activate` keeps across command runs: the list `updateDecorations` reads. */
  class Extension {
    var missingKeys: seq<string>

    /** `let missingKeys: string[] = []` at activation. */
    constructor ()
      ensures missingKeys == []
    {
      missingKeys := [];
    }

    /**
     * One run of the command on the parsed reference (`en`) and comparison
     * (`tr`) documents. `missingKeys` is rebuilt from scratch, so it depends
     * only on the two documents and never on an earlier run.
     */
    method RunCommand(refDoc: Value, compDoc: Value, activeText: string) returns (ranges: seq<Span>)
      modifies this
      ensures missingKeys == Missing(KeysOf(refDoc), KeysOf(compDoc))
      ensures ranges == Ranges(activeText, missingKeys)
    {
      var refKeys := GetKeys(refDoc);
      var compKeys := GetKeys(compDoc);
      missingKeys := DiffKeys(refKeys, compKeys);
      ranges := UpdateDecorations(activeText);
    }

    /** `updateDecorations`: the ranges for the current `missingKeys` in the active editor's text. */
    method UpdateDecorations(text: string) returns (ranges: seq<Span>)
      ensures ranges == Ranges(text, missingKeys)
      ensures |ranges| <= |missingKeys|
    {
      ranges := BuildRanges(text, missingKeys);
    }
  }

  /** The reference file of the known defect: two objects `a` and `b` that both hold a key `c`. */
  function ReferenceDoc(): Value
  {
    Obj([("a", Obj([("c", Scalar)])), ("b", Obj([("c", Scalar)]))])
  }

  /** The comparison file, in which `b.c` is absent. */
  function ComparisonDoc(): Value
  {
    Obj([("a", Obj([("c", Scalar)])), ("b", Obj([]))])
  }

  /** The reference file's text: `"c"` under `a` starts at offset 6, `"c"` under `b` at offset 18. */
  const ReferenceText: string := "{\"a\":{\"c\":1},\"b\":{\"c\":2}}"

  /** A one-member object whose value is a leaf flattens to that member's path alone. */
  lemma FlattenSingleLeaf(k: string, parent: string)
    ensures Flatten([(k, Scalar)], parent) == [Join(parent, k)]
  {
    assert Walked([(k, Scalar)], 0, parent) == [];
  }

  lemma ReferenceKeys()
    ensures KeysOf(ReferenceDoc()) == ["a", "a.c", "b", "b.c"]
  {
    var fields := ReferenceDoc().fields;
    FlattenSingleLeaf("c", "a");
    FlattenSingleLeaf("c", "b");
    assert Join("a", "c") == "a.c" && Join("b", "c") == "b.c";
    assert Walked(fields, 0, "") == [];
    assert Walked(fields, 1, "") == ["a", "a.c"];
  }

  lemma ComparisonKeys()
    ensures KeysOf(ComparisonDoc()) == ["a", "a.c", "b"]
  {
    var fields := ComparisonDoc().fields;
    FlattenSingleLeaf("c", "a");
    assert Join("a", "c") == "a.c";
    assert Flatten([], "b") == [];
    assert Walked(fields, 0, "") == [];
    assert Walked(fields, 1, "") == ["a", "a.c"];
  }

  /** Diffing the two flattened key lists: only the last reference key is absent from the comparison. */
  lemma MissingOnlyLast(refKeys: seq<string>, compKeys: seq<string>)
    requires refKeys == ["a", "a.c", "b", "b.c"] && compKeys == ["a", "a.c", "b"]
    ensures Missing(refKeys, compKeys) == ["b.c"]
  {
    assert refKeys[..3] == compKeys;
    MissingOfSelf(compKeys);
    assert Kept("b.c", compKeys);
  }

  /** Flattening both files and diffing them leaves exactly `b.c` missing. */
  lemma ScenarioMissingKeys()
    ensures Missing(KeysOf(ReferenceDoc()), KeysOf(ComparisonDoc())) == ["b.c"]
  {
    ReferenceKeys();
    ComparisonKeys();
    MissingOnlyLast(KeysOf(ReferenceDoc()), KeysOf(ComparisonDoc()));
  }

  /** The first `"c"` of the reference text is the one inside `a`, at offset 6. */
  lemma FirstQuotedC()
    ensures IndexOf(ReferenceText, Quote("c")) == Some(6)
  {
    var text := ReferenceText;
    var token := Quote("c");
    assert text[6..9] == token;
    assert OccursAt(text, token, 6);
    var prefix := text[..7];
    assert prefix == "{\"a\":{\"";
    assert 'c' !in prefix;
    forall j | 0 <= j < 6
      ensures !OccursAt(text, token, j)
    {
      assert text[j..j + 3][1] == prefix[j + 1];
    }
  }

  lemma LastSegmentBC()
    ensures LastSegment("b.c") == "c"
  {
    assert JoinDot(["b", "c"]) == "b.c";
    LastSegmentOfPath(["b"], "c");
  }

  /** The span for `b.c` in the reference text is the first `"c"`, the one inside `a`. */
  lemma ScenarioRange()
    ensures Ranges(ReferenceText, ["b.c"]) == [Span(6, 9)]
    ensures ReferenceText[18..21] == Quote("c")
  {
    LastSegmentBC();
    FirstQuotedC();
    var found := Locate(ReferenceText, "b.c");
    assert found == Some(Span(6, 9));
    RangesSnoc(ReferenceText, [], "b.c");
    assert [] + ["b.c"] == ["b.c"];
  }

  /**
   * The defect the source documents as a TODO: the missing key is `b.c`,
   * but the highlight lands on the `"c"` inside `a` (offsets 6 to 9) and
   * not on the `"c"` inside `b` (offsets 18 to 21).
   */
  lemma MarksFirstParent()
    ensures Missing(KeysOf(ReferenceDoc()), KeysOf(ComparisonDoc())) == ["b.c"]
    ensures Ranges(ReferenceText, Missing(KeysOf(ReferenceDoc()), KeysOf(ComparisonDoc()))) == [Span(6, 9)]
    ensures ReferenceText[18..21] == Quote("c")
  {
    ScenarioMissingKeys();
    ScenarioRange();
  }
}
