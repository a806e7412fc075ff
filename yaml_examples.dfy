/**
 * Worked documents for the navigation functions, with the trees the `yaml`
 * library builds for them written out by hand.
 */
module YamlExamples {
  import opened Wrappers
  import opened LineCounter
  import opened YamlAst

  function Key(name: string, start: nat): Node {
    Scalar(Str(name), Some(Range(start, start + |name|)))
  }

  /**
   * `a:\n  b:\n    c: 1\n`: lines start at 0, 3, 8 and 17; the keys sit at
   * offsets 0, 5 and 12, and the number 1 at offset 15.
   */
  function PairC(): Pair {
    Pair(Key("c", 12), Some(Scalar(NonStr("1"), Some(Range(15, 16)))))
  }

  function PairB(): Pair {
    Pair(Key("b", 5), Some(Map([PairC()])))
  }

  function PairA(): Pair {
    Pair(Key("a", 0), Some(Map([PairB()])))
  }

  function Nested(): Document {
    Document(Some(Map([PairA()])))
  }

  function NestedLines(): LineStarts {
    assert IsLineTable([0, 3, 8, 17]);
    [0, 3, 8, 17]
  }

  /** `a.b.c` is found on line 2, column 4. */
  lemma FullPathFound()
    ensures KeyPathLocation(Nested(), NestedLines(), ["a", "b", "c"]) == Some(KeyLocation(2, 4, Key("c", 12)))
  {
    assert Descend(Nested().contents, ["a", "b", "c"], None).matched == [PairA(), PairB(), PairC()];
    assert LineIndex(NestedLines(), 12) == 2;
  }

  /** The end lines of `c: 1`: its key and its value, both on line 2. */
  lemma PairCEndLines()
    ensures PairEndLines(PairC(), NestedLines()) == [2, 2]
  {
    var lc := NestedLines();
    assert LineIndex(lc, 13) == 2 && LineIndex(lc, 16) == 2;
  }

  /** The walk for `a.b.d` matches `a` and `b` and stops in the mapping under `b`. */
  lemma NestedDescent()
    ensures var d := Descend(Nested().contents, ["a", "b", "d"], None);
      |d.matched| == 2 && d.lastMap == Some([PairC()])
  {
  }

  /** `a.b.d`: two segments exist; `d` goes after the subtree of `c`, with `c` as the indentation sibling. */
  lemma PartialPathAnchors()
    ensures var r := PartialKeyPath(Nested(), NestedLines(), ["a", "b", "d"]);
      && r.existingDepth == 2
      && r.remainingSegments == ["d"]
      && r.insertLocation == Some(KeyLocation(2, 0, Key("c", 12)))
      && r.siblingKeyLocation == Some(KeyLocation(2, 4, Key("c", 12)))
  {
    NestedDescent();
    PairCEndLines();
    GreatestOfTwo();
    assert LineIndex(NestedLines(), 12) == 2;
    assert LastItemAnchors([PairC()], NestedLines()) ==
      (Some(KeyLocation(2, 0, Key("c", 12))), Some(KeyLocation(2, 4, Key("c", 12))));
  }

  /** The cursor on `c` (line 2, character 4) names `a.b.c`; on the value `1`, no key is under it. */
  lemma PositionOnKeyAndValue()
    ensures KeyPathAt(Nested(), NestedLines(), Position(2, 4)) == Some(["a", "b", "c"])
    ensures IsPositionOnKey(Nested(), NestedLines(), Position(2, 4))
    ensures KeyPathAt(Nested(), NestedLines(), Position(2, 7)) == None
    ensures !IsPositionOnKey(Nested(), NestedLines(), Position(2, 7))
  {
    var on, off := Some(12), Some(15);
    assert ["a", "b"] + ["c"] == ["a", "b", "c"] && [] + ["a"] == ["a"] && ["a"] + ["b"] == ["a", "b"];
    assert Covers(Range(12, 13), on) && !Covers(Range(0, 1), on) && !Covers(Range(5, 6), on);
    assert VisitItems([PairC()], on, ["a", "b"]) == Some(["a", "b", "c"]);
    assert VisitItems([PairB()], on, ["a"]) == Some(["a", "b", "c"]);
    assert VisitItems([PairA()], on, []) == Some(["a", "b", "c"]);
    assert VisitItems([PairC()], off, ["a", "b"]) == None;
    assert VisitItems([PairB()], off, ["a"]) == None;
    assert VisitItems([PairA()], off, []) == None;
    assert CheckItems([PairC()], on) && CheckItems([PairB()], on) && CheckItems([PairA()], on);
    assert !CheckItems([PairC()], off);
    assert !CheckItems([PairB()], off);
    assert !CheckItems([PairA()], off);
  }

  /**
   * `a:\n  b:\n    c:\n      d: 1\n`: the insertion point for `a.b.x` is
   * below the whole subtree of `c` (line 3), while the sibling stays `c` (line 2).
   */
  function DeepPairC(): Pair {
    Pair(Key("c", 12), Some(Map([Pair(Key("d", 21), Some(Scalar(NonStr("1"), Some(Range(24, 25)))))])))
  }

  function Deeper(): Document {
    Document(Some(Map([Pair(Key("a", 0), Some(Map([Pair(Key("b", 5), Some(Map([DeepPairC()])))])))])))
  }

  function DeeperLines(): LineStarts {
    assert IsLineTable([0, 3, 8, 15, 26]);
    [0, 3, 8, 15, 26]
  }

  lemma DeeperEndLines()
    ensures PairEndLines(DeepPairC(), DeeperLines()) == [2, 3, 3]
  {
    var lc := DeeperLines();
    assert LineIndex(lc, 13) == 2 && LineIndex(lc, 22) == 3 && LineIndex(lc, 25) == 3;
    var dPair := DeepPairC().value.value.items[0];
    assert ItemsEndLines([dPair], lc) == PairEndLines(dPair, lc) == [3, 3];
  }

  lemma DeeperDescent()
    ensures var d := Descend(Deeper().contents, ["a", "b", "x"], None);
      |d.matched| == 2 && d.lastMap == Some([DeepPairC()])
  {
  }

  lemma GreatestOfTwo()
    ensures Greatest([2, 2]) == Some(2)
  {
    assert [2, 2][1..] == [2];
  }

  lemma GreatestOfThree()
    ensures Greatest([2, 3, 3]) == Some(3)
  {
    assert [2, 3, 3][1..] == [3, 3] && [3, 3][1..] == [3];
  }

  lemma InsertBelowSubtree()
    ensures var r := PartialKeyPath(Deeper(), DeeperLines(), ["a", "b", "x"]);
      && r.existingDepth == 2
      && r.insertLocation == Some(KeyLocation(3, 0, Key("c", 12)))
      && r.siblingKeyLocation == Some(KeyLocation(2, 4, Key("c", 12)))
  {
    DeeperDescent();
    DeeperEndLines();
    GreatestOfThree();
    assert LineIndex(DeeperLines(), 12) == 2;
    assert LastItemAnchors([DeepPairC()], DeeperLines()) ==
      (Some(KeyLocation(3, 0, Key("c", 12))), Some(KeyLocation(2, 4, Key("c", 12))));
  }

  /** `a: {}`: the empty mapping has no last item, so `a.b` gets no insertion point. */
  lemma EmptyMappingNoAnchor()
    ensures var r := PartialKeyPath(Document(Some(Map([Pair(Key("a", 0), Some(Map([])))]))), [0], ["a", "b"]);
      && r.existingDepth == 1 && r.remainingSegments == ["b"]
      && r.insertLocation == None && r.siblingKeyLocation == None
  {
  }

  /**
   * `x: 1\n`: a path whose first segment is missing still gets an anchor, the
   * last top-level item.
   */
  lemma TopLevelAnchor()
    ensures var r := PartialKeyPath(Document(Some(Map([Pair(Key("x", 0), Some(Scalar(NonStr("1"), Some(Range(3, 4)))))]))),
                                    [0, 5], ["y"]);
      && r.existingDepth == 0 && r.remainingSegments == ["y"]
      && r.insertLocation == Some(KeyLocation(0, 0, Key("x", 0)))
      && r.siblingKeyLocation == Some(KeyLocation(0, 0, Key("x", 0)))
  {
    assert Greatest([0, 0]) == Some(0);
  }

  /** `1: a\n`: the key is the number 1, at offset 0, with the string `a` as its value. */
  function NumericKeyPair(): Pair {
    Pair(Scalar(NonStr("1"), Some(Range(0, 1))), Some(Key("a", 3)))
  }

  /**
   * The cursor on the numeric key names the path `1`, built from its
   * `String(...)` rendering, yet looking that path up finds nothing: only a
   * string key can equal a segment, so a path copied through a numeric key is
   * never navigated to by paste.
   */
  lemma NumericKeyNotFound()
    ensures KeyPathAt(Document(Some(Map([NumericKeyPair()]))), [0, 5], Position(0, 0)) == Some(["1"])
    ensures KeyPathLocation(Document(Some(Map([NumericKeyPair()]))), [0, 5], ["1"]) == None
  {
    assert [] + ["1"] == ["1"];
    assert VisitItems([NumericKeyPair()], Some(0), []) == Some(["1"]);
    assert !KeyMatches(NumericKeyPair(), "1");
  }
}
