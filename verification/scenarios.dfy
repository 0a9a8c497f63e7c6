/** Whole runs of the engine: what both indexes hold and display after concrete observation
    sequences, including the repeated observations where the scan policy shows. */
module Scenarios {
  import opened Values
  import opened BoundaryValue
  import opened Chain
  import VariableIndex
  import BoundaryIndex

  /** A sequence of observations fed directly to both indexes, in which `a` is observed twice
      with the same condition and value. */
  function SampleRun(): seq<Observation>
  {
    [Observation("a", "==", Int(3)), Observation("b", "==", Text("x")), Observation("a", "==", Int(3))]
  }

  /** The variable index after the first two observations of the sample run. */
  lemma VariableIndexSamplePrefix()
    ensures VariableIndex.Run(SampleRun()[..2]) ==
      [Entry("a", [Text("=="), Int(3)]), Entry("b", [Text("=="), Text("x")])]
  {
    var o1, o2 := Observation("a", "==", Int(3)), Observation("b", "==", Text("x"));
    assert SampleRun()[..2] == [o1, o2];
    var es1 := [Entry("a", [Text("=="), Int(3)])];
    assert VariableIndex.Run([o1]) == es1 by {
      assert [o1][..0] == [];
    }
    assert [o1, o2][..1] == [o1];
    assert Find(es1, "b") == None;
  }

  /** The second observation of `a` appends its pair to the chain of `a`. */
  lemma VariableIndexSampleLast()
    ensures var es2 := [Entry("a", [Text("=="), Int(3)]), Entry("b", [Text("=="), Text("x")])];
      VariableIndex.Step(es2, Observation("a", "==", Int(3))) ==
      [Entry("a", [Text("=="), Int(3), Text("=="), Int(3)]), Entry("b", [Text("=="), Text("x")])]
  {
    var es2 := [Entry("a", [Text("=="), Int(3)]), Entry("b", [Text("=="), Text("x")])];
    assert Find(es2, "a") == Some(0);
    var es3 := es2[0 := Entry("a", es2[0].down + [Text("=="), Int(3)])];
    assert [Text("=="), Int(3)] + [Text("=="), Int(3)] == [Text("=="), Int(3), Text("=="), Int(3)];
    assert es3 == [es3[0], es3[1]];
  }

  /** The variable index records every observation of `a` as a (condition, value) pair. */
  lemma VariableIndexSample()
    ensures VariableIndex.Run(SampleRun()) ==
      [Entry("a", [Text("=="), Int(3), Text("=="), Int(3)]), Entry("b", [Text("=="), Text("x")])]
  {
    VariableIndexSamplePrefix();
    VariableIndexSampleLast();
  }

  /** The boundary index after the first two observations of the sample run. */
  lemma BoundaryIndexSamplePrefix()
    ensures BoundaryIndex.Run(SampleRun()[..2]) ==
      [Entry("a", [Int(4), Int(3)]), Entry("b", [Text("not_x"), Text("x")])]
  {
    var o1, o2 := Observation("a", "==", Int(3)), Observation("b", "==", Text("x"));
    assert SampleRun()[..2] == [o1, o2];
    var es1 := [Entry("a", [Int(4), Int(3)])];
    assert BoundaryIndex.Run([o1]) == es1 by {
      assert [o1][..0] == [];
    }
    assert [o1, o2][..1] == [o1];
    assert Find(es1, "b") == None;
    assert "not_" + "x" == "not_x";
  }

  /** The second observation of `a` is compared only with the boundary node 4 (the last
      node, 3, is never scanned), so it is not covered and a second pair 4, 3 is appended. */
  lemma BoundaryIndexSampleLast()
    ensures var es2 := [Entry("a", [Int(4), Int(3)]), Entry("b", [Text("not_x"), Text("x")])];
      BoundaryIndex.Step(es2, Observation("a", "==", Int(3))) ==
      [Entry("a", [Int(4), Int(3), Int(4), Int(3)]), Entry("b", [Text("not_x"), Text("x")])]
  {
    var es2 := [Entry("a", [Int(4), Int(3)]), Entry("b", [Text("not_x"), Text("x")])];
    assert Find(es2, "a") == Some(0);
    assert !BoundaryIndex.Covered([Int(4), Int(3)], "==", Int(3)) by {
      assert !BoundaryIndex.Matches("==", Int(4), Int(3));
    }
    var es3 := es2[0 := Entry("a", es2[0].down + [Int(4), Int(3)])];
    assert [Int(4), Int(3)] + [Int(4), Int(3)] == [Int(4), Int(3), Int(4), Int(3)];
    assert es3 == [es3[0], es3[1]];
  }

  /** The boundary index after the sample run: `a` holds 4, 3, 4, 3 and `b` holds not_x, x. */
  lemma BoundaryIndexSample()
    ensures BoundaryIndex.Run(SampleRun()) ==
      [Entry("a", [Int(4), Int(3), Int(4), Int(3)]), Entry("b", [Text("not_x"), Text("x")])]
  {
    BoundaryIndexSamplePrefix();
    BoundaryIndexSampleLast();
  }

  /** Observing (a, ==, n) three times: the second observation is not covered (only n + 1 is
      scanned) and adds a pair; the third finds n at position 1 and adds n alone. */
  lemma RepeatedIntegerEquality(n: int)
    ensures var o := Observation("a", "==", Int(n));
      ChainOf(BoundaryIndex.Run([o, o, o]), "a") == [Int(n + 1), Int(n), Int(n + 1), Int(n), Int(n)]
  {
    var o := Observation("a", "==", Int(n));
    var log := [o, o, o];
    assert log[..1] == [o] && log[..2] == [o, o] && [o][..0] == [] && [o, o][..1] == [o];
    var c1 := [Int(n + 1), Int(n)];
    assert BoundaryIndex.Run([o]) == [Entry("a", c1)];
    assert !BoundaryIndex.Covered(c1, "==", Int(n)) by {
      assert !BoundaryIndex.Matches("==", Int(n + 1), Int(n));
    }
    var c2 := c1 + [Int(n + 1), Int(n)];
    assert BoundaryIndex.Run([o, o]) == [Entry("a", c2)] by {
      assert BoundaryIndex.Run([o, o]) == BoundaryIndex.Step([Entry("a", c1)], o);
    }
    assert BoundaryIndex.Covered(c2, "==", Int(n)) by {
      assert BoundaryIndex.Matches("==", c2[1], Int(n));
    }
  }

  /** Observing (b, ==, s) twice for a non-numeric s: the scanned node "not_s" matches, so the
      chain not_s, s becomes not_s, s, s. */
  lemma RepeatedTextEquality(s: string)
    ensures var o := Observation("b", "==", Text(s));
      ChainOf(BoundaryIndex.Run([o, o]), "b") == [Text("not_" + s), Text(s), Text(s)]
  {
    var o := Observation("b", "==", Text(s));
    assert [o, o][..1] == [o] && [o][..0] == [];
    var c1 := [Text("not_" + s), Text(s)];
    assert BoundaryIndex.Run([o]) == [Entry("b", c1)];
    assert BoundaryIndex.Covered(c1, "==", Text(s)) by {
      assert BoundaryIndex.Matches("==", c1[0], Text(s));
    }
  }

  lemma PrefixSnoc(data: seq<Observation>, k: nat)
    requires k < |data|
    ensures data[..k + 1] == data[..k] + [data[k]]
  {
  }

  /** A generation run: every observation is fed to both indexes in order, then both traces
      are built. */
  method GenerationRun(data: seq<Observation>) returns (variables: string, testCases: string)
    ensures variables == Render(VariableIndex.Run(data))
    ensures testCases == Render(BoundaryIndex.Run(data))
  {
    var linkedList := new VariableIndex.LinkedList();
    var testCaseLinkedList := new BoundaryIndex.TestCaseLinkedList();
    for k := 0 to |data|
      invariant linkedList.Valid() && linkedList.log == data[..k]
      invariant testCaseLinkedList.Valid() && testCaseLinkedList.log == data[..k]
    {
      PrefixSnoc(data, k);
      linkedList.ProcessDataEntry(data[k]);
      testCaseLinkedList.GenerateTestCasesForDataEntry(data[k]);
    }
    assert data[..|data|] == data;
    variables := linkedList.Display();
    testCases := testCaseLinkedList.Display();
  }

  /** The trace of a two-entry index. */
  lemma RenderTwo(e1: Entry, e2: Entry)
    ensures Render([e1, e2]) == RenderEntry(e1) + RenderEntry(e2) + "null"
  {
    assert RenderEntries([e1]) == RenderEntry(e1) by {
      RenderEntriesSnoc([], e1);
      assert [] + [e1] == [e1];
    }
    assert RenderEntries([e1, e2]) == RenderEntries([e1]) + RenderEntry(e2) by {
      RenderEntriesSnoc([e1], e2);
      assert [e1] + [e2] == [e1, e2];
    }
  }

  /** The trace of a two-node chain. */
  lemma RenderChainTwo(v1: Val, v2: Val)
    ensures RenderChain([v1, v2]) == RenderValue(v1) + " -> " + RenderValue(v2) + " -> "
  {
    assert [v1][..0] == [];
    assert RenderChain([v1]) == RenderValue(v1) + " -> ";
    assert [v1, v2][..1] == [v1];
  }

  /** The trace of a four-node chain. */
  lemma RenderChainFour(v1: Val, v2: Val, v3: Val, v4: Val)
    ensures RenderChain([v1, v2, v3, v4]) ==
      RenderChain([v1, v2]) + RenderValue(v3) + " -> " + RenderValue(v4) + " -> "
  {
    assert [v1, v2, v3, v4][..3] == [v1, v2, v3] && [v1, v2, v3][..2] == [v1, v2];
  }

  lemma RenderDigits()
    ensures RenderValue(Int(3)) == "3" && RenderValue(Int(4)) == "4"
  {
    assert DigitChar(3) == '3' && DigitChar(4) == '4';
  }

  // The string joins the sample lines need, each on its own. They are kept as separate
  // lemmas so that each literal join is proved in an empty context: inside the trace lemmas,
  // among the facts about the runs, the same joins cost the solver far more.
  lemma JoinChains()
    ensures "==" + " -> " + "3" + " -> " == "== -> 3 -> "
    ensures "4" + " -> " + "3" + " -> " == "4 -> 3 -> "
    ensures "==" + " -> " + "x" + " -> " == "== -> x -> "
    ensures "not_x" + " -> " + "x" + " -> " == "not_x -> x -> "
  {
  }

  lemma JoinVariableChainA()
    ensures "== -> 3 -> " + "==" + " -> " + "3" + " -> " == "== -> 3 -> == -> 3 -> "
  {
  }

  lemma JoinBoundaryChainA()
    ensures "4 -> 3 -> " + "4" + " -> " + "3" + " -> " == "4 -> 3 -> 4 -> 3 -> "
  {
  }

  lemma JoinVariableLineA()
    ensures "a" + " -> " + "== -> 3 -> == -> 3 -> " + "null\n|\n" == "a -> == -> 3 -> == -> 3 -> null\n|\n"
  {
  }

  lemma JoinBoundaryLineA()
    ensures "a" + " -> " + "4 -> 3 -> 4 -> 3 -> " + "null\n|\n" == "a -> 4 -> 3 -> 4 -> 3 -> null\n|\n"
  {
  }

  lemma JoinLinesB()
    ensures "b" + " -> " + "== -> x -> " + "null\n|\n" == "b -> == -> x -> null\n|\n"
    ensures "b" + " -> " + "not_x -> x -> " + "null\n|\n" == "b -> not_x -> x -> null\n|\n"
  {
  }

  lemma VariableChainA()
    ensures RenderChain([Text("=="), Int(3), Text("=="), Int(3)]) == "== -> 3 -> == -> 3 -> "
  {
    RenderDigits();
    RenderChainTwo(Text("=="), Int(3));
    RenderChainFour(Text("=="), Int(3), Text("=="), Int(3));
    JoinChains();
    JoinVariableChainA();
  }

  lemma VariableLineA()
    ensures RenderEntry(Entry("a", [Text("=="), Int(3), Text("=="), Int(3)])) ==
      "a -> == -> 3 -> == -> 3 -> null\n|\n"
  {
    VariableChainA();
    JoinVariableLineA();
  }

  lemma VariableLineB()
    ensures RenderEntry(Entry("b", [Text("=="), Text("x")])) == "b -> == -> x -> null\n|\n"
  {
    RenderChainTwo(Text("=="), Text("x"));
    JoinChains();
    JoinLinesB();
  }

  lemma BoundaryChainA()
    ensures RenderChain([Int(4), Int(3), Int(4), Int(3)]) == "4 -> 3 -> 4 -> 3 -> "
  {
    RenderDigits();
    RenderChainTwo(Int(4), Int(3));
    RenderChainFour(Int(4), Int(3), Int(4), Int(3));
    JoinChains();
    JoinBoundaryChainA();
  }

  lemma BoundaryLineA()
    ensures RenderEntry(Entry("a", [Int(4), Int(3), Int(4), Int(3)])) ==
      "a -> 4 -> 3 -> 4 -> 3 -> null\n|\n"
  {
    BoundaryChainA();
    JoinBoundaryLineA();
  }

  lemma BoundaryLineB()
    ensures RenderEntry(Entry("b", [Text("not_x"), Text("x")])) == "b -> not_x -> x -> null\n|\n"
  {
    RenderChainTwo(Text("not_x"), Text("x"));
    JoinChains();
    JoinLinesB();
  }

  /** The variable-index trace of the sample run. */
  lemma VariableTraceSample()
    ensures Render(VariableIndex.Run(SampleRun())) ==
      "a -> == -> 3 -> == -> 3 -> null\n|\n" + "b -> == -> x -> null\n|\n" + "null"
  {
    VariableIndexSample();
    RenderTwo(Entry("a", [Text("=="), Int(3), Text("=="), Int(3)]), Entry("b", [Text("=="), Text("x")]));
    VariableLineA();
    VariableLineB();
  }

  /** The boundary-index trace of the sample run. */
  lemma BoundaryTraceSample()
    ensures Render(BoundaryIndex.Run(SampleRun())) ==
      "a -> 4 -> 3 -> 4 -> 3 -> null\n|\n" + "b -> not_x -> x -> null\n|\n" + "null"
  {
    BoundaryIndexSample();
    RenderTwo(Entry("a", [Int(4), Int(3), Int(4), Int(3)]), Entry("b", [Text("not_x"), Text("x")]));
    BoundaryLineA();
    BoundaryLineB();
  }

  /** The traces of the sample run, as the display of each index shows them. */
  method SampleTraces() returns (variables: string, testCases: string)
    ensures variables == "a -> == -> 3 -> == -> 3 -> null\n|\n" + "b -> == -> x -> null\n|\n" + "null"
    ensures testCases == "a -> 4 -> 3 -> 4 -> 3 -> null\n|\n" + "b -> not_x -> x -> null\n|\n" + "null"
  {
    variables, testCases := GenerationRun(SampleRun());
    VariableTraceSample();
    BoundaryTraceSample();
  }
}
