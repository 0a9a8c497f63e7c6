/** The boundary-case index (`TestCaseLinkedList`): one entry per variable in first-seen order,
    whose `down` chain starts as [boundary value, observed value] and grows by a fresh pair for
    an observation nothing in the chain covers, or by the observed value alone otherwise. */
module BoundaryIndex {
  import opened Values
  import opened BoundaryValue
  import opened Chain

  /** Whether a scanned node `stored` satisfies the incoming (condition, value). For a
      non-numeric value under `==` or `!=` the node is first compared with "not_<value>";
      then, in any case, `stored condition value` is evaluated. */
  predicate Matches(condition: string, stored: Val, value: Val)
    // the "not_" tests apply to non-numeric values only
    ensures value.Int? ==> (Matches(condition, stored, value) <==> Compare(condition, stored, value))
    // under `==` a text is matched by its own out-of-domain probe or by itself
    ensures value.Text? && condition == "==" ==>
      (Matches(condition, stored, value) <==> stored == Text("not_" + value.s) || stored == value)
    // under `!=` every node matches a text: none equals both "not_<value>" and "<value>"
    ensures value.Text? && condition == "!=" ==> Matches(condition, stored, value)
    // under the order comparisons only `stored condition value` decides
    ensures condition != "==" && condition != "!=" ==>
      (Matches(condition, stored, value) <==> Compare(condition, stored, value))
    ensures !IsCondition(condition) ==> !Matches(condition, stored, value)
  {
    assert value.Text? ==> |"not_" + value.s| != |value.s|;
    (value.Text? && condition == "==" && stored == Text("not_" + value.s)) ||
    (value.Text? && condition == "!=" && stored != Text("not_" + value.s)) ||
    Compare(condition, stored, value)
  }

  /** Whether some node of the chain other than the last one satisfies (condition, value):
      the scan never looks at the last node. */
  predicate Covered(chain: seq<Val>, condition: string, value: Val)
    ensures Covered(chain, condition, value) ==> |chain| >= 2
    ensures |chain| >= 2 && Matches(condition, chain[0], value) ==> Covered(chain, condition, value)
  {
    exists j | 0 <= j < |chain| - 1 :: Matches(condition, chain[j], value)
  }

  /** The last node never decides coverage: whatever it holds, the scan gives the same answer. */
  lemma CoveredIgnoresLast(chain: seq<Val>, last: Val, last': Val, condition: string, value: Val)
    ensures Covered(chain + [last], condition, value) <==> Covered(chain + [last'], condition, value)
  {
    forall j | 0 <= j < |chain|
      ensures (chain + [last])[j] == chain[j] == (chain + [last'])[j]
    {
    }
  }

  /** The scan of addTestForVariable: it walks the chain while the current node has a
      successor and stops at the first node that matches. `at` is where it stops. */
  method Scan(chain: seq<Val>, condition: string, value: Val) returns (found: bool, at: nat)
    requires chain != []
    ensures at < |chain|
    ensures found <==> Covered(chain, condition, value)
    ensures found ==> at < |chain| - 1 && Matches(condition, chain[at], value)
    ensures forall j | 0 <= j < at :: !Matches(condition, chain[j], value)
    ensures !found ==> at == |chain| - 1
  {
    found, at := false, 0;
    while at + 1 < |chain|
      invariant at < |chain|
      invariant forall j | 0 <= j < at :: !Matches(condition, chain[j], value)
    {
      if Matches(condition, chain[at], value) {
        found := true;
        break;
      }
      at := at + 1;
    }
  }

  /** The chain after addTestForVariable: what was there stays, and the observed value becomes
      the last node, preceded by a fresh boundary value exactly when nothing covered it. */
  function Extend(chain: seq<Val>, condition: string, value: Val): (r: seq<Val>)
    ensures |r| == |chain| + (if Covered(chain, condition, value) then 1 else 2)
    ensures r[..|chain|] == chain
    ensures r[|r| - 1] == value
    ensures !Covered(chain, condition, value) ==> r[|chain|] == GenerateTestCaseValue(condition, value)
  {
    if Covered(chain, condition, value) then chain + [value]
    else chain + [GenerateTestCaseValue(condition, value), value]
  }

  /** The chain insertTestCase gives a new entry: the boundary value, then the observed one. */
  function FirstPair(o: Observation): seq<Val>
  {
    [GenerateTestCaseValue(o.condition, o.value), o.value]
  }

  /** generateTestCasesForDataEntry on the entries: a variable seen for the first time gets a
      new entry at the tail of the `next` list; otherwise its chain is extended; every other
      entry is left as it was. */
  function Step(es: seq<Entry>, o: Observation): (r: seq<Entry>)
    ensures Names(r) == AddIfAbsent(Names(es), o.variable)
    ensures forall x | x != o.variable :: ChainOf(r, x) == ChainOf(es, x)
    ensures o.variable !in Names(es) ==>
      ChainOf(r, o.variable) == FirstPair(o) && |r| == |es| + 1 && r[..|es|] == es && r[|es|].down == FirstPair(o)
    ensures o.variable in Names(es) ==>
      ChainOf(r, o.variable) == Extend(ChainOf(es, o.variable), o.condition, o.value) && |r| == |es|
    ensures |es| <= |r| && forall i | 0 <= i < |es| :: r[i].name == es[i].name && es[i].down <= r[i].down
  {
    match Find(es, o.variable)
    case None =>
      var r := es + [Entry(o.variable, FirstPair(o))];
      assert Names(r) == Names(es) + [o.variable];
      forall x ensures Find(r, x) == (if x == o.variable then Some(|es|) else Find(es, x)) {
        FindAppend(es, Entry(o.variable, FirstPair(o)), x);
      }
      assert r[..|es|] == es;
      r
    case Some(i) =>
      var down := Extend(es[i].down, o.condition, o.value);
      var r := es[i := Entry(es[i].name, down)];
      assert Names(es)[i] == o.variable;
      assert Names(r) == Names(es);
      forall x ensures Find(r, x) == Find(es, x) {
        FindUpdate(es, i, down, x);
      }
      assert es[i].down <= down;
      r
  }

  /** The entries after processing `log` in order, starting from the empty index. */
  function Run(log: seq<Observation>): seq<Entry>
  {
    if log == [] then [] else Step(Run(log[..|log| - 1]), log[|log| - 1])
  }

  /** Variables are listed once each, in the order they were first observed. */
  lemma {:induction false} RunNames(log: seq<Observation>)
    ensures Names(Run(log)) == Distinct(Vars(log))
    ensures NoDup(Names(Run(log)))
  {
    if log != [] {
      var init := log[..|log| - 1];
      RunNames(init);
      assert Vars(log)[..|log| - 1] == Vars(init);
    }
  }

  /** Every chain holds at least the pair it was created with. */
  lemma {:induction false} RunChainsNonEmpty(log: seq<Observation>)
    ensures forall i | 0 <= i < |Run(log)| :: |Run(log)[i].down| >= 2
  {
    if log != [] {
      RunChainsNonEmpty(log[..|log| - 1]);
    }
  }

  /** A variable has observations exactly when it is among the observed variables. */
  lemma {:induction false} FilterEmpty(log: seq<Observation>, x: string)
    ensures Filter(log, x) == [] <==> x !in Vars(log)
  {
    if log != [] {
      var init := log[..|log| - 1];
      FilterEmpty(init, x);
      assert Vars(log) == Vars(init) + [log[|log| - 1].variable];
    }
  }

  /** A variable has an entry exactly when it has been observed. */
  lemma InIndexIffObserved(log: seq<Observation>, x: string)
    ensures x in Names(Run(log)) <==> Filter(log, x) != []
  {
    RunNames(log);
    FilterEmpty(log, x);
  }

  /** A variable that was never observed has no chain. */
  lemma RunChainUnobserved(log: seq<Observation>, x: string)
    requires Filter(log, x) == []
    ensures ChainOf(Run(log), x) == []
  {
    InIndexIffObserved(log, x);
  }

  /** A variable observed k > 0 times has a chain of between k + 1 and 2k nodes: one or two
      per observation, two for the first. */
  lemma {:induction false} RunChainLength(log: seq<Observation>, x: string)
    requires Filter(log, x) != []
    ensures |Filter(log, x)| + 1 <= |ChainOf(Run(log), x)| <= 2 * |Filter(log, x)|
  {
    var init, o := log[..|log| - 1], log[|log| - 1];
    InIndexIffObserved(init, x);
    if o.variable == x {
      assert Filter(log, x) == Filter(init, x) + [o];
      if Filter(init, x) != [] {
        RunChainLength(init, x);
      }
    } else {
      RunChainLength(init, x);
    }
  }

  /** A variable's chain starts with the pair of its first observation. */
  lemma {:induction false} RunChainFirst(log: seq<Observation>, x: string)
    requires Filter(log, x) != []
    ensures |ChainOf(Run(log), x)| >= 2
    ensures ChainOf(Run(log), x)[..2] == FirstPair(Filter(log, x)[0])
  {
    var init, o := log[..|log| - 1], log[|log| - 1];
    var es := Run(init);
    assert Run(log) == Step(es, o);
    if Filter(init, x) != [] {
      RunChainFirst(init, x);
      assert Filter(log, x)[0] == Filter(init, x)[0] by {
        if o.variable == x {
          assert Filter(log, x) == Filter(init, x) + [o];
        }
      }
      StepAppendOnly(es, o);
      var chain, chain' := ChainOf(Step(es, o), x), ChainOf(es, x);
      assert chain' <= chain;
      assert chain[..2] == chain'[..2];
    } else {
      InIndexIffObserved(init, x);
      assert o.variable == x;
      assert Filter(log, x) == [o];
    }
  }

  /** A variable's chain ends with the value of its last observation. */
  lemma {:induction false} RunChainLast(log: seq<Observation>, x: string)
    requires Filter(log, x) != []
    ensures ChainOf(Run(log), x) != []
    ensures ChainOf(Run(log), x)[|ChainOf(Run(log), x)| - 1] == Filter(log, x)[|Filter(log, x)| - 1].value
  {
    var init, o := log[..|log| - 1], log[|log| - 1];
    var es := Run(init);
    assert Run(log) == Step(es, o);
    if o.variable == x {
      assert Filter(log, x) == Filter(init, x) + [o];
      var chain := ChainOf(Step(es, o), x);
      if x in Names(es) {
        assert chain == Extend(ChainOf(es, x), o.condition, o.value);
      } else {
        assert chain == FirstPair(o);
      }
      assert chain[|chain| - 1] == o.value;
    } else {
      assert Filter(log, x) == Filter(init, x);
      RunChainLast(init, x);
    }
  }

  /** Processing one more observation is one more step. */
  lemma RunSnoc(log: seq<Observation>, o: Observation)
    ensures Run(log + [o]) == Step(Run(log), o)
  {
    assert (log + [o])[..|log|] == log;
  }

  lemma SplitLast<T>(a: seq<T>, b: seq<T>)
    requires b != []
    ensures a + b == (a + b[..|b| - 1]) + [b[|b| - 1]]
  {
  }

  lemma PrefixTrans<T>(a: seq<T>, b: seq<T>, c: seq<T>)
    requires a <= b && b <= c
    ensures a <= c
  {
    assert c[..|b|][..|a|] == c[..|a|];
  }

  /** One step removes no entry and shortens or rewrites no chain. */
  lemma StepAppendOnly(es: seq<Entry>, o: Observation)
    ensures Names(es) <= Names(Step(es, o))
    ensures forall x :: ChainOf(es, x) <= ChainOf(Step(es, o), x)
  {
    forall x ensures ChainOf(es, x) <= ChainOf(Step(es, o), x) {
      if x == o.variable && x in Names(es) {
        assert ChainOf(Step(es, o), x) == Extend(ChainOf(es, x), o.condition, o.value);
      } else if x == o.variable {
        forall j | 0 <= j < |es| ensures es[j].name != x {
          assert Names(es)[j] == es[j].name;
        }
      }
    }
  }

  /** No entry is ever removed and no chain is ever shortened or rewritten: processing more
      observations only appends. */
  lemma {:induction false} RunAppendOnly(log: seq<Observation>, more: seq<Observation>)
    ensures Names(Run(log)) <= Names(Run(log + more))
    ensures forall x :: ChainOf(Run(log), x) <= ChainOf(Run(log + more), x)
    decreases |more|
  {
    if more == [] {
      assert log + more == log;
    } else {
      var init := more[..|more| - 1];
      RunAppendOnly(log, init);
      var prev, es, o := Run(log), Run(log + init), more[|more| - 1];
      SplitLast(log, more);
      RunSnoc(log + init, o);
      StepAppendOnly(es, o);
      PrefixTrans(Names(prev), Names(es), Names(Step(es, o)));
      forall x ensures ChainOf(prev, x) <= ChainOf(Step(es, o), x) {
        PrefixTrans(ChainOf(prev, x), ChainOf(es, x), ChainOf(Step(es, o), x));
      }
    }
  }

  /** Under `!=`, a non-numeric value is covered by any chain the index holds: a node cannot
      equal both "not_<value>" and "<value>", so the first node scanned already matches. */
  lemma TextInequalityAlwaysCovered(chain: seq<Val>, s: string)
    requires |chain| >= 2
    ensures Covered(chain, "!=", Text(s))
  {
    assert Matches("!=", chain[0], Text(s));
  }

  /** The boundary-case index. `entries` is the `next` list from `head`; `log` is the sequence
      of observations processed so far. */
  class TestCaseLinkedList {
    var entries: seq<Entry>
    ghost var log: seq<Observation>

    ghost predicate Valid()
      reads this
    {
      entries == Run(log)
    }

    constructor ()
      ensures Valid() && log == [] && entries == []
    {
      entries := [];
      log := [];
    }

    /** A new entry for `variable` whose chain is [boundary value, value], linked in at the
        tail of the `next` list. */
    method InsertTestCase(variable: string, condition: string, value: Val)
      modifies this
      ensures entries == old(entries) + [Entry(variable, [GenerateTestCaseValue(condition, value), value])]
      ensures log == old(log)
    {
      var valueNode := GenerateTestCaseValue(condition, value);
      entries := entries + [Entry(variable, [valueNode, value])];
    }

    /** The first entry named `variable`, or None. */
    method FindTestCase(variable: string) returns (r: Option<nat>)
      ensures r == Find(entries, variable)
      ensures r.Some? <==> variable in Names(entries)
    {
      r := FindEntry(entries, variable);
    }

    /** Scans the chain of entry `i` for a node covering (condition, value), then appends
        either a fresh [boundary value, value] pair after the last node or `value` alone. */
    method AddTestForVariable(i: nat, condition: string, value: Val)
      requires i < |entries| && entries[i].down != []
      modifies this
      ensures entries == old(entries)[i := Entry(old(entries)[i].name, Extend(old(entries)[i].down, condition, value))]
      ensures log == old(log)
    {
      var chain := entries[i].down;
      var found, at := Scan(chain, condition, value);
      if !found {
        assert chain[..at + 1] == chain;
        chain := chain[..at + 1] + [GenerateTestCaseValue(condition, value), value];
      } else {
        chain := chain + [value];
      }
      entries := entries[i := Entry(entries[i].name, chain)];
    }

    method GenerateTestCasesForDataEntry(o: Observation)
      requires Valid()
      modifies this
      ensures Valid()
      ensures log == old(log) + [o]
      ensures entries == Step(old(entries), o)
    {
      var existing := FindTestCase(o.variable);
      match existing {
        case None =>
          InsertTestCase(o.variable, o.condition, o.value);
        case Some(i) =>
          RunChainsNonEmpty(log);
          AddTestForVariable(i, o.condition, o.value);
      }
      log := log + [o];
      assert log[..|log| - 1] == old(log);
    }

    /** The trace `display` builds and returns. */
    method Display() returns (result: string)
      ensures result == Render(entries)
    {
      result := Chain.Display(entries);
    }
  }
}
