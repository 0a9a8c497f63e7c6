/** The variable-observation index (`LinkedList`): one entry per variable in first-seen order,
    whose `down` chain records every observation as a condition node followed by a value node. */
module VariableIndex {
  import opened Values
  import opened Chain

  /** The two `down` nodes one observation contributes: its condition, then its value. */
  function Pair(o: Observation): seq<Val>
  {
    [Text(o.condition), o.value]
  }

  /** processDataEntry on the entries: lookup-or-insert. The entry for the observed variable
      gains the observation's pair at the end of its chain (a new entry is created at the tail
      of the `next` list when there is none); every other entry is left as it was. */
  function Step(es: seq<Entry>, o: Observation): (r: seq<Entry>)
    ensures Names(r) == AddIfAbsent(Names(es), o.variable)
    ensures ChainOf(r, o.variable) == ChainOf(es, o.variable) + Pair(o)
    ensures forall x | x != o.variable :: ChainOf(r, x) == ChainOf(es, x)
    ensures |es| <= |r| && forall i | 0 <= i < |es| :: r[i].name == es[i].name && es[i].down <= r[i].down
    ensures o.variable !in Names(es) ==> |r| == |es| + 1 && r[..|es|] == es
  {
    match Find(es, o.variable)
    case None =>
      var r := es + [Entry(o.variable, Pair(o))];
      assert Names(r) == Names(es) + [o.variable];
      forall x ensures Find(r, x) == (if x == o.variable then Some(|es|) else Find(es, x)) {
        FindAppend(es, Entry(o.variable, Pair(o)), x);
      }
      assert r[..|es|] == es;
      r
    case Some(i) =>
      var r := es[i := Entry(es[i].name, es[i].down + Pair(o))];
      assert Names(es)[i] == o.variable;
      assert Names(r) == Names(es);
      forall x ensures Find(r, x) == Find(es, x) {
        FindUpdate(es, i, es[i].down + Pair(o), x);
      }
      r
  }

  /** The entries after processing `log` in order, starting from the empty index. */
  function Run(log: seq<Observation>): seq<Entry>
  {
    if log == [] then [] else Step(Run(log[..|log| - 1]), log[|log| - 1])
  }

  /** The chain a sequence of observations of one variable builds: their pairs, in order. */
  function Pairs(os: seq<Observation>): seq<Val>
  {
    if os == [] then [] else Pairs(os[..|os| - 1]) + Pair(os[|os| - 1])
  }

  /** A chain of pairs has two nodes per observation, alternating condition and value. */
  lemma {:induction false} PairsShape(os: seq<Observation>)
    ensures |Pairs(os)| == 2 * |os|
    ensures forall j | 0 <= j < |os| ::
      Pairs(os)[2 * j] == Text(os[j].condition) && Pairs(os)[2 * j + 1] == os[j].value
  {
    if os != [] {
      var init := os[..|os| - 1];
      PairsShape(init);
      forall j | 0 <= j < |os|
        ensures Pairs(os)[2 * j] == Text(os[j].condition) && Pairs(os)[2 * j + 1] == os[j].value
      {
        if j < |init| {
          assert os[j] == init[j];
        }
      }
    }
  }

  /** Variables are listed once each, in the order they were first observed. */
  lemma {:induction false} RunNames(log: seq<Observation>)
    ensures Names(Run(log)) == Distinct(Vars(log))
    ensures NoDup(Names(Run(log)))
  {
    if log != [] {
      var init := log[..|log| - 1];
      RunNames(init);
      assert Vars(log)[..|log| - 1] == Vars(init);
    }
  }

  /** The chain of every variable holds exactly the pairs of its observations, in order. */
  lemma {:induction false} RunChains(log: seq<Observation>, x: string)
    ensures ChainOf(Run(log), x) == Pairs(Filter(log, x))
  {
    if log != [] {
      var init, o := log[..|log| - 1], log[|log| - 1];
      RunChains(init, x);
      if o.variable == x {
        var f := Filter(log, x);
        assert f[..|f| - 1] == Filter(init, x);
      }
    }
  }

  /** A variable observed k times owns a chain of 2k nodes: the i-th observation's condition at
      position 2i and its value at position 2i+1. */
  lemma ObservedKTimes(log: seq<Observation>, x: string)
    ensures |ChainOf(Run(log), x)| == 2 * |Filter(log, x)|
    ensures forall j | 0 <= j < |Filter(log, x)| ::
      ChainOf(Run(log), x)[2 * j] == Text(Filter(log, x)[j].condition) &&
      ChainOf(Run(log), x)[2 * j + 1] == Filter(log, x)[j].value
  {
    RunChains(log, x);
    PairsShape(Filter(log, x));
  }

  /** The variable-observation index. `entries` is the `next` list from `head`; `log` is the
      sequence of observations processed so far. */
  class LinkedList {
    var entries: seq<Entry>
    ghost var log: seq<Observation>

    ghost predicate Valid()
      reads this
    {
      entries == Run(log)
    }

    constructor ()
      ensures Valid() && log == [] && entries == []
    {
      entries := [];
      log := [];
    }

    /** A new entry for `variable`, with the pair (condition, value) as its chain, linked in at
        the tail of the `next` list. */
    method InsertVariableAndExpression(variable: string, condition: string, value: Val)
      modifies this
      ensures entries == old(entries) + [Entry(variable, [Text(condition), value])]
      ensures log == old(log)
    {
      entries := entries + [Entry(variable, [Text(condition), value])];
    }

    /** The pair (condition, value) linked in at the end of the chain of entry `i`. */
    method AddExpression(i: nat, condition: string, value: Val)
      requires i < |entries|
      modifies this
      ensures entries == old(entries)[i := Entry(old(entries)[i].name, old(entries)[i].down + [Text(condition), value])]
      ensures log == old(log)
    {
      entries := entries[i := Entry(entries[i].name, entries[i].down + [Text(condition), value])];
    }

    /** The first entry named `variable`, or None. */
    method FindVariable(variable: string) returns (r: Option<nat>)
      ensures r == Find(entries, variable)
      ensures r.Some? <==> variable in Names(entries)
    {
      r := FindEntry(entries, variable);
    }

    method ProcessDataEntry(o: Observation)
      requires Valid()
      modifies this
      ensures Valid()
      ensures log == old(log) + [o]
      ensures entries == Step(old(entries), o)
    {
      var existing := FindVariable(o.variable);
      match existing {
        case None =>
          InsertVariableAndExpression(o.variable, o.condition, o.value);
        case Some(i) =>
          AddExpression(i, o.condition, o.value);
      }
      log := log + [o];
      assert log[..|log| - 1] == old(log);
    }

    /** The trace `display` writes to the console. */
    method Display() returns (logged: string)
      ensures logged == Render(entries)
    {
      logged := Chain.Display(entries);
    }
  }
}
