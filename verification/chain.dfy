/** The shape both indexes share: a `next` list of entry nodes, each heading a `down` chain of
    value nodes; the first-match lookup both use, and the trace both display. */
module Chain {
  import opened Values

  datatype Option<T> = None | Some(value: T)

  /** One (variable, condition, value) triple fed to the indexes. */
  datatype Observation = Observation(variable: string, condition: string, value: Val)

  /** An entry node (holding a variable name) with the values of its `down` chain in order. */
  datatype Entry = Entry(name: string, down: seq<Val>)

  /** The names of the entries in `next` order. */
  function Names(es: seq<Entry>): seq<string>
  {
    seq(|es|, i requires 0 <= i < |es| => es[i].name)
  }

  /** The variables of a sequence of observations, in order. */
  function Vars(log: seq<Observation>): seq<string>
  {
    seq(|log|, i requires 0 <= i < |log| => log[i].variable)
  }

  predicate NoDup(xs: seq<string>)
  {
    forall i, j | 0 <= i < j < |xs| :: xs[i] != xs[j]
  }

  /** Appends `x` unless it is already present. */
  function AddIfAbsent(xs: seq<string>, x: string): seq<string>
  {
    if x in xs then xs else xs + [x]
  }

  /** The distinct elements of `xs`, each where it is first seen. */
  function Distinct(xs: seq<string>): (r: seq<string>)
    ensures NoDup(r)
    ensures forall x :: x in r <==> x in xs
  {
    if xs == [] then []
    else
      assert xs == xs[..|xs| - 1] + [xs[|xs| - 1]];
      AddIfAbsent(Distinct(xs[..|xs| - 1]), xs[|xs| - 1])
  }

  /** The observations of `x`, in order. */
  function Filter(log: seq<Observation>, x: string): (r: seq<Observation>)
    ensures |r| <= |log|
    ensures forall o | o in r :: o.variable == x && o in log
  {
    if log == [] then []
    else
      var rest := Filter(log[..|log| - 1], x);
      if log[|log| - 1].variable == x then rest + [log[|log| - 1]] else rest
  }

  /** The position of the first entry named `name`: where the `next` walk of findVariable and
      findTestCase stops, or None when it runs off the end. */
  function Find(es: seq<Entry>, name: string): (r: Option<nat>)
    ensures r.Some? ==> r.value < |es| && es[r.value].name == name
    ensures r.Some? ==> forall j | 0 <= j < r.value :: es[j].name != name
    ensures r.None? <==> forall j | 0 <= j < |es| :: es[j].name != name
  {
    if es == [] then None
    else if es[0].name == name then Some(0)
    else
      match Find(es[1..], name)
      case None => None
      case Some(i) => Some(i + 1)
  }

  /** The `down` chain of the entry that lookup finds for `name` (empty when there is none). */
  function ChainOf(es: seq<Entry>, name: string): seq<Val>
  {
    match Find(es, name)
    case None => []
    case Some(i) => es[i].down
  }

  /** The walk along `next` that findVariable and findTestCase perform. */
  method FindEntry(es: seq<Entry>, name: string) returns (r: Option<nat>)
    ensures r == Find(es, name)
    ensures r.Some? <==> name in Names(es)
  {
    var i := 0;
    while i < |es|
      invariant 0 <= i <= |es|
      invariant forall j | 0 <= j < i :: es[j].name != name
    {
      if es[i].name == name {
        assert Names(es)[i] == name;
        return Some(i);
      }
      i := i + 1;
    }
    return None;
  }

  /** Find is determined by its contract: the first position holding `name`. */
  lemma FindIs(es: seq<Entry>, name: string, k: nat)
    requires k < |es| && es[k].name == name
    requires forall j | 0 <= j < k :: es[j].name != name
    ensures Find(es, name) == Some(k)
  {
  }

  /** Appending an entry leaves every earlier lookup as it was and makes its own name findable. */
  lemma FindAppend(es: seq<Entry>, e: Entry, name: string)
    ensures Find(es + [e], name) ==
      if Find(es, name).Some? then Find(es, name)
      else if e.name == name then Some(|es|) else None
  {
    var es' := es + [e];
    match Find(es, name)
    case Some(k) =>
      FindIs(es', name, k);
    case None =>
      if e.name == name {
        FindIs(es', name, |es|);
      } else {
        assert forall j | 0 <= j < |es'| :: es'[j].name != name by {
          forall j | 0 <= j < |es'| ensures es'[j].name != name {
            if j < |es| { assert es'[j] == es[j]; }
          }
        }
      }
  }

  /** Changing the chain of an entry (not its name) changes no lookup. */
  lemma FindUpdate(es: seq<Entry>, i: nat, down: seq<Val>, name: string)
    requires i < |es|
    ensures Find(es[i := Entry(es[i].name, down)], name) == Find(es, name)
  {
    var es' := es[i := Entry(es[i].name, down)];
    assert forall j | 0 <= j < |es| :: es'[j].name == es[j].name;
    match Find(es, name)
    case Some(k) =>
      FindIs(es', name, k);
    case None =>
  }

  /** With unique names every entry is the one its own name finds. */
  lemma NoDupFind(es: seq<Entry>, i: nat)
    requires NoDup(Names(es)) && i < |es|
    ensures Find(es, es[i].name) == Some(i)
  {
    forall j | 0 <= j < i
      ensures es[j].name != es[i].name
    {
      assert Names(es)[j] == es[j].name && Names(es)[i] == es[i].name;
    }
    FindIs(es, es[i].name, i);
  }

  /** `${value} -> ` for each node of a `down` chain: every node, the last one included, is
      followed by an arrow. */
  function RenderChain(down: seq<Val>): (r: string)
    ensures |r| >= 4 * |down|
  {
    if down == [] then ""
    else RenderChain(down[..|down| - 1]) + RenderValue(down[|down| - 1]) + " -> "
  }

  lemma ConcatAssoc(a: string, b: string, c: string)
    ensures a + b + c == a + (b + c)
  {
  }

  /** A node linked in at the end of a chain adds its own text at the end of the trace. */
  lemma RenderChainSnoc(d: seq<Val>, v: Val)
    ensures RenderChain(d + [v]) == RenderChain(d) + (RenderValue(v) + " -> ")
  {
    assert (d + [v])[..|d|] == d;
  }

  /** The nodes of a chain are written in order: the trace of two chains joined is the two
      traces joined. */
  lemma {:induction false} RenderChainAppend(d1: seq<Val>, d2: seq<Val>)
    ensures RenderChain(d1 + d2) == RenderChain(d1) + RenderChain(d2)
    decreases |d2|
  {
    if d2 == [] {
      assert d1 + d2 == d1;
    } else {
      var init, v := d2[..|d2| - 1], d2[|d2| - 1];
      RenderChainAppend(d1, init);
      assert d2 == init + [v];
      assert d1 + d2 == (d1 + init) + [v];
      RenderChainSnoc(d1 + init, v);
      RenderChainSnoc(init, v);
      ConcatAssoc(RenderChain(d1), RenderChain(init), RenderValue(v) + " -> ");
    }
  }

  /** One entry's line: its name node, its `down` chain, then the closing `null` and delimiter. */
  function RenderEntry(e: Entry): (r: string)
    ensures e.name + " -> " <= r
    ensures |r| >= |e.name| + 11 + 4 * |e.down|
  {
    e.name + " -> " + RenderChain(e.down) + "null\n|\n"
  }

  function RenderEntries(es: seq<Entry>): string
  {
    if es == [] then ""
    else RenderEntries(es[..|es| - 1]) + RenderEntry(es[|es| - 1])
  }

  /** The trace `display` builds: every entry in `next` order, then a final `null`. It starts
      with the line of the head entry. */
  function Render(es: seq<Entry>): (r: string)
    ensures es == [] ==> r == "null"
    ensures es != [] ==> RenderEntry(es[0]) <= r
  {
    if es == [] then "null"
    else
      RenderEntriesAppend([es[0]], es[1..]);
      assert [es[0]] + es[1..] == es;
      assert [es[0]][..0] == [];
      RenderEntries(es) + "null"
  }

  /** Every trace ends with the final `null`, the empty index's included. */
  lemma RenderEndsWithNull(es: seq<Entry>)
    ensures |Render(es)| >= 4 && Render(es)[|Render(es)| - 4..] == "null"
  {
    if es != [] {
      var body := RenderEntries(es);
      assert Render(es) == body + "null";
      assert (body + "null")[|body|..] == "null";
    }
  }

  /** An entry linked in at the tail adds its own line at the end of the trace. */
  lemma RenderEntriesSnoc(es: seq<Entry>, e: Entry)
    ensures RenderEntries(es + [e]) == RenderEntries(es) + RenderEntry(e)
  {
    assert (es + [e])[..|es|] == es;
  }

  /** Each entry's line stands on its own: the trace of a concatenation is the concatenation
      of the traces. */
  lemma {:induction false} RenderEntriesAppend(es1: seq<Entry>, es2: seq<Entry>)
    ensures RenderEntries(es1 + es2) == RenderEntries(es1) + RenderEntries(es2)
    decreases |es2|
  {
    if es2 == [] {
      assert es1 + es2 == es1;
    } else {
      var init, e := es2[..|es2| - 1], es2[|es2| - 1];
      RenderEntriesAppend(es1, init);
      assert es2 == init + [e];
      assert es1 + es2 == (es1 + init) + [e];
      RenderEntriesSnoc(es1 + init, e);
      RenderEntriesSnoc(init, e);
      ConcatAssoc(RenderEntries(es1), RenderEntries(init), RenderEntry(e));
    }
  }

  /** The nested walk of `display`: along `next`, and down each entry's chain. */
  method Display(es: seq<Entry>) returns (result: string)
    ensures result == Render(es)
  {
    result := "";
    var i := 0;
    while i < |es|
      invariant 0 <= i <= |es|
      invariant result == RenderEntries(es[..i])
    {
      var e := es[i];
      var line := e.name + " -> ";
      var j := 0;
      while j < |e.down|
        invariant 0 <= j <= |e.down|
        invariant line == e.name + " -> " + RenderChain(e.down[..j])
      {
        line := line + (RenderValue(e.down[j]) + " -> ");
        assert e.down[..j + 1][..j] == e.down[..j];
        j := j + 1;
      }
      assert e.down[..j] == e.down;
      line := line + "null\n|\n";
      assert line == RenderEntry(e);
      assert es[..i + 1][..i] == es[..i];
      result := result + line;
      i := i + 1;
    }
    assert es[..i] == es;
    result := result + "null";
  }
}
