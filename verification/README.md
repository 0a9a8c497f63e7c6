# Analyzer core: the variable index and the boundary-case index

The Analyzer reads JavaScript source, collects `(variable, condition, value)` observations and
feeds each one to two linked indexes:

- the **variable index** (`LinkedList`) records every observation. Each variable has one entry
  in a `next` list, in first-seen order. The entry's `down` chain holds the observation's
  condition node and then its value node, once per observation.
- the **boundary-case index** (`TestCaseLinkedList`) keeps, per variable, a `down` chain of
  probe values. A variable seen for the first time gets `[boundary value, value]`. A later
  observation is compared with every node of the chain except the last one:
  - when no node satisfies it, a fresh `[boundary value, value]` pair is appended;
  - otherwise only `value` is appended.
- `generateTestCaseValue` picks the boundary value:
  - a non-numeric value becomes `"not_" + value`;
  - an integer moves one step across its comparison: `n + 1` under `==`, `!=`, `>` and `<=`,
    `n - 1` under `<` and `>=`;
  - under any other condition the value comes back unchanged.
- both indexes render as a trace: each entry's name node and chain nodes, each followed by
  `" -> "`, then `"null\n|\n"`; after the last entry, a final `"null"`.

Files:

- `values.dfy` (module `Values`): node values and JavaScript's comparisons on them.
  - A value is an integer (`Int`) or a non-numeric string (`Text`).
  - Relational comparisons on strings are lexicographic.
  - A relational comparison (`<`, `>`, `<=`, `>=`) between a number and a non-numeric string
    is false; `!=` holds between them and `==` does not.
  - It also covers the decimal text an integer renders as, and reading that text back.
- `boundary_value.dfy` (module `BoundaryValue`): `generateTestCaseValue`.
- `chain.dfy` (module `Chain`): the shape both indexes share.
  - An entry is a name plus its `down` chain.
  - It holds the first-match lookup behind `findVariable` and `findTestCase`.
  - It holds the nested walk of `display`.
- `variable_index.dfy` (module `VariableIndex`): the `LinkedList` class and the pure step
  function `Step` that specifies `processDataEntry`.
- `boundary_index.dfy` (module `BoundaryIndex`): the `TestCaseLinkedList` class, the scan of
  `addTestForVariable`, and the step function that specifies `generateTestCasesForDataEntry`.
- `scenarios.dfy` (module `Scenarios`): the generation loop of the page's handler, and whole
  runs on concrete observations, down to their exact traces.

How the classes are modelled:

- Each class keeps its `next` list as a field `entries: seq<Entry>`, which its methods reassign.
- It also keeps a ghost `log` of the observations processed so far.
- `Valid()` says that `entries` is what a left fold of the step function over `log` gives.
- The constructor establishes `Valid()`, and `processDataEntry` and
  `generateTestCasesForDataEntry` keep it.
- Every property of the indexes is proved about that fold (`Run`). It therefore holds of every
  state reached through the constructor and those two operations.
- It does not cover states built by calling `insertVariableAndExpression` or `insertTestCase`
  directly. Both are public, and calling one twice with the same name links in two entries with
  that name.

One might expect a repeated observation to be absorbed by the chain already there. Take the
observations `(a, ==, 3), (b, ==, "x"), (a, ==, 3)`. After the first one, `a`'s boundary chain is
`4 -> 3`, and one might expect the second `(a, ==, 3)` to give `4 -> 3 -> 3`. The scan in
`addTestForVariable` never examines the last node of the chain, so the second `(a, ==, 3)` is
compared only with `4`. Nothing matches, and a second pair is appended, giving
`a -> 4 -> 3 -> 4 -> 3 -> null` (`Scenarios.BoundaryTraceSample`).

## Model

| member | source | states |
|---|---|---|
| `Values.LessOrEqualMeaning` | src/App.js:162-181 | `<=` holds exactly when `<` holds or the two values are equal and of the same kind; a number against a non-numeric string makes both `<` and `<=` false |
| `Values.StrLess` | src/App.js:163-181 | JavaScript's `<` on two strings, element by element with a proper prefix first; it never holds between equal strings |
| `Values.StrLessPrefix` | src/App.js:163-181 | a proper prefix of a string is less than it |
| `Values.Less` | src/App.js:162-171 | JavaScript's `<` on node values: numbers by value, strings by `StrLess`, a number against a non-numeric string false; it holds only between different values of the same kind |
| `Values.LessOrEqual` | src/App.js:172-181 | JavaScript's `<=` on node values; it holds between equal values and never between a number and a non-numeric string |
| `Values.Compare` | src/App.js:152-182 | the six comparisons as JavaScript evaluates them on node values: `<` and `>` never hold between equal values; `==`, `<=` and `>=` always do; a number and a non-numeric string satisfy `!=` and nothing else; an unrecognised condition is false |
| `Values.IntToString` | src/App.js:241-251 | `toString` on an integer gives a numeral with a leading `-` exactly when the integer is negative and no leading zero: zero is exactly `0` |
| `Values.RenderValue` | src/App.js:78 | `${value}` on a node gives a string as it is and a number as the numeral that reads back as that number |
| `Values.StrLessTotal` | src/App.js:163-181 | two different strings are ordered one way or the other by JavaScript's string `<` |
| `Values.StrLessAsymmetric` | src/App.js:163-181 | string `<` never holds in both directions |
| `Values.DecimalRoundTrip` | src/App.js:241-251 | reading back the decimal text `toString` writes for an integer gives the integer, so a boundary value compares as the number it was made from |
| `BoundaryValue.GenerateTestCaseValue` | src/App.js:235-255 | text becomes `not_<text>`; under a recognised comparison an integer becomes the neighbour (`n+1` or `n-1`) whose comparison with `n` has the opposite truth value to `n`'s own; under `<`, `>`, `<=` and `>=` it is the only neighbour with that property; under `==`/`!=` it is `n+1`; under any other condition the value is returned unchanged; whenever the condition or the kind is recognised the probe differs from the value |
| `BoundaryValue.BoundaryExamples` | src/App.js:235-252 | the boundary values for 5 under `==` and `<`, 10 under `>=`, and `"abc"` |
| `Chain.Find` | src/App.js:50-59 | the lookup finds the first entry with the given name; it is None exactly when no entry has that name |
| `Chain.FindEntry` | src/App.js:123-132 | the `next` walk returns that same first position, and finds something exactly when the name is in the list |
| `Chain.FindAppend` | src/App.js:26-34 | linking an entry in at the tail changes no earlier lookup and makes the new name findable when it was absent |
| `Chain.FindUpdate` | src/App.js:42-47 | extending an entry's `down` chain changes no lookup |
| `Chain.NoDupFind` | src/App.js:50-59 | when names are unique, every entry is the one its own name finds |
| `Chain.RenderChain` | src/App.js:77-80 | the walk down a chain writes `${value} -> ` for every node, so the text has at least four characters per node |
| `Chain.RenderChainAppend` | src/App.js:77-80 | the nodes of a chain are written in order: the trace of two chains joined is the two traces joined |
| `Chain.RenderEntry` | src/App.js:76-81 | one entry's line starts with its name followed by ` -> ` and is at least eleven characters longer than the name, plus four per chain node |
| `Chain.Render` | src/App.js:71-86 | the trace of an empty index is `null`; otherwise the trace starts with the head entry's line |
| `Chain.RenderEndsWithNull` | src/App.js:84 | every trace, the empty index's included, ends with the final `null` that both `display` methods append last (also src/App.js:229) |
| `Chain.RenderEntriesAppend` | src/App.js:75-83 | each entry's part of the trace stands alone: the trace of two lists joined is the two traces joined |
| `Chain.Display` | src/App.js:216-232 | the nested walk along `next` and down each chain builds exactly the trace `Render` of the entries |
| `VariableIndex.Step` | src/App.js:61-69 | after one observation the names are the old names with the variable appended if it was absent; the observed variable's chain gains exactly the pair (condition, value); every other chain is unchanged; no entry is renamed and no chain loses a node |
| `VariableIndex.PairsShape` | src/App.js:18-24 | a chain of pairs has two nodes per observation, the condition at even positions and the value at odd ones |
| `VariableIndex.RunNames` | src/App.js:26-34 | after any run, the entries list every observed variable once, in first-seen order |
| `VariableIndex.RunChains` | src/App.js:37-48 | after any run, a variable's chain is the pairs of its own observations, in order |
| `VariableIndex.ObservedKTimes` | src/App.js:18-48 | a variable observed k times has a chain of exactly 2k nodes, alternating condition and value in observation order |
| `VariableIndex.LinkedList.constructor` | src/App.js:14-16 | a new index is empty and has processed nothing |
| `VariableIndex.LinkedList.InsertVariableAndExpression` | src/App.js:18-35 | a new entry with chain (condition, value) is linked in at the tail; the other entries are unchanged |
| `VariableIndex.LinkedList.AddExpression` | src/App.js:37-48 | the pair (condition, value) is appended to the chain of the given entry; nothing else changes |
| `VariableIndex.LinkedList.FindVariable` | src/App.js:50-59 | returns the first entry with the name, or None exactly when there is none |
| `VariableIndex.LinkedList.ProcessDataEntry` | src/App.js:61-69 | lookup-or-insert performs exactly one `Step` and keeps the index equal to the fold of everything it has processed |
| `VariableIndex.LinkedList.Display` | src/App.js:71-87 | the logged trace is `Render` of the entries |
| `BoundaryIndex.Matches` | src/App.js:139-182 | the per-node test: for a number it is the comparison itself; for a non-numeric value under `==` a node matches when it is `not_<value>` or the value; under `!=` every node matches a non-numeric value; under `<`, `>`, `<=` and `>=` it is the comparison itself for either kind; an unrecognised condition never matches |
| `BoundaryIndex.Covered` | src/App.js:138-185 | coverage needs a chain of at least two nodes, and a matching first node of such a chain covers the observation |
| `BoundaryIndex.CoveredIgnoresLast` | src/App.js:138 | the last node never decides coverage: replacing it never changes the answer |
| `BoundaryIndex.Scan` | src/App.js:134-185 | the scan reports a match exactly when some node other than the last one satisfies (condition, value); it stops at the first such node, and on no match it stops at the last node |
| `BoundaryIndex.Extend` | src/App.js:187-202 | the old chain is kept as a prefix and the observed value becomes the last node; the chain grows by one node when covered and by two otherwise, the first of the two being the boundary value |
| `BoundaryIndex.Step` | src/App.js:205-214 | names grow by the variable when it is absent; a new entry's chain is exactly `[boundary value, value]` at the tail; an existing chain is extended as `Extend` says; every other chain is unchanged |
| `BoundaryIndex.RunNames` | src/App.js:112-120 | after any run, the entries list every observed variable once, in first-seen order |
| `BoundaryIndex.RunChainsNonEmpty` | src/App.js:103-111 | every chain holds at least two nodes, so the scan always has a node to start from |
| `BoundaryIndex.InIndexIffObserved` | src/App.js:205-214 | a variable has an entry exactly when it has been observed |
| `BoundaryIndex.RunChainUnobserved` | src/App.js:123-132 | a variable never observed has no chain |
| `BoundaryIndex.RunChainLength` | src/App.js:187-202 | a variable observed k times has between k+1 and 2k nodes |
| `BoundaryIndex.RunChainFirst` | src/App.js:103-111 | a chain starts with the boundary value and the value of the variable's first observation |
| `BoundaryIndex.RunChainLast` | src/App.js:187-202 | a chain ends with the value of the variable's latest observation |
| `BoundaryIndex.StepAppendOnly` | src/App.js:187-214 | one observation removes no entry and shortens or rewrites no chain |
| `BoundaryIndex.RunAppendOnly` | src/App.js:187-202 | processing more observations never removes an entry and never rewrites a chain: old names and old chains are prefixes of the new ones |
| `BoundaryIndex.TextInequalityAlwaysCovered` | src/App.js:145-150 | under `!=`, a non-numeric value is covered by every chain the index holds, so it always appends the value alone |
| `BoundaryIndex.TestCaseLinkedList.constructor` | src/App.js:99-101 | a new index is empty and has processed nothing |
| `BoundaryIndex.TestCaseLinkedList.InsertTestCase` | src/App.js:103-121 | a new entry with chain `[boundary value, value]` is linked in at the tail; the other entries are unchanged |
| `BoundaryIndex.TestCaseLinkedList.FindTestCase` | src/App.js:123-132 | returns the first entry with the name, or None exactly when there is none |
| `BoundaryIndex.TestCaseLinkedList.AddTestForVariable` | src/App.js:134-203 | the chain of the given entry becomes `Extend` of its old chain; nothing else changes |
| `BoundaryIndex.TestCaseLinkedList.GenerateTestCasesForDataEntry` | src/App.js:205-214 | lookup-then-insert-or-extend performs exactly one `Step` and keeps the index equal to the fold of everything it has processed |
| `BoundaryIndex.TestCaseLinkedList.Display` | src/App.js:216-232 | the returned trace is `Render` of the entries |
| `Scenarios.GenerationRun` | src/App.js:280-291 | feeding observations to both indexes in order and displaying them yields the traces of the two folds over the observations |
| `Scenarios.VariableIndexSample` | src/App.js:61-69 | after `(a, ==, 3), (b, ==, "x"), (a, ==, 3)` the variable index holds `a: ==, 3, ==, 3` and `b: ==, x` |
| `Scenarios.BoundaryIndexSample` | src/App.js:205-214 | after the same observations the boundary index holds `a: 4, 3, 4, 3` and `b: not_x, x` |
| `Scenarios.BoundaryIndexSampleLast` | src/App.js:138-193 | the second `(a, ==, 3)` is compared only with the node 4 (the last node is not scanned), so it appends the pair 4, 3 |
| `Scenarios.RepeatedIntegerEquality` | src/App.js:138-202 | observing `(a, ==, n)` three times gives the chain `n+1, n, n+1, n, n` |
| `Scenarios.RepeatedTextEquality` | src/App.js:139-201 | observing `(b, ==, s)` twice for a text `s` gives `not_s, s, s`, because the node `not_s` counts as a match; the lemma holds for every string, but a string JavaScript reads as a number (`"5"`, `""`) lies outside the model |
| `Scenarios.VariableTraceSample` | src/App.js:71-84 | the exact trace of the variable index after the sample observations |
| `Scenarios.BoundaryTraceSample` | src/App.js:216-231 | the exact trace of the boundary index after the sample observations |
| `Scenarios.SampleTraces` | src/App.js:280-291 | running the generation loop on the sample observations returns exactly those two traces |

## Left out

- The React page: `App`, `useState`, the text area, the button and the result panel
  (src/App.js:257-333). This is UI. `Scenarios.GenerationRun` models only the loop that feeds the
  two indexes and their traces.
  - The page feeds each declared variable once with the condition `==`. The model accepts any
    sequence of observations, which the two classes themselves allow.
  - The page shows the boundary trace only. `GenerationRun` returns both traces.
- Parsing with acorn, `traverseAST` and `evaluateLiteral` (src/App.js:272-278, 294-308). These are
  a foreign library and a generic object walk; the model takes the observations as its input.
- `console.log` in both `display` methods. This is I/O. Both are modelled by the string they
  build; `LinkedList.display` only logs its string, and its model returns it.
- JavaScript coercion corners. Values are integers or non-numeric strings only, which leaves out:
  - `undefined`, `null`, booleans and floating-point numbers;
  - numeric strings as observed values, and `parseInt` truncation. `Text` does not exclude them,
    but a `Text` holding a string that `isNaN` accepts as a number (`"5"`, `""`, `"Infinity"`)
    lies outside the model. The model sends it down the `not_` path; the source treats it as a
    number;
  - loose `==` between a number and its numeric string;
  - 2^53 and the other limits of JavaScript numbers.
- `BoundaryValue.GenerateTestCaseValue` returns an integer where the source returns its decimal
  string. Every comparison of that string with a number converts it back (`Values.DecimalRoundTrip`).
  Under `<`, `>`, `<=` and `>=` a comparison with a non-numeric string is different: JavaScript
  compares the two as strings, while the model says false (under `==` both give false, under `!=`
  both give true). The difference shows in `addTestForVariable`'s chain. For the observations
  `(a, ==, 3), (a, <, "x")` the source scans `"4" < "x"`, which holds as a string comparison, and
  appends `x` alone, giving `a -> 4 -> 3 -> x`. The model's `Less(Int(4), Text("x"))` is false, so
  it appends `not_x, x`.
- `Values.StrLess` compares characters by code point. JavaScript compares UTF-16 code units.
- The `conditionNode` objects created and never linked (src/App.js:105, 188, 195). They have no
  observable effect.
- Node identity and aliasing. The model has no `Node`/`TestCaseNode` objects:
  - the `next` list becomes a sequence of entries, and each `down` chain a sequence of values;
  - `findVariable` and `findTestCase` return the entry's position instead of the node.
