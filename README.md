# Data structures demo CLI — a Dafny model

This project models the teaching demo in `javascript/sandbox/src/index.ts`. The demo is a small
command-line tool with three parts:

- a generic LIFO `Stack<T>` whose `items` array is changed in place by `push` and `pop`;
- `binarySearch`, which bisects a sorted array of numbers and returns an index holding the
  target, or the sentinel `-1`;
- `main`, which reads the arguments and then shows a usage block, runs the stack demo, the search
  demo or both, or rejects an unknown demo name with exit status 1.

The two demo procedures are fixed scripts. They are modelled as methods that return what the
original prints, so their contracts pin down the scenario results.

Modules:

- `Wrappers` holds `Option`, which stands for JavaScript's `undefined` as "absent".
- `Stacks` holds the class `Stack<T>`. Its `items` is a `seq<T>` field, bottom first, that `Push`
  and `Pop` reassign. It also holds the pure step functions `Top`, `PopStep` and `PopMany`, which
  the methods are proved against, and the LIFO lemmas about them. Two ghost counters record the
  pushes and the successful pops. `Valid()` states that the size is always pushes minus pops.
- `Search` holds `BinarySearch`, the source's loop over an `array<int>`. Its reference is
  `Bisect`, the same bisection written as a recursive function over the window `[lo, hi]`. That
  reference also fixes which index comes back when the target is duplicated.
- `Demos` holds the scripts of `demonstrateStack` and `demonstrateBinarySearch`.
- `Cli` holds `Dispatch` (arguments to `Outcome`), `ExitCode` and `DemosRun`, the pure decision
  inside `main`.

## Model

| member | source | states |
|---|---|---|
| `Stacks.Stack.constructor` | javascript/sandbox/src/index.ts:9-10 | a new stack is empty and nothing has been pushed or popped |
| `Stacks.Stack.Push` | javascript/sandbox/src/index.ts:12-16 | the contents become the old contents plus the item on top, so earlier elements are unchanged; an immediate pop would return the item and restore the old contents; the size invariant is kept |
| `Stacks.Stack.Pop` | javascript/sandbox/src/index.ts:18-23 | on a non-empty stack it returns the last element and leaves the old contents without it; on an empty stack it returns absent and the stack stays empty; the pop counter grows only when an element was removed |
| `Stacks.Stack.Peek` | javascript/sandbox/src/index.ts:25-27 | returns the element a pop would return (the last one, or absent exactly when the stack is empty) and changes nothing |
| `Stacks.Stack.IsEmpty` | javascript/sandbox/src/index.ts:29-31 | true exactly when the stack holds no element, which is exactly when peek gives absent |
| `Stacks.Stack.Size` | javascript/sandbox/src/index.ts:33-35 | equals the number of stored elements, and that equals pushes minus successful pops |
| `Stacks.Top` | javascript/sandbox/src/index.ts:25-27 | the top is absent exactly for an empty stack, and otherwise it is the last element |
| `Stacks.PopStep` | javascript/sandbox/src/index.ts:18-22 | a pop returns the top; on an empty stack it leaves it empty; otherwise pushing the popped value back gives the original contents |
| `Stacks.PopUndoesPush` | javascript/sandbox/src/index.ts:12-22 | pop after push(x) returns x and restores the contents before the push |
| `Stacks.PopsReversePushes` | javascript/sandbox/src/index.ts:12-22 | after pushing xs onto any stack, popping once per pushed item returns them newest first and leaves the original stack |
| `Stacks.DrainedStackIsEmpty` | javascript/sandbox/src/index.ts:18-31 | n pushes onto an empty stack, then n pops, return the values in reverse; the next pop returns absent and the stack is empty |
| `Search.Bisect` | javascript/sandbox/src/index.ts:50-70 | the bisection over a window returns -1 or an index inside the window that holds the target |
| `Search.BisectComplete` | javascript/sandbox/src/index.ts:50-70 | on a non-decreasing array the bisection returns -1 exactly when the target is nowhere in the window |
| `Search.BinarySearch` | javascript/sandbox/src/index.ts:44-71 | the loop returns what the bisection returns, so every probe is in bounds and the loop ends; the result is -1 or an index holding the target, and -1 for an empty array; on sorted input it is -1 exactly when the target does not occur |
| `Demos.DemonstrateStack` | javascript/sandbox/src/index.ts:74-93 | after pushing First, Second and Third, peek gives Third; the two pops give Third then Second; the stack is not empty and holds just First |
| `Demos.DemonstrateBinarySearch` | javascript/sandbox/src/index.ts:95-108 | on [2,5,8,12,16,23,38,45,67,78] the searches return 5 for 23, 1 for 5 and -1 for 30 |
| `Cli.Lower` | javascript/sandbox/src/index.ts:131 | the modelled (ASCII) lower-casing keeps the length and maps every character on its own |
| `Cli.LowerIdempotent` | javascript/sandbox/src/index.ts:131 | lower-casing an already lower-cased name changes nothing |
| `Cli.Dispatch` | javascript/sandbox/src/index.ts:116-148 | the outcome is Usage exactly when there are no arguments or a help flag occurs anywhere; otherwise the lower-cased first argument alone decides |
| `Cli.Select` | javascript/sandbox/src/index.ts:131-148 | `stack` gives RunStack, `search` gives RunSearch and `all` gives RunAll, each exactly for that name; any other name gives Unknown carrying that lower-cased name, and never Usage |
| `Cli.ExitCode` | javascript/sandbox/src/index.ts:128-148 | the exit status is 0 or 1, and it is 1 exactly for an unknown demo |
| `Cli.DemosRun` | javascript/sandbox/src/index.ts:133-143 | help and unknown names run no demo; stack runs exactly the stack demo once; search runs exactly the search demo once; all runs the stack demo and then the search demo |
| `Cli.ExitFailsOnlyForUnknownDemo` | javascript/sandbox/src/index.ts:116-148 | the process fails exactly when no help is requested and the lower-cased first argument is no demo name; every successful non-help run runs some demo |
| `Cli.HelpOverridesDemoName` | javascript/sandbox/src/index.ts:116-128 | a help flag at any position gives Usage with status 0 and runs no demo |
| `Cli.DispatchIgnoresCase` | javascript/sandbox/src/index.ts:131 | replacing the first argument by another spelling with the same lower-case form does not change the outcome |
| `Cli.UsageExamples` | javascript/sandbox/src/index.ts:116 | no arguments, `--help`, and `stack -h` all give Usage with status 0 |
| `Cli.DemoNameExamples` | javascript/sandbox/src/index.ts:131-147 | `Stack` and `SEARCH extra` select their demos, `all` selects both, and `BOGUS` is rejected as unknown demo `bogus` with status 1 |

## Left out

- Console output is not modelled. This covers the trace lines of push, pop and the search, `display()`, the demo banners, the usage text and the unknown-demo message. The demo methods return the values the original prints instead.
- Reading `process.argv` and calling `process.exit(1)` are not modelled. `Dispatch` takes the argument list as a parameter, and `ExitCode` gives the status.
- Array elements and the search target are mathematical integers, not IEEE doubles. `Math.floor((left + right) / 2)` becomes integer division, which agrees because both bounds are non-negative wherever it is computed.
- Cli.Lower: maps only the ASCII letters `A`–`Z` and always keeps the length, whereas `toLowerCase` also lower-cases other Unicode letters and can change the length (U+0130 becomes two code units). This changes dispatch: `toLowerCase` maps U+212A KELVIN SIGN to `k`, so `stac` followed by U+212A runs the stack demo with status 0 in the program but gives `Unknown` with status 1 in the model.
- A stored `undefined` element is not modelled. In the source such an element would look the same as an absent pop or peek result. The model keeps the two apart with `Option`.
- BinarySearch's answer on duplicated targets is fixed only through `Bisect`. No first-occurrence or last-occurrence property is claimed, because the source promises none.
