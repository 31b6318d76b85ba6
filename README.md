# Competing phases: a Dafny model

This project models the two helpers in `examples/functions/competing_phases.py` of the
materials-informatics-tools scripts, in one module, `CompetingPhases` (`competing_phases.dfy`).

- `get_competing(entry, competing_list)` walks the list of phase records and keeps every
  record whose chemical system (`chemsys`, a set of element symbols) is a subset of the
  candidate entry's. The subset test is not strict. The model is the method `GetCompeting`.
  Its loop is proved to compute the specification function `Competing`. The lemmas about
  `Competing` cover soundness, completeness, multiplicity, order and idempotence.
- `get_decomp_product_ids(structures, competing_phases)` has three steps. It builds one
  phase diagram per group of competing phases (`BuildPhaseDiagrams`). It pairs structures
  with diagrams by position, as Python's `zip` does (`Zip`), and concatenates the names of
  each pair's decomposition products (`CollectDecompProducts`). It then turns the list into
  `list(set(...))` (`ListOfSet`). The whole is `GetDecompProductIds`. Its contract gives
  the exact set of returned names, says the list has no duplicates, and bounds its length
  by the number of names collected before deduplication.

The phase-diagram library is a parameter, not a model:
- `build: seq<PdEntry> -> D` stands for `PhaseDiagram(entries)`.
- `decomp: (S, D) -> seq<PdEntry>` stands for taking a structure's element composition and
  calling `get_decomposition` on the diagram. It returns the product entries in the order
  the library's result is iterated.

Structures are an opaque type `S` and diagrams an opaque type `D`. `Composition(full_formula)`
is kept as the formula string, and `final_energy` as a `real` that nothing computes with.
Python lists that the helpers read but never mutate become Dafny sequences. Because these
are values, "get_competing changes neither argument" holds by construction.

## Model

| member | source | states |
|---|---|---|
| `CompetingPhases.GetCompeting` | examples/functions/competing_phases.py:4-9 | The list the loop builds is exactly `Competing(entry, competing_list)`: the competing records in input order. An empty list gives an empty result. |
| `CompetingPhases.Competing` | examples/functions/competing_phases.py:5-9 | The filtered list is never longer than the input list. |
| `CompetingPhases.CompetingMultiplicity` | examples/functions/competing_phases.py:6-8 | A record whose chemsys is a subset of the entry's occurs in the result exactly as often as in the input. Any other record does not occur in the result. |
| `CompetingPhases.CompetingMembership` | examples/functions/competing_phases.py:6-8 | A record is in the result if and only if it is in the input and its chemsys is a subset of the entry's chemsys. This gives both soundness and completeness. |
| `CompetingPhases.SameSystemKept` | examples/functions/competing_phases.py:7 | `issubset` is not strict, so a record whose chemsys equals the entry's is kept. |
| `CompetingPhases.CompetingIsSubsequence` | examples/functions/competing_phases.py:5-9 | The result is the input read at strictly increasing positions, so relative order is preserved. Those positions are exactly the ones whose records compete. |
| `CompetingPhases.CompetingAppend` | examples/functions/competing_phases.py:6-8 | Filtering a concatenation gives the concatenation of the filtered parts. The loop decides each record on its own. |
| `CompetingPhases.CompetingIdempotent` | examples/functions/competing_phases.py:4-9 | Applying get_competing to its own result with the same entry changes nothing. |
| `CompetingPhases.BuildPhaseDiagrams` | examples/functions/competing_phases.py:13-19 | There is exactly one diagram per group of competing phases, in the same order. Diagram k is built from the entries (formula, energy, task_id) of group k. |
| `CompetingPhases.Zip` | examples/functions/competing_phases.py:23 | Pairing stops at the shorter list, so the pair count is min(len(structures), len(phase_diagrams)). Pair k holds structure k and diagram k. |
| `CompetingPhases.CollectDecompProducts` | examples/functions/competing_phases.py:22-26 | The collected list concatenates the product names of each zipped pair, taken pair by pair in order. |
| `CompetingPhases.CollectedMembership` | examples/functions/competing_phases.py:22-26 | A name is collected if and only if it names a decomposition product of some zipped pair. |
| `CompetingPhases.ListOfSet` | examples/functions/competing_phases.py:29 | `list(set(...))` gives a duplicate-free list with exactly the set's elements and the set's size. No order is promised. |
| `CompetingPhases.DistinctAtMostLength` | examples/functions/competing_phases.py:29 | Deduplicating never lengthens a list: a list has no more distinct elements than it has entries. |
| `CompetingPhases.GetDecompProductIds` | examples/functions/competing_phases.py:11-31 | The result has no duplicates. A name is in it if and only if, for some k below both len(structures) and len(competing_phases), it names a decomposition product of structure k on the diagram of group k. Its length is at most the number of names collected before deduplication. |
| `CompetingPhases.ProductNameIsTaskId` | examples/functions/competing_phases.py:16-17 | Suppose a decomposition is made of entries of the diagram it was asked of. Then each product name is the task_id of a record of the group that diagram was built from. |

## Left out

- Phase-diagram construction (`PhaseDiagram`) and `get_decomposition` are library calls with convex-hull geometry and floating-point energies. They are the parameters `build` and `decomp`, and their behaviour is not modelled.
- `build` and `decomp` are total functions, so the model never fails. The script aborts when `PhaseDiagram` or `get_decomposition` raises, for example on an empty group, on a group without entries for the pure elements, or on a composition outside the diagram. All diagrams are built before `zip` truncates, so a group that no structure is paired with can still abort the call. These error paths are not modelled.
- `ToPdEntry`: a `PDEntry` is modelled as a record that keeps the given composition string, energy and name unchanged. The library's own handling of these is not modelled, in particular its fallback to the reduced formula when the name is empty. `ProductNameIsTaskId` relies on the name being kept.
- `Composition(full_formula)` parsing is not modelled; the formula is kept as a string.
- The records are datatypes with every field present, so the `KeyError` that a dictionary missing `chemsys`, `full_formula`, `final_energy`, `task_id` or `structure` raises is not modelled.
- `new_struc['structure'].composition.element_composition` is a library computation on a structure object. It is folded into `decomp`.
- The `print` of the unique count (examples/functions/competing_phases.py:30) is output only.
- Python's `set` iteration order is not modelled. `ListOfSet` picks the elements in an arbitrary order, and its contract promises no order.
- Floating-point energies are kept as `real` values that are only carried along, never computed with.
- structure_predictor/structure_predictor.py and mascinto/structure_predictor/structure_predictor.py are not part of this model. They fan library calls out over a process pool and print reports. The first file is also incomplete (an empty function body and a missing colon).
- tools/copy_and_paste-able.py is not part of this model. It is a notebook display hook and a JSON encoder fallback, with no logic to state.
