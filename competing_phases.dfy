/** A model of the two helpers of examples/functions/competing_phases.py:
    get_competing, which keeps the phase records whose chemical system lies inside a
    candidate's, and get_decomp_product_ids, which builds one phase diagram per group of
    competing phases, pairs structures with diagrams as Python's zip does, collects the
    names of the decomposition products and removes duplicates.

    The phase-diagram library is not modelled: building a diagram and asking it for the
    decomposition of a structure are function parameters (`build`, `decomp`). */
module CompetingPhases {

  /** A phase record as the scripts read it from a dictionary: `task_id`, `chemsys` (the
      set of element symbols), `full_formula` and `final_energy`. */
  datatype PhaseRecord = PhaseRecord(taskId: string, chemsys: set<string>, fullFormula: string, finalEnergy: real)

  /** A phase-diagram entry as the script builds it: a composition (kept as the formula
      it is parsed from), an energy and a name. */
  datatype PdEntry = PdEntry(composition: string, energy: real, name: string)

  /** No element occurs twice. */
  predicate NoDuplicates<T(==)>(s: seq<T>) {
    forall i, j :: 0 <= i < j < |s| ==> s[i] != s[j]
  }

  /** `idx` lists, in strictly increasing order, positions of `s` whose elements, read in
      that order, are `r`: `r` is a subsequence of `s`. */
  ghost predicate SelectsAt<T>(r: seq<T>, s: seq<T>, idx: seq<nat>) {
    && |idx| == |r|
    && (forall k :: 0 <= k < |idx| ==> idx[k] < |s| && r[k] == s[idx[k]])
    && (forall i, j :: 0 <= i < j < |idx| ==> idx[i] < idx[j])
  }

  // ---------------------------------------------------------------------------
  // get_competing

  /** The test of the loop in get_competing: the phase's chemical system is a (not
      necessarily proper) subset of the candidate's. */
  predicate Competes(entry: PhaseRecord, phase: PhaseRecord) {
    phase.chemsys <= entry.chemsys
  }

  /** The records of `phases` that compete with `entry`, in their order. Defined by
      recursion on the last record, the order in which the loop appends. */
  function Competing(entry: PhaseRecord, phases: seq<PhaseRecord>): (r: seq<PhaseRecord>)
    ensures |r| <= |phases|
  {
    if phases == [] then []
    else
      var last := phases[|phases| - 1];
      Competing(entry, phases[..|phases| - 1]) + (if Competes(entry, last) then [last] else [])
  }

  /** The positions of the records of `phases` that compete with `entry`. */
  ghost function Positions(entry: PhaseRecord, phases: seq<PhaseRecord>): seq<nat> {
    if phases == [] then []
    else
      var n := |phases| - 1;
      Positions(entry, phases[..n]) + (if Competes(entry, phases[n]) then [n] else [])
  }

  /** get_competing: walks the list once and appends each record that competes. */
  method GetCompeting(entry: PhaseRecord, competingList: seq<PhaseRecord>) returns (competingPhases: seq<PhaseRecord>)
    ensures competingPhases == Competing(entry, competingList)
  {
    competingPhases := [];
    for i := 0 to |competingList|
      invariant competingPhases == Competing(entry, competingList[..i])
    {
      assert competingList[..i + 1][..i] == competingList[..i];
      if Competes(entry, competingList[i]) {
        competingPhases := competingPhases + [competingList[i]];
      }
    }
    assert competingList[..|competingList|] == competingList;
  }

  /** Filtering a concatenation filters each part. */
  lemma {:induction false} CompetingAppend(entry: PhaseRecord, s: seq<PhaseRecord>, t: seq<PhaseRecord>)
    ensures Competing(entry, s + t) == Competing(entry, s) + Competing(entry, t)
  {
    if t == [] {
      assert s + t == s;
    } else {
      var n := |t| - 1;
      assert (s + t)[..|s + t| - 1] == s + t[..n];
      assert (s + t)[|s + t| - 1] == t[n];
      CompetingAppend(entry, s, t[..n]);
    }
  }

  /** Each record occurs in the result exactly as often as in the input when it competes,
      and not at all otherwise: duplicates are kept, nothing else is added. */
  lemma {:induction false} CompetingMultiplicity(entry: PhaseRecord, phases: seq<PhaseRecord>, x: PhaseRecord)
    ensures multiset(Competing(entry, phases))[x] == if Competes(entry, x) then multiset(phases)[x] else 0
  {
    if phases != [] {
      var n := |phases| - 1;
      assert phases == phases[..n] + [phases[n]];
      CompetingMultiplicity(entry, phases[..n], x);
    }
  }

  /** Soundness and completeness: a record is kept if and only if it is in the list and its
      chemical system is a subset of the candidate's. */
  lemma {:induction false} CompetingMembership(entry: PhaseRecord, phases: seq<PhaseRecord>, x: PhaseRecord)
    ensures x in Competing(entry, phases) <==> x in phases && x.chemsys <= entry.chemsys
  {
    CompetingMultiplicity(entry, phases, x);
    assert x in Competing(entry, phases) <==> multiset(Competing(entry, phases))[x] > 0;
    assert x in phases <==> multiset(phases)[x] > 0;
  }

  /** The subset test is not strict: a record with the candidate's own chemical system is kept. */
  lemma {:induction false} SameSystemKept(entry: PhaseRecord, phases: seq<PhaseRecord>, x: PhaseRecord)
    requires x in phases && x.chemsys == entry.chemsys
    ensures x in Competing(entry, phases)
  {
    CompetingMembership(entry, phases, x);
  }

  /** Order is preserved: the result is the input read at the increasing positions of
      exactly the competing records. */
  lemma {:induction false} CompetingIsSubsequence(entry: PhaseRecord, phases: seq<PhaseRecord>)
    ensures SelectsAt(Competing(entry, phases), phases, Positions(entry, phases))
    ensures forall j :: 0 <= j < |phases| ==> (j in Positions(entry, phases) <==> Competes(entry, phases[j]))
  {
    if phases != [] {
      var n := |phases| - 1;
      var pre := phases[..n];
      CompetingIsSubsequence(entry, pre);
      var r, idx := Competing(entry, phases), Positions(entry, phases);
      var r', idx' := Competing(entry, pre), Positions(entry, pre);
      assert forall k :: 0 <= k < |idx'| ==> idx'[k] < n && r'[k] == phases[idx'[k]];
      forall j | 0 <= j < |phases|
        ensures j in idx <==> Competes(entry, phases[j])
      {
        if j < n {
          assert phases[j] == pre[j];
        }
      }
    }
  }

  /** Filtering twice is filtering once. */
  lemma {:induction false} CompetingIdempotent(entry: PhaseRecord, phases: seq<PhaseRecord>)
    ensures Competing(entry, Competing(entry, phases)) == Competing(entry, phases)
  {
    if phases != [] {
      var n := |phases| - 1;
      var last := phases[n];
      var tail := if Competes(entry, last) then [last] else [];
      CompetingIdempotent(entry, phases[..n]);
      CompetingAppend(entry, Competing(entry, phases[..n]), tail);
      if tail != [] {
        assert tail[..0] == [];
      }
    }
  }

  // ---------------------------------------------------------------------------
  // get_decomp_product_ids

  /** The phase-diagram entry built from one competing record. */
  function ToPdEntry(r: PhaseRecord): PdEntry {
    PdEntry(r.fullFormula, r.finalEnergy, r.taskId)
  }

  /** The entries of one group of competing phases, in order. */
  function PdEntries(competing: seq<PhaseRecord>): seq<PdEntry> {
    seq(|competing|, k requires 0 <= k < |competing| => ToPdEntry(competing[k]))
  }

  /** One diagram per group, built from the group's entries. */
  function Diagrams<D>(competingPhases: seq<seq<PhaseRecord>>, build: seq<PdEntry> -> D): seq<D> {
    seq(|competingPhases|, k requires 0 <= k < |competingPhases| => build(PdEntries(competingPhases[k])))
  }

  /** The names of a list of entries, in order. */
  function Names(products: seq<PdEntry>): seq<string> {
    seq(|products|, k requires 0 <= k < |products| => products[k].name)
  }

  /** Python's zip of two lists: pairs by position and stops at the end of the shorter one. */
  function Zip<A, B>(xs: seq<A>, ys: seq<B>): (r: seq<(A, B)>)
    ensures |r| == if |xs| <= |ys| then |xs| else |ys|
    ensures forall k :: 0 <= k < |r| ==> r[k] == (xs[k], ys[k])
  {
    if xs == [] || ys == [] then [] else [(xs[0], ys[0])] + Zip(xs[1..], ys[1..])
  }

  /** The product names of every pair, concatenated in the order of the pairs. */
  function Collected<S, D>(pairs: seq<(S, D)>, decomp: (S, D) -> seq<PdEntry>): seq<string> {
    if pairs == [] then []
    else
      var last := pairs[|pairs| - 1];
      Collected(pairs[..|pairs| - 1], decomp) + Names(decomp(last.0, last.1))
  }

  /** A name is collected if and only if it names a product of some pair. */
  lemma {:induction false} CollectedMembership<S, D>(pairs: seq<(S, D)>, decomp: (S, D) -> seq<PdEntry>, name: string)
    ensures name in Collected(pairs, decomp) <==> exists k :: 0 <= k < |pairs| && name in Names(decomp(pairs[k].0, pairs[k].1))
  {
    if pairs != [] {
      var n := |pairs| - 1;
      var pre := pairs[..n];
      CollectedMembership(pre, decomp, name);
      if name in Collected(pairs, decomp) {
        if name !in Collected(pre, decomp) {
          assert name in Names(decomp(pairs[n].0, pairs[n].1));
        } else {
          var k :| 0 <= k < |pre| && name in Names(decomp(pre[k].0, pre[k].1));
          assert pairs[k] == pre[k];
        }
      } else {
        forall k | 0 <= k < |pairs|
          ensures name !in Names(decomp(pairs[k].0, pairs[k].1))
        {
          if k < n {
            assert pairs[k] == pre[k];
          }
        }
      }
    }
  }

  /** The first step of get_decomp_product_ids: one diagram per group of competing
      phases, in the same order. */
  method BuildPhaseDiagrams<D>(competingPhases: seq<seq<PhaseRecord>>, build: seq<PdEntry> -> D) returns (phaseDiagrams: seq<D>)
    ensures |phaseDiagrams| == |competingPhases|
    ensures forall k :: 0 <= k < |competingPhases| ==> phaseDiagrams[k] == build(PdEntries(competingPhases[k]))
  {
    phaseDiagrams := [];
    for i := 0 to |competingPhases|
      invariant |phaseDiagrams| == i
      invariant forall k :: 0 <= k < i ==> phaseDiagrams[k] == build(PdEntries(competingPhases[k]))
    {
      var entries := PdEntries(competingPhases[i]);
      var pd := build(entries);
      phaseDiagrams := phaseDiagrams + [pd];
    }
  }

  /** The second step of get_decomp_product_ids: the product names of every
      (structure, diagram) pair, one pair after the other. */
  method CollectDecompProducts<S, D>(structures: seq<S>, phaseDiagrams: seq<D>, decomp: (S, D) -> seq<PdEntry>)
    returns (allDecompProds: seq<string>)
    ensures allDecompProds == Collected(Zip(structures, phaseDiagrams), decomp)
  {
    var pairs := Zip(structures, phaseDiagrams);
    allDecompProds := [];
    for i := 0 to |pairs|
      invariant allDecompProds == Collected(pairs[..i], decomp)
    {
      assert pairs[..i + 1][..i] == pairs[..i];
      var (newStruc, pd) := pairs[i];
      var decompProds := decomp(newStruc, pd);
      allDecompProds := allDecompProds + Names(decompProds);
    }
    assert pairs[..|pairs|] == pairs;
  }

  /** A list holding every element of a set once, in an order the set leaves open, as
      Python's list(set(...)) does. */
  method ListOfSet(s: set<string>) returns (r: seq<string>)
    ensures NoDuplicates(r)
    ensures forall x :: x in r <==> x in s
    ensures |r| == |s|
  {
    r := [];
    var rest := s;
    while rest != {}
      invariant rest <= s
      invariant NoDuplicates(r)
      invariant forall x :: x in r <==> x in s && x !in rest
      invariant |r| + |rest| == |s|
      decreases |rest|
    {
      var x :| x in rest;
      r := r + [x];
      rest := rest - {x};
    }
  }

  /** A sequence has no more distinct elements than it has positions. */
  lemma {:induction false} DistinctAtMostLength(xs: seq<string>)
    ensures |set x | x in xs| <= |xs|
  {
    if xs != [] {
      var n := |xs| - 1;
      DistinctAtMostLength(xs[..n]);
      assert (set x | x in xs) == (set x | x in xs[..n]) + {xs[n]} by {
        assert xs == xs[..n] + [xs[n]];
      }
    }
  }

  /** `name` names a decomposition product of structure k on the diagram of group k, for
      some k that both lists reach. */
  predicate IsPairedProduct<S, D>(
    name: string,
    structures: seq<S>,
    competingPhases: seq<seq<PhaseRecord>>,
    build: seq<PdEntry> -> D,
    decomp: (S, D) -> seq<PdEntry>)
  {
    exists k :: 0 <= k < |structures| && k < |competingPhases| &&
      name in Names(decomp(structures[k], build(PdEntries(competingPhases[k]))))
  }

  /** get_decomp_product_ids: the names of the decomposition products of the first
      min(|structures|, |competingPhases|) structures, structure k against the diagram of
      group k, without duplicates and in no promised order. */
  method GetDecompProductIds<S, D>(
    structures: seq<S>,
    competingPhases: seq<seq<PhaseRecord>>,
    build: seq<PdEntry> -> D,
    decomp: (S, D) -> seq<PdEntry>)
    returns (ids: seq<string>)
    ensures NoDuplicates(ids)
    ensures forall name :: name in ids <==> IsPairedProduct(name, structures, competingPhases, build, decomp)
    ensures |ids| <= |Collected(Zip(structures, Diagrams(competingPhases, build)), decomp)|
  {
    var phaseDiagrams := BuildPhaseDiagrams(competingPhases, build);
    assert phaseDiagrams == Diagrams(competingPhases, build);
    var allDecompProds := CollectDecompProducts(structures, phaseDiagrams, decomp);
    var unique := set x | x in allDecompProds;
    ids := ListOfSet(unique);
    DistinctAtMostLength(allDecompProds);
    var pairs := Zip(structures, phaseDiagrams);
    forall name
      ensures name in ids <==> IsPairedProduct(name, structures, competingPhases, build, decomp)
    {
      CollectedMembership(pairs, decomp, name);
      if name in ids {
        var k :| 0 <= k < |pairs| && name in Names(decomp(pairs[k].0, pairs[k].1));
        assert pairs[k] == (structures[k], phaseDiagrams[k]);
      }
      if IsPairedProduct(name, structures, competingPhases, build, decomp) {
        var k :| 0 <= k < |structures| && k < |competingPhases| &&
          name in Names(decomp(structures[k], build(PdEntries(competingPhases[k]))));
        assert pairs[k] == (structures[k], phaseDiagrams[k]);
      }
    }
  }

  /** The returned names are task ids: when the decomposition of a structure is made of
      entries of the diagram it is asked of, each product name is the task_id of a record
      of the group that diagram was built from. */
  lemma ProductNameIsTaskId<S, D>(
    structure: S,
    competing: seq<PhaseRecord>,
    build: seq<PdEntry> -> D,
    decomp: (S, D) -> seq<PdEntry>,
    name: string)
    requires forall p :: p in decomp(structure, build(PdEntries(competing))) ==> p in PdEntries(competing)
    requires name in Names(decomp(structure, build(PdEntries(competing))))
    ensures exists r :: r in competing && r.taskId == name
  {
    var products := decomp(structure, build(PdEntries(competing)));
    var j :| 0 <= j < |products| && products[j].name == name;
    assert products[j] in PdEntries(competing);
    var m :| 0 <= m < |competing| && PdEntries(competing)[m] == products[j];
    assert competing[m] in competing;
  }
}
