/** The in-memory part of AuxiliaryDataForSplitCoverages: which splits a
    handle works on, and the batch validation of requested sample names. The
    relational file behind it (rows of split, sample and encoded coverage) is
    represented only by the key columns read when the handle is opened. */
module SplitCoverages {
  import opened Outcomes
  import opened Collections

  /** A sample-name argument: a Python set, or any other collection; `elems`
      is the order iteration visits the elements in. */
  datatype Request = PySet(elems: seq<string>) | PyList(elems: seq<string>)

  /** A Python set holds each element once. */
  predicate WellFormed(req: Request)
  {
    req.PySet? ==> NoDuplicates(req.elems)
  }

  /** What `check_sample_names` hands back as written: a set of names, or a
      single name. */
  datatype Answer = Names(names: set<string>) | LastName(name: string)

  /** `split_names_of_interest or split_names_in_db`: a non-empty selection
      wins and is not checked against the file. */
  function ActiveSplits(ofInterest: seq<string>, inDb: set<string>): (r: set<string>)
    ensures ofInterest != [] ==> forall s :: s in r <==> s in ofInterest
    ensures ofInterest == [] ==> r == inDb
  {
    if ofInterest != [] then set s | s in ofInterest else inDb
  }

  /** The selection is taken as given, even names the file does not hold. */
  lemma ActiveSplitsUnchecked(inDb: set<string>, s: string)
    requires s !in inDb
    ensures s in ActiveSplits([s], inDb) && !(ActiveSplits([s], inDb) <= inDb)
  {
  }

  class SplitCoverageStore {
    const sampleNamesInDb: set<string>
    const splitNamesInDb: set<string>
    const splitNames: set<string>

    /** The constructor after the database is opened: `keys` is the
        (split, sample) column pair of every row, read once; a new file has
        no rows yet. */
    constructor (keys: seq<(string, string)>, splitNamesOfInterest: seq<string>, createNew: bool)
      ensures createNew ==> sampleNamesInDb == {} && splitNamesInDb == {}
      ensures !createNew ==> sampleNamesInDb == (set k | k in keys :: k.1)
      ensures !createNew ==> splitNamesInDb == (set k | k in keys :: k.0)
      ensures splitNames == ActiveSplits(splitNamesOfInterest, splitNamesInDb)
    {
      sampleNamesInDb := if createNew then {} else set k | k in keys :: k.1;
      splitNamesInDb := if createNew then {} else set k | k in keys :: k.0;
      splitNames := ActiveSplits(splitNamesOfInterest, if createNew then {} else set k | k in keys :: k.0);
    }
  }

  /** check_sample_names with its evident intent: an empty request means
      every sample in the file; a non-empty one must be a set of known
      names, and a failure names every unknown one at once. */
  function CheckSampleNames(req: Request, sampleNamesInDb: set<string>): (r: Result<set<string>>)
    requires WellFormed(req)
    ensures req.elems == [] ==> r == Ok(sampleNamesInDb)
    ensures req.elems != [] && req.PyList? ==> r == Err(NotASet)
    ensures req.elems != [] && req.PySet? ==>
              (r.Ok? <==> forall x :: x in req.elems ==> x in sampleNamesInDb)
    ensures req.elems != [] && r.Ok? ==> r.value == set x | x in req.elems
    // a set naming unknown samples fails listing every one of them, once
    ensures req.elems != [] && req.PySet? && r.Err? ==>
              && r.error.UnknownSample?
              && (forall x :: x in r.error.missing <==> x in req.elems && x !in sampleNamesInDb)
              && NoDuplicates(r.error.missing)
    ensures r.Err? && r.error.UnknownSample? ==> req.PySet? && r.error.missing != []
  {
    if req.elems == [] then Ok(sampleNamesInDb)
    else if req.PyList? then Err(NotASet)
    else
      var missing := Missing(req.elems, sampleNamesInDb);
      if missing != [] then
        assert missing[0] in req.elems && missing[0] !in sampleNamesInDb;
        Err(UnknownSample(missing))
      else Ok(set x | x in req.elems)
  }

  /** check_sample_names as written: after validating a non-empty request
      it returns the loop variable, the last name iterated, not the set. */
  function CheckSampleNamesAsWritten(req: Request, sampleNamesInDb: set<string>): (r: Result<Answer>)
    requires WellFormed(req)
    ensures req.elems == [] ==> r == Ok(Names(sampleNamesInDb))
    ensures req.elems != [] && r.Ok? ==> r == Ok(LastName(req.elems[|req.elems| - 1]))
    ensures r.Err? <==> CheckSampleNames(req, sampleNamesInDb).Err?
    ensures r.Err? ==> r.error == CheckSampleNames(req, sampleNamesInDb).error
  {
    if req.elems == [] then Ok(Names(sampleNamesInDb))
    else if req.PyList? then Err(NotASet)
    else
      var missing := Missing(req.elems, sampleNamesInDb);
      if missing != [] then Err(UnknownSample(missing))
      else Ok(LastName(req.elems[|req.elems| - 1]))
  }

  /** The worked case: a file knowing samples A and B, asked for {A, B, C},
      fails naming C alone; asked for {A, B} the evident intent returns the
      set, where the code as written returns the name B. */
  lemma SampleBatchExample()
    ensures CheckSampleNames(PySet(["A", "B", "C"]), {"A", "B"}) == Err(UnknownSample(["C"]))
    ensures CheckSampleNames(PySet(["A", "B"]), {"A", "B"}) == Ok({"A", "B"})
    ensures CheckSampleNamesAsWritten(PySet(["A", "B"]), {"A", "B"}) == Ok(LastName("B"))
  {
    assert NoDuplicates(["A", "B", "C"]) && NoDuplicates(["A", "B"]);
    assert Missing(["A", "B", "C"], {"A", "B"}) == ["C"] by {
      assert ["A", "B", "C"][1..] == ["B", "C"];
      assert ["B", "C"][1..] == ["C"];
      assert ["C"][1..] == [];
    }
    assert (set x | x in ["A", "B"]) == {"A", "B"};
  }
}
