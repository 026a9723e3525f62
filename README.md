# anvi'o auxiliary data storage, modelled in Dafny

This project models the storage layer of anvi'o in `anvio/auxiliarydataops.py`.
That layer writes a store once and then reads it many times. Each store is
versioned and identified by a hash.

- `HDF5_IO` (module `Hdf5Io`) opens or creates an HDF5 container. It rejects
  illegal flag combinations and stamps the root `version` and `hash`
  attributes when it creates a file. A read-only open checks both attributes
  against the client. The handle also reads and writes integer arrays by path.
  - `Identify` is the constructor's decision, written as a pure function.
  - `Hdf5File` is the open handle. Its `datasets` map is the file's
    path-addressed content.
- `AuxiliaryDataForNtPositions` (module `NtPositions`) keeps one 8-bit array
  per contig under `/data/nt_position_info/<contig>`. Its read is relaxed: an
  unknown contig yields an empty array.
- `AuxiliaryDataForSplitCoverages` (module `SplitCoverages`) is modelled only in
  its in-memory parts: which splits a handle works on, and the batch check of
  requested sample names.
- `GenomesDataStorage` (modules `GenomeRecords` and `GenomesStorage`) stores
  per-genome metadata under `/info/genomes/<genome>/<field>` and gene-call
  records under `/data/genomes/<genome>/<id>`. It derives three things:
  - the genomes dict, which holds each genome's metadata and gene lengths;
  - the combined amino-acid FASTA file, kept as a sequence of lines;
  - the deduplicated FASTA output, produced by a routine that is a parameter.

The class keeps the two trees as nested maps (`Info`, `Data`). Its writers
loop over keys, levels and sources. Each writer is proved against a
specification function in `GenomeRecords`, and the lemmas there state what
those functions mean.

Supporting modules:
- `Outcomes`: the error kinds, `Option`, `Result` and `Outcome`.
- `PyValues`: stored scalars, Python truthiness, and the `%d`/`%s` renderings
  used in FASTA deflines.
- `Collections`: numeric sorting of gene-caller ids, the by-name order in
  which HDF5 lists a group's members, dict key order, and the "missing names"
  comprehension.

Decisions:
- Writing a path that already holds data is rejected with `DuplicatePath`,
  never overwritten. The code has no guard of its own, but h5py's
  `create_dataset` and group assignment refuse an existing name.
- A write through a read-only handle fails with `ReadOnlyFile`.
- Python's `None` becomes `Option.None`. A stored value is never `None`; that
  is why `add_genome` stores `-1` in its place.
- Versions and hashes are strings, compared by equality.
- HDF5 lists a group's members in ascending name order. The model uses
  that order for `get_genome_names_in_db`.

Behaviour of the code that the model keeps:
- Append mode is legal only together with `create_new`. It follows the
  creation rules: it stamps a new identity and keeps the file's existing
  datasets.
- `AuxiliaryDataForNtPositions` does not forward `ignore_hash`, so its
  read-only open always checks the hash.
- `is_known_genome` returns `None`, not `True`, for a known genome. The
  duplicate guard in `add_genome` therefore never fires (see Findings).
- `check_sample_names` returns the last name it iterated, not the set (see
  Findings).
- A handle that creates a file never sets `unique_hash`, `genome_names` or
  `functions_are_available`.
  - The dict and FASTA operations of such a handle fail with
    `AttributeMissing`.
  - `get_gene_functions` on such a handle fails the same way.
- `functions_are_available` is read from the root attributes on open, but this
  file never writes it. It is a field fixed at construction. A file without
  the attribute fails the open with `KeyMissing`.
- `gen_combined_aa_sequences_FASTA` returns two values from the deduplicating
  routine: the unique FASTA path and the names dict. It returns no third
  value.
- `add_gene_call_data` does not check that the genome is registered under
  `/info/genomes`. h5py creates the genome's data group on the first write.
  The model's `AddGeneCallData` makes no such check either.
- `get_genome_names_in_db` fails with `PathNotFound` when no genome was ever
  registered, because the `/info/genomes` group does not exist yet.
- `get_genomes_dict` fails the same way for a genome that has no gene calls.

## Model

| member | source | states |
|---|---|---|
| Hdf5Io.Identify | anvio/auxiliarydataops.py:39-74 | append without create, ignore_hash on create, and a missing hash on create are each rejected, in that order; creation stamps the caller's hash and the client's version; a read-only open fails on a missing file, on any version mismatch whatever the hash, and on a hash mismatch exactly when the hash is not ignored; on success the exposed identity is the stored hash, not the argument |
| Hdf5Io.Hdf5File.Open | anvio/auxiliarydataops.py:33-74 | the handle fails exactly as `Identify` does; otherwise the identity it exposes, if any, is the stored hash, and it carries the stamped or checked attributes, is writable only when creating, and starts from an empty file ('w'), the existing file ('a'), or the stored datasets ('r') |
| Hdf5Io.Hdf5File.PathExists | anvio/auxiliarydataops.py:95-96 | true exactly when data is stored at the path |
| Hdf5Io.Hdf5File.GetIntegerList | anvio/auxiliarydataops.py:90-92 | returns the stored array exactly when the path exists, and fails otherwise |
| Hdf5Io.Hdf5File.AddIntegerList | anvio/auxiliarydataops.py:77-87 | a read-only handle or an existing path is refused; otherwise the array is stored and read back unchanged, in order, and no other path changes |
| NtPositions.ContigPathInjective | anvio/auxiliarydataops.py:200-205 | distinct contigs are stored at distinct paths |
| NtPositions.NtPositionStore.Open | anvio/auxiliarydataops.py:190-194 | the container open with only `create_new` forwarded, so a read-only open with a different hash always fails |
| NtPositions.NtPositionStore.IsKnownContig | anvio/auxiliarydataops.py:199-201 | true exactly when the contig's path holds an array |
| NtPositions.NtPositionStore.Append | anvio/auxiliarydataops.py:204-205 | stores a contig's codes once; afterwards the contig is known and `Get` returns the codes, and every other contig reads as before |
| NtPositions.NtPositionStore.Get | anvio/auxiliarydataops.py:208-212 | empty exactly when the contig is unknown, otherwise the stored array |
| SplitCoverages.ActiveSplits | anvio/auxiliarydataops.py:119-121 | a non-empty selection of splits becomes the active set; otherwise every split in the file does |
| SplitCoverages.ActiveSplitsUnchecked | anvio/auxiliarydataops.py:119-121 | a selected split the file does not hold is still active, so the selection is not checked against the file |
| SplitCoverages.SplitCoverageStore.constructor | anvio/auxiliarydataops.py:113-121 | the sample and split names are projected from the rows once; a new file has none; the active splits follow `ActiveSplits` |
| SplitCoverages.CheckSampleNames | anvio/auxiliarydataops.py:134-147 | an empty request yields every sample in the file; a non-empty request that is not a set fails; a set with unknown names fails with `UnknownSample`, listing every unknown name once and no others; otherwise the request's names are returned |
| SplitCoverages.CheckSampleNamesAsWritten | anvio/auxiliarydataops.py:139-145 | fails exactly as the corrected check does, but a validated non-empty request returns its last name |
| SplitCoverages.SampleBatchExample | anvio/auxiliarydataops.py:134-147 | a file that knows A and B, asked for {A, B, C}, fails naming C alone; asked for {A, B}, the corrected check returns the set and the code as written returns "B" |
| PyValues.NatToStringDigits | anvio/auxiliarydataops.py:408 | `%d` of a natural number is a non-empty run of digits, with no leading zero, that denotes the number |
| PyValues.IntToStringInjective | anvio/auxiliarydataops.py:408 | different gene-caller ids render differently |
| Collections.SortedIds | anvio/auxiliarydataops.py:397 | the ids come out strictly ascending, each once, exactly the ids of the set |
| Collections.SortedNames | anvio/auxiliarydataops.py:359 | the members of a group are listed each once, exactly the members |
| Collections.SortedNamesAscending | anvio/auxiliarydataops.py:359 | the listing is in strictly ascending name order |
| Collections.Dedup | anvio/auxiliarydataops.py:365-366 | dict keys filled in list order: no repeats, exactly the list's names |
| Collections.DedupOfDistinct | anvio/auxiliarydataops.py:365-366 | a list without repeats is its own key order |
| Collections.Missing | anvio/auxiliarydataops.py:253 | the requested names absent from the known ones, and only those |
| GenomeRecords.WriteFieldsKeeps | anvio/auxiliarydataops.py:347-351 | the field-writing loop keeps fields already in the group, and each new field holds the stored form of the caller's value for one of the keys |
| GenomeRecords.WriteFieldsPass | anvio/auxiliarydataops.py:347-351 | the loop completes exactly when the keys are distinct, all present in the caller's dict, and not already written |
| GenomeRecords.WriteFieldsContent | anvio/auxiliarydataops.py:347-351 | a completed loop leaves the former fields plus one stored value per key |
| GenomeRecords.WritePairsKeeps | anvio/auxiliarydataops.py:298-299 | the functions loop keeps annotations already in the group |
| GenomeRecords.WritePairsPass | anvio/auxiliarydataops.py:298-299 | the functions loop completes exactly when no source repeats and none is already written |
| GenomeRecords.WritePairsContent | anvio/auxiliarydataops.py:298-299 | a completed loop holds exactly one entry per supplied source, with its value |
| GenomeRecords.GeneCallMeaning | anvio/auxiliarydataops.py:287-299 | the record holds both sequences, length equal to the amino-acid sequence's length, and the partial flag; taxonomy is written only for a non-empty dict, each level holding its value or '' when falsy; there is one function entry per pair; the write completes exactly when the written levels are distinct and all given and no source repeats |
| GenomeRecords.GenomeNamesIn | anvio/auxiliarydataops.py:358-359 | the genome names are exactly those registered; with none registered the group is absent and the lookup fails |
| GenomeRecords.GenomeNamesOrdered | anvio/auxiliarydataops.py:358-359 | the registered names come in ascending name order |
| GenomeRecords.FocusGenomes | anvio/auxiliarydataops.py:252-264 | without a focus list, every stored name; with one, exactly the list when all of its names are stored; otherwise a failure listing every missing name |
| GenomeRecords.EntryOfMeaning | anvio/auxiliarydataops.py:366-377 | a genome's entry has its name unless a stored field overrides it, every stored field, and one length per gene call, keyed by id |
| GenomeRecords.DictSoFarOutcome | anvio/auxiliarydataops.py:365-377 | the dict is built exactly when every name has a metadata group and a gene-call group; a failure is a missing path |
| GenomeRecords.DictSoFarOrder | anvio/auxiliarydataops.py:365-366 | the dict's keys are the names without repeats, in first-occurrence order |
| GenomeRecords.DictSoFarEntries | anvio/auxiliarydataops.py:365-377 | each name maps to its genome's entry and nothing else is in the dict |
| GenomeRecords.GenomesDictMeaning | anvio/auxiliarydataops.py:362-379 | get_genomes_dict fails without genome names, or for a name lacking either group; otherwise it holds each name once, in order, with its entry |
| GenomeRecords.DictFailurePersists | anvio/auxiliarydataops.py:365-377 | a missing group ends the dict loop and later names do not change the failure |
| GenomeRecords.SentinelReported | anvio/auxiliarydataops.py:343-379 | a metadata field given as None is stored as -1, and the genomes dict reports -1 for it |
| GenomeRecords.HeaderInjective | anvio/auxiliarydataops.py:408 | within one genome, distinct gene calls get distinct deflines |
| GenomeRecords.CallsInOrderFacts | anvio/auxiliarydataops.py:396-400 | a genome's gene calls are visited once each, with their own records, in strictly ascending numeric id order |
| GenomeRecords.KeptMembers | anvio/auxiliarydataops.py:399-404 | exactly the calls not skipped as partial are written |
| GenomeRecords.KeptPlusSkipped | anvio/auxiliarydataops.py:399-411 | written plus excluded calls are all the calls, and nothing is excluded unless partial calls are |
| GenomeRecords.KeptAscending | anvio/auxiliarydataops.py:397-404 | skipping partial calls keeps the written ids ascending |
| GenomeRecords.RecordsSnoc | anvio/auxiliarydataops.py:406-409 | a newly written record comes after the ones already written |
| GenomeRecords.FastaLines | anvio/auxiliarydataops.py:408-409 | the output file has two lines per record: the defline, then the sequence |
| GenomeRecords.FastaLinesRoundTrip | anvio/auxiliarydataops.py:408-409 | the file's lines read back as exactly the written records, in order |
| GenomeRecords.CallsExportMeaning | anvio/auxiliarydataops.py:399-411 | one genome's loop fails exactly when it writes a record for a genome without a hash; otherwise it appends one `>{hash}_{id}` record per written call and adds the written and excluded counts |
| GenomeRecords.CallsExportStep | anvio/auxiliarydataops.py:399-411 | one more call is counted as excluded, written as a record, or, written without a genome hash, ends the loop with a failure |
| GenomeRecords.CallsFailurePersists | anvio/auxiliarydataops.py:399-411 | a failed call ends the per-genome loop |
| GenomeRecords.GenomeExportShape | anvio/auxiliarydataops.py:392-413 | a genome's records are the non-partial (or all) calls in ascending id order, each a defline and its amino-acid sequence, after the records already written; emitted plus excluded grows by the genome's number of calls |
| GenomeRecords.ExportOfSnoc | anvio/auxiliarydataops.py:392-413 | each genome continues the file and the counters from the genomes before it |
| GenomeRecords.ExportTotals | anvio/auxiliarydataops.py:385-413 | across genomes, the emitted count equals the records written, and emitted plus excluded equals the total number of gene calls |
| GenomeRecords.ExportFailurePersists | anvio/auxiliarydataops.py:392-413 | a failure in one genome is the failure of the whole export |
| GenomeRecords.CombinedFastaTotals | anvio/auxiliarydataops.py:382-413 | a successful export writes one record per emitted call, and emitted plus excluded equals the total number of gene calls of the active genomes |
| GenomeRecords.SortedIdsExample | anvio/auxiliarydataops.py:397 | ids 3, 1, 2 are visited as 1, 2, 3 |
| GenomeRecords.ExampleCallsInOrder | anvio/auxiliarydataops.py:396-397 | the example genome's calls are visited by ascending id, not insertion order |
| GenomeRecords.KeptUnrolled | anvio/auxiliarydataops.py:399-404 | of calls with partial flags [0, 1, 0], the middle one is skipped when partial calls are excluded and kept otherwise |
| GenomeRecords.AscendingExportExample | anvio/auxiliarydataops.py:396-411 | a genome with calls 3, 1, 2 exports `>h_1`, `>h_2`, `>h_3` in that order, with 3 emitted and 0 excluded |
| GenomeRecords.PartialExclusionExample | anvio/auxiliarydataops.py:399-411 | with partial flags [0, 1, 0] and exclusion on, exactly 2 records are written and 1 call is excluded |
| GenomesStorage.TaxonLevels | anvio/auxiliarydataops.py:295 | the taxonomy levels are the taxon table's columns after the first |
| GenomesStorage.OpenedGenomeNames | anvio/auxiliarydataops.py:249-264 | on open, the names are every registered genome, or exactly a focus list all of whose names are registered; a focus list with unknown names fails; no registered genome fails |
| GenomesStorage.KnownGenomeAsWritten | anvio/auxiliarydataops.py:274-279 | the presence test as written: None for a known genome, False or a failure for an unknown one, never True |
| GenomesStorage.AddGenomeAsWritten | anvio/auxiliarydataops.py:343-351 | add_genome as written fails only where the field loop fails, because the duplicate guard never fires |
| GenomesStorage.ReAddGenomeExample | anvio/auxiliarydataops.py:343-351 | a genome whose metadata group holds a field outside the key list, re-registered with that key list, is accepted and the fields merge; a handle alone cannot reach this, because its key list is fixed at construction |
| GenomesStorage.ReAddGenomeFailsOnPath | anvio/auxiliarydataops.py:343-351 | re-registering, with the same key list, a genome that a completed registration left behind fails on the first key's path, not as a duplicate genome, and changes nothing |
| GenomesStorage.ReAddSameFieldsExample | anvio/auxiliarydataops.py:343-351 | re-registering a genome with the same fields fails on the field's path, not as a duplicate genome |
| GenomesStorage.GenomesDataStorage.Open | anvio/auxiliarydataops.py:233-267 | identity check first; a creating handle starts empty with no genome names and no functions flag; a read-only handle takes the stored trees, the focused genome names and the stored functions flag, and fails when the focus list is invalid or the flag is absent |
| GenomesStorage.GenomesDataStorage.IsKnownGenome | anvio/auxiliarydataops.py:274-279 | true exactly for a registered genome; when asked to raise, an unknown genome fails instead |
| GenomesStorage.GenomesDataStorage.IsKnownGeneCall | anvio/auxiliarydataops.py:282-284 | passes exactly when the gene call is stored under the genome, and fails otherwise |
| GenomesStorage.GenomesDataStorage.IsPartialGeneCall | anvio/auxiliarydataops.py:302-308 | an unknown genome fails first, then an unknown call; otherwise the stored partial flag |
| GenomesStorage.GenomesDataStorage.GetGeneSequence | anvio/auxiliarydataops.py:311-322 | an unknown genome or gene call fails; otherwise the amino-acid sequence by default and the DNA sequence when asked |
| GenomesStorage.GenomesDataStorage.GetGeneFunctions | anvio/auxiliarydataops.py:325-340 | fails unless the storage has functions; an absent gene call fails; otherwise the call's annotations by source, empty when none were stored |
| GenomesStorage.GenomesDataStorage.GetStorageHash | anvio/auxiliarydataops.py:354-355 | the root `hash` attribute; for a handle opened through `Open` that exposes an identity, that identity is this hash |
| GenomesStorage.GenomesDataStorage.AddGenome | anvio/auxiliarydataops.py:343-351 | a registered genome is refused as a duplicate; otherwise one field is written per essential key, None stored as -1 and every other value verbatim; it completes exactly when the keys are distinct and all given, and no other genome changes |
| GenomesStorage.GenomesDataStorage.AddGeneCallData | anvio/auxiliarydataops.py:287-299 | a new record whose stored length is the amino-acid sequence's length; afterwards the sequences, the partial flag and every supplied function read back; other genomes are unchanged; an existing call is refused |
| GenomesStorage.GenomesDataStorage.GetGenomesDict | anvio/auxiliarydataops.py:362-379 | the loop builds exactly the genomes dict specified by `GenomesDictOf` |
| GenomesStorage.GenomesDataStorage.GenCombinedAaSequencesFasta | anvio/auxiliarydataops.py:382-426 | the export writes exactly the records and counts specified by `CombinedFasta` and returns what the deduplicating routine makes of the file's lines |
| GenomesStorage.ExportGenomes | anvio/auxiliarydataops.py:392-413 | the loop over the dict's genomes equals `ExportOf` over its key order |
| GenomesStorage.StoreFields | anvio/auxiliarydataops.py:294-296 | the taxonomy loop equals `WriteFields` into an empty group |
| GenomesStorage.StorePairs | anvio/auxiliarydataops.py:298-299 | the functions loop equals `WritePairs` into an empty group |
| GenomesStorage.GenomeEntryFor | anvio/auxiliarydataops.py:366-377 | one genome's dict entry equals `EntryOf` |
| GenomesStorage.NamedFields | anvio/auxiliarydataops.py:367-371 | the entry is the name, overwritten by each stored field, in whatever order HDF5 lists them |
| GenomesStorage.ExportGenome | anvio/auxiliarydataops.py:396-411 | one genome's part of the export equals `GenomeExport` |
| GenomesStorage.ExportCalls | anvio/auxiliarydataops.py:399-411 | the loop over a genome's sorted calls equals `CallsExport` |

## Left out

- Hdf5Io.Hdf5File.AddIntegerList: requires every value to fit the element type (uint16 by default). numpy's conversion of values out of that range is not modelled.
- NtPositions.NtPositionStore.Append: requires every code to fit in 8 bits, for the same reason.
- h5py and numpy details are not modelled: gzip compression, dtype encoding, `.value` access, and decoding attributes stored as bytes.
- Hdf5Io.Hdf5File.PathExists: paths are flat keys of one map, with no groups. h5py's `path in fp` is also true for a group, that is a proper prefix of a stored path, and the model answers false there. Paths are not normalised either, so 'a' and '/a' are different keys.
- Hdf5Io.Hdf5File.AddIntegerList: refuses only a write to a path that is itself stored. h5py also refuses a write over a group or under a stored dataset, and the model accepts both.
- A genomes storage keeps its two trees in `info` and `data`, outside its container's `datasets`. So the container's `datasets` never shows `/info` or `/data`.
- Each container image always carries both root attributes. A file without `version` or `hash` raises a KeyError when it is opened (lines 58-59), and the model cannot represent such a file.
- GenomeRecords.FocusGenomes: a focus list naming unknown genomes fails with `UnknownGenome`, listing every missing name. The code fails too, but its message refers to `self.genomes`, which is never defined, so Python raises an AttributeError instead (line 262).
- `close()` of every store is not modelled. It only releases the file handle.
- `AuxiliaryDataForSplitCoverages` is left out except for its split selection and `check_sample_names`:
  - `create_tables` and `append` write to the relational backend, and `create_tables` records `time.time()`.
  - `get` and `get_all` call methods the class never defines (`is_known_split`, `get_integer_list`), and `get_all` indexes a set.
- The relational backend `db.DB` is not modelled. The split store's constructor receives the key columns of its rows as a parameter.
- `is_file_exists` is not modelled. The file on disk is an `Option` value given to each `Open`, and `None` means no file.
- Opening the output file is not modelled, and neither is writing text to it. The export produces the file's lines.
- `utils.unique_FASTA_file` is a function parameter of `GenCombinedAaSequencesFasta`. Its deduplication is not modelled.
- `constants.essential_genome_info` and `t.taxon_names_table_structure` are parameters of `GenomesDataStorage.Open`, because their contents are not part of this model.
- Progress reporting, `run.info` logging and the texts of the error messages are not modelled. Errors are kinds.
- Python set iteration order is not modelled. A set-valued request carries its elements in the order it is iterated.

## Findings

| source | as written | input that shows it | evidently intended | confidence | as-written member | corrected member |
|---|---|---|---|---|---|---|
| anvio/auxiliarydataops.py:274-279 | `is_known_genome` returns None for a known genome, so the duplicate guard of `add_genome` at line 344 never fires | `add_genome('g', …)` for a genome 'g' already registered through the same handle fails on the first field's path (`h5py` refuses the existing name), not as a duplicate genome; a caller that wrote other fields under `/info/genomes/g` directly would see the fields merge | a second registration is refused as a duplicate genome and changes nothing | not executed; high | GenomesStorage.ReAddGenomeFailsOnPath | GenomesStorage.GenomesDataStorage.AddGenome |
| anvio/auxiliarydataops.py:139-145 | `check_sample_names` returns the loop variable `sample_name` for a non-empty request | the set {'A', 'B'} on a file that knows A and B returns 'B' | the validated set of names is returned | not executed; high | SplitCoverages.CheckSampleNamesAsWritten | SplitCoverages.CheckSampleNames |
