/** GenomesDataStorage: the HDF5 container of a pangenome, holding per-genome
    metadata under `/info/genomes/<genome>` and per-gene-call records under
    `/data/genomes/<genome>/<id>`. The handle keeps the container's identity
    (an Hdf5File whose own datasets are unused here) and the two trees as
    maps that its writers update. */
module GenomesStorage {
  import opened Outcomes
  import opened PyValues
  import opened Collections
  import opened Hdf5Io
  import opened GenomeRecords

  /** A genomes storage file as it sits on disk: its root attributes, the
      `functions_are_available` attribute if it was ever set, and its two
      trees. */
  datatype StoredGenomes = StoredGenomes(attrs: Attrs, functionsAreAvailable: Option<bool>, info: Info, data: Data)

  function ImageOf(onDisk: Option<StoredGenomes>): Option<Image>
  {
    if onDisk.Some? then Some(Image(onDisk.value.attrs, map[])) else None
  }

  /** The metadata fields every genome carries beyond the caller's list. */
  const ExtraGenomeInfo: seq<string> := ["genome_hash", "external_genome"]

  /** The taxonomy levels of a gene call: the taxon table's columns after
      the first (the gene-call id column). */
  function TaxonLevels(structure: seq<string>): (r: seq<string>)
    ensures structure != [] ==> r == structure[1..]
    ensures |r| == if structure == [] then 0 else |structure| - 1
  {
    if structure == [] then [] else structure[1..]
  }

  /** The genome names a read-only handle settles on when it opens: the
      stored ones, narrowed to a non-empty focus list. */
  function OpenedGenomeNames(info: Info, focus: seq<string>): (r: Result<seq<string>>)
    ensures info == map[] ==> r == Err(PathNotFound)
    ensures r.Ok? ==> forall g :: g in r.value ==> g in info
    ensures r.Ok? && focus == [] ==> forall g :: g in r.value <==> g in info
    ensures r.Ok? && focus != [] ==> r.value == focus
    ensures info != map[] && focus != [] ==> (r.Ok? <==> forall g :: g in focus ==> g in info)
  {
    var inDb := GenomeNamesIn(info);
    if inDb.Err? then Err(inDb.error) else FocusGenomes(focus, inDb.value)
  }

  /** The genome presence test as written: it answers False only when asked
      not to raise, and otherwise falls off its end, returning None for a
      known genome. */
  function KnownGenomeAsWritten(info: Info, genome: string, throw: bool): (r: Result<Option<bool>>)
    ensures genome in info ==> r == Ok(None)
    ensures genome !in info && throw ==> r == Err(UnknownGenome([genome]))
    ensures genome !in info && !throw ==> r == Ok(Some(false))
    ensures r != Ok(Some(true))
  {
    if genome !in info then
      if throw then Err(UnknownGenome([genome])) else Ok(Some(false))
    else Ok(None)
  }

  datatype InfoWritten = InfoWritten(outcome: Outcome, info: Info)

  /** add_genome as written. Its duplicate guard tests the presence test's
      result, which is never true, so a second registration goes on to write
      into the existing metadata group, failing only at a field already
      there. */
  function AddGenomeAsWritten(info: Info, genome: string, keys: seq<string>, d: map<string, Option<Value>>): (r: InfoWritten)
    ensures var existing := if genome in info then info[genome] else map[];
            r.outcome == WriteFields(keys, d, GenomeField, existing).outcome
  {
    var existing := if genome in info then info[genome] else map[];
    if KnownGenomeAsWritten(info, genome, false) == Ok(Some(true)) then InfoWritten(Fail(DuplicateGenome), info)
    else
      var w := WriteFields(keys, d, GenomeField, existing);
      InfoWritten(w.outcome, if w.fields == map[] then info else info[genome := w.fields])
  }

  /** A genome registered with field 'a' is registered again with a new
      field 'b': the code as written accepts it and merges the fields. A
      handle cannot do this on its own, since its key list is fixed when it
      is constructed; it takes a caller that writes under `/info/genomes`
      with other keys. */
  lemma ReAddGenomeExample()
    ensures var info := map["g" := map["a" := Int(1)]];
            AddGenomeAsWritten(info, "g", ["b"], map["b" := Some(Int(2))])
              == InfoWritten(Pass, map["g" := map["a" := Int(1), "b" := Int(2)]])
  {
    var info := map["g" := map["a" := Int(1)]];
    assert KnownGenomeAsWritten(info, "g", false) == Ok(None);
    var w := WriteFields(["b"], map["b" := Some(Int(2))], GenomeField, info["g"]);
    assert ["b"][1..] == [];
    assert w == Written(Pass, map["a" := Int(1), "b" := Int(2)]);
  }

  /** A genome registered with the same fields a second time: the code as
      written does not report the duplicate genome, and fails only at the
      first field, which is already there. */
  lemma ReAddSameFieldsExample()
    ensures var info := map["g" := map["a" := Int(1)]];
            && AddGenomeAsWritten(info, "g", ["a"], map["a" := Some(Int(2))]).outcome == Fail(DuplicatePath)
            && AddGenomeAsWritten(info, "g", ["a"], map["a" := Some(Int(2))]).outcome != Fail(DuplicateGenome)
  {
    var info := map["g" := map["a" := Int(1)]];
    assert KnownGenomeAsWritten(info, "g", false) == Ok(None);
  }

  /** Through a handle, whose key list never changes, re-registering a
      genome that a completed registration left behind fails on the first
      key's path rather than as a duplicate genome, and changes nothing. */
  lemma ReAddGenomeFailsOnPath(info: Info, genome: string, keys: seq<string>,
                               d: map<string, Option<Value>>, d': map<string, Option<Value>>)
    requires genome in info && info[genome] == Stored(keys, d, GenomeField)
    requires keys != [] && keys[0] in d && keys[0] in d'
    ensures AddGenomeAsWritten(info, genome, keys, d').outcome == Fail(DuplicatePath)
    ensures AddGenomeAsWritten(info, genome, keys, d').info == info
  {
    assert keys[0] in info[genome];
    assert KnownGenomeAsWritten(info, genome, false) == Ok(None);
    assert WriteFields(keys, d', GenomeField, info[genome]) == Written(Fail(DuplicatePath), info[genome]);
  }

  /** The output of the combined FASTA export: the records it wrote with its
      two counters, and what the FASTA deduplicating routine made of the
      file's lines. */
  datatype UniqueFasta = UniqueFasta(path: string, namesDict: map<string, seq<string>>)
  datatype FastaOutput = FastaOutput(records: Export, unique: UniqueFasta)

  class GenomesDataStorage {
    const file: Hdf5File
    const essentialGenomeInfo: seq<string>
    const taxonLevels: seq<string>
    const genomeNames: Option<seq<string>>       // never set by a handle that creates the file
    const functionsAreAvailable: Option<bool>    // likewise
    var info: Info
    var data: Data

    constructor (file: Hdf5File, essentialGenomeInfo: seq<string>, taxonLevels: seq<string>,
                 genomeNames: Option<seq<string>>, functionsAreAvailable: Option<bool>, info: Info, data: Data)
      ensures this.file == file && this.essentialGenomeInfo == essentialGenomeInfo
      ensures this.taxonLevels == taxonLevels && this.genomeNames == genomeNames
      ensures this.functionsAreAvailable == functionsAreAvailable
      ensures this.info == info && this.data == data
    {
      this.file := file;
      this.essentialGenomeInfo := essentialGenomeInfo;
      this.taxonLevels := taxonLevels;
      this.genomeNames := genomeNames;
      this.functionsAreAvailable := functionsAreAvailable;
      this.info := info;
      this.data := data;
    }

    /** The constructor: the container's identity check, then, for a
        read-only handle, the genome names it works on and the
        `functions_are_available` attribute. `essentialInfo` and
        `taxonTableStructure` are the library's constant lists. */
    static method Open(version: string, dbHash: Option<string>, onDisk: Option<StoredGenomes>,
                       essentialInfo: seq<string>, taxonTableStructure: seq<string>,
                       genomeNamesToFocus: seq<string> := [], createNew: bool := false, ignoreHash: bool := false)
      returns (r: Result<GenomesDataStorage>)
      ensures var id := Identify(createNew, false, ignoreHash, dbHash, version, AttrsOf(ImageOf(onDisk)));
              && (id.Err? ==> r == Err(id.error))
              && (id.Ok? && createNew ==>
                    && r.Ok? && r.value.info == map[] && r.value.data == map[]
                    && r.value.genomeNames.None? && r.value.functionsAreAvailable.None?)
              && (id.Ok? && !createNew ==>
                    var names := OpenedGenomeNames(onDisk.value.info, genomeNamesToFocus);
                    && (names.Err? ==> r == Err(names.error))
                    && (names.Ok? && onDisk.value.functionsAreAvailable.None? ==>
                          r == Err(KeyMissing("functions_are_available")))
                    && (r.Ok? <==> names.Ok? && onDisk.value.functionsAreAvailable.Some?)
                    && (r.Ok? ==>
                          && r.value.genomeNames == Some(names.value)
                          && r.value.functionsAreAvailable == onDisk.value.functionsAreAvailable
                          && r.value.info == onDisk.value.info && r.value.data == onDisk.value.data))
              && (r.Ok? ==>
                    && fresh(r.value) && r.value.file.Identified() && r.value.file.attrs == id.value.attrs
                    && r.value.file.uniqueHash == id.value.uniqueHash
                    && r.value.file.writable == createNew
                    && r.value.essentialGenomeInfo == essentialInfo + ExtraGenomeInfo
                    && r.value.taxonLevels == TaxonLevels(taxonTableStructure))
    {
      var f := Hdf5File.Open(version, dbHash, ImageOf(onDisk), createNew := createNew, ignoreHash := ignoreHash);
      if f.Err? {
        return Err(f.error);
      }
      var essential := essentialInfo + ExtraGenomeInfo;
      var levels := TaxonLevels(taxonTableStructure);
      if createNew {
        var s := new GenomesDataStorage(f.value, essential, levels, None, None, map[], map[]);
        return Ok(s);
      }
      var stored := onDisk.value;
      var names := OpenedGenomeNames(stored.info, genomeNamesToFocus);
      if names.Err? {
        return Err(names.error);
      }
      if stored.functionsAreAvailable.None? {
        return Err(KeyMissing("functions_are_available"));
      }
      var s := new GenomesDataStorage(f.value, essential, levels, Some(names.value),
                                      stored.functionsAreAvailable, stored.info, stored.data);
      r := Ok(s);
    }

    /** is_known_genome with its evident intent: known or not, or a failure
        for an unknown genome when asked to raise. */
    function IsKnownGenome(genome: string, throw: bool := true): (r: Result<bool>)
      reads this
      ensures r.Ok? ==> (r.value <==> genome in info)
      ensures r.Err? <==> throw && genome !in info
      ensures r.Err? ==> r.error == UnknownGenome([genome])
      ensures !throw ==> r.Ok?
    {
      if genome in info then Ok(true)
      else if throw then Err(UnknownGenome([genome]))
      else Ok(false)
    }

    function IsKnownGeneCall(genome: string, id: int): (r: Outcome)
      reads this
      ensures r.Pass? <==> genome in data && id in data[genome]
      ensures r.Fail? ==> r.error == UnknownGeneCall
    {
      if id in GenesOf(data, genome) then Pass else Fail(UnknownGeneCall)
    }

    /** The stored partial flag; the genome is checked first, then the call. */
    function IsPartialGeneCall(genome: string, id: int): (r: Result<int>)
      reads this
      ensures r.Ok? <==> genome in info && genome in data && id in data[genome]
      ensures genome !in info ==> r == Err(UnknownGenome([genome]))
      ensures genome in info && IsKnownGeneCall(genome, id).Fail? ==> r == Err(UnknownGeneCall)
      ensures r.Ok? ==> r.value == data[genome][id].partial
    {
      if genome !in info then Err(UnknownGenome([genome]))
      else if IsKnownGeneCall(genome, id).Fail? then Err(UnknownGeneCall)
      else Ok(data[genome][id].partial)
    }

    /** A gene call's amino-acid sequence, or its DNA sequence when asked. */
    function GetGeneSequence(genome: string, id: int, reportDna: bool := false): (r: Result<string>)
      reads this
      ensures r.Ok? <==> genome in info && genome in data && id in data[genome]
      ensures genome !in info ==> r == Err(UnknownGenome([genome]))
      ensures genome in info && IsKnownGeneCall(genome, id).Fail? ==> r == Err(UnknownGeneCall)
      ensures r.Ok? && !reportDna ==> r.value == data[genome][id].aaSequence
      ensures r.Ok? && reportDna ==> r.value == data[genome][id].dnaSequence
    {
      if genome !in info then Err(UnknownGenome([genome]))
      else if IsKnownGeneCall(genome, id).Fail? then Err(UnknownGeneCall)
      else if reportDna then Ok(data[genome][id].dnaSequence)
      else Ok(data[genome][id].aaSequence)
    }

    /** The functional annotations of a gene call by source; none when no
        source annotated it. Refused unless the storage has functions. */
    function GetGeneFunctions(genome: string, id: int): (r: Result<map<string, string>>)
      reads this
      ensures functionsAreAvailable.None? ==> r == Err(AttributeMissing)
      ensures functionsAreAvailable == Some(false) ==> r == Err(FunctionsUnavailable)
      ensures functionsAreAvailable == Some(true) ==> (r.Ok? <==> genome in data && id in data[genome])
      ensures functionsAreAvailable == Some(true) && r.Err? ==> r.error == PathNotFound
      ensures r.Ok? ==> genome in data && id in data[genome] && r.value == data[genome][id].functions
    {
      if functionsAreAvailable.None? then Err(AttributeMissing)
      else if !functionsAreAvailable.value then Err(FunctionsUnavailable)
      else if id !in GenesOf(data, genome) then Err(PathNotFound)
      else Ok(data[genome][id].functions)
    }

    /** The `hash` root attribute. */
    function GetStorageHash(): (h: string)
      ensures file.Identified() && file.uniqueHash.Some? ==> file.uniqueHash == Some(h)
      ensures h == file.attrs.hash
    {
      file.attrs.hash
    }

    /** add_genome with its evident intent: a genome is registered once; its
        essential fields are written in order, `None` stored as -1, and a
        missing field stops the loop with the fields before it written. */
    method AddGenome(genome: string, infoDict: map<string, Option<Value>>) returns (r: Outcome)
      modifies this`info
      ensures genome in old(info) ==> r == Fail(DuplicateGenome) && info == old(info)
      ensures genome !in old(info) && !file.writable ==> r == Fail(ReadOnlyFile) && info == old(info)
      ensures genome !in old(info) && file.writable ==>
                var w := WriteFields(essentialGenomeInfo, infoDict, GenomeField, map[]);
                r == w.outcome && info == if w.fields == map[] then old(info) else old(info)[genome := w.fields]
      ensures r.Pass? <==> genome !in old(info) && file.writable && NoDuplicates(essentialGenomeInfo)
                           && forall k :: k in essentialGenomeInfo ==> k in infoDict
      ensures r.Pass? && essentialGenomeInfo != [] ==>
                info == old(info)[genome := Stored(essentialGenomeInfo, infoDict, GenomeField)]
      ensures r.Pass? && essentialGenomeInfo != [] ==>
                IsKnownGenome(genome) == Ok(true)
                && forall k :: k in essentialGenomeInfo ==> info[genome][k] == GenomeField(infoDict[k])
      ensures forall g :: g != genome ==> (g in info <==> g in old(info)) && (g in info ==> info[g] == old(info)[g])
    {
      var known := IsKnownGenome(genome, false);
      if known == Ok(true) {
        return Fail(DuplicateGenome);
      }
      if !file.writable {
        return Fail(ReadOnlyFile);
      }
      WriteFieldsPass(essentialGenomeInfo, infoDict, GenomeField, map[]);
      var fields: map<string, Value> := map[];
      var i := 0;
      while i < |essentialGenomeInfo|
        invariant 0 <= i <= |essentialGenomeInfo|
        invariant WriteFields(essentialGenomeInfo, infoDict, GenomeField, map[])
                  == WriteFields(essentialGenomeInfo[i..], infoDict, GenomeField, fields)
        invariant info == if fields == map[] then old(info) else old(info)[genome := fields]
        invariant i > 0 ==> fields != map[]
      {
        var key := essentialGenomeInfo[i];
        assert essentialGenomeInfo[i..][1..] == essentialGenomeInfo[i + 1..];
        if key !in infoDict {
          return Fail(KeyMissing(key));
        }
        if key in fields {
          return Fail(DuplicatePath);
        }
        fields := fields[key := GenomeField(infoDict[key])];
        info := info[genome := fields];
        i := i + 1;
      }
      assert essentialGenomeInfo[i..] == [];
      r := Pass;
      WriteFieldsContent(essentialGenomeInfo, infoDict, GenomeField, map[]);
      assert fields == Stored(essentialGenomeInfo, infoDict, GenomeField);
    }

    /** add_gene_call_data: one new gene-call record, its length taken from
        the amino-acid sequence, its taxonomy written level by level when a
        non-empty taxonomy is given and its functions source by source. A
        failing write stops there and leaves what was written. */
    method AddGeneCallData(genome: string, id: int, aa: string, dna: string, partial: int := 0,
                           functions: seq<(string, string)> := [], taxonomy: map<string, Option<Value>> := map[])
      returns (r: Outcome)
      modifies this`data
      ensures !file.writable ==> r == Fail(ReadOnlyFile) && data == old(data)
      ensures file.writable && id in GenesOf(old(data), genome) ==> r == Fail(DuplicatePath) && data == old(data)
      ensures file.writable && id !in GenesOf(old(data), genome) ==>
                var w := WriteGeneCall(aa, dna, partial, taxonLevels, taxonomy, functions);
                r == w.outcome && data == old(data)[genome := GenesOf(old(data), genome)[id := w.record]]
      // what is written is read back
      ensures r.Pass? ==> IsKnownGeneCall(genome, id).Pass? && data[genome][id].length == |aa|
      ensures r.Pass? && genome in info ==>
                && GetGeneSequence(genome, id) == Ok(aa) && GetGeneSequence(genome, id, true) == Ok(dna)
                && IsPartialGeneCall(genome, id) == Ok(partial)
      ensures r.Pass? && functionsAreAvailable == Some(true) ==>
                && GetGeneFunctions(genome, id).Ok?
                && forall i :: 0 <= i < |functions| ==>
                     && functions[i].0 in GetGeneFunctions(genome, id).value
                     && GetGeneFunctions(genome, id).value[functions[i].0] == functions[i].1
      ensures forall g :: g != genome ==> GenesOf(data, g) == GenesOf(old(data), g)
    {
      if !file.writable {
        return Fail(ReadOnlyFile);
      }
      var genes := GenesOf(data, genome);
      if id in genes {
        return Fail(DuplicatePath);
      }
      var rec := GeneCall(aa, dna, |aa|, partial, map[], map[]);
      if taxonomy != map[] {
        var tw := StoreFields(taxonLevels, taxonomy, TaxonField);
        rec := rec.(taxonomy := tw.fields);
        if tw.outcome.Fail? {
          data := data[genome := genes[id := rec]];
          return tw.outcome;
        }
      }
      var fw := StorePairs(functions);
      rec := rec.(functions := fw.fields);
      data := data[genome := genes[id := rec]];
      r := fw.outcome;
      GeneCallMeaning(aa, dna, partial, taxonLevels, taxonomy, functions);
    }

    /** get_genomes_dict: for each genome name in turn, its metadata fields
        under its name and the lengths of its gene calls. */
    method GetGenomesDict() returns (r: Result<GenomesDict>)
      ensures r == GenomesDictOf(genomeNames, info, data)
    {
      if genomeNames.None? {
        return Err(AttributeMissing);
      }
      var names := genomeNames.value;
      var order: seq<string> := [];
      var entries: map<string, GenomeEntry> := map[];
      var i := 0;
      while i < |names|
        invariant 0 <= i <= |names|
        invariant DictSoFar(names[..i], info, data) == Ok(GenomesDict(order, entries))
      {
        var g := names[i];
        assert names[..i + 1][..i] == names[..i];
        if g !in info || g !in data {
          DictFailurePersists(names, i + 1, info, data);
          return Err(PathNotFound);
        }
        var entry := GenomeEntryFor(g, info[g], data[g]);
        if g !in order {
          order := order + [g];
        }
        entries := entries[g := entry];
        i := i + 1;
      }
      assert names[..|names|] == names;
      r := Ok(GenomesDict(order, entries));
    }

    /** gen_combined_aa_sequences_FASTA: every genome of the genomes dict in
        its key order, each genome's gene calls by ascending id, partial ones
        counted and skipped when asked; the written records go to the FASTA
        deduplicating routine, which is a parameter here. */
    method GenCombinedAaSequencesFasta(uniqueFasta: seq<string> -> UniqueFasta, exclude: bool := false)
      returns (r: Result<FastaOutput>)
      ensures var spec := CombinedFasta(genomeNames, info, data, exclude);
              && (r.Err? <==> spec.Err?)
              && (r.Err? ==> r.error == spec.error)
              && (r.Ok? ==> r.value == FastaOutput(spec.value, uniqueFasta(FastaLines(spec.value.records))))
    {
      var genomes := GetGenomesDict();
      if genomes.Err? {
        return Err(genomes.error);
      }
      var dict := genomes.value;
      GenomesDictMeaning(genomeNames, info, data);
      var all := ExportGenomes(dict, data, exclude);
      if all.Err? {
        return Err(all.error);
      }
      r := Ok(FastaOutput(all.value, uniqueFasta(FastaLines(all.value.records))));
    }
  }

  /** The loop of gen_combined_aa_sequences_FASTA over the genomes of the
      dict, in its key order, writing the records and keeping the two counters. */
  method ExportGenomes(dict: GenomesDict, data: Data, exclude: bool) returns (r: Result<Export>)
    requires forall g :: g in dict.order ==> g in dict.entries && g in data
    ensures r == ExportOf(dict.order, dict, data, exclude)
  {
    // the records written so far and the two counters
    var acc := NoRecords;
    var i := 0;
    while i < |dict.order|
      invariant 0 <= i <= |dict.order|
      invariant ExportOf(dict.order[..i], dict, data, exclude) == Ok(acc)
    {
      var g := dict.order[i];
      ExportOfSnoc(dict.order, i, dict, data, exclude);
      var next := ExportGenome(dict.entries[g].fields, data[g], exclude, acc);
      if next.Err? {
        ExportFailurePersists(dict.order, i + 1, dict, data, exclude);
        return next;
      }
      acc := next.value;
      i := i + 1;
    }
    assert dict.order[..|dict.order|] == dict.order;
    r := Ok(acc);
  }

  /** The taxonomy loop of add_gene_call_data: level by level into the
      record's empty taxonomy group. */
  method StoreFields(keys: seq<string>, d: map<string, Option<Value>>, store: Option<Value> -> Value)
    returns (w: Written)
    ensures w == WriteFields(keys, d, store, map[])
  {
    var fields: map<string, Value> := map[];
    var i := 0;
    while i < |keys|
      invariant 0 <= i <= |keys|
      invariant WriteFields(keys, d, store, map[]) == WriteFields(keys[i..], d, store, fields)
    {
      var key := keys[i];
      assert keys[i..][1..] == keys[i + 1..];
      if key !in d {
        return Written(Fail(KeyMissing(key)), fields);
      }
      if key in fields {
        return Written(Fail(DuplicatePath), fields);
      }
      fields := fields[key := store(d[key])];
      i := i + 1;
    }
    w := Written(Pass, fields);
  }

  /** The functions loop of add_gene_call_data: source by source into the
      record's empty functions group. */
  method StorePairs(pairs: seq<(string, string)>) returns (w: PairsWritten)
    ensures w == WritePairs(pairs, map[])
  {
    var fields: map<string, string> := map[];
    var i := 0;
    while i < |pairs|
      invariant 0 <= i <= |pairs|
      invariant WritePairs(pairs, map[]) == WritePairs(pairs[i..], fields)
    {
      var (source, annotation) := pairs[i];
      assert pairs[i..][1..] == pairs[i + 1..];
      if source in fields {
        return PairsWritten(Fail(DuplicatePath), fields);
      }
      fields := fields[source := annotation];
      i := i + 1;
    }
    w := PairsWritten(Pass, fields);
  }

  /** One genome's entry of get_genomes_dict: its name, then every metadata
      field of its group, then the length of each of its gene calls. */
  method GenomeEntryFor(genome: string, fields: map<string, Value>, genes: map<int, GeneCall>)
    returns (e: GenomeEntry)
    ensures e == EntryOf(genome, fields, genes)
  {
    var named := NamedFields(genome, fields);
    // the per-id loop filling 'gene_lengths' builds this dict
    var lengths := map id | id in genes :: genes[id].length;
    e := GenomeEntry(named - {"gene_lengths"}, lengths);
  }

  /** The genome's name under 'name', then each of its metadata fields,
      overwriting what is there; the fields are distinct, so the order HDF5
      lists them in does not matter. */
  method NamedFields(genome: string, fields: map<string, Value>) returns (entry: map<string, Value>)
    ensures entry == map["name" := Str(genome)] + fields
  {
    entry := map["name" := Str(genome)];
    var keys := fields.Keys;
    while keys != {}
      invariant keys <= fields.Keys
      invariant forall x :: x in entry <==> x == "name" || (x in fields && x !in keys)
      invariant forall x :: x in fields && x !in keys ==> entry[x] == fields[x]
      invariant "name" !in fields || "name" in keys ==> entry["name"] == Str(genome)
      decreases keys
    {
      var k :| k in keys;
      entry := entry[k := fields[k]];
      keys := keys - {k};
    }
  }

  /** One genome's part of the combined FASTA: its gene calls by ascending
      id, each partial one counted and skipped when asked, each other one
      written as a header and its amino-acid sequence. */
  method ExportGenome(fields: map<string, Value>, genes: map<int, GeneCall>, exclude: bool, start: Export)
    returns (r: Result<Export>)
    ensures r == GenomeExport(fields, genes, exclude, start)
  {
    r := ExportCalls(fields, CallsInOrder(genes), exclude, start);
  }

  /** The loop over one genome's gene calls in ascending id order, writing
      to the output and counting from `start`. */
  method ExportCalls(fields: map<string, Value>, calls: seq<(int, GeneCall)>, exclude: bool, start: Export)
    returns (r: Result<Export>)
    ensures r == CallsExport(fields, calls, exclude, start)
  {
    var acc := start;
    var j := 0;
    while j < |calls|
      invariant 0 <= j <= |calls|
      invariant CallsExport(fields, calls[..j], exclude, start) == Ok(acc)
    {
      var (id, call) := calls[j];
      CallsExportStep(fields, calls, j, exclude, start, acc);
      if exclude && call.partial != 0 {
        acc := acc.(excluded := acc.excluded + 1);
      } else {
        if "genome_hash" !in fields {
          CallsFailurePersists(fields, calls, j + 1, exclude, start);
          return Err(KeyMissing("genome_hash"));
        }
        var record := FastaRecord(Header(Show(fields["genome_hash"]), id), call.aaSequence);
        acc := acc.(records := acc.records + [record], emitted := acc.emitted + 1);
      }
      j := j + 1;
    }
    assert calls[..j] == calls;
    r := Ok(acc);
  }
}
