/** The content of a genomes storage and what GenomesDataStorage derives from
    it, as functions: the writes of `add_genome` and `add_gene_call_data`,
    the genome names a handle works on, the per-genome summary of
    `get_genomes_dict`, and the records of the combined amino-acid FASTA. */
module GenomeRecords {
  import opened Outcomes
  import opened PyValues
  import opened Collections

  /** One gene call: the group `/data/genomes/<genome>/<id>`. An empty
      `taxonomy` or `functions` map is an absent subgroup. */
  datatype GeneCall = GeneCall(aaSequence: string, dnaSequence: string, length: int, partial: int,
                               taxonomy: map<string, Value>, functions: map<string, string>)

  /** `/info/genomes/<genome>/<field>` */
  type Info = map<string, map<string, Value>>

  /** `/data/genomes/<genome>/<id>` */
  type Data = map<string, map<int, GeneCall>>

  /** The gene calls stored under a genome, none if its group is absent. */
  function GenesOf(data: Data, genome: string): map<int, GeneCall>
  {
    if genome in data then data[genome] else map[]
  }

  // ---------------------------------------------------------------- writes

  /** How add_genome stores a metadata value: `None` becomes -1. */
  function GenomeField(v: Option<Value>): Value
  {
    if v.None? then Int(-1) else v.value
  }

  /** How add_gene_call_data stores a taxon: a falsy one becomes ''. */
  function TaxonField(v: Option<Value>): Value
  {
    if Truthy(v) then v.value else Str("")
  }

  datatype Written = Written(outcome: Outcome, fields: map<string, Value>)

  /** The loop `for key in keys: group[key] = store(d[key])` into a group that
      already holds `acc`, with paths written at most once: it stops at the
      first key missing from `d` (a KeyError) or already written, keeping
      what it wrote before. */
  function WriteFields(keys: seq<string>, d: map<string, Option<Value>>, store: Option<Value> -> Value,
                       acc: map<string, Value>): Written
    decreases |keys|
  {
    if keys == [] then Written(Pass, acc)
    else if keys[0] !in d then Written(Fail(KeyMissing(keys[0])), acc)
    else if keys[0] in acc then Written(Fail(DuplicatePath), acc)
    else WriteFields(keys[1..], d, store, acc[keys[0] := store(d[keys[0]])])
  }

  /** Every key of `keys` found in `d`, stored through `store`. */
  function Stored(keys: seq<string>, d: map<string, Option<Value>>, store: Option<Value> -> Value): map<string, Value>
  {
    map k | k in keys && k in d :: store(d[k])
  }

  /** The fields already in the group survive, and every new field holds the
      stored form of the caller's value for one of the keys. */
  lemma {:induction false} WriteFieldsKeeps(keys: seq<string>, d: map<string, Option<Value>>,
                                            store: Option<Value> -> Value, acc: map<string, Value>)
    ensures var w := WriteFields(keys, d, store, acc);
            && (forall k :: k in acc ==> k in w.fields && w.fields[k] == acc[k])
            && (forall k :: k in w.fields && k !in acc ==> k in keys && k in d && w.fields[k] == store(d[k]))
    decreases |keys|
  {
    if keys != [] && keys[0] in d && keys[0] !in acc {
      WriteFieldsKeeps(keys[1..], d, store, acc[keys[0] := store(d[keys[0]])]);
      assert forall k :: k in keys[1..] ==> k in keys;
    }
  }

  /** The loop completes exactly when the keys are distinct, all present in
      the caller's dictionary and none already written. */
  lemma {:induction false} WriteFieldsPass(keys: seq<string>, d: map<string, Option<Value>>,
                                           store: Option<Value> -> Value, acc: map<string, Value>)
    ensures WriteFields(keys, d, store, acc).outcome.Pass? <==>
              NoDuplicates(keys) && forall k :: k in keys ==> k in d && k !in acc
    decreases |keys|
  {
    if keys != [] {
      NoDuplicatesCons(keys);
      assert forall k :: k in keys <==> k == keys[0] || k in keys[1..];
      if keys[0] in d && keys[0] !in acc {
        WriteFieldsPass(keys[1..], d, store, acc[keys[0] := store(d[keys[0]])]);
      }
    }
  }

  /** A completed loop leaves the group holding its former fields plus every
      key stored from the caller's dictionary. */
  lemma {:induction false} WriteFieldsContent(keys: seq<string>, d: map<string, Option<Value>>,
                                              store: Option<Value> -> Value, acc: map<string, Value>)
    requires WriteFields(keys, d, store, acc).outcome.Pass?
    ensures WriteFields(keys, d, store, acc).fields == acc + Stored(keys, d, store)
    decreases |keys|
  {
    if keys != [] {
      var acc' := acc[keys[0] := store(d[keys[0]])];
      WriteFieldsContent(keys[1..], d, store, acc');
      assert forall k :: k in keys <==> k == keys[0] || k in keys[1..];
      assert acc' + Stored(keys[1..], d, store) == acc + Stored(keys, d, store);
    }
  }

  datatype PairsWritten = PairsWritten(outcome: Outcome, fields: map<string, string>)

  /** The loop `for source, function in functions: group[source] = function`
      into a group holding `acc`, with paths written at most once. */
  function WritePairs(pairs: seq<(string, string)>, acc: map<string, string>): PairsWritten
    decreases |pairs|
  {
    if pairs == [] then PairsWritten(Pass, acc)
    else if pairs[0].0 in acc then PairsWritten(Fail(DuplicatePath), acc)
    else WritePairs(pairs[1..], acc[pairs[0].0 := pairs[0].1])
  }

  /** The annotation sources of the pairs, in order. */
  function Sources(pairs: seq<(string, string)>): (r: seq<string>)
    ensures |r| == |pairs| && forall i :: 0 <= i < |pairs| ==> r[i] == pairs[i].0
  {
    seq(|pairs|, i requires 0 <= i < |pairs| => pairs[i].0)
  }

  lemma {:induction false} WritePairsKeeps(pairs: seq<(string, string)>, acc: map<string, string>)
    ensures var w := WritePairs(pairs, acc);
            forall k :: k in acc ==> k in w.fields && w.fields[k] == acc[k]
    decreases |pairs|
  {
    if pairs != [] && pairs[0].0 !in acc {
      WritePairsKeeps(pairs[1..], acc[pairs[0].0 := pairs[0].1]);
    }
  }

  /** The loop completes exactly when no source repeats and none is written. */
  lemma {:induction false} WritePairsPass(pairs: seq<(string, string)>, acc: map<string, string>)
    ensures WritePairs(pairs, acc).outcome.Pass? <==>
              NoDuplicates(Sources(pairs)) && forall x :: x in Sources(pairs) ==> x !in acc
    decreases |pairs|
  {
    if pairs != [] {
      var s := Sources(pairs);
      assert s[1..] == Sources(pairs[1..]);
      NoDuplicatesCons(s);
      assert forall x :: x in s <==> x == s[0] || x in s[1..];
      if pairs[0].0 !in acc {
        WritePairsPass(pairs[1..], acc[pairs[0].0 := pairs[0].1]);
      }
    }
  }

  /** A completed loop holds one function per source, the one given. */
  lemma {:induction false} WritePairsContent(pairs: seq<(string, string)>, acc: map<string, string>)
    requires WritePairs(pairs, acc).outcome.Pass?
    ensures var w := WritePairs(pairs, acc);
            && w.fields.Keys == acc.Keys + (set x | x in Sources(pairs))
            && forall i :: 0 <= i < |pairs| ==> w.fields[pairs[i].0] == pairs[i].1
    decreases |pairs|
  {
    if pairs != [] {
      var rest, acc' := pairs[1..], acc[pairs[0].0 := pairs[0].1];
      WritePairsContent(rest, acc');
      WritePairsKeeps(rest, acc');
      var s := Sources(pairs);
      assert s[1..] == Sources(rest);
      assert forall x :: x in s <==> x == s[0] || x in s[1..];
      forall i | 0 < i < |pairs| ensures pairs[i] == rest[i - 1] {}
    }
  }

  datatype GeneCallWritten = GeneCallWritten(outcome: Outcome, record: GeneCall)

  /** The record add_gene_call_data leaves behind for a gene call not yet
      stored: sequences, derived length and partial flag first, then the
      taxonomy levels (only when a non-empty taxonomy is given), then the
      functional annotations. */
  function WriteGeneCall(aa: string, dna: string, partial: int, levels: seq<string>,
                         taxonomy: map<string, Option<Value>>, functions: seq<(string, string)>): GeneCallWritten
  {
    var core := GeneCall(aa, dna, |aa|, partial, map[], map[]);
    var tw := if taxonomy == map[] then Written(Pass, map[]) else WriteFields(levels, taxonomy, TaxonField, map[]);
    if tw.outcome.Fail? then GeneCallWritten(tw.outcome, core.(taxonomy := tw.fields))
    else
      var fw := WritePairs(functions, map[]);
      GeneCallWritten(fw.outcome, core.(taxonomy := tw.fields, functions := fw.fields))
  }

  /** What a completed add_gene_call_data stored: the length is the amino
      acid sequence's, a taxonomy level holds its value or '' when falsy, and
      there is one function per source. */
  lemma GeneCallMeaning(aa: string, dna: string, partial: int, levels: seq<string>,
                        taxonomy: map<string, Option<Value>>, functions: seq<(string, string)>)
    ensures var w := WriteGeneCall(aa, dna, partial, levels, taxonomy, functions);
            && w.record.aaSequence == aa && w.record.dnaSequence == dna
            && w.record.length == |aa| && w.record.partial == partial
            && (w.outcome.Pass? <==>
                  && (taxonomy == map[] || (NoDuplicates(levels) && forall l :: l in levels ==> l in taxonomy))
                  && NoDuplicates(Sources(functions)))
            && (w.outcome.Pass? && taxonomy == map[] ==> w.record.taxonomy == map[])
            && (w.outcome.Pass? && taxonomy != map[] ==>
                  && (forall l :: l in w.record.taxonomy <==> l in levels)
                  && forall l :: l in levels ==> w.record.taxonomy[l] == TaxonField(taxonomy[l]))
            && (w.outcome.Pass? ==>
                  && (forall x :: x in w.record.functions <==> x in Sources(functions))
                  && forall i :: 0 <= i < |functions| ==> w.record.functions[functions[i].0] == functions[i].1)
  {
    WriteFieldsPass(levels, taxonomy, TaxonField, map[]);
    WritePairsPass(functions, map[]);
    var w := WriteGeneCall(aa, dna, partial, levels, taxonomy, functions);
    if w.outcome.Pass? {
      if taxonomy != map[] {
        WriteFieldsContent(levels, taxonomy, TaxonField, map[]);
      }
      WritePairsContent(functions, map[]);
    }
  }

  // ---------------------------------------------------------- genome names

  /** get_genome_names_in_db: the members of `/info/genomes` in the order
      HDF5 lists them; the group is absent until a genome is registered. */
  function GenomeNamesIn(info: Info): (r: Result<seq<string>>)
    ensures r.Ok? <==> info != map[]
    ensures r.Err? ==> r.error == PathNotFound
    ensures r.Ok? ==> forall g :: g in r.value <==> g in info
  {
    if info == map[] then Err(PathNotFound) else Ok(SortedNames(info.Keys))
  }

  /** The stored genome names come in ascending name order. */
  lemma GenomeNamesOrdered(info: Info)
    requires info != map[]
    ensures StrictlyAscendingNames(GenomeNamesIn(info).value)
  {
    SortedNamesAscending(info.Keys);
  }

  /** The genome names a handle works on: every stored one, or exactly the
      requested ones when all of them are stored; a request naming unknown
      genomes fails and lists them all. */
  function FocusGenomes(focus: seq<string>, namesInDb: seq<string>): (r: Result<seq<string>>)
    ensures focus == [] ==> r == Ok(namesInDb)
    ensures focus != [] ==> (r.Ok? <==> forall g :: g in focus ==> g in namesInDb)
    ensures focus != [] && r.Ok? ==> r.value == focus
    ensures r.Ok? ==> forall g :: g in r.value ==> g in namesInDb
    ensures r.Err? ==> r.error.UnknownGenome? && r.error.missing != []
                       && forall g :: g in r.error.missing <==> g in focus && g !in namesInDb
  {
    if focus == [] then Ok(namesInDb)
    else
      var missing := Missing(focus, set g | g in namesInDb);
      if missing != [] then
        assert missing[0] in focus && missing[0] !in namesInDb;
        Err(UnknownGenome(missing))
      else Ok(focus)
  }

  // ------------------------------------------------------------ genomes dict

  /** One genome's entry in the genomes dict: its name under 'name', every
      stored metadata field (these win over 'name'), and, under
      'gene_lengths', the length of each gene call by id. */
  datatype GenomeEntry = GenomeEntry(fields: map<string, Value>, geneLengths: map<int, int>)

  /** A dict keyed by genome name; `order` is its key order. */
  datatype GenomesDict = GenomesDict(order: seq<string>, entries: map<string, GenomeEntry>)

  function EntryOf(genome: string, fields: map<string, Value>, genes: map<int, GeneCall>): GenomeEntry
  {
    GenomeEntry((map["name" := Str(genome)] + fields) - {"gene_lengths"}, map id | id in genes :: genes[id].length)
  }

  /** The entry holds the genome's name unless a stored field overrides it,
      every stored field but 'gene_lengths', and one length per gene call. */
  lemma EntryOfMeaning(genome: string, fields: map<string, Value>, genes: map<int, GeneCall>)
    ensures var e := EntryOf(genome, fields, genes);
            && (forall k :: k in e.fields <==> (k == "name" || k in fields) && k != "gene_lengths")
            && (forall k :: k in fields && k != "gene_lengths" ==> e.fields[k] == fields[k])
            && ("name" !in fields ==> e.fields["name"] == Str(genome))
            && e.geneLengths.Keys == genes.Keys
            && forall id :: id in genes ==> e.geneLengths[id] == genes[id].length
  {
  }

  /** get_genomes_dict over the handle's genome names. It fails when the
      names were never set (a handle that created the file) or when a genome
      has no metadata group or no gene-call group. */
  function GenomesDictOf(names: Option<seq<string>>, info: Info, data: Data): Result<GenomesDict>
  {
    if names.None? then Err(AttributeMissing) else DictSoFar(names.value, info, data)
  }

  /** The dict as the loop builds it, name by name: the first name without
      a metadata or gene-call group ends it. */
  function DictSoFar(names: seq<string>, info: Info, data: Data): Result<GenomesDict>
  {
    if names == [] then Ok(GenomesDict([], map[]))
    else
      var before, g := DictSoFar(names[..|names| - 1], info, data), names[|names| - 1];
      if before.Err? then before
      else if g !in info || g !in data then Err(PathNotFound)
      else
        var order := if g in before.value.order then before.value.order else before.value.order + [g];
        Ok(GenomesDict(order, before.value.entries[g := EntryOf(g, info[g], data[g])]))
  }

  /** The dict exists exactly when every name has both groups, and a failure
      is a missing path. */
  lemma {:induction false} DictSoFarOutcome(names: seq<string>, info: Info, data: Data)
    ensures var r := DictSoFar(names, info, data);
            && (r.Ok? <==> forall g :: g in names ==> g in info && g in data)
            && (r.Err? ==> r.error == PathNotFound)
  {
    if names != [] {
      var init, g := names[..|names| - 1], names[|names| - 1];
      DictSoFarOutcome(init, info, data);
      assert names == init + [g];
      if DictSoFar(init, info, data).Err? {
        var x :| x in init && !(x in info && x in data);
        assert x in names;
      }
    }
  }

  /** Its keys are the names, each once, in first-occurrence order. */
  lemma {:induction false} DictSoFarOrder(names: seq<string>, info: Info, data: Data)
    requires DictSoFar(names, info, data).Ok?
    ensures DictSoFar(names, info, data).value.order == Dedup(names)
  {
    if names != [] {
      DictSoFarOrder(names[..|names| - 1], info, data);
    }
  }

  /** Each name holds that genome's entry, and nothing else is held. */
  lemma {:induction false} DictSoFarEntries(names: seq<string>, info: Info, data: Data)
    requires DictSoFar(names, info, data).Ok?
    ensures var entries := DictSoFar(names, info, data).value.entries;
            && (forall g :: g in entries <==> g in names)
            && forall g :: g in entries ==> g in info && g in data && entries[g] == EntryOf(g, info[g], data[g])
  {
    if names != [] {
      var init, g := names[..|names| - 1], names[|names| - 1];
      DictSoFarEntries(init, info, data);
      assert forall x :: x in names <==> x in init || x == g by { assert names == init + [g]; }
    }
  }

  /** The genomes dict, in the terms of get_genomes_dict: it fails without
      names or for a name without both groups; otherwise its keys are the
      names without repeats in first-occurrence order, each with its entry. */
  lemma GenomesDictMeaning(names: Option<seq<string>>, info: Info, data: Data)
    ensures var r := GenomesDictOf(names, info, data);
            && (names.None? ==> r == Err(AttributeMissing))
            && (names.Some? ==> (r.Ok? <==> forall g :: g in names.value ==> g in info && g in data))
            && (r.Err? && names.Some? ==> r.error == PathNotFound)
            && (r.Ok? ==> r.value.order == Dedup(names.value) && NoDuplicates(r.value.order))
            && (r.Ok? ==> forall g :: g in r.value.order <==> g in names.value)
            && (r.Ok? ==> forall g :: g in r.value.entries <==> g in names.value)
            && (r.Ok? ==> forall g :: g in names.value ==>
                  g in info && g in data && r.value.entries[g] == EntryOf(g, info[g], data[g]))
  {
    if names.Some? {
      DictSoFarOutcome(names.value, info, data);
      if DictSoFar(names.value, info, data).Ok? {
        DictSoFarOrder(names.value, info, data);
        DictSoFarEntries(names.value, info, data);
      }
    }
  }

  /** A missing group ends the loop: more names do not change the failure. */
  lemma {:induction false} DictFailurePersists(names: seq<string>, n: nat, info: Info, data: Data)
    requires n <= |names|
    requires DictSoFar(names[..n], info, data).Err?
    ensures DictSoFar(names, info, data) == DictSoFar(names[..n], info, data)
    decreases |names| - n
  {
    if n < |names| {
      assert names[..n + 1][..n] == names[..n];
      DictFailurePersists(names, n + 1, info, data);
    } else {
      assert names[..n] == names;
    }
  }

  /** The -1 that add_genome stores for a `None` metadata value is what the
      genomes dict reports for that field. */
  lemma SentinelReported(names: seq<string>, info: Info, data: Data, genome: string,
                         keys: seq<string>, d: map<string, Option<Value>>, key: string)
    requires genome in names && genome in info && info[genome] == Stored(keys, d, GenomeField)
    requires key in keys && key in d && d[key].None? && key != "gene_lengths"
    requires GenomesDictOf(Some(names), info, data).Ok?
    ensures var entries := GenomesDictOf(Some(names), info, data).value.entries;
            genome in entries && key in entries[genome].fields && entries[genome].fields[key] == Int(-1)
  {
    GenomesDictMeaning(Some(names), info, data);
    EntryOfMeaning(genome, info[genome], data[genome]);
  }

  // --------------------------------------------------------------- FASTA

  /** A FASTA defline for a gene call: `>{genome_hash}_{id}`. */
  function Header(hashText: string, id: int): string
  {
    ">" + hashText + "_" + IntToString(id)
  }

  /** Within one genome, different gene calls get different deflines. */
  lemma HeaderInjective(hashText: string, a: int, b: int)
    requires Header(hashText, a) == Header(hashText, b)
    ensures a == b
  {
    var n := |hashText| + 2;
    assert Header(hashText, a)[n..] == IntToString(a);
    assert Header(hashText, b)[n..] == IntToString(b);
    IntToStringInjective(a, b);
  }

  /** A gene call skipped when partial calls are excluded. */
  predicate Skipped(call: GeneCall, exclude: bool)
  {
    exclude && call.partial != 0
  }

  /** The ids of a run of gene calls. */
  function Ids(calls: seq<(int, GeneCall)>): (r: seq<int>)
    ensures |r| == |calls| && forall k :: 0 <= k < |calls| ==> r[k] == calls[k].0
  {
    seq(|calls|, k requires 0 <= k < |calls| => calls[k].0)
  }

  /** A genome's gene calls with their ids, by ascending id (the export
      sorts the ids numerically and looks each call up). */
  function CallsInOrder(genes: map<int, GeneCall>): seq<(int, GeneCall)>
  {
    var ids := SortedIds(genes.Keys);
    seq(|ids|, k requires 0 <= k < |ids| => (ids[k], genes[ids[k]]))
  }

  /** Every gene call of the genome appears once, with its own id, and the
      ids ascend. */
  lemma CallsInOrderFacts(genes: map<int, GeneCall>)
    ensures var r := CallsInOrder(genes);
            && Ids(r) == SortedIds(genes.Keys)
            && |r| == |genes|
            && StrictlyIncreasing(Ids(r))
            && (forall c :: c in r ==> c.0 in genes && c.1 == genes[c.0])
            && (forall id :: id in genes ==> (id, genes[id]) in r)
  {
    var r := CallsInOrder(genes);
    var ids := SortedIds(genes.Keys);
    assert forall k :: 0 <= k < |r| ==> r[k] == (ids[k], genes[ids[k]]);
    assert Ids(r) == ids;
    assert |r| == |genes.Keys|;
    forall id | id in genes ensures (id, genes[id]) in r {
      var k :| 0 <= k < |ids| && ids[k] == id;
      assert r[k] == (id, genes[id]);
    }
  }

  /** The calls, in order, whose records are written. */
  function Kept(calls: seq<(int, GeneCall)>, exclude: bool): seq<(int, GeneCall)>
  {
    if calls == [] then []
    else
      var last := calls[|calls| - 1];
      Kept(calls[..|calls| - 1], exclude) + (if Skipped(last.1, exclude) then [] else [last])
  }

  /** Exactly the calls not skipped are written. */
  lemma {:induction false} KeptMembers(calls: seq<(int, GeneCall)>, exclude: bool)
    ensures forall c :: c in Kept(calls, exclude) <==> c in calls && !Skipped(c.1, exclude)
  {
    if calls != [] {
      var init, last := calls[..|calls| - 1], calls[|calls| - 1];
      KeptMembers(init, exclude);
      assert calls == init + [last];
    }
  }

  /** How many of the calls are skipped. */
  function SkippedCount(calls: seq<(int, GeneCall)>, exclude: bool): nat
  {
    if calls == [] then 0
    else SkippedCount(calls[..|calls| - 1], exclude) + (if Skipped(calls[|calls| - 1].1, exclude) then 1 else 0)
  }

  /** Every call is either written or counted as excluded. */
  lemma {:induction false} KeptPlusSkipped(calls: seq<(int, GeneCall)>, exclude: bool)
    ensures |Kept(calls, exclude)| + SkippedCount(calls, exclude) == |calls|
    ensures !exclude ==> SkippedCount(calls, exclude) == 0
  {
    if calls != [] {
      KeptPlusSkipped(calls[..|calls| - 1], exclude);
    }
  }

  /** Skipping calls keeps the remaining ids in ascending order. */
  lemma {:induction false} KeptAscending(calls: seq<(int, GeneCall)>, exclude: bool)
    requires StrictlyIncreasing(Ids(calls))
    ensures StrictlyIncreasing(Ids(Kept(calls, exclude)))
  {
    if calls != [] {
      var init, last := calls[..|calls| - 1], calls[|calls| - 1];
      assert StrictlyIncreasing(Ids(init)) by {
        forall i, j | 0 <= i < j < |init| ensures Ids(init)[i] < Ids(init)[j] {
          assert Ids(init)[i] == Ids(calls)[i] && Ids(init)[j] == Ids(calls)[j];
        }
      }
      KeptAscending(init, exclude);
      var k := Kept(init, exclude);
      if !Skipped(last.1, exclude) {
        var r := k + [last];
        forall i, j | 0 <= i < j < |r| ensures Ids(r)[i] < Ids(r)[j] {
          if j < |k| {
            assert Ids(r)[i] == Ids(k)[i] && Ids(r)[j] == Ids(k)[j];
          } else {
            KeptMembers(init, exclude);
            assert r[i] == k[i] && r[i] in init;
            var i' :| 0 <= i' < |init| && init[i'] == r[i];
            assert Ids(calls)[i'] == r[i].0 && Ids(calls)[|calls| - 1] == last.0;
          }
        }
      }
    }
  }

  /** A FASTA record as written: its defline, then its sequence line. */
  datatype FastaRecord = FastaRecord(defline: string, sequence: string)

  /** The written records: for each call in turn, its header and its
      amino-acid sequence. */
  function Records(hashText: string, kept: seq<(int, GeneCall)>): seq<FastaRecord>
  {
    seq(|kept|, k requires 0 <= k < |kept| => FastaRecord(Header(hashText, kept[k].0), kept[k].1.aaSequence))
  }

  /** One more written record comes after the others. */
  lemma RecordsSnoc(hashText: string, kept: seq<(int, GeneCall)>, c: (int, GeneCall))
    ensures Records(hashText, kept + [c]) == Records(hashText, kept) + [FastaRecord(Header(hashText, c.0), c.1.aaSequence)]
  {
    var after, before := Records(hashText, kept + [c]), Records(hashText, kept);
    forall k | 0 <= k < |kept| ensures after[k] == before[k] {
      assert (kept + [c])[k] == kept[k];
    }
  }

  /** The output file as its lines: each record is its defline line
      followed by its sequence line. */
  function FastaLines(records: seq<FastaRecord>): (lines: seq<string>)
    ensures |lines| == 2 * |records|
    ensures forall k :: 0 <= k < |records| ==>
              lines[2 * k] == records[k].defline && lines[2 * k + 1] == records[k].sequence
  {
    if records == [] then []
    else
      var rest := FastaLines(records[1..]);
      var lines := [records[0].defline, records[0].sequence] + rest;
      assert forall k :: 1 <= k < |records| ==>
               lines[2 * k] == rest[2 * (k - 1)] && lines[2 * k + 1] == rest[2 * (k - 1) + 1];
      lines
  }

  /** Reading an even number of lines back as records, two lines each. */
  function RecordsOfLines(lines: seq<string>): (records: seq<FastaRecord>)
    requires |lines| % 2 == 0
    decreases |lines|
  {
    if lines == [] then []
    else [FastaRecord(lines[0], lines[1])] + RecordsOfLines(lines[2..])
  }

  /** Nothing is lost in the output file: its lines read back as exactly
      the records written, in order. */
  lemma {:induction false} FastaLinesRoundTrip(records: seq<FastaRecord>)
    ensures RecordsOfLines(FastaLines(records)) == records
    decreases |records|
  {
    if records != [] {
      var lines := FastaLines(records);
      assert lines[2..] == FastaLines(records[1..]);
      FastaLinesRoundTrip(records[1..]);
      assert records == [FastaRecord(lines[0], lines[1])] + records[1..];
    }
  }

  /** The records written and the two counters kept by the export. */
  datatype Export = Export(records: seq<FastaRecord>, emitted: nat, excluded: nat)

  /** `'%s' % genomes[genome]['genome_hash']`, when the field is present. */
  function HashText(fields: map<string, Value>): string
  {
    if "genome_hash" in fields then Show(fields["genome_hash"]) else ""
  }

  /** The export before any record: an empty file and both counters at 0. */
  const NoRecords := Export([], 0, 0)

  /** One genome's part of the export, continuing the output file and the
      two counters from `start`. The genome hash is looked up for each record
      written, so a genome without one fails once it writes a record. */
  function GenomeExport(fields: map<string, Value>, genes: map<int, GeneCall>, exclude: bool, start: Export): Result<Export>
  {
    CallsExport(fields, CallsInOrder(genes), exclude, start)
  }

  /** The loop over a run of gene calls of one genome, call by call: a
      skipped call is counted, any other is written, and the first call
      written without a genome hash ends it. */
  function CallsExport(fields: map<string, Value>, calls: seq<(int, GeneCall)>, exclude: bool, start: Export): Result<Export>
  {
    if calls == [] then Ok(start)
    else
      var before, c := CallsExport(fields, calls[..|calls| - 1], exclude, start), calls[|calls| - 1];
      if before.Err? then before
      else if Skipped(c.1, exclude) then Ok(before.value.(excluded := before.value.excluded + 1))
      else if "genome_hash" !in fields then Err(KeyMissing("genome_hash"))
      else
        var record := FastaRecord(Header(Show(fields["genome_hash"]), c.0), c.1.aaSequence);
        Ok(before.value.(records := before.value.records + [record], emitted := before.value.emitted + 1))
  }

  /** The loop fails exactly when some call is written and the genome has no
      hash; otherwise it appends the records of the calls not skipped and
      counts both kinds. */
  lemma {:induction false} CallsExportMeaning(fields: map<string, Value>, calls: seq<(int, GeneCall)>, exclude: bool,
                                              start: Export)
    ensures var r := CallsExport(fields, calls, exclude, start);
            var kept := Kept(calls, exclude);
            && (r.Err? <==> kept != [] && "genome_hash" !in fields)
            && (r.Err? ==> r.error == KeyMissing("genome_hash"))
            && (r.Ok? ==> r.value == Export(start.records + Records(HashText(fields), kept), start.emitted + |kept|,
                                           start.excluded + SkippedCount(calls, exclude)))
  {
    if calls != [] {
      var init, c := calls[..|calls| - 1], calls[|calls| - 1];
      CallsExportMeaning(fields, init, exclude, start);
      if !Skipped(c.1, exclude) {
        RecordsSnoc(HashText(fields), Kept(init, exclude), c);
        var rec := FastaRecord(Header(HashText(fields), c.0), c.1.aaSequence);
        assert start.records + Records(HashText(fields), Kept(init, exclude)) + [rec]
               == start.records + (Records(HashText(fields), Kept(init, exclude)) + [rec]);
      } else {
        assert Kept(init, exclude) + [] == Kept(init, exclude);
      }
    }
  }

  /** One more call after a run that has not failed: it is counted, written,
      or, written without a genome hash, the failure. */
  lemma CallsExportStep(fields: map<string, Value>, calls: seq<(int, GeneCall)>, j: int, exclude: bool,
                        start: Export, acc: Export)
    requires 0 <= j < |calls|
    requires CallsExport(fields, calls[..j], exclude, start) == Ok(acc)
    ensures Skipped(calls[j].1, exclude) ==>
              CallsExport(fields, calls[..j + 1], exclude, start) == Ok(acc.(excluded := acc.excluded + 1))
    ensures !Skipped(calls[j].1, exclude) && "genome_hash" !in fields ==>
              CallsExport(fields, calls[..j + 1], exclude, start) == Err(KeyMissing("genome_hash"))
    ensures !Skipped(calls[j].1, exclude) && "genome_hash" in fields ==>
              var record := FastaRecord(Header(Show(fields["genome_hash"]), calls[j].0), calls[j].1.aaSequence);
              CallsExport(fields, calls[..j + 1], exclude, start)
                == Ok(acc.(records := acc.records + [record], emitted := acc.emitted + 1))
  {
    var s := calls[..j + 1];
    assert s[..|s| - 1] == calls[..j] && s[|s| - 1] == calls[j];
    if Skipped(calls[j].1, exclude) {
      assert CallsExport(fields, s, exclude, start) == Ok(acc.(excluded := acc.excluded + 1));
    } else if "genome_hash" in fields {
      var record := FastaRecord(Header(Show(fields["genome_hash"]), calls[j].0), calls[j].1.aaSequence);
      assert CallsExport(fields, s, exclude, start) == Ok(acc.(records := acc.records + [record], emitted := acc.emitted + 1));
    }
  }

  /** A failed call ends the loop: later calls do not change the failure. */
  lemma {:induction false} CallsFailurePersists(fields: map<string, Value>, calls: seq<(int, GeneCall)>, n: nat,
                                                exclude: bool, start: Export)
    requires n <= |calls|
    requires CallsExport(fields, calls[..n], exclude, start).Err?
    ensures CallsExport(fields, calls, exclude, start) == CallsExport(fields, calls[..n], exclude, start)
    decreases |calls| - n
  {
    if n < |calls| {
      assert calls[..n + 1][..n] == calls[..n];
      CallsFailurePersists(fields, calls, n + 1, exclude, start);
    } else {
      assert calls[..n] == calls;
    }
  }

  /** One genome's records: a header and a sequence per written gene call,
      exactly the calls not skipped, in ascending id order, after the
      records already written; written and excluded calls add up to all its
      calls, and nothing is excluded unless partial calls are. */
  lemma GenomeExportShape(fields: map<string, Value>, genes: map<int, GeneCall>, exclude: bool, start: Export)
    ensures var r := GenomeExport(fields, genes, exclude, start);
            var kept := Kept(CallsInOrder(genes), exclude);
            && StrictlyIncreasing(Ids(kept))
            && (forall c :: c in kept ==> c.0 in genes && c.1 == genes[c.0] && !Skipped(c.1, exclude))
            && (forall id :: id in genes && !Skipped(genes[id], exclude) ==> (id, genes[id]) in kept)
            && (r.Err? <==> kept != [] && "genome_hash" !in fields)
            && (r.Ok? ==>
                  && r.value.emitted == start.emitted + |kept|
                  && r.value.emitted + r.value.excluded == start.emitted + start.excluded + |genes|
                  && (!exclude ==> r.value.excluded == start.excluded)
                  && |r.value.records| == |start.records| + |kept|
                  && r.value.records[..|start.records|] == start.records
                  && forall k :: 0 <= k < |kept| ==>
                       r.value.records[|start.records| + k]
                         == FastaRecord(Header(HashText(fields), kept[k].0), kept[k].1.aaSequence))
  {
    var calls := CallsInOrder(genes);
    CallsExportMeaning(fields, calls, exclude, start);
    CallsInOrderFacts(genes);
    KeptMembers(calls, exclude);
    KeptAscending(calls, exclude);
    KeptPlusSkipped(calls, exclude);
  }

  /** The export over genomes in dict order, one genome after another, each
      continuing the file and the counters of the ones before. */
  function ExportOf(order: seq<string>, dict: GenomesDict, data: Data, exclude: bool): Result<Export>
    requires forall g :: g in order ==> g in dict.entries && g in data
  {
    if order == [] then Ok(NoRecords)
    else
      var before, last := ExportOf(order[..|order| - 1], dict, data, exclude), order[|order| - 1];
      if before.Err? then before
      else GenomeExport(dict.entries[last].fields, data[last], exclude, before.value)
  }

  /** One more genome: its loop continues from the export so far. */
  lemma ExportOfSnoc(order: seq<string>, i: int, dict: GenomesDict, data: Data, exclude: bool)
    requires 0 <= i < |order| && forall g :: g in order ==> g in dict.entries && g in data
    ensures forall g :: g in order[..i] ==> g in dict.entries && g in data
    ensures var before := ExportOf(order[..i], dict, data, exclude);
            ExportOf(order[..i + 1], dict, data, exclude)
              == if before.Err? then before
                 else GenomeExport(dict.entries[order[i]].fields, data[order[i]], exclude, before.value)
  {
    assert order[..i + 1][..i] == order[..i];
  }

  /** gen_combined_aa_sequences_FASTA before deduplication: the records of
      every genome of the genomes dict, in its key order. */
  function CombinedFasta(names: Option<seq<string>>, info: Info, data: Data, exclude: bool): Result<Export>
  {
    var dict := GenomesDictOf(names, info, data);
    GenomesDictMeaning(names, info, data);
    if dict.Err? then Err(dict.error) else ExportOf(dict.value.order, dict.value, data, exclude)
  }

  /** All gene calls of the genomes in `order`. */
  function TotalGeneCalls(order: seq<string>, data: Data): nat
    requires forall g :: g in order ==> g in data
  {
    if order == [] then 0 else TotalGeneCalls(order[..|order| - 1], data) + |data[order[|order| - 1]]|
  }

  /** Across genomes: one record per written gene call, and written plus
      excluded records are all gene calls of the exported genomes. */
  lemma {:induction false} ExportTotals(order: seq<string>, dict: GenomesDict, data: Data, exclude: bool)
    requires forall g :: g in order ==> g in dict.entries && g in data
    ensures var r := ExportOf(order, dict, data, exclude);
            r.Ok? ==> && |r.value.records| == r.value.emitted
                      && r.value.emitted + r.value.excluded == TotalGeneCalls(order, data)
                      && (!exclude ==> r.value.excluded == 0)
  {
    if order != [] {
      var init, last := order[..|order| - 1], order[|order| - 1];
      ExportTotals(init, dict, data, exclude);
      var before := ExportOf(init, dict, data, exclude);
      if before.Ok? {
        GenomeExportShape(dict.entries[last].fields, data[last], exclude, before.value);
      }
    }
  }

  /** A failure in one genome is the failure of the whole export. */
  lemma {:induction false} ExportFailurePersists(order: seq<string>, n: nat, dict: GenomesDict, data: Data, exclude: bool)
    requires forall g :: g in order ==> g in dict.entries && g in data
    requires n <= |order|
    requires ExportOf(order[..n], dict, data, exclude).Err?
    ensures ExportOf(order, dict, data, exclude) == ExportOf(order[..n], dict, data, exclude)
    decreases |order| - n
  {
    if n < |order| {
      assert order[..n + 1][..n] == order[..n];
      ExportFailurePersists(order, n + 1, dict, data, exclude);
    } else {
      assert order[..n] == order;
    }
  }

  /** The export as a whole: the written records and the emitted counter
      agree, and every gene call of the active genomes (each genome once,
      in the dict's key order) is either written or counted as excluded. */
  lemma CombinedFastaTotals(names: Option<seq<string>>, info: Info, data: Data, exclude: bool)
    requires CombinedFasta(names, info, data, exclude).Ok?
    ensures names.Some? && forall g :: g in Dedup(names.value) ==> g in data
    ensures var r := CombinedFasta(names, info, data, exclude).value;
            && |r.records| == r.emitted
            && r.emitted + r.excluded == TotalGeneCalls(Dedup(names.value), data)
            && (!exclude ==> r.excluded == 0)
  {
    GenomesDictMeaning(names, info, data);
    var dict := GenomesDictOf(names, info, data).value;
    ExportTotals(dict.order, dict, data, exclude);
  }

  // ------------------------------------------------------- worked examples

  /** Ids stored as 3, 1, 2 are listed as 1, 2, 3. */
  lemma SortedIdsExample()
    ensures SortedIds({3, 1, 2}) == [1, 2, 3]
  {
    var r := SortedIds({3, 1, 2});
    assert r[0] in {3, 1, 2} && r[1] in {3, 1, 2} && r[2] in {3, 1, 2};
    assert r[0] < r[1] < r[2];
  }

  /** A genome with hash 'h' and three gene calls stored under ids 3, 1, 2,
      the second of them partial. */
  function ExampleGenes(): map<int, GeneCall>
  {
    map[3 := GeneCall("MKC", "ATGAAATGT", 3, 0, map[], map[]),
        1 := GeneCall("MKA", "ATGAAAGCT", 3, 0, map[], map[]),
        2 := GeneCall("MKB", "ATGAAAAAT", 3, 1, map[], map[])]
  }

  lemma ExampleCallsInOrder()
    ensures var g := ExampleGenes();
            CallsInOrder(g) == [(1, g[1]), (2, g[2]), (3, g[3])]
  {
    SortedIdsExample();
    assert ExampleGenes().Keys == {3, 1, 2};
  }

  /** The kept calls and the skip count of the example, one call at a time. */
  lemma KeptUnrolled(g: map<int, GeneCall>, exclude: bool)
    requires 1 in g && 2 in g && 3 in g && g[1].partial == 0 && g[2].partial != 0 && g[3].partial == 0
    ensures var calls := [(1, g[1]), (2, g[2]), (3, g[3])];
            && Kept(calls, exclude) == (if exclude then [(1, g[1]), (3, g[3])] else calls)
            && SkippedCount(calls, exclude) == (if exclude then 1 else 0)
  {
    var c1, c2, c3 := (1, g[1]), (2, g[2]), (3, g[3]);
    var one, two, three := [c1], [c1, c2], [c1, c2, c3];
    assert one[..0] == [] && two[..1] == one && three[..2] == two;
    assert Kept(one, exclude) == one && SkippedCount(one, exclude) == 0;
    assert Kept(two, exclude) == (if exclude then one else two);
    assert SkippedCount(two, exclude) == (if exclude then 1 else 0);
  }

  /** Exported with partial calls kept, the records come by ascending
      numeric id, each headed `>h_<id>`, and nothing is excluded. */
  lemma AscendingExportExample()
    ensures GenomeExport(map["genome_hash" := Str("h")], ExampleGenes(), false, NoRecords)
            == Ok(Export([FastaRecord(">h_1", "MKA"), FastaRecord(">h_2", "MKB"), FastaRecord(">h_3", "MKC")], 3, 0))
  {
    var g := ExampleGenes();
    var calls := CallsInOrder(g);
    ExampleCallsInOrder();
    CallsExportMeaning(map["genome_hash" := Str("h")], calls, false, NoRecords);
    KeptUnrolled(g, false);
    assert IntToString(1) == "1" && IntToString(2) == "2" && IntToString(3) == "3";
    assert Header("h", 1) == ">h_1" && Header("h", 2) == ">h_2" && Header("h", 3) == ">h_3";
    assert HashText(map["genome_hash" := Str("h")]) == "h";
    assert Records("h", calls) == [FastaRecord(">h_1", "MKA"), FastaRecord(">h_2", "MKB"), FastaRecord(">h_3", "MKC")];
    assert GenomeExport(map["genome_hash" := Str("h")], g, false, NoRecords)
           == CallsExport(map["genome_hash" := Str("h")], calls, false, NoRecords);
    assert NoRecords.records + Records("h", calls) == Records("h", calls);
  }

  /** Exported with partial calls excluded, the partial call 2 is skipped
      and counted: two records are written and one call is excluded. */
  lemma PartialExclusionExample()
    ensures GenomeExport(map["genome_hash" := Str("h")], ExampleGenes(), true, NoRecords)
            == Ok(Export([FastaRecord(">h_1", "MKA"), FastaRecord(">h_3", "MKC")], 2, 1))
  {
    var g := ExampleGenes();
    var calls := CallsInOrder(g);
    ExampleCallsInOrder();
    CallsExportMeaning(map["genome_hash" := Str("h")], calls, true, NoRecords);
    KeptUnrolled(g, true);
    assert IntToString(1) == "1" && IntToString(3) == "3";
    assert Header("h", 1) == ">h_1" && Header("h", 3) == ">h_3";
    assert HashText(map["genome_hash" := Str("h")]) == "h";
    assert Records("h", [(1, g[1]), (3, g[3])]) == [FastaRecord(">h_1", "MKA"), FastaRecord(">h_3", "MKC")];
    assert GenomeExport(map["genome_hash" := Str("h")], g, true, NoRecords)
           == CallsExport(map["genome_hash" := Str("h")], calls, true, NoRecords);
    assert NoRecords.records + Records("h", [(1, g[1]), (3, g[3])]) == Records("h", [(1, g[1]), (3, g[3])]);
  }
}
