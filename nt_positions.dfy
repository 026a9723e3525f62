/** AuxiliaryDataForNtPositions: one array of 8-bit per-base codes per
    contig, stored at `/data/nt_position_info/<contig>` of an HDF5 container.
    The store is an HDF5_IO in the source; here it holds its container. */
module NtPositions {
  import opened Outcomes
  import opened Hdf5Io

  const NtPositionRoot := "/data/nt_position_info/"

  function ContigPath(contig: string): string
  {
    NtPositionRoot + contig
  }

  /** Distinct contigs live at distinct paths. */
  lemma ContigPathInjective(a: string, b: string)
    requires ContigPath(a) == ContigPath(b)
    ensures a == b
  {
    var n := |NtPositionRoot|;
    assert a == ContigPath(a)[n..];
    assert b == ContigPath(b)[n..];
  }

  class NtPositionStore {
    const file: Hdf5File

    constructor (file: Hdf5File)
      ensures this.file == file
    {
      this.file := file;
    }

    /** The constructor of the source: it forwards only `create_new` to
        HDF5_IO, so the stored hash is always checked on a read-only open. */
    static method Open(version: string, dbHash: Option<string>, onDisk: Option<Image>, createNew: bool := false)
      returns (r: Result<NtPositionStore>)
      ensures var id := Identify(createNew, false, false, dbHash, version, AttrsOf(onDisk));
              && (r.Err? <==> id.Err?)
              && (r.Err? ==> r.error == id.error)
              && (r.Ok? ==> fresh(r.value) && fresh(r.value.file) && r.value.file.Identified()
                            && r.value.file.attrs == id.value.attrs
                            && r.value.file.uniqueHash == id.value.uniqueHash
                            && r.value.file.writable == createNew
                            && r.value.file.datasets == if createNew then map[] else onDisk.value.datasets)
      // there is no way to skip the hash check
      ensures !createNew && onDisk.Some? && dbHash != Some(onDisk.value.attrs.hash) ==> r.Err?
    {
      var f := Hdf5File.Open(version, dbHash, onDisk, createNew := createNew);
      if f.Err? {
        return Err(f.error);
      }
      var s := new NtPositionStore(f.value);
      r := Ok(s);
    }

    function IsKnownContig(contig: string): (b: bool)
      reads file
      ensures b <==> ContigPath(contig) in file.datasets
    {
      file.PathExists(ContigPath(contig))
    }

    /** Stores the codes of one contig; a contig is stored at most once. */
    method Append(contig: string, codes: seq<int>) returns (r: Outcome)
      requires Fits(codes, UInt8)
      modifies file
      ensures r == if !file.writable then Fail(ReadOnlyFile)
                   else if old(IsKnownContig(contig)) then Fail(DuplicatePath)
                   else Pass
      ensures file.datasets == if r.Pass? then old(file.datasets)[ContigPath(contig) := codes]
                               else old(file.datasets)
      ensures r.Pass? ==> IsKnownContig(contig) && Get(contig) == codes
      ensures forall c :: c != contig ==> Get(c) == old(Get(c)) && IsKnownContig(c) == old(IsKnownContig(c))
    {
      r := file.AddIntegerList(ContigPath(contig), codes, UInt8);
      forall c | c != contig ensures ContigPath(c) != ContigPath(contig) {
        if ContigPath(c) == ContigPath(contig) { ContigPathInjective(c, contig); }
      }
    }

    /** The relaxed read: an unknown contig yields no codes, not an error. */
    function Get(contig: string): (r: seq<int>)
      reads file
      ensures !IsKnownContig(contig) ==> r == []
      ensures IsKnownContig(contig) ==> file.GetIntegerList(ContigPath(contig)) == Ok(r)
    {
      if !IsKnownContig(contig) then []
      else file.GetIntegerList(ContigPath(contig)).value
    }
  }
}
