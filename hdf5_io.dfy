/** The versioned, hash-identified HDF5 container (class HDF5_IO): the
    identity check made when a file is opened or created, and integer arrays
    stored at paths. The file on disk is given to `Open` as a value; the
    handle's `datasets` is the file's path-addressed content afterwards. */
module Hdf5Io {
  import opened Outcomes

  /** The two root attributes of a container: `version` and `hash`. */
  datatype Attrs = Attrs(version: string, hash: string)

  /** A container file as it sits on disk. */
  datatype Image = Image(attrs: Attrs, datasets: map<string, seq<int>>)

  /** The element types integer arrays are stored with. */
  datatype DType = UInt8 | UInt16

  function Capacity(t: DType): nat
  {
    match t
    case UInt8 => 0x100
    case UInt16 => 0x1_0000
  }

  /** Every element is representable in the element type. */
  predicate Fits(l: seq<int>, t: DType)
  {
    forall k :: 0 <= k < |l| ==> 0 <= l[k] < Capacity(t)
  }

  /** Python's truthiness of the caller's `unique_hash` (None or ''). */
  predicate Given(h: Option<string>)
  {
    h.Some? && h.value != ""
  }

  /** What a successful open established: the root attributes now in force,
      the `unique_hash` the handle exposes (never set when creating), whether
      the handle may write, and whether the file's former datasets survive
      (h5py mode 'a' keeps them, 'w' truncates, 'r' reads them). */
  datatype Opening = Opening(attrs: Attrs, uniqueHash: Option<string>, writable: bool, keepsContent: bool)

  /** The decision HDF5_IO.__init__ makes: flag validation, then either
      stamping a new identity or checking the stored one. `onDisk` is the
      root attributes of the file at the path, if a file is there. */
  function Identify(createNew: bool, appendMode: bool, ignoreHash: bool, uniqueHash: Option<string>,
                    clientVersion: string, onDisk: Option<Attrs>): (r: Result<Opening>)
    // flag validation, in the order the source checks
    ensures appendMode && !createNew ==> r == Err(InvalidConfiguration(AppendWithoutCreate))
    ensures createNew && ignoreHash ==> r == Err(InvalidConfiguration(IgnoreHashOnCreate))
    ensures createNew && !ignoreHash && !Given(uniqueHash) ==> r == Err(InvalidConfiguration(MissingHash))
    ensures r.Err? && r.error.InvalidConfiguration? <==>
              (appendMode && !createNew) || (createNew && (ignoreHash || !Given(uniqueHash)))
    // creation stamps the caller's hash and the client's version
    ensures createNew ==> (r.Ok? <==> !ignoreHash && Given(uniqueHash))
    ensures createNew && r.Ok? ==>
              && r.value.attrs == Attrs(clientVersion, uniqueHash.value)
              && r.value.uniqueHash.None? && r.value.writable
              && r.value.keepsContent == (appendMode && onDisk.Some?)
    // a read-only open succeeds exactly when the file exists, its version is the
    // client's, and its hash is the expected one or the hash is ignored
    ensures !createNew && !appendMode ==>
              (r.Ok? <==> onDisk.Some? && onDisk.value.version == clientVersion
                          && (ignoreHash || uniqueHash == Some(onDisk.value.hash)))
    ensures !createNew && !appendMode && onDisk.None? ==> r == Err(FileNotFound)
    ensures !createNew && !appendMode && onDisk.Some? && onDisk.value.version != clientVersion ==>
              r == Err(VersionMismatch)
    ensures !createNew && !appendMode && onDisk.Some? && onDisk.value.version == clientVersion ==>
              (r == Err(HashMismatch) <==> !ignoreHash && uniqueHash != Some(onDisk.value.hash))
    // after a read-only open the handle's identity is the stored hash, not the argument
    ensures !createNew && r.Ok? ==>
              && onDisk.Some? && r.value.attrs == onDisk.value
              && r.value.uniqueHash == Some(onDisk.value.hash)
              && !r.value.writable && r.value.keepsContent
  {
    if appendMode && !createNew then Err(InvalidConfiguration(AppendWithoutCreate))
    else if createNew then
      if ignoreHash then Err(InvalidConfiguration(IgnoreHashOnCreate))
      else if !Given(uniqueHash) then Err(InvalidConfiguration(MissingHash))
      else Ok(Opening(Attrs(clientVersion, uniqueHash.value), None, true, appendMode && onDisk.Some?))
    else if onDisk.None? then Err(FileNotFound)
    else if onDisk.value.version != clientVersion then Err(VersionMismatch)
    else if !ignoreHash && Some(onDisk.value.hash) != uniqueHash then Err(HashMismatch)
    else Ok(Opening(onDisk.value, Some(onDisk.value.hash), false, true))
  }

  function AttrsOf(onDisk: Option<Image>): Option<Attrs>
  {
    if onDisk.Some? then Some(onDisk.value.attrs) else None
  }

  /** An open container. The identity fields never change after opening. */
  class Hdf5File {
    const version: string            // the client's format version
    const attrs: Attrs                // root attributes of the file
    const uniqueHash: Option<string>  // set by a read-only open only
    const writable: bool
    var datasets: map<string, seq<int>>

    constructor (version: string, opening: Opening, datasets: map<string, seq<int>>)
      ensures this.version == version && attrs == opening.attrs
      ensures uniqueHash == opening.uniqueHash && writable == opening.writable
      ensures this.datasets == datasets
    {
      this.version := version;
      this.attrs := opening.attrs;
      this.uniqueHash := opening.uniqueHash;
      this.writable := opening.writable;
      this.datasets := datasets;
    }

    /** HDF5_IO.__init__: open the file at a path, whose current state is `onDisk`. */
    static method Open(version: string, uniqueHash: Option<string>, onDisk: Option<Image>,
                       createNew: bool := false, appendMode: bool := false, ignoreHash: bool := false)
      returns (r: Result<Hdf5File>)
      ensures var id := Identify(createNew, appendMode, ignoreHash, uniqueHash, version, AttrsOf(onDisk));
              && (r.Err? <==> id.Err?)
              && (r.Err? ==> r.error == id.error)
              && (r.Ok? ==>
                    && fresh(r.value) && r.value.version == version && r.value.Identified()
                    && r.value.attrs == id.value.attrs && r.value.uniqueHash == id.value.uniqueHash
                    && r.value.writable == id.value.writable
                    && r.value.datasets == if id.value.keepsContent then onDisk.value.datasets else map[])
    {
      var id := Identify(createNew, appendMode, ignoreHash, uniqueHash, version, AttrsOf(onDisk));
      if id.Err? {
        return Err(id.error);
      }
      var content := if id.value.keepsContent then onDisk.value.datasets else map[];
      var f := new Hdf5File(version, id.value, content);
      r := Ok(f);
    }

    /** The identity a handle exposes, when it exposes one, is the file's
        stored hash. */
    predicate Identified()
    {
      uniqueHash.Some? ==> uniqueHash.value == attrs.hash
    }

    /** `path in self.fp` for a dataset path; never fails. */
    function PathExists(path: string): (b: bool)
      reads this
      ensures b <==> path in datasets
    {
      path in datasets
    }

    /** Reading an array: the stored elements in order, or a failure when
        nothing is stored at the path. */
    function GetIntegerList(path: string): (r: Result<seq<int>>)
      reads this
      ensures r.Ok? <==> PathExists(path)
      ensures r.Ok? ==> r.value == datasets[path]
    {
      if path in datasets then Ok(datasets[path]) else Err(PathNotFound)
    }

    /** Writing an array at a new path. A path is written at most once and
        only through a handle opened for writing. */
    method AddIntegerList(path: string, l: seq<int>, dtype: DType := UInt16) returns (r: Outcome)
      requires Fits(l, dtype)
      modifies this
      ensures r == if !writable then Fail(ReadOnlyFile)
                   else if path in old(datasets) then Fail(DuplicatePath)
                   else Pass
      ensures datasets == if r.Pass? then old(datasets)[path := l] else old(datasets)
      // the round trip: what was written is read back, in order
      ensures r.Pass? ==> GetIntegerList(path) == Ok(l)
      ensures forall p :: p != path ==> GetIntegerList(p) == old(GetIntegerList(p))
    {
      if !writable {
        return Fail(ReadOnlyFile);
      }
      if path in datasets {
        return Fail(DuplicatePath);
      }
      datasets := datasets[path := l];
      r := Pass;
    }
  }
}
