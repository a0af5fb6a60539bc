/** The local directory for temporary files. */
module TempFiles {
  import opened Bytes
  import opened Wrappers

  /** Whether so many bytes fit into a capacity. */
  predicate FitsIn(capacity: Option<nat>, size: nat) {
    capacity.Some? ==> size <= capacity.value
  }

  /** What the local disk allows one verification: creating and closing the file of the dump and the file
      of the restore list, and how many bytes the two may take together. */
  datatype Disk = Disk(
    canCreate: bool,
    canClose: bool,
    canCreateList: bool,
    canCloseList: bool,
    capacity: Option<nat>)
  {
    predicate Room(size: nat) {
      FitsIn(capacity, size)
    }

    /** The capacity left beside a file. */
    function Beside(held: nat): Option<nat>
      requires Room(held)
    {
      if capacity.Some? then Some(capacity.value - held) else None
    }
  }

  /** The files, named by numbers. */
  class TempDir {
    const disk: Disk
    var files: map<nat, seq<byte>>
    var next: nat

    ghost predicate Valid()
      reads this
    {
      forall f :: f in files ==> f < next
    }

    constructor (disk: Disk)
      ensures Valid() && files == map[] && this.disk == disk
    {
      this.disk := disk;
      files, next := map[], 0;
    }
  }
}
