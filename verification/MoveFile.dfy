/** Moving a shard file to its target, with the retry rule for a target that is already there. */
module MoveFile {
  import opened Bytes
  import opened Paths
  import opened Disk

  /** How a file is moved: the checksum function, and whether rename works (same device). */
  datatype Mover = Mover(hash: Bytes -> string, sameDevice: bool) {
    /** An empty checksum is not compared. */
    predicate Matches(b: Bytes, sum: string) {
      sum == "" || hash(b) == sum
    }
  }

  /** The files after a successful move, None when the move fails. A rename does not check the
      checksum; an existing target and a copied file are checked. */
  function Moved(mover: Mover, files: Files, src: Path, dst: Path, sum: string): Option<Files> {
    if dst in files then
      if mover.Matches(files[dst], sum) then Some(files - {src}) else None
    else if src !in files then None
    else if mover.sameDevice || mover.Matches(files[src], sum) then Some(files[dst := files[src]] - {src})
    else None
  }

  /** Between the rename of a copied file and the removal of its source both are there. */
  function Copied(files: Files, src: Path, dst: Path): Files
    requires src in files
  {
    files[dst := files[src]]
  }

  method Move(mover: Mover, disk: Disk, src: Path, dst: Path, sum: string) returns (ok: bool)
    modifies disk
    ensures ok <==> Moved(mover, old(disk.files), src, dst, sum).Some?
    ensures disk.files == if ok then Moved(mover, old(disk.files), src, dst, sum).value else old(disk.files)
  {
    if dst in disk.files {
      if !mover.Matches(disk.files[dst], sum) { return false; }
      if src in disk.files {
        disk.files := disk.files - {src};
      }
      return true;
    }
    if src !in disk.files { return false; }
    if mover.sameDevice {
      disk.files := disk.files[dst := disk.files[src]] - {src};
      return true;
    }
    if !mover.Matches(disk.files[src], sum) { return false; }
    disk.files := Copied(disk.files, src, dst);
    disk.files := disk.files - {src};
    return true;
  }

  /** A successful move leaves the source's bytes at the target, unless a matching target was there. */
  lemma MoveDelivers(mover: Mover, files: Files, src: Path, dst: Path, sum: string)
    requires Moved(mover, files, src, dst, sum).Some?
    ensures src != dst <==> dst in Moved(mover, files, src, dst, sum).value
    ensures src != dst ==> Moved(mover, files, src, dst, sum).value[dst] == files[if dst in files then dst else src]
    ensures forall p | p != src && p != dst :: p in files <==> p in Moved(mover, files, src, dst, sum).value
    ensures forall p | p != src && p != dst && p in files :: Moved(mover, files, src, dst, sum).value[p] == files[p]
  {
  }

  /** Moving again what has been moved, or only copied, changes nothing more. */
  lemma MoveAgain(mover: Mover, files: Files, src: Path, dst: Path, sum: string)
    requires src != dst && Moved(mover, files, src, dst, sum).Some?
    requires src in files ==> mover.Matches(files[src], sum)
    ensures var moved := Moved(mover, files, src, dst, sum).value;
            Moved(mover, moved, src, dst, sum) == Some(moved)
    ensures dst !in files ==> Moved(mover, Copied(files, src, dst), src, dst, sum) == Moved(mover, files, src, dst, sum)
  {
    var moved := Moved(mover, files, src, dst, sum).value;
    assert moved - {src} == moved;
    if dst !in files {
      assert Copied(files, src, dst) - {src} == moved;
    }
  }

  /** When a move succeeds. A rename is not checked; a copy and a target that is already there are. */
  lemma MovesExactly(mover: Mover, files: Files, src: Path, dst: Path, sum: string)
    ensures Moved(mover, files, src, dst, sum).Some? <==>
              if dst in files then sum == "" || mover.hash(files[dst]) == sum
              else src in files && (mover.sameDevice || sum == "" || mover.hash(files[src]) == sum)
  {
  }
}
