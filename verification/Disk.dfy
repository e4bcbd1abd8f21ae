/** The file tree, as a mutable map from path to contents. */
module Disk {
  import opened Bytes
  import opened Paths

  type Files = map<Path, Bytes>

  class Disk {
    var files: Files

    constructor (files: Files)
      ensures this.files == files
    {
      this.files := files;
    }
  }

  /** The files after writing contents[i] to paths[i] for every i, in order. */
  function Stored(files: Files, paths: seq<Path>, contents: seq<Bytes>): Files
    requires |paths| == |contents|
  {
    if paths == [] then files
    else
      var n := |paths| - 1;
      Stored(files, paths[..n], contents[..n])[paths[n] := contents[n]]
  }

  lemma {:induction false} StoredElsewhere(files: Files, paths: seq<Path>, contents: seq<Bytes>)
    requires |paths| == |contents|
    ensures forall p :: p in Stored(files, paths, contents) <==> p in files || p in paths
    ensures forall p | p in files && p !in paths :: Stored(files, paths, contents)[p] == files[p]
  {
    if paths != [] {
      var n := |paths| - 1;
      StoredElsewhere(files, paths[..n], contents[..n]);
      assert paths == paths[..n] + [paths[n]];
    }
  }

  lemma {:induction false} StoredAt(files: Files, paths: seq<Path>, contents: seq<Bytes>, i: nat)
    requires |paths| == |contents| && i < |paths|
    requires forall j | i < j < |paths| :: paths[j] != paths[i]
    ensures paths[i] in Stored(files, paths, contents)
    ensures Stored(files, paths, contents)[paths[i]] == contents[i]
  {
    var n := |paths| - 1;
    if i < n {
      StoredAt(files, paths[..n], contents[..n], i);
    }
  }
}
