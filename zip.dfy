/**
 * A zip archive as the repackaging step sees it once JSZip has decoded it:
 * the entries in container order, each with its path, whether it is a folder
 * marker, and its bytes. Decoding and encoding themselves are not modelled.
 */
module Zip {

  /** One byte of an entry's content. */
  newtype byte = x: int | 0 <= x < 256

  /** One entry of a loaded archive, with its path relative to the archive root. */
  datatype Entry = Entry(path: string, isDir: bool, content: seq<byte>)

  /** A loaded archive: its entries in the order `forEach` visits them. */
  type Archive = seq<Entry>

  /** The files of an archive under construction, by path. Adding a file under
      a path that is already present replaces the earlier bytes. */
  type FileTable = map<string, seq<byte>>

  /** The number of entries that are files rather than folder markers. */
  function FileCount(a: Archive): (n: nat)
    ensures n <= |a|
    ensures n == 0 <==> forall i :: 0 <= i < |a| ==> a[i].isDir
  {
    if a == [] then 0
    else (if a[0].isDir then 0 else 1) + FileCount(a[1..])
  }
}
