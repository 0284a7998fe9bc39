/** The files an operation writes or removes, as a map from path to
    contents. Directories, permissions and write failures are not
    modelled. */
module Files {
  import opened Wrappers

  type Disk = map<string, seq<byte>>

  /** Writing a file and then unlinking it leaves what unlinking alone
      would have left. */
  lemma WriteThenRemove(disk: Disk, p: string, content: seq<byte>)
    ensures disk[p := content] - {p} == disk - {p}
  {
  }

  /** Unlinking a path that was not there changes nothing. */
  lemma RemoveAbsent(disk: Disk, p: string)
    requires p !in disk
    ensures disk - {p} == disk
  {
  }
}
