/** What the file panes, local and remote, both list. */
module Files {

  /** A row of a listing (`HxFileEntry`). */
  datatype FileRow = FileRow(name: string, folder: bool, size: nat)
}
