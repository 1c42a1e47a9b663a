/** Document metadata the curation modules share. */
module Documents {
  datatype Status = Draft | Canonical | Superseded | Deprecated | Archived
}
