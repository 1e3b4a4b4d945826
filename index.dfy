/** The index constructors handed to users for their `Indexes` and
    `UniqueIndexes` declarations (index.go). */
module Indexes {
  import opened Schema

  /** NewIndex: an index named `name` over `cols`, with no check of either. */
  function NewIndex(name: string, cols: seq<string>): (idx: Index)
    ensures idx.name == name
    ensures idx.columns == cols
  {
    Index(name, cols)
  }

  /** NewUniqueIndex: a unique index named `name` over `cols`, with no check
      of either. */
  function NewUniqueIndex(name: string, cols: seq<string>): (idx: UniqueIndex)
    ensures idx.name == name
    ensures idx.columns == cols
  {
    UniqueIndex(name, cols)
  }
}
