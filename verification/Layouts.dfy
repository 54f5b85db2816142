/** What the tables' headers say of their records, for a reader to compare with its own. */
module Layouts {
  /** A field by its name, its type and its offset. */
  datatype Field = Field(name: string, kind: string, offset: nat)

  datatype Record = Record(size: nat, fields: seq<Field>)

  /** A version of the format, the byte order, and the records by name. */
  datatype Layout = Layout(version: nat, littleEndian: bool, records: map<string, Record>)
}
