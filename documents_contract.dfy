/**
 * The part of a document's cursor row that the selection metadata reads:
 * its mime type and its capability flags, with the flag bits it tests.
 */
module DocumentsContract {

  /** The two columns read from a document's cursor: COLUMN_MIME_TYPE and COLUMN_FLAGS (a Java int). */
  datatype DocRow = DocRow(mimeType: string, flags: bv32)

  /** Single-bit capability flags of a document, as the platform's document contract numbers them. */
  const FLAG_SUPPORTS_DELETE: bv32 := 0x0000_0004
  const FLAG_DIR_SUPPORTS_CREATE: bv32 := 0x0000_0008
  const FLAG_SUPPORTS_RENAME: bv32 := 0x0000_0040
  const FLAG_PARTIAL: bv32 := 0x0001_0000

  /** Whether `flag` is set in a row's flags: the source's `(docFlags & FLAG) != 0`. */
  predicate HasFlag(row: DocRow, flag: bv32)
  {
    row.flags & flag != 0
  }
}
