/** The errors the reader returns, with the message text each one carries in the source. */
module EpubErrors {

  datatype Error =
    | NoRootfile
    | BadRootfile
    | NoItemref
    | BadItemref
    | BadManifest
      /** The archive has no container descriptor: the source calls `Open` on the nil
          `*zip.File` it looks up, a run-time panic rather than an `error`. */
    | NilEntry
      /** An attribute outside a whitelist on a manifest item, itemref or navPoint; all three
          whitelists use the manifest item's message. */
    | UnknownField(field: string)
    | UnknownMetaAttribute(attribute: string)
    | MetadataStartNotFound
    | MetadataStartEndNotFound
    | MetadataEndNotFound
    | TocItemNotFound
    | TocFileNotFound
      /** An error passed through from the archive, the XML decoder or its tokenizer. */
    | Foreign(message: string)

  function Message(e: Error): string {
    match e
    case NoRootfile => "epub: no rootfile found in container"
    case BadRootfile => "epub: container references non-existent rootfile"
    case NoItemref => "epub: no itemrefs found in spine"
    case BadItemref => "epub: itemref references non-existent item"
    case BadManifest => "epub: manifest references non-existent item"
    case NilEntry => "runtime error: invalid memory address or nil pointer dereference"
    case UnknownField(f) => "epub: unknown field in manifest item: " + f
    case UnknownMetaAttribute(a) => "unknown attribute " + a + " in metadata>meta"
    case MetadataStartNotFound => "metadata not found 1"
    case MetadataStartEndNotFound => "metadata not found 2"
    case MetadataEndNotFound => "metadata not found 3"
    case TocItemNotFound => "epub: toc item not found"
    case TocFileNotFound => "epub: toc zip file not in epub zip map"
    case Foreign(m) => m
  }
}
