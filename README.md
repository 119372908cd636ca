# A verified model of the go-epub reader core

This project models two parts of the go-epub reader in Dafny and proves properties about them.

**The metadata refinement engine** (`epub/epub_metadata.go`) has three steps:

1. It isolates the `<metadata>` block of a package document by three literal searches.
2. It scans the block's XML tokens with a "current text sink". Each `<meta>` is sorted into one of three tables:
   - a cover id;
   - an ordered multi-map of other tags;
   - a table of `file-as` refinements.
3. It applies those tables to the package's decoded metadata.

**The reader's reference binder** (`epub/epub.go`) runs these stages:

1. The archive's file table.
2. The container stage.
3. The package stage.
4. `setItems`, which resolves every manifest href against the package document's directory and binds every spine itemref to its manifest item.
5. `setToc`.

The model also covers:
- the `Open` guard of a manifest item;
- the attribute whitelists of manifest items, itemrefs and navPoints.

Which declarations the model follows:
- **Metadata.** Package `epub` declares `Metadata` twice:
  - at `epub/epub.go:88`, with flat string fields;
  - at `epub/epub_metadata.go:26`, with title and publisher records, a list of creators, `OtherTags` and `CoverManifestId`.

  The model follows the one at `epub/epub_metadata.go:26`, because `unmarshallCustomMetadata` is written against it.
- **Whitelists.** The `UnmarshalXML` methods of `ManifestItem`, `SpineItem` and `NavPoint` are declared in `epub/epub.go` (lines 124, 169 and 345) and again in `epub/epub_debug_xml_parser.go`, behind the `debug_xml_parser` build tag; the `epub/epub.go` copies carry no opposite tag. The two copies of each whitelist have the same names and the same rejection, so one set of functions stands for both.

The source's in-place code keeps its form:
- **Classes.** `CustomMetadataInfo` (the scan's receiver), `Rootfile` and `Reader` are classes with the source's fields.
- **Loops.** Each loop that walks tokens, rootfiles, items, itemrefs, buckets or creators is a method with a loop.
- **Specifications.**
  - Every such method is proved against a specification function that describes the whole step:
    - the scan against `Scan` and `Step`;
    - the file table against `FileTable`;
    - the reader stages against `ContainerStage`, `PackagesStage`, `ItemsStage`, `TocStage` and `InitStages`;
    - the apply pass against `Refine`, `CleanTags` and `RefineCreators`.
  - The lemmas then relate these functions to independent, declarative readings.
  - For the scan, that reading is `Accumulate`, where each `<meta>` before the scan stops adds its pair and its slot with the text after it.
  - For the binder, it is `Bound`: every itemref points at the last manifest item with its id.
- **Modules.**
  - `Wrappers`: Option and Result.
  - `Text`: `bytes.Cut` and `strings.TrimSpace`.
  - `Paths`: `path.Clean`, `Dir` and `Join`.
  - `EpubErrors`: the errors and their message texts.
  - `XmlTokens`: the token stream.
  - `EpubMetadata`: the metadata engine.
  - `Items`: the package records, the whitelists and `Open`.
  - `Epub`: the reader.

External effects become parameters:
- **Archive.** The zip archive is its list of entries (name and content).
- **Decoders.** The structural XML decoders are function parameters:
  - the container decode, giving the rootfile paths;
  - the package decode into a rootfile's package;
  - the toc parse.
- **Tokenizer.** The XML tokenizer is a parameter giving a token sequence.
  - A non-EOF tokenizer error is the token `SyntaxError`.
  - The end of the sequence is `io.EOF`.

Behaviour of the code that a reader might not expect:
- **Unknown attributes.**
  - A `<meta>` with an attribute outside `refines`, `content`, `property`, `name` and `scheme` aborts the scan, and the whole refinement pass with it.
  - Manifest items, itemrefs and navPoints reject unknown attributes instead of skipping them.
- **Sort-name writes.**
  - The `file-as` writes onto the title, the publisher and the creators overwrite unconditionally, so the last refinement of an id is the one that applies.
  - The title and the publisher are refined through the literal keys `"title"` and `"publisher"`, not through their ids. So a refinement of `#t1` never reaches a title whose id is `t1` (`TitleRefinementNeedsLiteralKey`).
- **Missing container.** A missing `META-INF/container.xml` makes the source call `Open` on a nil entry, which panics. The model gives it the error `NilEntry`, whose message is the Go runtime's.

## Model

| member | source | states |
|---|---|---|
| Text.Ascii | epub/epub_metadata.go:249-261 | a literal's byte string has the literal's length and code points |
| Text.Index | epub/epub_metadata.go:249-257 | the result is an occurrence of `sep` with no earlier occurrence; it is None exactly when `sep` occurs nowhere |
| Text.Cut | epub/epub_metadata.go:249-257 | when found, `before + sep + after` is the input and `before` holds no occurrence; otherwise the input comes back whole with an empty rest; found exactly when `sep` occurs |
| Text.CutAt | epub/epub_metadata.go:249-257 | cutting `a + sep + b` yields exactly `a` and `b` when `sep` does not occur before `a`'s end |
| Text.TrimLeft | epub/epub_metadata.go:200 | the result is a suffix, the dropped prefix is all white space, and the result does not start with white space |
| Text.TrimRight | epub/epub_metadata.go:200 | the result is a prefix, the dropped suffix is all white space, and the result does not end with white space |
| Text.TrimSpace | epub/epub_metadata.go:200 | the trimmed text has no white space (Unicode White_Space) at either end |
| Text.TrimLeftBlank | epub/epub_metadata.go:200-203 | the left trim is empty exactly when the text is all white space |
| Text.TrimRightBlank | epub/epub_metadata.go:200-203 | the right trim is empty exactly when the text is all white space |
| Text.TrimSpaceBlank | epub/epub_metadata.go:200-203 | character data trims to nothing exactly when it is all white space, which is the blank data the scan skips |
| Text.TrimSpaceOfTrimmed | epub/epub_metadata.go:200 | text without white space at its ends is its own trim |
| Text.TrimSpaceIdempotent | epub/epub_metadata.go:200 | trimming twice equals trimming once |
| Paths.Split | epub/epub.go:313 | a path has at least one element and no element contains a slash |
| Paths.JoinedSplit | epub/epub.go:313 | joining the elements of a path gives the path back |
| Paths.SplitJoined | epub/epub.go:313 | splitting slash-free elements joined by slashes gives the elements back |
| Paths.Clean | epub/epub.go:313 | a cleaned path is never empty |
| Paths.DirPrefix | epub/epub.go:313 | the directory part of a path is a prefix of it |
| Paths.CleanPlain | epub/epub.go:313 | a relative path of plain names is already clean |
| Paths.JoinDirPlain | epub/epub.go:313-314 | for a package document at `dir/base`, an href of plain names resolves to `dir/href` |
| Paths.JoinDirTopLevel | epub/epub.go:313-314 | for a package document at the archive's top level, an href of plain names resolves to itself |
| Items.FirstUnknown | epub/epub.go:139-143 | None exactly when every attribute's local name is whitelisted; otherwise the first attribute whose name is not, with all earlier names whitelisted |
| Items.AcceptanceByNames | epub/epub_debug_xml_parser.go:28-32 | an element is accepted exactly when the set of its attributes' local names lies within the whitelist, so values, order and repetition never matter |
| Items.SameNamesSameVerdict | epub/epub_debug_xml_parser.go:51-55 | two attribute lists with the same local names get the same verdict |
| Items.ManifestItemAccepts | epub/epub.go:132-143 | a manifest item is accepted exactly when every attribute is `id`, `href`, `media-type` or `properties` |
| Items.SpineItemAccepts | epub/epub.go:177-187 | an itemref is accepted exactly when every attribute is `idref`, `linear` or `properties` |
| Items.NavPointAccepts | epub/epub.go:353-369 | a navPoint is accepted exactly when every attribute is `id`, `playOrder` or `class` |
| Items.SpineIdRejected | epub/epub.go:161-187 | an itemref carrying `id` is rejected, although the record has a field for it |
| Items.UnmarshalManifestItem | epub/epub_debug_xml_parser.go:13-35 | a rejected item keeps its receiver unchanged and reports the whitelist's error; an accepted one is the structural decode |
| Items.UnmarshalSpineItem | epub/epub_debug_xml_parser.go:37-58 | the manifest binding is never touched; a rejected itemref is unchanged; an accepted one takes the decode of its data |
| Items.UnmarshalNavPoint | epub/epub_debug_xml_parser.go:60-89 | a rejected navPoint is unchanged with the whitelist's error; an accepted one is the structural decode |
| Items.RejectionReportsFirstForeign | epub/epub.go:139-145 | the error names the first foreign attribute, and the receiver is left as it was |
| Items.Open | epub/epub.go:480-486 | fails exactly when the item's entry is nil, then with BadManifest; otherwise yields that entry |
| EpubMetadata.CollectMetaAttributes | epub/epub_metadata.go:120-135 | on success the table still has exactly the five known keys |
| EpubMetadata.CollectAccepts | epub/epub_metadata.go:129-135 | a `<meta>` is read exactly when each attribute is one of the five; a failure names an attribute outside them |
| EpubMetadata.CollectValues | epub/epub_metadata.go:129-131 | each field holds the value of the last attribute with its name, or its default |
| EpubMetadata.ReadMetaTagSpec | epub/epub_metadata.go:120-152 | a `<meta>` is read exactly when its attributes are among the five; each of the four it uses holds the last value given, "" when absent; the failure names a foreign attribute |
| EpubMetadata.SchemeIgnored | epub/epub_metadata.go:120-127 | a `scheme` attribute, wherever it stands, changes neither acceptance nor any value read |
| EpubMetadata.ApplyMeta | epub/epub_metadata.go:137-168 | after a `<meta>` the sink still names an existing slot; if the slot it named was unwritten, so is the one it names now |
| EpubMetadata.Write | epub/epub_metadata.go:204-206 | writing text changes no bucket's key or length, and not the cover id |
| EpubMetadata.Step | epub/epub_metadata.go:110-210 | after a token the sink names an existing slot; no token but character data fills a pending slot |
| EpubMetadata.CustomMetadataInfo.constructor | epub/epub_metadata.go:248 | the zero-value tables |
| EpubMetadata.CustomMetadataInfo.UnmarshalXML | epub/epub_metadata.go:88-212 | resets the two maps and keeps the cover id; the returned error and the final tables are those of the specification scan |
| EpubMetadata.CustomMetadataInfo.Consume | epub/epub_metadata.go:100-210 | one turn of the token loop: stop with nil at the root's end tag, stop with the error of a failing token, or go on with the new sink and tables |
| EpubMetadata.CustomMetadataInfo.ReadMeta | epub/epub_metadata.go:120-138 | the attribute loop reads the `<meta>` as the specification does, stopping at the first foreign attribute |
| EpubMetadata.CustomMetadataInfo.ApplyMetaTag | epub/epub_metadata.go:137-168 | updates the tables and returns the sink as one `<meta>` does in the specification |
| EpubMetadata.CustomMetadataInfo.StoreNameContent | epub/epub_metadata.go:137-149 | a cover name sets the cover id; any other name appends the content to its bucket; nothing happens unless both are non-empty |
| EpubMetadata.CustomMetadataInfo.WriteText | epub/epub_metadata.go:204-206 | the text lands in exactly the slot the sink names |
| EpubMetadata.FirstHalt | epub/epub_metadata.go:99-105 | the first token that ends the scan: no earlier token ends it, and a token found does |
| EpubMetadata.ScanOutcome | epub/epub_metadata.go:99-196 | the scan fails exactly when its first halting token fails, a tokenizer error or a foreign `<meta>` attribute, and reports that token's error; the end of the stream or the root's end tag succeeds |
| EpubMetadata.SlotText | epub/epub_metadata.go:198-206 | the text a new slot receives is trimmed |
| EpubMetadata.SlotTextIsFirstText | epub/epub_metadata.go:198-206 | a new slot receives the first non-blank text when only transparent tokens precede it |
| EpubMetadata.SlotTextBlocked | epub/epub_metadata.go:169-172 | another element, a slot-opening `<meta>` or a halting token before any non-blank text leaves the slot empty, as does the end of the stream |
| EpubMetadata.WriteNameContent | epub/epub_metadata.go:137-160 | writing an older slot and recording a name/content pair commute |
| EpubMetadata.FillOpenedSlot | epub/epub_metadata.go:151-168 | filling a freshly opened slot equals declaring the `<meta>` with that text |
| EpubMetadata.ScanMeaning | epub/epub_metadata.go:88-212 | a successful scan from a pending unwritten slot equals that slot filled with the text that follows, then every declaration in order |
| EpubMetadata.ScanMeaningMeta | epub/epub_metadata.go:118-168 | the same equality for a stream that starts with a `<meta>` |
| EpubMetadata.ScanFromFresh | epub/epub_metadata.go:88-212 | the scan from empty tables equals the declarative reading of the block |
| EpubMetadata.AddMetaEffect | epub/epub_metadata.go:137-168 | one declaration sets the cover or a refinement as its attributes say, and only appends to buckets |
| EpubMetadata.AccumulateKeepsCover | epub/epub_metadata.go:139-141 | without a cover declaration the cover id stays as it was |
| EpubMetadata.CoverLastWins | epub/epub_metadata.go:139-141 | the last `name="cover"` declaration with content decides the cover id |
| EpubMetadata.AccumulateKeepsRefinement | epub/epub_metadata.go:153-160 | without a `file-as` refinement of an id, its entry is unchanged |
| EpubMetadata.RefinementLastWins | epub/epub_metadata.go:153-160 | a later refinement of the same id replaces an earlier one: the entry holds the text that follows the last one |
| EpubMetadata.AccumulateAppends | epub/epub_metadata.go:143-166 | buckets only grow at their ends, so earlier values keep their place and order; with no empty bucket before, none is empty after |
| EpubMetadata.FileAsExample | epub/epub_metadata.go:151-206 | `<meta refines="#t1" property="file-as">Doe, Jane</meta>` maps `t1` to "Doe, Jane" |
| EpubMetadata.IsolateMetadata | epub/epub_metadata.go:249-261 | each missing marker has its own error: start-not-found exactly when `<metadata` is absent; start-end-not-found exactly when `<metadata` is found but no `>` follows it; end-not-found exactly when both are found but no `</metadata>` follows; no other error occurs |
| EpubMetadata.IsolateMetadataOf | epub/epub_metadata.go:249-261 | in `pre <metadata attrs> inner </metadata> post`, with the markers at their first occurrences, the block is exactly `<metadata>` + inner + `</metadata>` |
| EpubMetadata.IsolateMetadataShape | epub/epub_metadata.go:249-261 | conversely, an isolated block always comes from such a decomposition at first occurrences |
| EpubMetadata.NonEmptyValues | epub/epub_metadata.go:277-282 | every kept value is non-empty and from the bucket, and every non-empty value is kept |
| EpubMetadata.NonEmptyValuesConcat | epub/epub_metadata.go:277-282 | dropping empty values distributes over concatenation, so the order is kept |
| EpubMetadata.NonEmptyValuesKeeps | epub/epub_metadata.go:277-282 | a bucket without empty values is kept whole |
| EpubMetadata.CleanTags | epub/epub_metadata.go:271-283 | the published table has a key for exactly the non-empty buckets |
| EpubMetadata.RefineCreators | epub/epub_metadata.go:294-301 | each creator keeps its name and id and takes the refinement of its id as sort name when one exists, its own otherwise |
| EpubMetadata.RefineIdempotent | epub/epub_metadata.go:271-301 | applying the same tables twice equals applying them once |
| EpubMetadata.RefineKeepsDecodedFields | epub/epub_metadata.go:271-301 | only the tag table, the cover id and the three sort names change; every decoded field is kept |
| EpubMetadata.CoverPrecedence | epub/epub_metadata.go:284-286 | a cover id the package already has wins; an empty one takes the scanned cover id |
| EpubMetadata.CustomMetadataTags | epub/epub_metadata.go:247-304 | the pass's result is the apply pass over the declarative tables, and every declared tag has a key in the published table |
| EpubMetadata.TitleRefinementNeedsLiteralKey | epub/epub_metadata.go:287-289 | a refinement keyed `t1` leaves the title's sort name alone; one keyed `title` sets it |
| Epub.FileTableHasEveryName | epub/epub.go:223-226 | every entry's name is in the file table |
| Epub.FileTableLastWins | epub/epub.go:223-226 | each key maps to an entry of that name, the last one with that name |
| Epub.MapResultPrefixFails | epub/epub.go:277-300 | once a prefix of the rootfiles fails, the whole stage fails with that error |
| Epub.MapResultAllSucceed | epub/epub.go:277-300 | when every rootfile succeeds, the stage is their results in order |
| Epub.MapResultFirstFailure | epub/epub.go:277-300 | the first failing rootfile's error is the stage's error |
| Epub.MapResultMeaning | epub/epub.go:277-300 | a successful stage is the per-rootfile step applied pointwise; a failing one fails with some rootfile's error |
| Epub.FreshViews | epub/epub.go:262 | the container decode creates one rootfile per path, with an empty package and toc |
| Epub.IndexMapLastWins | epub/epub.go:308-311 | every item id is in the item map and maps to the last item with that id |
| Epub.IndexMapDomain | epub/epub.go:308-311 | the item map's keys are exactly the manifest's ids |
| Epub.Resolve | epub/epub.go:309-315 | each item's entry is the archive entry at its href joined to the package document's directory, nil when absent |
| Epub.BindSpine | epub/epub.go:317-323 | binding succeeds exactly when every idref is an item id, binding each itemref; otherwise it fails with BadItemref |
| Epub.FirstWithId | epub/epub.go:407-414 | the position of the first item with the id, None when no item has it |
| Epub.ContainerOutcome | epub/epub.go:250-272 | with no descriptor the stage fails with NilEntry; otherwise it fails with NoRootfile exactly when no rootfile exists after the decode; success appends fresh rootfiles |
| Epub.PackagesFirstMissing | epub/epub.go:277-280 | the first rootfile, in container order, whose document is not in the archive fails the stage with BadRootfile |
| Epub.PackagesSucceed | epub/epub.go:276-300 | after the stage every rootfile's document is in the archive, and paths and tocs are unchanged |
| Epub.ItemsOfMeaning | epub/epub.go:305-323 | one rootfile binds exactly when every idref names a manifest item, and then is bound as promised; failure is BadItemref |
| Epub.ItemsOfBinds | epub/epub.go:308-323 | a bound rootfile has resolved items and each itemref pointing at the last item with its id |
| Epub.ItemsStageBinds | epub/epub.go:305-331 | after the stage every rootfile is bound as promised |
| Epub.ItemsStageErrors | epub/epub.go:317-329 | an unresolvable idref gives BadItemref ahead of the count; otherwise NoItemref exactly when no itemref exists |
| Epub.OpenAfterBinding | epub/epub.go:313-314 | after binding an item opens exactly when its resolved path is an archive entry, and then yields that entry |
| Epub.TocUsesFirstMatch | epub/epub.go:407-436 | the toc comes from the first item with the toc id; an empty href, a missing archive entry or a parse error fails |
| Epub.TocOfEdgeCases | epub/epub.go:400-417 | without a toc id the rootfile is left alone; a toc id naming no item fails; success changes only the toc |
| Epub.ExampleChapterPath | epub/epub.go:313 | `c1.xhtml` beside `OEBPS/content.opf` resolves to `OEBPS/c1.xhtml` |
| Epub.BinderExample | epub/epub.go:305-331 | a one-chapter package binds its itemref to the item and the item to its entry; an idref naming no item fails |
| Epub.Rootfile.constructor | epub/epub.go:51-55 | a rootfile as the container decode creates it |
| Epub.Rootfile.UnmarshallCustomMetadata | epub/epub_metadata.go:247-304 | on success the metadata becomes the result of the whole pass; on any error the rootfile is unchanged |
| Epub.Rootfile.ApplyTables | epub/epub_metadata.go:271-301 | the field writes give exactly the apply pass's metadata, and nothing else changes |
| Epub.Rootfile.CleanBuckets | epub/epub_metadata.go:271-283 | the bucket loop gives the published tag table |
| Epub.Rootfile.DropEmptyValues | epub/epub_metadata.go:277-282 | the values loop keeps the non-empty values in order |
| Epub.Rootfile.RefineCreatorsInPlace | epub/epub_metadata.go:294-301 | the creators loop gives each creator its refinement |
| Epub.Reader.constructor | epub/epub.go:39-42 | an empty reader |
| Epub.Reader.Init | epub/epub.go:221-246 | the file table is built from the entries; the error and the rootfiles' contents are those of the four stages run in order, stopping at the first error |
| Epub.Reader.LoadPackages | epub/epub.go:232-245 | packages, items and toc in order, stopping at the first error |
| Epub.Reader.BuildFileTable | epub/epub.go:223-226 | the loop builds the file table |
| Epub.Reader.SetContainer | epub/epub.go:250-273 | the container stage: fresh rootfiles appended, existing ones untouched |
| Epub.Reader.AppendRootfiles | epub/epub.go:262 | one fresh rootfile per decoded path, appended in order |
| Epub.Reader.AppendRootfile | epub/epub.go:262 | one fresh rootfile appended |
| Epub.Reader.SetPackages | epub/epub.go:276-301 | the package stage over the rootfiles' contents, in container order |
| Epub.Reader.PackageStep | epub/epub.go:277-298 | one turn of the loop keeps its invariant, or returns the stage's error |
| Epub.Reader.LoadPackage | epub/epub.go:278-297 | one rootfile: BadRootfile when missing, then the decode |
| Epub.Reader.SetItems | epub/epub.go:305-332 | the items stage, binding plus the itemref count |
| Epub.Reader.BindAll | epub/epub.go:306-325 | the binding loop, returning the total itemref count |
| Epub.Reader.BindStep | epub/epub.go:307-325 | one turn keeps the loop invariant and count, or returns the stage's error |
| Epub.Reader.BindRootfile | epub/epub.go:308-324 | one rootfile bound as the specification says |
| Epub.Reader.ResolveManifest | epub/epub.go:308-315 | the manifest loop builds the item map and resolves each item's entry |
| Epub.Reader.BindItemrefs | epub/epub.go:317-323 | the spine loop binds each itemref or fails at the first unknown idref |
| Epub.Reader.SetToc | epub/epub.go:397-447 | the toc stage over the rootfiles' contents |
| Epub.Reader.TocStep | epub/epub.go:399-439 | one turn keeps the loop invariant, or returns the stage's error |
| Epub.Reader.ReadToc | epub/epub.go:400-438 | one rootfile's toc as the specification says |
| Epub.Reader.FindTocPath | epub/epub.go:407-414 | the href of the first item with the toc id, "" when none |

## Left out

- Archive and stream I/O: `OpenReader`, `Close`, `zip.File.Open`, `io.Copy` and the file reading of `parseTocFile`. The archive is its list of entries and each entry's content is given.
- Structural XML decoding, entity handling and tokenizing belong to Go's `encoding/xml`. They are function parameters: container, package and toc decodes, and the tokenizer.
- The decoder's check that `UnmarshalXML` consumed the whole element is library behaviour and is not modelled.
- The navPoint token loop after `DecodeElement` is not modelled. It only sees tokens beyond the element, since the decode has consumed it.
- The diagnostics printed by `fmt.Printf` and `quant.PrettyPrint` have no functional effect and are left out. So is the coloured `quant` package.
- epub/old.go is entirely commented out and is not part of this model.
- Reading items concurrently is a property of the zip library, and concurrency is left out.
- `tocAmount` in `setToc` is counted but never read, so it is not modelled.
- The state of a reader or a metadata table after an error is not described. Only the error is stated, because the caller discards the reader.
- Epub.Reader.Init: requires a reader with no rootfiles, because the source calls init only on a new reader.
- Nil bucket values (`v == nil`) cannot arise: every slot the scan creates is a string. The nil test is therefore not modelled.
- `refines[1:]` drops the first byte in Go and the first character here. The two agree on the `#` it is meant to drop.
- An archive entry is modelled by its name and content only.
- `unmarshallCustomMetadata` is not called from any stage of the reader in this source. It is modelled as a standalone step on one rootfile.
- Epub.Reader.SetContainer: the case where the container decode fails partway is modelled as leaving the rootfiles unchanged. `xml.Unmarshal` may have appended some of them by then.
