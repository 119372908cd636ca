/** The package records the binder works on (manifest items, spine itemrefs, navPoints), the
    attribute whitelists their hand-written decoders apply before delegating to the structural
    decoder, and the guarded `Open` of a manifest item. */
module Items {
  import opened Wrappers
  import opened Text
  import opened XmlTokens
  import opened EpubErrors

  /** An archive entry: its name and its content. */
  datatype Entry = Entry(name: string, content: seq<byte>)

  /** A manifest `<item>`; `entry` is the archive entry its href resolves to, if any. */
  datatype ManifestItem = ManifestItem(id: string, href: string, mediaType: string, properties: string, entry: Option<Entry>)

  /** The decoded attributes of a spine `<itemref>`. */
  datatype SpineItemData = SpineItemData(idref: string, linear: string, properties: string, spineId: string)

  /** An itemref and the manifest item it is bound to, as a position in the same package's
      manifest (the source keeps a pointer into that slice). */
  datatype SpineItem = SpineItem(data: SpineItemData, item: Option<nat>)

  datatype NavPoint = NavPoint(id: string, playOrder: string, navLabel: string, content: seq<string>, children: seq<NavPoint>)

  datatype Toc = Toc(docTitle: string, navPoints: seq<NavPoint>)

  // ---------------------------------------------------------------------------------------
  // Whitelists

  const ManifestItemFields: set<string> := {"id", "href", "media-type", "properties"}
  const SpineItemFields: set<string> := {"idref", "linear", "properties"}
  const NavPointFields: set<string> := {"id", "playOrder", "class"}

  /** The position of the first attribute whose local name is not in `known`. */
  function FirstUnknown(attrs: seq<Attr>, known: set<string>): (r: Option<nat>)
    ensures r.None? <==> AllLocalNamesIn(attrs, known)
    ensures r.Some? ==> r.value < |attrs| && attrs[r.value].name.local !in known
    ensures r.Some? ==> forall j | 0 <= j < r.value :: attrs[j].name.local in known
    decreases |attrs|
  {
    if attrs == [] then None
    else if attrs[0].name.local !in known then Some(0)
    else
      var rest := FirstUnknown(attrs[1..], known);
      assert forall j | 1 <= j < |attrs| :: attrs[j] == attrs[1..][j - 1];
      match rest
      case None => None
      case Some(k) => Some(k + 1)
  }

  /** The check an element's attributes pass before decoding: the first foreign attribute is
      reported by its local name. */
  function CheckAttributes(attrs: seq<Attr>, known: set<string>): Option<Error> {
    match FirstUnknown(attrs, known)
    case None => None
    case Some(i) => Some(UnknownField(attrs[i].name.local))
  }

  /** Acceptance depends on the set of local names only: not on the values, the order or
      repetitions of the attributes. */
  lemma {:induction false} AcceptanceByNames(attrs: seq<Attr>, known: set<string>)
    ensures CheckAttributes(attrs, known).None? <==> LocalNames(attrs) <= known
  {
    if CheckAttributes(attrs, known).Some? {
      var i := FirstUnknown(attrs, known).value;
      assert attrs[i].name.local in LocalNames(attrs);
    }
  }

  lemma SameNamesSameVerdict(a: seq<Attr>, b: seq<Attr>, known: set<string>)
    requires LocalNames(a) == LocalNames(b)
    ensures CheckAttributes(a, known).None? <==> CheckAttributes(b, known).None?
  {
    AcceptanceByNames(a, known);
    AcceptanceByNames(b, known);
  }

  /** A manifest item is accepted exactly when every attribute is `id`, `href`, `media-type`
      or `properties`. */
  lemma ManifestItemAccepts(attrs: seq<Attr>)
    ensures CheckAttributes(attrs, ManifestItemFields).None? <==>
      forall i | 0 <= i < |attrs| :: attrs[i].name.local in {"id", "href", "media-type", "properties"}
  {
  }

  /** An itemref is accepted exactly when every attribute is `idref`, `linear` or
      `properties`. */
  lemma SpineItemAccepts(attrs: seq<Attr>)
    ensures CheckAttributes(attrs, SpineItemFields).None? <==>
      forall i | 0 <= i < |attrs| :: attrs[i].name.local in {"idref", "linear", "properties"}
  {
  }

  /** A navPoint is accepted exactly when every attribute is `id`, `playOrder` or `class`. */
  lemma NavPointAccepts(attrs: seq<Attr>)
    ensures CheckAttributes(attrs, NavPointFields).None? <==>
      forall i | 0 <= i < |attrs| :: attrs[i].name.local in {"id", "playOrder", "class"}
  {
  }

  /** An itemref with an `id` attribute is rejected, although the record has a field for it. */
  lemma SpineIdRejected(attrs: seq<Attr>, k: nat)
    requires k < |attrs| && attrs[k].name.local == "id"
    ensures CheckAttributes(attrs, SpineItemFields).Some?
  {
    AcceptanceByNames(attrs, SpineItemFields);
    assert attrs[k].name.local in LocalNames(attrs);
  }

  // ---------------------------------------------------------------------------------------
  // The three decoders

  /** A receiver after a decode call, and the error the call returned, if any. */
  datatype Decoded<T> = Decoded(receiver: T, error: Option<Error>)

  /** ManifestItem.UnmarshalXML: the whitelist, then the structural decode `decodeElement`
      of the element into the receiver. */
  function UnmarshalManifestItem(m: ManifestItem, attrs: seq<Attr>, decodeElement: ManifestItem -> Decoded<ManifestItem>): (r: Decoded<ManifestItem>)
    ensures CheckAttributes(attrs, ManifestItemFields).Some? ==>
      r == Decoded(m, CheckAttributes(attrs, ManifestItemFields))
    ensures CheckAttributes(attrs, ManifestItemFields).None? ==> r == decodeElement(m)
  {
    match CheckAttributes(attrs, ManifestItemFields)
    case Some(e) => Decoded(m, Some(e))
    case None => decodeElement(m)
  }

  /** SpineItem.UnmarshalXML: the whitelist, then a decode into the itemref's data only, so
      the binding to a manifest item is never touched. */
  function UnmarshalSpineItem(m: SpineItem, attrs: seq<Attr>, decodeElement: SpineItemData -> Decoded<SpineItemData>): (r: Decoded<SpineItem>)
    ensures r.receiver.item == m.item
    ensures CheckAttributes(attrs, SpineItemFields).Some? ==>
      r == Decoded(m, CheckAttributes(attrs, SpineItemFields))
    ensures CheckAttributes(attrs, SpineItemFields).None? ==>
      r.receiver.data == decodeElement(m.data).receiver && r.error == decodeElement(m.data).error
  {
    match CheckAttributes(attrs, SpineItemFields)
    case Some(e) => Decoded(m, Some(e))
    case None =>
      var d := decodeElement(m.data);
      Decoded(m.(data := d.receiver), d.error)
  }

  /** NavPoint.UnmarshalXML up to its structural decode (the token loop after it is not part
      of this model). */
  function UnmarshalNavPoint(m: NavPoint, attrs: seq<Attr>, decodeElement: NavPoint -> Decoded<NavPoint>): (r: Decoded<NavPoint>)
    ensures CheckAttributes(attrs, NavPointFields).Some? ==>
      r == Decoded(m, CheckAttributes(attrs, NavPointFields))
    ensures CheckAttributes(attrs, NavPointFields).None? ==> r == decodeElement(m)
  {
    match CheckAttributes(attrs, NavPointFields)
    case Some(e) => Decoded(m, Some(e))
    case None => decodeElement(m)
  }

  /** A rejected element reports its first foreign attribute and leaves the receiver as it was. */
  lemma RejectionReportsFirstForeign(m: ManifestItem, attrs: seq<Attr>, decodeElement: ManifestItem -> Decoded<ManifestItem>, k: nat)
    requires k < |attrs| && attrs[k].name.local !in ManifestItemFields
    requires forall j | 0 <= j < k :: attrs[j].name.local in ManifestItemFields
    ensures UnmarshalManifestItem(m, attrs, decodeElement) == Decoded(m, Some(UnknownField(attrs[k].name.local)))
  {
    var i := FirstUnknown(attrs, ManifestItemFields).value;
    assert !(i < k) && !(k < i);
  }

  // ---------------------------------------------------------------------------------------
  // Open

  /** ManifestItem.Open: the item's entry, or BadManifest when its href resolved to nothing.
      Reading the entry itself belongs to the archive. */
  function Open(item: ManifestItem): (r: Result<Entry, Error>)
    ensures r.Failure? <==> item.entry.None?
    ensures r.Failure? ==> r.error == BadManifest
    ensures r.Success? ==> Some(r.value) == item.entry
  {
    match item.entry
    case None => Failure(BadManifest)
    case Some(e) => Success(e)
  }
}
