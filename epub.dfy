/** The reader of epub/epub.go: the archive's file table, the container and package stages,
    the binder that resolves manifest hrefs and spine itemrefs, and the toc lookup, as stage
    functions on the rootfiles' contents and as the in-place methods of Reader and Rootfile. */
module Epub {
  import opened Wrappers
  import opened Text
  import opened Paths
  import opened XmlTokens
  import opened EpubErrors
  import opened Items
  import opened EpubMetadata

  const ContainerPath: string := "META-INF/container.xml"

  datatype Spine = Spine(itemrefs: seq<SpineItem>, toc: string, ppd: string)

  /** A decoded package document. */
  datatype Package = Package(uniqueIdentifier: string, metadata: Metadata, items: seq<ManifestItem>, spine: Spine)

  /** The contents of one Rootfile object. */
  datatype RootfileView = RootfileView(fullPath: string, pkg: Package, toc: Toc)

  const EmptyMetadata: Metadata :=
    Metadata(NamedText("", ""), "", "", [], "", NamedText("", ""), "", "", [], "", "", "", "", "", "", map[], "")
  const EmptyPackage: Package := Package("", EmptyMetadata, [], Spine([], "", ""))
  const EmptyToc: Toc := Toc("", [])

  /** The entry stored under `name`, nil when there is none. */
  function Lookup(files: map<string, Entry>, name: string): Option<Entry> {
    if name in files then Some(files[name]) else None
  }

  // ---------------------------------------------------------------------------------------
  // The file table

  /** The lookup table built from the archive's entries, in order. */
  function FileTable(entries: seq<Entry>): map<string, Entry>
    decreases |entries|
  {
    if entries == [] then map[]
    else FileTable(entries[..|entries| - 1])[entries[|entries| - 1].name := entries[|entries| - 1]]
  }

  /** Every entry's name is present. */
  lemma {:induction false} FileTableHasEveryName(entries: seq<Entry>)
    ensures forall i | 0 <= i < |entries| :: entries[i].name in FileTable(entries)
    decreases |entries|
  {
    if entries != [] {
      var init := entries[..|entries| - 1];
      FileTableHasEveryName(init);
      forall i | 0 <= i < |entries| - 1 ensures entries[i].name in FileTable(entries) {
        assert init[i] == entries[i];
      }
    }
  }

  /** When several entries share a name the last one wins; so every key maps to an entry of
      that name. */
  lemma {:induction false} FileTableLastWins(entries: seq<Entry>)
    ensures forall k | k in FileTable(entries) :: FileTable(entries)[k].name == k
    ensures forall k | k in FileTable(entries) ::
      exists i | 0 <= i < |entries| :: entries[i] == FileTable(entries)[k] && LastNamed(entries, k, i)
    decreases |entries|
  {
    if entries != [] {
      var n := |entries| - 1;
      var init := entries[..n];
      var r := FileTable(entries);
      FileTableLastWins(init);
      forall k | k in r ensures r[k].name == k && exists i | 0 <= i < |entries| :: entries[i] == r[k] && LastNamed(entries, k, i) {
        if k == entries[n].name {
          assert LastNamed(entries, k, n);
        } else {
          assert r[k] == FileTable(init)[k];
          var i :| 0 <= i < |init| && init[i] == FileTable(init)[k] && LastNamed(init, k, i);
          LastNamedInInit(entries, k, i);
        }
      }
    }
  }

  /** The last entry named `k` before the final entry stays the last one when the final entry
      has another name. */
  lemma LastNamedInInit(entries: seq<Entry>, k: string, i: nat)
    requires entries != [] && k != entries[|entries| - 1].name
    requires LastNamed(entries[..|entries| - 1], k, i)
    ensures LastNamed(entries, k, i) && entries[i] == entries[..|entries| - 1][i]
  {
    assert forall j | i < j < |entries| - 1 :: entries[j] == entries[..|entries| - 1][j];
  }

  /** Entry `i` is the last one named `k`. */
  predicate LastNamed(entries: seq<Entry>, k: string, i: nat) {
    i < |entries| && entries[i].name == k && forall j | i < j < |entries| :: entries[j].name != k
  }

  // ---------------------------------------------------------------------------------------
  // Stage functions

  /** Applies `f` to every rootfile in order and stops at the first error. */
  function MapResult(vs: seq<RootfileView>, f: RootfileView -> Result<RootfileView, Error>): Result<seq<RootfileView>, Error>
    decreases |vs|
  {
    if vs == [] then Success([])
    else
      var t :- MapResult(vs[..|vs| - 1], f);
      var h :- f(vs[|vs| - 1]);
      Success(t + [h])
  }

  /** One more rootfile: its result is appended, or its error ends the stage. */
  lemma MapResultSnoc(vs: seq<RootfileView>, f: RootfileView -> Result<RootfileView, Error>, v: RootfileView)
    ensures MapResult(vs + [v], f) ==
      match MapResult(vs, f)
      case Failure(e) => Failure(e)
      case Success(t) => match f(v) case Failure(e) => Failure(e) case Success(h) => Success(t + [h])
  {
    assert (vs + [v])[..|vs|] == vs;
  }

  /** Once a prefix has failed, the whole stage fails with its error. */
  lemma {:induction false} MapResultPrefixFails(vs: seq<RootfileView>, f: RootfileView -> Result<RootfileView, Error>, j: nat)
    requires j <= |vs| && MapResult(vs[..j], f).Failure?
    ensures MapResult(vs, f) == MapResult(vs[..j], f)
    decreases |vs| - j
  {
    if j < |vs| {
      var n := |vs| - 1;
      assert vs[..n][..j] == vs[..j];
      MapResultPrefixFails(vs[..n], f, j);
    } else {
      assert vs[..j] == vs;
    }
  }

  lemma {:induction false} MapResultAllSucceed(vs: seq<RootfileView>, f: RootfileView -> Result<RootfileView, Error>, ws: seq<RootfileView>)
    requires |ws| == |vs|
    requires forall k | 0 <= k < |vs| :: f(vs[k]) == Success(ws[k])
    ensures MapResult(vs, f) == Success(ws)
    decreases |vs|
  {
    if vs != [] {
      var n := |vs| - 1;
      forall k | 0 <= k < n ensures f(vs[..n][k]) == Success(ws[..n][k]) {
        assert vs[..n][k] == vs[k] && ws[..n][k] == ws[k];
      }
      MapResultAllSucceed(vs[..n], f, ws[..n]);
      assert ws[..n] + [ws[n]] == ws;
    }
  }

  lemma MapResultFirstFailure(vs: seq<RootfileView>, f: RootfileView -> Result<RootfileView, Error>, i: nat)
    requires i < |vs| && f(vs[i]).Failure?
    requires forall k | 0 <= k < i :: f(vs[k]).Success?
    ensures MapResult(vs, f) == Failure(f(vs[i]).error)
  {
    var ws := seq(i, k requires 0 <= k < i => f(vs[k]).value);
    MapResultAllSucceed(vs[..i], f, ws);
    assert vs[..i + 1] == vs[..i] + [vs[i]];
    MapResultSnoc(vs[..i], f, vs[i]);
    MapResultPrefixFails(vs, f, i + 1);
  }

  /** A successful stage is the per-rootfile function applied pointwise; a failing one fails
      with the error of some rootfile. */
  lemma {:induction false} MapResultMeaning(vs: seq<RootfileView>, f: RootfileView -> Result<RootfileView, Error>)
    ensures MapResult(vs, f).Success? ==>
      |MapResult(vs, f).value| == |vs| && forall k | 0 <= k < |vs| :: f(vs[k]) == Success(MapResult(vs, f).value[k])
    ensures MapResult(vs, f).Failure? ==> exists k | 0 <= k < |vs| :: f(vs[k]) == Failure(MapResult(vs, f).error)
    decreases |vs|
  {
    if vs != [] {
      var n := |vs| - 1;
      MapResultMeaning(vs[..n], f);
      if MapResult(vs[..n], f).Success? {
        if f(vs[n]).Success? {
          var t := MapResult(vs[..n], f).value;
          forall k | 0 <= k < |vs| ensures f(vs[k]) == Success(MapResult(vs, f).value[k]) {
            if k < n {
              assert vs[k] == vs[..n][k];
            }
          }
        }
      } else {
        var k :| 0 <= k < n && f(vs[..n][k]) == Failure(MapResult(vs[..n], f).error);
        assert vs[k] == vs[..n][k];
      }
    }
  }

  /** setContainer: the descriptor must be present (the source dereferences the nil entry
      otherwise), its decode appends the rootfiles it names, and at least one must exist. */
  function ContainerStage(files: map<string, Entry>, views: seq<RootfileView>, decodeContainer: seq<byte> -> Result<seq<string>, Error>): Result<seq<RootfileView>, Error> {
    if ContainerPath !in files then Failure(NilEntry)
    else
      var paths :- decodeContainer(files[ContainerPath].content);
      var vs := views + FreshViews(paths);
      if |vs| < 1 then Failure(NoRootfile) else Success(vs)
  }

  function FreshViews(paths: seq<string>): (r: seq<RootfileView>)
    ensures |r| == |paths|
    ensures forall i | 0 <= i < |paths| :: r[i] == RootfileView(paths[i], EmptyPackage, EmptyToc)
  {
    seq(|paths|, i requires 0 <= i < |paths| => RootfileView(paths[i], EmptyPackage, EmptyToc))
  }

  /** setPackages on one rootfile: its package document must be in the archive; it is
      decoded into the rootfile's package. */
  function PackageOf(files: map<string, Entry>, v: RootfileView, decodePackage: (Package, seq<byte>) -> Result<Package, Error>): Result<RootfileView, Error> {
    if v.fullPath !in files then Failure(BadRootfile)
    else
      var p :- decodePackage(v.pkg, files[v.fullPath].content);
      Success(v.(pkg := p))
  }

  function PackagesStage(files: map<string, Entry>, vs: seq<RootfileView>, decodePackage: (Package, seq<byte>) -> Result<Package, Error>): Result<seq<RootfileView>, Error> {
    MapResult(vs, v => PackageOf(files, v, decodePackage))
  }

  /** The item map of setItems, built in manifest order. */
  function IndexMap(items: seq<ManifestItem>): map<string, nat>
    decreases |items|
  {
    if items == [] then map[]
    else IndexMap(items[..|items| - 1])[items[|items| - 1].id := |items| - 1]
  }

  /** Every item id is in the map, and it maps to the last item carrying that id. */
  lemma {:induction false} IndexMapLastWins(items: seq<ManifestItem>)
    ensures forall i | 0 <= i < |items| :: items[i].id in IndexMap(items)
    ensures forall id | id in IndexMap(items) :: IndexMap(items)[id] < |items| && items[IndexMap(items)[id]].id == id
    ensures forall id | id in IndexMap(items) :: forall j | IndexMap(items)[id] < j < |items| :: items[j].id != id
    decreases |items|
  {
    if items != [] {
      var n := |items| - 1;
      var init := items[..n];
      var m := IndexMap(items);
      IndexMapLastWins(init);
      assert m == IndexMap(init)[items[n].id := n];
      forall i | 0 <= i < |items| ensures items[i].id in m {
        if i < n {
          assert init[i] == items[i];
        }
      }
      forall id | id in m ensures m[id] < |items| && items[m[id]].id == id && forall j | m[id] < j < |items| :: items[j].id != id {
        if id != items[n].id {
          assert m[id] == IndexMap(init)[id];
          assert init[m[id]] == items[m[id]];
          forall j | m[id] < j < |items| ensures items[j].id != id {
            if j < n {
              assert init[j] == items[j];
            }
          }
        }
      }
    }
  }

  /** Each item's entry is the archive entry at its href resolved against the package
      document's directory, nil when the archive has none. */
  function Resolve(files: map<string, Entry>, fullPath: string, items: seq<ManifestItem>): (r: seq<ManifestItem>)
    ensures |r| == |items|
    ensures forall i | 0 <= i < |items| ::
      r[i] == items[i].(entry := Lookup(files, Join(Dir(fullPath), items[i].href)))
  {
    seq(|items|, i requires 0 <= i < |items| => items[i].(entry := Lookup(files, Join(Dir(fullPath), items[i].href))))
  }

  function Bind(m: map<string, nat>, ref: SpineItem): SpineItem
    requires ref.data.idref in m
  {
    ref.(item := Some(m[ref.data.idref]))
  }

  /** Binds every itemref through the item map; fails if any idref is not an item id. */
  function BindSpine(m: map<string, nat>, refs: seq<SpineItem>): (r: Result<seq<SpineItem>, Error>)
    ensures r.Success? <==> forall k | 0 <= k < |refs| :: refs[k].data.idref in m
    ensures r.Success? ==> |r.value| == |refs| && forall k | 0 <= k < |refs| :: r.value[k] == Bind(m, refs[k])
    ensures r.Failure? ==> r.error == BadItemref
    decreases |refs|
  {
    if refs == [] then Success([])
    else if refs[0].data.idref !in m then Failure(BadItemref)
    else
      var t := BindSpine(m, refs[1..]);
      assert forall k | 1 <= k < |refs| :: refs[k] == refs[1..][k - 1];
      match t
      case Failure(e) => Failure(e)
      case Success(bound) => Success([Bind(m, refs[0])] + bound)
  }

  /** setItems on one rootfile. */
  function ItemsOf(files: map<string, Entry>, v: RootfileView): Result<RootfileView, Error> {
    var items := Resolve(files, v.fullPath, v.pkg.items);
    var refs :- BindSpine(IndexMap(v.pkg.items), v.pkg.spine.itemrefs);
    Success(v.(pkg := v.pkg.(items := items, spine := v.pkg.spine.(itemrefs := refs))))
  }

  /** The number of itemrefs over the first rootfiles. */
  function TotalItemrefs(vs: seq<RootfileView>): nat
    decreases |vs|
  {
    if vs == [] then 0 else TotalItemrefs(vs[..|vs| - 1]) + |vs[|vs| - 1].pkg.spine.itemrefs|
  }

  /** The binding loop of setItems: every rootfile bound in order. */
  function BindStage(files: map<string, Entry>, vs: seq<RootfileView>): Result<seq<RootfileView>, Error> {
    MapResult(vs, v => ItemsOf(files, v))
  }

  /** setItems: every rootfile bound in order, then at least one itemref overall. */
  function ItemsStage(files: map<string, Entry>, vs: seq<RootfileView>): Result<seq<RootfileView>, Error> {
    var ws :- BindStage(files, vs);
    if TotalItemrefs(vs) < 1 then Failure(NoItemref) else Success(ws)
  }

  /** The position of the first item with the given id. */
  function FirstWithId(items: seq<ManifestItem>, id: string): (r: Option<nat>)
    ensures r.Some? ==> r.value < |items| && items[r.value].id == id
    ensures r.Some? ==> forall j | 0 <= j < r.value :: items[j].id != id
    ensures r.None? ==> forall j | 0 <= j < |items| :: items[j].id != id
    decreases |items|
  {
    if items == [] then None
    else if items[0].id == id then Some(0)
    else
      var rest := FirstWithId(items[1..], id);
      assert forall j | 1 <= j < |items| :: items[j] == items[1..][j - 1];
      match rest
      case None => None
      case Some(k) => Some(k + 1)
  }

  /** The href of the first item with the toc id, or "" if there is none. */
  function TocPath(items: seq<ManifestItem>, tocId: string): string {
    match FirstWithId(items, tocId)
    case None => ""
    case Some(i) => items[i].href
  }

  /** setToc on one rootfile: a rootfile without a toc id is left alone; otherwise the toc
      document must be found through the manifest and in the archive, and its parse becomes
      the rootfile's toc. */
  function TocOf(files: map<string, Entry>, v: RootfileView, parseToc: seq<byte> -> Result<Toc, Error>): Result<RootfileView, Error> {
    var tocId := v.pkg.spine.toc;
    if |tocId| == 0 then Success(v)
    else
      var tocPath := TocPath(v.pkg.items, tocId);
      if |tocPath| == 0 then Failure(TocItemNotFound)
      else
        var abs := Join(Dir(v.fullPath), tocPath);
        if abs !in files then Failure(TocFileNotFound)
        else
          var toc :- parseToc(files[abs].content);
          Success(v.(toc := toc))
  }

  function TocStage(files: map<string, Entry>, vs: seq<RootfileView>, parseToc: seq<byte> -> Result<Toc, Error>): Result<seq<RootfileView>, Error> {
    MapResult(vs, v => TocOf(files, v, parseToc))
  }

  /** Reader.init: file table, then container, packages, items and toc, stopping at the
      first error. */
  function InitStages(entries: seq<Entry>,
                      decodeContainer: seq<byte> -> Result<seq<string>, Error>,
                      decodePackage: (Package, seq<byte>) -> Result<Package, Error>,
                      parseToc: seq<byte> -> Result<Toc, Error>): Result<seq<RootfileView>, Error>
  {
    var files := FileTable(entries);
    var v1 :- ContainerStage(files, [], decodeContainer);
    FromPackages(files, v1, decodePackage, parseToc)
  }

  /** The stages of init that follow the container stage. */
  function FromPackages(files: map<string, Entry>, vs: seq<RootfileView>,
                        decodePackage: (Package, seq<byte>) -> Result<Package, Error>,
                        parseToc: seq<byte> -> Result<Toc, Error>): Result<seq<RootfileView>, Error>
  {
    var v2 :- PackagesStage(files, vs, decodePackage);
    FromItems(files, v2, parseToc)
  }

  /** The stages of init that follow the package stage. */
  function FromItems(files: map<string, Entry>, vs: seq<RootfileView>, parseToc: seq<byte> -> Result<Toc, Error>): Result<seq<RootfileView>, Error> {
    var v3 :- ItemsStage(files, vs);
    TocStage(files, v3, parseToc)
  }

  // ---------------------------------------------------------------------------------------
  // Properties of the stages

  /** Without a container descriptor the source panics; otherwise the stage fails with
      NoRootfile exactly when no rootfile exists after the decode. */
  lemma ContainerOutcome(files: map<string, Entry>, views: seq<RootfileView>, decodeContainer: seq<byte> -> Result<seq<string>, Error>)
    ensures ContainerPath !in files ==> ContainerStage(files, views, decodeContainer) == Failure(NilEntry)
    ensures ContainerPath in files && decodeContainer(files[ContainerPath].content).Success? ==>
      var paths := decodeContainer(files[ContainerPath].content).value;
      (ContainerStage(files, views, decodeContainer) == Failure(NoRootfile) <==> |views| + |paths| == 0)
    ensures ContainerStage(files, views, decodeContainer).Success? ==>
      var vs := ContainerStage(files, views, decodeContainer).value;
      |vs| >= 1 && vs[..|views|] == views &&
      forall k | |views| <= k < |vs| :: vs[k].pkg == EmptyPackage && vs[k].toc == EmptyToc
  {
  }

  /** The packages are visited in container order: the first rootfile whose document is not
      in the archive fails the stage with BadRootfile. */
  lemma PackagesFirstMissing(files: map<string, Entry>, vs: seq<RootfileView>, decodePackage: (Package, seq<byte>) -> Result<Package, Error>, i: nat)
    requires i < |vs| && vs[i].fullPath !in files
    requires forall k | 0 <= k < i :: PackageOf(files, vs[k], decodePackage).Success?
    ensures PackagesStage(files, vs, decodePackage) == Failure(BadRootfile)
  {
    MapResultFirstFailure(vs, v => PackageOf(files, v, decodePackage), i);
  }

  /** After the package stage every rootfile's document is in the archive, and only the
      packages changed. */
  lemma PackagesSucceed(files: map<string, Entry>, vs: seq<RootfileView>, decodePackage: (Package, seq<byte>) -> Result<Package, Error>)
    requires PackagesStage(files, vs, decodePackage).Success?
    ensures var ws := PackagesStage(files, vs, decodePackage).value;
      |ws| == |vs| &&
      forall k | 0 <= k < |vs| :: vs[k].fullPath in files && ws[k].fullPath == vs[k].fullPath && ws[k].toc == vs[k].toc
  {
    var f := v => PackageOf(files, v, decodePackage);
    MapResultMeaning(vs, f);
  }

  /** What binding promises for one rootfile: every item's entry is its resolved href's, and
      every itemref, its data untouched, points at the last item of the same rootfile whose
      id is its idref. Nothing else changes. */
  predicate Bound(files: map<string, Entry>, v: RootfileView, w: RootfileView) {
    var items := v.pkg.items;
    var refs := v.pkg.spine.itemrefs;
    && w.fullPath == v.fullPath && w.toc == v.toc
    && w.pkg.uniqueIdentifier == v.pkg.uniqueIdentifier && w.pkg.metadata == v.pkg.metadata
    && w.pkg.spine.toc == v.pkg.spine.toc && w.pkg.spine.ppd == v.pkg.spine.ppd
    && |w.pkg.items| == |items| && |w.pkg.spine.itemrefs| == |refs|
    && (forall i | 0 <= i < |items| ::
          w.pkg.items[i] == items[i].(entry := Lookup(files, Join(Dir(v.fullPath), items[i].href))))
    && (forall k | 0 <= k < |refs| ::
          && w.pkg.spine.itemrefs[k].data == refs[k].data
          && w.pkg.spine.itemrefs[k].item.Some?
          && BoundTo(items, refs[k].data.idref, w.pkg.spine.itemrefs[k].item.value))
  }

  /** Position `i` holds the last item with id `idref`. */
  predicate BoundTo(items: seq<ManifestItem>, idref: string, i: nat) {
    i < |items| && items[i].id == idref && forall j | i < j < |items| :: items[j].id != idref
  }

  predicate HasItem(items: seq<ManifestItem>, id: string) {
    exists i | 0 <= i < |items| :: items[i].id == id
  }

  /** One rootfile binds exactly when every idref names a manifest item, and then it is bound
      as promised. */
  lemma ItemsOfMeaning(files: map<string, Entry>, v: RootfileView)
    ensures ItemsOf(files, v).Success? <==>
      forall k | 0 <= k < |v.pkg.spine.itemrefs| :: HasItem(v.pkg.items, v.pkg.spine.itemrefs[k].data.idref)
    ensures ItemsOf(files, v).Success? ==> Bound(files, v, ItemsOf(files, v).value)
    ensures ItemsOf(files, v).Failure? ==> ItemsOf(files, v).error == BadItemref
  {
    IndexMapDomain(v.pkg.items);
    if ItemsOf(files, v).Success? {
      ItemsOfBinds(files, v);
    }
  }

  /** The item map has exactly the manifest's ids. */
  lemma IndexMapDomain(items: seq<ManifestItem>)
    ensures forall id :: id in IndexMap(items) <==> HasItem(items, id)
  {
    IndexMapLastWins(items);
    forall id | id in IndexMap(items) ensures HasItem(items, id) {
      assert items[IndexMap(items)[id]].id == id;
    }
  }

  lemma ItemsOfBinds(files: map<string, Entry>, v: RootfileView)
    requires ItemsOf(files, v).Success?
    ensures Bound(files, v, ItemsOf(files, v).value)
  {
    var items := v.pkg.items;
    var refs := v.pkg.spine.itemrefs;
    var m := IndexMap(items);
    IndexMapLastWins(items);
    var r := BindSpine(m, refs);
    var w := ItemsOf(files, v).value;
    assert w == v.(pkg := v.pkg.(items := Resolve(files, v.fullPath, items), spine := v.pkg.spine.(itemrefs := r.value)));
    forall k | 0 <= k < |refs|
      ensures w.pkg.spine.itemrefs[k].data == refs[k].data
      ensures w.pkg.spine.itemrefs[k].item.Some?
      ensures BoundTo(items, refs[k].data.idref, w.pkg.spine.itemrefs[k].item.value)
    {
      assert w.pkg.spine.itemrefs[k] == Bind(m, refs[k]);
    }
  }

  /** After the items stage every rootfile is bound as promised. */
  lemma ItemsStageBinds(files: map<string, Entry>, vs: seq<RootfileView>)
    requires ItemsStage(files, vs).Success?
    ensures |ItemsStage(files, vs).value| == |vs|
    ensures forall r | 0 <= r < |vs| :: Bound(files, vs[r], ItemsStage(files, vs).value[r])
  {
    var f := v => ItemsOf(files, v);
    MapResultMeaning(vs, f);
    forall r | 0 <= r < |vs| ensures Bound(files, vs[r], ItemsStage(files, vs).value[r]) {
      ItemsOfMeaning(files, vs[r]);
    }
  }

  /** An unresolvable idref anywhere fails the stage with BadItemref, ahead of the count
      check; when all resolve, it fails with NoItemref exactly when there are no itemrefs. */
  lemma ItemsStageErrors(files: map<string, Entry>, vs: seq<RootfileView>)
    ensures (exists r | 0 <= r < |vs| :: ItemsOf(files, vs[r]).Failure?) ==>
      ItemsStage(files, vs) == Failure(BadItemref)
    ensures (forall r | 0 <= r < |vs| :: ItemsOf(files, vs[r]).Success?) ==>
      (ItemsStage(files, vs) == Failure(NoItemref) <==> TotalItemrefs(vs) == 0)
    ensures ItemsStage(files, vs).Failure? ==> ItemsStage(files, vs).error in {BadItemref, NoItemref}
  {
    var f := v => ItemsOf(files, v);
    MapResultMeaning(vs, f);
    if MapResult(vs, f).Failure? {
      var k :| 0 <= k < |vs| && f(vs[k]) == Failure(MapResult(vs, f).error);
      ItemsOfMeaning(files, vs[k]);
    } else {
      forall r | 0 <= r < |vs| ensures ItemsOf(files, vs[r]).Success? {
        assert f(vs[r]).Success?;
      }
    }
  }

  /** A resolved item opens exactly when the archive has an entry at its resolved path. */
  lemma OpenAfterBinding(files: map<string, Entry>, v: RootfileView, w: RootfileView, i: nat)
    requires Bound(files, v, w) && i < |v.pkg.items|
    ensures var abs := Join(Dir(v.fullPath), v.pkg.items[i].href);
      && (Open(w.pkg.items[i]).Failure? <==> abs !in files)
      && (abs in files ==> Open(w.pkg.items[i]) == Success(files[abs]))
  {
  }

  /** The toc is taken from the first item with the toc id: a later item with the same id is
      never consulted, even when the first one's href is empty. */
  lemma TocUsesFirstMatch(files: map<string, Entry>, v: RootfileView, parseToc: seq<byte> -> Result<Toc, Error>, i: nat)
    requires |v.pkg.spine.toc| > 0
    requires i < |v.pkg.items| && v.pkg.items[i].id == v.pkg.spine.toc
    requires forall j | 0 <= j < i :: v.pkg.items[j].id != v.pkg.spine.toc
    ensures var href := v.pkg.items[i].href;
      var abs := Join(Dir(v.fullPath), href);
      TocOf(files, v, parseToc) ==
        if |href| == 0 then Failure(TocItemNotFound)
        else if abs !in files then Failure(TocFileNotFound)
        else match parseToc(files[abs].content)
          case Failure(e) => Failure(e)
          case Success(toc) => Success(v.(toc := toc))
  {
    var r := FirstWithId(v.pkg.items, v.pkg.spine.toc);
    assert r.Some? && !(r.value < i) && !(i < r.value);
  }

  /** A rootfile without a toc id is skipped; one whose toc id names no item fails. */
  lemma TocOfEdgeCases(files: map<string, Entry>, v: RootfileView, parseToc: seq<byte> -> Result<Toc, Error>)
    ensures |v.pkg.spine.toc| == 0 ==> TocOf(files, v, parseToc) == Success(v)
    ensures |v.pkg.spine.toc| > 0 && !HasItem(v.pkg.items, v.pkg.spine.toc) ==>
      TocOf(files, v, parseToc) == Failure(TocItemNotFound)
    ensures TocOf(files, v, parseToc).Success? ==>
      TocOf(files, v, parseToc).value.(toc := v.toc) == v
  {
    var r := FirstWithId(v.pkg.items, v.pkg.spine.toc);
  }

  /** A chapter href next to a package document in OEBPS resolves into OEBPS. */
  lemma ExampleChapterPath()
    ensures Join(Dir("OEBPS/content.opf"), "c1.xhtml") == "OEBPS/c1.xhtml"
  {
    ExampleSegments();
    JoinDirPlain(["OEBPS"], "content.opf", ["c1.xhtml"]);
  }

  /** The example's paths as joined elements. */
  lemma ExampleSegments()
    ensures Plain("OEBPS") && Plain("c1.xhtml") && AllPlain(["OEBPS"]) && AllPlain(["c1.xhtml"])
    ensures Joined(["OEBPS"]) + "/" + "content.opf" == "OEBPS/content.opf"
    ensures Joined(["c1.xhtml"]) == "c1.xhtml"
    ensures Joined(["OEBPS"] + ["c1.xhtml"]) == "OEBPS/c1.xhtml"
  {
    var both: seq<string> := ["OEBPS"] + ["c1.xhtml"];
    assert both[1..] == ["c1.xhtml"];
  }

  const ExampleItem: ManifestItem := ManifestItem("c1", "c1.xhtml", "application/xhtml+xml", "", None)
  const ExampleRef: SpineItem := SpineItem(SpineItemData("c1", "", "", ""), None)
  const ExampleView: RootfileView :=
    RootfileView("OEBPS/content.opf", EmptyPackage.(items := [ExampleItem], spine := Spine([ExampleRef], "", "")), EmptyToc)

  lemma ExampleResolves(chapter: Entry)
    ensures Resolve(map["OEBPS/c1.xhtml" := chapter], "OEBPS/content.opf", [ExampleItem]) == [ExampleItem.(entry := Some(chapter))]
  {
    ExampleChapterPath();
  }

  lemma ExampleIndex()
    ensures IndexMap([ExampleItem]) == map["c1" := 0]
  {
    assert [ExampleItem][..0] == [];
  }

  lemma ExampleBindsChapter(chapter: Entry)
    ensures ItemsOf(map["OEBPS/c1.xhtml" := chapter], ExampleView) ==
      Success(ExampleView.(pkg := ExampleView.pkg.(
        items := [ExampleItem.(entry := Some(chapter))],
        spine := Spine([ExampleRef.(item := Some(0))], "", ""))))
  {
    ExampleResolves(chapter);
    ExampleIndex();
    var r := BindSpine(map["c1" := 0], [ExampleRef]);
    assert r.Success? && |r.value| == 1 && r.value[0] == Bind(map["c1" := 0], ExampleRef);
    assert r.value == [ExampleRef.(item := Some(0))];
  }

  /** A package at OEBPS/content.opf with one chapter item: the itemref binds to it and the
      item resolves to the archive entry OEBPS/c1.xhtml; an idref naming no item fails. */
  lemma BinderExample(chapter: Entry)
    ensures ItemsStage(map["OEBPS/c1.xhtml" := chapter], [ExampleView]) ==
      Success([ExampleView.(pkg := ExampleView.pkg.(
        items := [ExampleItem.(entry := Some(chapter))],
        spine := Spine([ExampleRef.(item := Some(0))], "", "")))])
    ensures ItemsStage(map["OEBPS/c1.xhtml" := chapter],
      [ExampleView.(pkg := ExampleView.pkg.(spine := Spine([SpineItem(SpineItemData("zzz", "", "", ""), None)], "", "")))])
      == Failure(BadItemref)
  {
    var files := map["OEBPS/c1.xhtml" := chapter];
    ExampleBindsChapter(chapter);
    var w := ItemsOf(files, ExampleView).value;
    assert [ExampleView][..0] == [];
    MapResultAllSucceed([ExampleView], x => ItemsOf(files, x), [w]);
    var bad := ExampleView.(pkg := ExampleView.pkg.(spine := Spine([SpineItem(SpineItemData("zzz", "", "", ""), None)], "", "")));
    assert [ExampleItem][..0] == [];
    assert IndexMap([ExampleItem]) == map["c1" := 0];
    assert ItemsOf(files, bad) == Failure(BadItemref);
    MapResultFirstFailure([bad], x => ItemsOf(files, x), 0);
  }

  // ---------------------------------------------------------------------------------------
  // The objects

  /** A rootfile of the container: the package document's path, its decoded package and its
      toc. The reader's stages update these fields in place. */
  class Rootfile {
    var fullPath: string
    var pkg: Package
    var toc: Toc

    function View(): RootfileView
      reads this
    {
      RootfileView(fullPath, pkg, toc)
    }

    /** A rootfile as the container decode creates it. */
    constructor (fullPath: string)
      ensures View() == RootfileView(fullPath, EmptyPackage, EmptyToc)
    {
      this.fullPath := fullPath;
      pkg := EmptyPackage;
      toc := EmptyToc;
    }

    /** unmarshallCustomMetadata: isolates the metadata block of the package document `data`,
        scans it for the custom tables and writes them into this rootfile's metadata. On an
        error nothing is written. */
    method UnmarshallCustomMetadata(data: seq<byte>, tokenize: seq<byte> -> seq<Token>) returns (err: Option<Error>)
      modifies this
      ensures match CustomMetadata(old(pkg.metadata), data, tokenize)
        case Success(md) => err == None && View() == old(View()).(pkg := old(pkg).(metadata := md))
        case Failure(e) => err == Some(e) && View() == old(View())
    {
      var c1 := Cut(data, MetadataOpen);
      if !c1.found {
        return Some(MetadataStartNotFound);
      }
      var c2 := Cut(c1.after, TagClose);
      if !c2.found {
        return Some(MetadataStartEndNotFound);
      }
      var c3 := Cut(c2.after, MetadataClose);
      if !c3.found {
        return Some(MetadataEndNotFound);
      }
      var block := MetadataStart + c3.before + MetadataClose;
      var custom := new CustomMetadataInfo();
      var e := custom.UnmarshalXML(tokenize(block), RootName);
      if e.Some? {
        return e;
      }
      ApplyTables(custom);
      return None;
    }

    /** The apply pass of unmarshallCustomMetadata, writing the scanned tables into the
        metadata field by field. */
    method ApplyTables(custom: CustomMetadataInfo)
      modifies this
      ensures View() == old(View()).(pkg := old(pkg).(metadata := Refine(old(pkg.metadata), custom.Value())))
    {
      var tags := CleanBuckets(custom.otherTags);
      pkg := pkg.(metadata := pkg.metadata.(otherTags := tags));
      if |pkg.metadata.coverManifestId| == 0 {
        pkg := pkg.(metadata := pkg.metadata.(coverManifestId := custom.coverId));
      }
      if "title" in custom.refinesMap {
        pkg := pkg.(metadata := pkg.metadata.(title := pkg.metadata.title.(fileAs := custom.refinesMap["title"])));
      }
      if "publisher" in custom.refinesMap {
        pkg := pkg.(metadata := pkg.metadata.(publisher := pkg.metadata.publisher.(fileAs := custom.refinesMap["publisher"])));
      }
      var creators := RefineCreatorsInPlace(pkg.metadata.creators, custom.refinesMap);
      pkg := pkg.(metadata := pkg.metadata.(creators := creators));
    }

    /** The tag table loop: every non-empty bucket, without its empty values. */
    static method CleanBuckets(raw: map<string, seq<string>>) returns (tags: map<string, seq<string>>)
      ensures tags == CleanTags(raw)
    {
      tags := map[];
      var keys := raw.Keys;
      while keys != {}
        invariant keys <= raw.Keys
        invariant tags == map k | k in raw.Keys - keys && |raw[k]| > 0 :: NonEmptyValues(raw[k])
        decreases |keys|
      {
        var k :| k in keys;
        keys := keys - {k};
        var v := raw[k];
        if |v| == 0 {
          continue;
        }
        var kept := DropEmptyValues(v);
        tags := tags[k := kept];
      }
    }

    /** The values loop of one bucket: the non-empty values, in order. */
    static method DropEmptyValues(v: seq<string>) returns (kept: seq<string>)
      ensures kept == NonEmptyValues(v)
    {
      kept := [];
      for j := 0 to |v|
        invariant kept == NonEmptyValues(v[..j])
      {
        assert v[..j + 1] == v[..j] + [v[j]];
        NonEmptyValuesConcat(v[..j], [v[j]]);
        if v[j] != "" {
          kept := kept + [v[j]];
        }
      }
      assert v[..|v|] == v;
    }

    /** The creators loop: each creator whose id has a refinement takes it as its sort name. */
    static method RefineCreatorsInPlace(cs: seq<Creator>, table: map<string, string>) returns (r: seq<Creator>)
      ensures r == RefineCreators(cs, table)
    {
      r := cs;
      for i := 0 to |r|
        invariant |r| == |cs|
        invariant forall k | 0 <= k < i :: r[k] == RefineCreator(cs[k], table)
        invariant forall k | i <= k < |cs| :: r[k] == cs[k]
      {
        if r[i].id in table {
          r := r[i := r[i].(fileAs := table[r[i].id])];
        }
      }
    }
  }

  /** The contents of the rootfiles, in order. */
  function ViewsOf(rfs: seq<Rootfile>): (r: seq<RootfileView>)
    reads rfs
    ensures |r| == |rfs|
    decreases |rfs|
  {
    if rfs == [] then [] else ViewsOf(rfs[..|rfs| - 1]) + [rfs[|rfs| - 1].View()]
  }

  /** The k-th view is the k-th rootfile's. */
  lemma {:induction false} ViewAt(rfs: seq<Rootfile>, k: nat)
    requires k < |rfs|
    ensures ViewsOf(rfs)[k] == rfs[k].View()
    decreases |rfs|
  {
    if k < |rfs| - 1 {
      ViewAt(rfs[..|rfs| - 1], k);
    }
  }

  lemma ViewsPointwise(rfs: seq<Rootfile>)
    ensures forall k | 0 <= k < |rfs| :: ViewsOf(rfs)[k] == rfs[k].View()
  {
    forall k | 0 <= k < |rfs| ensures ViewsOf(rfs)[k] == rfs[k].View() {
      ViewAt(rfs, k);
    }
  }

  /** At the end of a loop over all of `rest`, the processed part is everything. */
  lemma LoopDone<T>(done: seq<T>, rest: seq<T>)
    requires |done| == |rest|
    ensures rest[..|rest|] == rest && done + rest[|rest|..] == done
  {
  }

  /** Replacing the first unprocessed element moves the boundary one step. */
  lemma UpdateAtBoundary<T>(done: seq<T>, rest: seq<T>, w: T)
    requires |done| < |rest|
    ensures (done + rest[|done|..])[|done| := w] == (done + [w]) + rest[|done| + 1..]
  {
  }

  /** An epub being read: the archive's file table and the container's rootfiles. */
  class Reader {
    var files: map<string, Entry>
    var rootfiles: seq<Rootfile>
    /** The position of each rootfile in the container. */
    ghost var position: map<Rootfile, nat>

    /** The rootfiles are distinct objects, so updating one leaves the others alone. */
    ghost predicate Valid()
      reads this
    {
      forall i | 0 <= i < |rootfiles| :: rootfiles[i] in position && position[rootfiles[i]] == i
    }

    function Views(): seq<RootfileView>
      reads this, rootfiles
    {
      ViewsOf(rootfiles)
    }

    constructor ()
      ensures files == map[] && rootfiles == [] && Valid()
    {
      files := map[];
      rootfiles := [];
      position := map[];
    }

    /** Reader.init on the archive's entries: the file table, then the four stages, stopping
        at the first error. */
    method Init(entries: seq<Entry>,
                decodeContainer: seq<byte> -> Result<seq<string>, Error>,
                decodePackage: (Package, seq<byte>) -> Result<Package, Error>,
                parseToc: seq<byte> -> Result<Toc, Error>) returns (err: Option<Error>)
      requires rootfiles == []
      modifies this
      ensures files == FileTable(entries)
      ensures match InitStages(entries, decodeContainer, decodePackage, parseToc)
        case Success(vs) => err == None && Views() == vs
        case Failure(e) => err == Some(e)
    {
      files := BuildFileTable(entries);
      ghost var c := ContainerStage(files, [], decodeContainer);
      err := SetContainer(decodeContainer);
      if err.Some? {
        return;
      }
      assert InitStages(entries, decodeContainer, decodePackage, parseToc) == FromPackages(files, c.value, decodePackage, parseToc);
      err := LoadPackages(decodePackage, parseToc);
    }

    /** The stages of init after the container: packages, items and toc. */
    method LoadPackages(decodePackage: (Package, seq<byte>) -> Result<Package, Error>,
                        parseToc: seq<byte> -> Result<Toc, Error>) returns (err: Option<Error>)
      requires Valid()
      modifies rootfiles
      ensures match FromPackages(files, old(Views()), decodePackage, parseToc)
        case Success(vs) => err == None && Views() == vs
        case Failure(e) => err == Some(e)
    {
      ghost var ov := Views();
      ghost var p := PackagesStage(files, ov, decodePackage);
      err := SetPackages(decodePackage);
      if err.Some? {
        return;
      }
      ghost var it := ItemsStage(files, p.value);
      err := SetItems();
      if err.Some? {
        return;
      }
      assert FromItems(files, p.value, parseToc) == TocStage(files, it.value, parseToc);
      err := SetToc(parseToc);
    }

    /** The lookup table loop of Reader.init. */
    static method BuildFileTable(entries: seq<Entry>) returns (table: map<string, Entry>)
      ensures table == FileTable(entries)
    {
      table := map[];
      for i := 0 to |entries|
        invariant table == FileTable(entries[..i])
      {
        assert entries[..i + 1][..i] == entries[..i];
        table := table[entries[i].name := entries[i]];
      }
      assert entries[..|entries|] == entries;
    }

    /** setContainer: decodes the container descriptor and appends a fresh rootfile for each
        path it names. */
    method SetContainer(decodeContainer: seq<byte> -> Result<seq<string>, Error>) returns (err: Option<Error>)
      requires Valid()
      modifies this
      ensures files == old(files) && Valid()
      ensures |rootfiles| >= |old(rootfiles)| && rootfiles[..|old(rootfiles)|] == old(rootfiles)
      ensures forall k | |old(rootfiles)| <= k < |rootfiles| :: fresh(rootfiles[k])
      ensures forall r | r in rootfiles :: r in old(rootfiles) || fresh(r)
      ensures match ContainerStage(files, old(Views()), decodeContainer)
        case Success(vs) => err == None && Views() == vs
        case Failure(e) => err == Some(e) && rootfiles == old(rootfiles)
    {
      if ContainerPath !in files {
        return Some(NilEntry);
      }
      var paths := decodeContainer(files[ContainerPath].content);
      if paths.Failure? {
        return Some(paths.error);
      }
      AppendRootfiles(paths.value);
      if |rootfiles| < 1 {
        return Some(NoRootfile);
      }
      return None;
    }

    /** The container decode's effect on the rootfiles: a fresh rootfile per path, appended. */
    method AppendRootfiles(paths: seq<string>)
      requires Valid()
      modifies this
      ensures files == old(files) && Valid()
      ensures |rootfiles| == |old(rootfiles)| + |paths| && rootfiles[..|old(rootfiles)|] == old(rootfiles)
      ensures forall k | |old(rootfiles)| <= k < |rootfiles| :: fresh(rootfiles[k])
      ensures forall r | r in rootfiles :: r in old(rootfiles) || fresh(r)
      ensures Views() == old(Views()) + FreshViews(paths)
    {
      ghost var n := |rootfiles|;
      var i := 0;
      while i < |paths|
        invariant 0 <= i <= |paths|
        invariant files == old(files) && Valid()
        invariant |rootfiles| == n + i && rootfiles[..n] == old(rootfiles)
        invariant forall k | n <= k < |rootfiles| :: fresh(rootfiles[k])
        invariant forall r | r in rootfiles :: r in old(rootfiles) || fresh(r)
        invariant Views() == old(Views()) + FreshViews(paths[..i])
      {
        AppendRootfile(paths[i]);
        assert FreshViews(paths[..i + 1]) == FreshViews(paths[..i]) + [RootfileView(paths[i], EmptyPackage, EmptyToc)];
        i := i + 1;
      }
      assert paths[..i] == paths;
    }

    /** One fresh rootfile for `path`, appended. */
    method AppendRootfile(path: string)
      requires Valid()
      modifies this
      ensures files == old(files) && Valid()
      ensures |rootfiles| == |old(rootfiles)| + 1 && rootfiles[..|old(rootfiles)|] == old(rootfiles)
      ensures fresh(rootfiles[|old(rootfiles)|])
      ensures Views() == old(Views()) + [RootfileView(path, EmptyPackage, EmptyToc)]
    {
      var rf := new Rootfile(path);
      position := position[rf := |rootfiles|];
      rootfiles := rootfiles + [rf];
      assert rootfiles[..|rootfiles| - 1] == old(rootfiles);
    }

    /** setPackages: each rootfile's package document must be in the archive and is decoded
        into its package, in container order. */
    method SetPackages(decodePackage: (Package, seq<byte>) -> Result<Package, Error>) returns (err: Option<Error>)
      requires Valid()
      modifies rootfiles
      ensures match PackagesStage(files, old(Views()), decodePackage)
        case Success(vs) => err == None && Views() == vs
        case Failure(e) => err == Some(e)
    {
      ghost var ov := Views();
      ghost var done: seq<RootfileView> := [];
      for i := 0 to |rootfiles|
        invariant PackagesProgress(ov, done, i, decodePackage)
      {
        var e;
        e, done := PackageStep(i, ov, done, decodePackage);
        if e.Some? {
          return e;
        }
      }
      LoopDone(done, ov);
      return None;
    }

    /** The invariant of the setPackages loop after `i` rootfiles: those are loaded, as the
        stage function says, and the rest are as they were. */
    ghost predicate PackagesProgress(ov: seq<RootfileView>, done: seq<RootfileView>, i: nat,
                                     decodePackage: (Package, seq<byte>) -> Result<Package, Error>)
      reads this, rootfiles
    {
      |ov| == |rootfiles| && |done| == i && i <= |ov| &&
      PackagesStage(files, ov[..i], decodePackage) == Success(done) && Views() == done + ov[i..]
    }

    /** One turn of the setPackages loop, in terms of the loop's invariant. */
    method PackageStep(i: nat, ghost ov: seq<RootfileView>, ghost done: seq<RootfileView>,
                       decodePackage: (Package, seq<byte>) -> Result<Package, Error>)
        returns (err: Option<Error>, ghost done': seq<RootfileView>)
      requires Valid() && i < |rootfiles| && PackagesProgress(ov, done, i, decodePackage)
      modifies rootfiles
      ensures err.None? ==> PackagesProgress(ov, done', i + 1, decodePackage)
      ensures err.Some? ==> PackagesStage(files, ov, decodePackage) == Failure(err.value)
    {
      PackagesStep(files, ov, decodePackage, i, done);
      done' := done;
      err := LoadPackage(i, decodePackage);
      if err.None? {
        done' := done + [Views()[i]];
        UpdateAtBoundary(done, ov, Views()[i]);
      }
    }

    /** One rootfile's turn in setPackages. */
    method LoadPackage(i: nat, decodePackage: (Package, seq<byte>) -> Result<Package, Error>) returns (err: Option<Error>)
      requires Valid() && i < |rootfiles|
      modifies rootfiles[i]
      ensures match PackageOf(files, old(Views())[i], decodePackage)
        case Success(w) => err == None && Views() == old(Views())[i := w]
        case Failure(e) => err == Some(e)
    {
      ghost var before := Views();
      ViewsPointwise(rootfiles);
      var rf := rootfiles[i];
      if rf.fullPath !in files {
        return Some(BadRootfile);
      }
      var p := decodePackage(rf.pkg, files[rf.fullPath].content);
      if p.Failure? {
        return Some(p.error);
      }
      rf.pkg := p.value;
      forall k | 0 <= k < |rootfiles| ensures Views()[k] == before[i := rf.View()][k] {
        ViewAt(rootfiles, k);
        if k != i {
          assert rootfiles[k] != rf;
        }
      }
      return None;
    }

    /** setItems: resolves every manifest item and binds every itemref, rootfile by rootfile,
        then demands at least one itemref overall. */
    method SetItems() returns (err: Option<Error>)
      requires Valid()
      modifies rootfiles
      ensures match ItemsStage(files, old(Views()))
        case Success(vs) => err == None && Views() == vs
        case Failure(e) => err == Some(e)
    {
      var itemrefCount;
      err, itemrefCount := BindAll();
      if err == None && itemrefCount < 1 {
        err := Some(NoItemref);
      }
    }

    /** The loop of setItems over the rootfiles, counting their itemrefs. */
    method BindAll() returns (err: Option<Error>, itemrefCount: nat)
      requires Valid()
      modifies rootfiles
      ensures match BindStage(files, old(Views()))
        case Success(vs) => err == None && Views() == vs && itemrefCount == TotalItemrefs(old(Views()))
        case Failure(e) => err == Some(e)
    {
      itemrefCount := 0;
      ghost var ov := Views();
      ghost var done: seq<RootfileView> := [];
      for i := 0 to |rootfiles|
        invariant BindProgress(ov, done, i, itemrefCount)
      {
        var e;
        e, itemrefCount, done := BindStep(i, ov, done, itemrefCount);
        if e.Some? {
          return e, itemrefCount;
        }
      }
      LoopDone(done, ov);
      return None, itemrefCount;
    }

    /** The invariant of the setItems loop after `i` rootfiles: those are bound, as the stage
        function says, the rest are as they were, and `itemrefCount` counts their itemrefs. */
    ghost predicate BindProgress(ov: seq<RootfileView>, done: seq<RootfileView>, i: nat, itemrefCount: nat)
      reads this, rootfiles
    {
      |ov| == |rootfiles| && |done| == i && i <= |ov| && itemrefCount == TotalItemrefs(ov[..i]) &&
      BindStage(files, ov[..i]) == Success(done) && Views() == done + ov[i..]
    }

    /** One turn of the setItems loop, in terms of the loop's invariant. */
    method BindStep(i: nat, ghost ov: seq<RootfileView>, ghost done: seq<RootfileView>, itemrefCount: nat)
        returns (err: Option<Error>, itemrefCount': nat, ghost done': seq<RootfileView>)
      requires Valid() && i < |rootfiles| && BindProgress(ov, done, i, itemrefCount)
      modifies rootfiles
      ensures err.None? ==> BindProgress(ov, done', i + 1, itemrefCount')
      ensures err.Some? ==> BindStage(files, ov) == Failure(err.value)
    {
      BindStepStage(files, ov, i, done);
      itemrefCount' := itemrefCount;
      done' := done;
      err := BindRootfile(i);
      if err.None? {
        itemrefCount' := itemrefCount + |rootfiles[i].pkg.spine.itemrefs|;
        done' := done + [Views()[i]];
        UpdateAtBoundary(done, ov, Views()[i]);
      }
    }

    /** One rootfile's turn in setItems. */
    method BindRootfile(i: nat) returns (err: Option<Error>)
      requires Valid() && i < |rootfiles|
      modifies rootfiles[i]
      ensures match ItemsOf(files, old(Views())[i])
        case Success(w) => err == None && Views() == old(Views())[i := w]
        case Failure(e) => err == Some(e)
      ensures err == None ==> |rootfiles[i].pkg.spine.itemrefs| == |old(Views())[i].pkg.spine.itemrefs|
    {
      ghost var before := Views();
      ViewsPointwise(rootfiles);
      var rf := rootfiles[i];
      var itemMap := ResolveManifest(rf);
      err := BindItemrefs(rf, itemMap);
      forall k | 0 <= k < |rootfiles| ensures Views()[k] == before[i := rf.View()][k] {
        ViewAt(rootfiles, k);
        if k != i {
          assert rootfiles[k] != rf;
        }
      }
    }

    /** The manifest loop of setItems: builds the item map and resolves each item's href. */
    method ResolveManifest(rf: Rootfile) returns (itemMap: map<string, nat>)
      modifies rf
      ensures itemMap == IndexMap(old(rf.pkg.items))
      ensures rf.View() == old(rf.View()).(pkg := old(rf.pkg).(items := Resolve(files, rf.fullPath, old(rf.pkg.items))))
    {
      ghost var items := rf.pkg.items;
      itemMap := map[];
      for i := 0 to |rf.pkg.items|
        invariant |rf.pkg.items| == |items|
        invariant rf.View() == old(rf.View()).(pkg := old(rf.pkg).(items := rf.pkg.items))
        invariant itemMap == IndexMap(items[..i])
        invariant forall k | 0 <= k < i :: rf.pkg.items[k] == items[k].(entry := Lookup(files, Join(Dir(rf.fullPath), items[k].href)))
        invariant forall k | i <= k < |items| :: rf.pkg.items[k] == items[k]
      {
        var item := rf.pkg.items[i];
        assert items[..i + 1][..i] == items[..i];
        itemMap := itemMap[item.id := i];
        var abs := Join(Dir(rf.fullPath), item.href);
        rf.pkg := rf.pkg.(items := rf.pkg.items[i := item.(entry := Lookup(files, abs))]);
      }
      assert items[..|items|] == items;
      assert rf.pkg.items == Resolve(files, rf.fullPath, items);
    }

    /** The spine loop of setItems: binds each itemref through the item map, failing on the
        first idref the map lacks. */
    static method BindItemrefs(rf: Rootfile, itemMap: map<string, nat>) returns (err: Option<Error>)
      modifies rf
      ensures match BindSpine(itemMap, old(rf.pkg.spine.itemrefs))
        case Success(refs) => err == None &&
          rf.View() == old(rf.View()).(pkg := old(rf.pkg).(spine := old(rf.pkg.spine).(itemrefs := refs)))
        case Failure(e) => err == Some(e)
    {
      ghost var refs := rf.pkg.spine.itemrefs;
      for i := 0 to |rf.pkg.spine.itemrefs|
        invariant |rf.pkg.spine.itemrefs| == |refs|
        invariant rf.View() == old(rf.View()).(pkg := old(rf.pkg).(spine := old(rf.pkg.spine).(itemrefs := rf.pkg.spine.itemrefs)))
        invariant forall k | 0 <= k < i :: refs[k].data.idref in itemMap && rf.pkg.spine.itemrefs[k] == Bind(itemMap, refs[k])
        invariant forall k | i <= k < |refs| :: rf.pkg.spine.itemrefs[k] == refs[k]
      {
        var itemref := rf.pkg.spine.itemrefs[i];
        var item := if itemref.data.idref in itemMap then Some(itemMap[itemref.data.idref]) else None;
        rf.pkg := rf.pkg.(spine := rf.pkg.spine.(itemrefs := rf.pkg.spine.itemrefs[i := itemref.(item := item)]));
        if item.None? {
          return Some(BadItemref);
        }
      }
      assert rf.pkg.spine.itemrefs == BindSpine(itemMap, refs).value;
      return None;
    }

    /** setToc: for each rootfile with a toc id, finds the toc document through the manifest
        and the archive and parses it into the rootfile's toc. */
    method SetToc(parseToc: seq<byte> -> Result<Toc, Error>) returns (err: Option<Error>)
      requires Valid()
      modifies rootfiles
      ensures match TocStage(files, old(Views()), parseToc)
        case Success(vs) => err == None && Views() == vs
        case Failure(e) => err == Some(e)
    {
      ghost var ov := Views();
      ghost var done: seq<RootfileView> := [];
      for i := 0 to |rootfiles|
        invariant TocProgress(ov, done, i, parseToc)
      {
        var e;
        e, done := TocStep(i, ov, done, parseToc);
        if e.Some? {
          return e;
        }
      }
      LoopDone(done, ov);
      return None;
    }

    /** The invariant of the setToc loop after `i` rootfiles: those have their tables of
        contents, as the stage function says, and the rest are as they were. */
    ghost predicate TocProgress(ov: seq<RootfileView>, done: seq<RootfileView>, i: nat, parseToc: seq<byte> -> Result<Toc, Error>)
      reads this, rootfiles
    {
      |ov| == |rootfiles| && |done| == i && i <= |ov| &&
      TocStage(files, ov[..i], parseToc) == Success(done) && Views() == done + ov[i..]
    }

    /** One turn of the setToc loop, in terms of the loop's invariant. */
    method TocStep(i: nat, ghost ov: seq<RootfileView>, ghost done: seq<RootfileView>,
                   parseToc: seq<byte> -> Result<Toc, Error>)
        returns (err: Option<Error>, ghost done': seq<RootfileView>)
      requires Valid() && i < |rootfiles| && TocProgress(ov, done, i, parseToc)
      modifies rootfiles
      ensures err.None? ==> TocProgress(ov, done', i + 1, parseToc)
      ensures err.Some? ==> TocStage(files, ov, parseToc) == Failure(err.value)
    {
      TocStepStage(files, ov, parseToc, i, done);
      done' := done;
      err := ReadToc(i, parseToc);
      if err.None? {
        done' := done + [Views()[i]];
        UpdateAtBoundary(done, ov, Views()[i]);
      }
    }

    /** One rootfile's turn in setToc. */
    method ReadToc(i: nat, parseToc: seq<byte> -> Result<Toc, Error>) returns (err: Option<Error>)
      requires Valid() && i < |rootfiles|
      modifies rootfiles[i]
      ensures match TocOf(files, old(Views())[i], parseToc)
        case Success(w) => err == None && Views() == old(Views())[i := w]
        case Failure(e) => err == Some(e)
    {
      ghost var before := Views();
      ViewsPointwise(rootfiles);
      var rf := rootfiles[i];
      var tocId := rf.pkg.spine.toc;
      if |tocId| == 0 {
        return None;
      }
      var tocPath := FindTocPath(rf.pkg.items, tocId);
      if |tocPath| == 0 {
        return Some(TocItemNotFound);
      }
      var abs := Join(Dir(rf.fullPath), tocPath);
      if abs !in files {
        return Some(TocFileNotFound);
      }
      var toc := parseToc(files[abs].content);
      if toc.Failure? {
        return Some(toc.error);
      }
      rf.toc := toc.value;
      forall k | 0 <= k < |rootfiles| ensures Views()[k] == before[i := rf.View()][k] {
        ViewAt(rootfiles, k);
        if k != i {
          assert rootfiles[k] != rf;
        }
      }
      return None;
    }

    /** The manifest search of setToc: the href of the first item with the toc id. */
    static method FindTocPath(items: seq<ManifestItem>, tocId: string) returns (tocPath: string)
      ensures tocPath == TocPath(items, tocId)
    {
      tocPath := "";
      var i := 0;
      while i < |items|
        invariant 0 <= i <= |items|
        invariant forall j | 0 <= j < i :: items[j].id != tocId
      {
        if items[i].id == tocId {
          tocPath := items[i].href;
          var r := FirstWithId(items, tocId);
          assert r.Some? && !(r.value < i) && !(i < r.value);
          return;
        }
        i := i + 1;
      }
    }
  }

  // ---------------------------------------------------------------------------------------
  // The stages as the methods meet them, one rootfile at a time

  lemma PackagesSnoc(files: map<string, Entry>, vs: seq<RootfileView>, decodePackage: (Package, seq<byte>) -> Result<Package, Error>, i: nat)
    requires i < |vs|
    ensures PackagesStage(files, vs[..i + 1], decodePackage) ==
      match PackagesStage(files, vs[..i], decodePackage)
      case Failure(e) => Failure(e)
      case Success(t) => match PackageOf(files, vs[i], decodePackage) case Failure(e) => Failure(e) case Success(h) => Success(t + [h])
  {
    assert vs[..i + 1] == vs[..i] + [vs[i]];
    MapResultSnoc(vs[..i], v => PackageOf(files, v, decodePackage), vs[i]);
  }

  lemma PackagesPrefixFails(files: map<string, Entry>, vs: seq<RootfileView>, decodePackage: (Package, seq<byte>) -> Result<Package, Error>, j: nat)
    requires j <= |vs| && PackagesStage(files, vs[..j], decodePackage).Failure?
    ensures PackagesStage(files, vs, decodePackage) == PackagesStage(files, vs[..j], decodePackage)
  {
    MapResultPrefixFails(vs, v => PackageOf(files, v, decodePackage), j);
  }

  lemma BindSnoc(files: map<string, Entry>, vs: seq<RootfileView>, i: nat)
    requires i < |vs|
    ensures BindStage(files, vs[..i + 1]) ==
      match BindStage(files, vs[..i])
      case Failure(e) => Failure(e)
      case Success(t) => match ItemsOf(files, vs[i]) case Failure(e) => Failure(e) case Success(h) => Success(t + [h])
    ensures TotalItemrefs(vs[..i + 1]) == TotalItemrefs(vs[..i]) + |vs[i].pkg.spine.itemrefs|
  {
    assert vs[..i + 1] == vs[..i] + [vs[i]];
    assert vs[..i + 1][..i] == vs[..i];
    MapResultSnoc(vs[..i], v => ItemsOf(files, v), vs[i]);
  }

  lemma BindPrefixFails(files: map<string, Entry>, vs: seq<RootfileView>, j: nat)
    requires j <= |vs| && BindStage(files, vs[..j]).Failure?
    ensures BindStage(files, vs) == BindStage(files, vs[..j])
  {
    MapResultPrefixFails(vs, v => ItemsOf(files, v), j);
  }

  lemma TocSnoc(files: map<string, Entry>, vs: seq<RootfileView>, parseToc: seq<byte> -> Result<Toc, Error>, i: nat)
    requires i < |vs|
    ensures TocStage(files, vs[..i + 1], parseToc) ==
      match TocStage(files, vs[..i], parseToc)
      case Failure(e) => Failure(e)
      case Success(t) => match TocOf(files, vs[i], parseToc) case Failure(e) => Failure(e) case Success(h) => Success(t + [h])
  {
    assert vs[..i + 1] == vs[..i] + [vs[i]];
    MapResultSnoc(vs[..i], v => TocOf(files, v, parseToc), vs[i]);
  }

  lemma TocPrefixFails(files: map<string, Entry>, vs: seq<RootfileView>, parseToc: seq<byte> -> Result<Toc, Error>, j: nat)
    requires j <= |vs| && TocStage(files, vs[..j], parseToc).Failure?
    ensures TocStage(files, vs, parseToc) == TocStage(files, vs[..j], parseToc)
  {
    MapResultPrefixFails(vs, v => TocOf(files, v, parseToc), j);
  }

  lemma PackagesStep(files: map<string, Entry>, vs: seq<RootfileView>, decodePackage: (Package, seq<byte>) -> Result<Package, Error>, i: nat, done: seq<RootfileView>)
    requires i < |vs| && PackagesStage(files, vs[..i], decodePackage) == Success(done)
    ensures match PackageOf(files, vs[i], decodePackage)
      case Success(w) => PackagesStage(files, vs[..i + 1], decodePackage) == Success(done + [w])
      case Failure(e) => PackagesStage(files, vs, decodePackage) == Failure(e)
  {
    PackagesSnoc(files, vs, decodePackage, i);
    if PackageOf(files, vs[i], decodePackage).Failure? {
      PackagesPrefixFails(files, vs, decodePackage, i + 1);
    }
  }

  lemma BindStepStage(files: map<string, Entry>, vs: seq<RootfileView>, i: nat, done: seq<RootfileView>)
    requires i < |vs| && BindStage(files, vs[..i]) == Success(done)
    ensures TotalItemrefs(vs[..i + 1]) == TotalItemrefs(vs[..i]) + |vs[i].pkg.spine.itemrefs|
    ensures match ItemsOf(files, vs[i])
      case Success(w) => BindStage(files, vs[..i + 1]) == Success(done + [w])
      case Failure(e) => BindStage(files, vs) == Failure(e)
  {
    BindSnoc(files, vs, i);
    if ItemsOf(files, vs[i]).Failure? {
      BindPrefixFails(files, vs, i + 1);
    }
  }

  lemma TocStepStage(files: map<string, Entry>, vs: seq<RootfileView>, parseToc: seq<byte> -> Result<Toc, Error>, i: nat, done: seq<RootfileView>)
    requires i < |vs| && TocStage(files, vs[..i], parseToc) == Success(done)
    ensures match TocOf(files, vs[i], parseToc)
      case Success(w) => TocStage(files, vs[..i + 1], parseToc) == Success(done + [w])
      case Failure(e) => TocStage(files, vs, parseToc) == Failure(e)
  {
    TocSnoc(files, vs, parseToc, i);
    if TocOf(files, vs[i], parseToc).Failure? {
      TocPrefixFails(files, vs, parseToc, i + 1);
    }
  }
}
