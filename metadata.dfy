/** The metadata refinement engine of epub/epub_metadata.go: isolating the `<metadata>` block
    by literal search, the token-driven scan that sorts its `<meta>` declarations into a cover
    id, an ordered multi-map of other tags and a table of `file-as` refinements, and the pass
    that applies those tables to the package's decoded metadata. */
module EpubMetadata {
  import opened Wrappers
  import opened Text
  import opened XmlTokens
  import opened EpubErrors

  // ---------------------------------------------------------------------------------------
  // Data model

  /** A `dc:creator`: its text, its `id` attribute and its alternate sort name. */
  datatype Creator = Creator(name: string, id: string, fileAs: string)

  /** The title and the publisher: text and alternate sort name. */
  datatype NamedText = NamedText(name: string, fileAs: string)

  datatype Event = Event(name: string, date: string)

  /** The package's publication metadata, as its structural decode fills it, plus the two
      fields the refinement pass derives (`otherTags`, `coverManifestId`). */
  datatype Metadata = Metadata(
    title: NamedText,
    language: string,
    identifier: string,
    creators: seq<Creator>,
    contributor: string,
    publisher: NamedText,
    subject: string,
    description: string,
    events: seq<Event>,
    dcType: string,
    format: string,
    source: string,
    relation: string,
    coverage: string,
    rights: string,
    otherTags: map<string, seq<string>>,
    coverManifestId: string)

  /** The raw tables the scan fills (the source's CustomMetadataInfo). Every text slot the
      source allocates and points at is one string here. */
  datatype Info = Info(otherTags: map<string, seq<string>>, coverId: string, refinesMap: map<string, string>)

  /** Where the next non-blank character data goes (the source's `currentTextSink` pointer):
      nowhere, a throw-away string, the refinement slot of an id, or one slot of a tag bucket. */
  datatype Sink = NoSink | Discard | RefineSlot(id: string) | TagSlot(key: string, index: nat)

  /** The sink names a slot that exists. */
  predicate SinkValid(info: Info, sink: Sink) {
    match sink
    case RefineSlot(id) => id in info.refinesMap
    case TagSlot(key, index) => key in info.otherTags && index < |info.otherTags[key]|
    case _ => true
  }

  /** The sink names a slot that exists and has not been written yet. */
  predicate PendingEmpty(info: Info, sink: Sink) {
    SinkValid(info, sink) &&
    match sink
    case RefineSlot(id) => info.refinesMap[id] == ""
    case TagSlot(key, index) => info.otherTags[key][index] == ""
    case _ => true
  }

  /** The name of the synthetic root element the isolated block is wrapped in. */
  const RootName: Name := Name("", "metadata")

  // ---------------------------------------------------------------------------------------
  // The attributes of a `<meta>`

  /** The attributes a `<meta>` may carry; `scheme` is accepted and never read. */
  const NoMetaAttributes: map<string, string> :=
    map["refines" := "", "content" := "", "property" := "", "name" := "", "scheme" := ""]

  /** Records each attribute's value under its local name, a later duplicate overwriting an
      earlier one, and fails on the first attribute whose local name is not a key. */
  function CollectMetaAttributes(fields: map<string, string>, attrs: seq<Attr>): (r: Result<map<string, string>, Error>)
    ensures r.Success? ==> r.value.Keys == fields.Keys
    decreases |attrs|
  {
    if attrs == [] then Success(fields)
    else
      var local := attrs[0].name.local;
      if local in fields then CollectMetaAttributes(fields[local := attrs[0].value], attrs[1..])
      else Failure(UnknownMetaAttribute(local))
  }

  /** The four attributes the scan reads (the source's MetaTag record). */
  datatype MetaTag = MetaTag(name: string, content: string, target: string, property: string)

  function ReadMetaTag(attrs: seq<Attr>): Result<MetaTag, Error> {
    match CollectMetaAttributes(NoMetaAttributes, attrs)
    case Failure(e) => Failure(e)
    case Success(f) => Success(MetaTag(f["name"], f["content"], f["refines"], f["property"]))
  }

  /** Reference reading of an attribute: the value of the last attribute with that local
      name, or `absent` if there is none. */
  function LastValue(attrs: seq<Attr>, key: string, absent: string): string
    decreases |attrs|
  {
    if attrs == [] then absent
    else if attrs[|attrs| - 1].name.local == key then attrs[|attrs| - 1].value
    else LastValue(attrs[..|attrs| - 1], key, absent)
  }

  /** A `<meta>` is rejected exactly when one of its attributes is not one of the five. */
  lemma {:induction false} CollectAccepts(fields: map<string, string>, attrs: seq<Attr>)
    ensures CollectMetaAttributes(fields, attrs).Success? <==> AllLocalNamesIn(attrs, fields.Keys)
    ensures CollectMetaAttributes(fields, attrs).Failure? ==>
      CollectMetaAttributes(fields, attrs).error.UnknownMetaAttribute? &&
      CollectMetaAttributes(fields, attrs).error.attribute !in fields.Keys
    decreases |attrs|
  {
    if attrs != [] {
      var local := attrs[0].name.local;
      if local in fields {
        CollectAccepts(fields[local := attrs[0].value], attrs[1..]);
        assert forall i | 1 <= i < |attrs| :: attrs[i] == attrs[1..][i - 1];
      }
    }
  }

  lemma {:induction false} LastValueSplit(pre: seq<Attr>, post: seq<Attr>, key: string, absent: string)
    ensures LastValue(pre + post, key, absent) == LastValue(post, key, LastValue(pre, key, absent))
    decreases |post|
  {
    if post == [] {
      assert pre + post == pre;
    } else {
      assert (pre + post)[..|pre + post| - 1] == pre + post[..|post| - 1];
      LastValueSplit(pre, post[..|post| - 1], key, absent);
    }
  }

  /** Each collected field holds the value of the last attribute with that local name. */
  lemma {:induction false} CollectValues(fields: map<string, string>, attrs: seq<Attr>, key: string)
    requires key in fields
    requires CollectMetaAttributes(fields, attrs).Success?
    ensures CollectMetaAttributes(fields, attrs).value[key] == LastValue(attrs, key, fields[key])
    decreases |attrs|
  {
    if attrs != [] {
      var local := attrs[0].name.local;
      var fields' := fields[local := attrs[0].value];
      CollectValues(fields', attrs[1..], key);
      LastValueSplit([attrs[0]], attrs[1..], key, fields[key]);
      assert [attrs[0]] + attrs[1..] == attrs;
      assert LastValue([attrs[0]], key, fields[key]) == fields'[key] by {
        assert [attrs[0]][..0] == [];
      }
    }
  }

  /** A `meta` is read exactly when all its attributes are among the five, and then each of
      the four it reads holds the last value given for it. */
  lemma ReadMetaTagSpec(attrs: seq<Attr>)
    ensures ReadMetaTag(attrs).Success? <==> AllLocalNamesIn(attrs, NoMetaAttributes.Keys)
    ensures ReadMetaTag(attrs).Success? ==> ReadMetaTag(attrs).value == MetaTag(
      LastValue(attrs, "name", ""), LastValue(attrs, "content", ""),
      LastValue(attrs, "refines", ""), LastValue(attrs, "property", ""))
    ensures ReadMetaTag(attrs).Failure? ==>
      ReadMetaTag(attrs).error.UnknownMetaAttribute? &&
      ReadMetaTag(attrs).error.attribute !in NoMetaAttributes.Keys
  {
    CollectAccepts(NoMetaAttributes, attrs);
    if ReadMetaTag(attrs).Success? {
      CollectValues(NoMetaAttributes, attrs, "name");
      CollectValues(NoMetaAttributes, attrs, "content");
      CollectValues(NoMetaAttributes, attrs, "refines");
      CollectValues(NoMetaAttributes, attrs, "property");
    }
  }

  lemma {:induction false} LastValueSkip(pre: seq<Attr>, a: Attr, post: seq<Attr>, key: string, absent: string)
    requires a.name.local != key
    ensures LastValue(pre + [a] + post, key, absent) == LastValue(pre + post, key, absent)
  {
    LastValueSplit(pre + [a], post, key, absent);
    LastValueSplit(pre, post, key, absent);
    assert (pre + [a])[..|pre + [a]| - 1] == pre;
  }

  /** A `scheme` attribute is accepted and has no effect, wherever it stands. */
  lemma SchemeIgnored(pre: seq<Attr>, a: Attr, post: seq<Attr>)
    requires a.name.local == "scheme"
    ensures ReadMetaTag(pre + [a] + post) == ReadMetaTag(pre + post)
  {
    var full := pre + [a] + post;
    var short := pre + post;
    ReadMetaTagSpec(full);
    ReadMetaTagSpec(short);
    assert AllLocalNamesIn(full, NoMetaAttributes.Keys) <==> AllLocalNamesIn(short, NoMetaAttributes.Keys) by {
      assert forall i | 0 <= i < |pre| :: full[i] == pre[i] && short[i] == pre[i];
      assert forall i | 0 <= i < |post| :: full[|pre| + 1 + i] == post[i] && short[|pre| + i] == post[i];
      assert full[|pre|] == a;
      if AllLocalNamesIn(short, NoMetaAttributes.Keys) {
        forall i | 0 <= i < |full| ensures full[i].name.local in NoMetaAttributes.Keys {
          if i < |pre| { assert full[i] == short[i]; }
          else if i > |pre| { assert full[i] == short[i - 1]; }
        }
      }
      if AllLocalNamesIn(full, NoMetaAttributes.Keys) {
        forall i | 0 <= i < |short| ensures short[i].name.local in NoMetaAttributes.Keys {
          if i < |pre| { assert full[i] == short[i]; }
          else { assert full[i + 1] == short[i]; }
        }
      }
    }
    if ReadMetaTag(full).Success? {
      LastValueSkip(pre, a, post, "name", "");
      LastValueSkip(pre, a, post, "content", "");
      LastValueSkip(pre, a, post, "refines", "");
      LastValueSkip(pre, a, post, "property", "");
    } else {
      // both fail; the first unknown attribute is the same one, since `a` is known
      FirstUnknownSkip(NoMetaAttributes, pre, a, post);
    }
  }

  lemma {:induction false} FirstUnknownSkip(fields: map<string, string>, pre: seq<Attr>, a: Attr, post: seq<Attr>)
    requires a.name.local in fields
    requires CollectMetaAttributes(fields, pre + post).Failure?
    ensures CollectMetaAttributes(fields, pre + [a] + post) == CollectMetaAttributes(fields, pre + post)
    decreases |pre|
  {
    if pre == [] {
      assert pre + [a] + post == [a] + post;
      assert ([a] + post)[1..] == post;
      assert pre + post == post;
      CollectFailureIgnoresValues(fields, a.name.local, a.value, post);
    } else {
      var local := pre[0].name.local;
      assert (pre + [a] + post)[0] == pre[0] && (pre + post)[0] == pre[0];
      assert (pre + [a] + post)[1..] == pre[1..] + [a] + post;
      assert (pre + post)[1..] == pre[1..] + post;
      if local in fields {
        FirstUnknownSkip(fields[local := pre[0].value], pre[1..], a, post);
      }
    }
  }

  lemma {:induction false} CollectFailureIgnoresValues(fields: map<string, string>, key: string, v: string, attrs: seq<Attr>)
    requires key in fields
    requires CollectMetaAttributes(fields, attrs).Failure?
    ensures CollectMetaAttributes(fields[key := v], attrs) == CollectMetaAttributes(fields, attrs)
    decreases |attrs|
  {
    if attrs != [] {
      var local := attrs[0].name.local;
      if local in fields {
        var f1 := fields[local := attrs[0].value];
        var f2 := fields[key := v][local := attrs[0].value];
        CollectFailureIgnoresValues(f1, key, v, attrs[1..]);
        if local == key {
          assert f2 == f1;
        } else {
          assert f2 == f1[key := v];
        }
      }
    }
  }

  // ---------------------------------------------------------------------------------------
  // One `<meta>`

  function Append(tags: map<string, seq<string>>, key: string, v: string): map<string, seq<string>> {
    tags[key := (if key in tags then tags[key] else []) + [v]]
  }

  /** A `name`/`content` pair: `name="cover"` sets the cover id, any other name appends the
      content to that name's bucket; nothing happens unless both are non-empty. */
  function NameContent(info: Info, tag: MetaTag): Info {
    if |tag.content| > 0 && |tag.name| > 0 then
      if tag.name == "cover" then info.(coverId := tag.content)
      else info.(otherTags := Append(info.otherTags, tag.name, tag.content))
    else info
  }

  /** `refines` with `property="file-as"`: the only refinement the engine knows. */
  predicate InstallsRefinement(tag: MetaTag) {
    |tag.target| > 0 && tag.property == "file-as"
  }

  /** The refined id: the `refines` value without its first character (the `#`). */
  function RefinedId(tag: MetaTag): string
    requires |tag.target| > 0
  {
    tag.target[1..]
  }

  predicate InstallsSlot(tag: MetaTag) {
    InstallsRefinement(tag) || |tag.property| > 0
  }

  /** The effect of one accepted `<meta>` on the tables and the sink. */
  function ApplyMeta(info: Info, sink: Sink, tag: MetaTag): (r: (Info, Sink))
    requires SinkValid(info, sink)
    ensures PendingEmpty(info, sink) ==> PendingEmpty(r.0, r.1)
    ensures SinkValid(r.0, r.1)
  {
    var i1 := NameContent(info, tag);
    if InstallsRefinement(tag) then
      var id := RefinedId(tag);
      (i1.(refinesMap := i1.refinesMap[id := ""]), RefineSlot(id))
    else if |tag.property| > 0 then
      var tags := Append(i1.otherTags, tag.property, "");
      (i1.(otherTags := tags), TagSlot(tag.property, |tags[tag.property]| - 1))
    else
      (i1, sink)
  }

  /** Writes non-blank text into the slot the sink names. */
  function Write(info: Info, sink: Sink, text: string): (r: Info)
    requires SinkValid(info, sink)
    ensures r.otherTags.Keys == info.otherTags.Keys
    ensures forall k | k in info.otherTags :: |r.otherTags[k]| == |info.otherTags[k]|
    ensures r.coverId == info.coverId
  {
    match sink
    case RefineSlot(id) => info.(refinesMap := info.refinesMap[id := text])
    case TagSlot(key, index) => info.(otherTags := info.otherTags[key := info.otherTags[key][index := text]])
    case _ => info
  }

  // ---------------------------------------------------------------------------------------
  // The scan

  datatype Scanned = Continue(info: Info, sink: Sink) | Finished(result: Info) | Failed(error: Error)

  /** How the token loop goes on after one token: with a sink, or by returning an error or nil. */
  datatype Turn = Next(sink: Sink) | Stop(error: Option<Error>)

  /** One token of the scan. */
  function Step(info: Info, sink: Sink, t: Token, root: Name): (r: Scanned)
    requires SinkValid(info, sink)
    ensures r.Continue? ==> SinkValid(r.info, r.sink)
    ensures r.Continue? && PendingEmpty(info, sink) && !t.CharData? ==> PendingEmpty(r.info, r.sink)
  {
    match t
    case SyntaxError(m) => Failed(Foreign(m))
    case StartElement(n, attrs) =>
      if n.local == "meta" then
        match ReadMetaTag(attrs)
        case Failure(e) => Failed(e)
        case Success(tag) =>
          var (i, s) := ApplyMeta(info, sink, tag);
          Continue(i, s)
      else Continue(info, Discard)
    case EndElement(n) => if n == root then Finished(info) else Continue(info, sink)
    case CharData(text) =>
      var s := TrimSpace(text);
      if |s| == 0 || sink.NoSink? then Continue(info, sink)
      else Continue(Write(info, sink, s), NoSink)
    case Other(_) => Continue(info, sink)
  }

  /** The scan of the block's tokens (the source's CustomMetadataInfo.UnmarshalXML): it ends
      with the tables at the end of the stream or at the root's end tag, and fails at a
      tokenizer error or a `<meta>` with a foreign attribute. */
  function Scan(info: Info, sink: Sink, ts: seq<Token>, root: Name): Result<Info, Error>
    requires SinkValid(info, sink)
    decreases |ts|
  {
    if ts == [] then Success(info)
    else
      match Step(info, sink, ts[0], root)
      case Finished(i) => Success(i)
      case Failed(e) => Failure(e)
      case Continue(i, s) => Scan(i, s, ts[1..], root)
  }

  /** The receiver of the scan. Its fields are the tables the source's UnmarshalXML fills in
      place; the sink is a local of that method. */
  class CustomMetadataInfo {
    var otherTags: map<string, seq<string>>
    var coverId: string
    var refinesMap: map<string, string>

    function Value(): Info
      reads this
    {
      Info(otherTags, coverId, refinesMap)
    }

    /** The zero value `CustomMetadataInfo{}`. */
    constructor ()
      ensures Value() == Info(map[], "", map[])
    {
      otherTags := map[];
      coverId := "";
      refinesMap := map[];
    }

    /** Resets the two maps (the cover id is kept) and scans `tokens`, the tokens that follow
        the start tag named `start`. */
    method UnmarshalXML(tokens: seq<Token>, start: Name) returns (err: Option<Error>)
      modifies this
      ensures var spec := Scan(Info(map[], old(coverId), map[]), NoSink, tokens, start);
        match spec
        case Success(i) => err == None && Value() == i
        case Failure(e) => err == Some(e)
    {
      otherTags := map[];
      refinesMap := map[];
      var sink := NoSink;
      var i := 0;
      ghost var spec := Scan(Value(), NoSink, tokens, start);
      while i < |tokens|
        invariant 0 <= i <= |tokens|
        invariant SinkValid(Value(), sink)
        invariant Scan(Value(), sink, tokens[i..], start) == spec
      {
        assert tokens[i..][0] == tokens[i] && tokens[i..][1..] == tokens[i + 1..];
        var next := Consume(sink, tokens[i], start);
        if next.Stop? {
          return next.error;
        }
        sink := next.sink;
        i := i + 1;
      }
      return None;
    }

    /** One turn of the token loop of UnmarshalXML. */
    method Consume(sink: Sink, t: Token, start: Name) returns (next: Turn)
      requires SinkValid(Value(), sink)
      modifies this
      ensures match Step(old(Value()), sink, t, start)
        case Continue(i, s) => next == Next(s) && Value() == i
        case Finished(i) => next == Stop(None) && Value() == i
        case Failed(e) => next == Stop(Some(e))
    {
      match t {
        case SyntaxError(m) =>
          return Stop(Some(Foreign(m)));
        case StartElement(n, attrs) =>
          if n.local == "meta" {
            var tag := ReadMeta(attrs);
            if tag.Failure? {
              return Stop(Some(tag.error));
            }
            var s := ApplyMetaTag(sink, tag.value);
            return Next(s);
          }
          return Next(Discard);
        case EndElement(n) =>
          if n == start {
            return Stop(None);
          }
          return Next(sink);
        case CharData(text) =>
          var stringData := TrimSpace(text);
          if |stringData| > 0 && sink != NoSink {
            WriteText(sink, stringData);
            return Next(NoSink);
          }
          return Next(sink);
        case Other(_) =>
          return Next(sink);
      }
    }

    /** Reads a `<meta>`'s attributes into the five known fields, stopping at the first
        foreign one. */
    static method ReadMeta(attrs: seq<Attr>) returns (r: Result<MetaTag, Error>)
      ensures r == ReadMetaTag(attrs)
    {
      var fields := NoMetaAttributes;
      var j := 0;
      while j < |attrs|
        invariant 0 <= j <= |attrs|
        invariant fields.Keys == NoMetaAttributes.Keys
        invariant CollectMetaAttributes(fields, attrs[j..]) == CollectMetaAttributes(NoMetaAttributes, attrs)
      {
        assert attrs[j..][0] == attrs[j] && attrs[j..][1..] == attrs[j + 1..];
        var local := attrs[j].name.local;
        if local in fields {
          fields := fields[local := attrs[j].value];
        } else {
          return Failure(UnknownMetaAttribute(local));
        }
        j := j + 1;
      }
      return Success(MetaTag(fields["name"], fields["content"], fields["refines"], fields["property"]));
    }

    /** Applies an accepted `<meta>`: its name/content pair, then the slot it opens, if any. */
    method ApplyMetaTag(sink: Sink, tag: MetaTag) returns (sink': Sink)
      requires SinkValid(Value(), sink)
      modifies this
      ensures (Value(), sink') == ApplyMeta(old(Value()), sink, tag)
    {
      sink' := sink;
      StoreNameContent(tag);
      var property := tag.property;
      var target := tag.target;
      if |target| > 0 && property == "file-as" {
        var refinesId := target[1..];
        refinesMap := refinesMap[refinesId := ""];
        sink' := RefineSlot(refinesId);
      } else if |property| > 0 {
        var bucket := if property in otherTags then otherTags[property] else [];
        otherTags := otherTags[property := bucket + [""]];
        sink' := TagSlot(property, |bucket|);
      }
    }

    /** The name/content pair of an accepted `<meta>`: the cover id, or one more value in
        the name's bucket. */
    method StoreNameContent(tag: MetaTag)
      modifies this
      ensures Value() == NameContent(old(Value()), tag)
    {
      var name := tag.name;
      var content := tag.content;
      if |content| > 0 && |name| > 0 {
        if name == "cover" {
          coverId := content;
        } else {
          if name !in otherTags {
            otherTags := otherTags[name := []];
          }
          otherTags := otherTags[name := otherTags[name] + [content]];
        }
      }
    }

    /** Stores trimmed, non-blank character data in the slot the sink names. */
    method WriteText(sink: Sink, text: string)
      requires SinkValid(Value(), sink)
      modifies this
      ensures Value() == Write(old(Value()), sink, text)
    {
      match sink {
        case RefineSlot(id) =>
          refinesMap := refinesMap[id := text];
        case TagSlot(key, index) =>
          otherTags := otherTags[key := otherTags[key][index := text]];
        case _ =>
      }
    }
  }

  // ---------------------------------------------------------------------------------------
  // What the scan computes, stated declaratively

  /** A token that ends the scan: the root's end tag, or one that fails it. */
  predicate Stops(t: Token, root: Name) {
    t == EndElement(root)
  }

  predicate Fails(t: Token) {
    t.SyntaxError? || (t.StartElement? && t.name.local == "meta" && ReadMetaTag(t.attrs).Failure?)
  }

  function TokenError(t: Token): Error
    requires Fails(t)
  {
    if t.SyntaxError? then Foreign(t.message) else ReadMetaTag(t.attrs).error
  }

  /** The position of the first token that ends the scan, or |ts| if none does. */
  function FirstHalt(ts: seq<Token>, root: Name): (r: nat)
    ensures r <= |ts|
    ensures forall j | 0 <= j < r :: !Stops(ts[j], root) && !Fails(ts[j])
    ensures r < |ts| ==> Stops(ts[r], root) || Fails(ts[r])
    decreases |ts|
  {
    if ts == [] then 0
    else if Stops(ts[0], root) || Fails(ts[0]) then 0
    else
      var r := FirstHalt(ts[1..], root);
      assert forall j | 1 <= j < 1 + r :: ts[j] == ts[1..][j - 1];
      1 + r
  }

  /** The scan fails exactly when its first halting token is a failing one, and reports
      that token's error; reaching the end of the stream or the root's end tag succeeds. */
  lemma {:induction false} ScanOutcome(info: Info, sink: Sink, ts: seq<Token>, root: Name)
    requires SinkValid(info, sink)
    ensures var k := FirstHalt(ts, root);
      Scan(info, sink, ts, root).Failure? <==> k < |ts| && Fails(ts[k])
    ensures var k := FirstHalt(ts, root);
      Scan(info, sink, ts, root).Failure? ==> Scan(info, sink, ts, root).error == TokenError(ts[k])
    decreases |ts|
  {
    if ts != [] && !Stops(ts[0], root) && !Fails(ts[0]) {
      var st := Step(info, sink, ts[0], root);
      ScanOutcome(st.info, st.sink, ts[1..], root);
    }
  }

  /** A token through which a pending slot stays open: blank text, an end tag other than the
      root's, a comment, or an accepted `<meta>` that opens no slot. */
  predicate Transparent(t: Token, root: Name) {
    match t
    case CharData(text) => TrimSpace(text) == ""
    case EndElement(n) => n != root
    case Other(_) => true
    case StartElement(n, attrs) =>
      n.local == "meta" && ReadMetaTag(attrs).Success? && !InstallsSlot(ReadMetaTag(attrs).value)
    case SyntaxError(_) => false
  }

  /** The text a slot opened just before `ts` receives: the first non-blank character data,
      trimmed, provided no other element, slot-opening `<meta>` or halting token comes first;
      the empty string otherwise. */
  function SlotText(ts: seq<Token>, root: Name): (r: string)
    ensures Trimmed(r)
    decreases |ts|
  {
    if ts == [] then ""
    else if Transparent(ts[0], root) then SlotText(ts[1..], root)
    else if ts[0].CharData? then TrimSpace(ts[0].text)
    else ""
  }

  /** The slot receives the first non-blank text when only transparent tokens precede it. */
  lemma {:induction false} SlotTextIsFirstText(ts: seq<Token>, root: Name, j: nat)
    requires j < |ts| && ts[j].CharData? && TrimSpace(ts[j].text) != ""
    requires forall i | 0 <= i < j :: Transparent(ts[i], root)
    ensures SlotText(ts, root) == TrimSpace(ts[j].text)
    decreases j
  {
    if j == 0 {
      assert !Transparent(ts[0], root);
    } else {
      assert Transparent(ts[0], root);
      assert SlotText(ts, root) == SlotText(ts[1..], root);
      assert ts[1..][j - 1] == ts[j];
      forall i | 0 <= i < j - 1 ensures Transparent(ts[1..][i], root) {
        assert ts[1..][i] == ts[i + 1];
      }
      SlotTextIsFirstText(ts[1..], root, j - 1);
    }
  }

  /** The slot stays empty when another element, a slot-opening `<meta>` or a halting token
      comes before any non-blank text, or when no such text follows at all. */
  lemma {:induction false} SlotTextBlocked(ts: seq<Token>, root: Name, k: nat)
    requires k <= |ts|
    requires forall i | 0 <= i < k :: Transparent(ts[i], root)
    requires k < |ts| ==> !Transparent(ts[k], root) && !ts[k].CharData?
    ensures SlotText(ts, root) == ""
    decreases k
  {
    if k > 0 {
      assert Transparent(ts[0], root);
      forall i | 0 <= i < k - 1 ensures Transparent(ts[1..][i], root) {
        assert ts[1..][i] == ts[i + 1];
      }
      SlotTextBlocked(ts[1..], root, k - 1);
    }
  }

  /** One `<meta>`, its slot (if it opens one) holding `text`. */
  function AddMeta(info: Info, tag: MetaTag, text: string): Info {
    var i1 := NameContent(info, tag);
    if InstallsRefinement(tag) then i1.(refinesMap := i1.refinesMap[RefinedId(tag) := text])
    else if |tag.property| > 0 then i1.(otherTags := Append(i1.otherTags, tag.property, text))
    else i1
  }

  /** The tables as a declaration list: every accepted `<meta>` before the first halting token
      adds its name/content pair and its slot with the text that follows it. */
  function Accumulate(info: Info, ts: seq<Token>, root: Name): Info
    decreases |ts|
  {
    if ts == [] || Stops(ts[0], root) || Fails(ts[0]) then info
    else if ts[0].StartElement? && ts[0].name.local == "meta" then
      Accumulate(AddMeta(info, ReadMetaTag(ts[0].attrs).value, SlotText(ts[1..], root)), ts[1..], root)
    else Accumulate(info, ts[1..], root)
  }

  lemma WritePending(info: Info, sink: Sink)
    requires PendingEmpty(info, sink)
    ensures Write(info, sink, "") == info
  {
    match sink
    case RefineSlot(id) =>
      assert info.refinesMap[id := ""] == info.refinesMap;
    case TagSlot(key, index) =>
      assert info.otherTags[key][index := ""] == info.otherTags[key];
      assert info.otherTags[key := info.otherTags[key]] == info.otherTags;
    case _ =>
  }

  /** Writing into an older slot and recording a name/content pair commute. */
  lemma WriteNameContent(info: Info, sink: Sink, text: string, tag: MetaTag)
    requires SinkValid(info, sink)
    ensures SinkValid(NameContent(info, tag), sink)
    ensures Write(NameContent(info, tag), sink, text) == NameContent(Write(info, sink, text), tag)
  {
    if sink.TagSlot? && |tag.content| > 0 && |tag.name| > 0 && tag.name != "cover" && tag.name == sink.key {
      var b := info.otherTags[sink.key];
      assert (b + [tag.content])[sink.index := text] == b[sink.index := text] + [tag.content];
    }
  }

  /** Filling a freshly opened slot is the same as declaring the `<meta>` with its text. */
  lemma FillOpenedSlot(info: Info, tag: MetaTag, text: string)
    requires InstallsSlot(tag)
    ensures var (i, s) := ApplyMeta(info, NoSink, tag); Write(i, s, text) == AddMeta(info, tag, text)
  {
    if !InstallsRefinement(tag) {
      var i1 := NameContent(info, tag);
      var b := if tag.property in i1.otherTags then i1.otherTags[tag.property] else [];
      assert (b + [""])[|b| := text] == b + [text];
    }
  }

  lemma FillOpenedSlotAny(info: Info, sink: Sink, tag: MetaTag, text: string)
    requires SinkValid(info, sink) && InstallsSlot(tag)
    ensures
      var (i, s) := ApplyMeta(info, sink, tag);
      Write(i, s, text) == AddMeta(info, tag, text)
  {
    FillOpenedSlot(info, tag, text);
  }

  /** The scan computes the declarative tables: starting with a pending, unwritten slot, its
      result is that slot filled with the text that follows, then every declaration after it. */
  lemma {:induction false} ScanMeaning(info: Info, sink: Sink, ts: seq<Token>, root: Name)
    requires PendingEmpty(info, sink)
    requires Scan(info, sink, ts, root).Success?
    ensures Scan(info, sink, ts, root).value == Accumulate(Write(info, sink, SlotText(ts, root)), ts, root)
    decreases |ts|, 1
  {
    if ts == [] {
      WritePending(info, sink);
    } else {
      var t := ts[0];
      var rest := ts[1..];
      var st := Step(info, sink, t, root);
      if st.Continue? {
        assert Scan(info, sink, ts, root) == Scan(st.info, st.sink, rest, root);
      }
      match t
      case EndElement(n) =>
        if n == root {
          WritePending(info, sink);
        } else {
          ScanMeaning(info, sink, rest, root);
        }
      case Other(_) =>
        ScanMeaning(info, sink, rest, root);
      case CharData(text) =>
        var s := TrimSpace(text);
        if |s| == 0 {
          ScanMeaning(info, sink, rest, root);
        } else if sink.NoSink? {
          ScanMeaning(info, NoSink, rest, root);
        } else {
          assert st == Continue(Write(info, sink, s), NoSink);
          ScanMeaning(Write(info, sink, s), NoSink, rest, root);
        }
      case StartElement(n, attrs) =>
        if n.local == "meta" {
          ScanMeaningMeta(info, sink, ts, root);
        } else {
          WritePending(info, sink);
          ScanMeaning(info, Discard, rest, root);
        }
    }
  }

  /** ScanMeaning for a stream that starts with a `<meta>`. */
  lemma {:induction false} ScanMeaningMeta(info: Info, sink: Sink, ts: seq<Token>, root: Name)
    requires PendingEmpty(info, sink)
    requires ts != [] && ts[0].StartElement? && ts[0].name.local == "meta"
    requires Scan(info, sink, ts, root).Success?
    ensures Scan(info, sink, ts, root).value == Accumulate(Write(info, sink, SlotText(ts, root)), ts, root)
    decreases |ts|, 0
  {
    var rest := ts[1..];
    var tag := ReadMetaTag(ts[0].attrs).value;
    var (i, s) := ApplyMeta(info, sink, tag);
    ScanMeaning(i, s, rest, root);
    if InstallsSlot(tag) {
      WritePending(info, sink);
      FillOpenedSlotAny(info, sink, tag, SlotText(rest, root));
    } else {
      WriteNameContent(info, sink, SlotText(rest, root), tag);
    }
  }

  /** The scan from fresh tables is the declarative reading of the block. */
  lemma ScanFromFresh(cover: string, ts: seq<Token>, root: Name)
    requires Scan(Info(map[], cover, map[]), NoSink, ts, root).Success?
    ensures Scan(Info(map[], cover, map[]), NoSink, ts, root).value == Accumulate(Info(map[], cover, map[]), ts, root)
  {
    ScanMeaning(Info(map[], cover, map[]), NoSink, ts, root);
  }

  // ---------------------------------------------------------------------------------------
  // Properties of the declarative tables

  /** The cover id a token declares: a `<meta name="cover">` with non-empty `content`. */
  function CoverOf(t: Token): Option<string> {
    if t.StartElement? && t.name.local == "meta" && ReadMetaTag(t.attrs).Success? then
      var tag := ReadMetaTag(t.attrs).value;
      if |tag.content| > 0 && tag.name == "cover" then Some(tag.content) else None
    else None
  }

  /** The id a token's `file-as` refinement is keyed under, if it is one. */
  function RefinementOf(t: Token): Option<string> {
    if t.StartElement? && t.name.local == "meta" && ReadMetaTag(t.attrs).Success? then
      var tag := ReadMetaTag(t.attrs).value;
      if InstallsRefinement(tag) then Some(RefinedId(tag)) else None
    else None
  }

  lemma AddMetaEffect(info: Info, tag: MetaTag, text: string)
    ensures AddMeta(info, tag, text).refinesMap ==
      if InstallsRefinement(tag) then info.refinesMap[RefinedId(tag) := text] else info.refinesMap
    ensures AddMeta(info, tag, text).coverId ==
      if |tag.content| > 0 && tag.name == "cover" then tag.content else info.coverId
    ensures Extends(info.otherTags, AddMeta(info, tag, text).otherTags)
    ensures BucketsNonEmpty(info.otherTags) ==> BucketsNonEmpty(AddMeta(info, tag, text).otherTags)
  {
  }

  lemma ExtendsTransitive(a: map<string, seq<string>>, b: map<string, seq<string>>, c: map<string, seq<string>>)
    requires Extends(a, b) && Extends(b, c)
    ensures Extends(a, c)
  {
    forall k | k in a ensures k in c && a[k] <= c[k] {
      assert a[k] == b[k][..|a[k]|];
      assert b[k] == c[k][..|b[k]|];
    }
  }

  lemma AccumulateStep(info: Info, ts: seq<Token>, root: Name)
    requires 0 < FirstHalt(ts, root)
    ensures ts != [] && !Stops(ts[0], root) && !Fails(ts[0])
    ensures FirstHalt(ts, root) == 1 + FirstHalt(ts[1..], root)
    ensures Accumulate(info, ts, root) ==
      if ts[0].StartElement? && ts[0].name.local == "meta" then
        Accumulate(AddMeta(info, ReadMetaTag(ts[0].attrs).value, SlotText(ts[1..], root)), ts[1..], root)
      else Accumulate(info, ts[1..], root)
  {
  }

  /** Without a cover declaration before the scan halts, the cover id is the one it started with. */
  lemma {:induction false} AccumulateKeepsCover(info: Info, ts: seq<Token>, root: Name)
    requires forall j | 0 <= j < FirstHalt(ts, root) :: CoverOf(ts[j]).None?
    ensures Accumulate(info, ts, root).coverId == info.coverId
    decreases |ts|
  {
    if 0 < FirstHalt(ts, root) {
      AccumulateStep(info, ts, root);
      assert CoverOf(ts[0]).None?;
      forall j | 0 <= j < FirstHalt(ts[1..], root) ensures CoverOf(ts[1..][j]).None? {
        assert ts[1..][j] == ts[j + 1];
      }
      if ts[0].StartElement? && ts[0].name.local == "meta" {
        AccumulateKeepsCover(AddMeta(info, ReadMetaTag(ts[0].attrs).value, SlotText(ts[1..], root)), ts[1..], root);
      } else {
        AccumulateKeepsCover(info, ts[1..], root);
      }
    }
  }

  /** The last cover declaration before the scan halts decides the cover id. */
  lemma {:induction false} CoverLastWins(info: Info, ts: seq<Token>, root: Name, k: nat)
    requires k < FirstHalt(ts, root) && CoverOf(ts[k]).Some?
    requires forall j | k < j < FirstHalt(ts, root) :: CoverOf(ts[j]).None?
    ensures Accumulate(info, ts, root).coverId == CoverOf(ts[k]).value
    decreases k
  {
    AccumulateStep(info, ts, root);
    var rest := ts[1..];
    if k == 0 {
      var info' := AddMeta(info, ReadMetaTag(ts[0].attrs).value, SlotText(rest, root));
      forall j | 0 <= j < FirstHalt(rest, root) ensures CoverOf(rest[j]).None? {
        assert rest[j] == ts[j + 1];
      }
      AccumulateKeepsCover(info', rest, root);
    } else {
      assert rest[k - 1] == ts[k];
      forall j | k - 1 < j < FirstHalt(rest, root) ensures CoverOf(rest[j]).None? {
        assert rest[j] == ts[j + 1];
      }
      if ts[0].StartElement? && ts[0].name.local == "meta" {
        CoverLastWins(AddMeta(info, ReadMetaTag(ts[0].attrs).value, SlotText(rest, root)), rest, root, k - 1);
      } else {
        CoverLastWins(info, rest, root, k - 1);
      }
    }
  }

  /** Without a refinement of `id` before the scan halts, its entry is what it was. */
  lemma {:induction false} AccumulateKeepsRefinement(info: Info, ts: seq<Token>, root: Name, id: string)
    requires forall j | 0 <= j < FirstHalt(ts, root) :: RefinementOf(ts[j]) != Some(id)
    ensures (id in Accumulate(info, ts, root).refinesMap) == (id in info.refinesMap)
    ensures id in info.refinesMap ==> Accumulate(info, ts, root).refinesMap[id] == info.refinesMap[id]
    decreases |ts|
  {
    if 0 < FirstHalt(ts, root) {
      AccumulateStep(info, ts, root);
      assert RefinementOf(ts[0]) != Some(id);
      forall j | 0 <= j < FirstHalt(ts[1..], root) ensures RefinementOf(ts[1..][j]) != Some(id) {
        assert ts[1..][j] == ts[j + 1];
      }
      if ts[0].StartElement? && ts[0].name.local == "meta" {
        AddMetaEffect(info, ReadMetaTag(ts[0].attrs).value, SlotText(ts[1..], root));
        AccumulateKeepsRefinement(AddMeta(info, ReadMetaTag(ts[0].attrs).value, SlotText(ts[1..], root)), ts[1..], root, id);
      } else {
        AccumulateKeepsRefinement(info, ts[1..], root, id);
      }
    }
  }

  /** A later `file-as` refinement of the same id replaces an earlier one: the entry holds the
      text that follows the last one. */
  lemma {:induction false} RefinementLastWins(info: Info, ts: seq<Token>, root: Name, k: nat)
    requires k < FirstHalt(ts, root) && RefinementOf(ts[k]).Some?
    requires forall j | k < j < FirstHalt(ts, root) :: RefinementOf(ts[j]) != RefinementOf(ts[k])
    ensures var id := RefinementOf(ts[k]).value; var r := Accumulate(info, ts, root);
      id in r.refinesMap && r.refinesMap[id] == SlotText(ts[k + 1..], root)
    decreases k
  {
    AccumulateStep(info, ts, root);
    var rest := ts[1..];
    if k == 0 {
      var info' := AddMeta(info, ReadMetaTag(ts[0].attrs).value, SlotText(rest, root));
      forall j | 0 <= j < FirstHalt(rest, root) ensures RefinementOf(rest[j]) != RefinementOf(ts[0]) {
        assert rest[j] == ts[j + 1];
      }
      AccumulateKeepsRefinement(info', rest, root, RefinementOf(ts[0]).value);
    } else {
      assert rest[k - 1] == ts[k];
      assert rest[k..] == ts[k + 1..];
      forall j | k - 1 < j < FirstHalt(rest, root) ensures RefinementOf(rest[j]) != RefinementOf(rest[k - 1]) {
        assert rest[j] == ts[j + 1];
      }
      if ts[0].StartElement? && ts[0].name.local == "meta" {
        RefinementLastWins(AddMeta(info, ReadMetaTag(ts[0].attrs).value, SlotText(rest, root)), rest, root, k - 1);
      } else {
        RefinementLastWins(info, rest, root, k - 1);
      }
    }
  }

  predicate BucketsNonEmpty(tags: map<string, seq<string>>) {
    forall k | k in tags :: |tags[k]| > 0
  }

  /** `a` is `b` with perhaps more values appended to some buckets and new buckets added. */
  predicate Extends(b: map<string, seq<string>>, a: map<string, seq<string>>) {
    forall k | k in b :: k in a && b[k] <= a[k]
  }

  /** The declarations only ever append: every bucket keeps its values in place and in order,
      and no bucket is ever empty. */
  lemma {:induction false} AccumulateAppends(info: Info, ts: seq<Token>, root: Name)
    ensures Extends(info.otherTags, Accumulate(info, ts, root).otherTags)
    ensures BucketsNonEmpty(info.otherTags) ==> BucketsNonEmpty(Accumulate(info, ts, root).otherTags)
    decreases |ts|
  {
    if 0 < FirstHalt(ts, root) {
      AccumulateStep(info, ts, root);
      if ts[0].StartElement? && ts[0].name.local == "meta" {
        var info' := AddMeta(info, ReadMetaTag(ts[0].attrs).value, SlotText(ts[1..], root));
        AccumulateAppends(info', ts[1..], root);
        AddMetaEffect(info, ReadMetaTag(ts[0].attrs).value, SlotText(ts[1..], root));
        ExtendsTransitive(info.otherTags, info'.otherTags, Accumulate(info', ts[1..], root).otherTags);
      } else {
        AccumulateAppends(info, ts[1..], root);
      }
    } else {
      assert Accumulate(info, ts, root) == info;
    }
  }

  lemma ExampleFileAsTag()
    ensures ReadMetaTag([Attr(Name("", "refines"), "#t1"), Attr(Name("", "property"), "file-as")])
      == Success(MetaTag("", "", "#t1", "file-as"))
  {
    var attrs := [Attr(Name("", "refines"), "#t1"), Attr(Name("", "property"), "file-as")];
    var f1 := NoMetaAttributes["refines" := "#t1"];
    var f2 := f1["property" := "file-as"];
    assert attrs[1..] == [attrs[1]] && attrs[1..][1..] == [];
    assert CollectMetaAttributes(f2, []) == Success(f2);
    assert CollectMetaAttributes(f1, attrs[1..]) == Success(f2);
    assert CollectMetaAttributes(NoMetaAttributes, attrs) == Success(f2);
  }

  lemma ExampleTrim()
    ensures TrimSpace("Doe, Jane") == "Doe, Jane"
  {
    assert !IsSpace('D') && !IsSpace('e');
    TrimSpaceOfTrimmed("Doe, Jane");
  }

  lemma ExampleOpensSlot()
    ensures Step(Info(map[], "", map[]), NoSink,
      StartElement(Name("", "meta"), [Attr(Name("", "refines"), "#t1"), Attr(Name("", "property"), "file-as")]),
      RootName) == Continue(Info(map[], "", map["t1" := ""]), RefineSlot("t1"))
  {
    ExampleFileAsTag();
    assert "#t1"[1..] == "t1";
  }

  lemma ExampleFillsSlot()
    ensures Step(Info(map[], "", map["t1" := ""]), RefineSlot("t1"), CharData("Doe, Jane"), RootName)
      == Continue(Info(map[], "", map["t1" := "Doe, Jane"]), NoSink)
  {
    var before := Info(map[], "", map["t1" := ""]);
    ExampleTrim();
    assert |TrimSpace("Doe, Jane")| == 9;
    assert Write(before, RefineSlot("t1"), "Doe, Jane") == Info(map[], "", map["t1" := "Doe, Jane"]);
  }

  /** A `file-as` refinement followed by its text: the id without its `#` maps to the text. */
  lemma FileAsExample()
    ensures Scan(Info(map[], "", map[]), NoSink, [
      StartElement(Name("", "meta"), [Attr(Name("", "refines"), "#t1"), Attr(Name("", "property"), "file-as")]),
      CharData("Doe, Jane"),
      EndElement(Name("", "meta")),
      EndElement(RootName)], RootName) == Success(Info(map[], "", map["t1" := "Doe, Jane"]))
  {
    var t0 := StartElement(Name("", "meta"), [Attr(Name("", "refines"), "#t1"), Attr(Name("", "property"), "file-as")]);
    var t1 := CharData("Doe, Jane");
    var t2 := EndElement(Name("", "meta"));
    var t3 := EndElement(RootName);
    var i1 := Info(map[], "", map["t1" := ""]);
    var i2 := Info(map[], "", map["t1" := "Doe, Jane"]);
    ExampleOpensSlot();
    ExampleFillsSlot();
    assert Scan(i2, NoSink, [t3], RootName) == Success(i2);
    assert [t2, t3][1..] == [t3];
    assert Scan(i2, NoSink, [t2, t3], RootName) == Success(i2);
    assert [t1, t2, t3][1..] == [t2, t3];
    assert Scan(i1, RefineSlot("t1"), [t1, t2, t3], RootName) == Success(i2);
    assert [t0, t1, t2, t3][1..] == [t1, t2, t3];
  }

  // ---------------------------------------------------------------------------------------
  // Isolating the block

  const MetadataOpen: seq<byte> := Ascii("<metadata")
  const TagClose: seq<byte> := Ascii(">")
  const MetadataClose: seq<byte> := Ascii("</metadata>")
  const MetadataStart: seq<byte> := Ascii("<metadata>")

  /** The three literal searches of unmarshallCustomMetadata: the text after the first `>`
      that follows the first `<metadata`, up to the next `</metadata>`, re-wrapped in a bare
      `<metadata>` element. Each missing marker has its own error. */
  function IsolateMetadata(data: seq<byte>): (r: Result<seq<byte>, Error>)
    ensures r == Failure(MetadataStartNotFound) <==> !Cut(data, MetadataOpen).found
    ensures r == Failure(MetadataStartEndNotFound)
      <==> Cut(data, MetadataOpen).found && !Cut(Cut(data, MetadataOpen).after, TagClose).found
    ensures r == Failure(MetadataEndNotFound)
      <==> && Cut(data, MetadataOpen).found
           && Cut(Cut(data, MetadataOpen).after, TagClose).found
           && !Cut(Cut(Cut(data, MetadataOpen).after, TagClose).after, MetadataClose).found
    ensures r.Failure? ==> r.error in {MetadataStartNotFound, MetadataStartEndNotFound, MetadataEndNotFound}
  {
    var c1 := Cut(data, MetadataOpen);
    if !c1.found then Failure(MetadataStartNotFound)
    else
      var c2 := Cut(c1.after, TagClose);
      if !c2.found then Failure(MetadataStartEndNotFound)
      else
        var c3 := Cut(c2.after, MetadataClose);
        if !c3.found then Failure(MetadataEndNotFound)
        else Success(MetadataStart + c3.before + MetadataClose)
  }

  /** The block a document yields: in `pre <metadata attrs> inner </metadata> post`, with the
      three markers at their first occurrences, the result is `<metadata>inner</metadata>`. */
  lemma IsolateMetadataOf(pre: seq<byte>, attrs: seq<byte>, inner: seq<byte>, post: seq<byte>)
    requires NoneBefore(pre + MetadataOpen + (attrs + TagClose + (inner + MetadataClose + post)), MetadataOpen, |pre|)
    requires NoneBefore(attrs + TagClose + (inner + MetadataClose + post), TagClose, |attrs|)
    requires NoneBefore(inner + MetadataClose + post, MetadataClose, |inner|)
    ensures IsolateMetadata(pre + MetadataOpen + (attrs + TagClose + (inner + MetadataClose + post)))
      == Success(MetadataStart + inner + MetadataClose)
  {
    CutAt(inner, MetadataClose, post);
    CutAt(attrs, TagClose, inner + MetadataClose + post);
    CutAt(pre, MetadataOpen, attrs + TagClose + (inner + MetadataClose + post));
  }

  /** Conversely, an isolated block always comes from such a decomposition of the document. */
  lemma IsolateMetadataShape(data: seq<byte>)
    requires IsolateMetadata(data).Success?
    ensures var c1 := Cut(data, MetadataOpen);
      var c2 := Cut(c1.after, TagClose);
      var c3 := Cut(c2.after, MetadataClose);
      && data == c1.before + MetadataOpen + (c2.before + TagClose + (c3.before + MetadataClose + c3.after))
      && NoneBefore(data, MetadataOpen, |c1.before|)
      && NoneBefore(c1.after, TagClose, |c2.before|)
      && NoneBefore(c2.after, MetadataClose, |c3.before|)
      && IsolateMetadata(data) == Success(MetadataStart + c3.before + MetadataClose)
  {
  }

  // ---------------------------------------------------------------------------------------
  // Applying the tables to the package metadata

  /** A bucket without its empty values, in order. */
  function NonEmptyValues(vs: seq<string>): (r: seq<string>)
    ensures |r| <= |vs|
    ensures forall i | 0 <= i < |r| :: r[i] != "" && r[i] in vs
    ensures forall i | 0 <= i < |vs| && vs[i] != "" :: vs[i] in r
  {
    if vs == [] then []
    else if vs[0] == "" then NonEmptyValues(vs[1..])
    else [vs[0]] + NonEmptyValues(vs[1..])
  }

  /** Dropping empty values commutes with concatenation, so the order of the rest is kept. */
  lemma {:induction false} NonEmptyValuesConcat(a: seq<string>, b: seq<string>)
    ensures NonEmptyValues(a + b) == NonEmptyValues(a) + NonEmptyValues(b)
  {
    if a != [] {
      assert (a + b)[0] == a[0] && (a + b)[1..] == a[1..] + b;
      NonEmptyValuesConcat(a[1..], b);
    } else {
      assert a + b == b;
    }
  }

  lemma {:induction false} NonEmptyValuesKeeps(vs: seq<string>)
    requires forall i | 0 <= i < |vs| :: vs[i] != ""
    ensures NonEmptyValues(vs) == vs
  {
    if vs != [] {
      NonEmptyValuesKeeps(vs[1..]);
      assert [vs[0]] + vs[1..] == vs;
    }
  }

  /** The published tag table: a key for every non-empty bucket, holding its non-empty values. */
  function CleanTags(raw: map<string, seq<string>>): (r: map<string, seq<string>>)
    ensures r.Keys == set k | k in raw && |raw[k]| > 0
  {
    map k | k in raw && |raw[k]| > 0 :: NonEmptyValues(raw[k])
  }

  function RefineCreator(c: Creator, table: map<string, string>): Creator {
    if c.id in table then c.(fileAs := table[c.id]) else c
  }

  /** Each creator takes the refinement keyed by its own id, if there is one. */
  function RefineCreators(cs: seq<Creator>, table: map<string, string>): (r: seq<Creator>)
    ensures |r| == |cs|
    ensures forall i | 0 <= i < |cs| :: r[i].name == cs[i].name && r[i].id == cs[i].id
    ensures forall i | 0 <= i < |cs| :: r[i].fileAs == if cs[i].id in table then table[cs[i].id] else cs[i].fileAs
  {
    seq(|cs|, i requires 0 <= i < |cs| => RefineCreator(cs[i], table))
  }

  /** The apply pass: the cleaned tag table replaces the metadata's; the scanned cover id is
      used only if the package has none; entries keyed by the literal words "title" and
      "publisher" become those fields' sort names; creators are matched by id. */
  function Refine(md: Metadata, info: Info): Metadata {
    md.(otherTags := CleanTags(info.otherTags),
        coverManifestId := if |md.coverManifestId| == 0 then info.coverId else md.coverManifestId,
        title := if "title" in info.refinesMap then md.title.(fileAs := info.refinesMap["title"]) else md.title,
        publisher := if "publisher" in info.refinesMap then md.publisher.(fileAs := info.refinesMap["publisher"]) else md.publisher,
        creators := RefineCreators(md.creators, info.refinesMap))
  }

  /** Applying the same tables twice changes nothing more. */
  lemma RefineIdempotent(md: Metadata, info: Info)
    ensures Refine(Refine(md, info), info) == Refine(md, info)
  {
    var r := Refine(md, info);
    var cs := RefineCreators(r.creators, info.refinesMap);
    assert cs == r.creators;
  }

  /** Only the five derived fields change; the structurally decoded ones are kept. */
  lemma RefineKeepsDecodedFields(md: Metadata, info: Info)
    ensures var r := Refine(md, info);
      r.(otherTags := md.otherTags, coverManifestId := md.coverManifestId, title := md.title,
         publisher := md.publisher, creators := md.creators) == md
    ensures Refine(md, info).title.name == md.title.name
    ensures Refine(md, info).publisher.name == md.publisher.name
  {
  }

  /** A cover id the package already has wins over a `name="cover"` declaration. */
  lemma CoverPrecedence(md: Metadata, info: Info)
    ensures |md.coverManifestId| > 0 ==> Refine(md, info).coverManifestId == md.coverManifestId
    ensures |md.coverManifestId| == 0 ==> Refine(md, info).coverManifestId == info.coverId
  {
  }

  /** The whole custom-metadata pass on the package document `data`: isolate the block, scan
      the tokens `tokenize` gives for what follows its start tag, apply the tables. */
  function CustomMetadata(md: Metadata, data: seq<byte>, tokenize: seq<byte> -> seq<Token>): Result<Metadata, Error> {
    var doc :- IsolateMetadata(data);
    var info :- Scan(Info(map[], "", map[]), NoSink, tokenize(doc), RootName);
    Success(Refine(md, info))
  }

  /** The published metadata is the apply pass over the declarative tables of the block, and
      every tag the block declares has a key in the published table. */
  lemma CustomMetadataTags(md: Metadata, data: seq<byte>, tokenize: seq<byte> -> seq<Token>)
    requires CustomMetadata(md, data, tokenize).Success?
    ensures var doc := IsolateMetadata(data).value;
      var info := Accumulate(Info(map[], "", map[]), tokenize(doc), RootName);
      && CustomMetadata(md, data, tokenize).value == Refine(md, info)
      && CustomMetadata(md, data, tokenize).value.otherTags.Keys == info.otherTags.Keys
  {
    var doc := IsolateMetadata(data).value;
    var empty := Info(map[], "", map[]);
    ScanFromFresh("", tokenize(doc), RootName);
    AccumulateAppends(empty, tokenize(doc), RootName);
  }

  /** A refinement of `#t1` reaches no field of the title: only the literal key "title" does. */
  lemma TitleRefinementNeedsLiteralKey(md: Metadata)
    requires md.title.fileAs == ""
    ensures Refine(md, Info(map[], "", map["t1" := "Doe, Jane"])).title.fileAs == ""
    ensures Refine(md, Info(map[], "", map["title" := "Doe, Jane"])).title.fileAs == "Doe, Jane"
  {
  }
}
