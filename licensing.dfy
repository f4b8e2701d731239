/** The license-info record of src/licensingInfo.py: six fields, loading
    them from a query row, and the two serialisers (SPDX tag-value text and
    an RDF/XML fragment) that describe "Other Licensing Information
    Detected", section 6 of SPDX 2.1. The fields are Python values that may
    be `None`; `str(None)` is the text "None". */
module Licensing {
  import opened Wrappers

  /** Python `str(x)` of a text field that may be `None`. */
  function Str(o: Option<string>): string
  {
    match o
    case None => "None"
    case Some(s) => s
  }

  /** The cross-references the loops of both serialisers visit: none when
      the field is `None`. */
  function References(refs: Option<seq<string>>): seq<string>
  {
    match refs
    case None => []
    case Some(rs) => rs
  }

  /** The six fields of a license record, as a value. */
  datatype Record = Record(
    licenseId: Option<string>,
    extractedText: Option<string>,
    licenseName: Option<string>,
    licenseCrossReference: Option<seq<string>>,
    licenseComment: Option<string>,
    fileChecksum: Option<string>)

  /** A result row of the lookup query: license identifier, license name,
      comment, extracted text and cross-references, in that order. */
  type Row = (Option<string>, Option<string>, Option<string>, Option<string>, Option<seq<string>>)

  /** The record after the lookup: a missing row changes nothing; a row
      overwrites five fields and leaves the file checksum alone. */
  function Loaded(r: Record, queryReturn: Option<Row>): Record
  {
    match queryReturn
    case None => r
    case Some(row) =>
      r.(licenseId := row.0, licenseName := row.1, licenseComment := row.2,
         extractedText := row.3, licenseCrossReference := row.4)
  }

  // ---------------------------------------------------------------------
  // Tag-value form

  /** One item of the tag-value output: a `Tag: value` line or a tag whose
      value is wrapped in `<text>...</text>`. */
  datatype TagEntry = Line(key: string, value: string) | Block(key: string, text: string)

  function RenderTagEntry(e: TagEntry): string
  {
    match e
    case Line(k, v) => k + ": " + v + "\n"
    case Block(k, t) => k + ": <text>" + t + "</text>\n"
  }

  function RenderTag(es: seq<TagEntry>): string
  {
    if es == [] then "" else RenderTagEntry(es[0]) + RenderTag(es[1..])
  }

  /** One `LicenseCrossReference` line per reference, in order. */
  function CrossReferenceLines(refs: seq<string>): seq<TagEntry>
  {
    seq(|refs|, i requires 0 <= i < |refs| => Line("LicenseCrossReference", refs[i]))
  }

  /** The two lines that open the tag-value text. */
  function TagHead(r: Record): seq<TagEntry>
  {
    [Line("LicenseID", Str(r.licenseId)), Line("LicenseName", Str(r.licenseName))]
  }

  /** The blocks that close it. The comment block is left out only for an
      empty comment, so a `None` comment gives a block holding "None". */
  function TagTail(r: Record): seq<TagEntry>
  {
    [Block("ExtractedText", Str(r.extractedText))]
    + (if r.licenseComment != Some("") then [Block("LicenseComment", Str(r.licenseComment))] else [])
  }

  /** The items `outputLicensingInfo_TAG` writes, in order. */
  function TagEntries(r: Record): seq<TagEntry>
  {
    TagHead(r) + CrossReferenceLines(References(r.licenseCrossReference)) + TagTail(r)
  }

  /** The text `outputLicensingInfo_TAG` returns. */
  function TagText(r: Record): string
  {
    RenderTag(TagEntries(r))
  }

  /** The number of items with tag `key`. */
  function CountKey(es: seq<TagEntry>, key: string): nat
  {
    if es == [] then 0 else (if es[0].key == key then 1 else 0) + CountKey(es[1..], key)
  }

  lemma {:induction false} RenderTagAppend(a: seq<TagEntry>, b: seq<TagEntry>)
    ensures RenderTag(a + b) == RenderTag(a) + RenderTag(b)
  {
    if a == [] {
      assert a + b == b;
    } else {
      assert (a + b)[0] == a[0] && (a + b)[1..] == a[1..] + b;
      RenderTagAppend(a[1..], b);
    }
  }

  lemma {:induction false} CountKeyAppend(a: seq<TagEntry>, b: seq<TagEntry>, key: string)
    ensures CountKey(a + b, key) == CountKey(a, key) + CountKey(b, key)
  {
    if a == [] {
      assert a + b == b;
    } else {
      assert (a + b)[0] == a[0] && (a + b)[1..] == a[1..] + b;
      CountKeyAppend(a[1..], b, key);
    }
  }

  // The serialisers write each tag as one string literal, while the
  // rendering functions build it from the tag's name. Proving the two equal
  // character by character inside a method is costly for the verifier, so
  // the equalities are proved once, each in a lemma of its own, and the step
  // lemmas take the literal as a parameter tied to the name by a `requires`.

  /** Writing a `Tag: value` line extends the text by that item; `prefix`
      is the literal `Tag: ` the source writes. */
  lemma TagLineStep(output: string, es: seq<TagEntry>, key: string, value: string, prefix: string)
    requires output == RenderTag(es)
    requires prefix == key + ": "
    ensures output + prefix + value + "\n" == RenderTag(es + [Line(key, value)])
  {
    RenderTagAppend(es, [Line(key, value)]);
    assert [Line(key, value)][1..] == [];
  }

  /** Writing a tag with its `<text>` block extends the text by that item;
      `prefix` is the literal `Tag: <text>` the source writes. */
  lemma TagBlockStep(output: string, es: seq<TagEntry>, key: string, text: string, prefix: string)
    requires output == RenderTag(es)
    requires prefix == key + ": <text>"
    ensures output + prefix + text + "</text>\n" == RenderTag(es + [Block(key, text)])
  {
    RenderTagAppend(es, [Block(key, text)]);
    assert [Block(key, text)][1..] == [];
  }

  /** The literal prefixes of the two header lines. */
  lemma HeadPrefixes()
    ensures "LicenseID" + ": " == "LicenseID: " && "LicenseName" + ": " == "LicenseName: "
  {
  }

  /** Writing one cross-reference line. */
  lemma CrossReferenceStep(output: string, es: seq<TagEntry>, refs: seq<string>, i: nat)
    requires output == RenderTag(es) && i < |refs|
    ensures output + "LicenseCrossReference: " + refs[i] + "\n" == RenderTag(es + [Line("LicenseCrossReference", refs[i])])
    ensures CrossReferenceLines(refs[..i + 1]) == CrossReferenceLines(refs[..i]) + [Line("LicenseCrossReference", refs[i])]
  {
    CrossReferencePrefix();
    TagLineStep(output, es, "LicenseCrossReference", refs[i], "LicenseCrossReference: ");
    CrossReferenceLinesSnoc(refs, i);
  }

  /** The literal prefix of a cross-reference line. */
  lemma CrossReferencePrefix()
    ensures "LicenseCrossReference" + ": " == "LicenseCrossReference: "
  {
  }

  lemma CrossReferenceLinesSnoc(refs: seq<string>, i: nat)
    requires i < |refs|
    ensures CrossReferenceLines(refs[..i + 1]) == CrossReferenceLines(refs[..i]) + [Line("LicenseCrossReference", refs[i])]
  {
  }

  /** The literal prefixes of the two blocks. */
  lemma TailPrefixes()
    ensures "ExtractedText" + ": <text>" == "ExtractedText: <text>"
    ensures "LicenseComment" + ": <text>" == "LicenseComment: <text>"
  {
  }

  lemma {:induction false} CountCrossReferenceLines(refs: seq<string>, key: string)
    ensures CountKey(CrossReferenceLines(refs), key) == if key == "LicenseCrossReference" then |refs| else 0
  {
    if refs != [] {
      assert CrossReferenceLines(refs)[1..] == CrossReferenceLines(refs[1..]);
      CountCrossReferenceLines(refs[1..], key);
    }
  }

  lemma CountTagHead(r: Record, key: string)
    ensures CountKey(TagHead(r), key) == (if key == "LicenseID" then 1 else 0) + (if key == "LicenseName" then 1 else 0)
  {
    assert TagHead(r)[1..][1..] == [];
    assert CountKey(TagHead(r)[1..], key) == if key == "LicenseName" then 1 else 0;
  }

  lemma CountTagTail(r: Record, key: string)
    ensures CountKey(TagTail(r), key) ==
      (if key == "ExtractedText" then 1 else 0) +
      (if key == "LicenseComment" && r.licenseComment != Some("") then 1 else 0)
  {
    var text := [Block("ExtractedText", Str(r.extractedText))];
    var comment := if r.licenseComment != Some("") then [Block("LicenseComment", Str(r.licenseComment))] else [];
    CountKeyAppend(text, comment, key);
    assert text[1..] == [];
    assert comment != [] ==> comment[1..] == [];
  }

  /** Counting the items of `TagEntries` tag by tag. */
  lemma CountTagEntries(r: Record, key: string)
    ensures CountKey(TagEntries(r), key) ==
      (if key == "LicenseID" then 1 else 0) +
      (if key == "LicenseName" then 1 else 0) +
      (if key == "LicenseCrossReference" then |References(r.licenseCrossReference)| else 0) +
      (if key == "ExtractedText" then 1 else 0) +
      (if key == "LicenseComment" && r.licenseComment != Some("") then 1 else 0)
  {
    var refs := CrossReferenceLines(References(r.licenseCrossReference));
    CountKeyAppend(TagHead(r) + refs, TagTail(r), key);
    CountKeyAppend(TagHead(r), refs, key);
    CountCrossReferenceLines(References(r.licenseCrossReference), key);
    CountTagHead(r, key);
    CountTagTail(r, key);
  }

  /** The two header lines, as text. */
  lemma TagHeadText(r: Record)
    ensures RenderTag(TagHead(r)) == "LicenseID: " + Str(r.licenseId) + "\n" + "LicenseName: " + Str(r.licenseName) + "\n"
  {
    var line1, line2 := Line("LicenseID", Str(r.licenseId)), Line("LicenseName", Str(r.licenseName));
    TagLineStep("", [], "LicenseID", Str(r.licenseId), "LicenseID: ");
    assert [] + [line1] == [line1];
    TagLineStep(RenderTag([line1]), [line1], "LicenseName", Str(r.licenseName), "LicenseName: ");
    assert [line1] + [line2] == TagHead(r);
  }

  /** The tag-value text starts with the license identifier line and the
      license name line. */
  lemma TagTextHeader(r: Record)
    ensures ("LicenseID: " + Str(r.licenseId) + "\n" + "LicenseName: " + Str(r.licenseName) + "\n") <= TagText(r)
  {
    var rest := CrossReferenceLines(References(r.licenseCrossReference)) + TagTail(r);
    assert TagEntries(r) == TagHead(r) + rest;
    RenderTagAppend(TagHead(r), rest);
    TagHeadText(r);
  }

  /** One `LicenseCrossReference` line per cross-reference, in the order of
      the sequence, right after the header; none when it is `None`. */
  lemma TagCrossReferences(r: Record)
    ensures CountKey(TagEntries(r), "LicenseCrossReference") == |References(r.licenseCrossReference)|
    ensures r.licenseCrossReference == None ==> CountKey(TagEntries(r), "LicenseCrossReference") == 0
    ensures forall i | 0 <= i < |References(r.licenseCrossReference)| ::
      TagEntries(r)[2 + i] == Line("LicenseCrossReference", References(r.licenseCrossReference)[i])
  {
    CountTagEntries(r, "LicenseCrossReference");
  }

  /** Exactly one extracted-text block, right after the cross-references. */
  lemma TagExtractedText(r: Record)
    ensures CountKey(TagEntries(r), "ExtractedText") == 1
    ensures TagEntries(r)[2 + |References(r.licenseCrossReference)|] == Block("ExtractedText", Str(r.extractedText))
  {
    CountTagEntries(r, "ExtractedText");
  }

  /** A comment block, always last, exactly when the comment is not the
      empty string; for a `None` comment it holds the text "None". */
  lemma TagComment(r: Record)
    ensures CountKey(TagEntries(r), "LicenseComment") == if r.licenseComment != Some("") then 1 else 0
    ensures r.licenseComment != Some("") ==>
      TagEntries(r)[|TagEntries(r)| - 1] == Block("LicenseComment", Str(r.licenseComment))
    ensures r.licenseComment == None ==> Block("LicenseComment", "None") in TagEntries(r)
  {
    CountTagEntries(r, "LicenseComment");
  }

  // ---------------------------------------------------------------------
  // RDF form

  /** One element `<name>text</name>` of the RDF fragment. */
  datatype Element = Element(name: string, text: string)

  function RenderElement(e: Element): string
  {
    "\t\t<" + e.name + ">" + e.text + "</" + e.name + ">\n"
  }

  function RenderRdf(es: seq<Element>): string
  {
    if es == [] then "" else RenderElement(es[0]) + RenderRdf(es[1..])
  }

  function SeeAlsoElements(refs: seq<string>): seq<Element>
  {
    seq(|refs|, i requires 0 <= i < |refs| => Element("rdfs:seeAlso", refs[i]))
  }

  /** The three elements that open the RDF fragment. */
  function RdfHead(r: Record): seq<Element>
  {
    [Element("licenseId", Str(r.licenseId)), Element("licenseName", Str(r.licenseName)),
     Element("extractedText", Str(r.extractedText))]
  }

  /** The comment element, present whenever the comment is not `None`, even
      when it is empty. */
  function RdfTail(r: Record): seq<Element>
  {
    if r.licenseComment.Some? then [Element("rdfs:comment", r.licenseComment.value)] else []
  }

  /** The elements `outputLicensingInfo_RDF` is meant to write, in order: one
      `rdfs:seeAlso` per cross-reference between the head and the comment. */
  function RdfElements(r: Record): seq<Element>
  {
    RdfHead(r) + SeeAlsoElements(References(r.licenseCrossReference)) + RdfTail(r)
  }

  /** The RDF fragment with each `rdfs:seeAlso` holding its reference. */
  function RdfText(r: Record): string
  {
    RenderRdf(RdfElements(r))
  }

  /** The failure of the source's RDF serialiser: its loop reads an
      attribute the record does not have. */
  datatype Error = AttributeError(attribute: string)

  /** What `outputLicensingInfo_RDF` does as written: the first pass of its
      loop reads `self.reference`, which no code defines, so it raises for
      any non-empty cross-reference list. */
  function RdfTextAsWritten(r: Record): Result<string, Error>
  {
    if |References(r.licenseCrossReference)| > 0 then Failure(AttributeError("reference"))
    else Success(RenderRdf(RdfElements(r)))
  }

  function CountName(es: seq<Element>, name: string): nat
  {
    if es == [] then 0 else (if es[0].name == name then 1 else 0) + CountName(es[1..], name)
  }

  lemma {:induction false} RenderRdfAppend(a: seq<Element>, b: seq<Element>)
    ensures RenderRdf(a + b) == RenderRdf(a) + RenderRdf(b)
  {
    if a == [] {
      assert a + b == b;
    } else {
      assert (a + b)[0] == a[0] && (a + b)[1..] == a[1..] + b;
      RenderRdfAppend(a[1..], b);
    }
  }

  lemma {:induction false} CountNameAppend(a: seq<Element>, b: seq<Element>, name: string)
    ensures CountName(a + b, name) == CountName(a, name) + CountName(b, name)
  {
    if a == [] {
      assert a + b == b;
    } else {
      assert (a + b)[0] == a[0] && (a + b)[1..] == a[1..] + b;
      CountNameAppend(a[1..], b, name);
    }
  }

  /** The literal tags of the three leading elements (see the note before
      `TagLineStep`). */
  lemma HeadTags()
    ensures "\t\t<" + "licenseId" + ">" == "\t\t<licenseId>" && "</" + "licenseId" + ">\n" == "</licenseId>\n"
    ensures "\t\t<" + "licenseName" + ">" == "\t\t<licenseName>" && "</" + "licenseName" + ">\n" == "</licenseName>\n"
    ensures "\t\t<" + "extractedText" + ">" == "\t\t<extractedText>"
    ensures "</" + "extractedText" + ">\n" == "</extractedText>\n"
  {
  }

  /** The literal tags of an `rdfs:seeAlso` element. */
  lemma SeeAlsoTags()
    ensures "\t\t<" + "rdfs:seeAlso" + ">" == "\t\t<rdfs:seeAlso>"
    ensures "</" + "rdfs:seeAlso" + ">\n" == "</rdfs:seeAlso>\n"
  {
  }

  /** Writing one `rdfs:seeAlso` element. */
  lemma SeeAlsoStep(output: string, es: seq<Element>, refs: seq<string>, i: nat)
    requires output == RenderRdf(es) && i < |refs|
    ensures output + "\t\t<rdfs:seeAlso>" + refs[i] + "</rdfs:seeAlso>\n" == RenderRdf(es + [Element("rdfs:seeAlso", refs[i])])
    ensures SeeAlsoElements(refs[..i + 1]) == SeeAlsoElements(refs[..i]) + [Element("rdfs:seeAlso", refs[i])]
  {
    SeeAlsoTags();
    ElementStep(output, es, "rdfs:seeAlso", refs[i], "\t\t<rdfs:seeAlso>", "</rdfs:seeAlso>\n");
  }

  /** The literal tags of an `rdfs:comment` element. */
  lemma CommentTags()
    ensures "\t\t<" + "rdfs:comment" + ">" == "\t\t<rdfs:comment>"
    ensures "</" + "rdfs:comment" + ">\n" == "</rdfs:comment>\n"
  {
  }

  /** Writing an element extends the fragment by that element; `openTag`
      and `closeTag` are the literals the source writes around the text. */
  lemma ElementStep(output: string, es: seq<Element>, name: string, text: string, openTag: string, closeTag: string)
    requires output == RenderRdf(es)
    requires openTag == "\t\t<" + name + ">" && closeTag == "</" + name + ">\n"
    ensures output + openTag + text + closeTag == RenderRdf(es + [Element(name, text)])
  {
    RenderRdfAppend(es, [Element(name, text)]);
    assert [Element(name, text)][1..] == [];
  }

  lemma {:induction false} CountSeeAlso(refs: seq<string>, name: string)
    ensures CountName(SeeAlsoElements(refs), name) == if name == "rdfs:seeAlso" then |refs| else 0
  {
    if refs != [] {
      assert SeeAlsoElements(refs)[1..] == SeeAlsoElements(refs[1..]);
      CountSeeAlso(refs[1..], name);
    }
  }

  lemma CountRdfHead(r: Record, name: string)
    ensures CountName(RdfHead(r), name) ==
      (if name == "licenseId" then 1 else 0) + (if name == "licenseName" then 1 else 0) +
      (if name == "extractedText" then 1 else 0)
  {
    var head := RdfHead(r);
    assert head[1..][1..][1..] == [];
    assert CountName(head[1..][1..], name) == if name == "extractedText" then 1 else 0;
  }

  /** Counting the elements of `RdfElements` name by name. */
  lemma CountRdfElements(r: Record, name: string)
    ensures CountName(RdfElements(r), name) ==
      (if name == "licenseId" then 1 else 0) +
      (if name == "licenseName" then 1 else 0) +
      (if name == "extractedText" then 1 else 0) +
      (if name == "rdfs:seeAlso" then |References(r.licenseCrossReference)| else 0) +
      (if name == "rdfs:comment" && r.licenseComment.Some? then 1 else 0)
  {
    var refs := SeeAlsoElements(References(r.licenseCrossReference));
    CountNameAppend(RdfHead(r) + refs, RdfTail(r), name);
    CountNameAppend(RdfHead(r), refs, name);
    CountSeeAlso(References(r.licenseCrossReference), name);
    CountRdfHead(r, name);
    assert RdfTail(r) != [] ==> RdfTail(r)[1..] == [];
  }

  /** The fragment always opens with the license identifier, the license
      name and the extracted text, each once and in that order. */
  lemma RdfLeadingElements(r: Record)
    ensures RdfElements(r)[..3] ==
      [Element("licenseId", Str(r.licenseId)), Element("licenseName", Str(r.licenseName)),
       Element("extractedText", Str(r.extractedText))]
    ensures CountName(RdfElements(r), "licenseId") == 1
    ensures CountName(RdfElements(r), "licenseName") == 1
    ensures CountName(RdfElements(r), "extractedText") == 1
    ensures ("\t\t<licenseId>" + Str(r.licenseId) + "</licenseId>\n") <= RdfText(r)
  {
    CountRdfElements(r, "licenseId");
    CountRdfElements(r, "licenseName");
    CountRdfElements(r, "extractedText");
    var es := RdfElements(r);
    HeadTags();
    var first := Element("licenseId", Str(r.licenseId));
    assert es == [first] + es[1..];
    RenderRdfAppend([first], es[1..]);
    ElementStep("", [], "licenseId", Str(r.licenseId), "\t\t<licenseId>", "</licenseId>\n");
    assert [] + [first] == [first];
  }

  /** One `rdfs:seeAlso` element per cross-reference, in order, after the
      three leading elements. */
  lemma RdfSeeAlso(r: Record)
    ensures CountName(RdfElements(r), "rdfs:seeAlso") == |References(r.licenseCrossReference)|
    ensures forall i | 0 <= i < |References(r.licenseCrossReference)| ::
      RdfElements(r)[3 + i] == Element("rdfs:seeAlso", References(r.licenseCrossReference)[i])
  {
    CountRdfElements(r, "rdfs:seeAlso");
  }

  lemma EmptyCommentElement()
    ensures RenderElement(Element("rdfs:comment", "")) == "\t\t<rdfs:comment></rdfs:comment>\n"
  {
    CommentTags();
    ElementStep("", [], "rdfs:comment", "", "\t\t<rdfs:comment>", "</rdfs:comment>\n");
    assert [] + [Element("rdfs:comment", "")] == [Element("rdfs:comment", "")];
  }

  /** A comment element, last, exactly when the comment is not `None`; an
      empty comment gives an empty element. */
  lemma RdfComment(r: Record)
    ensures CountName(RdfElements(r), "rdfs:comment") == if r.licenseComment.Some? then 1 else 0
    ensures r.licenseComment.Some? ==>
      RdfElements(r)[|RdfElements(r)| - 1] == Element("rdfs:comment", r.licenseComment.value)
    ensures r.licenseComment == Some("") ==>
      RenderElement(RdfElements(r)[|RdfElements(r)| - 1]) == "\t\t<rdfs:comment></rdfs:comment>\n"
  {
    CountRdfElements(r, "rdfs:comment");
    if r.licenseComment == Some("") {
      EmptyCommentElement();
    }
  }

  /** The two serialisers decide differently about the comment: a `None`
      comment is written as "None" in the tag-value form and left out of the
      RDF form; an empty comment is left out of the tag-value form and
      written as an empty RDF element. */
  lemma CommentPoliciesDiffer(r: Record)
    ensures r.licenseComment == None ==>
      CountKey(TagEntries(r), "LicenseComment") == 1 && CountName(RdfElements(r), "rdfs:comment") == 0
    ensures r.licenseComment == Some("") ==>
      CountKey(TagEntries(r), "LicenseComment") == 0 && CountName(RdfElements(r), "rdfs:comment") == 1
  {
    TagComment(r);
    RdfComment(r);
  }

  /** As written, the RDF serialiser succeeds exactly when there is no
      cross-reference to write, and then agrees with the intended one. */
  lemma RdfAsWrittenSucceedsOnlyWithoutReferences(r: Record)
    ensures RdfTextAsWritten(r).Success? <==> |References(r.licenseCrossReference)| == 0
    ensures RdfTextAsWritten(r).Success? ==> RdfTextAsWritten(r).value == RdfText(r)
  {
  }

  /** A record with one cross-reference cannot be written as RDF by the
      source. */
  lemma RdfAsWrittenFailsOnReference()
    ensures RdfTextAsWritten(Record(Some("LicenseRef-1"), Some("text"), Some("name"),
                                    Some(["http://example.org/license"]), None, None))
            == Failure(AttributeError("reference"))
  {
  }

  /** Neither serialiser reads the file checksum, so after a successful
      lookup the output depends on the row alone. */
  lemma LoadedOutputDependsOnRowOnly(r: Record, s: Record, row: Row)
    ensures TagText(Loaded(r, Some(row))) == TagText(Loaded(s, Some(row)))
    ensures RdfText(Loaded(r, Some(row))) == RdfText(Loaded(s, Some(row)))
  {
  }

  // ---------------------------------------------------------------------
  // The record object

  /** The class `licensingInfo`. */
  class LicensingInfo {
    var licenseId: Option<string>
    var extractedText: Option<string>
    var licenseName: Option<string>
    var licenseCrossReference: Option<seq<string>>
    var licenseComment: Option<string>
    var fileChecksum: Option<string>

    /** The current field values. */
    function Snapshot(): Record
      reads this
    {
      Record(licenseId, extractedText, licenseName, licenseCrossReference, licenseComment, fileChecksum)
    }

    /** Every field takes its argument; every argument defaults to `None`. */
    constructor(licenseId: Option<string> := None,
                extractedText: Option<string> := None,
                licenseName: Option<string> := None,
                licenseCrossReference: Option<seq<string>> := None,
                licenseComment: Option<string> := None,
                fileChecksum: Option<string> := None)
      ensures this.licenseId == licenseId && this.extractedText == extractedText
      ensures this.licenseName == licenseName && this.licenseCrossReference == licenseCrossReference
      ensures this.licenseComment == licenseComment && this.fileChecksum == fileChecksum
    {
      this.licenseId := licenseId;
      this.extractedText := extractedText;
      this.licenseName := licenseName;
      this.licenseCrossReference := licenseCrossReference;
      this.licenseComment := licenseComment;
      this.fileChecksum := fileChecksum;
    }

    /** The two header lines of the tag-value text. */
    method WriteTagHead() returns (output: string)
      ensures output == RenderTag(TagHead(Snapshot()))
    {
      ghost var written: seq<TagEntry> := [];
      output := "";
      HeadPrefixes();
      TagLineStep(output, written, "LicenseID", Str(licenseId), "LicenseID: ");
      output := output + "LicenseID: " + Str(licenseId) + "\n";
      written := written + [Line("LicenseID", Str(licenseId))];
      TagLineStep(output, written, "LicenseName", Str(licenseName), "LicenseName: ");
      output := output + "LicenseName: " + Str(licenseName) + "\n";
      written := written + [Line("LicenseName", Str(licenseName))];
      assert written == TagHead(Snapshot());
    }

    /** The extracted-text block and, unless the comment is empty, the
        comment block. */
    method WriteTagTail(output: string, ghost written: seq<TagEntry>) returns (result: string)
      requires output == RenderTag(written)
      ensures result == RenderTag(written + TagTail(Snapshot()))
    {
      result := output;
      ghost var es := written;
      TailPrefixes();
      TagBlockStep(result, es, "ExtractedText", Str(extractedText), "ExtractedText: <text>");
      result := result + "ExtractedText: <text>";
      result := result + Str(extractedText);
      result := result + "</text>\n";
      es := es + [Block("ExtractedText", Str(extractedText))];
      if licenseComment != Some("") {
        TagBlockStep(result, es, "LicenseComment", Str(licenseComment), "LicenseComment: <text>");
        result := result + "LicenseComment: <text>";
        result := result + Str(licenseComment);
        result := result + "</text>\n";
        es := es + [Block("LicenseComment", Str(licenseComment))];
      }
      assert es == written + TagTail(Snapshot());
    }

    /** `outputLicensingInfo_TAG`: the text is built piece by piece. */
    method OutputTag() returns (output: string)
      ensures output == TagText(Snapshot())
    {
      output := WriteTagHead();
      ghost var head := TagHead(Snapshot());
      ghost var written := head;
      var refs := References(licenseCrossReference);
      if licenseCrossReference != None {
        for i := 0 to |refs|
          invariant written == head + CrossReferenceLines(refs[..i])
          invariant output == RenderTag(written)
        {
          CrossReferenceStep(output, written, refs, i);
          output := output + "LicenseCrossReference: " + refs[i] + "\n";
          written := written + [Line("LicenseCrossReference", refs[i])];
        }
        assert refs[..|refs|] == refs;
      }
      assert written == head + CrossReferenceLines(refs);
      output := WriteTagTail(output, written);
    }

    /** The three leading elements of the RDF fragment. */
    method WriteRdfHead() returns (output: string)
      ensures output == RenderRdf(RdfHead(Snapshot()))
    {
      ghost var written: seq<Element> := [];
      output := "";
      HeadTags();
      ElementStep(output, written, "licenseId", Str(licenseId), "\t\t<licenseId>", "</licenseId>\n");
      output := output + "\t\t<licenseId>";
      output := output + Str(licenseId);
      output := output + "</licenseId>\n";
      written := written + [Element("licenseId", Str(licenseId))];
      ElementStep(output, written, "licenseName", Str(licenseName), "\t\t<licenseName>", "</licenseName>\n");
      output := output + "\t\t<licenseName>";
      output := output + Str(licenseName);
      output := output + "</licenseName>\n";
      written := written + [Element("licenseName", Str(licenseName))];
      ElementStep(output, written, "extractedText", Str(extractedText), "\t\t<extractedText>", "</extractedText>\n");
      output := output + "\t\t<extractedText>";
      output := output + Str(extractedText);
      output := output + "</extractedText>\n";
      written := written + [Element("extractedText", Str(extractedText))];
      assert written == RdfHead(Snapshot());
    }

    /** The closing comment element, written when the comment is not `None`. */
    method WriteRdfComment(output: string, ghost written: seq<Element>) returns (result: string)
      requires output == RenderRdf(written)
      ensures result == RenderRdf(written + RdfTail(Snapshot()))
    {
      result := output;
      if licenseComment != None {
        CommentTags();
        ElementStep(result, written, "rdfs:comment", licenseComment.value, "\t\t<rdfs:comment>", "</rdfs:comment>\n");
        result := result + "\t\t<rdfs:comment>";
        result := result + licenseComment.value;
        result := result + "</rdfs:comment>\n";
      } else {
        assert written + [] == written;
      }
    }

    /** `outputLicensingInfo_RDF` as written: the loop over the
        cross-references fails on its first pass, and the text written so
        far is lost with the exception. */
    method OutputRdfAsWritten() returns (result: Result<string, Error>)
      ensures result == RdfTextAsWritten(Snapshot())
    {
      var output := WriteRdfHead();
      if licenseCrossReference != None {
        var refs := licenseCrossReference.value;
        for i := 0 to |refs|
          invariant i == 0
        {
          return Failure(AttributeError("reference"));
        }
      }
      ghost var r := Snapshot();
      assert SeeAlsoElements(References(r.licenseCrossReference)) == [];
      assert RdfElements(r) == RdfHead(r) + RdfTail(r);
      output := WriteRdfComment(output, RdfHead(r));
      result := Success(output);
    }

    /** `outputLicensingInfo_RDF` with the loop writing each reference. */
    method OutputRdf() returns (output: string)
      ensures output == RdfText(Snapshot())
    {
      output := WriteRdfHead();
      ghost var head := RdfHead(Snapshot());
      ghost var written := head;
      var refs := References(licenseCrossReference);
      if licenseCrossReference != None {
        for i := 0 to |refs|
          invariant written == head + SeeAlsoElements(refs[..i])
          invariant output == RenderRdf(written)
        {
          SeeAlsoStep(output, written, refs, i);
          output := output + "\t\t<rdfs:seeAlso>";
          output := output + refs[i];
          output := output + "</rdfs:seeAlso>\n";
          written := written + [Element("rdfs:seeAlso", refs[i])];
        }
        assert refs[..|refs|] == refs;
      }
      assert written == head + SeeAlsoElements(refs);
      output := WriteRdfComment(output, written);
    }

    /** The update of `getLicensingInfo` once the query has run: no row
        leaves every field as it was; a row sets five fields from its
        positions 0 to 4 and leaves the file checksum untouched. */
    method GetLicensingInfo(queryReturn: Option<Row>)
      modifies this
      ensures Snapshot() == Loaded(old(Snapshot()), queryReturn)
      ensures queryReturn == None ==> Snapshot() == old(Snapshot())
      ensures queryReturn.Some? ==>
        licenseId == queryReturn.value.0 && licenseName == queryReturn.value.1 &&
        licenseComment == queryReturn.value.2 && extractedText == queryReturn.value.3 &&
        licenseCrossReference == queryReturn.value.4
      ensures fileChecksum == old(fileChecksum)
    {
      if queryReturn != None {
        var row := queryReturn.value;
        licenseId := row.0;
        licenseName := row.1;
        licenseComment := row.2;
        extractedText := row.3;
        licenseCrossReference := row.4;
      }
    }
  }
}
