# SPDX helpers and license-info record, in Dafny

This project models the core of a small SPDX 2.1 document generator. The
generator records license metadata for scanned package files and writes it
back out as SPDX tag-value text or as an RDF/XML fragment. The model covers
two source files.

- `src/util.py`:
  - the file-type guess `spdx_filetype` (module `FileType`);
  - the package verification code `gen_ver_code` (module `VerificationCode`),
    with its lexicographic sort (module `Sorting`, on `Strings.LexLessEq`);
  - `package_friendly_name`, together with POSIX `os.path.splitext`
    (module `PackageName`);
  - the identifier helpers `gen_id_string` and `friendly_namespace_suffix`
    (module `Identifiers`).
- `src/licensingInfo.py`: the class `licensingInfo`, written as the Dafny
  class `Licensing.LicensingInfo`. It covers the six fields, the constructor,
  the two serialisers (loops that build a string with `+=`) and the field
  update of `getLicensingInfo`.

How the model is built:

- Each serialiser method is proved equal to a specification function on a
  snapshot of the fields: `OutputTag` to `TagText`, `OutputRdf` to
  `RdfText`, and `OutputRdfAsWritten` to `RdfTextAsWritten`. Those functions are lists
  of entries (`TagEntry`, `Element`) rendered to text.
- The properties the source promises are proved as lemmas about those lists.
- Python values that may be `None` are `Option`s. `str(None)` is the text
  `"None"` (`Licensing.Str`).
- Python's `in` on strings is `Strings.Contains`.
- SHA-1 digests are a function parameter `sha1`, so every statement about
  the verification code holds whatever hash function is used.
- The type description from the content-sniffing library, the UUID text and
  the database row are inputs.

## Model

| member | source | states |
|---|---|---|
| FileType.SpdxFiletype | src/util.py:38-57 | SOURCE exactly when one of the seven source clauses holds; BINARY exactly when none does and one of the five binary clauses does; ARCHIVE exactly when neither does and "archive" occurs; OTHER otherwise |
| FileType.SourceClue | src/util.py:41-47 | definition: the seven source clauses, the first three needing " text" and the markup ones only "text" |
| FileType.BinaryClue | src/util.py:49-53 | definition: the five binary keywords, any one of which suffices |
| FileType.NameIsOneOfFour | src/util.py:48-57 | the returned name is one of "SOURCE", "BINARY", "ARCHIVE", "OTHER", and distinct file types have distinct names |
| FileType.ShellScriptIsSource | src/util.py:44-45 | any description containing " shell script" or " text executable" is SOURCE, whatever surrounds it |
| FileType.MarkupTextIsSource | src/util.py:46-48 | HTML or XML together with "text" (no leading space needed), in either order, is SOURCE |
| FileType.ArArchiveIsBinary | src/util.py:49-56 | a description containing " ar archive" that meets no source clause is BINARY, even though it contains "archive" |
| FileType.ArchiveFallback | src/util.py:55-56 | a description with "archive" that meets no source or binary clause is ARCHIVE |
| FileType.OtherHasNoKeyword | src/util.py:41-57 | an OTHER description contains none of "archive", " ar archive", " shell script", " executable" |
| FileType.Absent | src/util.py:41-55 | a keyword with an adjacent character pair that the description lacks does not occur in it |
| FileType.ElfExecutableIsBinary | src/util.py:49-54 | "ELF 64-bit LSB executable, dynamically linked" is BINARY |
| FileType.ElfHasNoSourceClue | src/util.py:41-47 | that ELF description meets no source clause |
| FileType.AsciiTextIsOther | src/util.py:41-57 | "ASCII text" is OTHER: "text" alone does not make a file SOURCE |
| FileType.ShellScriptExample | src/util.py:44-48 | "POSIX shell script, ASCII text executable" is SOURCE |
| FileType.ZipIsArchive | src/util.py:55-56 | "Zip archive data" is ARCHIVE |
| Strings.Contains | src/util.py:41-55 | definition: Python `in` on strings, the needle occurring at some position of the text |
| Strings.EndsWith | src/util.py:97 | definition: `endswith`, the last characters of the text being the suffix |
| Strings.RFind | src/util.py:96 | the index of the last occurrence of a character, or -1 when there is none |
| Strings.LexReflexive | src/util.py:90 | the string order used by `sorted` is reflexive |
| Strings.LexAntisymmetric | src/util.py:90 | it is antisymmetric |
| Strings.LexTransitive | src/util.py:90 | it is transitive |
| Strings.LexTotal | src/util.py:90 | it is total |
| Sorting.Insert | src/util.py:90 | inserting into a sorted list gives a sorted list with the same elements plus the new one |
| Sorting.Sort | src/util.py:90 | `sorted`: the result is sorted lexicographically and is a permutation of the input |
| Sorting.SortedUnique | src/util.py:90 | two sorted lists with the same elements, counted with multiplicity, are equal |
| Sorting.SortPermutationInvariant | src/util.py:90 | sorting two permutations of each other gives the same list |
| VerificationCode.Filter | src/util.py:89 | each hash is kept as often as it occurs unless it is excluded; the result is empty exactly when every hash is excluded |
| VerificationCode.ExclusionSet | src/util.py:87-88 | definition: a missing exclusion set is the empty set |
| VerificationCode.Join | src/util.py:90 | definition: `''.join`, the strings concatenated in order with no separator |
| VerificationCode.Blob | src/util.py:89-90 | definition: `hashblob`, the kept hashes sorted and joined with no separator |
| VerificationCode.GenVerCode | src/util.py:85-91 | when every hash is excluded (or there are none) the code is the digest of the empty string |
| VerificationCode.FilterPermutation | src/util.py:89 | filtering permuted inputs gives the same multiset |
| VerificationCode.GenVerCodePermutation | src/util.py:89-91 | the code and the hashed blob do not depend on the order of the input hashes |
| VerificationCode.FilterNothing | src/util.py:87-89 | excluding nothing keeps every hash in order |
| VerificationCode.ExclusionIsPrefiltering | src/util.py:87-90 | excluding E equals removing E first and passing no exclusion set; no exclusion set equals the empty set |
| VerificationCode.JoinLength | src/util.py:90 | `''.join` is as long as its parts together |
| VerificationCode.TotalLengthAppend | src/util.py:90 | total length adds over concatenation |
| VerificationCode.TotalLengthPermutation | src/util.py:90 | total length depends only on the multiset of parts |
| VerificationCode.BlobLength | src/util.py:89-90 | the hashed blob is exactly as long as the kept hashes together |
| VerificationCode.JoinInjective | src/util.py:90 | joining lists of strings of one positive width is injective |
| VerificationCode.KeptWidths | src/util.py:89-90 | filtering and sorting keep a common width of the hashes |
| VerificationCode.BlobDeterminesKeptHashes | src/util.py:89-91 | for hashes of one positive width, two inputs give the same blob if and only if they keep the same multiset of hashes |
| VerificationCode.NoSeparatorCollision | src/util.py:90-91 | without a separator, ["ab"] and ["a","b"] give the same blob "ab" and the same code |
| VerificationCode.BlobOfOneHash | src/util.py:90 | a single hash is hashed as it stands |
| VerificationCode.BlobOfTwoHashes | src/util.py:90 | two hashes in order are hashed as their concatenation |
| VerificationCode.JoinOfTwo | src/util.py:90 | joining two strings concatenates them |
| VerificationCode.BlobOfSorted | src/util.py:89-90 | an already sorted list with no exclusions is hashed as its plain join |
| PackageName.SplitExt | src/util.py:96 | `os.path.splitext`: root and extension concatenate to the path, and a non-empty extension is a proper extension split (a '.' then no '.' or '/', after a stem that is not all dots) |
| PackageName.RFindPrefix | src/util.py:96 | dropping a tail free of a character keeps that character's last position |
| PackageName.HasStemExtend | src/util.py:96-98 | appending characters other than '/' keeps a stem |
| PackageName.SplitExtComplete | src/util.py:96 | whenever the path has a proper extension split, `splitext` returns exactly that split |
| PackageName.PackageFriendlyName | src/util.py:94-99 | the friendly name is a prefix of the file name |
| PackageName.TarballName | src/util.py:96-99 | a name `X.tar.E` with a stem X and an extension E without '.' or '/' gives X |
| PackageName.SingleExtensionName | src/util.py:96-97 | a name with one extension, whose root does not end in ".tar", loses only that extension |
| PackageName.NoDotName | src/util.py:96-99 | a name without any '.' is returned unchanged |
| PackageName.TarballExample | src/util.py:94-99 | "foo-1.0.tar.gz" gives "foo-1.0" |
| PackageName.DotFileTarballExample | src/util.py:94-99 | ".tar.gz" gives ".tar", since ".tar" is then a dot file without an extension |
| Identifiers.GenIdString | src/util.py:102-104 | the identifier starts with "SPDXRef-", the rest of it is the UUID text, and its length is theirs together |
| Identifiers.FriendlyNamespaceSuffix | src/util.py:127-129 | the suffix is '/', then the document name, then '-', then the UUID text, each at its position, and it is two longer than the name and UUID together |
| Identifiers.GenIdStringInjective | src/util.py:102-104 | the UUID can be read back after the prefix, so distinct UUIDs give distinct identifiers |
| Identifiers.NamespaceSuffixInjective | src/util.py:127-129 | with UUID texts of one length, the suffix determines both the document name and the UUID |
| Identifiers.NamespaceSuffixAmbiguous | src/util.py:127-129 | without that length, "spdx-doc" with "1" and "spdx" with "doc-1" give the same suffix |
| Licensing.Str | src/licensingInfo.py:108-144 | definition: `str()` of a field, "None" for `None` and the text itself otherwise |
| Licensing.Loaded | src/licensingInfo.py:162-167 | definition: no row leaves the record as it is; a row replaces the five fields from positions 0 to 4 and keeps the file checksum |
| Licensing.TagText | src/licensingInfo.py:104-124 | definition: the header lines, one line per cross-reference, the extracted-text block and, unless the comment is "", the comment block, rendered in that order |
| Licensing.RdfText | src/licensingInfo.py:126-147 | definition: the three leading elements, one rdfs:seeAlso per cross-reference and, unless the comment is `None`, the comment element, rendered in that order |
| Licensing.RdfTextAsWritten | src/licensingInfo.py:126-147 | definition: a failure on attribute `reference` when any cross-reference exists, the intended fragment otherwise |
| Licensing.LicensingInfo.constructor | src/licensingInfo.py:8-20 | each of the six fields takes its argument; every argument defaults to `None` |
| Licensing.LicensingInfo.GetLicensingInfo | src/licensingInfo.py:161-167 | no row leaves every field unchanged; a row sets licenseId, licenseName, licenseComment, extractedText, licenseCrossReference from positions 0 to 4 and leaves fileChecksum alone |
| Licensing.LicensingInfo.WriteTagHead | src/licensingInfo.py:107-109 | the text written first is the LicenseID line and then the LicenseName line |
| Licensing.LicensingInfo.WriteTagTail | src/licensingInfo.py:115-122 | appends the ExtractedText block and, unless the comment is "", the LicenseComment block |
| Licensing.LicensingInfo.OutputTag | src/licensingInfo.py:104-124 | the text built with `+=`, loop included, equals the rendering of `TagEntries` on the current fields |
| Licensing.TagLineStep | src/licensingInfo.py:108-109 | appending `Key: value` and a newline renders one more line item |
| Licensing.TagBlockStep | src/licensingInfo.py:115-122 | appending `Key: <text>`, the text and `</text>` and a newline renders one more block item |
| Licensing.CrossReferenceStep | src/licensingInfo.py:111-113 | one pass of the cross-reference loop renders one more LicenseCrossReference line, in sequence order |
| Licensing.RenderTagAppend | src/licensingInfo.py:107-123 | rendering distributes over concatenation of item lists |
| Licensing.CountKeyAppend | src/licensingInfo.py:107-123 | counting items by tag adds over concatenation |
| Licensing.CountCrossReferenceLines | src/licensingInfo.py:111-113 | the loop writes as many LicenseCrossReference lines as there are references, and no other tag |
| Licensing.CountTagHead | src/licensingInfo.py:108-109 | the header holds one LicenseID and one LicenseName line |
| Licensing.CountTagTail | src/licensingInfo.py:115-122 | the tail holds one ExtractedText block, and a LicenseComment block exactly when the comment is not "" |
| Licensing.CountTagEntries | src/licensingInfo.py:104-124 | how many items of each tag the text holds: one LicenseID, one LicenseName, one line per reference, one ExtractedText, one LicenseComment unless the comment is "" |
| Licensing.TagHeadText | src/licensingInfo.py:108-109 | the header renders as "LicenseID: " + str(licenseId) + "\n" + "LicenseName: " + str(licenseName) + "\n" |
| Licensing.TagTextHeader | src/licensingInfo.py:107-109 | the tag-value text begins with those two lines |
| Licensing.TagCrossReferences | src/licensingInfo.py:111-113 | one LicenseCrossReference line per reference, in sequence order, right after the header; none for `None` |
| Licensing.TagExtractedText | src/licensingInfo.py:115-117 | exactly one ExtractedText block, right after the cross-reference lines |
| Licensing.TagComment | src/licensingInfo.py:119-122 | a LicenseComment block, last, exactly when the comment is not ""; with the default `None` it holds "None" |
| Licensing.LicensingInfo.WriteRdfHead | src/licensingInfo.py:127-136 | writes the licenseId, licenseName and extractedText elements, in that order |
| Licensing.LicensingInfo.WriteRdfComment | src/licensingInfo.py:142-145 | appends an rdfs:comment element exactly when the comment is not `None` |
| Licensing.LicensingInfo.OutputRdfAsWritten | src/licensingInfo.py:126-147 | the serialiser as written: equals `RdfTextAsWritten`, a failure on any non-empty cross-reference list |
| Licensing.LicensingInfo.OutputRdf | src/licensingInfo.py:126-147 | the serialiser with each reference written: equals the rendering of `RdfElements` on the current fields |
| Licensing.ElementStep | src/licensingInfo.py:128-145 | appending an opening tag, a text and a closing tag renders one more element |
| Licensing.SeeAlsoStep | src/licensingInfo.py:138-141 | one pass of the intended loop renders one more rdfs:seeAlso element, in sequence order |
| Licensing.RenderRdfAppend | src/licensingInfo.py:127-146 | rendering distributes over concatenation of element lists |
| Licensing.CountNameAppend | src/licensingInfo.py:127-146 | counting elements by name adds over concatenation |
| Licensing.CountSeeAlso | src/licensingInfo.py:138-141 | the loop writes one rdfs:seeAlso element per reference and nothing else |
| Licensing.CountRdfHead | src/licensingInfo.py:127-136 | the head holds one each of licenseId, licenseName, extractedText |
| Licensing.CountRdfElements | src/licensingInfo.py:126-147 | how many elements of each name the fragment holds: one licenseId, one licenseName, one extractedText, one rdfs:seeAlso per reference, one rdfs:comment unless the comment is `None` |
| Licensing.RdfLeadingElements | src/licensingInfo.py:127-136 | the fragment opens with licenseId, licenseName, extractedText, each exactly once, and starts with the licenseId element |
| Licensing.RdfSeeAlso | src/licensingInfo.py:137-141 | one rdfs:seeAlso element per reference, in sequence order, right after the three leading elements |
| Licensing.EmptyCommentElement | src/licensingInfo.py:142-145 | an empty comment renders as an empty rdfs:comment element |
| Licensing.RdfComment | src/licensingInfo.py:142-145 | an rdfs:comment element, last, exactly when the comment is not `None`; an empty comment gives an empty element |
| Licensing.CommentPoliciesDiffer | src/licensingInfo.py:119-145 | a `None` comment appears in the tag-value form and not in the RDF form; an empty comment appears in the RDF form and not in the tag-value form |
| Licensing.RdfAsWrittenSucceedsOnlyWithoutReferences | src/licensingInfo.py:137-141 | as written, the RDF serialiser succeeds if and only if there is no cross-reference, and then it agrees with the intended one |
| Licensing.RdfAsWrittenFailsOnReference | src/licensingInfo.py:140 | a record with one cross-reference fails with an attribute error on `reference` |
| Licensing.LoadedOutputDependsOnRowOnly | src/licensingInfo.py:104-167 | after a row has been loaded, neither output depends on the fields held before, the file checksum included |

## Left out

- `insertLicensingInfo` (src/licensingInfo.py:22-102): SQL statements, the auto-increment lookup and cursor state. It is database plumbing with nothing to state beyond passing parameters.
- `getLicensingInfo`'s `execute` and `fetchone` (src/licensingInfo.py:150-161): the query is not modelled. Its result is the parameter `queryReturn`, an optional row.
- Row column types: the fifth column is taken to be an optional sequence of reference strings. Its database type is not visible in this source. If it were text, Python's loop would visit its characters one by one.
- `sha1` (src/util.py:60-64) and the digest in `gen_ver_code`: file reading and SHA-1 are not modelled. The digest is the parameter `sha1`.
- `magic.from_file` (src/util.py:40): the foreign content-sniffing library. The classifier takes its output string as input.
- `tempextract` (src/util.py:67-82): filesystem, tar and zip extraction, and cleanup.
- `render_template` (src/util.py:31-35): a template-engine wrapper.
- `row_to_dict` and `lookup_by_sha1` (src/util.py:107-124): they depend on the SQL mapping library's objects.
- UUID randomness (src/util.py:104,129): the UUID text is a parameter. Uniqueness of random UUIDs is not modelled.
- Python 2 byte/unicode distinctions: strings are sequences of characters, and `sorted` compares them character by character.
- `os.path.splitext` is modelled for POSIX paths only, since '/' is the only separator.

## Findings

| source | as written | input that shows it | evidently intended | confidence | as-written member | corrected member |
|---|---|---|---|---|---|---|
| src/licensingInfo.py:140 | the loop over the cross-references writes `str(self.reference)`, an attribute no code defines, so the first pass raises `AttributeError` | a record whose cross-reference list is `["http://example.org/license"]` (`Licensing.RdfAsWrittenFailsOnReference`) | `str(reference)`, the loop variable, giving one `rdfs:seeAlso` element per reference | not executed | Licensing.LicensingInfo.OutputRdfAsWritten | Licensing.LicensingInfo.OutputRdf |
