/** The SPDX file-type guess of `spdx_filetype` (src/util.py). The source
    asks a content-sniffing library for a description of the file; here that
    description is the input. */
module FileType {
  import opened Strings

  /** The four SPDX file types the classifier can answer. */
  datatype FileType = Source | Binary | Archive | Other
  {
    /** The string the source returns for this file type. */
    function Name(): string
    {
      match this
      case Source => "SOURCE"
      case Binary => "BINARY"
      case Archive => "ARCHIVE"
      case Other => "OTHER"
    }
  }

  /** The first test of the classifier: a textual source, script or program,
      a shell script, a text executable, or HTML or XML text. The first three
      clauses need " text" with a leading space, the last two only "text". */
  predicate SourceClue(magic: string)
  {
    (Contains(magic, " source") && Contains(magic, " text")) ||
    (Contains(magic, " script") && Contains(magic, " text")) ||
    (Contains(magic, " program") && Contains(magic, " text")) ||
    Contains(magic, " shell script") ||
    Contains(magic, " text executable") ||
    (Contains(magic, "HTML") && Contains(magic, "text")) ||
    (Contains(magic, "XML") && Contains(magic, "text"))
  }

  /** The second test: executables, objects, shared libraries and `ar` archives. */
  predicate BinaryClue(magic: string)
  {
    Contains(magic, " executable") ||
    Contains(magic, " relocatable") ||
    Contains(magic, " shared object") ||
    Contains(magic, " dynamically linked") ||
    Contains(magic, " ar archive")
  }

  /** `spdx_filetype`: the tests are tried in order and the first that holds
      decides; a description matching none of them is OTHER. */
  function SpdxFiletype(magic: string): (t: FileType)
    ensures t == Source <==> SourceClue(magic)
    ensures t == Binary <==> !SourceClue(magic) && BinaryClue(magic)
    ensures t == Archive <==> !SourceClue(magic) && !BinaryClue(magic) && Contains(magic, "archive")
    ensures t == Other <==> !SourceClue(magic) && !BinaryClue(magic) && !Contains(magic, "archive")
  {
    if SourceClue(magic) then Source
    else if BinaryClue(magic) then Binary
    else if Contains(magic, "archive") then Archive
    else Other
  }

  /** The answer is always one of the four names the source returns, and
      different file types have different names. */
  lemma NameIsOneOfFour(t: FileType, u: FileType)
    ensures t.Name() in ["SOURCE", "BINARY", "ARCHIVE", "OTHER"]
    ensures t.Name() == u.Name() ==> t == u
  {
  }

  /** A shell script or a text executable is SOURCE whatever else the
      description says. */
  lemma ShellScriptIsSource(p: string, needle: string, q: string)
    requires needle == " shell script" || needle == " text executable"
    ensures SpdxFiletype(p + needle + q) == Source
  {
    ContainsConcat(p, needle, q);
  }

  /** HTML or XML text is SOURCE even without a space before "text", and in
      either order: the clause asks only that both occur. */
  lemma MarkupTextIsSource(p: string, markup: string, q: string, r: string)
    requires markup == "HTML" || markup == "XML"
    ensures SpdxFiletype(p + markup + q + "text" + r) == Source
    ensures SpdxFiletype(p + "text" + q + markup + r) == Source
  {
    ContainsConcat(p, markup, q + "text" + r);
    assert p + markup + q + "text" + r == p + markup + (q + "text" + r);
    ContainsConcat(p + markup + q, "text", r);
    ContainsConcat(p, "text", q + markup + r);
    assert p + "text" + q + markup + r == p + "text" + (q + markup + r);
    ContainsConcat(p + "text" + q, markup, r);
  }

  /** An `ar` archive that is not SOURCE is BINARY, never ARCHIVE, although
      its description contains "archive". */
  lemma ArArchiveIsBinary(p: string, q: string)
    requires !SourceClue(p + " ar archive" + q)
    ensures SpdxFiletype(p + " ar archive" + q) == Binary
    ensures Contains(p + " ar archive" + q, "archive")
  {
    ContainsConcat(p, " ar archive", q);
    ContainsConcat(" ar ", "archive", "");
    assert " ar " + "archive" + "" == " ar archive";
    ContainsTransitive(p + " ar archive" + q, " ar archive", "archive");
  }

  /** Any other description containing "archive" is ARCHIVE. */
  lemma ArchiveFallback(magic: string)
    requires !SourceClue(magic) && !BinaryClue(magic)
    requires Contains(magic, "archive")
    ensures SpdxFiletype(magic) == Archive
  {
  }

  /** A description mentioning none of the keywords of the classifier is
      OTHER; in particular, OTHER never contains "archive". */
  lemma OtherHasNoKeyword(magic: string)
    requires SpdxFiletype(magic) == Other
    ensures !Contains(magic, "archive") && !Contains(magic, " ar archive")
    ensures !Contains(magic, " shell script") && !Contains(magic, " executable")
  {
  }

  /** A needle with an adjacent pair of characters that the description
      lacks does not occur in it. */
  lemma Absent(magic: string, needle: string, k: int)
    requires 0 <= k < |needle| - 1
    requires !HasPair(magic, needle[k], needle[k + 1])
    ensures !Contains(magic, needle)
  {
    if Contains(magic, needle) { ContainsPair(magic, needle, k); }
  }

  /** "ELF 64-bit LSB executable, dynamically linked", written around the
      phrase the classifier finds in it. */
  const ElfProbe := "ELF 64-bit LSB" + " executable" + ", dynamically linked"

  /** An ELF executable is BINARY. */
  lemma ElfExecutableIsBinary()
    ensures SpdxFiletype(ElfProbe) == Binary
  {
    ElfHasNoSourceClue();
    ContainsConcat("ELF 64-bit LSB", " executable", ", dynamically linked");
  }

  lemma ElfHasNoSourceClue()
    ensures !SourceClue(ElfProbe)
  {
    var m := ElfProbe;
    ElfLacksTe();
    ElfLacksSh();
    Absent(m, " text", 1);
    Absent(m, "text", 0);
    Absent(m, " shell script", 1);
    Absent(m, " text executable", 1);
  }

  /** The ELF description has no "te" and no "sh", so "text" and "shell"
      cannot occur in it. Each pair is checked in a lemma of its own, over
      every position of the description. */
  lemma ElfLacksTe()
    ensures !HasPair(ElfProbe, 't', 'e')
  {
    var m := ElfProbe;
    assert !(exists i | 0 <= i < |m| - 1 :: m[i] == 't' && m[i + 1] == 'e');
  }

  lemma ElfLacksSh()
    ensures !HasPair(ElfProbe, 's', 'h')
  {
    var m := ElfProbe;
    assert !(exists i | 0 <= i < |m| - 1 :: m[i] == 's' && m[i + 1] == 'h');
  }

  const AsciiProbe := "ASCII text"

  /** Plain text without a source, script or program keyword is OTHER. */
  lemma AsciiTextIsOther()
    ensures SpdxFiletype(AsciiProbe) == Other
  {
    var m := AsciiProbe;
    Absent(m, " source", 1);
    Absent(m, " script", 1);
    Absent(m, " program", 1);
    Absent(m, " shell script", 1);
    Absent(m, " text executable", 5);
    Absent(m, "HTML", 0);
    Absent(m, "XML", 0);
    assert !SourceClue(m);
    Absent(m, " executable", 3);
    Absent(m, " relocatable", 1);
    Absent(m, " shared object", 2);
    Absent(m, " dynamically linked", 1);
    Absent(m, " ar archive", 1);
    assert !BinaryClue(m);
    Absent(m, "archive", 0);
  }

  /** "POSIX shell script, ASCII text executable". */
  const ShellProbe := "POSIX" + " shell script" + ", ASCII text executable"

  /** A shell script description is SOURCE. */
  lemma ShellScriptExample()
    ensures SpdxFiletype(ShellProbe) == Source
  {
    ShellScriptIsSource("POSIX", " shell script", ", ASCII text executable");
  }

  const ZipProbe := "Zip archive data"

  /** A zip file is ARCHIVE. */
  lemma ZipIsArchive()
    ensures SpdxFiletype(ZipProbe) == Archive
  {
    var m := ZipProbe;
    Absent(m, " text", 1);
    Absent(m, "text", 0);
    Absent(m, " shell script", 1);
    Absent(m, " text executable", 1);
    assert !SourceClue(m);
    Absent(m, " executable", 1);
    Absent(m, " relocatable", 1);
    Absent(m, " shared object", 2);
    Absent(m, " dynamically linked", 1);
    Absent(m, " ar archive", 2);
    assert !BinaryClue(m);
    assert OccursAt(m, "archive", 4);
  }
}
