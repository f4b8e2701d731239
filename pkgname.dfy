/** `package_friendly_name` (src/util.py): a package file name without its
    extension, and without ".tar" too when that is what remains. It rests on
    Python's `os.path.splitext` for POSIX paths, modelled here as well. */
module PackageName {
  import opened Strings

  /** The last path component (what follows the last '/') holds a character
      other than '.'; leading dots of a file name are not an extension. */
  predicate HasStem(root: string)
  {
    exists k | RFind(root, '/') < k < |root| :: root[k] != '.'
  }

  /** A declarative reading of a split into root and extension: the
      extension is a '.' followed by characters that are neither '.' nor '/',
      and the root's last component is not made of dots alone. */
  predicate IsExtensionSplit(p: string, root: string, ext: string)
  {
    root + ext == p && |ext| > 0 && ext[0] == '.' &&
    (forall k | 1 <= k < |ext| :: ext[k] != '.' && ext[k] != '/') &&
    HasStem(root)
  }

  /** `os.path.splitext(p)` on POSIX: split at the last '.' when it lies in
      the last path component and something other than dots precedes it in
      that component; otherwise the extension is empty. */
  function SplitExt(p: string): (parts: (string, string))
    ensures parts.0 + parts.1 == p
    ensures parts.1 != "" ==> IsExtensionSplit(p, parts.0, parts.1)
  {
    var sep := RFind(p, '/');
    var dot := RFind(p, '.');
    if dot > sep && exists k | sep < k < dot :: p[k] != '.' then
      assert p[..dot] + p[dot..] == p;
      RFindPrefix(p, '/', dot);
      (p[..dot], p[dot..])
    else
      (p, "")
  }

  /** Cutting off a tail that does not hold `c` leaves the last `c` where
      it was. */
  lemma RFindPrefix(p: string, c: char, i: int)
    requires 0 <= i <= |p|
    requires forall j | i <= j < |p| :: p[j] != c
    ensures RFind(p[..i], c) == RFind(p, c)
  {
  }

  /** Appending characters other than '/' keeps a stem. */
  lemma HasStemExtend(root: string, tail: string)
    requires HasStem(root)
    requires forall j | 0 <= j < |tail| :: tail[j] != '/'
    ensures HasStem(root + tail)
  {
    var p := root + tail;
    assert p[..|root|] == root;
    RFindPrefix(p, '/', |root|);
    var k :| RFind(root, '/') < k < |root| && root[k] != '.';
    assert p[k] == root[k];
  }

  /** `splitext` finds an extension exactly when the path has one in the
      declarative sense, and then that one. */
  lemma SplitExtComplete(p: string, i: int)
    requires 0 <= i <= |p|
    requires IsExtensionSplit(p, p[..i], p[i..])
    ensures SplitExt(p) == (p[..i], p[i..])
  {
    var sep := RFind(p, '/');
    var dot := RFind(p, '.');
    assert p[i..][0] == p[i] == '.';
    forall j | i < j < |p| ensures p[j] != '.' && p[j] != '/' {
      assert p[i..][j - i] == p[j];
    }
    assert dot == i;
    RFindPrefix(p, '/', i);
    var k :| RFind(p[..i], '/') < k < |p[..i]| && p[..i][k] != '.';
    assert sep < k < dot && p[k] != '.';
  }

  /** `package_friendly_name(name)`. */
  function PackageFriendlyName(name: string): (r: string)
    ensures r <= name
  {
    var newname := SplitExt(name).0;
    if EndsWith(newname, ".tar") then SplitExt(newname).0 else newname
  }

  /** The name of a tarball compressed some way loses both extensions. */
  lemma TarballName(stem: string, ext: string)
    requires HasStem(stem)
    requires forall k | 0 <= k < |ext| :: ext[k] != '.' && ext[k] != '/'
    ensures PackageFriendlyName(stem + ".tar." + ext) == stem
  {
    var tarball := stem + ".tar";
    var name := tarball + ("." + ext);
    assert stem + ".tar." + ext == name;
    assert IsExtensionSplit(tarball, stem, ".tar");
    assert tarball[..|stem|] == stem && tarball[|stem|..] == ".tar";
    SplitExtComplete(tarball, |stem|);
    HasStemExtend(stem, ".tar");
    assert IsExtensionSplit(name, tarball, "." + ext);
    assert name[..|tarball|] == tarball && name[|tarball|..] == "." + ext;
    SplitExtComplete(name, |tarball|);
    assert EndsWith(tarball, ".tar");
  }

  /** A name with an extension other than one after ".tar" loses only that
      extension. */
  lemma SingleExtensionName(root: string, ext: string)
    requires IsExtensionSplit(root + ext, root, ext)
    requires !EndsWith(root, ".tar")
    ensures PackageFriendlyName(root + ext) == root
  {
    assert (root + ext)[..|root|] == root && (root + ext)[|root|..] == ext;
    SplitExtComplete(root + ext, |root|);
  }

  /** A name without a '.' is returned unchanged. */
  lemma NoDotName(name: string)
    requires forall k | 0 <= k < |name| :: name[k] != '.'
    ensures PackageFriendlyName(name) == name
  {
  }

  /** "foo-1.0.tar.gz" names the package "foo-1.0". */
  lemma TarballExample()
    ensures PackageFriendlyName("foo-1.0.tar.gz") == "foo-1.0"
  {
    FooStem();
    TarballName("foo-1.0", "gz");
    FooTarball();
  }

  // The two facts about the literals of `TarballExample`, each proved on
  // its own to keep that proof cheap for the verifier.

  /** "foo-1.0" has no '/' and starts with a character other than '.'. */
  lemma FooStem()
    ensures HasStem("foo-1.0")
  {
    assert RFind("foo-1.0", '/') == -1 && "foo-1.0"[0] != '.';
  }

  /** The example name is the stem, ".tar." and the extension "gz". */
  lemma FooTarball()
    ensures "foo-1.0" + ".tar." + "gz" == "foo-1.0.tar.gz"
  {
  }

  /** Leading dots are not an extension separator: ".tar.gz" loses ".gz",
      but ".tar" is then a dot file without extension and stays. */
  lemma DotFileTarballExample()
    ensures PackageFriendlyName(".tar.gz") == ".tar"
  {
    assert RFind(".tar", '/') == -1 && ".tar"[1] != '.';
    assert IsExtensionSplit(".tar.gz", ".tar", ".gz");
    SplitExtComplete(".tar.gz", 4);
    assert EndsWith(".tar", ".tar");
    var t := ".tar";
    assert t[0] == '.' && t[1] != '.' && t[2] != '.' && t[3] != '.';
    assert RFind(t, '.') == 0;
  }
}
