/** The identifier helpers `gen_id_string` and `friendly_namespace_suffix`
    (src/util.py). The source draws a random UUID; here its text is a
    parameter, so what is stated is how an identifier is built from it. */
module Identifiers {

  const IdPrefix := "SPDXRef-"

  /** `gen_id_string()`: an SPDX element identifier. */
  function GenIdString(uuid: string): (id: string)
    ensures |id| == |IdPrefix| + |uuid|
    ensures IdPrefix <= id && id[|IdPrefix|..] == uuid
  {
    IdPrefix + uuid
  }

  /** `friendly_namespace_suffix(doc_name)`: a suffix for a document namespace. */
  function FriendlyNamespaceSuffix(docName: string, uuid: string): (suffix: string)
    ensures |suffix| == |docName| + |uuid| + 2
    ensures suffix[0] == '/' && suffix[1..|docName| + 1] == docName
    ensures suffix[|docName| + 1] == '-' && suffix[|docName| + 2..] == uuid
  {
    "/" + docName + "-" + uuid
  }

  /** Distinct UUIDs give distinct identifiers, and the UUID can be read back
      after the prefix. */
  lemma GenIdStringInjective(u: string, v: string)
    ensures GenIdString(u)[|IdPrefix|..] == u
    ensures GenIdString(u) == GenIdString(v) ==> u == v
  {
    assert GenIdString(u)[|IdPrefix|..] == u;
    assert GenIdString(v)[|IdPrefix|..] == v;
  }

  /** UUIDs have a fixed length, and with UUIDs of one length the suffix
      determines both the document name and the UUID. */
  lemma NamespaceSuffixInjective(d: string, u: string, e: string, v: string)
    requires |u| == |v|
    requires FriendlyNamespaceSuffix(d, u) == FriendlyNamespaceSuffix(e, v)
    ensures d == e && u == v
  {
    var s := FriendlyNamespaceSuffix(d, u);
    assert s[1..1 + |d|] == d && s[|s| - |u|..] == u;
    assert s[1..1 + |e|] == e && s[|s| - |v|..] == v;
  }

  /** Without the fixed length, a '-' in a document name makes suffixes
      ambiguous. */
  lemma NamespaceSuffixAmbiguous()
    ensures FriendlyNamespaceSuffix("spdx-doc", "1") == FriendlyNamespaceSuffix("spdx", "doc-1")
  {
  }
}
