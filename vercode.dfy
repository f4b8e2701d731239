/** The SPDX package verification code of `gen_ver_code` (src/util.py),
    section 3.9 of SPDX 2.1: drop the excluded file hashes, sort the rest,
    join them with no separator and take the SHA-1 digest of the result.
    SHA-1 itself is not modelled: it is the parameter `sha1`, so every
    statement below holds whatever hash function is used. */
module VerificationCode {
  import opened Wrappers
  import opened Strings
  import opened Sorting

  /** The generator `h for h in hashes if h not in excluded`: the hashes
      that are not excluded, each as often as in the input. */
  function Filter(hashes: seq<string>, excluded: set<string>): (r: seq<string>)
    ensures forall x :: multiset(r)[x] == if x in excluded then 0 else multiset(hashes)[x]
    ensures r == [] <==> forall h | h in hashes :: h in excluded
  {
    if hashes == [] then []
    else
      assert hashes == [hashes[0]] + hashes[1..];
      (if hashes[0] in excluded then [] else [hashes[0]]) + Filter(hashes[1..], excluded)
  }

  /** A missing exclusion set is replaced by the empty set. */
  function ExclusionSet(excluded: Option<set<string>>): set<string>
  {
    match excluded
    case None => {}
    case Some(e) => e
  }

  /** `''.join(s)`. */
  function Join(s: seq<string>): string
  {
    if s == [] then "" else s[0] + Join(s[1..])
  }

  /** The sum of the lengths of the strings of `s`. */
  function TotalLength(s: seq<string>): nat
  {
    if s == [] then 0 else |s[0]| + TotalLength(s[1..])
  }

  /** The string that is hashed. */
  function Blob(hashes: seq<string>, excluded: Option<set<string>>): string
  {
    Join(Sort(Filter(hashes, ExclusionSet(excluded))))
  }

  /** `gen_ver_code(hashes, excluded_hashes)`. When nothing is left after the
      exclusions, the result is the digest of the empty string. */
  function GenVerCode(sha1: string -> string, hashes: seq<string>, excluded: Option<set<string>>): (code: string)
    ensures (forall h | h in hashes :: h in ExclusionSet(excluded)) ==> code == sha1("")
  {
    sha1(Blob(hashes, excluded))
  }

  /** Inputs with the same hashes, in any order, give the same filtered
      multiset of hashes. */
  lemma FilterPermutation(hashes: seq<string>, others: seq<string>, excluded: set<string>)
    requires multiset(hashes) == multiset(others)
    ensures multiset(Filter(hashes, excluded)) == multiset(Filter(others, excluded))
  {
    forall x ensures multiset(Filter(hashes, excluded))[x] == multiset(Filter(others, excluded))[x] {
    }
  }

  /** The verification code does not depend on the order in which the file
      hashes arrive. */
  lemma GenVerCodePermutation(sha1: string -> string, hashes: seq<string>, others: seq<string>,
                              excluded: Option<set<string>>)
    requires multiset(hashes) == multiset(others)
    ensures GenVerCode(sha1, hashes, excluded) == GenVerCode(sha1, others, excluded)
    ensures Blob(hashes, excluded) == Blob(others, excluded)
  {
    var e := ExclusionSet(excluded);
    FilterPermutation(hashes, others, e);
    SortPermutationInvariant(Filter(hashes, e), Filter(others, e));
  }

  /** Filtering with nothing excluded keeps the list as it is. */
  lemma {:induction false} FilterNothing(hashes: seq<string>)
    ensures Filter(hashes, {}) == hashes
  {
    if hashes != [] {
      FilterNothing(hashes[1..]);
      assert hashes == [hashes[0]] + hashes[1..];
    }
  }

  /** Excluding `excluded` is the same as removing those hashes first and
      excluding nothing; a missing exclusion set is the empty set. */
  lemma ExclusionIsPrefiltering(sha1: string -> string, hashes: seq<string>, excluded: set<string>)
    ensures GenVerCode(sha1, hashes, Some(excluded)) == GenVerCode(sha1, Filter(hashes, excluded), None)
    ensures GenVerCode(sha1, hashes, None) == GenVerCode(sha1, hashes, Some({}))
  {
    FilterNothing(Filter(hashes, excluded));
  }

  lemma {:induction false} JoinLength(s: seq<string>)
    ensures |Join(s)| == TotalLength(s)
  {
    if s != [] { JoinLength(s[1..]); }
  }

  lemma {:induction false} TotalLengthAppend(a: seq<string>, b: seq<string>)
    ensures TotalLength(a + b) == TotalLength(a) + TotalLength(b)
  {
    if a != [] {
      assert (a + b)[0] == a[0] && (a + b)[1..] == a[1..] + b;
      TotalLengthAppend(a[1..], b);
    } else {
      assert a + b == b;
    }
  }

  /** The total length depends only on which strings occur how often. */
  lemma {:induction false} TotalLengthPermutation(a: seq<string>, b: seq<string>)
    requires multiset(a) == multiset(b)
    ensures TotalLength(a) == TotalLength(b)
    decreases |a|
  {
    if a != [] {
      assert a[0] in multiset(b);
      var i :| 0 <= i < |b| && b[i] == a[0];
      var rest := b[..i] + b[i + 1..];
      assert b == b[..i] + [b[i]] + b[i + 1..];
      TotalLengthAppend(b[..i] + [b[i]], b[i + 1..]);
      TotalLengthAppend(b[..i], [b[i]]);
      TotalLengthAppend(b[..i], b[i + 1..]);
      assert a == [a[0]] + a[1..];
      assert multiset(a[1..]) == multiset(rest) by {
        assert multiset(a) == multiset{a[0]} + multiset(a[1..]);
        assert multiset(b) == multiset(b[..i]) + multiset{a[0]} + multiset(b[i + 1..]);
        forall x ensures multiset(a[1..])[x] == multiset(rest)[x] {
          assert multiset(a)[x] == multiset(b)[x];
        }
      }
      TotalLengthPermutation(a[1..], rest);
    }
  }

  /** The hashed string is exactly as long as the kept hashes together. */
  lemma BlobLength(hashes: seq<string>, excluded: Option<set<string>>)
    ensures |Blob(hashes, excluded)| == TotalLength(Filter(hashes, ExclusionSet(excluded)))
  {
    var kept := Filter(hashes, ExclusionSet(excluded));
    JoinLength(Sort(kept));
    TotalLengthPermutation(Sort(kept), kept);
  }

  /** Joining lists of strings of one positive width is injective. */
  lemma {:induction false} JoinInjective(a: seq<string>, b: seq<string>, width: nat)
    requires width > 0
    requires forall x | x in a :: |x| == width
    requires forall x | x in b :: |x| == width
    requires Join(a) == Join(b)
    ensures a == b
  {
    if a != [] && b != [] {
      assert Join(a)[..width] == a[0] && Join(b)[..width] == b[0];
      assert Join(a)[width..] == Join(a[1..]) && Join(b)[width..] == Join(b[1..]);
      JoinInjective(a[1..], b[1..], width);
      assert a == [a[0]] + a[1..] && b == [b[0]] + b[1..];
    }
  }

  /** When every hash has one width, so has every hash kept and sorted. */
  lemma KeptWidths(hashes: seq<string>, excluded: set<string>, width: nat)
    requires forall h | h in hashes :: |h| == width
    ensures forall x | x in Sort(Filter(hashes, excluded)) :: |x| == width
  {
    var kept := Filter(hashes, excluded);
    forall x | x in Sort(kept) ensures |x| == width {
      assert x in multiset(Sort(kept));
      assert x in multiset(hashes);
    }
  }

  /** When every file hash has the same positive width (40 hexadecimal
      digits for SHA-1), the hashed string determines the hashes that were
      kept, counted with multiplicity, and nothing more. */
  lemma BlobDeterminesKeptHashes(hashes: seq<string>, others: seq<string>, excluded: Option<set<string>>,
                                 width: nat)
    requires width > 0
    requires forall h | h in hashes :: |h| == width
    requires forall h | h in others :: |h| == width
    ensures Blob(hashes, excluded) == Blob(others, excluded) <==>
            multiset(Filter(hashes, ExclusionSet(excluded))) == multiset(Filter(others, ExclusionSet(excluded)))
  {
    var e := ExclusionSet(excluded);
    var a, b := Sort(Filter(hashes, e)), Sort(Filter(others, e));
    if Join(a) == Join(b) {
      KeptWidths(hashes, e, width);
      KeptWidths(others, e, width);
      JoinInjective(a, b, width);
    }
    if multiset(Filter(hashes, e)) == multiset(Filter(others, e)) {
      SortedUnique(a, b);
    }
  }

  /** Without a separator, hashes of different widths can collide: one hash
      "ab" and the two hashes "a" and "b" are hashed as the same string. */
  lemma NoSeparatorCollision(sha1: string -> string)
    ensures Blob(["ab"], None) == Blob(["a", "b"], None) == "ab"
    ensures GenVerCode(sha1, ["ab"], None) == GenVerCode(sha1, ["a", "b"], None)
  {
    BlobOfOneHash("ab");
    BlobOfTwoHashes("a", "b");
    assert "a" + "b" == "ab";
  }

  lemma BlobOfOneHash(h: string)
    ensures Blob([h], None) == h
  {
    BlobOfSorted([h]);
    assert [h][1..] == [];
    assert Join([h]) == h + "";
  }

  lemma BlobOfTwoHashes(g: string, h: string)
    requires LexLessEq(g, h)
    ensures Blob([g, h], None) == g + h
  {
    assert Sorted([g, h]);
    BlobOfSorted([g, h]);
    JoinOfTwo(g, h);
  }

  lemma JoinOfTwo(g: string, h: string)
    ensures Join([g, h]) == g + h
  {
    var s := [g, h];
    assert s[1..] == [h] && [h][1..] == [];
    assert Join([h]) == h + "" == h;
  }

  /** A sorted list is hashed as it stands. */
  lemma BlobOfSorted(hashes: seq<string>)
    requires Sorted(hashes)
    ensures Blob(hashes, None) == Join(hashes)
  {
    FilterNothing(hashes);
    SortedUnique(Sort(hashes), hashes);
  }
}
