/**
 * `separate_k`: the flat vector of fitted force constants is cut into one
 * contiguous segment per dihedral type, visiting the types in sorted order
 * and starting each segment where the previous one ended.
 */
module Partition {

  /**
   * Python's slice `s[a:b]` for `0 <= a <= b`: both bounds are clamped to
   * the length, so a short vector gives short or empty segments, not an error.
   */
  function PySlice<T>(s: seq<T>, a: nat, b: nat): (r: seq<T>)
    requires a <= b
    ensures b <= |s| ==> r == s[a..b]
    ensures a <= |s| ==> r == s[a..if b <= |s| then b else |s|]
    ensures |s| < a ==> r == []
  {
    var lo := if a <= |s| then a else |s|;
    var hi := if b <= |s| then b else |s|;
    s[lo..hi]
  }

  /** The number of force constants of the types in `names`. */
  function Offset(counts: map<string, nat>, names: seq<string>): nat
    requires forall n :: n in names ==> n in counts
  {
    if |names| == 0 then 0
    else Offset(counts, names[..|names| - 1]) + counts[names[|names| - 1]]
  }

  /** The dictionary `separate_k` builds after visiting the types in `names`. */
  function Segments(x: seq<real>, counts: map<string, nat>, names: seq<string>): map<string, seq<real>>
    requires forall n :: n in names ==> n in counts
  {
    if |names| == 0 then map[]
    else
      var earlier := names[..|names| - 1];
      var name := names[|names| - 1];
      var start := Offset(counts, earlier);
      Segments(x, counts, earlier)[name := PySlice(x, start, start + counts[name])]
  }

  /**
   * `separate_k(force_constants, mcount_dict, dihedral_names_sorted)`. The
   * source's callers build `mcount_dict` from the same names, so every name
   * has a count.
   */
  method SeparateK(forceConstants: seq<real>, mcountDict: map<string, nat>,
                   dihedralNamesSorted: seq<string>) returns (kDict: map<string, seq<real>>)
    requires forall n :: n in dihedralNamesSorted ==> n in mcountDict
    ensures kDict == Segments(forceConstants, mcountDict, dihedralNamesSorted)
  {
    kDict := map[];
    var start, end := 0, 0;
    var previousCount := 0;
    for i := 0 to |dihedralNamesSorted|
      invariant kDict == Segments(forceConstants, mcountDict, dihedralNamesSorted[..i])
      invariant end == Offset(mcountDict, dihedralNamesSorted[..i])
      invariant 0 < i ==> previousCount == mcountDict[dihedralNamesSorted[i - 1]]
      invariant 0 < i ==> start + previousCount == end
      invariant i == 0 ==> start == 0
    {
      var name := dihedralNamesSorted[i];
      if i == 0 {
        end := end + mcountDict[name];
      } else {
        start := start + previousCount;
        end := end + mcountDict[name];
      }
      assert dihedralNamesSorted[..i + 1][..i] == dihedralNamesSorted[..i];
      kDict := kDict[name := PySlice(forceConstants, start, end)];
      previousCount := mcountDict[name];
    }
    assert dihedralNamesSorted[..|dihedralNamesSorted|] == dihedralNamesSorted;
  }

  /** The dictionary has exactly one key per name. */
  lemma {:induction false} SegmentsKeys(x: seq<real>, counts: map<string, nat>, names: seq<string>)
    requires forall n :: n in names ==> n in counts
    ensures Segments(x, counts, names).Keys == set n | n in names
  {
    if |names| > 0 {
      var earlier := names[..|names| - 1];
      SegmentsKeys(x, counts, earlier);
      assert names == earlier + [names[|names| - 1]];
    }
  }

  /** Offsets only grow along the name list. */
  lemma {:induction false} OffsetMonotone(counts: map<string, nat>, names: seq<string>, i: nat)
    requires forall n :: n in names ==> n in counts
    requires i <= |names|
    ensures Offset(counts, names[..i]) <= Offset(counts, names)
  {
    if i < |names| {
      var earlier := names[..|names| - 1];
      assert earlier[..i] == names[..i];
      OffsetMonotone(counts, earlier, i);
      assert Offset(counts, names) == Offset(counts, earlier) + counts[names[|names| - 1]];
    } else {
      assert names[..i] == names;
    }
  }

  /**
   * For distinct names, the segment of the i-th name starts at the total
   * count of the names before it and is as long as its own count, clamped
   * to the vector.
   */
  lemma {:induction false} SegmentAt(x: seq<real>, counts: map<string, nat>, names: seq<string>, i: nat)
    requires forall n :: n in names ==> n in counts
    requires forall a, b :: 0 <= a < b < |names| ==> names[a] != names[b]
    requires i < |names|
    ensures names[i] in Segments(x, counts, names)
    ensures Segments(x, counts, names)[names[i]]
         == PySlice(x, Offset(counts, names[..i]), Offset(counts, names[..i]) + counts[names[i]])
  {
    var earlier := names[..|names| - 1];
    if i < |names| - 1 {
      assert earlier[..i] == names[..i];
      SegmentAt(x, counts, earlier, i);
    } else {
      assert earlier == names[..i];
    }
  }

  /** `k_dict[n]` for each name, concatenated in sorted order. */
  function Concat(kDict: map<string, seq<real>>, names: seq<string>): seq<real>
    requires forall n :: n in names ==> n in kDict
  {
    if |names| == 0 then []
    else Concat(kDict, names[..|names| - 1]) + kDict[names[|names| - 1]]
  }

  lemma {:induction false} ConcatIgnoresOtherKeys(kDict: map<string, seq<real>>, names: seq<string>,
                                                  key: string, value: seq<real>)
    requires forall n :: n in names ==> n in kDict
    requires key !in names
    ensures Concat(kDict[key := value], names) == Concat(kDict, names)
  {
    if |names| > 0 {
      ConcatIgnoresOtherKeys(kDict, names[..|names| - 1], key, value);
    }
  }

  /**
   * Round trip: for distinct names, concatenating the segments in sorted
   * order gives back the leading `min(len(x), total)` force constants.
   */
  lemma {:induction false} ConcatSegments(x: seq<real>, counts: map<string, nat>, names: seq<string>)
    requires forall n :: n in names ==> n in counts
    requires forall a, b :: 0 <= a < b < |names| ==> names[a] != names[b]
    ensures forall n :: n in names ==> n in Segments(x, counts, names)
    ensures Concat(Segments(x, counts, names), names) == x[..Clamp(Offset(counts, names), |x|)]
  {
    SegmentsHasNames(x, counts, names);
    if |names| > 0 {
      var earlier := names[..|names| - 1];
      var name := names[|names| - 1];
      var start := Offset(counts, earlier);
      var segment := PySlice(x, start, start + counts[name]);
      var before := Segments(x, counts, earlier);
      ConcatSegments(x, counts, earlier);
      assert name !in earlier;
      ConcatIgnoresOtherKeys(before, earlier, name, segment);
      SliceSplit(x, start, start + counts[name]);
    }
  }

  lemma SegmentsHasNames(x: seq<real>, counts: map<string, nat>, names: seq<string>)
    requires forall n :: n in names ==> n in counts
    ensures forall n :: n in names ==> n in Segments(x, counts, names)
  {
    SegmentsKeys(x, counts, names);
  }

  /** A clamped prefix followed by the next clamped slice is the longer clamped prefix. */
  lemma SliceSplit(x: seq<real>, a: nat, b: nat)
    requires a <= b
    ensures x[..Clamp(a, |x|)] + PySlice(x, a, b) == x[..Clamp(b, |x|)]
  {
  }

  /** `min(n, len)`, where a slice bound stops. */
  function Clamp(n: nat, len: nat): (r: nat)
    ensures r <= n && r <= len
    ensures r == n || r == len
  {
    if n <= len then n else len
  }

  /** When the vector has exactly the total count, the segments reassemble it. */
  lemma SeparateKRoundTrip(x: seq<real>, counts: map<string, nat>, names: seq<string>)
    requires forall n :: n in names ==> n in counts
    requires forall a, b :: 0 <= a < b < |names| ==> names[a] != names[b]
    requires |x| == Offset(counts, names)
    ensures forall n :: n in names ==> n in Segments(x, counts, names)
    ensures Concat(Segments(x, counts, names), names) == x
  {
    ConcatSegments(x, counts, names);
    assert x[..Clamp(|x|, |x|)] == x;
  }

  /** When the vector is long enough, every segment has exactly its type's count. */
  lemma SegmentLengths(x: seq<real>, counts: map<string, nat>, names: seq<string>, i: nat)
    requires forall n :: n in names ==> n in counts
    requires forall a, b :: 0 <= a < b < |names| ==> names[a] != names[b]
    requires i < |names| && Offset(counts, names) <= |x|
    ensures names[i] in Segments(x, counts, names)
    ensures |Segments(x, counts, names)[names[i]]| == counts[names[i]]
  {
    SegmentAt(x, counts, names, i);
    OffsetMonotone(counts, names, i + 1);
    assert names[..i + 1][..i] == names[..i];
  }

  /** The total count depends only on the counts of the listed names. */
  lemma {:induction false} OffsetFrame(c1: map<string, nat>, c2: map<string, nat>, names: seq<string>)
    requires forall n :: n in names ==> n in c1 && n in c2 && c1[n] == c2[n]
    ensures Offset(c1, names) == Offset(c2, names)
  {
    if |names| > 0 {
      OffsetFrame(c1, c2, names[..|names| - 1]);
    }
  }

  /** Taking the `k`-th name out of the list takes its count out of the total. */
  lemma {:induction false} OffsetRemove(counts: map<string, nat>, names: seq<string>, k: nat)
    requires forall n :: n in names ==> n in counts
    requires k < |names|
    ensures Offset(counts, names) == Offset(counts, names[..k] + names[k + 1..]) + counts[names[k]]
  {
    var last := |names| - 1;
    if k < last {
      var earlier := names[..last];
      OffsetRemove(counts, earlier, k);
      var rest := names[..k] + names[k + 1..];
      assert rest[..|rest| - 1] == earlier[..k] + earlier[k + 1..];
      assert rest[|rest| - 1] == names[last];
    } else {
      assert names[..k] + names[k + 1..] == names[..last];
    }
  }

  /** The total count does not depend on the order of the names. */
  lemma {:induction false} OffsetPermutation(counts: map<string, nat>, a: seq<string>, b: seq<string>)
    requires forall n :: n in a ==> n in counts
    requires multiset(a) == multiset(b)
    ensures forall n :: n in b ==> n in counts
    ensures Offset(counts, a) == Offset(counts, b)
  {
    SameMembers(a, b);
    if |a| > 0 {
      var last := a[|a| - 1];
      var k := RemoveOne(a, b);
      OffsetPermutation(counts, a[..|a| - 1], b[..k] + b[k + 1..]);
      OffsetRemove(counts, b, k);
    }
  }

  lemma SameMembers(a: seq<string>, b: seq<string>)
    requires multiset(a) == multiset(b)
    ensures forall n :: n in b ==> n in a
  {
    forall n | n in b
      ensures n in a
    {
      assert n in multiset(b);
    }
  }

  /** The last name of `a` sits at some index `k` of its permutation `b`; dropping both keeps them permutations. */
  lemma RemoveOne(a: seq<string>, b: seq<string>) returns (k: nat)
    requires |a| > 0 && multiset(a) == multiset(b)
    ensures k < |b| && b[k] == a[|a| - 1]
    ensures multiset(a[..|a| - 1]) == multiset(b[..k] + b[k + 1..])
  {
    var last := a[|a| - 1];
    var init := a[..|a| - 1];
    assert a == init + [last];
    assert last in multiset(b);
    k :| 0 <= k < |b| && b[k] == last;
    var rest := b[..k] + b[k + 1..];
    assert b == b[..k] + [last] + b[k + 1..];
    assert multiset(b) == multiset(rest) + multiset{last};
    assert multiset(a) == multiset(init) + multiset{last};
    CancelOne(multiset(init), multiset(rest), last);
  }

  lemma CancelOne(x: multiset<string>, y: multiset<string>, last: string)
    requires x + multiset{last} == y + multiset{last}
    ensures x == y
  {
    forall n
      ensures x[n] == y[n]
    {
      assert (x + multiset{last})[n] == (y + multiset{last})[n];
    }
  }
}
