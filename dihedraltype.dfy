/**
 * The identity of a dihedral type. The four atom types read from a series
 * file's header are canonicalised as `min(atoms, atoms[::-1])`, so that
 * A-B-C-D and D-C-B-A name the same torsion, and the type's name is the
 * first four canonical tokens joined with '-'.
 */
module DihedralType {
  import opened Outcomes
  import opened LexOrder

  /** Python's `atoms[::-1]`. */
  function Reverse<T>(s: seq<T>): (r: seq<T>)
    ensures |r| == |s|
    ensures forall i :: 0 <= i < |s| ==> r[i] == s[|s| - 1 - i]
  {
    seq(|s|, i requires 0 <= i < |s| => s[|s| - 1 - i])
  }

  lemma ReverseInvolutive<T>(s: seq<T>)
    ensures Reverse(Reverse(s)) == s
  {
  }

  /**
   * `min(atoms, atoms[::-1])`: Python's `min` returns its first argument
   * unless the second is strictly smaller.
   */
  function Canonical(atoms: seq<string>): (key: seq<string>)
    ensures key == atoms || key == Reverse(atoms)
    ensures |key| == |atoms|
  {
    var reversed := Reverse(atoms);
    if TokensLt(reversed, atoms) then reversed else atoms
  }

  /** The key is at most both orientations: it is their minimum. */
  lemma CanonicalIsLeast(atoms: seq<string>)
    ensures TokensLe(Canonical(atoms), atoms)
    ensures TokensLe(Canonical(atoms), Reverse(atoms))
  {
    TokensLtTrichotomous(atoms, Reverse(atoms));
  }

  /** Reading the header backwards gives the same key. */
  lemma CanonicalReverseInvariant(atoms: seq<string>)
    ensures Canonical(Reverse(atoms)) == Canonical(atoms)
  {
    var reversed := Reverse(atoms);
    ReverseInvolutive(atoms);
    TokensLtTrichotomous(atoms, reversed);
    if TokensLt(reversed, atoms) {
      TokensLtAsymmetric(reversed, atoms);
    }
  }

  /** Canonicalising a key again changes nothing. */
  lemma CanonicalIdempotent(atoms: seq<string>)
    ensures Canonical(Canonical(atoms)) == Canonical(atoms)
  {
    if Canonical(atoms) != atoms {
      CanonicalReverseInvariant(atoms);
    }
  }

  /**
   * `"{}-{}-{}-{}".format(atoms[0], atoms[1], atoms[2], atoms[3])` on the
   * canonical key; a header with fewer than four tokens raises IndexError.
   */
  function DihedralName(header: seq<string>): (r: Result<string>)
    ensures r.Success? <==> |header| >= 4
  {
    var atoms := Canonical(header);
    if |atoms| < 4 then Failure(IndexError("atoms"))
    else Success(atoms[0] + "-" + atoms[1] + "-" + atoms[2] + "-" + atoms[3])
  }

  /** A header and its reverse name the same dihedral type. */
  lemma DihedralNameReverseInvariant(header: seq<string>)
    ensures DihedralName(Reverse(header)) == DihedralName(header)
  {
    CanonicalReverseInvariant(header);
  }
}
