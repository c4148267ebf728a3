/**
 * A model of the parts of Python's `pathlib.PurePath` that the program uses:
 * `.name`, `.parent`, `.stem`, `.suffix`, the `/` operator and the set of
 * directories that `mkdir(parents=True)` creates.
 *
 * A path is its anchor (`""`, `"/"`, `"C:\\"`) and its list of components;
 * two paths are equal when both agree, as for `PurePosixPath`.
 */
module Paths {

  datatype Path = Path(anchor: string, parts: seq<string>)

  /** `p.name`: the last component, or `""` for an anchor-only path. */
  function Name(p: Path): (r: string)
    ensures p.parts != [] ==> r == p.parts[|p.parts| - 1]
    ensures p.parts == [] ==> r == ""
  {
    if p.parts == [] then "" else p.parts[|p.parts| - 1]
  }

  /** `p.parent`: the path without its last component; an anchor-only path is its own parent. */
  function Parent(p: Path): (r: Path)
    ensures r.anchor == p.anchor
    ensures p.parts != [] ==> r.parts + [Name(p)] == p.parts
    ensures p.parts == [] ==> r == p
  {
    if p.parts == [] then p else Path(p.anchor, p.parts[..|p.parts| - 1])
  }

  /** `dir / name` for a single component `name`; joining `""` leaves the path as it is. */
  function Join(dir: Path, name: string): (r: Path)
    ensures name != "" ==> Name(r) == name && Parent(r) == dir
    ensures name == "" ==> r == dir
  {
    if name == "" then dir else Path(dir.anchor, dir.parts + [name])
  }

  /** `q` is `p` or one of its ancestors: the same anchor and a prefix of its components. */
  predicate IsAncestor(q: Path, p: Path) {
    q.anchor == p.anchor && |q.parts| <= |p.parts| && q.parts == p.parts[..|q.parts|]
  }

  /** The directories `p.mkdir(parents=True, exist_ok=True)` guarantees afterwards: `p` and every ancestor. */
  function Ancestors(p: Path): (r: set<Path>)
    ensures p in r && Parent(p) in r
    ensures forall q :: q in r ==> q.anchor == p.anchor && |q.parts| <= |p.parts|
    decreases |p.parts|
  {
    if p.parts == [] then {p} else {p} + Ancestors(Parent(p))
  }

  /** The set holds exactly `p` and its ancestors: nothing is missing and nothing unrelated is added. */
  lemma {:induction false} AncestorsExact(p: Path)
    ensures forall q :: q in Ancestors(p) <==> IsAncestor(q, p)
    decreases |p.parts|
  {
    if p.parts == [] {
      assert forall q :: IsAncestor(q, p) ==> q.parts == [];
    } else {
      AncestorsExact(Parent(p));
      AncestorOfParent(p);
    }
  }

  /** The ancestors of a path's parent are the path's own ancestors other than itself. */
  lemma AncestorOfParent(p: Path)
    requires p.parts != []
    ensures forall q :: IsAncestor(q, Parent(p)) <==> IsAncestor(q, p) && q != p
  {
    var n := |p.parts|;
    forall q
      ensures IsAncestor(q, Parent(p)) <==> IsAncestor(q, p) && q != p
    {
      if IsAncestor(q, p) && |q.parts| == n {
        assert q.parts == p.parts;
      }
      if |q.parts| < n {
        assert p.parts[..n - 1][..|q.parts|] == p.parts[..|q.parts|];
      }
    }
  }

  /** `s.rfind(c)`: the index of the last occurrence of `c`, or -1. */
  function RFind(s: string, c: char): (i: int)
    ensures -1 <= i < |s|
    ensures 0 <= i ==> s[i] == c
    ensures forall k :: i < k < |s| ==> s[k] != c
  {
    if s == [] then -1
    else if s[|s| - 1] == c then |s| - 1
    else RFind(s[..|s| - 1], c)
  }

  /** A dot that splits a name into stem and suffix: not the first character and not the last. */
  predicate HasSuffix(name: string) {
    var i := RFind(name, '.'); 0 < i < |name| - 1
  }

  /** The suffix of a file name, as `PurePath.suffix` computes it. */
  function NameSuffix(name: string): string {
    if HasSuffix(name) then name[RFind(name, '.')..] else ""
  }

  /** The stem of a file name, as `PurePath.stem` computes it. */
  function NameStem(name: string): (r: string)
    ensures r + NameSuffix(name) == name
  {
    if HasSuffix(name) then name[..RFind(name, '.')] else name
  }

  function Stem(p: Path): string { NameStem(Name(p)) }

  function Suffix(p: Path): string { NameSuffix(Name(p)) }

  /** Any index holding `c` with no later `c` is what `rfind` returns. */
  lemma {:induction false} RFindIsLast(s: string, c: char, j: nat)
    requires j < |s| && s[j] == c
    requires forall k :: j < k < |s| ==> s[k] != c
    ensures RFind(s, c) == j
  {
    if j < |s| - 1 {
      RFindIsLast(s[..|s| - 1], c, j);
    }
  }

  /**
   * Inserting text without a dot between stem and suffix keeps the suffix
   * and puts the text at the end of the stem.
   */
  lemma SuffixSurvivesInsertion(name: string, ins: string)
    requires HasSuffix(name)
    requires '.' !in ins
    ensures NameSuffix(NameStem(name) + ins + NameSuffix(name)) == NameSuffix(name)
    ensures NameStem(NameStem(name) + ins + NameSuffix(name)) == NameStem(name) + ins
  {
    var i := RFind(name, '.');
    var stem, suffix := name[..i], name[i..];
    var t := stem + ins + suffix;
    var j := |stem| + |ins|;
    assert t[j] == '.';
    forall k | j < k < |t| ensures t[k] != '.' {
      assert t[k] == name[k - j + i];
    }
    RFindIsLast(t, '.', j);
    assert t[..j] == stem + ins;
    assert t[j..] == suffix;
  }
}
