/**
 Names and paths in cmd/go-iroh-sendme. An absolute, clean path is the sequence of its components;
 a collection name is a string with "/" between components. Separators are Unix's.
 */
module Paths {
  import opened Common

  type Path = seq<string>

  /** strings.Split(s, "/") */
  function Split(s: string): (parts: seq<string>)
    ensures |parts| > 0
  {
    if s == "" then [""]
    else
      var rest := Split(s[1..]);
      if s[0] == '/' then [""] + rest else [[s[0]] + rest[0]] + rest[1..]
  }

  /** strings.Join(parts, "/") */
  function Join(parts: seq<string>): string {
    if |parts| == 0 then ""
    else if |parts| == 1 then parts[0]
    else parts[0] + "/" + Join(parts[1..])
  }

  lemma {:induction false} JoinSplit(s: string)
    ensures Join(Split(s)) == s
  {
    if s != "" {
      var rest := Split(s[1..]);
      JoinSplit(s[1..]);
      assert s == [s[0]] + s[1..];
      if s[0] == '/' {
        assert ([""] + rest)[1..] == rest;
        assert Join(Split(s)) == "" + "/" + Join(rest);
      } else {
        var parts := [[s[0]] + rest[0]] + rest[1..];
        assert parts[1..] == rest[1..];
        if |rest| > 1 {
          assert parts[0] + "/" + Join(rest[1..]) == [s[0]] + (rest[0] + "/" + Join(rest[1..]));
        }
      }
    }
  }

  lemma {:induction false} SplitJoin(parts: seq<string>)
    requires |parts| > 0 && forall p | p in parts :: '/' !in p
    ensures Split(Join(parts)) == parts
  {
    if |parts| == 1 {
      SplitPlain(parts[0]);
    } else {
      SplitJoin(parts[1..]);
      SplitFirst(parts[0], Join(parts[1..]));
    }
  }

  lemma {:induction false} SplitPlain(p: string)
    requires '/' !in p
    ensures Split(p) == [p]
  {
    if p != "" {
      SplitPlain(p[1..]);
      assert p == [p[0]] + p[1..];
    }
  }

  lemma {:induction false} SplitFirst(p: string, rest: string)
    requires '/' !in p
    ensures Split(p + "/" + rest) == [p] + Split(rest)
  {
    var s := p + "/" + rest;
    if p == "" {
      assert s[1..] == rest;
    } else {
      SplitFirst(p[1..], rest);
      assert s[1..] == p[1..] + "/" + rest;
      assert p == [p[0]] + p[1..];
    }
  }

  predicate GoodComponent(p: string) {
    p != "" && p != "." && p != ".." && '\\' !in p
  }

  /** exportPath, None where it refuses the name. */
  function ExportPath(root: Path, name: string): Option<Path> {
    var parts := Split(name);
    if forall p | p in parts :: GoodComponent(p) then Some(root + parts) else None
  }

  /** A name is refused exactly for an empty component, "." or "..", or a back slash; else its components follow root. */
  lemma ExportsExactly(root: Path, parts: seq<string>)
    requires |parts| > 0 && forall p | p in parts :: '/' !in p
    ensures ExportPath(root, Join(parts)) ==
      if forall p | p in parts :: p != "" && p != "." && p != ".." && '\\' !in p
      then Some(root + parts) else None
  {
    SplitJoin(parts);
  }

  /** Every name is some list of components joined, so nothing else is exported. */
  lemma {:induction false} SplitHasNoSlash(s: string)
    ensures forall p | p in Split(s) :: '/' !in p
  {
    if s != "" {
      SplitHasNoSlash(s[1..]);
    }
  }

  /** Nothing is exported outside root, and different names go to different places. */
  lemma ExportStaysInside(root: Path, name: string, other: string)
    requires ExportPath(root, name).Some?
    ensures root < ExportPath(root, name).value
    ensures forall k | |root| <= k < |ExportPath(root, name).value| ::
      var p := ExportPath(root, name).value[k];
      p != "" && p != "." && p != ".." && '/' !in p && '\\' !in p
    ensures Join(ExportPath(root, name).value[|root|..]) == name
    ensures ExportPath(root, name) == ExportPath(root, other) ==> name == other
  {
    var parts := Split(name);
    JoinSplit(name);
    SplitHasNoSlash(name);
    ExportsExactly(root, parts);
    assert (root + parts)[|root|..] == parts;
    assert ExportPath(root, name) == Some(root + parts);
    assert forall p | p in parts :: p != "" && p != "." && p != ".." && '/' !in p && '\\' !in p;
    assert forall k | |root| <= k < |root + parts| :: (root + parts)[k] == parts[k - |root|] && (root + parts)[k] in parts;
    if ExportPath(root, name) == ExportPath(root, other) {
      SplitEqual(root, root, parts, Split(other));
      JoinSplit(other);
    }
  }

  // ---------------------------------------------------------------------------------------------
  // A tree of files, and what walk names in it.

  datatype Node = Dir | File(content: Bytes) | Special

  type Tree = map<Path, Node>

  /** A component an operating system can have in a directory. */
  predicate IsEntryName(p: string) {
    p != "" && p != "." && p != ".." && '/' !in p
  }

  /** Everything in the tree is in a directory of the tree. */
  ghost predicate WellFormed(t: Tree) {
    && [] in t && t[[]].Dir?
    && forall p | p in t && |p| > 0 :: p[..|p| - 1] in t && t[p[..|p| - 1]].Dir?
  }

  ghost predicate RealNames(t: Tree) {
    forall p, k | p in t && 0 <= k < |p| :: IsEntryName(p[k])
  }

  lemma {:induction false} PrefixIsDir(t: Tree, p: Path, q: Path)
    requires WellFormed(t) && q in t && p < q
    ensures p in t && t[p].Dir?
    decreases |q|
  {
    var up := q[..|q| - 1];
    if p == up {
    } else {
      assert p < up;
      PrefixIsDir(t, p, up);
    }
  }

  /** filepath.Dir of an absolute path. */
  function Parent(p: Path): Path {
    if p == [] then [] else p[..|p| - 1]
  }

  /** What walk's callback does at one path under the root it was given: skip, refuse, or name it. */
  datatype Visit = Skip | Refuse | Name(name: string)

  function WalkAt(root: Path, p: Path, node: Node): Visit
    requires root <= p
  {
    if !node.File? then Skip
    else
      var parts := p[|Parent(root)|..];
      if exists c | c in parts :: '/' in c || '\\' in c then Refuse else Name(Join(parts))
  }

  /** walk names exactly the regular files, by their components from the root's own name on, unless one has a slash in it. */
  lemma WalksExactly(root: Path, p: Path, node: Node, name: string)
    requires root <= p
    ensures WalkAt(root, p, node) == Name(name) <==>
      && node.File?
      && (forall k | (if root == [] then 0 else |root| - 1) <= k < |p| :: '/' !in p[k] && '\\' !in p[k])
      && name == Join(p[if root == [] then 0 else |root| - 1..])
    ensures WalkAt(root, p, node).Skip? <==> !node.File?
  {
    var n := if root == [] then 0 else |root| - 1;
    var parts := p[n..];
    assert forall k | n <= k < |p| :: p[k] == parts[k - n] && p[k] in parts;
  }

  /** Every name walk yields is one exportPath takes, to the same place under the new root. */
  lemma WalkedIsExportable(t: Tree, root: Path, p: Path, dst: Path)
    requires WellFormed(t) && RealNames(t) && root in t && root <= p && p in t
    requires WalkAt(root, p, t[p]).Name?
    ensures ExportPath(dst, WalkAt(root, p, t[p]).name) == Some(dst + p[|Parent(root)|..])
  {
    var parts := p[|Parent(root)|..];
    assert p != [] by {
      assert t[[]].Dir?;
    }
    forall c | c in parts
      ensures GoodComponent(c) && '/' !in c
    {
      var k :| 0 <= k < |parts| && parts[k] == c;
      assert p[|Parent(root)| + k] == c;
    }
    SplitJoin(parts);
  }

  /** Two files walk names are exported to places that do not collide or contain one another. */
  lemma WalkedDoNotCollide(t: Tree, root: Path, p: Path, q: Path, dst: Path, a: Path, b: Path)
    requires WellFormed(t) && RealNames(t) && root in t && root <= p && root <= q && p in t && q in t && p != q
    requires WalkAt(root, p, t[p]).Name? && WalkAt(root, q, t[q]).Name?
    requires ExportPath(dst, WalkAt(root, p, t[p]).name) == Some(a)
    requires ExportPath(dst, WalkAt(root, q, t[q]).name) == Some(b)
    ensures !(a <= b) && !(b <= a)
  {
    WalkedIsExportable(t, root, p, dst);
    WalkedIsExportable(t, root, q, dst);
    NotNested(t, root, p, q, dst);
    NotNested(t, root, q, p, dst);
  }

  lemma NotNested(t: Tree, root: Path, p: Path, q: Path, dst: Path)
    requires WellFormed(t) && root <= p && root <= q && p in t && q in t && p != q && t[p].File?
    ensures !(dst + p[|Parent(root)|..] <= dst + q[|Parent(root)|..])
  {
    var n := |Parent(root)|;
    var a, b := dst + p[n..], dst + q[n..];
    if a <= b {
      forall k | n <= k < |p|
        ensures p[k] == q[k]
      {
        assert a[|dst| + k - n] == b[|dst| + k - n];
      }
      assert p[..n] == root[..n] == q[..n];
      assert p <= q;
      PrefixIsDir(t, p, q);
    }
  }
}
