/**
 The receiving half of cmd/go-iroh-sendme once the collection is known: choose the targets, fetch
 into a temporary directory, and move the files out of it.

 The file system is a tree nobody else writes to. Every operation on it may also fail for reasons
 of its own (permissions, space), leaving what is stated. What a blob's hash stands for is given as
 `contents`; a file fetched without an error holds exactly that.
 */
module Export {
  import opened Common
  import opened Paths

  /** What was there before, outside the directory tmp and not hidden, is as it was. */
  ghost predicate KeptOutside(old_: Tree, new_: Tree, tmp: Path, hidden: set<Path>) {
    forall p | p in old_ && !(tmp <= p) && p !in hidden :: p in new_ && new_[p] == old_[p]
  }

  /**
   hidden are the paths on which os.Lstat may fail though something is there; faults counts the
   operations that failed for reasons of their own, stops the removals that stopped partway.
   */
  class Disk {
    var tree: Tree
    var faults: nat
    var stops: nat
    const hidden: set<Path>

    constructor (tree: Tree, hidden: set<Path>)
      ensures this.tree == tree && this.hidden == hidden
    {
      this.tree, this.hidden, this.faults, this.stops := tree, hidden, 0, 0;
    }

    /** os.Lstat succeeds; receive takes any error for "not there". */
    method Lstat(p: Path) returns (exists_: bool)
      ensures exists_ ==> p in tree
      ensures p in tree && p !in hidden ==> exists_
    {
      exists_ := *;
      exists_ := p in tree && (p !in hidden || exists_);
    }

    /** One directory, in one that is there. */
    method Mkdir(p: Path) returns (ok: bool)
      requires WellFormed(tree) && p != [] && Parent(p) in tree && tree[Parent(p)].Dir?
      modifies this
      ensures WellFormed(tree) && stops == old(stops)
      ensures tree == if ok && p !in old(tree) then old(tree)[p := Dir] else old(tree)
      ensures ok ==> tree[p].Dir? && faults == old(faults)
      ensures !ok ==> (p in tree && !tree[p].Dir? && faults == old(faults)) || (p !in tree && faults == old(faults) + 1)
    {
      if p in tree {
        return tree[p].Dir?;
      }
      var fails: bool := *;
      if fails {
        faults := faults + 1;
        return false;
      }
      AddDirWellFormed(tree, p);
      tree := tree[p := Dir];
      return true;
    }

    method MkdirAll(p: Path) returns (ok: bool)
      requires WellFormed(tree)
      modifies this
      ensures WellFormed(tree)
      ensures forall q | q in old(tree) :: q in tree && tree[q] == old(tree)[q]
      ensures forall q | q in tree && q !in old(tree) :: tree[q].Dir? && q <= p
      ensures ok ==> p in tree && tree[p].Dir?
      ensures !ok && p in tree ==> p in old(tree)
      ensures old(faults) <= faults && stops == old(stops)
      ensures !ok && faults == old(faults) ==> exists q :: q in old(tree) && q <= p && !old(tree)[q].Dir?
    {
      var k := 0;
      while k < |p|
        invariant k <= |p| && faults == old(faults) && stops == old(stops)
        invariant WellFormed(tree) && p[..k] in tree && tree[p[..k]].Dir?
        invariant forall q | q in old(tree) :: q in tree && tree[q] == old(tree)[q]
        invariant forall q | q in tree && q !in old(tree) :: tree[q].Dir? && q <= p && |q| <= k
      {
        var next := p[..k + 1];
        assert next <= p && Parent(next) == p[..k];
        var made := Mkdir(next);
        if !made {
          return false;
        }
        k := k + 1;
      }
      assert p[..k] == p;
      ok := true;
    }

    /** Writing a file from the start; on failure it may hold anything, or not be there. */
    method WriteFile(p: Path, content: Bytes) returns (ok: bool)
      requires WellFormed(tree)
      modifies this
      ensures WellFormed(tree)
      ensures forall q | q != p :: (q in tree <==> q in old(tree)) && (q in tree ==> tree[q] == old(tree)[q])
      ensures ok ==> p in tree && tree[p] == File(content)
      ensures p in tree ==> tree[p].File? || (p in old(tree) && tree[p] == old(tree)[p])
      ensures old(faults) <= faults && stops == old(stops)
      ensures !ok && faults == old(faults) ==>
                p == [] || Parent(p) !in old(tree) || !old(tree)[Parent(p)].Dir? || (p in old(tree) && !old(tree)[p].File?)
    {
      if p == [] || Parent(p) !in tree || !tree[Parent(p)].Dir? || (p in tree && !tree[p].File?) {
        return false;
      }
      var partial: Bytes :| true;
      ok := *;
      AddFileWellFormed(tree, p, if ok then content else partial);
      tree := tree[p := File(if ok then content else partial)];
      faults := if ok then faults else faults + 1;
    }

    /** Moving a file, over another if one is there. */
    method Rename(from: Path, to: Path) returns (ok: bool)
      requires WellFormed(tree)
      modifies this
      ensures WellFormed(tree)
      ensures if ok then from in old(tree) && old(tree)[from].File? && tree == (old(tree) - {from})[to := old(tree)[from]]
              else tree == old(tree)
      ensures old(faults) <= faults && stops == old(stops)
      ensures !ok && faults == old(faults) ==>
                || from !in tree || !tree[from].File? || to == [] || Parent(to) !in tree || !tree[Parent(to)].Dir?
                || (to in tree && !tree[to].File?)
    {
      if from !in tree || !tree[from].File? || to == [] || Parent(to) !in tree || !tree[Parent(to)].Dir?
         || (to in tree && !tree[to].File?) {
        return false;
      }
      var fails: bool := *;
      if fails {
        faults := faults + 1;
        return false;
      }
      RenameWellFormed(tree, from, to);
      tree := (tree - {from})[to := tree[from]];
      return true;
    }

    /** It may stop partway: of what is under p, any part may be gone. */
    method RemoveAll(p: Path)
      requires WellFormed(tree) && p != []
      modifies this
      ensures WellFormed(tree)
      ensures forall q | !(p <= q) :: (q in tree <==> q in old(tree)) && (q in tree ==> tree[q] == old(tree)[q])
      ensures forall q | q in tree :: q in old(tree) && tree[q] == old(tree)[q]
      ensures faults == old(faults) && old(stops) <= stops
      ensures stops == old(stops) ==> forall q | q in tree :: !(p <= q)
    {
      var stopped: bool := *;
      if stopped {
        stops := stops + 1;
      } else {
        forall q | q in tree && |q| > 0 && !(p <= q)
          ensures !(p <= q[..|q| - 1])
        {
          assert q[..|q| - 1] <= q;
        }
        tree := map q | q in tree && !(p <= q) :: tree[q];
      }
    }
  }

  lemma AddDirWellFormed(t: Tree, p: Path)
    requires WellFormed(t) && p !in t && Parent(p) in t && t[Parent(p)].Dir?
    ensures WellFormed(t[p := Dir])
  {
  }

  lemma AddFileWellFormed(t: Tree, p: Path, content: Bytes)
    requires WellFormed(t) && p != [] && Parent(p) in t && t[Parent(p)].Dir? && (p in t ==> t[p].File?)
    ensures WellFormed(t[p := File(content)])
  {
    assert forall q | q in t && |q| > 0 :: q[..|q| - 1] != p;
  }

  lemma RenameWellFormed(t: Tree, from: Path, to: Path)
    requires WellFormed(t) && from in t && t[from].File? && to != [] && Parent(to) in t && t[Parent(to)].Dir?
    requires to in t ==> t[to].File?
    ensures WellFormed((t - {from})[to := t[from]])
  {
    var u := (t - {from})[to := t[from]];
    forall q | q in u && |q| > 0
      ensures q[..|q| - 1] in u && u[q[..|q| - 1]].Dir?
    {
      assert q == to || q in t;
    }
  }

  datatype ReceiveError = InvalidName | TargetExists | Io

  const DIGITS: string := "0123456789"

  /** fmt.Sprint of an index. */
  function Decimal(n: nat): (s: string)
    ensures |s| > 0
  {
    if n < 10 then [DIGITS[n]] else Decimal(n / 10) + [DIGITS[n % 10]]
  }

  lemma DigitsDiffer(a: nat, b: nat)
    requires a < 10 && b < 10 && DIGITS[a] == DIGITS[b]
    ensures a == b
  {
  }

  lemma {:induction false} DecimalInjective(m: nat, n: nat)
    requires Decimal(m) == Decimal(n)
    ensures m == n
  {
    var a, b := Decimal(m), Decimal(n);
    assert a[|a| - 1] == DIGITS[m % 10] && b[|b| - 1] == DIGITS[n % 10];
    DigitsDiffer(m % 10, n % 10);
    assert m >= 10 ==> a[..|a| - 1] == Decimal(m / 10);
    assert n >= 10 ==> b[..|b| - 1] == Decimal(n / 10);
    if m >= 10 && n >= 10 {
      DecimalInjective(m / 10, n / 10);
    }
  }

  /** Where download puts entry i. */
  function Slot(tmp: Path, i: nat): Path {
    tmp + [Decimal(i)]
  }

  lemma SlotsDiffer(tmp: Path, i: nat, j: nat)
    requires Slot(tmp, i) == Slot(tmp, j)
    ensures i == j
  {
    assert Slot(tmp, i)[|tmp|] == Decimal(i) && Slot(tmp, j)[|tmp|] == Decimal(j);
    DecimalInjective(i, j);
  }

  ghost predicate Fetched(t: Tree, tmp: Path, contents: seq<Bytes>, from: nat) {
    forall k | from <= k < |contents| :: Slot(tmp, k) in t && t[Slot(tmp, k)] == File(contents[k])
  }

  /** Nothing outside the inside of tmp has changed. */
  ghost predicate OnlyInside(old_: Tree, new_: Tree, tmp: Path) {
    forall q | !(tmp < q) :: (q in new_ <==> q in old_) && (q in new_ ==> new_[q] == old_[q])
  }

  lemma FetchedStep(before: Tree, after: Tree, tmp: Path, contents: seq<Bytes>, i: nat)
    requires i < |contents| && Fetched(before, tmp, contents[..i], 0)
    requires forall q | q != Slot(tmp, i) :: (q in after <==> q in before) && (q in after ==> after[q] == before[q])
    requires Slot(tmp, i) in after && after[Slot(tmp, i)] == File(contents[i])
    ensures Fetched(after, tmp, contents[..i + 1], 0)
  {
    forall k | 0 <= k < i + 1
      ensures Slot(tmp, k) in after && after[Slot(tmp, k)] == File(contents[..i + 1][k])
    {
      if k < i {
        assert contents[..i][k] == contents[k];
        if Slot(tmp, k) == Slot(tmp, i) {
          SlotsDiffer(tmp, k, i);
        }
      }
    }
  }

  /** tmp is a directory with no directory or special file where entries go. */
  ghost predicate Fetchable(t: Tree, tmp: Path, count: nat) {
    && tmp in t && t[tmp].Dir?
    && forall i | 0 <= i < count && Slot(tmp, i) in t :: t[Slot(tmp, i)].File?
  }

  /** download, whose order of work ParallelLoops shows to be immaterial. */
  method Download(disk: Disk, tmp: Path, contents: seq<Bytes>) returns (ok: bool)
    requires WellFormed(disk.tree)
    modifies disk
    ensures WellFormed(disk.tree) && OnlyInside(old(disk.tree), disk.tree, tmp)
    ensures ok ==> Fetched(disk.tree, tmp, contents, 0)
    ensures old(disk.faults) <= disk.faults && disk.stops == old(disk.stops)
    ensures Fetchable(old(disk.tree), tmp, |contents|) && disk.faults == old(disk.faults) ==> ok
  {
    ok := true;
    for i := 0 to |contents|
      invariant old(disk.faults) <= disk.faults && disk.stops == old(disk.stops)
      invariant Fetchable(old(disk.tree), tmp, |contents|) ==>
        Fetchable(disk.tree, tmp, |contents|) && (disk.faults == old(disk.faults) ==> ok)
      invariant WellFormed(disk.tree) && OnlyInside(old(disk.tree), disk.tree, tmp)
      invariant ok ==> Fetched(disk.tree, tmp, contents[..i], 0)
    {
      ghost var before := disk.tree;
      var written := disk.WriteFile(Slot(tmp, i), contents[i]);
      assert tmp < Slot(tmp, i) && Parent(Slot(tmp, i)) == tmp;
      if ok && written {
        FetchedStep(before, disk.tree, tmp, contents, i);
      }
      ok := ok && written;
    }
    assert contents[..|contents|] == contents;
  }

  /** A target of a name that will be refused before anything is created. */
  ghost predicate Refusable(t: Tree, hidden: set<Path>, dst: Path, names: seq<string>) {
    exists i :: 0 <= i < |names| && Blocked(t, hidden, dst, names[i])
  }

  ghost predicate Blocked(t: Tree, hidden: set<Path>, dst: Path, name: string) {
    match ExportPath(dst, name)
    case None => true
    case Some(target) => target in t && target !in hidden
  }

  /** The first name to be refused, and why: it is no name, or something is there. */
  ghost predicate FirstRefused(t: Tree, hidden: set<Path>, dst: Path, names: seq<string>, why: ReceiveError) {
    exists i :: 0 <= i < |names| && Blocked(t, {}, dst, names[i])
      && (why == if ExportPath(dst, names[i]).None? then InvalidName else TargetExists)
      && forall k | 0 <= k < i :: !Blocked(t, hidden, dst, names[k])
  }

  /** The first loop of receive: every target, or why not. */
  method Targets(disk: Disk, dst: Path, names: seq<string>) returns (targets: seq<Path>, err: Option<ReceiveError>)
    ensures Refusable(disk.tree, disk.hidden, dst, names) ==> err.Some?
    ensures err.Some? ==> FirstRefused(disk.tree, disk.hidden, dst, names, err.value)
    ensures err.None? ==> |targets| == |names|
    ensures err.None? ==> forall i | 0 <= i < |names| :: ExportPath(dst, names[i]) == Some(targets[i])
  {
    targets := [];
    for i := 0 to |names|
      invariant |targets| == i
      invariant forall k | 0 <= k < i :: ExportPath(dst, names[k]) == Some(targets[k])
      invariant forall k | 0 <= k < i :: !Blocked(disk.tree, disk.hidden, dst, names[k])
    {
      var target := ExportPath(dst, names[i]);
      if target.None? {
        assert Blocked(disk.tree, {}, dst, names[i]);
        return targets, Some(InvalidName);
      }
      var there := disk.Lstat(target.value);
      if there {
        assert Blocked(disk.tree, {}, dst, names[i]);
        return targets, Some(TargetExists);
      }
      targets := targets + [target.value];
    }
    err := None;
  }

  /** The first `count` targets outside tmp and not hidden hold their contents and are all different. */
  ghost predicate Placed(t: Tree, tmp: Path, hidden: set<Path>, targets: seq<Path>, contents: seq<Bytes>, count: nat)
    requires count <= |targets| == |contents|
  {
    && (forall i | 0 <= i < count && !(tmp <= targets[i]) && targets[i] !in hidden ::
          targets[i] in t && t[targets[i]] == File(contents[i]))
    && (forall i, j | 0 <= i < j < count && !(tmp <= targets[i]) && targets[i] !in hidden ::
          targets[i] != targets[j])
  }

  /** Outside tmp, every file that is not a target was there before, just so. */
  ghost predicate OnlyTargets(old_: Tree, new_: Tree, tmp: Path, targets: seq<Path>) {
    forall p | p in new_ && new_[p].File? && !(tmp <= p) && p !in targets :: p in old_ && old_[p] == new_[p]
  }

  /** Everything that was there still is, save perhaps one file; what is new is a directory, or one new file. */
  ghost predicate Grown(old_: Tree, new_: Tree, gone: set<Path>, added: set<Path>) {
    && (forall q | q in old_ && q !in gone :: q in new_ && new_[q] == old_[q])
    && (forall q | q in new_ && q !in old_ && q !in added :: new_[q].Dir?)
  }

  /** Nothing is at the path, and nothing on the way to it but directories. */
  ghost predicate Free(t: Tree, p: Path) {
    p != [] && p !in t && forall q | q in t && q < p :: t[q].Dir?
  }

  /** One turn of the last loop of receive. */
  method MoveOne(disk: Disk, slot: Path, target: Path) returns (err: Option<ReceiveError>)
    requires WellFormed(disk.tree)
    modifies disk
    ensures WellFormed(disk.tree)
    ensures if err.Some? then Grown(old(disk.tree), disk.tree, {}, {})
            else && (target in old(disk.tree) ==> target in disk.hidden) && slot in old(disk.tree)
                 && target in disk.tree && disk.tree[target] == old(disk.tree)[slot]
                 && Grown(old(disk.tree), disk.tree, {slot} + ({target} * disk.hidden), {target})
    ensures forall q | q in disk.tree && q !in old(disk.tree) :: q <= target
    ensures err == Some(TargetExists) ==> target in old(disk.tree) && disk.tree == old(disk.tree)
    ensures target in old(disk.tree) && target !in disk.hidden ==> err == Some(TargetExists)
    ensures old(disk.faults) <= disk.faults && disk.stops == old(disk.stops)
    ensures err.Some? && disk.faults == old(disk.faults) ==>
              !Free(old(disk.tree), target) || slot !in old(disk.tree) || !old(disk.tree)[slot].File?
  {
    var there := disk.Lstat(target);
    if there {
      return Some(TargetExists);
    }
    var ok := disk.MkdirAll(Parent(target));
    if !ok {
      return Some(Io);
    }
    ghost var made := disk.tree;
    ok := disk.Rename(slot, target);
    if !ok {
      return Some(Io);
    }
    assert slot in made && made[slot].File?;
    assert !(target <= Parent(target));
    err := None;
  }

  ghost predicate Progress(start: Tree, t: Tree, tmp: Path, hidden: set<Path>, targets: seq<Path>, contents: seq<Bytes>, count: nat)
    requires count <= |targets| == |contents|
  {
    && KeptOutside(start, t, tmp, hidden) && OnlyTargets(start, t, tmp, targets)
    && Fetched(t, tmp, contents, count) && Placed(t, tmp, hidden, targets, contents, count)
  }

  lemma MoveFails(start: Tree, t: Tree, u: Tree, tmp: Path, hidden: set<Path>, targets: seq<Path>)
    requires KeptOutside(start, t, tmp, hidden) && OnlyTargets(start, t, tmp, targets)
    requires Grown(t, u, {}, {})
    ensures KeptOutside(start, u, tmp, hidden) && OnlyTargets(start, u, tmp, targets)
  {
  }

  lemma MoveKeeps(start: Tree, t: Tree, u: Tree, tmp: Path, hidden: set<Path>, targets: seq<Path>, i: nat)
    requires i < |targets| && KeptOutside(start, t, tmp, hidden) && OnlyTargets(start, t, tmp, targets)
    requires tmp <= Slot(tmp, i)
    requires Grown(t, u, {Slot(tmp, i)} + ({targets[i]} * hidden), {targets[i]})
    ensures KeptOutside(start, u, tmp, hidden) && OnlyTargets(start, u, tmp, targets)
  {
  }

  lemma MoveLeavesSlots(t: Tree, u: Tree, tmp: Path, hidden: set<Path>, targets: seq<Path>, contents: seq<Bytes>, i: nat)
    requires i < |targets| == |contents| && Fetched(t, tmp, contents, i)
    requires forall q | q in hidden :: !(tmp <= q)
    requires Grown(t, u, {Slot(tmp, i)} + ({targets[i]} * hidden), {targets[i]})
    ensures Fetched(u, tmp, contents, i + 1)
  {
    forall k | i < k < |contents|
      ensures Slot(tmp, k) in u && u[Slot(tmp, k)] == File(contents[k])
    {
      assert tmp <= Slot(tmp, k);
      if Slot(tmp, k) == Slot(tmp, i) {
        SlotsDiffer(tmp, k, i);
      }
    }
  }

  lemma MovePlaces(t: Tree, u: Tree, tmp: Path, hidden: set<Path>, targets: seq<Path>, contents: seq<Bytes>, i: nat)
    requires i < |targets| == |contents| && Placed(t, tmp, hidden, targets, contents, i)
    requires tmp <= Slot(tmp, i)
    requires targets[i] in t ==> targets[i] in hidden
    requires targets[i] in u && u[targets[i]] == File(contents[i])
    requires Grown(t, u, {Slot(tmp, i)} + ({targets[i]} * hidden), {targets[i]})
    ensures Placed(u, tmp, hidden, targets, contents, i + 1)
  {
  }

  lemma MoveStep(start: Tree, t: Tree, u: Tree, tmp: Path, hidden: set<Path>, targets: seq<Path>, contents: seq<Bytes>, i: nat)
    requires i < |targets| == |contents| && Progress(start, t, tmp, hidden, targets, contents, i)
    requires forall q | q in hidden :: !(tmp <= q)
    requires targets[i] in t ==> targets[i] in hidden
    requires targets[i] in u && u[targets[i]] == File(contents[i])
    requires Grown(t, u, {Slot(tmp, i)} + ({targets[i]} * hidden), {targets[i]})
    ensures Progress(start, u, tmp, hidden, targets, contents, i + 1)
  {
    assert tmp <= Slot(tmp, i);
    MoveKeeps(start, t, u, tmp, hidden, targets, i);
    MoveLeavesSlots(t, u, tmp, hidden, targets, contents, i);
    MovePlaces(t, u, tmp, hidden, targets, contents, i);
  }

  /** No path is, or contains, another. */
  ghost predicate Apart(targets: seq<Path>) {
    forall i, j | 0 <= i < |targets| && 0 <= j < |targets| && i != j :: !(targets[i] <= targets[j])
  }

  /** Every target is free, apart from the others, and outside tmp. */
  ghost predicate Movable(t: Tree, tmp: Path, targets: seq<Path>, from: nat) {
    && Apart(targets)
    && (forall i | 0 <= i < |targets| :: !(tmp <= targets[i]))
    && forall i | from <= i < |targets| :: Free(t, targets[i])
  }

  /** What is on the way to a path outside tmp is outside tmp. */
  lemma NotUnder(tmp: Path, q: Path, r: Path)
    requires q <= r && !(tmp <= r)
    ensures !(tmp <= q)
  {
  }

  lemma StaysMovable(t: Tree, u: Tree, tmp: Path, hidden: set<Path>, targets: seq<Path>, i: nat)
    requires i < |targets| && Movable(t, tmp, targets, i)
    requires Grown(t, u, {Slot(tmp, i)} + ({targets[i]} * hidden), {targets[i]})
    requires forall q | q in u && q !in t :: q <= targets[i]
    ensures Movable(u, tmp, targets, i + 1)
  {
    forall k | i + 1 <= k < |targets|
      ensures Free(u, targets[k])
    {
      assert Free(t, targets[k]) && Free(t, targets[i]);
      forall q | q in u && q < targets[k]
        ensures u[q].Dir?
      {
        NotUnder(tmp, q, targets[k]);
      }
    }
  }

  /** The last loop of receive, moving each file out to its target. */
  method MoveOut(disk: Disk, tmp: Path, targets: seq<Path>, contents: seq<Bytes>) returns (err: Option<ReceiveError>)
    requires WellFormed(disk.tree) && |targets| == |contents| && Fetched(disk.tree, tmp, contents, 0)
    requires forall q | q in disk.hidden :: !(tmp <= q)
    modifies disk
    ensures WellFormed(disk.tree) && KeptOutside(old(disk.tree), disk.tree, tmp, disk.hidden)
    ensures OnlyTargets(old(disk.tree), disk.tree, tmp, targets)
    ensures err.None? ==> Placed(disk.tree, tmp, disk.hidden, targets, contents, |targets|)
    ensures old(disk.faults) <= disk.faults && disk.stops == old(disk.stops)
    ensures Movable(old(disk.tree), tmp, targets, 0) && disk.faults == old(disk.faults) ==> err.None?
  {
    ghost var start := disk.tree;
    for i := 0 to |targets|
      invariant old(disk.faults) <= disk.faults && disk.stops == old(disk.stops)
      invariant Movable(start, tmp, targets, 0) ==> Movable(disk.tree, tmp, targets, i)
      invariant WellFormed(disk.tree) && Progress(start, disk.tree, tmp, disk.hidden, targets, contents, i)
    {
      ghost var before := disk.tree;
      err := MoveOne(disk, Slot(tmp, i), targets[i]);
      if err.Some? {
        MoveFails(start, before, disk.tree, tmp, disk.hidden, targets);
        return;
      }
      assert before[Slot(tmp, i)] == File(contents[i]);
      MoveStep(start, before, disk.tree, tmp, disk.hidden, targets, contents, i);
      if Movable(start, tmp, targets, 0) {
        StaysMovable(before, disk.tree, tmp, disk.hidden, targets, i);
      }
    }
    err := None;
  }

  /** The targets of the names. */
  ghost predicate AreTargets(dst: Path, names: seq<string>, targets: seq<Path>) {
    |targets| == |names| && forall i | 0 <= i < |names| :: ExportPath(dst, names[i]) == Some(targets[i])
  }

  lemma NotAbove(dst: Path, name: string, p: Path)
    requires dst < p && !(dst + [name] <= p)
    ensures !(p <= dst + [name])
  {
  }

  /**
   A collection there is room for: every name is good, the targets are free, apart and outside tmp,
   tmp is a directory or can be made one, and holds nothing in the entries' places but files.
   */
  ghost predicate Receivable(t: Tree, dst: Path, tmp: Path, names: seq<string>) {
    && (forall i | 0 <= i < |names| :: ExportPath(dst, names[i]).Some?)
    && (forall targets | AreTargets(dst, names, targets) ::
          && Movable(t, tmp, targets, 0)
          && forall i | 0 <= i < |targets| && Slot(tmp, i) in t :: t[Slot(tmp, i)].File?)
    && forall q | q in t && q <= tmp :: t[q].Dir?
  }

  lemma ReceivableIsRoomy(t: Tree, dst: Path, tmpName: string, names: seq<string>, targets: seq<Path>)
    requires Receivable(t, dst, dst + [tmpName], names) && AreTargets(dst, names, targets)
    ensures Roomy(t, dst + [tmpName], targets)
  {
    assert Movable(t, dst + [tmpName], targets, 0);
    forall i | 0 <= i < |targets| ensures !(targets[i] <= dst + [tmpName]) {
      ExportStaysInside(dst, names[i], names[i]);
      NotAbove(dst, tmpName, targets[i]);
    }
  }

  /** Making tmp leaves the targets free. */
  lemma MkdirKeepsMovable(t: Tree, u: Tree, tmp: Path, targets: seq<Path>)
    requires Movable(t, tmp, targets, 0) && forall i | 0 <= i < |targets| :: !(targets[i] <= tmp)
    requires forall q | q in t :: q in u && u[q] == t[q]
    requires forall q | q in u && q !in t :: u[q].Dir? && q <= tmp
    ensures Movable(u, tmp, targets, 0)
  {
    forall i | 0 <= i < |targets|
      ensures Free(u, targets[i])
    {
      assert Free(t, targets[i]);
    }
  }

  /** And so does filling it. */
  lemma DownloadKeepsMovable(u: Tree, v: Tree, tmp: Path, targets: seq<Path>)
    requires Movable(u, tmp, targets, 0) && OnlyInside(u, v, tmp)
    ensures Movable(v, tmp, targets, 0)
  {
    forall i | 0 <= i < |targets|
      ensures Free(v, targets[i])
    {
      assert Free(u, targets[i]);
      forall q | q in v && q < targets[i]
        ensures v[q].Dir?
      {
        NotUnder(tmp, q, targets[i]);
      }
    }
  }

  lemma NotRefused(t: Tree, dst: Path, tmp: Path, names: seq<string>)
    ensures Receivable(t, dst, tmp, names) ==> !Refusable(t, {}, dst, names)
  {
    if Receivable(t, dst, tmp, names) {
      var targets := seq(|names|, i requires 0 <= i < |names| => ExportPath(dst, names[i]).value);
      assert AreTargets(dst, names, targets);
      forall i | 0 <= i < |names| ensures !Blocked(t, {}, dst, names[i]) {
        assert Free(t, targets[i]);
      }
    }
  }

  lemma KeptOn(start: Tree, t: Tree, u: Tree, tmp: Path, hidden: set<Path>, targets: seq<Path>)
    requires KeptOutside(start, t, tmp, hidden) && OnlyTargets(start, t, tmp, targets)
    requires KeptOutside(t, u, tmp, hidden) && OnlyTargets(t, u, tmp, targets)
    ensures KeptOutside(start, u, tmp, hidden) && OnlyTargets(start, u, tmp, targets)
  {
  }

  /** Removing the temporary directory disturbs nothing outside it. */
  lemma Cleaned(start: Tree, t: Tree, u: Tree, tmp: Path, hidden: set<Path>, targets: seq<Path>, contents: seq<Bytes>)
    requires |targets| == |contents| && KeptOutside(start, t, tmp, hidden) && OnlyTargets(start, t, tmp, targets)
    requires forall q | !(tmp <= q) :: (q in u <==> q in t) && (q in u ==> u[q] == t[q])
    ensures KeptOutside(start, u, tmp, hidden) && OnlyTargets(start, u, tmp, targets)
    ensures Placed(t, tmp, hidden, targets, contents, |targets|) ==> Placed(u, tmp, hidden, targets, contents, |targets|)
  {
  }

  /** receive from the download on, with the deferred removal of tmp. */
  method FetchAndMove(disk: Disk, tmp: Path, targets: seq<Path>, contents: seq<Bytes>) returns (err: Option<ReceiveError>)
    requires WellFormed(disk.tree) && |targets| == |contents| && tmp != []
    requires forall q | q in disk.hidden :: !(tmp <= q)
    modifies disk
    ensures WellFormed(disk.tree) && KeptOutside(old(disk.tree), disk.tree, tmp, disk.hidden)
    ensures OnlyTargets(old(disk.tree), disk.tree, tmp, targets)
    ensures err.None? ==> Placed(disk.tree, tmp, disk.hidden, targets, contents, |targets|)
    ensures old(disk.faults) <= disk.faults && old(disk.stops) <= disk.stops
    ensures disk.stops == old(disk.stops) ==> forall q | q in disk.tree :: !(tmp <= q)
    ensures
      && Fetchable(old(disk.tree), tmp, |contents|) && Movable(old(disk.tree), tmp, targets, 0)
      && disk.faults == old(disk.faults)
      ==> err.None?
  {
    ghost var start := disk.tree;
    var ok := Download(disk, tmp, contents);
    ghost var fetched := disk.tree;
    if Movable(start, tmp, targets, 0) {
      DownloadKeepsMovable(start, fetched, tmp, targets);
    }
    if ok {
      err := MoveOut(disk, tmp, targets, contents);
    } else {
      err := Some(Io);
    }
    ghost var moved := disk.tree;
    KeptOn(start, fetched, moved, tmp, disk.hidden, targets);
    disk.RemoveAll(tmp);
    Cleaned(start, moved, disk.tree, tmp, disk.hidden, targets, contents);
  }

  /** There is room for the targets, and for tmp and what is to be put into it. */
  ghost predicate Roomy(t: Tree, tmp: Path, targets: seq<Path>) {
    && Movable(t, tmp, targets, 0)
    && (forall i | 0 <= i < |targets| :: !(targets[i] <= tmp))
    && (forall q | q in t && q <= tmp :: t[q].Dir?)
    && forall i | 0 <= i < |targets| && Slot(tmp, i) in t :: t[Slot(tmp, i)].File?
  }

  lemma SlotsStayFiles(t: Tree, u: Tree, tmp: Path, count: nat)
    requires forall i | 0 <= i < count && Slot(tmp, i) in t :: t[Slot(tmp, i)].File?
    requires forall q | q in t :: q in u && u[q] == t[q]
    requires forall q | q in u && q !in t :: q <= tmp
    requires tmp in u && u[tmp].Dir?
    ensures Fetchable(u, tmp, count)
  {
    assert forall i: nat :: tmp < Slot(tmp, i);
  }

  /** Making directories on the way to tmp keeps what was there, and makes no file. */
  lemma MkdirKeeps(t: Tree, u: Tree, tmp: Path, hidden: set<Path>, targets: seq<Path>)
    requires forall q | q in t :: q in u && u[q] == t[q]
    requires forall q | q in u && q !in t :: u[q].Dir? && q <= tmp
    ensures KeptOutside(t, u, tmp, hidden) && OnlyTargets(t, u, tmp, targets)
    ensures tmp !in u || tmp in t ==> forall q | q in u && tmp <= q :: q in t
  {
    forall q | q in u && tmp <= q && q !in t
      ensures q == tmp
    {
    }
  }

  lemma RoomyOnceMade(t: Tree, u: Tree, tmp: Path, targets: seq<Path>)
    requires Roomy(t, tmp, targets)
    requires forall q | q in t :: q in u && u[q] == t[q]
    requires forall q | q in u && q !in t :: u[q].Dir? && q <= tmp
    requires tmp in u && u[tmp].Dir?
    ensures Fetchable(u, tmp, |targets|) && Movable(u, tmp, targets, 0)
  {
    MkdirKeepsMovable(t, u, tmp, targets);
    SlotsStayFiles(t, u, tmp, |targets|);
  }

  /** receive once the targets are chosen. */
  method ReceiveInto(disk: Disk, tmp: Path, targets: seq<Path>, contents: seq<Bytes>) returns (err: Option<ReceiveError>)
    requires WellFormed(disk.tree) && |targets| == |contents| && tmp != []
    requires forall q | q in disk.hidden :: !(tmp <= q)
    modifies disk
    ensures WellFormed(disk.tree) && KeptOutside(old(disk.tree), disk.tree, tmp, disk.hidden)
    ensures OnlyTargets(old(disk.tree), disk.tree, tmp, targets)
    ensures err.None? ==> Placed(disk.tree, tmp, disk.hidden, targets, contents, |targets|)
    ensures old(disk.faults) <= disk.faults && old(disk.stops) <= disk.stops
    ensures disk.stops == old(disk.stops) ==>
              forall q | q in disk.tree && tmp <= q :: q in old(disk.tree) && err.Some?
    ensures Roomy(old(disk.tree), tmp, targets) && disk.faults == old(disk.faults) ==> err.None?
  {
    ghost var start := disk.tree;
    var ok := disk.MkdirAll(tmp);
    ghost var made := disk.tree;
    MkdirKeeps(start, made, tmp, disk.hidden, targets);
    if !ok {
      return Some(Io);
    }
    if Roomy(start, tmp, targets) {
      RoomyOnceMade(start, made, tmp, targets);
    }
    err := FetchAndMove(disk, tmp, targets, contents);
    KeptOn(start, made, disk.tree, tmp, disk.hidden, targets);
  }

  /** Every entry is at its own new place under dst, and nothing else is new, leaving tmp and what is hidden aside. */
  ghost predicate Received(old_: Tree, new_: Tree, hidden: set<Path>, dst: Path, tmp: Path, names: seq<string>, contents: seq<Bytes>) {
    |names| == |contents| && exists targets ::
      && |targets| == |names|
      && (forall i | 0 <= i < |names| :: ExportPath(dst, names[i]) == Some(targets[i]))
      && (forall i | 0 <= i < |names| && targets[i] in old_ :: targets[i] in hidden)
      && Placed(new_, tmp, hidden, targets, contents, |targets|)
      && OnlyTargets(old_, new_, tmp, targets)
  }

  /** receive, from the collection on. */
  method Receive(disk: Disk, dst: Path, tmpName: string, names: seq<string>, contents: seq<Bytes>) returns (err: Option<ReceiveError>)
    requires WellFormed(disk.tree) && |names| == |contents|
    requires forall q | q in disk.hidden :: !(dst + [tmpName] <= q)
    modifies disk
    ensures WellFormed(disk.tree) && KeptOutside(old(disk.tree), disk.tree, dst + [tmpName], disk.hidden)
    ensures Refusable(old(disk.tree), disk.hidden, dst, names) ==> err.Some? && disk.tree == old(disk.tree)
    ensures err.None? ==>
              Received(old(disk.tree), disk.tree, disk.hidden, dst, dst + [tmpName], names, contents)
    ensures old(disk.faults) <= disk.faults && old(disk.stops) <= disk.stops
    ensures disk.stops == old(disk.stops) ==>
              forall q | q in disk.tree && dst + [tmpName] <= q :: q in old(disk.tree) && err.Some?
    ensures Receivable(old(disk.tree), dst, dst + [tmpName], names) && disk.faults == old(disk.faults) ==> err.None?
  {
    var targets;
    targets, err := Targets(disk, dst, names);
    NotRefused(disk.tree, dst, dst + [tmpName], names);
    if err.Some? {
      return;
    }
    if Receivable(disk.tree, dst, dst + [tmpName], names) {
      ReceivableIsRoomy(disk.tree, dst, tmpName, names, targets);
    }
    err := ReceiveInto(disk, dst + [tmpName], targets, contents);
    if err.None? {
      assert forall i | 0 <= i < |names| :: !Blocked(old(disk.tree), disk.hidden, dst, names[i]);
    }
  }

  /** So on success no entry's place outside tmp contains another's. */
  lemma PlacedApart(t: Tree, tmp: Path, hidden: set<Path>, targets: seq<Path>, contents: seq<Bytes>, i: nat, j: nat)
    requires WellFormed(t) && |targets| == |contents| && Placed(t, tmp, hidden, targets, contents, |targets|)
    requires i < |targets| && j < |targets| && i != j && !(tmp <= targets[i]) && !(tmp <= targets[j])
    requires targets[i] !in hidden && targets[j] !in hidden
    ensures !(targets[i] <= targets[j])
  {
    if targets[i] < targets[j] {
      PrefixIsDir(t, targets[i], targets[j]);
    }
  }
}
