/** The README against the tree, and the catalog made from both (catalog.go:73-96, 173-202). */
module Load {
  import opened Common
  import opened Catalog
  import opened CatalogTheorems
  import Slug

  datatype Disagreement = Both(extra: seq<string>, missing: seq<string>)
                        | Omits(missing: seq<string>) | Lists(extra: seq<string>)

  /** The names that the others do not have, in order. */
  function Without(names: seq<string>, others: seq<string>): (r: seq<string>)
    ensures forall n | n in names && n !in others :: n in r
    ensures forall n | n in r :: n in names && n !in others
  {
    if names == [] then []
    else
      var n := names[|names| - 1];
      Without(names[..|names| - 1], others) + if n in others then [] else [n]
  }

  ghost predicate SameNames(a: seq<string>, b: seq<string>) {
    forall n :: n in a <==> n in b
  }

  method Marked(names: seq<string>) returns (marks: map<string, bool>)
    ensures marks.Keys == set n | n in names
  {
    marks := map[];
    for i := 0 to |names|
      invariant marks.Keys == set n | n in names[..i]
    {
      assert names[..i + 1] == names[..i] + [names[i]];
      marks := marks[names[i] := true];
    }
    assert names[..|names|] == names;
  }

  method Unmarked(names: seq<string>, marks: map<string, bool>, others: seq<string>) returns (r: seq<string>)
    requires marks.Keys == set n | n in others
    ensures r == Without(names, others)
  {
    r := [];
    for i := 0 to |names|
      invariant r == Without(names[..i], others)
    {
      assert names[..i + 1][..i] == names[..i];
      assert names[i] in marks <==> names[i] in others;
      if names[i] !in marks {
        r := r + [names[i]];
      }
    }
    assert names[..|names|] == names;
  }

  lemma NothingWithout(order: seq<string>, dirs: seq<string>)
    ensures SameNames(order, dirs) <==> Without(dirs, order) == [] && Without(order, dirs) == []
  {
    var missing, extra := Without(dirs, order), Without(order, dirs);
    assert missing != [] ==> missing[0] in missing;
    assert extra != [] ==> extra[0] in extra;
  }

  /** The disagreement names all that the README lacks and all that it has too many of, and is of the kind that fits. */
  ghost predicate Pinpoints(how: Disagreement, order: seq<string>, dirs: seq<string>) {
    var missing, extra := Without(dirs, order), Without(order, dirs);
    match how
    case Both(e, m) => e == extra && m == missing && e != [] && m != []
    case Omits(m) => m == missing && m != [] && extra == []
    case Lists(e) => e == extra && e != [] && missing == []
  }

  method Agree(order: seq<string>, dirs: seq<string>) returns (r: Option<Disagreement>)
    ensures r.None? <==> SameNames(order, dirs)
    ensures r.Some? ==> Pinpoints(r.value, order, dirs)
  {
    var listed := Marked(order);
    var present := Marked(dirs);
    var missing := Unmarked(dirs, listed, order);
    var extra := Unmarked(order, present, dirs);
    NothingWithout(order, dirs);
    if |missing| > 0 && |extra| > 0 {
      r := Some(Both(extra, missing));
    } else if |missing| > 0 {
      r := Some(Omits(missing));
    } else if |extra| > 0 {
      r := Some(Lists(extra));
    } else {
      r := None;
    }
  }

  /** An example: its directory, its group's key, and what scanDir made of the directory. */
  datatype Example<T> = Example(dir: string, group: string, rest: T)

  datatype Loaded<T> = Loaded(groups: seq<Group>, examples: seq<Example<T>>)

  datatype Problem = NoReadme | BadReadme(failure: Failure) | NoTree | Differ(how: Disagreement) | BadExample(name: string)

  /** The first listed directory that cannot be scanned. */
  ghost predicate FirstUnscanned<T>(order: seq<string>, scan: string -> Option<T>, name: string) {
    exists i :: 0 <= i < |order| && order[i] == name && scan(name).None?
      && forall k | 0 <= k < i :: scan(order[k]).Some?
  }

  /**
   Load: README's lines and the directories under cmd, None where reading them fails, and what
   scanDir gives for each directory.
   */
  method Load<T>(lower: char -> char, readme: Option<seq<string>>, dirs: Option<seq<string>>,
                 scan: string -> Option<T>)
    returns (r: Result<Loaded<T>, Problem>)
    ensures r.Ok? <==>
      && readme.Some? && dirs.Some?
      && Expected(t => Slug.Slug(lower, t), readme.value).Ok?
      && var o := Expected(t => Slug.Slug(lower, t), readme.value).value;
         && SameNames(o.order, dirs.value)
         && forall n | n in o.order :: scan(n).Some?
    ensures r.Ok? ==>
      var o := Expected(t => Slug.Slug(lower, t), readme.value).value;
      && r.value.groups == o.groups
      && |r.value.examples| == |o.order|
      && forall i | 0 <= i < |o.order| ::
           o.order[i] in o.group && scan(o.order[i]).Some?
           && r.value.examples[i] == Example(o.order[i], o.group[o.order[i]], scan(o.order[i]).value)
    ensures r.Err? ==>
      match r.error
      case NoReadme => readme.None?
      case BadReadme(e) => readme.Some? && Expected(t => Slug.Slug(lower, t), readme.value) == Err(e)
      case NoTree => dirs.None?
      case Differ(how) =>
        && readme.Some? && dirs.Some? && Expected(t => Slug.Slug(lower, t), readme.value).Ok?
        && var order := Expected(t => Slug.Slug(lower, t), readme.value).value.order;
           !SameNames(order, dirs.value) && Pinpoints(how, order, dirs.value)
      case BadExample(name) =>
        && readme.Some? && dirs.Some? && Expected(t => Slug.Slug(lower, t), readme.value).Ok?
        && FirstUnscanned(Expected(t => Slug.Slug(lower, t), readme.value).value.order, scan, name)
  {
    if readme.None? {
      return Err(NoReadme);
    }
    var read := Progression(lower, readme.value);
    if read.Err? {
      return Err(BadReadme(read.error));
    }
    if dirs.None? {
      return Err(NoTree);
    }
    var o := read.value;
    var how := Agree(o.order, dirs.value);
    if how.Some? {
      return Err(Differ(how.value));
    }
    AcceptedExactly(t => Slug.Slug(lower, t), readme.value);
    var examples := [];
    for i := 0 to |o.order|
      invariant |examples| == i
      invariant forall k | 0 <= k < i ::
        o.order[k] in o.group && scan(o.order[k]).Some?
        && examples[k] == Example(o.order[k], o.group[o.order[k]], scan(o.order[k]).value)
    {
      assert o.order[i] in o.order;
      var scanned := scan(o.order[i]);
      if scanned.None? {
        assert FirstUnscanned(o.order, scan, o.order[i]);
        return Err(BadExample(o.order[i]));
      }
      examples := examples + [Example(o.order[i], o.group[o.order[i]], scanned.value)];
    }
    r := Ok(Loaded(o.groups, examples));
  }

  lemma {:induction false} CountDistinct(names: seq<string>, name: string)
    requires Distinct(names)
    ensures multiset(names)[name] == if name in names then 1 else 0
  {
    if names != [] {
      var n := |names| - 1;
      assert names == names[..n] + [names[n]];
      CountDistinct(names[..n], name);
    }
  }

  lemma OnceEach(a: seq<string>, b: seq<string>)
    requires Distinct(a) && Distinct(b)
    ensures SameNames(a, b) <==> multiset(a) == multiset(b)
  {
    forall n: string
      ensures multiset(a)[n] == (if n in a then 1 else 0)
      ensures multiset(b)[n] == (if n in b then 1 else 0)
    {
      CountDistinct(a, n);
      CountDistinct(b, n);
    }
    if multiset(a) == multiset(b) {
      forall n: string ensures n in a <==> n in b {
        assert multiset(a)[n] == multiset(b)[n];
      }
    }
  }

  /** A README that is accepted and agrees with the tree lists every directory exactly once. */
  lemma EachDirectoryOnce(key: string -> string, lines: seq<string>, dirs: seq<string>)
    requires Expected(key, lines).Ok? && Distinct(dirs)
    ensures SameNames(Expected(key, lines).value.order, dirs)
            <==> multiset(Expected(key, lines).value.order) == multiset(dirs)
  {
    AcceptedExactly(key, lines);
    OnceEach(Expected(key, lines).value.order, dirs);
  }
}
