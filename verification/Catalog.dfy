/**
 The README's reading order and its check against the tree (internal/catalog/catalog.go:73-96,
 109-147, 173-202).

 progression cuts the section out, collects its headings, and then reads the rows between each
 two. Two references stand beside it: a scanner that reads the section once from the top, and
 the list of sections with their rows. `key` is the slug of a title.
 */
module Catalog {
  import opened Common
  import opened ReadmeLines
  import Slug

  datatype Group = Group(key: string, title: string)

  datatype Outline = Outline(groups: seq<Group>, order: seq<string>, group: map<string, string>)

  datatype Failure = NoSection | NoGroups | Twice(name: string)

  function Read(key: string -> string, o: Outline, mark: Mark): Result<Outline, Failure> {
    match mark
    case Text => Ok(o)
    case Heading(title) => Ok(o.(groups := o.groups + [Group(key(title), title)]))
    case Entry(name) =>
      if o.groups == [] then Ok(o)
      else if name in o.group then Err(Twice(name))
      else Ok(o.(order := o.order + [name],
                 group := o.group[name := o.groups[|o.groups| - 1].key]))
  }

  /** The first reference: one pass, line by line, up to the first name that comes again. */
  function Scan(key: string -> string, body: seq<Mark>): Result<Outline, Failure> {
    if body == [] then Ok(Outline([], [], map[]))
    else
      match Scan(key, body[..|body| - 1])
      case Err(e) => Err(e)
      case Ok(o) => Read(key, o, body[|body| - 1])
  }

  /** The lines before the next top heading. */
  function Cut(lines: seq<string>): seq<string> {
    if lines == [] || IsTop(lines[0]) then [] else [lines[0]] + Cut(lines[1..])
  }

  function Body(lines: seq<string>): Option<seq<string>> {
    if lines == [] then None
    else if IsProgression(lines[0]) then Some(Cut(lines[1..]))
    else Body(lines[1..])
  }

  function Marks(lines: seq<string>): seq<Mark> {
    seq(|lines|, i requires 0 <= i < |lines| => MarkOf(lines[i]))
  }

  function Expected(key: string -> string, lines: seq<string>): Result<Outline, Failure> {
    match Body(lines)
    case None => Err(NoSection)
    case Some(body) =>
      match Scan(key, Marks(body))
      case Err(e) => Err(e)
      case Ok(o) => if o.groups == [] then Err(NoGroups) else Ok(o)
  }

  // ---- progression ----

  lemma {:induction false} BodyFrom(lines: seq<string>, i: nat)
    requires i <= |lines| && forall j | 0 <= j < i :: !IsProgression(lines[j])
    ensures Body(lines) == Body(lines[i..])
  {
    if i == 0 {
      assert lines[0..] == lines;
    } else {
      BodyFrom(lines[1..], i - 1);
      assert lines[1..][i - 1..] == lines[i..];
    }
  }

  lemma {:induction false} CutAt(lines: seq<string>, i: nat)
    requires i <= |lines| && forall j | 0 <= j < i :: !IsTop(lines[j])
    requires i == |lines| || IsTop(lines[i])
    ensures Cut(lines) == lines[..i]
  {
    if i > 0 {
      CutAt(lines[1..], i - 1);
      assert [lines[0]] + lines[1..][..i - 1] == lines[..i];
    }
  }

  /** The text between the heading and the next top heading. */
  method FindBody(lines: seq<string>) returns (r: Option<seq<string>>)
    ensures r == Body(lines)
  {
    var i := 0;
    while i < |lines| && !IsProgression(lines[i])
      invariant 0 <= i <= |lines|
      invariant forall j | 0 <= j < i :: !IsProgression(lines[j])
    {
      i := i + 1;
    }
    BodyFrom(lines, i);
    if i == |lines| {
      return None;
    }
    var body := lines[i + 1..];
    assert lines[i..][1..] == body;
    var stop := 0;
    while stop < |body| && !IsTop(body[stop])
      invariant 0 <= stop <= |body|
      invariant forall j | 0 <= j < stop :: !IsTop(body[j])
    {
      stop := stop + 1;
    }
    CutAt(body, stop);
    r := Some(body[..stop]);
  }

  /** The positions of the headings, in order, with nothing but rows and text between. */
  ghost predicate AreHeadings(body: seq<Mark>, at: seq<nat>) {
    && (forall i | 0 <= i < |at| :: at[i] < |body| && body[at[i]].Heading?)
    && (forall i, j | 0 <= i < j < |at| :: at[i] < at[j])
    && forall k | 0 <= k < |body| && body[k].Heading? :: k in at
  }

  method FindSections(body: seq<Mark>) returns (at: seq<nat>)
    ensures AreHeadings(body, at)
  {
    at := [];
    for k := 0 to |body|
      invariant forall i | 0 <= i < |at| :: at[i] < k && body[at[i]].Heading?
      invariant forall i, j | 0 <= i < j < |at| :: at[i] < at[j]
      invariant forall m | 0 <= m < k && body[m].Heading? :: m in at
    {
      if body[k].Heading? {
        at := at + [k];
      }
    }
  }

  function Next(body: seq<Mark>, at: seq<nat>, i: nat): nat {
    if i < |at| then at[i] else |body|
  }

  lemma Between(body: seq<Mark>, at: seq<nat>, i: nat, k: nat)
    requires AreHeadings(body, at) && i <= |at|
    requires k < Next(body, at, i) && k < |body|
    requires i > 0 ==> at[i - 1] < k
    ensures !body[k].Heading?
  {
    forall a | 0 <= a < |at| ensures at[a] != k {
      if a < i {
        assert at[a] <= at[i - 1];
      } else {
        assert at[i] <= at[a];
      }
    }
  }

  lemma ScanMore(key: string -> string, body: seq<Mark>, k: nat)
    requires k < |body| && Scan(key, body[..k]).Ok?
    ensures Scan(key, body[..k + 1]) == Read(key, Scan(key, body[..k]).value, body[k])
  {
    assert body[..k + 1][..k] == body[..k];
  }

  lemma {:induction false} ErrorStays(key: string -> string, body: seq<Mark>, k: nat)
    requires k <= |body| && Scan(key, body[..k]).Err?
    ensures Scan(key, body) == Scan(key, body[..k])
    decreases |body|
  {
    if k < |body| {
      var n := |body| - 1;
      assert body[..n][..k] == body[..k];
      ErrorStays(key, body[..n], k);
    } else {
      assert body[..k] == body;
    }
  }

  lemma {:induction false} NoGroupsYet(key: string -> string, body: seq<Mark>)
    requires forall k | 0 <= k < |body| :: !body[k].Heading?
    ensures Scan(key, body) == Ok(Outline([], [], map[]))
  {
    if body != [] {
      NoGroupsYet(key, body[..|body| - 1]);
    }
  }

  /** The rows from `start` to `end`, all below the last heading read. */
  method ReadRows(key: string -> string, body: seq<Mark>, start: nat, end: nat, o: Outline)
    returns (r: Result<Outline, Failure>)
    requires start <= end <= |body|
    requires Scan(key, body[..start]) == Ok(o) && o.groups != []
    requires forall k | start <= k < end :: !body[k].Heading?
    ensures r.Ok? ==> Scan(key, body[..end]) == r
    ensures r.Err? ==> Scan(key, body) == r
  {
    var order, group := o.order, o.group;
    for k := start to end
      invariant Scan(key, body[..k]) == Ok(Outline(o.groups, order, group))
    {
      ScanMore(key, body, k);
      match body[k] {
        case Entry(name) =>
          if name in group {
            ErrorStays(key, body, k + 1);
            return Err(Twice(name));
          }
          order := order + [name];
          group := group[name := o.groups[|o.groups| - 1].key];
        case _ =>
      }
    }
    r := Ok(Outline(o.groups, order, group));
  }

  method ReadSections(key: string -> string, body: seq<Mark>) returns (r: Result<Outline, Failure>)
    ensures r == Scan(key, body)
  {
    var at := FindSections(body);
    var o := Outline([], [], map[]);
    ghost var k := Next(body, at, 0);
    forall m | 0 <= m < k ensures !body[m].Heading? {
      Between(body, at, 0, m);
    }
    NoGroupsYet(key, body[..k]);
    for i := 0 to |at|
      invariant k == Next(body, at, i)
      invariant Scan(key, body[..k]) == Ok(o)
    {
      var title := body[at[i]].title;
      ScanMore(key, body, at[i]);
      o := o.(groups := o.groups + [Group(key(title), title)]);
      var end := if i + 1 < |at| then at[i + 1] else |body|;
      forall m | at[i] + 1 <= m < end ensures !body[m].Heading? {
        Between(body, at, i + 1, m);
      }
      var read := ReadRows(key, body, at[i] + 1, end, o);
      if read.Err? {
        return read;
      }
      o := read.value;
      k := end;
    }
    assert body[..k] == body;
    r := Ok(o);
  }

  method Progression(lower: char -> char, lines: seq<string>) returns (r: Result<Outline, Failure>)
    ensures r == Expected(t => Slug.Slug(lower, t), lines)
  {
    var body := FindBody(lines);
    if body.None? {
      return Err(NoSection);
    }
    r := ReadSections(t => Slug.Slug(lower, t), Marks(body.value));
    if r.Ok? && |r.value.groups| == 0 {
      r := Err(NoGroups);
    }
  }

  /** The section: what stands between the first heading "## Progression" and the next line that starts with "## ". */
  lemma BodyExactly(before: seq<string>, heading: string, body: seq<string>, after: seq<string>)
    requires forall i | 0 <= i < |before| :: !IsProgression(before[i])
    requires IsProgression(heading)
    requires forall i | 0 <= i < |body| :: !("## " <= body[i])
    requires after == [] || "## " <= after[0]
    ensures Body(before + ([heading] + (body + after))) == Some(body)
    ensures Body(before) == None
  {
    var rest := body + after;
    var lines := before + ([heading] + rest);
    BodyFrom(lines, |before|);
    assert lines[|before|..] == [heading] + rest;
    assert ([heading] + rest)[1..] == rest;
    CutAt(rest, |body|);
    assert rest[..|body|] == body;
    BodyFrom(before, |before|);
    assert before[|before|..] == [];
  }
}
