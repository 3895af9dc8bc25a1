/** What an accepted reading order is, in terms of the sections and their rows. */
module CatalogTheorems {
  import opened Common
  import opened ReadmeLines
  import opened Catalog

  /** A heading and the rows below it. */
  datatype Section = Section(title: string, rows: seq<string>)

  function Add(sections: seq<Section>, mark: Mark): seq<Section> {
    match mark
    case Text => sections
    case Heading(title) => sections + [Section(title, [])]
    case Entry(name) =>
      if sections == [] then sections
      else
        var n := |sections| - 1;
        sections[..n] + [Section(sections[n].title, sections[n].rows + [name])]
  }

  function Sections(body: seq<Mark>): seq<Section> {
    if body == [] then [] else Add(Sections(body[..|body| - 1]), body[|body| - 1])
  }

  /** All the rows, section after section. */
  function Rows(sections: seq<Section>): seq<string> {
    if sections == [] then []
    else Rows(sections[..|sections| - 1]) + sections[|sections| - 1].rows
  }

  predicate Distinct(names: seq<string>) {
    forall i, j | 0 <= i < j < |names| :: names[i] != names[j]
  }

  /** The outline lists the sections, their rows in order, and each row under its own section. */
  ghost predicate Outlines(key: string -> string, sections: seq<Section>, o: Outline) {
    && |o.groups| == |sections|
    && (forall i | 0 <= i < |sections| ::
          o.groups[i] == Group(key(sections[i].title), sections[i].title))
    && o.order == Rows(sections) && Distinct(o.order)
    && o.group.Keys == (set n | n in o.order)
    && forall i, n | 0 <= i < |sections| && n in sections[i].rows ::
         n in o.group && o.group[n] == key(sections[i].title)
  }

  /** `name` is the first name of the list that stood in it before. */
  ghost predicate FirstAgain(names: seq<string>, name: string) {
    exists k | 0 <= k < |names| :: names[k] == name && name in names[..k] && Distinct(names[..k])
  }

  ghost predicate Tells(key: string -> string, sections: seq<Section>, r: Result<Outline, Failure>) {
    match r
    case Ok(o) => Outlines(key, sections, o)
    case Err(e) => e.Twice? && FirstAgain(Rows(sections), e.name)
  }

  lemma {:induction false} RowsHold(sections: seq<Section>, i: nat)
    requires i < |sections|
    ensures forall n | n in sections[i].rows :: n in Rows(sections)
  {
    var n := |sections| - 1;
    if i < n {
      RowsHold(sections[..n], i);
    }
  }

  lemma RowsOfAdd(sections: seq<Section>, mark: Mark)
    ensures Rows(Add(sections, mark))
         == if mark.Entry? && sections != [] then Rows(sections) + [mark.name] else Rows(sections)
  {
    var more := Add(sections, mark);
    if mark.Heading? {
      assert more[..|more| - 1] == sections;
    } else if mark.Entry? && sections != [] {
      var n := |sections| - 1;
      assert more[..n] == sections[..n];
      Assoc(Rows(sections[..n]), sections[n].rows, [mark.name]);
    }
  }

  lemma AddTells(key: string -> string, sections: seq<Section>, o: Outline, mark: Mark)
    requires Outlines(key, sections, o)
    ensures Tells(key, Add(sections, mark), Read(key, o, mark))
  {
    match mark
    case Text =>
    case Heading(title) => HeadingOutlines(key, sections, o, title);
    case Entry(name) =>
      if sections != [] {
        if name in o.group {
          EntryAgain(sections, o.order, name);
        } else {
          EntryOutlines(key, sections, o, name);
        }
      }
  }

  lemma HeadingOutlines(key: string -> string, sections: seq<Section>, o: Outline, title: string)
    requires Outlines(key, sections, o)
    ensures Outlines(key, Add(sections, Heading(title)), Read(key, o, Heading(title)).value)
  {
    RowsOfAdd(sections, Heading(title));
  }

  lemma EntryAgain(sections: seq<Section>, order: seq<string>, name: string)
    requires order == Rows(sections) && Distinct(order) && sections != [] && name in order
    ensures FirstAgain(Rows(Add(sections, Entry(name))), name)
  {
    RowsOfAdd(sections, Entry(name));
    var rows := order + [name];
    assert rows[|order|] == name && rows[..|order|] == order;
  }

  lemma EntryOutlines(key: string -> string, sections: seq<Section>, o: Outline, name: string)
    requires Outlines(key, sections, o) && sections != [] && name !in o.group
    ensures Read(key, o, Entry(name)).Ok?
    ensures Outlines(key, Add(sections, Entry(name)), Read(key, o, Entry(name)).value)
  {
    var more, p := Add(sections, Entry(name)), Read(key, o, Entry(name)).value;
    RowsOfAdd(sections, Entry(name));
    assert name !in o.order;
    forall i, n | 0 <= i < |more| && n in more[i].rows
      ensures n in p.group && p.group[n] == key(more[i].title)
    {
      if i < |sections| - 1 {
        RowsHold(sections, i);
        assert n in o.order;
      }
    }
  }

  /** The first row that came again stays the first, whatever comes after it. */
  lemma AgainStays(sections: seq<Section>, mark: Mark, name: string)
    requires FirstAgain(Rows(sections), name)
    ensures FirstAgain(Rows(Add(sections, mark)), name)
  {
    RowsOfAdd(sections, mark);
    var rows, more := Rows(sections), Rows(Add(sections, mark));
    var k :| 0 <= k < |rows| && rows[k] == name && name in rows[..k] && Distinct(rows[..k]);
    assert more[..k] == rows[..k] && more[k] == rows[k];
  }

  /** The scanner's outline is the sections' outline, or it names the first row that came again. */
  lemma {:induction false} ScanTells(key: string -> string, body: seq<Mark>)
    ensures Tells(key, Sections(body), Scan(key, body))
  {
    if body != [] {
      var n := |body| - 1;
      ScanTells(key, body[..n]);
      match Scan(key, body[..n])
      case Ok(o) => AddTells(key, Sections(body[..n]), o, body[n]);
      case Err(e) => AgainStays(Sections(body[..n]), body[n], e.name);
    }
  }

  lemma AgainIsNotDistinct(names: seq<string>, name: string)
    requires FirstAgain(names, name)
    ensures !Distinct(names)
  {
    var k :| 0 <= k < |names| && names[k] == name && name in names[..k] && Distinct(names[..k]);
    var i :| 0 <= i < k && names[..k][i] == name;
    assert names[i] == names[k];
  }

  /** A README is accepted exactly when it has the section, a heading in it, and no row twice. */
  lemma AcceptedExactly(key: string -> string, lines: seq<string>)
    ensures Expected(key, lines).Ok? <==>
      Body(lines).Some?
      && var sections := Sections(Marks(Body(lines).value));
         sections != [] && Distinct(Rows(sections))
    ensures Expected(key, lines).Ok? ==>
      Outlines(key, Sections(Marks(Body(lines).value)), Expected(key, lines).value)
  {
    if Body(lines).Some? {
      var body := Marks(Body(lines).value);
      ScanTells(key, body);
      if Scan(key, body).Err? {
        AgainIsNotDistinct(Rows(Sections(body)), Scan(key, body).error.name);
      }
    }
  }

  // ---- are the rows of one key together? ----

  /** No value comes back after another one has come. */
  predicate Together(keys: seq<string>) {
    forall a, b, c | 0 <= a < b < c < |keys| :: keys[a] == keys[c] ==> keys[b] == keys[a]
  }

  function Copies(k: string, m: nat): (keys: seq<string>)
    ensures |keys| == m && forall i | 0 <= i < m :: keys[i] == k
  {
    if m == 0 then [] else Copies(k, m - 1) + [k]
  }

  /** The key of each row, and of each section that has rows. */
  function RowKeys(key: string -> string, sections: seq<Section>): seq<string> {
    if sections == [] then []
    else
      var last := sections[|sections| - 1];
      RowKeys(key, sections[..|sections| - 1]) + Copies(key(last.title), |last.rows|)
  }

  function SectionKeys(key: string -> string, sections: seq<Section>): seq<string> {
    if sections == [] then []
    else
      var last := sections[|sections| - 1];
      var before := SectionKeys(key, sections[..|sections| - 1]);
      if last.rows == [] then before else before + [key(last.title)]
  }

  lemma TogetherWith(keys: seq<string>, k: string)
    ensures Together(keys + [k]) <==> Together(keys) && (k in keys ==> keys[|keys| - 1] == k)
  {
    var more, n := keys + [k], |keys|;
    if Together(more) {
      assert forall i | 0 <= i < n :: more[i] == keys[i];
      if k in keys {
        var a :| 0 <= a < n && keys[a] == k;
        assert a < n - 1 ==> more[a] == more[n] && more[n - 1] == more[a];
      }
    }
    if Together(keys) && (k in keys ==> keys[n - 1] == k) {
      forall a, b, c | 0 <= a < b < c < |more| && more[a] == more[c] ensures more[b] == more[a] {
        if c == n {
          assert keys[a] in keys;
          assert b < n - 1 ==> keys[a] == keys[n - 1];
        }
      }
    }
  }

  lemma {:induction false} TogetherWithMany(keys: seq<string>, k: string, m: nat)
    requires m > 0
    ensures Together(keys + Copies(k, m)) <==> Together(keys) && (k in keys ==> keys[|keys| - 1] == k)
  {
    if m == 1 {
      assert Copies(k, m) == [k];
    } else {
      TogetherWithMany(keys, k, m - 1);
      assert (keys + Copies(k, m - 1))[|keys| + m - 2] == k;
    }
    TogetherWith(keys + Copies(k, m - 1), k);
    assert keys + Copies(k, m) == keys + Copies(k, m - 1) + [k];
    assert m == 1 ==> keys + Copies(k, m - 1) == keys;
  }

  /** The same keys, in the same order but for repetition. */
  ghost predicate Match(rows: seq<string>, heads: seq<string>) {
    && (Together(rows) <==> Together(heads))
    && (forall k :: k in rows <==> k in heads)
    && (rows == [] <==> heads == [])
    && (rows != [] ==> rows[|rows| - 1] == heads[|heads| - 1])
  }

  lemma MatchMore(rows: seq<string>, heads: seq<string>, k: string, m: nat)
    requires Match(rows, heads) && m > 0
    ensures Match(rows + Copies(k, m), heads + [k])
  {
    TogetherWithMany(rows, k, m);
    TogetherWith(heads, k);
    var copies := Copies(k, m);
    assert copies[m - 1] == k && forall i | 0 <= i < m :: copies[i] == k;
  }

  lemma {:induction false} KeysMatch(key: string -> string, sections: seq<Section>)
    ensures Match(RowKeys(key, sections), SectionKeys(key, sections))
  {
    if sections != [] {
      var n := |sections| - 1;
      KeysMatch(key, sections[..n]);
      var before := RowKeys(key, sections[..n]);
      if sections[n].rows == [] {
        assert before + [] == before;
      } else {
        MatchMore(before, SectionKeys(key, sections[..n]), key(sections[n].title), |sections[n].rows|);
      }
    }
  }

  /** Each row is recorded under the key that stands at its place. */
  ghost predicate RecordedUnder(rows: seq<string>, keys: seq<string>, group: map<string, string>) {
    |keys| == |rows| && forall k | 0 <= k < |rows| :: rows[k] in group && keys[k] == group[rows[k]]
  }

  lemma {:induction false} KeyOfEachRow(key: string -> string, sections: seq<Section>, group: map<string, string>)
    requires forall i, n | 0 <= i < |sections| && n in sections[i].rows ::
      n in group && group[n] == key(sections[i].title)
    ensures RecordedUnder(Rows(sections), RowKeys(key, sections), group)
  {
    if sections != [] {
      var i := |sections| - 1;
      var s := sections[i];
      KeyOfEachRow(key, sections[..i], group);
      forall k | 0 <= k < |s.rows| ensures s.rows[k] in group && key(s.title) == group[s.rows[k]] {
        assert s.rows[k] in sections[i].rows;
      }
    }
  }

  /** The key recorded for each row of the reading order. */
  ghost function Recorded(o: Outline): seq<string>
    requires forall n | n in o.order :: n in o.group
  {
    seq(|o.order|, i requires 0 <= i < |o.order| => o.group[o.order[i]])
  }

  /**
   The rows recorded under one key stand together exactly when no two sections with rows share
   a key across a section with another one. SlugsCollideExactly says when two titles share one.
   */
  lemma RowsTogetherExactly(key: string -> string, sections: seq<Section>, o: Outline)
    requires Outlines(key, sections, o)
    ensures Together(Recorded(o)) <==> Together(SectionKeys(key, sections))
  {
    KeyOfEachRow(key, sections, o.group);
    assert Recorded(o) == RowKeys(key, sections);
    KeysMatch(key, sections);
  }
}
