/** README lines that are accepted though the rows of one key are not together. */
module CatalogWitness {
  import opened Common
  import opened ReadmeLines
  import opened Catalog
  import opened CatalogTheorems

  /** A line of the section, and what it is. */
  predicate Is(line: string, mark: Mark) {
    MarkOf(line) == mark && !IsTop(line)
  }

  lemma HeadingLine(title: string)
    requires title != [] && !IsSpace(title[|title| - 1])
    ensures Is("### " + title, Heading(title))
  {
    var line := "### " + title;
    assert line[..4] == "### " && line[4..] == title && line[2] == '#';
    assert Shortest(title) == title;
  }

  lemma RowLine(name: string)
    requires IsName(name)
    ensures Is("| `" + name + "` |", Entry(name))
  {
    var line := "| `" + name + "` |";
    assert line[0] == '|';
    RowExactly(line, name);
  }

  lemma WholeBody(heading: string, lines: seq<string>)
    requires IsProgression(heading) && forall i | 0 <= i < |lines| :: !IsTop(lines[i])
    ensures Body([heading] + lines) == Some(lines)
  {
    CutAt(lines, |lines|);
    assert ([heading] + lines)[1..] == lines && lines[..|lines|] == lines;
  }

  lemma MarksAre(lines: seq<string>, marks: seq<Mark>)
    requires |lines| == |marks| && forall i | 0 <= i < |lines| :: Is(lines[i], marks[i])
    ensures Marks(lines) == marks
  {
  }

  /** A heading and one row that is new, read after some lines. */
  lemma HeadingAndRow(key: string -> string, body: seq<Mark>, o: Outline, title: string, name: string, p: Outline)
    requires Scan(key, body) == Ok(o) && name !in o.group
    requires p.groups == o.groups + [Group(key(title), title)]
    requires p.order == o.order + [name] && p.group == o.group[name := key(title)]
    ensures Scan(key, body + [Heading(title), Entry(name)]) == Ok(p)
  {
    var more, n := body + [Heading(title), Entry(name)], |body|;
    assert more[..n] == body && more[..n + 1] == body + [Heading(title)] && more[..n + 2] == more;
    ScanMore(key, more, n);
    ScanMore(key, more, n + 1);
  }

  function SixMarks(a: string, b: string): seq<Mark> {
    [] + [Heading(a), Entry("x")] + [Heading(b), Entry("y")] + [Heading(a), Entry("z")]
  }

  /** The outline of the first `n` of three sections of one row each. */
  function Three(key: string -> string, a: string, b: string, n: nat): Outline
    requires n <= 3
  {
    var groups := [Group(key(a), a), Group(key(b), b), Group(key(a), a)];
    var keys := map["x" := key(a), "y" := key(b), "z" := key(a)];
    var order := ["x", "y", "z"][..n];
    Outline(groups[..n], order, map name | name in order && name in keys :: keys[name])
  }

  lemma SixScanned(key: string -> string, a: string, b: string)
    ensures Scan(key, SixMarks(a, b)) == Ok(Three(key, a, b, 3))
  {
    var body: seq<Mark> := [];
    assert ["x", "y", "z"][..2] == ["x"] + ["y"] && ["x", "y", "z"][..3] == ["x", "y"] + ["z"];
    HeadingAndRow(key, body, Three(key, a, b, 0), a, "x", Three(key, a, b, 1));
    body := body + [Heading(a), Entry("x")];
    HeadingAndRow(key, body, Three(key, a, b, 1), b, "y", Three(key, a, b, 2));
    body := body + [Heading(b), Entry("y")];
    HeadingAndRow(key, body, Three(key, a, b, 2), a, "z", Three(key, a, b, 3));
  }

  /** The lines of a README whose third heading repeats its first. */
  function Repeating(a: string, b: string): seq<string> {
    ["## Progression"] + ["### " + a, "| `x` |", "### " + b, "| `y` |", "### " + a, "| `z` |"]
  }

  lemma RepeatingBody(a: string, b: string)
    requires a != [] && !IsSpace(a[|a| - 1]) && b != [] && !IsSpace(b[|b| - 1])
    ensures Body(Repeating(a, b)).Some? && Marks(Body(Repeating(a, b)).value) == SixMarks(a, b)
  {
    HeadingLine(a);
    HeadingLine(b);
    RowLine("x");
    RowLine("y");
    RowLine("z");
    assert "| `" + "x" + "` |" == "| `x` |";
    assert "| `" + "y" + "` |" == "| `y` |";
    assert "| `" + "z" + "` |" == "| `z` |";
    SixLines("### " + a, "| `x` |", "### " + b, "| `y` |", "| `z` |", a, b);
  }

  lemma SixLines(first: string, x: string, second: string, y: string, z: string, a: string, b: string)
    requires Is(first, Heading(a)) && Is(second, Heading(b))
    requires Is(x, Entry("x")) && Is(y, Entry("y")) && Is(z, Entry("z"))
    ensures var lines := [first, x, second, y, first, z];
            Body(["## Progression"] + lines) == Some(lines) && Marks(lines) == SixMarks(a, b)
  {
    var lines := [first, x, second, y, first, z];
    var marks := [Heading(a), Entry("x"), Heading(b), Entry("y"), Heading(a), Entry("z")];
    assert forall i | 0 <= i < 6 :: Is(lines[i], marks[i]);
    MarksAre(lines, marks);
    assert marks == SixMarks(a, b);
    WholeBody("## Progression", lines);
  }

  /**
   Such a README is accepted, and the rows of the repeated heading's key are apart. The titles may
   be any two that end in no white space and have different keys.
   */
  lemma RepeatedHeadingSplits(key: string -> string, a: string, b: string)
    requires a != [] && !IsSpace(a[|a| - 1]) && b != [] && !IsSpace(b[|b| - 1])
    requires key(a) != key(b)
    ensures Expected(key, Repeating(a, b)).Ok?
    ensures var o := Expected(key, Repeating(a, b)).value;
      && o.order == ["x", "y", "z"] && o.group == map["x" := key(a), "y" := key(b), "z" := key(a)]
      && Recorded(o) == [key(a), key(b), key(a)] && !Together(Recorded(o))
  {
    RepeatingBody(a, b);
    SixScanned(key, a, b);
    var keys := [key(a), key(b), key(a)];
    assert keys[0] == keys[2] && keys[0] != keys[1];
  }
}
