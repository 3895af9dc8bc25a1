/**
 What one line of the README is to the progression (internal/catalog/catalog.go:98-104).

 Each regular expression is anchored at a line's start, so what it matches is decided by one line;
 the white space behind a heading may take blank lines with it, which are no heading and no row.
 */
module ReadmeLines {
  import opened Common
  import Slug

  predicate IsSpace(c: char) {
    c == ' ' || c == '\t' || c == '\r' || c == '\U{000C}'
  }

  predicate IsBlank(s: string) {
    forall i | 0 <= i < |s| :: IsSpace(s[i])
  }

  /** progressionRE. */
  predicate IsProgression(line: string) {
    "## Progression" <= line && IsBlank(line[14..])
  }

  /** nextTopRE. */
  predicate IsTop(line: string) {
    "## " <= line
  }

  /** sectionRE: some character follows the mark. */
  predicate IsSection(line: string) {
    "### " <= line && |line| > 4
  }

  /** The shortest text after its first character with only white space behind. */
  function Shortest(s: string): (t: string)
    requires s != []
    ensures t != [] && t <= s && IsBlank(s[|t|..])
    ensures |t| > 1 ==> !IsSpace(t[|t| - 1])
  {
    if |s| == 1 || !IsSpace(s[|s| - 1]) then s else Shortest(s[..|s| - 1])
  }

  function Title(line: string): string
    requires IsSection(line)
  {
    Shortest(line[4..])
  }

  predicate IsNameChar(c: char) {
    Slug.Kept(c) || c == '-'
  }

  function NameLength(s: string): (n: nat)
    ensures n <= |s|
  {
    if s == [] || !IsNameChar(s[0]) then 0 else 1 + NameLength(s[1..])
  }

  /** rowRE: the example a table row names. */
  function Row(line: string): Option<string> {
    if !("| `" <= line) then None
    else
      var n := NameLength(line[3..]);
      if n == 0 || line[3] == '-' || !("` |" <= line[3 + n..]) then None
      else Some(line[3..3 + n])
  }

  datatype Mark = Heading(title: string) | Entry(name: string) | Text

  function MarkOf(line: string): Mark {
    if IsSection(line) then Heading(Title(line))
    else match Row(line) case Some(name) => Entry(name) case None => Text
  }

  predicate IsName(name: string) {
    name != [] && name[0] != '-'
    && forall i | 0 <= i < |name| :: 'a' <= name[i] <= 'z' || '0' <= name[i] <= '9' || name[i] == '-'
  }

  /** A row is exactly a line that starts with a name between back quotes, in a cell of its own. */
  lemma RowExactly(line: string, name: string)
    ensures Row(line) == Some(name) <==> IsName(name) && "| `" + name + "` |" <= line
  {
    if Row(line) == Some(name) {
      RowIsQuoted(line, name);
    }
    if IsName(name) && "| `" + name + "` |" <= line {
      QuotedIsRow(line, name);
    }
  }

  lemma RowIsQuoted(line: string, name: string)
    requires Row(line) == Some(name)
    ensures IsName(name) && "| `" + name + "` |" <= line
  {
    var rest := line[3..];
    var n := NameLength(rest);
    NameLengthIs(rest);
    assert name == rest[..n];
    assert line[3 + n..] == rest[n..];
    assert line == line[..3] + (rest[..n] + rest[n..]);
  }

  lemma QuotedIsRow(line: string, name: string)
    requires IsName(name) && "| `" + name + "` |" <= line
    ensures Row(line) == Some(name)
  {
    var quoted := "| `" + name + "` |";
    var rest := line[3 + |name|..];
    assert line[..|quoted|] == quoted;
    assert line[..3] == quoted[..3] && line[3..3 + |name|] == quoted[3..3 + |name|] == name;
    assert rest[..3] == line[3 + |name|..|quoted|] == quoted[3 + |name|..] == "` |";
    assert line[3..] == name + rest;
    NameEnds(name, rest);
  }

  lemma {:induction false} NameLengthIs(s: string)
    ensures forall i | 0 <= i < NameLength(s) :: IsNameChar(s[i])
  {
    if NameLength(s) > 0 {
      NameLengthIs(s[1..]);
      assert forall i | 0 < i < NameLength(s) :: s[i] == s[1..][i - 1];
    }
  }

  lemma {:induction false} NameEnds(name: string, rest: string)
    requires forall i | 0 <= i < |name| :: IsNameChar(name[i])
    requires rest != [] && !IsNameChar(rest[0])
    ensures NameLength(name + rest) == |name|
  {
    if name == [] {
      assert name + rest == rest;
    } else {
      assert (name + rest)[1..] == name[1..] + rest;
      NameEnds(name[1..], rest);
    }
  }

  /** The section's heading: the words, and nothing but white space behind them. */
  lemma ProgressionExactly(line: string)
    ensures IsProgression(line) <==>
      && |line| >= 14 && line[..14] == "## Progression"
      && forall i | 14 <= i < |line| :: line[i] in {' ', '\t', '\r', '\U{000C}'}
  {
    if |line| >= 14 {
      assert forall i | 14 <= i < |line| :: line[i] == line[14..][i - 14];
      assert forall i | 0 <= i < |line[14..]| :: line[14..][i] == line[14 + i];
    }
  }

  lemma {:induction false} ShortestIs(s: string, t: string)
    requires s != [] && t != [] && t <= s
    requires forall i | |t| <= i < |s| :: IsSpace(s[i])
    requires |t| == 1 || !IsSpace(t[|t| - 1])
    ensures Shortest(s) == t
    decreases |s|
  {
    if |s| == |t| {
      assert s == t;
    } else {
      ShortestIs(s[..|s| - 1], t);
    }
  }

  /** The title: up to the last character that is not white space, but never empty. */
  predicate IsTitle(s: string, t: string) {
    && t != [] && t <= s
    && (forall i | |t| <= i < |s| :: s[i] in {' ', '\t', '\r', '\U{000C}'})
    && (|t| == 1 || t[|t| - 1] !in {' ', '\t', '\r', '\U{000C}'})
  }

  lemma ShortestExactly(s: string, t: string)
    requires s != []
    ensures Shortest(s) == t <==> IsTitle(s, t)
  {
    var r := Shortest(s);
    forall i | |r| <= i < |s| ensures IsSpace(s[i]) {
      assert s[i] == s[|r|..][i - |r|];
    }
    if IsTitle(s, t) {
      ShortestIs(s, t);
    }
  }

  /** A group's heading is "### " and a title, with white space behind it or none. */
  lemma HeadingExactly(line: string, title: string)
    ensures MarkOf(line) == Heading(title) <==> |line| > 4 && line[..4] == "### " && IsTitle(line[4..], title)
  {
    if IsSection(line) {
      ShortestExactly(line[4..], title);
    }
  }

  /** A row is a line that starts with a name in back quotes in a cell of its own, and no line is both. */
  lemma EntryExactly(line: string, name: string)
    ensures MarkOf(line) == Entry(name) <==> IsName(name) && "| `" + name + "` |" <= line
  {
    RowExactly(line, name);
    if "| `" + name + "` |" <= line {
      assert line[0] == ("| `" + name + "` |")[0] == '|';
    }
  }
}
