/**
 The group key the documentation site uses (internal/catalog/catalog.go:104, 150-153).

 slug lower-cases a title, turns every run of other characters into one "-", and trims the dashes
 at the ends. The reference is the list of the title's words; the key is those words joined by "-".
 strings.ToLower is a parameter, `lower`, of which only this is used: it leaves a-z, 0-9 and "-"
 alone. Other characters may become anything, letters included, as the Kelvin sign becomes "k".
 */
module Slug {
  import opened Common

  predicate Kept(c: char) {
    'a' <= c <= 'z' || '0' <= c <= '9'
  }

  ghost predicate LeavesKeysAlone(lower: char -> char) {
    forall c: char :: Kept(c) || c == '-' ==> lower(c) == c
  }

  function Lowered(lower: char -> char, s: string): string {
    seq(|s|, i requires 0 <= i < |s| => lower(s[i]))
  }

  /** How many characters at the front are kept, or how many are not. */
  function Run(kept: bool, s: string): (n: nat)
    ensures n <= |s|
    ensures n == 0 <==> s == [] || Kept(s[0]) != kept
  {
    if s == [] || Kept(s[0]) != kept then 0 else 1 + Run(kept, s[1..])
  }

  /** slugRE.ReplaceAllString(s, "-"). */
  function Dashed(s: string): string {
    if s == [] then []
    else if Kept(s[0]) then [s[0]] + Dashed(s[1..])
    else "-" + Dashed(s[Run(false, s)..])
  }

  function TrimLeft(s: string): string {
    if s != [] && s[0] == '-' then TrimLeft(s[1..]) else s
  }

  function TrimRight(s: string): string {
    if s != [] && s[|s| - 1] == '-' then TrimRight(s[..|s| - 1]) else s
  }

  function Slug(lower: char -> char, title: string): string {
    TrimRight(TrimLeft(Dashed(Lowered(lower, title))))
  }

  /** The reference: the maximal runs of kept characters, in order. */
  function Words(s: string): seq<string> {
    if s == [] then []
    else if Kept(s[0]) then [s[..Run(true, s)]] + Words(s[Run(true, s)..])
    else Words(s[Run(false, s)..])
  }

  function Joined(words: seq<string>): string {
    if words == [] then []
    else if |words| == 1 then words[0]
    else words[0] + "-" + Joined(words[1..])
  }

  predicate All(kept: bool, s: string) {
    forall i | 0 <= i < |s| :: Kept(s[i]) == kept
  }

  predicate IsWord(w: string) {
    w != [] && All(true, w)
  }

  predicate AreWords(words: seq<string>) {
    forall w | w in words :: IsWord(w)
  }

  /** A key: kept characters and dashes, no dash first, last or twice in a row. */
  predicate IsKey(s: string) {
    && (forall i | 0 <= i < |s| :: Kept(s[i]) || s[i] == '-')
    && (s != [] ==> Kept(s[0]) && Kept(s[|s| - 1]))
    && forall i | 0 < i < |s| :: Kept(s[i - 1]) || Kept(s[i])
  }

  /** The kept characters of a text, in order. */
  function Letters(s: string): string {
    if s == [] then []
    else if Kept(s[0]) then [s[0]] + Letters(s[1..])
    else Letters(s[1..])
  }

  lemma {:induction false} RunIsAll(kept: bool, s: string)
    ensures All(kept, s[..Run(kept, s)])
    ensures Run(kept, s) < |s| ==> Kept(s[Run(kept, s)]) != kept
  {
    if Run(kept, s) > 0 {
      RunIsAll(kept, s[1..]);
      assert s[..Run(kept, s)] == [s[0]] + s[1..][..Run(kept, s[1..])];
    }
  }

  lemma {:induction false} WordsAreWords(s: string)
    ensures AreWords(Words(s))
    decreases |s|
  {
    if s != [] {
      var n := Run(Kept(s[0]), s);
      RunIsAll(Kept(s[0]), s);
      WordsAreWords(s[n..]);
    }
  }

  lemma {:induction false} RunSplits(kept: bool, w: string, rest: string)
    requires All(kept, w)
    requires rest == [] || Kept(rest[0]) != kept
    ensures Run(kept, w + rest) == |w|
    ensures (w + rest)[..|w|] == w && (w + rest)[|w|..] == rest
    decreases |w|
  {
    if w == [] {
      assert w + rest == rest;
    } else {
      assert (w + rest)[0] == w[0] && (w + rest)[1..] == w[1..] + rest;
      RunSplits(kept, w[1..], rest);
    }
  }

  /** Reading the words of a joined list gives the list back. */
  lemma {:induction false} WordsOfJoined(words: seq<string>)
    requires AreWords(words)
    ensures Words(Joined(words)) == words
    ensures words != [] ==> Joined(words) != [] && Kept(Joined(words)[0])
    decreases |words|
  {
    if words != [] {
      var w := words[0];
      assert IsWord(w);
      if |words| == 1 {
        RunSplits(true, w, []);
        assert w + [] == w;
        assert words == [w];
      } else {
        var tail := Joined(words[1..]);
        WordsOfJoined(words[1..]);
        RunSplits(true, w, "-" + tail);
        RunSplits(false, "-", tail);
        assert Joined(words) == w + ("-" + tail);
        assert words == [w] + words[1..];
      }
    }
  }

  lemma {:induction false} DashedKeepsWord(w: string, rest: string)
    requires All(true, w)
    ensures Dashed(w + rest) == w + Dashed(rest)
    decreases |w|
  {
    if w == [] {
      assert w + rest == rest;
    } else {
      assert (w + rest)[0] == w[0] && (w + rest)[1..] == w[1..] + rest;
      DashedKeepsWord(w[1..], rest);
    }
  }

  /** `d` is the joined words with at most one dash on each side, the one before being `before`. */
  predicate Wraps(d: string, before: string, words: seq<string>, after: string) {
    && d == before + (Joined(words) + after)
    && (after == "" || (after == "-" && words != []))
  }

  /** Replacing the runs leaves the words joined, with at most one dash on each side. */
  lemma {:induction false} DashedIsJoined(s: string) returns (after: string)
    ensures Wraps(Dashed(s), if s != [] && !Kept(s[0]) then "-" else "", Words(s), after)
    decreases |s|
  {
    if s == [] {
      return "";
    }
    var n := Run(Kept(s[0]), s);
    RunIsAll(Kept(s[0]), s);
    after := DashedIsJoined(s[n..]);
    if Kept(s[0]) {
      DashedKeepsWord(s[..n], s[n..]);
      assert s == s[..n] + s[n..];
      after := WordInFront(s[..n], s[n..], after);
    } else {
      GapInFront(Dashed(s[n..]), Words(s), after);
    }
  }

  lemma GapInFront(d: string, words: seq<string>, after: string)
    requires Wraps(d, "", words, after)
    ensures Wraps("-" + d, "-", words, after)
  {
  }

  lemma WordInFront(w: string, rest: string, after: string) returns (last: string)
    requires rest == [] || !Kept(rest[0])
    requires Wraps(Dashed(rest), if rest != [] then "-" else "", Words(rest), after)
    ensures Wraps(w + Dashed(rest), "", [w] + Words(rest), last)
  {
    var d, words := Dashed(rest), Words(rest);
    if rest == [] {
      assert d == "" && [w] + words == [w];
      last := "";
    } else if words == [] {
      assert d == "-" && [w] + words == [w];
      last := "-";
    } else {
      last := after;
      JoinedCons(w, words);
      Assoc(w, "-", Joined(words) + after);
      Assoc(w + "-", Joined(words), after);
    }
  }

  lemma JoinedCons(w: string, words: seq<string>)
    requires words != []
    ensures Joined([w] + words) == w + "-" + Joined(words)
  {
    assert ([w] + words)[1..] == words;
  }

  lemma {:induction false} JoinedIsKey(words: seq<string>)
    requires AreWords(words)
    ensures IsKey(Joined(words))
    ensures words != [] ==> Joined(words) != []
    decreases |words|
  {
    if words != [] {
      assert IsWord(words[0]);
      if |words| > 1 {
        JoinedIsKey(words[1..]);
      }
    }
  }

  lemma TrimmedKey(before: string, s: string, after: string)
    requires before in ["", "-"] && after in ["", "-"]
    requires IsKey(s)
    requires s == [] ==> after == []
    ensures TrimRight(TrimLeft(before + (s + after))) == s
  {
    var t := s + after;
    assert TrimLeft(t) == t;
    assert TrimLeft(before + t) == t by {
      assert before == "-" ==> (before + t)[1..] == t;
      assert before == "" ==> before + t == t;
    }
    assert TrimRight(s) == s;
    assert after == "-" ==> t[..|t| - 1] == s;
    assert after == "" ==> t == s;
  }

  /** What slug computes: the lower-cased title's words, joined by single dashes. */
  lemma SlugIsJoinedWords(lower: char -> char, title: string)
    ensures Slug(lower, title) == Joined(Words(Lowered(lower, title)))
  {
    var s := Lowered(lower, title);
    var after := DashedIsJoined(s);
    WordsAreWords(s);
    JoinedIsKey(Words(s));
    TrimmedKey(if s != [] && !Kept(s[0]) then "-" else "", Joined(Words(s)), after);
  }

  lemma SlugIsKey(lower: char -> char, title: string)
    ensures IsKey(Slug(lower, title))
    ensures forall c | c in Slug(lower, title) :: 'a' <= c <= 'z' || '0' <= c <= '9' || c == '-'
  {
    SlugIsJoinedWords(lower, title);
    WordsAreWords(Lowered(lower, title));
    JoinedIsKey(Words(Lowered(lower, title)));
  }

  lemma {:induction false} LettersAppend(a: string, b: string)
    ensures Letters(a + b) == Letters(a) + Letters(b)
  {
    if a == [] {
      assert a + b == b;
    } else {
      LettersAppend(a[1..], b);
      assert (a + b)[1..] == a[1..] + b;
      Assoc([a[0]], Letters(a[1..]), Letters(b));
    }
  }

  lemma {:induction false} LettersOfRun(s: string, kept: bool)
    requires All(kept, s)
    ensures Letters(s) == if kept then s else []
  {
    if s != [] {
      LettersOfRun(s[1..], kept);
    }
  }

  lemma {:induction false} LettersOfJoined(s: string)
    ensures Letters(Joined(Words(s))) == Letters(s)
    decreases |s|
  {
    if s != [] {
      var n := Run(Kept(s[0]), s);
      var w, rest := s[..n], s[n..];
      assert s == w + rest;
      LettersOfJoined(rest);
      LettersAppend(w, rest);
      RunIsAll(Kept(s[0]), s);
      LettersOfRun(w, Kept(s[0]));
      if Kept(s[0]) {
        var tail := Joined(Words(rest));
        assert Words(s) == [w] + Words(rest);
        if Words(rest) != [] {
          LettersAppend(w + "-", tail);
          LettersAppend(w, "-");
          LettersOfRun("-", false);
        }
      }
    }
  }

  /** The characters of a title that lower to a-z or 0-9, lowered. */
  function LowerLetters(lower: char -> char, title: string): string {
    if title == [] then []
    else
      var c := lower(title[0]);
      if 'a' <= c <= 'z' || '0' <= c <= '9' then [c] + LowerLetters(lower, title[1..])
      else LowerLetters(lower, title[1..])
  }

  lemma {:induction false} LettersOfLowered(lower: char -> char, title: string)
    ensures Letters(Lowered(lower, title)) == LowerLetters(lower, title)
  {
    if title != [] {
      LettersOfLowered(lower, title[1..]);
      assert Lowered(lower, title)[1..] == Lowered(lower, title[1..]);
    }
  }

  /** The key keeps the lower-cased title's letters and digits, all of them and in order. */
  lemma SlugKeepsLetters(lower: char -> char, title: string)
    ensures Letters(Slug(lower, title)) == LowerLetters(lower, title)
  {
    SlugIsJoinedWords(lower, title);
    LettersOfJoined(Lowered(lower, title));
    LettersOfLowered(lower, title);
  }

  lemma KeyLowered(lower: char -> char, s: string)
    requires LeavesKeysAlone(lower) && IsKey(s)
    ensures Lowered(lower, s) == s
  {
  }

  lemma KeyTrimmed(s: string)
    requires IsKey(s)
    ensures TrimRight(TrimLeft(s)) == s
  {
  }

  lemma {:induction false} DashedKey(s: string)
    requires forall i | 0 <= i < |s| :: Kept(s[i]) || s[i] == '-'
    requires forall i | 0 < i < |s| :: Kept(s[i - 1]) || Kept(s[i])
    ensures Dashed(s) == s
  {
    if s != [] {
      DashedKey(s[1..]);
      assert s == [s[0]] + s[1..];
      if !Kept(s[0]) {
        assert |s| > 1 ==> Kept(s[1]);
        assert Run(false, s[1..]) == 0;
      }
    }
  }

  /** A text is left alone exactly when it is a key already. */
  lemma KeysAreFixed(lower: char -> char, s: string)
    requires LeavesKeysAlone(lower)
    ensures Slug(lower, s) == s <==> IsKey(s)
  {
    SlugIsKey(lower, s);
    if IsKey(s) {
      KeyLowered(lower, s);
      DashedKey(s);
      KeyTrimmed(s);
    }
  }

  lemma SlugIsIdempotent(lower: char -> char, title: string)
    requires LeavesKeysAlone(lower)
    ensures Slug(lower, Slug(lower, title)) == Slug(lower, title)
  {
    SlugIsKey(lower, title);
    KeysAreFixed(lower, Slug(lower, title));
  }

  /** Two titles share a key exactly when their lower-cased words are the same. */
  lemma SlugsCollideExactly(lower: char -> char, a: string, b: string)
    ensures Slug(lower, a) == Slug(lower, b)
            <==> Words(Lowered(lower, a)) == Words(Lowered(lower, b))
  {
    SlugIsJoinedWords(lower, a);
    SlugIsJoinedWords(lower, b);
    WordsAreWords(Lowered(lower, a));
    WordsAreWords(Lowered(lower, b));
    WordsOfJoined(Words(Lowered(lower, a)));
    WordsOfJoined(Words(Lowered(lower, b)));
  }
}
