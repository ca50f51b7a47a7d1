/** Trimming, splitting and joining strings. */
module Text {

  /** The characters that `trim` removes and `\s` matches. */
  predicate IsSpace(c: char) {
    || '\t' <= c <= '\r' || c == ' ' || c == '\U{A0}' || c == '\U{1680}'
    || '\U{2000}' <= c <= '\U{200A}' || c == '\U{2028}' || c == '\U{2029}'
    || c == '\U{202F}' || c == '\U{205F}' || c == '\U{3000}' || c == '\U{FEFF}'
  }

  predicate IsBlank(s: string) {
    forall i :: 0 <= i < |s| ==> IsSpace(s[i])
  }

  function TrimStart(s: string): string {
    if s != "" && IsSpace(s[0]) then TrimStart(s[1..]) else s
  }

  function TrimEnd(s: string): string {
    if s != "" && IsSpace(s[|s| - 1]) then TrimEnd(s[..|s| - 1]) else s
  }

  function Trim(s: string): string {
    TrimEnd(TrimStart(s))
  }

  lemma {:induction false} TrimStartIsPart(s: string) returns (i: nat)
    ensures i <= |s| && TrimStart(s) == s[i..] && (i < |s| ==> !IsSpace(s[i]))
  {
    if s != "" && IsSpace(s[0]) {
      var j := TrimStartIsPart(s[1..]);
      i := j + 1;
    } else {
      i := 0;
    }
  }

  lemma {:induction false} TrimEndIsPart(s: string) returns (j: nat)
    ensures j <= |s| && TrimEnd(s) == s[..j] && (j > 0 ==> !IsSpace(s[j - 1]))
  {
    if s != "" && IsSpace(s[|s| - 1]) {
      j := TrimEndIsPart(s[..|s| - 1]);
      assert s[..|s| - 1][..j] == s[..j];
    } else {
      j := |s|;
    }
  }

  /** A trimmed string is a part of the original without space at either end. */
  lemma TrimIsPart(s: string) returns (i: nat)
    ensures i + |Trim(s)| <= |s| && Trim(s) == s[i..i + |Trim(s)|]
    ensures Trim(s) != "" ==> !IsSpace(Trim(s)[0]) && !IsSpace(Trim(s)[|Trim(s)| - 1])
  {
    i := TrimStartIsPart(s);
    var j := TrimEndIsPart(s[i..]);
    assert s[i..][..j] == s[i..i + j];
  }

  /** Trimming does nothing to a string without outer spaces. */
  lemma TrimOfTrimmed(s: string)
    requires s != "" ==> !IsSpace(s[0]) && !IsSpace(s[|s| - 1])
    ensures Trim(s) == s
  {
  }

  lemma {:induction false} StartTrimsAway(s: string)
    ensures TrimStart(s) == "" <==> IsBlank(s)
  {
    if s != "" {
      assert s == [s[0]] + s[1..];
      StartTrimsAway(s[1..]);
    }
  }

  lemma {:induction false} EndTrimsAway(s: string)
    ensures TrimEnd(s) == "" <==> IsBlank(s)
  {
    if s != "" {
      assert s == s[..|s| - 1] + [s[|s| - 1]];
      EndTrimsAway(s[..|s| - 1]);
    }
  }

  /** Nothing is left of exactly the blank strings. */
  lemma BlankIffTrimmedAway(s: string)
    ensures IsBlank(s) <==> Trim(s) == ""
  {
    StartTrimsAway(s);
    EndTrimsAway(TrimStart(s));
    var i := TrimStartIsPart(s);
  }

  lemma TrimTwice(s: string)
    ensures Trim(Trim(s)) == Trim(s)
  {
    var i := TrimIsPart(s);
    TrimOfTrimmed(Trim(s));
  }

  /** Every run of white space becomes one space. */
  function Collapse(s: string): string {
    if s == "" then ""
    else
      var rest := Collapse(s[1..]);
      if !IsSpace(s[0]) then [s[0]] + rest
      else if rest != "" && rest[0] == ' ' then rest
      else " " + rest
  }

  predicate SingleSpaceAt(s: string, i: nat)
    requires i < |s|
  {
    IsSpace(s[i]) ==> s[i] == ' ' && (i + 1 < |s| ==> !IsSpace(s[i + 1]))
  }

  /** The only white space is single spaces. */
  predicate IsCollapsed(s: string) {
    forall i: nat :: i < |s| ==> SingleSpaceAt(s, i)
  }

  lemma {:induction false} CollapseCollapses(s: string)
    ensures IsCollapsed(Collapse(s))
  {
    if s != "" {
      var rest, c := Collapse(s[1..]), Collapse(s);
      CollapseCollapses(s[1..]);
      forall i: nat | i < |c|
        ensures SingleSpaceAt(c, i)
      {
        if c == rest {
          assert SingleSpaceAt(rest, i);
        } else if i > 0 {
          assert SingleSpaceAt(rest, i - 1);
        } else if rest != "" {
          assert SingleSpaceAt(rest, 0);
        }
      }
    }
  }

  lemma {:induction false} CollapseOfCollapsed(s: string)
    requires IsCollapsed(s)
    ensures Collapse(s) == s
  {
    if s != "" {
      CollapsedPart(s, 1, |s|);
      assert s[1..|s|] == s[1..];
      CollapseOfCollapsed(s[1..]);
      assert SingleSpaceAt(s, 0);
      assert s == [s[0]] + s[1..];
    }
  }

  function Normalize(s: string): string {
    Trim(Collapse(s))
  }

  lemma CollapsedPart(s: string, i: nat, j: nat)
    requires IsCollapsed(s) && i <= j <= |s|
    ensures IsCollapsed(s[i..j])
  {
    forall k: nat | k < j - i
      ensures SingleSpaceAt(s[i..j], k)
    {
      assert SingleSpaceAt(s, i + k);
    }
  }

  predicate IsNormal(s: string) {
    IsCollapsed(s) && (s != "" ==> !IsSpace(s[0]) && !IsSpace(s[|s| - 1]))
  }

  lemma PartIsNormal(s: string, i: nat, t: string)
    requires IsCollapsed(s) && i + |t| <= |s| && t == s[i..i + |t|]
    requires t != "" ==> !IsSpace(t[0]) && !IsSpace(t[|t| - 1])
    ensures IsNormal(t)
  {
    CollapsedPart(s, i, i + |t|);
  }

  lemma NormalizeIsNormal(s: string)
    ensures IsNormal(Normalize(s))
  {
    CollapseCollapses(s);
    var i := TrimIsPart(Collapse(s));
    PartIsNormal(Collapse(s), i, Trim(Collapse(s)));
  }

  /** Normalizing and trimming do nothing to a normal string. */
  lemma NormalIsFixed(s: string)
    requires IsNormal(s)
    ensures Normalize(s) == s && Trim(s) == s
  {
    CollapseOfCollapsed(s);
    TrimOfTrimmed(s);
  }

  // ----- splitting and joining -----

  /** One more character in front of the first part, or a new first part. */
  function Prepend(c: char, parts: seq<string>, sep: char): seq<string>
    requires parts != []
  {
    if c == sep then [""] + parts else [[c] + parts[0]] + parts[1..]
  }

  function Split(s: string, sep: char): (parts: seq<string>)
    ensures parts != []
  {
    if s == "" then [""] else Prepend(s[0], Split(s[1..], sep), sep)
  }

  function Join(parts: seq<string>, sep: string): string {
    if parts == [] then ""
    else if |parts| == 1 then parts[0]
    else parts[0] + sep + Join(parts[1..], sep)
  }

  /** No part contains the separator. */
  predicate Lacks(parts: seq<string>, sep: char) {
    forall i :: 0 <= i < |parts| ==> sep !in parts[i]
  }

  lemma JoinPrepend(c: char, parts: seq<string>, sep: char)
    requires parts != []
    ensures Join(Prepend(c, parts, sep), [sep]) == [c] + Join(parts, [sep])
    ensures Lacks(parts, sep) ==> Lacks(Prepend(c, parts, sep), sep)
  {
    var more := Prepend(c, parts, sep);
    if c == sep {
      assert more[1..] == parts;
    } else {
      assert more[1..] == parts[1..];
    }
  }

  lemma {:induction false} JoinSplit(s: string, sep: char)
    ensures Join(Split(s, sep), [sep]) == s && Lacks(Split(s, sep), sep)
  {
    if s != "" {
      JoinSplit(s[1..], sep);
      JoinPrepend(s[0], Split(s[1..], sep), sep);
    }
  }

  lemma SplitPrepend(c: char, s: string, sep: char)
    ensures Split([c] + s, sep) == Prepend(c, Split(s, sep), sep)
  {
    assert ([c] + s)[1..] == s;
  }

  lemma PrependConcat(c: char, x: seq<string>, y: seq<string>, sep: char)
    requires x != []
    ensures Prepend(c, x + y, sep) == Prepend(c, x, sep) + y
  {
  }

  lemma {:induction false} SplitConcat(a: string, b: string, sep: char)
    ensures Split(a + [sep] + b, sep) == Split(a, sep) + Split(b, sep)
  {
    if a == "" {
      assert a + [sep] + b == [sep] + b;
      SplitPrepend(sep, b, sep);
    } else {
      var rest := a[1..] + [sep] + b;
      assert a + [sep] + b == [a[0]] + rest;
      SplitPrepend(a[0], rest, sep);
      SplitConcat(a[1..], b, sep);
      PrependConcat(a[0], Split(a[1..], sep), Split(b, sep), sep);
    }
  }

  lemma {:induction false} SplitPlain(s: string, sep: char)
    requires sep !in s
    ensures Split(s, sep) == [s]
  {
    if s != "" {
      SplitPlain(s[1..], sep);
      assert [s[0]] + s[1..] == s;
    }
  }

  lemma {:induction false} SplitJoin(parts: seq<string>, sep: char)
    requires parts != [] && Lacks(parts, sep)
    ensures Split(Join(parts, [sep]), sep) == parts
  {
    SplitPlain(parts[0], sep);
    if |parts| > 1 {
      SplitJoin(parts[1..], sep);
      SplitConcat(parts[0], Join(parts[1..], [sep]), sep);
    }
  }

  /** Every character of a part is a character of the whole. */
  lemma {:induction false} SplitChars(s: string, sep: char)
    ensures forall i, c :: 0 <= i < |Split(s, sep)| && c in Split(s, sep)[i] ==> c in s
  {
    if s != "" {
      SplitChars(s[1..], sep);
      assert s == [s[0]] + s[1..];
    }
  }

  // ----- fields -----

  /** Texts with the same beginning agree exactly if the rest does. */
  lemma SameAfter(word: string, a: string, b: string)
    ensures word + a == word + b <==> a == b
  {
    assert (word + a)[|word|..] == a && (word + b)[|word|..] == b;
  }

  lemma SplitField(a: string, x: string, sep: char)
    requires sep !in a
    ensures Split(a + [sep] + x, sep)[0] == a && Split(a + [sep] + x, sep)[1..] == Split(x, sep)
  {
    SplitConcat(a, x, sep);
    SplitPlain(a, sep);
  }

  /** Two texts agree exactly if their first fields and the rest do. */
  lemma FirstField(a: string, x: string, b: string, y: string, sep: char)
    requires sep !in a && sep !in b
    ensures a + [sep] + x == b + [sep] + y <==> a == b && x == y
  {
    if a + [sep] + x == b + [sep] + y {
      SplitField(a, x, sep);
      SplitField(b, y, sep);
      JoinSplit(x, sep);
      JoinSplit(y, sep);
    }
  }

  /** The same with last fields of equal length, which may hold anything. */
  lemma LastField(x: string, a: string, y: string, b: string, sep: char)
    requires |a| == |b|
    ensures x + [sep] + a == y + [sep] + b <==> x == y && a == b
  {
    var s, t := x + [sep] + a, y + [sep] + b;
    assert s[..|s| - |a| - 1] == x && s[|s| - |a|..] == a;
    assert t[..|t| - |b| - 1] == y && t[|t| - |b|..] == b;
  }

  // ----- words -----

  /** A word that goes on with `c` in front of it. */
  function Grow(c: char, words: seq<string>): seq<string>
    requires words != []
  {
    [[c] + words[0]] + words[1..]
  }

  /** The maximal runs of characters that are not space, in order. */
  function Words(s: string): (words: seq<string>)
    ensures s != "" && !IsSpace(s[0]) ==> words != []
  {
    if s == "" then []
    else if IsSpace(s[0]) then Words(s[1..])
    else if |s| > 1 && !IsSpace(s[1]) then Grow(s[0], Words(s[1..]))
    else [[s[0]]] + Words(s[1..])
  }

  function AllWords(parts: seq<string>): seq<string> {
    if parts == [] then [] else Words(parts[0]) + AllWords(parts[1..])
  }

  lemma {:induction false} CollapseStart(s: string)
    ensures Collapse(s) == "" <==> s == ""
    ensures s != "" ==> (IsSpace(Collapse(s)[0]) <==> IsSpace(s[0]))
  {
    if s != "" {
      CollapseStart(s[1..]);
    }
  }

  lemma WordsOfSpace(c: char, s: string)
    requires IsSpace(c)
    ensures Words([c] + s) == Words(s)
  {
    assert ([c] + s)[1..] == s;
  }

  lemma WordsOfLetter(c: char, s: string)
    requires !IsSpace(c)
    ensures Words([c] + s) == if s != "" && !IsSpace(s[0]) then Grow(c, Words(s)) else [[c]] + Words(s)
  {
    assert ([c] + s)[1..] == s;
  }

  lemma {:induction false} WordsOfCollapse(s: string)
    ensures Words(Collapse(s)) == Words(s)
  {
    if s != "" {
      var rest := Collapse(s[1..]);
      WordsOfCollapse(s[1..]);
      CollapseStart(s[1..]);
      assert s == [s[0]] + s[1..];
      if IsSpace(s[0]) {
        WordsOfSpace(' ', rest);
      } else {
        WordsOfLetter(s[0], rest);
        WordsOfLetter(s[0], s[1..]);
      }
    }
  }

  lemma {:induction false} WordsOfTrimStart(s: string)
    ensures Words(TrimStart(s)) == Words(s)
  {
    if s != "" && IsSpace(s[0]) {
      WordsOfTrimStart(s[1..]);
    }
  }

  lemma GrowConcat(c: char, a: seq<string>, b: seq<string>)
    requires a != []
    ensures Grow(c, a + b) == Grow(c, a) + b
  {
  }

  lemma LetterGrowsWord(c: char, s: string)
    requires !IsSpace(c) && s != "" && !IsSpace(s[0])
    ensures Words([c] + s) == Grow(c, Words(s))
  {
    WordsOfLetter(c, s);
  }

  lemma LetterMakesWord(c: char, s: string)
    requires !IsSpace(c) && (s == "" || IsSpace(s[0]))
    ensures Words([c] + s) == [[c]] + Words(s)
  {
    WordsOfLetter(c, s);
  }

  lemma MakesWordConcat(c: char, a: seq<string>, b: seq<string>)
    ensures [[c]] + (a + b) == [[c]] + a + b
  {
  }

  /** One more letter in front. */
  lemma WordsConcatLetter(a: char, s: string, rest: string, words: seq<string>)
    requires !IsSpace(a) && Words(rest) == Words(s) + words && rest != ""
    requires if s == "" then IsSpace(rest[0]) else rest[0] == s[0]
    ensures Words([a] + rest) == Words([a] + s) + words
  {
    if s != "" && !IsSpace(s[0]) {
      LetterGrowsWord(a, rest);
      LetterGrowsWord(a, s);
      GrowConcat(a, Words(s), words);
    } else {
      LetterMakesWord(a, rest);
      LetterMakesWord(a, s);
      MakesWordConcat(a, Words(s), words);
    }
  }

  /** A space between two texts keeps their words apart. */
  lemma {:induction false} WordsConcat(a: string, c: char, b: string)
    requires IsSpace(c)
    ensures Words(a + [c] + b) == Words(a) + Words(b)
  {
    if a == "" {
      assert a + [c] + b == [c] + b;
      WordsOfSpace(c, b);
    } else {
      WordsConcat(a[1..], c, b);
      assert a + [c] + b == [a[0]] + (a[1..] + [c] + b) && a == [a[0]] + a[1..];
      if IsSpace(a[0]) {
        WordsOfSpace(a[0], a[1..] + [c] + b);
        WordsOfSpace(a[0], a[1..]);
      } else {
        WordsConcatLetter(a[0], a[1..], a[1..] + [c] + b, Words(b));
      }
    }
  }

  lemma {:induction false} WordsOfTrimEnd(s: string)
    ensures Words(TrimEnd(s)) == Words(s)
  {
    if s != "" && IsSpace(s[|s| - 1]) {
      var init, c := s[..|s| - 1], s[|s| - 1];
      WordsOfTrimEnd(init);
      assert s == init + [c] + "";
      WordsConcat(init, c, "");
    }
  }

  lemma WordsOfTrim(s: string)
    ensures Words(Trim(s)) == Words(s)
  {
    WordsOfTrimStart(s);
    WordsOfTrimEnd(TrimStart(s));
  }

  lemma JoinGrow(c: char, words: seq<string>)
    requires words != []
    ensures Join(Grow(c, words), " ") == [c] + Join(words, " ")
  {
    var grown := Grow(c, words);
    assert grown[0] == [c] + words[0] && grown[1..] == words[1..];
    if |words| > 1 {
      assert [c] + words[0] + " " + Join(words[1..], " ") == [c] + (words[0] + " " + Join(words[1..], " "));
    }
  }

  lemma JoinCons(word: string, words: seq<string>)
    requires words != []
    ensures Join([word] + words, " ") == word + " " + Join(words, " ")
  {
    assert ([word] + words)[1..] == words;
  }

  lemma NormalTail(s: string, i: nat)
    requires IsNormal(s) && i < |s| && !IsSpace(s[i])
    ensures IsNormal(s[i..])
  {
    CollapsedPart(s, i, |s|);
    assert s[i..|s|] == s[i..];
  }

  /** A normal string is its words with one space between them. */
  lemma {:induction false} NormalIsItsWords(s: string)
    requires IsNormal(s)
    ensures s == Join(Words(s), " ")
  {
    if s != "" {
      assert s == [s[0]] + s[1..];
      WordsOfLetter(s[0], s[1..]);
      if |s| == 1 {
        assert s == [s[0]] && Words(s[1..]) == [];
      } else if !IsSpace(s[1]) {
        NormalTail(s, 1);
        NormalIsItsWords(s[1..]);
        JoinGrow(s[0], Words(s[1..]));
      } else {
        assert SingleSpaceAt(s, 1);
        NormalTail(s, 2);
        NormalIsItsWords(s[2..]);
        assert s[1..] == [' '] + s[2..];
        WordsOfSpace(' ', s[2..]);
        JoinCons([s[0]], Words(s[2..]));
      }
    }
  }

  /** Normalizing keeps the words, in order, and puts one space between them. */
  lemma NormalizeIsWords(s: string)
    ensures Normalize(s) == Join(Words(s), " ") && Words(Normalize(s)) == Words(s)
  {
    WordsOfCollapse(s);
    WordsOfTrim(Collapse(s));
    NormalizeIsNormal(s);
    NormalIsItsWords(Normalize(s));
  }

  lemma {:induction false} WordsOfJoin(parts: seq<string>, c: char)
    requires IsSpace(c)
    ensures Words(Join(parts, [c])) == AllWords(parts)
  {
    if |parts| == 1 {
      assert parts[1..] == [];
      assert AllWords(parts) == Words(parts[0]) + [];
    } else if |parts| > 1 {
      WordsOfJoin(parts[1..], c);
      WordsConcat(parts[0], c, Join(parts[1..], [c]));
    }
  }

  /** The words of a text are those of its lines. */
  lemma WordsOfLines(s: string)
    ensures Words(s) == AllWords(Split(s, '\n'))
  {
    JoinSplit(s, '\n');
    WordsOfJoin(Split(s, '\n'), '\n');
  }
}
