/**
 * `getInitials` of app/components/ui/Avatar.tsx: trim the name, split it at
 * runs of whitespace, and upper-case the first character of the first part,
 * or of the first and the last part when there are several.
 */
module Avatar {
  import opened JsStrings

  /** `s.split(/\s+/)`: the regex matches a whole whitespace run at a time. */
  function SplitOnSpaceRuns(s: string): (parts: seq<string>)
    ensures |parts| >= 1
    decreases |s|
  {
    if s == [] then [[]]
    else if IsSpace(s[0]) then
      assert TrimStart(s) == TrimStart(s[1..]);
      [[]] + SplitOnSpaceRuns(TrimStart(s))
    else
      var rest := SplitOnSpaceRuns(s[1..]);
      [[s[0]] + rest[0]] + rest[1..]
  }

  /** `s.charAt(0)`: the first character, or the empty string. */
  function CharAt0(s: string): (r: string)
    ensures |r| <= 1
  {
    if s == [] then [] else [s[0]]
  }

  /** getInitials */
  function GetInitials(name: string): (r: string)
    ensures |r| <= 2
  {
    InitialsOfParts(SplitOnSpaceRuns(Trim(name)))
  }

  /** The initials taken from the parts of the split name. */
  function InitialsOfParts(parts: seq<string>): (r: string)
    requires |parts| >= 1
    ensures |r| <= 2
  {
    if |parts| == 1 then ToUpperCase(CharAt0(parts[0]))
    else ToUpperCase(CharAt0(parts[0]) + CharAt0(parts[|parts| - 1]))
  }

  // ---------------------------------------------------------------------------
  // words: the maximal runs of non-whitespace characters

  /** The longest prefix without whitespace. */
  function TakeWord(s: string): (w: string)
    ensures |w| <= |s| && w == s[..|w|]
    ensures forall i :: 0 <= i < |w| ==> !IsSpace(w[i])
    ensures |w| < |s| ==> IsSpace(s[|w|])
    ensures s != [] && !IsSpace(s[0]) ==> w != []
  {
    if s == [] || IsSpace(s[0]) then []
    else
      var w := [s[0]] + TakeWord(s[1..]);
      assert s == [s[0]] + s[1..];
      w
  }

  /** The words of `s`, left to right; none is empty and none starts with whitespace. */
  function Words(s: string): (words: seq<string>)
    ensures forall i :: 0 <= i < |words| ==> words[i] != [] && !IsSpace(words[i][0])
    decreases |s|
  {
    if s == [] then []
    else if IsSpace(s[0]) then Words(s[1..])
    else
      var w := TakeWord(s);
      [w] + Words(s[|w|..])
  }

  lemma {:induction false} WordsOfSpaces(ws: string, b: string)
    requires AllSpace(ws)
    ensures Words(ws + b) == Words(b)
    decreases |ws|
  {
    if ws == [] {
      assert ws + b == b;
    } else {
      assert (ws + b)[0] == ws[0];
      assert (ws + b)[1..] == ws[1..] + b;
      assert AllSpace(ws[1..]) by { forall i | 0 <= i < |ws| - 1 ensures IsSpace(ws[1..][i]) { assert ws[1..][i] == ws[i + 1]; } }
      WordsOfSpaces(ws[1..], b);
    }
  }

  lemma {:induction false} TakeWordAppend(a: string, t: string)
    requires t == [] || IsSpace(t[0])
    ensures TakeWord(a + t) == TakeWord(a)
    decreases |a|
  {
    if a == [] {
      assert a + t == t;
    } else {
      assert (a + t)[0] == a[0];
      assert (a + t)[1..] == a[1..] + t;
      TakeWordAppend(a[1..], t);
    }
  }

  /** Whitespace between two pieces of text keeps their words apart. */
  lemma {:induction false} WordsAcrossSpaces(a: string, ws: string, b: string)
    requires ws != [] && AllSpace(ws)
    ensures Words(a + ws + b) == Words(a) + Words(b)
    decreases |a|
  {
    var s := a + ws + b;
    if a == [] {
      assert s == ws + b;
      WordsOfSpaces(ws, b);
    } else {
      assert s[0] == a[0];
      if IsSpace(a[0]) {
        assert s[1..] == a[1..] + ws + b;
        WordsAcrossSpaces(a[1..], ws, b);
      } else {
        assert s == a + (ws + b);
        assert (ws + b)[0] == ws[0];
        TakeWordAppend(a, ws + b);
        var w := TakeWord(a);
        assert s[|w|..] == a[|w|..] + ws + b;
        WordsAcrossSpaces(a[|w|..], ws, b);
      }
    }
  }

  lemma TrailingSpaces(x: string, ws: string)
    requires AllSpace(ws)
    ensures Words(x + ws) == Words(x)
  {
    if ws == [] {
      assert x + ws == x;
    } else {
      WordsAcrossSpaces(x, ws, []);
      assert x + ws + [] == x + ws;
    }
  }

  lemma WordsPadded(lead: string, t: string, trail: string)
    requires AllSpace(lead) && AllSpace(trail)
    ensures Words(lead + t + trail) == Words(t)
  {
    assert lead + t + trail == lead + (t + trail);
    WordsOfSpaces(lead, t + trail);
    TrailingSpaces(t, trail);
  }

  /** Surrounding whitespace has no words. */
  lemma WordsOfTrim(s: string)
    ensures Words(Trim(s)) == Words(s)
  {
    var lead, trail := TrimIsInfix(s);
    WordsPadded(lead, Trim(s), trail);
  }

  lemma {:induction false} WordsOfSpacesOnly(s: string)
    requires AllSpace(s)
    ensures Words(s) == []
  {
    WordsOfSpaces(s, []);
    assert s + [] == s;
  }

  /** The split keeps the first word and continues after the whitespace run that ends it. */
  lemma {:induction false} SplitFirstWord(t: string)
    ensures var w := TakeWord(t); var rest := SplitOnSpaceRuns(t[|w|..]);
      SplitOnSpaceRuns(t) == [w + rest[0]] + rest[1..]
    decreases |t|
  {
    if t != [] && !IsSpace(t[0]) {
      SplitFirstWord(t[1..]);
      var w' := TakeWord(t[1..]);
      var rest := SplitOnSpaceRuns(t[1..][|w'|..]);
      var r := SplitOnSpaceRuns(t[1..]);
      assert r == [w' + rest[0]] + rest[1..];
      assert r[0] == w' + rest[0] && r[1..] == rest[1..];
      assert SplitOnSpaceRuns(t) == [[t[0]] + r[0]] + r[1..];
      assert TakeWord(t) == [t[0]] + w';
      assert t[|w'| + 1..] == t[1..][|w'|..];
      assert [t[0]] + (w' + rest[0]) == ([t[0]] + w') + rest[0];
    } else {
      var r := SplitOnSpaceRuns(t);
      assert TakeWord(t) == [] && t[0..] == t;
      assert [] + r[0] == r[0];
      assert r == [r[0]] + r[1..];
    }
  }

  lemma {:induction false} WordsDropSpaces(x: string, k: nat)
    requires k <= |x| && AllSpace(x[..k])
    ensures Words(x[k..]) == Words(x)
  {
    assert x == x[..k] + x[k..];
    WordsOfSpaces(x[..k], x[k..]);
  }

  lemma WordsOfTrimStart(x: string)
    ensures Words(TrimStart(x)) == Words(x)
  {
    WordsDropSpaces(x, |x| - |TrimStart(x)|);
  }

  /** Leading whitespace goes, the last non-whitespace character stays. */
  lemma TrimStartKeepsLast(x: string)
    requires x != [] && !IsSpace(x[|x| - 1])
    ensures TrimStart(x) != [] && TrimStart(x)[|TrimStart(x)| - 1] == x[|x| - 1]
  {
    assert x[..|x|] == x;
    assert !AllSpace(x);
  }

  /** On a trimmed, non-empty string the regex split yields exactly its words. */
  lemma {:induction false} SplitIsWords(t: string)
    requires t != [] && !IsSpace(t[0]) && !IsSpace(t[|t| - 1])
    ensures SplitOnSpaceRuns(t) == Words(t)
    decreases |t|
  {
    var w := TakeWord(t);
    var rest := t[|w|..];
    SplitFirstWord(t);
    assert Words(t) == [w] + Words(rest);
    if rest == [] {
      assert SplitOnSpaceRuns(rest) == [[]];
      assert w + [] == w;
    } else {
      var u := TrimStart(rest);
      assert SplitOnSpaceRuns(rest) == [[]] + SplitOnSpaceRuns(u);
      assert rest[|rest| - 1] == t[|t| - 1];
      TrimStartKeepsLast(rest);
      SplitIsWords(u);
      WordsOfTrimStart(rest);
      assert w + [] == w;
    }
  }

  // ---------------------------------------------------------------------------
  // properties

  /**
   * Reference reading of the initials: the upper-cased first characters of
   * the first and the last word; of the only word when there is one; empty
   * when there is none.
   */
  function WordInitials(words: seq<string>): (r: string)
    requires forall i :: 0 <= i < |words| ==> words[i] != []
  {
    if |words| == 0 then ""
    else if |words| == 1 then [ToUpperChar(words[0][0])]
    else [ToUpperChar(words[0][0]), ToUpperChar(words[|words| - 1][0])]
  }

  lemma PartsAreWords(parts: seq<string>)
    requires |parts| >= 1 && forall i :: 0 <= i < |parts| ==> parts[i] != []
    ensures InitialsOfParts(parts) == WordInitials(parts)
  {
  }

  /** `getInitials` agrees with the reference reading over the words of the name. */
  lemma {:induction false} InitialsOfWords(name: string)
    ensures GetInitials(name) == WordInitials(Words(name))
  {
    var t := Trim(name);
    WordsOfTrim(name);
    TrimEmpty(name);
    if t == [] {
      WordsOfSpacesOnly(name);
      assert SplitOnSpaceRuns(t) == [[]];
    } else {
      TrimEnds(name);
      SplitIsWords(t);
      PartsAreWords(Words(t));
    }
  }

  /** Whitespace around the name does not change its initials. */
  lemma {:induction false} InitialsIgnorePadding(lead: string, name: string, trail: string)
    requires AllSpace(lead) && AllSpace(trail)
    ensures GetInitials(lead + name + trail) == GetInitials(name)
  {
    TrimPadded(lead, name, trail);
  }

  /** A run of whitespace inside the name counts as a single space. */
  lemma {:induction false} InitialsCollapseRuns(a: string, ws: string, b: string)
    requires ws != [] && AllSpace(ws)
    ensures GetInitials(a + ws + b) == GetInitials(a + " " + b)
  {
    WordsAcrossSpaces(a, ws, b);
    WordsAcrossSpaces(a, " ", b);
    InitialsOfWords(a + ws + b);
    InitialsOfWords(a + " " + b);
  }

  /** Middle words are ignored: only the first and the last word matter. */
  lemma {:induction false} InitialsIgnoreMiddle(first: string, middle: string, last: string)
    requires Words(first) != [] && Words(last) != []
    ensures GetInitials(first + " " + middle + " " + last) == GetInitials(first + " " + last)
  {
    WordsAcrossSpaces(first, " ", middle);
    WordsAcrossSpaces(first + " " + middle, " ", last);
    WordsAcrossSpaces(first, " ", last);
    InitialsOfWords(first + " " + middle + " " + last);
    InitialsOfWords(first + " " + last);
  }

  lemma {:induction false} TakeWordWhole(w: string)
    requires forall i :: 0 <= i < |w| ==> !IsSpace(w[i])
    ensures TakeWord(w) == w
  {
    if w != [] {
      TakeWordWhole(w[1..]);
    }
  }

  /** A single word without whitespace is its own only word. */
  lemma {:induction false} WordsOfWord(w: string)
    requires w != [] && forall i :: 0 <= i < |w| ==> !IsSpace(w[i])
    ensures Words(w) == [w]
  {
    TakeWordWhole(w);
    assert w[|w|..] == [];
  }

  /** "First Last" gives the upper-cased first letters of both names. */
  lemma {:induction false} InitialsOfFirstLast(first: string, last: string)
    requires first != [] && forall i :: 0 <= i < |first| ==> !IsSpace(first[i])
    requires last != [] && forall i :: 0 <= i < |last| ==> !IsSpace(last[i])
    ensures GetInitials(first + " " + last) == [ToUpperChar(first[0]), ToUpperChar(last[0])]
  {
    WordsOfWord(first);
    WordsOfWord(last);
    WordsAcrossSpaces(first, " ", last);
    InitialsOfWords(first + " " + last);
  }

  lemma InitialsOfJohnDoe()
    ensures GetInitials("john doe") == "JD"
  {
    InitialsOfFirstLast("john", "doe");
    assert "john" + " " + "doe" == "john doe";
  }
}
