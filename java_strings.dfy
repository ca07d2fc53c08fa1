/**
 * The few Java string operations the pipeline relies on, with the exact
 * character classes Java uses for them.
 *
 * Two notions of "white space" are in play and they differ:
 *  - `StringUtils.isBlank` (Micrometer) tests every character with
 *    `Character.isWhitespace`;
 *  - the regular-expression class `\s` (without UNICODE_CHARACTER_CLASS)
 *    is exactly the six ASCII characters space, tab, newline, vertical tab,
 *    form feed and carriage return.
 * `String.trim` is a third one: it strips every character up to U+0020.
 */
module JavaStrings {
  import opened Packing

  /** `Character.isWhitespace`: ASCII controls 9-13 and 28-31, and the Unicode
      space, line and paragraph separators other than the no-break spaces. */
  predicate IsJavaWhitespace(c: char)
  {
    || ('\U{9}' <= c <= '\U{D}')
    || ('\U{1C}' <= c <= '\U{1F}')
    || c == ' '
    || c == '\U{1680}'
    || ('\U{2000}' <= c <= '\U{2006}')
    || ('\U{2008}' <= c <= '\U{200A}')
    || c == '\U{2028}' || c == '\U{2029}' || c == '\U{205F}' || c == '\U{3000}'
  }

  /** `StringUtils.isBlank`: empty, or white space only. (A Java `null` is never
      produced by the model.) */
  predicate IsBlank(s: string)
  {
    forall i :: 0 <= i < |s| ==> IsJavaWhitespace(s[i])
  }

  /** The regular-expression class `\s`. */
  predicate IsRegexSpace(c: char)
  {
    c == ' ' || c == '\t' || c == '\n' || c == '\U{B}' || c == '\U{C}' || c == '\r'
  }

  /** Characters `String.trim` removes. */
  predicate IsTrimmed(c: char)
  {
    c <= ' '
  }

  lemma BlankAppend(a: string, b: string)
    ensures IsBlank(a + b) <==> IsBlank(a) && IsBlank(b)
  {
    if IsBlank(a + b) {
      forall i | 0 <= i < |a| ensures IsJavaWhitespace(a[i]) {
        assert a[i] == (a + b)[i];
      }
      forall i | 0 <= i < |b| ensures IsJavaWhitespace(b[i]) {
        assert b[i] == (a + b)[|a| + i];
      }
    }
  }

  // ---------------------------------------------------------------------
  // String.join

  /** `String.join(sep, xs)`. */
  function JoinWith(xs: seq<string>, sep: string): string
  {
    if xs == [] then ""
    else if |xs| == 1 then xs[0]
    else xs[0] + sep + JoinWith(xs[1..], sep)
  }

  /** Joining with a blank separator is blank exactly when every joined string is. */
  lemma {:induction false} JoinBlank(xs: seq<string>, sep: string)
    requires IsBlank(sep)
    ensures IsBlank(JoinWith(xs, sep)) <==> forall i :: 0 <= i < |xs| ==> IsBlank(xs[i])
    decreases |xs|
  {
    if |xs| > 1 {
      JoinBlank(xs[1..], sep);
      BlankAppend(xs[0], sep);
      BlankAppend(xs[0] + sep, JoinWith(xs[1..], sep));
      assert xs == [xs[0]] + xs[1..];
    }
  }

  /** Appending one more string to a non-empty join adds the separator and the string. */
  lemma {:induction false} JoinSnoc(xs: seq<string>, w: string, sep: string)
    requires xs != []
    ensures JoinWith(xs + [w], sep) == JoinWith(xs, sep) + sep + w
    decreases |xs|
  {
    if |xs| > 1 {
      JoinSnoc(xs[1..], w, sep);
      assert (xs + [w])[1..] == xs[1..] + [w];
    } else {
      assert (xs + [w])[1..] == [w];
    }
  }

  /** A join starts with the first string and ends with the last one. */
  lemma {:induction false} JoinEdges(xs: seq<string>, sep: string)
    requires xs != []
    ensures |JoinWith(xs, sep)| >= |xs[0]| && JoinWith(xs, sep)[..|xs[0]|] == xs[0]
    ensures var last := xs[|xs| - 1];
      |JoinWith(xs, sep)| >= |last| && JoinWith(xs, sep)[|JoinWith(xs, sep)| - |last|..] == last
    decreases |xs|
  {
    if |xs| > 1 {
      JoinEdges(xs[1..], sep);
      var rest := JoinWith(xs[1..], sep);
      var j := JoinWith(xs, sep);
      assert j == xs[0] + sep + rest;
      assert j[|j| - |rest|..] == rest;
      assert j[..|xs[0]|] == xs[0];
    }
  }

  // ---------------------------------------------------------------------
  // String.split("\\s+")

  /** Length of the leading run of characters outside `\s`. */
  function WordLength(s: string): (k: nat)
    ensures k <= |s|
    ensures forall j :: 0 <= j < k ==> !IsRegexSpace(s[j])
    ensures k < |s| ==> IsRegexSpace(s[k])
  {
    if s == [] || IsRegexSpace(s[0]) then 0 else 1 + WordLength(s[1..])
  }

  /** The maximal runs of characters outside `\s`, in order. */
  function Words(s: string): (r: seq<string>)
    ensures forall i :: 0 <= i < |r| ==> r[i] != [] && NoRegexSpace(r[i])
    decreases |s|
  {
    if s == [] then []
    else if IsRegexSpace(s[0]) then Words(s[1..])
    else
      var k := WordLength(s);
      [s[..k]] + Words(s[k..])
  }

  predicate NoRegexSpace(w: string)
  {
    forall j :: 0 <= j < |w| ==> !IsRegexSpace(w[j])
  }

  /**
   * `s.split("\\s+")`: the pieces between runs of `\s`. A run at the very
   * start yields a leading empty piece, trailing empty pieces are dropped,
   * and a string without any match (in particular "") is returned whole.
   */
  function SplitOnWhitespace(s: string): (r: seq<string>)
    ensures forall i :: 0 <= i < |r| ==> NoRegexSpace(r[i])
    ensures Flatten(r) == DropRegexSpaces(s)
  {
    if s == "" then [""]
    else
      var ws := Words(s);
      WordsFlatten(s);
      if IsRegexSpace(s[0]) && ws != [] then
        FlattenCons("", ws);
        [""] + ws
      else ws
  }

  /** The pieces hold no `\s`; only the first may be empty, and it is empty
      exactly when the text is empty or starts with `\s`; there are no pieces
      exactly when the text is non-empty and all `\s`. */
  lemma SplitOnWhitespaceShape(s: string)
    ensures var r := SplitOnWhitespace(s);
      && (forall i :: 0 <= i < |r| ==> NoRegexSpace(r[i]))
      && (forall i :: 0 < i < |r| ==> r[i] != [])
      && (s == "" ==> r == [""])
      && (s != "" && !IsRegexSpace(s[0]) ==> r != [] && r[0] != [])
      && (r == [] <==> s != "" && forall j :: 0 <= j < |s| ==> IsRegexSpace(s[j]))
  {
    WordsEmpty(s);
  }

  /** There are no words exactly when every character is in `\s`. */
  lemma {:induction false} WordsEmpty(s: string)
    ensures Words(s) == [] <==> forall j :: 0 <= j < |s| ==> IsRegexSpace(s[j])
    decreases |s|
  {
    if s != [] && IsRegexSpace(s[0]) {
      WordsEmpty(s[1..]);
      if Words(s) == [] {
        forall j | 0 <= j < |s| ensures IsRegexSpace(s[j]) {
          if j > 0 { assert s[j] == s[1..][j - 1]; }
        }
      }
    }
  }

  /** The text with every `\s` character removed, one character at a time. */
  function DropRegexSpaces(s: string): (r: string)
    ensures NoRegexSpace(r)
  {
    if s == [] then []
    else (if IsRegexSpace(s[0]) then [] else [s[0]]) + DropRegexSpaces(s[1..])
  }

  lemma {:induction false} DropRegexSpacesAppend(a: string, b: string)
    ensures DropRegexSpaces(a + b) == DropRegexSpaces(a) + DropRegexSpaces(b)
    decreases |a|
  {
    if a != [] {
      DropRegexSpacesAppend(a[1..], b);
      assert (a + b)[1..] == a[1..] + b;
    } else {
      assert a + b == b;
    }
  }

  lemma {:induction false} DropRegexSpacesOfWord(w: string)
    requires NoRegexSpace(w)
    ensures DropRegexSpaces(w) == w
    decreases |w|
  {
    if w != [] {
      DropRegexSpacesOfWord(w[1..]);
    }
  }

  /** The words, concatenated, are the text without its `\s` characters:
      no character outside `\s` is lost, duplicated or moved. */
  lemma {:induction false} WordsFlatten(s: string)
    ensures Flatten(Words(s)) == DropRegexSpaces(s)
    decreases |s|
  {
    if s != [] && IsRegexSpace(s[0]) {
      WordsFlatten(s[1..]);
    } else if s != [] {
      var k := WordLength(s);
      WordsFlatten(s[k..]);
      FlattenCons(s[..k], Words(s[k..]));
      assert s == s[..k] + s[k..];
      DropRegexSpacesAppend(s[..k], s[k..]);
      DropRegexSpacesOfWord(s[..k]);
    }
  }

  /** The leading run outside `\s` ends at the same place once more text is
      appended, as long as it ended inside `a` or the new text starts with `\s`. */
  lemma WordLengthAppend(a: string, t: string)
    requires WordLength(a) < |a| || (t != [] && IsRegexSpace(t[0]))
    ensures WordLength(a + t) == WordLength(a)
  {
    var k, m := WordLength(a), WordLength(a + t);
    assert k < |a + t| && IsRegexSpace((a + t)[k]);
  }

  /** A piece with no `\s` is one word. */
  lemma WordsOfWord(w: string)
    requires w != [] && NoRegexSpace(w)
    ensures Words(w) == [w]
  {
    assert w[..|w|] == w && w[|w|..] == [];
  }

  /** A `\s` character separates words: the words on either side of it are
      the words of the two sides. With `WordsOfWord` and `WordsEmpty`, this
      fixes `Words` on every text. */
  lemma {:induction false} WordsSplitAtSpace(a: string, c: char, b: string)
    requires IsRegexSpace(c)
    ensures Words(a + [c] + b) == Words(a) + Words(b)
    decreases |a|
  {
    var s := a + [c] + b;
    if a == [] {
      assert s[1..] == b;
    } else if IsRegexSpace(a[0]) {
      assert s[1..] == a[1..] + [c] + b;
      WordsSplitAtSpace(a[1..], c, b);
    } else {
      var k := WordLength(a);
      WordLengthAppend(a, [c] + b);
      assert s == a + ([c] + b);
      assert s[..k] == a[..k];
      assert s[k..] == a[k..] + [c] + b;
      WordsSplitAtSpace(a[k..], c, b);
    }
  }

  // ---------------------------------------------------------------------
  // String.trim

  function TrimStart(s: string): string
  {
    if s != [] && IsTrimmed(s[0]) then TrimStart(s[1..]) else s
  }

  function TrimEnd(s: string): string
  {
    if s != [] && IsTrimmed(s[|s| - 1]) then TrimEnd(s[..|s| - 1]) else s
  }

  /** `String.trim`: `s` without its leading and trailing characters up to U+0020. */
  function Trim(s: string): (r: string)
    ensures r == "" <==> AllTrimmed(s)
  {
    TrimStartVisible(s);
    if AllTrimmed(s) then TrimEnd(TrimStart(s))
    else
      TrimEndKeepsFirst(TrimStart(s));
      TrimEnd(TrimStart(s))
  }

  predicate AllTrimmed(s: string)
  {
    forall j :: 0 <= j < |s| ==> IsTrimmed(s[j])
  }

  /** Leading removal stops inside `a` when `a` has a character above U+0020,
      and runs through `a` otherwise. */
  lemma {:induction false} TrimStartAppend(a: string, b: string)
    ensures !AllTrimmed(a) ==> TrimStart(a + b) == TrimStart(a) + b
    ensures AllTrimmed(a) ==> TrimStart(a + b) == TrimStart(b)
    decreases |a|
  {
    if a != [] && IsTrimmed(a[0]) {
      TrimStartAppend(a[1..], b);
      assert (a + b)[1..] == a[1..] + b;
      if !AllTrimmed(a) {
        var j :| 0 <= j < |a| && !IsTrimmed(a[j]);
        assert a[1..][j - 1] == a[j];
      }
    } else if a == [] {
      assert a + b == b;
    }
  }

  /** A trailing space makes no difference to the trimmed text. */
  lemma TrimSpaceAppended(s: string)
    ensures Trim(s + " ") == Trim(s)
  {
    TrimStartAppend(s, " ");
    TrimStartAppend(s, "");
    assert s + "" == s;
    if !AllTrimmed(s) {
      assert (TrimStart(s) + " ")[..|TrimStart(s)|] == TrimStart(s);
    }
  }

  /** A text whose first and last characters are above U+0020 is its own trim. */
  lemma TrimClean(s: string)
    requires s != [] && !IsTrimmed(s[0]) && !IsTrimmed(s[|s| - 1])
    ensures Trim(s) == s
  {
  }


  /** Leading removal empties a text made only of characters up to U+0020;
      otherwise it stops at the first character above U+0020. */
  lemma {:induction false} TrimStartVisible(s: string)
    ensures AllTrimmed(s) ==> TrimStart(s) == ""
    ensures !AllTrimmed(s) ==> TrimStart(s) != "" && !IsTrimmed(TrimStart(s)[0])
    decreases |s|
  {
    if s != [] && IsTrimmed(s[0]) {
      TrimStartVisible(s[1..]);
      if AllTrimmed(s) {
        forall j | 0 <= j < |s| - 1
          ensures IsTrimmed(s[1..][j])
        {
          assert s[1..][j] == s[j + 1];
        }
      } else {
        var j :| 0 <= j < |s| && !IsTrimmed(s[j]);
        assert s[1..][j - 1] == s[j];
      }
    }
  }

  /** Trailing removal never reaches a first character above U+0020. */
  lemma {:induction false} TrimEndKeepsFirst(t: string)
    requires t != [] && !IsTrimmed(t[0])
    ensures TrimEnd(t) != [] && TrimEnd(t)[0] == t[0]
    decreases |t|
  {
    if IsTrimmed(t[|t| - 1]) {
      TrimEndKeepsFirst(t[..|t| - 1]);
    }
  }
}
