/** The Python string operations the bot's decisions rest on: `str.lower()`,
    `str.strip()`, `str.split()`, the substring test `a in b`, `sep.join(xs)`,
    `str.title()` and the code-point order `a < b`. Strings are sequences of
    Unicode scalar values, as Python's `str` is. */
module Text {

  /** Python's `str.isspace()` on one character: the characters `strip()`
      and `split()` treat as whitespace. */
  predicate IsSpace(c: char) {
    || ('\t' <= c <= '\r')                  // U+0009 .. U+000D
    || ('\U{1C}' <= c <= '\U{1F}')          // file/group/record/unit separators
    || c == ' '
    || c == '\U{85}' || c == '\U{A0}' || c == '\U{1680}'
    || ('\U{2000}' <= c <= '\U{200A}')
    || c == '\U{2028}' || c == '\U{2029}' || c == '\U{202F}'
    || c == '\U{205F}' || c == '\U{3000}'
  }

  /** Every character of `s` is whitespace (vacuously true of ""). */
  predicate Blank(s: string) {
    forall k :: 0 <= k < |s| ==> IsSpace(s[k])
  }

  /** No character of `s` is whitespace. */
  predicate NoSpace(s: string) {
    forall k :: 0 <= k < |s| ==> !IsSpace(s[k])
  }

  // ---------------------------------------------------------------------
  // lower()

  /** An upper-case letter of ASCII or Latin-1 (À..Þ without ×). */
  predicate IsUpper(c: char) {
    ('A' <= c <= 'Z') || ('\U{C0}' <= c <= '\U{DE}' && c != '\U{D7}')
  }

  function LowerChar(c: char): (r: char)
    ensures IsUpper(c) ==> r as int == c as int + 32
    ensures !IsUpper(c) ==> r == c
    ensures !IsUpper(r)
  {
    if IsUpper(c) then (c as int + 32) as char else c
  }

  /** `s.lower()`: maps every upper-case letter to its lower-case form. */
  function Lower(s: string): (r: string)
    ensures |r| == |s|
    ensures forall k :: 0 <= k < |s| ==> r[k] == LowerChar(s[k])
  {
    seq(|s|, k requires 0 <= k < |s| => LowerChar(s[k]))
  }

  lemma LowerIdempotent(s: string)
    ensures Lower(Lower(s)) == Lower(s)
  {
  }

  /** Lower-casing never creates nor removes whitespace. */
  lemma LowerKeepsSpace(c: char)
    ensures IsSpace(LowerChar(c)) == IsSpace(c)
  {
  }

  // ---------------------------------------------------------------------
  // Substring test `needle in hay`

  /** `needle` occurs in `hay` starting at index `i`. */
  predicate OccursAt(needle: string, hay: string, i: int) {
    0 <= i && i + |needle| <= |hay| && hay[i..i + |needle|] == needle
  }

  /** Python's `needle in hay` on strings. The empty string is in every string. */
  function Contains(needle: string, hay: string): (r: bool)
    decreases |hay|
    ensures r <==> exists i :: OccursAt(needle, hay, i)
  {
    if needle <= hay then
      assert OccursAt(needle, hay, 0);
      true
    else if |hay| == 0 then
      assert forall i :: !OccursAt(needle, hay, i);
      false
    else
      var r := Contains(needle, hay[1..]);
      assert forall i :: OccursAt(needle, hay[1..], i) <==> OccursAt(needle, hay, i + 1) by {
        forall i ensures OccursAt(needle, hay[1..], i) <==> OccursAt(needle, hay, i + 1) {
          if 0 <= i && i + |needle| <= |hay| - 1 {
            assert hay[1..][i..i + |needle|] == hay[i + 1..i + 1 + |needle|];
          }
        }
      }
      assert !OccursAt(needle, hay, 0) by {
        if |needle| <= |hay| { assert hay[..|needle|] != needle; }
      }
      assert r ==> OccursAt(needle, hay, OccurrenceIn(needle, hay[1..]) + 1);
      assert (exists i :: OccursAt(needle, hay, i)) ==> r by {
        if exists i :: OccursAt(needle, hay, i) {
          var i := OccurrenceIn(needle, hay);
          assert OccursAt(needle, hay[1..], i - 1);
        }
      }
      r
  }

  /** The first index at which `needle` occurs in `hay` (used as a witness). */
  ghost function OccurrenceIn(needle: string, hay: string): (i: int)
    requires exists i :: OccursAt(needle, hay, i)
    ensures OccursAt(needle, hay, i)
  {
    var i :| OccursAt(needle, hay, i); i
  }

  /** A substring of a substring is a substring. */
  lemma {:induction false} ContainsTransitive(a: string, b: string, c: string)
    requires Contains(a, b) && Contains(b, c)
    ensures Contains(a, c)
  {
    OccursAtTransitive(a, b, c, OccurrenceIn(a, b), OccurrenceIn(b, c));
  }

  lemma OccursAtTransitive(a: string, b: string, c: string, i: int, j: int)
    requires OccursAt(a, b, i) && OccursAt(b, c, j)
    ensures OccursAt(a, c, j + i)
  {
    forall k | 0 <= k < |a| ensures c[j + i + k] == a[k] {
      assert a[k] == b[i..i + |a|][k] == b[i + k];
      assert b[i + k] == c[j..j + |b|][i + k];
    }
  }

  /** Every character of a contained string is a character of the container. */
  lemma ContainsChar(needle: string, hay: string, ch: char)
    requires Contains(needle, hay) && ch in needle
    ensures ch in hay
  {
    var i := OccurrenceIn(needle, hay);
    var k :| 0 <= k < |needle| && needle[k] == ch;
    assert hay[i + k] == hay[i..i + |needle|][k];
  }

  /** The empty string is in every string. */
  lemma EmptyContained(hay: string)
    ensures Contains("", hay)
  {
    assert OccursAt("", hay, 0);
  }

  /** Python's `any(w in s for w in words)`, tried word by word. */
  predicate AnyIn(words: seq<string>, s: string)
    ensures AnyIn(words, s) <==> exists k :: 0 <= k < |words| && Contains(words[k], s)
  {
    words != [] && (Contains(words[0], s) || AnyIn(words[1..], s))
  }

  /** Python's `all(w in s for w in words)`. */
  predicate AllIn(words: seq<string>, s: string) {
    forall w :: w in words ==> Contains(w, s)
  }

  // ---------------------------------------------------------------------
  // strip()

  function TrimLeft(s: string): (r: string)
    decreases |s|
    ensures |r| <= |s| && r == s[|s| - |r|..]
    ensures Blank(s[..|s| - |r|])
    ensures r == [] || !IsSpace(r[0])
  {
    if s != [] && IsSpace(s[0]) then TrimLeft(s[1..]) else s
  }

  function TrimRight(s: string): (r: string)
    decreases |s|
    ensures |r| <= |s| && r == s[..|r|]
    ensures Blank(s[|r|..])
    ensures r == [] || !IsSpace(r[|r| - 1])
  {
    if s != [] && IsSpace(s[|s| - 1]) then
      var r := TrimRight(s[..|s| - 1]);
      assert s[|r|..] == s[..|s| - 1][|r|..] + [s[|s| - 1]];
      r
    else s
  }

  /** `s` is `r` with only whitespace around it. */
  ghost predicate PaddedBy(s: string, r: string) {
    exists i :: OccursAt(r, s, i) && Blank(s[..i]) && Blank(s[i + |r|..])
  }

  /** `s.strip()`: drops leading and trailing whitespace and nothing else. */
  function Strip(s: string): (r: string)
    ensures PaddedBy(s, r)
    ensures r == [] || (!IsSpace(r[0]) && !IsSpace(r[|r| - 1]))
  {
    var left := TrimLeft(s);
    var r := TrimRight(left);
    var i := |s| - |left|;
    assert s[i..i + |r|] == r;
    assert s[i + |r|..] == left[|r|..];
    assert OccursAt(r, s, i);
    assert Blank(s[..i]) && Blank(s[i + |r|..]);
    assert r != [] ==> r[0] == left[0];
    r
  }

  /** A string without surrounding whitespace is its own `strip()`. */
  lemma StripUnpadded(s: string)
    requires s == [] || (!IsSpace(s[0]) && !IsSpace(s[|s| - 1]))
    ensures Strip(s) == s
  {
  }

  lemma StripIdempotent(s: string)
    ensures Strip(Strip(s)) == Strip(s)
  {
    StripUnpadded(Strip(s));
  }

  /** The query normalisation `text.lower().strip()`. */
  function Normalize(s: string): string {
    Strip(Lower(s))
  }

  /** Normalising an already normalised text changes nothing, so the lookup's
      own `texto.lower().strip()` is a no-op on the router's `pregunta`. */
  lemma {:induction false} NormalizeIdempotent(s: string)
    ensures Normalize(Normalize(s)) == Normalize(s)
  {
    var low := Lower(s);
    var n := Strip(low);
    LowerOfLowered(n, low, OccurrenceIn(n, low));
    StripUnpadded(n);
  }

  /** A piece of lower-cased text is already lower case. */
  lemma LowerOfLowered(n: string, low: string, i: int)
    requires forall k :: 0 <= k < |low| ==> !IsUpper(low[k])
    requires OccursAt(n, low, i)
    ensures Lower(n) == n
  {
    forall k | 0 <= k < |n| ensures LowerChar(n[k]) == n[k] {
      assert n[k] == low[i..i + |n|][k] == low[i + k];
    }
  }

  // ---------------------------------------------------------------------
  // split()

  /** Length of the run of non-whitespace characters that starts `s`. */
  function WordLength(s: string): (n: nat)
    decreases |s|
    ensures n <= |s| && NoSpace(s[..n])
    ensures n == |s| || IsSpace(s[n])
    ensures NoSpace(s) ==> n == |s|
  {
    if s == [] || IsSpace(s[0]) then 0 else 1 + WordLength(s[1..])
  }

  /** `s.split()` with no separator: the maximal runs of non-whitespace
      characters, in order; leading, trailing and repeated whitespace yield
      no empty words. */
  function Split(s: string): (words: seq<string>)
    decreases |s|
    ensures forall w :: w in words ==> w != [] && NoSpace(w)
  {
    if s == [] then []
    else if IsSpace(s[0]) then Split(s[1..])
    else
      var n := WordLength(s);
      [s[..n]] + Split(s[n..])
  }

  /** Every word of `s.split()` is a substring of `s`. */
  lemma {:induction false} SplitWordsOccur(s: string)
    ensures forall w :: w in Split(s) ==> Contains(w, s)
    decreases |s|
  {
    if s == [] {
    } else if IsSpace(s[0]) {
      SplitWordsOccur(s[1..]);
      forall w | w in Split(s) ensures Contains(w, s) {
        assert OccursAt(s[1..], s, 1);
        ContainsTransitive(w, s[1..], s);
      }
    } else {
      var n := WordLength(s);
      SplitWordsOccur(s[n..]);
      forall w | w in Split(s) ensures Contains(w, s) {
        if w == s[..n] {
          assert OccursAt(w, s, 0);
        } else {
          assert w in Split(s[n..]);
          assert OccursAt(s[n..], s, n);
          ContainsTransitive(w, s[n..], s);
        }
      }
    }
  }

  /** A whitespace-only (or empty) string splits into no words. */
  lemma {:induction false} SplitBlank(s: string)
    requires Blank(s)
    ensures Split(s) == []
    decreases |s|
  {
    if s != [] {
      SplitBlank(s[1..]);
    }
  }

  /** A non-empty string without whitespace is its own single word. */
  lemma SplitOneWord(s: string)
    requires s != [] && NoSpace(s)
    ensures Split(s) == [s]
  {
    var n := WordLength(s);
    assert s[..n] == s && s[n..] == [];
  }

  /** A word followed by whitespace (or by nothing) is split off whole. */
  lemma SplitCons(w: string, rest: string)
    requires w != [] && NoSpace(w) && (rest == [] || IsSpace(rest[0]))
    ensures Split(w + rest) == [w] + Split(rest)
  {
    WordLengthOf(w, rest);
    assert (w + rest)[..|w|] == w && (w + rest)[|w|..] == rest;
  }

  /** The first word of `w + rest` is exactly `w`. */
  lemma {:induction false} WordLengthOf(w: string, rest: string)
    requires NoSpace(w) && (rest == [] || IsSpace(rest[0]))
    ensures WordLength(w + rest) == |w|
    decreases |w|
  {
    if w != [] {
      assert (w + rest)[1..] == w[1..] + rest;
      WordLengthOf(w[1..], rest);
    } else {
      assert w + rest == rest;
    }
  }

  /** Whitespace in front of the text is dropped. */
  lemma SplitSpace(c: char, rest: string)
    requires IsSpace(c)
    ensures Split([c] + rest) == Split(rest)
  {
    assert ([c] + rest)[1..] == rest;
  }

  /** `split()` undoes `" ".join` of words without whitespace: the words
      come back, all of them, in order. */
  lemma {:induction false} SplitJoin(ws: seq<string>)
    requires forall k :: 0 <= k < |ws| ==> ws[k] != [] && NoSpace(ws[k])
    ensures Split(Join(ws, " ")) == ws
    decreases |ws|
  {
    if |ws| == 1 {
      SplitOneWord(ws[0]);
    } else if |ws| > 1 {
      var j := Join(ws[1..], " ");
      SplitJoin(ws[1..]);
      SplitSpace(' ', j);
      SplitCons(ws[0], " " + j);
      assert Join(ws, " ") == ws[0] + (" " + j);
      assert [ws[0]] + ws[1..] == ws;
    }
  }

  /** `"parque san martin".split()` is its three words, in order. */
  lemma SplitParqueSanMartin()
    ensures Split("parque san martin") == ["parque", "san", "martin"]
  {
    var ws := ["parque", "san", "martin"];
    assert Join(ws, " ") == "parque san martin";
    SplitJoin(ws);
  }

  // ---------------------------------------------------------------------
  // sep.join(xs)

  /** `sep.join(xs)`: the items in order with `sep` between neighbours. */
  function Join(xs: seq<string>, sep: string): string {
    if xs == [] then ""
    else if |xs| == 1 then xs[0]
    else xs[0] + sep + Join(xs[1..], sep)
  }

  /** Appending an item appends the separator and the item: the items stay in
      their original order. */
  lemma {:induction false} JoinSnoc(xs: seq<string>, x: string, sep: string)
    requires xs != []
    ensures Join(xs + [x], sep) == Join(xs, sep) + sep + x
    decreases |xs|
  {
    if |xs| == 1 {
      assert (xs + [x])[1..] == [x];
    } else {
      assert (xs + [x])[1..] == xs[1..] + [x];
      JoinSnoc(xs[1..], x, sep);
    }
  }

  /** Every item is part of the joined string. */
  lemma {:induction false} JoinContainsItems(xs: seq<string>, sep: string, k: nat)
    requires k < |xs|
    ensures Contains(xs[k], Join(xs, sep))
    decreases |xs|
  {
    if k == 0 {
      assert OccursAt(xs[0], Join(xs, sep), 0);
    } else {
      JoinContainsItems(xs[1..], sep, k - 1);
      var tail := Join(xs[1..], sep);
      assert OccursAt(tail, Join(xs, sep), |xs[0]| + |sep|);
      ContainsTransitive(xs[k], tail, Join(xs, sep));
    }
  }

  // ---------------------------------------------------------------------
  // Ordering `a < b` on str (code-point lexicographic order)

  predicate StrLess(a: string, b: string)
    decreases |a|
  {
    if a == [] then b != []
    else if b == [] then false
    else if a[0] == b[0] then StrLess(a[1..], b[1..])
    else a[0] < b[0]
  }

  lemma {:induction false} StrLessIrreflexive(a: string)
    ensures !StrLess(a, a)
    decreases |a|
  {
    if a != [] { StrLessIrreflexive(a[1..]); }
  }

  lemma {:induction false} StrLessTransitive(a: string, b: string, c: string)
    requires StrLess(a, b) && StrLess(b, c)
    ensures StrLess(a, c)
    decreases |a|
  {
    if a != [] && a[0] == b[0] && b[0] == c[0] {
      StrLessTransitive(a[1..], b[1..], c[1..]);
    }
  }

  /** Any two different strings are ordered one way or the other. */
  lemma {:induction false} StrLessTotal(a: string, b: string)
    requires a != b
    ensures StrLess(a, b) || StrLess(b, a)
    decreases |a|
  {
    if a != [] && b != [] && a[0] == b[0] {
      assert a == [a[0]] + a[1..] && b == [b[0]] + b[1..];
      StrLessTotal(a[1..], b[1..]);
    }
  }

  /** `StrLess` is Python's `a < b` on `str`: `a` is a proper prefix of
      `b`, or at the first position where they differ `a` has the smaller
      code point. */
  lemma {:induction false} StrLessMeaning(a: string, b: string)
    ensures StrLess(a, b) <==>
      || (|a| < |b| && a == b[..|a|])
      || (exists i :: 0 <= i < |a| && i < |b| && a[..i] == b[..i] && a[i] < b[i])
    decreases |a|
  {
    if a == [] || b == [] {
    } else if a[0] == b[0] {
      StrLessMeaning(a[1..], b[1..]);
      PrefixShift(a, b);
      DifferenceShift(a, b);
    } else {
      if a[0] < b[0] {
        assert a[..0] == b[..0];
      }
    }
  }

  lemma PrefixShift(a: string, b: string)
    requires a != [] && b != [] && a[0] == b[0]
    ensures (|a| < |b| && a == b[..|a|]) <==> (|a[1..]| < |b[1..]| && a[1..] == b[1..][..|a[1..]|])
  {
    if |a| < |b| && a[1..] == b[1..][..|a[1..]|] {
      assert a == [a[0]] + a[1..];
      assert b[..|a|] == [b[0]] + b[1..][..|a[1..]|];
    }
  }

  lemma DifferenceShift(a: string, b: string)
    requires a != [] && b != [] && a[0] == b[0]
    ensures (exists i :: 0 <= i < |a| && i < |b| && a[..i] == b[..i] && a[i] < b[i])
      <==> (exists i :: 0 <= i < |a[1..]| && i < |b[1..]| && a[1..][..i] == b[1..][..i] && a[1..][i] < b[1..][i])
  {
    var a', b' := a[1..], b[1..];
    if exists i :: 0 <= i < |a| && i < |b| && a[..i] == b[..i] && a[i] < b[i] {
      var i :| 0 <= i < |a| && i < |b| && a[..i] == b[..i] && a[i] < b[i];
      assert i != 0;
      assert a'[..i - 1] == a[..i][1..] && b'[..i - 1] == b[..i][1..];
      assert a'[i - 1] < b'[i - 1];
      assert 0 <= i - 1 < |a'| && i - 1 < |b'| && a'[..i - 1] == b'[..i - 1];
    }
    if exists i :: 0 <= i < |a'| && i < |b'| && a'[..i] == b'[..i] && a'[i] < b'[i] {
      var i :| 0 <= i < |a'| && i < |b'| && a'[..i] == b'[..i] && a'[i] < b'[i];
      assert a[..i + 1] == [a[0]] + a'[..i] && b[..i + 1] == [b[0]] + b'[..i];
      assert a[i + 1] < b[i + 1];
      assert 0 <= i + 1 < |a| && i + 1 < |b| && a[..i + 1] == b[..i + 1];
    }
  }

  // ---------------------------------------------------------------------
  // title()

  /** A character that has case (ASCII and Latin-1 letters, ª, µ, º). */
  predicate IsCased(c: char) {
    || ('A' <= c <= 'Z') || ('a' <= c <= 'z')
    || ('\U{C0}' <= c <= '\U{FF}' && c != '\U{D7}' && c != '\U{F7}')
    || c == '\U{AA}' || c == '\U{B5}' || c == '\U{BA}'
  }

  /** The title-case form of one character; ß becomes the two letters "Ss". */
  function TitleChar(c: char): seq<char> {
    if 'a' <= c <= 'z' || ('\U{E0}' <= c <= '\U{FE}' && c != '\U{F7}') then [(c as int - 32) as char]
    else if c == '\U{DF}' then "Ss"
    else if c == '\U{FF}' then ['\U{178}']
    else if c == '\U{B5}' then ['\U{39C}']
    else [c]
  }

  function TitleFrom(s: string, previousCased: bool): string
    decreases |s|
  {
    if s == [] then []
    else
      (if previousCased then [LowerChar(s[0])] else TitleChar(s[0]))
      + TitleFrom(s[1..], IsCased(s[0]))
  }

  /** `s.title()`: a letter that follows a cased character is lower-cased,
      any other character is title-cased. */
  function Title(s: string): string {
    TitleFrom(s, false)
  }

  predicate IsAscii(s: string) {
    forall k :: 0 <= k < |s| ==> s[k] < '\U{80}'
  }

  /** On ASCII text `title()` only changes the case of letters: it keeps the
      length, and lower-casing it again gives back `s.lower()`. */
  lemma {:induction false} TitleOnlyChangesCase(s: string, previousCased: bool)
    requires IsAscii(s)
    ensures |TitleFrom(s, previousCased)| == |s|
    ensures Lower(TitleFrom(s, previousCased)) == Lower(s)
    decreases |s|
  {
    if s != [] {
      TitleOnlyChangesCase(s[1..], IsCased(s[0]));
      var head := if previousCased then [LowerChar(s[0])] else TitleChar(s[0]);
      assert |head| == 1 && LowerChar(head[0]) == LowerChar(s[0]);
      var t := TitleFrom(s, previousCased);
      assert t == head + TitleFrom(s[1..], IsCased(s[0]));
      forall k | 0 <= k < |s| ensures Lower(t)[k] == Lower(s)[k] {
        if k > 0 {
          assert t[k] == TitleFrom(s[1..], IsCased(s[0]))[k - 1];
          assert Lower(TitleFrom(s[1..], IsCased(s[0])))[k - 1] == Lower(s[1..])[k - 1];
        }
      }
    }
  }

  /** ASCII `str.upper()` on one character. */
  function UpperAscii(c: char): char {
    if 'a' <= c <= 'z' then (c as int - 32) as char else c
  }

  /** On ASCII text, `title()` upper-cases every character that does not
      follow a cased character and lower-cases every one that does. */
  lemma {:induction false} TitleCapitalises(s: string, previousCased: bool, k: nat)
    requires IsAscii(s) && k < |s|
    ensures k < |TitleFrom(s, previousCased)|
    ensures TitleFrom(s, previousCased)[k] ==
      if (if k == 0 then previousCased else IsCased(s[k - 1])) then LowerChar(s[k])
      else UpperAscii(s[k])
    decreases k
  {
    TitleOnlyChangesCase(s, previousCased);
    var rest := TitleFrom(s[1..], IsCased(s[0]));
    var head := if previousCased then [LowerChar(s[0])] else TitleChar(s[0]);
    assert |head| == 1;
    assert TitleFrom(s, previousCased) == head + rest;
    if k > 0 {
      TitleCapitalises(s[1..], IsCased(s[0]), k - 1);
      assert s[1..][k - 1] == s[k];
      if k > 1 { assert s[1..][k - 2] == s[k - 1]; }
    }
  }
}
