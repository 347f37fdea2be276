/**
 * The pieces of Python's string library that the station-name formatter uses,
 * restricted to ASCII: `str.isspace`, `str.lower`, `str.capitalize`,
 * `str.split()` (on runs of whitespace), `str.split(sep)` and `sep.join(parts)`.
 */
module Text {

  /** ASCII whitespace as Python sees it: space, \t \n \v \f \r and the separators 0x1C-0x1F. */
  predicate IsSpace(c: char) {
    c == ' ' || (9 <= c as int <= 13) || (28 <= c as int <= 31)
  }

  predicate IsUpper(c: char) { 'A' <= c <= 'Z' }

  predicate IsLower(c: char) { 'a' <= c <= 'z' }

  predicate IsLetter(c: char) { IsUpper(c) || IsLower(c) }

  function ToLower(c: char): char {
    if IsUpper(c) then (c as int + 32) as char else c
  }

  function ToUpper(c: char): char {
    if IsLower(c) then (c as int - 32) as char else c
  }

  /** Python's `s.lower()` on ASCII text. */
  function Lower(s: string): (r: string) {
    seq(|s|, i requires 0 <= i < |s| => ToLower(s[i]))
  }

  /** Python's `s.capitalize()` on ASCII text: first character upper, the rest lower. */
  function Capitalize(s: string): (r: string) {
    if s == [] then [] else [ToUpper(s[0])] + Lower(s[1..])
  }

  function LowerAll(parts: seq<string>): (r: seq<string>) {
    seq(|parts|, i requires 0 <= i < |parts| => Lower(parts[i]))
  }

  function CapitalizeAll(parts: seq<string>): (r: seq<string>) {
    seq(|parts|, i requires 0 <= i < |parts| => Capitalize(parts[i]))
  }

  /** `not s or s.isspace()`: the empty string or whitespace only. */
  predicate Blank(s: string) {
    forall i :: 0 <= i < |s| ==> IsSpace(s[i])
  }

  predicate NoSpace(s: string) {
    forall i :: 0 <= i < |s| ==> !IsSpace(s[i])
  }

  /** Python's `sep.join(parts)`. */
  function JoinWith(parts: seq<string>, sep: string): string {
    if |parts| == 0 then []
    else if |parts| == 1 then parts[0]
    else parts[0] + sep + JoinWith(parts[1..], sep)
  }

  /** Python's `s.split(sep)` for a one-character separator: never an empty list. */
  function SplitOn(s: string, sep: char): (parts: seq<string>)
    ensures |parts| >= 1
    ensures forall k :: 0 <= k < |parts| ==> sep !in parts[k]
  {
    if s == [] then [[]]
    else
      var rest := SplitOn(s[1..], sep);
      if s[0] == sep then [[]] + rest
      else [[s[0]] + rest[0]] + rest[1..]
  }

  /** Length of the leading run of non-whitespace characters. */
  function WordLength(s: string): (n: nat)
    requires s != [] && !IsSpace(s[0])
    ensures 1 <= n <= |s|
    ensures NoSpace(s[..n])
    ensures n < |s| ==> IsSpace(s[n])
  {
    if |s| == 1 || IsSpace(s[1]) then 1 else 1 + WordLength(s[1..])
  }

  /** Python's `s.split()`: the maximal runs of non-whitespace characters, in order. */
  function Words(s: string): (ws: seq<string>)
    ensures forall k :: 0 <= k < |ws| ==> ws[k] != [] && NoSpace(ws[k])
    ensures ws == [] <==> Blank(s)
  {
    if s == [] then []
    else if IsSpace(s[0]) then Words(s[1..])
    else
      var n := WordLength(s);
      [s[..n]] + Words(s[n..])
  }

  // ---------------------------------------------------------------- case mapping

  /** Lowering changes letters only, and only in case. */
  lemma ToLowerFacts(c: char)
    ensures ToLower(c) == c <==> !IsUpper(c)
    ensures ToLower(ToLower(c)) == ToLower(c)
    ensures ToLower(ToUpper(c)) == ToLower(c)
    ensures ToUpper(ToLower(c)) == ToUpper(c)
    ensures IsSpace(ToLower(c)) == IsSpace(c)
    ensures !IsLetter(c) ==> ToLower(c) == c && ToUpper(c) == c
  {
  }

  /** A character that is no letter is the lowered form of itself only. */
  lemma ToLowerIs(x: char, c: char)
    requires !IsLetter(c)
    ensures ToLower(x) == c <==> x == c
  {
  }

  lemma {:induction false} LowerConcat(a: string, b: string)
    ensures Lower(a + b) == Lower(a) + Lower(b)
  {
    assert forall i :: 0 <= i < |a + b| ==> Lower(a + b)[i] == (Lower(a) + Lower(b))[i];
  }

  lemma LowerLower(s: string)
    ensures Lower(Lower(s)) == Lower(s)
  {
    forall i | 0 <= i < |s| ensures Lower(Lower(s))[i] == Lower(s)[i] {
      ToLowerFacts(s[i]);
    }
  }

  /** Capitalising a lowered string is capitalising the string. */
  lemma CapitalizeLower(s: string)
    ensures Capitalize(Lower(s)) == Capitalize(s)
  {
    if s != [] {
      ToLowerFacts(s[0]);
      assert Lower(s)[1..] == Lower(s[1..]);
      LowerLower(s[1..]);
    }
  }

  /** Capitalising changes only the case of letters. */
  lemma LowerCapitalize(s: string)
    ensures Lower(Capitalize(s)) == Lower(s)
  {
    if s != [] {
      ToLowerFacts(s[0]);
      LowerConcat([ToUpper(s[0])], Lower(s[1..]));
      LowerLower(s[1..]);
      LowerConcat([s[0]], s[1..]);
      assert s == [s[0]] + s[1..];
    }
  }

  lemma LowerAllCapitalizeAll(parts: seq<string>)
    ensures LowerAll(CapitalizeAll(parts)) == LowerAll(parts)
  {
    forall k | 0 <= k < |parts| ensures LowerAll(CapitalizeAll(parts))[k] == LowerAll(parts)[k] {
      LowerCapitalize(parts[k]);
    }
  }

  lemma CapitalizeAllLowerAll(parts: seq<string>)
    ensures CapitalizeAll(LowerAll(parts)) == CapitalizeAll(parts)
  {
    forall k | 0 <= k < |parts| ensures CapitalizeAll(LowerAll(parts))[k] == CapitalizeAll(parts)[k] {
      CapitalizeLower(parts[k]);
    }
  }

  /** Two strings that agree up to letter case agree on every character that is no letter. */
  lemma SameCaseFold(a: string, b: string, i: nat)
    requires Lower(a) == Lower(b) && i < |a|
    ensures i < |b|
    ensures !IsLetter(a[i]) ==> b[i] == a[i]
    ensures IsSpace(a[i]) == IsSpace(b[i])
    ensures IsLetter(a[i]) ==> b[i] == ToLower(a[i]) || b[i] == ToUpper(a[i])
  {
    assert |a| == |Lower(a)| == |Lower(b)| == |b|;
    assert Lower(a)[i] == Lower(b)[i];
    ToLowerFacts(a[i]);
    ToLowerFacts(b[i]);
  }

  // ---------------------------------------------------------------- join and split

  lemma {:induction false} LowerJoin(parts: seq<string>, sep: string)
    ensures Lower(JoinWith(parts, sep)) == JoinWith(LowerAll(parts), Lower(sep))
  {
    if |parts| >= 2 {
      LowerJoin(parts[1..], sep);
      assert LowerAll(parts)[1..] == LowerAll(parts[1..]);
      LowerConcat(parts[0] + sep, JoinWith(parts[1..], sep));
      LowerConcat(parts[0], sep);
    }
  }

  /** Prepending text to the first part prepends it to the joined string. */
  lemma JoinPrepend(x: string, parts: seq<string>, sep: string)
    requires |parts| >= 1
    ensures JoinWith([x + parts[0]] + parts[1..], sep) == x + JoinWith(parts, sep)
  {
    var ps := [x + parts[0]] + parts[1..];
    assert ps[1..] == parts[1..];
  }

  /** Joining the parts of a split gives back the string. */
  lemma {:induction false} JoinSplit(s: string, sep: char)
    ensures JoinWith(SplitOn(s, sep), [sep]) == s
  {
    if s != [] {
      var rest := SplitOn(s[1..], sep);
      JoinSplit(s[1..], sep);
      if s[0] == sep {
        assert ([[]] + rest)[1..] == rest;
      } else {
        JoinPrepend([s[0]], rest, [sep]);
      }
      assert s == [s[0]] + s[1..];
    }
  }

  /** One step of `SplitOn` on a character that is not the separator. */
  lemma SplitOnCons(c: char, t: string, sep: char)
    requires c != sep
    ensures SplitOn([c] + t, sep) == [[c] + SplitOn(t, sep)[0]] + SplitOn(t, sep)[1..]
  {
    assert ([c] + t)[1..] == t;
  }

  /** Splitting text that starts with a separator-free run extends that run's part. */
  lemma {:induction false} SplitOnPrefix(x: string, y: string, sep: char)
    requires sep !in x
    ensures SplitOn(x + y, sep) == [x + SplitOn(y, sep)[0]] + SplitOn(y, sep)[1..]
  {
    var ys := SplitOn(y, sep);
    if x == [] {
      assert x + y == y && x + ys[0] == ys[0];
      assert ys == [ys[0]] + ys[1..];
    } else {
      var tail := x[1..];
      assert x + y == [x[0]] + (tail + y);
      SplitOnPrefix(tail, y, sep);
      SplitOnCons(x[0], tail + y, sep);
      assert [x[0]] + (tail + ys[0]) == x + ys[0];
    }
  }

  /** Splitting the join of separator-free parts gives back the parts. */
  lemma {:induction false} SplitJoin(parts: seq<string>, sep: char)
    requires |parts| >= 1
    requires forall k :: 0 <= k < |parts| ==> sep !in parts[k]
    ensures SplitOn(JoinWith(parts, [sep]), sep) == parts
  {
    if |parts| == 1 {
      SplitOnPrefix(parts[0], [], sep);
      assert parts[0] + [] == parts[0];
    } else {
      SplitJoin(parts[1..], sep);
      var tail := JoinWith(parts[1..], [sep]);
      assert JoinWith(parts, [sep]) == parts[0] + ([sep] + tail);
      SplitOnPrefix(parts[0], [sep] + tail, sep);
      assert ([sep] + tail)[1..] == tail;
      assert SplitOn([sep] + tail, sep) == [[]] + parts[1..];
      assert parts[0] + [] == parts[0];
      assert parts == [parts[0]] + parts[1..];
    }
  }

  lemma LowerAllCons(a: string, rest: seq<string>)
    ensures LowerAll([a] + rest) == [Lower(a)] + LowerAll(rest)
  {
  }

  /** Splitting commutes with lowering when the separator is no letter. */
  lemma {:induction false} SplitOnLower(s: string, sep: char)
    requires !IsLetter(sep)
    ensures SplitOn(Lower(s), sep) == LowerAll(SplitOn(s, sep))
  {
    if s != [] {
      var low := Lower(s);
      var rest := SplitOn(s[1..], sep);
      assert low[1..] == Lower(s[1..]);
      SplitOnLower(s[1..], sep);
      ToLowerIs(s[0], sep);
      if s[0] == sep {
        assert low[0] == sep;
        assert SplitOn(low, sep) == [[]] + SplitOn(low[1..], sep);
        assert SplitOn(s, sep) == [[]] + rest;
        LowerAllCons([], rest);
        assert Lower([]) == [];
      } else {
        assert low[0] == ToLower(s[0]) != sep;
        var lrest := LowerAll(rest);
        assert SplitOn(low, sep) == [[low[0]] + lrest[0]] + lrest[1..];
        LowerAllCons([s[0]] + rest[0], rest[1..]);
        LowerConcat([s[0]], rest[0]);
        LowerAllCons(rest[0], rest[1..]);
        assert rest == [rest[0]] + rest[1..];
        assert lrest[0] == Lower(rest[0]) && lrest[1..] == LowerAll(rest[1..]);
        assert SplitOn(s, sep) == [[s[0]] + rest[0]] + rest[1..];
        assert Lower([s[0]]) == [low[0]];
      }
    }
  }

  /** Lowering neither adds nor removes a character that is no letter. */
  lemma NonLetterInLower(s: string, c: char)
    requires !IsLetter(c)
    ensures c in Lower(s) <==> c in s
  {
    if c in s {
      var i :| 0 <= i < |s| && s[i] == c;
      assert Lower(s)[i] == c;
    }
    if c in Lower(s) {
      var i :| 0 <= i < |s| && Lower(s)[i] == c;
      ToLowerIs(s[i], c);
    }
  }

  /** A string that agrees with a separator-free string up to case is separator-free. */
  lemma NoSepUpToCase(a: string, b: string, sep: char)
    requires !IsLetter(sep) && Lower(a) == Lower(b) && sep !in a
    ensures sep !in b
  {
    forall i | 0 <= i < |b| ensures b[i] != sep {
      SameCaseFold(b, a, i);
    }
  }

  // ---------------------------------------------------------------- words

  /** A non-empty run without whitespace is a single word. */
  lemma WordsOfWord(w: string)
    requires w != [] && NoSpace(w)
    ensures WordLength(w) == |w|
    ensures Words(w) == [w]
  {
    var n := WordLength(w);
    assert w[..n] == w;
  }

  /** A space right after a word ends it: what follows the space does not lengthen it. */
  lemma {:induction false} WordLengthAtSpace(a: string, t: string)
    requires a != [] && !IsSpace(a[0]) && t != [] && IsSpace(t[0])
    ensures WordLength(a + t) == WordLength(a)
    decreases |a|
  {
    if |a| > 1 && !IsSpace(a[1]) {
      assert (a + t)[1..] == a[1..] + t;
      WordLengthAtSpace(a[1..], t);
    }
  }

  /** Whitespace separates words: the words around a space are the words of each side. */
  lemma {:induction false} WordsAtSpace(a: string, c: char, b: string)
    requires IsSpace(c)
    ensures Words(a + [c] + b) == Words(a) + Words(b)
    decreases |a|
  {
    var s := a + [c] + b;
    if a == [] {
      assert s[1..] == b;
    } else if IsSpace(a[0]) {
      assert s[1..] == a[1..] + [c] + b;
      WordsAtSpace(a[1..], c, b);
    } else {
      assert s == a + ([c] + b);
      WordLengthAtSpace(a, [c] + b);
      var n := WordLength(a);
      assert s[..n] == a[..n];
      assert s[n..] == a[n..] + [c] + b;
      WordsAtSpace(a[n..], c, b);
    }
  }

  /** A word followed by a space and more text splits into the word and the words of the rest. */
  lemma WordsOfSpaced(w: string, t: string)
    requires w != [] && NoSpace(w)
    ensures Words((w + " ") + t) == [w] + Words(t)
  {
    var s := (w + " ") + t;
    assert s[0] == w[0];
    var n := WordLength(s);
    assert forall k :: 0 <= k < |w| ==> s[k] == w[k];
    assert IsSpace(s[|w|]);
    assert forall k :: 0 <= k < n ==> s[..n][k] == s[k];
    assert n == |w|;
    assert s[..n] == w;
    assert s[n..] == " " + t;
    assert (" " + t)[1..] == t;
  }

  /** Splitting the single-space join of words gives back the words. */
  lemma {:induction false} WordsOfJoin(ws: seq<string>)
    requires forall k :: 0 <= k < |ws| ==> ws[k] != [] && NoSpace(ws[k])
    ensures Words(JoinWith(ws, " ")) == ws
  {
    if |ws| == 1 {
      WordsOfWord(ws[0]);
    } else if |ws| >= 2 {
      WordsOfSpaced(ws[0], JoinWith(ws[1..], " "));
      WordsOfJoin(ws[1..]);
      assert ws == [ws[0]] + ws[1..];
    }
  }
}
