/**
 * Title-casing of NOAA station names (`normalize_station_name` and its
 * nested helper `format_word` in tools/data-pipeline/build_database.py).
 *
 * A name is split into whitespace-separated words; each word is formatted on
 * its own, knowing whether it is the first word and whether the previous
 * formatted word ends with an opening parenthesis; the results are joined by
 * single spaces. Blank names pass through unchanged.
 */
module StationNames {
  import opened Text

  /** Articles, conjunctions and short prepositions that stay lowercase inside a name. */
  const MinorWords: set<string> := {"the", "of", "and", "at", "in", "on", "a", "an", "to"}

  predicate EndsWith(s: string, c: char) {
    |s| > 0 && s[|s| - 1] == c
  }

  /**
   * `format_word`: a leading "(" is kept and the rest is formatted as the start
   * of a phrase; a word with an apostrophe has each apostrophe-separated part
   * capitalised; a trailing "," is kept and the rest formatted; a minor word
   * that neither opens the name nor follows "(" is lowered; any other word is
   * capitalised.
   */
  function FormatWord(word: string, isFirst: bool, afterParen: bool): string
    decreases |word|
  {
    if word == [] then word
    else if word[0] == '(' then
      if |word| == 1 then word else "(" + FormatWord(word[1..], true, true)
    else if '\'' in word then JoinWith(CapitalizeAll(SplitOn(word, '\'')), "'")
    else if word[|word| - 1] == ',' then FormatWord(word[..|word| - 1], isFirst, afterParen) + ","
    else
      var lower := Lower(word);
      if !isFirst && !afterParen && lower in MinorWords then lower else Capitalize(lower)
  }

  /**
   * The formatted words of a name, built left to right: the word at position i
   * follows "(" when the formatted word before it ends with "(".
   */
  function FormatAll(words: seq<string>): (r: seq<string>)
    ensures |r| == |words|
  {
    if words == [] then []
    else
      var i := |words| - 1;
      var prev := FormatAll(words[..i]);
      prev + [FormatWord(words[i], i == 0, i > 0 && EndsWith(prev[i - 1], '('))]
  }

  /** `normalize_station_name`. */
  function NormalizedName(name: string): string {
    if Blank(name) then name else JoinWith(FormatAll(Words(name)), " ")
  }

  /** The rule for a word without "(", apostrophe or trailing ",": lowered minor word or capitalised. */
  function TitleWord(word: string, opensPhrase: bool): string {
    if !opensPhrase && Lower(word) in MinorWords then Lower(word) else Capitalize(word)
  }

  /** A word with no leading "(", no apostrophe and no trailing ",". */
  predicate Plain(word: string) {
    word != [] && word[0] != '(' && '\'' !in word && !EndsWith(word, ',')
  }

  /**
   * The loop of `normalize_station_name`: `result` grows one formatted word
   * per input word, and `after_paren` looks at the last formatted word.
   */
  method NormalizeStationName(name: string) returns (r: string)
    ensures Blank(name) ==> r == name
    ensures r == NormalizedName(name)
  {
    if Blank(name) {
      return name;
    }
    var words := Words(name);
    var result: seq<string> := [];
    var i := 0;
    while i < |words|
      invariant 0 <= i <= |words|
      invariant result == FormatAll(words[..i])
    {
      var isFirst := i == 0;
      var afterParen := i > 0 && EndsWith(result[|result| - 1], '(');
      result := result + [FormatWord(words[i], isFirst, afterParen)];
      i := i + 1;
      assert words[..i][..i - 1] == words[..i - 1];
    }
    assert words[..i] == words;
    r := JoinWith(result, " ");
  }

  // ---------------------------------------------------------------- one word

  /** Formatting a word changes the case of its letters and nothing else. */
  lemma {:induction false} FormatWordChangesOnlyCase(word: string, isFirst: bool, afterParen: bool)
    ensures Lower(FormatWord(word, isFirst, afterParen)) == Lower(word)
    decreases |word|
  {
    var r := FormatWord(word, isFirst, afterParen);
    if word == [] {
    } else if word[0] == '(' {
      if |word| > 1 {
        FormatWordChangesOnlyCase(word[1..], true, true);
        LowerConcat("(", FormatWord(word[1..], true, true));
        LowerConcat("(", word[1..]);
        assert word == "(" + word[1..];
      }
    } else if '\'' in word {
      var parts := SplitOn(word, '\'');
      LowerJoin(CapitalizeAll(parts), "'");
      LowerAllCapitalizeAll(parts);
      LowerJoin(parts, "'");
      JoinSplit(word, '\'');
    } else if word[|word| - 1] == ',' {
      var stem := word[..|word| - 1];
      FormatWordChangesOnlyCase(stem, isFirst, afterParen);
      LowerConcat(FormatWord(stem, isFirst, afterParen), ",");
      LowerConcat(stem, ",");
      assert word == stem + ",";
    } else {
      LowerLower(word);
      LowerCapitalize(Lower(word));
    }
  }

  /** Formatting looks at a word only up to letter case. */
  lemma {:induction false} FormatWordIgnoresCase(word: string, isFirst: bool, afterParen: bool)
    ensures FormatWord(word, isFirst, afterParen) == FormatWord(Lower(word), isFirst, afterParen)
    decreases |word|
  {
    var low := Lower(word);
    if word != [] {
      ToLowerIs(word[0], '(');
      NonLetterInLower(word, '\'');
      ToLowerIs(word[|word| - 1], ',');
      assert low[0] == ToLower(word[0]) && low[|low| - 1] == ToLower(word[|word| - 1]);
      if word[0] == '(' {
        if |word| > 1 {
          assert low[1..] == Lower(word[1..]);
          FormatWordIgnoresCase(word[1..], true, true);
        }
      } else if '\'' in word {
        SplitOnLower(word, '\'');
        CapitalizeAllLowerAll(SplitOn(word, '\''));
      } else if word[|word| - 1] == ',' {
        assert low[..|low| - 1] == Lower(word[..|word| - 1]);
        FormatWordIgnoresCase(word[..|word| - 1], isFirst, afterParen);
      } else {
        LowerLower(word);
      }
    }
  }

  /** Formatting an already formatted word changes nothing. */
  lemma FormatWordIdempotent(word: string, isFirst: bool, afterParen: bool)
    ensures var r := FormatWord(word, isFirst, afterParen);
            FormatWord(r, isFirst, afterParen) == r
  {
    var r := FormatWord(word, isFirst, afterParen);
    FormatWordIgnoresCase(r, isFirst, afterParen);
    FormatWordChangesOnlyCase(word, isFirst, afterParen);
    FormatWordIgnoresCase(word, isFirst, afterParen);
  }

  /** Strings equal up to case agree on ending with a character that is no letter. */
  lemma EndsWithUpToCase(a: string, b: string, c: char)
    requires Lower(a) == Lower(b) && !IsLetter(c)
    ensures EndsWith(a, c) == EndsWith(b, c)
  {
    assert |a| == |Lower(a)| == |Lower(b)| == |b|;
    if |a| > 0 {
      SameCaseFold(a, b, |a| - 1);
    }
  }

  /** A formatted word is still a non-empty run without whitespace. */
  lemma FormattedWordShape(word: string, isFirst: bool, afterParen: bool)
    requires word != [] && NoSpace(word)
    ensures var r := FormatWord(word, isFirst, afterParen);
            r != [] && NoSpace(r)
  {
    var r := FormatWord(word, isFirst, afterParen);
    FormatWordChangesOnlyCase(word, isFirst, afterParen);
    assert |r| == |Lower(r)| == |Lower(word)| == |word|;
    forall i | 0 <= i < |r| ensures !IsSpace(r[i]) {
      SameCaseFold(word, r, i);
    }
  }

  // ---------------------------------------------------------------- all words

  /** A formatted word ends with "(" exactly when its raw word does. */
  lemma {:induction false} FormatAllParens(words: seq<string>)
    ensures forall i :: 0 <= i < |words| ==> (EndsWith(FormatAll(words)[i], '(') <==> EndsWith(words[i], '('))
  {
    if words != [] {
      var n := |words| - 1;
      var init := words[..n];
      var prev := FormatAll(init);
      var last := FormatWord(words[n], n == 0, n > 0 && EndsWith(prev[n - 1], '('));
      assert FormatAll(words) == prev + [last];
      FormatAllParens(init);
      FormatWordChangesOnlyCase(words[n], n == 0, n > 0 && EndsWith(prev[n - 1], '('));
      EndsWithUpToCase(last, words[n], '(');
    }
  }

  /**
   * Position by position, the formatted words depend on the raw words only:
   * word i is formatted as first when i == 0 and as following "(" when the raw
   * word before it ends with "(".
   */
  lemma {:induction false} FormatAllAt(words: seq<string>, i: nat)
    requires i < |words|
    ensures FormatAll(words)[i] == FormatWord(words[i], i == 0, i > 0 && EndsWith(words[i - 1], '('))
  {
    var n := |words| - 1;
    var init := words[..n];
    var prev := FormatAll(init);
    var last := FormatWord(words[n], n == 0, n > 0 && EndsWith(prev[n - 1], '('));
    assert FormatAll(words) == prev + [last];
    if i < n {
      assert FormatAll(words)[i] == prev[i];
      FormatAllAt(init, i);
      assert init[i] == words[i];
      if i > 0 {
        assert init[i - 1] == words[i - 1];
      }
    } else if n > 0 {
      FormatAllParens(init);
      assert init[n - 1] == words[n - 1];
    }
  }

  /** Each formatted word equals its raw word up to case. */
  lemma FormatAllChangesOnlyCase(words: seq<string>)
    ensures LowerAll(FormatAll(words)) == LowerAll(words)
  {
    forall i | 0 <= i < |words| ensures Lower(FormatAll(words)[i]) == Lower(words[i]) {
      FormatAllAt(words, i);
      FormatWordChangesOnlyCase(words[i], i == 0, i > 0 && EndsWith(words[i - 1], '('));
    }
  }

  /** Formatted words are non-empty runs without whitespace. */
  lemma FormatAllShape(words: seq<string>)
    requires forall k :: 0 <= k < |words| ==> words[k] != [] && NoSpace(words[k])
    ensures forall k :: 0 <= k < |words| ==> FormatAll(words)[k] != [] && NoSpace(FormatAll(words)[k])
  {
    forall k | 0 <= k < |words| ensures FormatAll(words)[k] != [] && NoSpace(FormatAll(words)[k]) {
      FormatAllAt(words, k);
      FormattedWordShape(words[k], k == 0, k > 0 && EndsWith(words[k - 1], '('));
    }
  }

  /** A plain word is lowered when it is a minor word in the middle of a phrase, capitalised otherwise. */
  lemma PlainWordRule(word: string, isFirst: bool, afterParen: bool)
    requires Plain(word)
    ensures FormatWord(word, isFirst, afterParen) == TitleWord(word, isFirst || afterParen)
  {
    CapitalizeLower(word);
  }

  /** A plain word after "(" is capitalised, minor or not, and the parenthesis is kept. */
  lemma ParenWordRule(t: string, isFirst: bool, afterParen: bool)
    requires Plain(t)
    ensures FormatWord("(" + t, isFirst, afterParen) == "(" + Capitalize(t)
  {
    var w := "(" + t;
    assert w[0] == '(' && w[1..] == t;
    PlainWordRule(t, true, true);
  }

  // ---------------------------------------------------------------- whole names

  /**
   * A non-blank name comes out as its words, each formatted, joined by single
   * spaces: splitting the result gives exactly the formatted words, so the word
   * count is kept.
   */
  lemma NormalizedWords(name: string)
    requires !Blank(name)
    ensures var r := NormalizedName(name);
            && !Blank(r)
            && Words(r) == FormatAll(Words(name))
            && |Words(r)| == |Words(name)|
            && r == JoinWith(Words(r), " ")
  {
    var ws := Words(name);
    FormatAllShape(ws);
    WordsOfJoin(FormatAll(ws));
  }

  /** Normalising changes the case of letters and collapses whitespace; nothing else. */
  lemma NormalizedNameChangesOnlyCase(name: string)
    requires !Blank(name)
    ensures Lower(NormalizedName(name)) == Lower(JoinWith(Words(name), " "))
  {
    var ws := Words(name);
    LowerJoin(FormatAll(ws), " ");
    FormatAllChangesOnlyCase(ws);
    LowerJoin(ws, " ");
  }

  /** Formatting the formatted words again changes none of them. */
  lemma FormatAllIdempotent(words: seq<string>)
    ensures FormatAll(FormatAll(words)) == FormatAll(words)
  {
    var fs := FormatAll(words);
    forall i | 0 <= i < |fs| ensures FormatAll(fs)[i] == fs[i] {
      FormatAllAt(words, i);
      FormatAllAt(fs, i);
      var opens := i > 0 && EndsWith(words[i - 1], '(');
      if i > 0 {
        FormatAllParens(words);
      }
      FormatWordIdempotent(words[i], i == 0, opens);
    }
  }

  /** Normalising an already normalised name returns it unchanged. */
  lemma NormalizeIdempotent(name: string)
    ensures NormalizedName(NormalizedName(name)) == NormalizedName(name)
  {
    if !Blank(name) {
      NormalizedWords(name);
      FormatAllIdempotent(Words(name));
    }
  }

  /** The i-th word of the normalised name is the i-th raw word, formatted in place. */
  lemma NormalizedWordAt(name: string, i: nat)
    requires !Blank(name) && i < |Words(name)|
    ensures |Words(NormalizedName(name))| == |Words(name)|
    ensures var ws := Words(name);
            Words(NormalizedName(name))[i] == FormatWord(ws[i], i == 0, i > 0 && EndsWith(ws[i - 1], '('))
  {
    NormalizedWords(name);
    FormatAllAt(Words(name), i);
  }

  /**
   * A plain word is lowered when it is a minor word that is neither the first
   * word nor preceded by a word ending in "("; otherwise it is capitalised.
   */
  lemma MinorWordRule(name: string, i: nat)
    requires !Blank(name) && i < |Words(name)| && Plain(Words(name)[i])
    ensures |Words(NormalizedName(name))| == |Words(name)|
    ensures var ws := Words(name);
            Words(NormalizedName(name))[i] == TitleWord(ws[i], i == 0 || EndsWith(ws[i - 1], '('))
  {
    var ws := Words(name);
    NormalizedWordAt(name, i);
    PlainWordRule(ws[i], i == 0, i > 0 && EndsWith(ws[i - 1], '('));
  }

  /** A plain stem followed by a comma: the stem follows the plain-word rule and the comma stays. */
  lemma CommaWordRule(stem: string, isFirst: bool, afterParen: bool)
    requires Plain(stem)
    ensures FormatWord(stem + ",", isFirst, afterParen) == TitleWord(stem, isFirst || afterParen) + ","
  {
    var w := stem + ",";
    assert w[..|w| - 1] == stem;
    assert '\'' !in w;
    PlainWordRule(stem, isFirst, afterParen);
  }

  /** A plain word followed by a comma is formatted by the same rule and keeps its comma. */
  lemma CommaRule(name: string, i: nat, stem: string)
    requires !Blank(name) && i < |Words(name)| && Words(name)[i] == stem + "," && Plain(stem)
    ensures |Words(NormalizedName(name))| == |Words(name)|
    ensures Words(NormalizedName(name))[i] == TitleWord(stem, i == 0 || EndsWith(Words(name)[i - 1], '(')) + ","
  {
    var ws := Words(name);
    var opens := i > 0 && EndsWith(ws[i - 1], '(');
    NormalizedWordAt(name, i);
    CommaWordRule(stem, i == 0, opens);
  }

  /**
   * A word "(" + rest opens a phrase: the parenthesis is kept and a plain rest
   * is capitalised even when it is a minor word.
   */
  lemma ParenRule(name: string, i: nat, rest: string)
    requires !Blank(name) && i < |Words(name)| && Words(name)[i] == "(" + rest && Plain(rest)
    ensures |Words(NormalizedName(name))| == |Words(name)|
    ensures Words(NormalizedName(name))[i] == "(" + Capitalize(rest)
  {
    var ws := Words(name);
    NormalizedWordAt(name, i);
    ParenWordRule(rest, i == 0, i > 0 && EndsWith(ws[i - 1], '('));
  }

  /**
   * A word with an apostrophe (and no leading "(") is split on the apostrophes
   * and every part is capitalised on its own, whatever its position.
   */
  lemma ApostropheRule(name: string, i: nat)
    requires !Blank(name) && i < |Words(name)|
    requires var w := Words(name)[i]; w[0] != '(' && '\'' in w
    ensures |Words(NormalizedName(name))| == |Words(name)|
    ensures SplitOn(Words(NormalizedName(name))[i], '\'') == CapitalizeAll(SplitOn(Words(name)[i], '\''))
  {
    var ws := Words(name);
    NormalizedWordAt(name, i);
    var raw := SplitOn(ws[i], '\'');
    var parts := CapitalizeAll(raw);
    forall k | 0 <= k < |parts| ensures '\'' !in parts[k] {
      LowerCapitalize(raw[k]);
      NoSepUpToCase(raw[k], parts[k], '\'');
    }
    SplitJoin(parts, '\'');
  }

  // ---------------------------------------------------------------- examples

  /** A name written as words joined by single spaces is normalised word by word. */
  lemma NormalizedFromWords(name: string, ws: seq<string>)
    requires |ws| >= 1 && forall k :: 0 <= k < |ws| ==> ws[k] != [] && NoSpace(ws[k])
    requires name == JoinWith(ws, " ")
    ensures NormalizedName(name) == JoinWith(FormatAll(ws), " ")
  {
    WordsOfJoin(ws);
  }

  /** A plain word that is not lowered comes out capitalised at position i. */
  lemma CapitalizedAt(ws: seq<string>, i: nat)
    requires i < |ws| && Plain(ws[i])
    requires i == 0 || EndsWith(ws[i - 1], '(') || Lower(ws[i]) !in MinorWords
    ensures FormatAll(ws)[i] == Capitalize(ws[i])
  {
    FormatAllAt(ws, i);
    PlainWordRule(ws[i], i == 0, i > 0 && EndsWith(ws[i - 1], '('));
  }

  /** Two plain words, the second not a minor word, are both capitalised. */
  lemma TwoCapitalized(a: string, b: string)
    requires Plain(a) && Plain(b) && Lower(b) !in MinorWords
    ensures FormatAll([a, b]) == [Capitalize(a), Capitalize(b)]
  {
    var ws := [a, b];
    CapitalizedAt(ws, 0);
    CapitalizedAt(ws, 1);
  }

  /**
   * In "w0 w1 (w2 w3" with plain words, w2 opens a parenthesised phrase and is
   * capitalised even when it is a minor word.
   */
  lemma ParenPhraseCapitalized(a: string, b: string, t: string, d: string)
    requires Plain(a) && Plain(b) && Plain(t) && Plain(d)
    requires Lower(b) !in MinorWords && Lower(d) !in MinorWords
    ensures var fs := FormatAll([a, b, "(" + t, d]);
            && fs[0] == Capitalize(a) && fs[1] == Capitalize(b)
            && fs[2] == "(" + Capitalize(t) && fs[3] == Capitalize(d)
  {
    var ws := [a, b, "(" + t, d];
    CapitalizedAt(ws, 0);
    CapitalizedAt(ws, 1);
    CapitalizedAt(ws, 3);
    FormatAllAt(ws, 2);
    ParenWordRule(t, false, EndsWith(b, '('));
  }

  /** In a two-word name whose second word is plain and not minor, the first is formatted as the name's opening. */
  lemma OpeningThenCapitalized(a: string, b: string)
    requires Plain(b) && Lower(b) !in MinorWords
    ensures FormatAll([a, b]) == [FormatWord(a, true, false), Capitalize(b)]
  {
    var ws := [a, b];
    FormatAllAt(ws, 0);
    CapitalizedAt(ws, 1);
  }

  /** A one-word name is its word formatted as the name's opening. */
  lemma NameOfOne(a: string)
    requires a != [] && NoSpace(a)
    ensures NormalizedName(a) == FormatWord(a, true, false)
  {
    NormalizedFromWords(a, [a]);
    FormatAllAt([a], 0);
  }

  // The examples below keep each fact about a literal word in a lemma of its
  // own that takes the word as a parameter: a proof that unfolds the formatter
  // on several literals at once costs the solver much more, and its cost
  // varies widely from one run to the next. Each example then states its
  // literal outright and only chains those small facts.

  lemma PlainSan(w: string)
    requires w == "SAN"
    ensures w != [] && NoSpace(w) && Plain(w) && Capitalize(w) == "San"
  {
    assert Capitalize("SAN") == "San";
  }

  lemma PlainFrancisco(w: string)
    requires w == "FRANCISCO"
    ensures w != [] && NoSpace(w) && Plain(w) && Lower(w) !in MinorWords && Capitalize(w) == "Francisco"
  {
    assert Lower("FRANCISCO") == "francisco";
    assert Capitalize("FRANCISCO") == "Francisco";
  }

  lemma SanFranciscoSteps(name: string, a: string, b: string)
    requires name == "SAN FRANCISCO" && a == "SAN" && b == "FRANCISCO"
    ensures NormalizedName(name) == "San Francisco"
  {
    PlainSan(a);
    PlainFrancisco(b);
    assert JoinWith([a, b], " ") == name;
    NormalizedFromWords(name, [a, b]);
    TwoCapitalized(a, b);
    assert JoinWith(["San", "Francisco"], " ") == "San Francisco";
  }

  /** "SAN FRANCISCO" becomes "San Francisco". */
  lemma ExampleSanFrancisco()
    ensures NormalizedName("SAN FRANCISCO") == "San Francisco"
  {
    SanFranciscoSteps("SAN FRANCISCO", "SAN", "FRANCISCO");
  }

  lemma PlainNew(w: string)
    requires w == "NEW"
    ensures w != [] && NoSpace(w) && Plain(w) && Capitalize(w) == "New"
  {
    assert Capitalize("NEW") == "New";
  }

  lemma PlainYork(w: string)
    requires w == "YORK"
    ensures w != [] && NoSpace(w) && Plain(w) && Lower(w) !in MinorWords && Capitalize(w) == "York"
  {
    assert Lower("YORK") == "york";
    assert Capitalize("YORK") == "York";
  }

  lemma PlainThe(w: string)
    requires w == "THE"
    ensures w != [] && NoSpace("(" + w) && Plain(w) && Capitalize(w) == "The"
  {
    assert Capitalize("THE") == "The";
  }

  lemma PlainBattery(w: string)
    requires w == "BATTERY)"
    ensures w != [] && NoSpace(w) && Plain(w) && Lower(w) !in MinorWords && Capitalize(w) == "Battery)"
  {
    assert Lower("BATTERY)") == "battery)";
    assert Capitalize("BATTERY)") == "Battery)";
  }

  lemma NewYorkRaw(a: string, b: string, c: string, d: string)
    requires a == "NEW" && b == "YORK" && c == "(THE" && d == "BATTERY)"
    ensures JoinWith([a, b, c, d], " ") == "NEW YORK (THE BATTERY)"
  {
    assert JoinWith([c, d], " ") == "(THE BATTERY)";
    assert JoinWith([b, c, d], " ") == "YORK (THE BATTERY)";
  }

  lemma NewYorkJoined()
    ensures JoinWith(["New", "York", "(The", "Battery)"], " ") == "New York (The Battery)"
  {
    assert JoinWith(["(The", "Battery)"], " ") == "(The Battery)";
    assert JoinWith(["York", "(The", "Battery)"], " ") == "York (The Battery)";
  }

  lemma NewYorkSteps(name: string, a: string, b: string, t: string, d: string)
    requires name == "NEW YORK (THE BATTERY)" && a == "NEW" && b == "YORK" && t == "THE" && d == "BATTERY)"
    ensures NormalizedName(name) == "New York (The Battery)"
  {
    PlainNew(a);
    PlainYork(b);
    PlainThe(t);
    PlainBattery(d);
    var c := "(" + t;
    assert c == "(THE";
    NewYorkRaw(a, b, c, d);
    var ws := [a, b, c, d];
    assert ws[2] == c;
    NormalizedFromWords(name, ws);
    ParenPhraseCapitalized(a, b, t, d);
    assert "(" + Capitalize(t) == "(The";
    assert FormatAll(ws) == ["New", "York", "(The", "Battery)"];
    NewYorkJoined();
  }

  /** "NEW YORK (THE BATTERY)" becomes "New York (The Battery)": the minor word after "(" is capitalised. */
  lemma ExampleNewYork()
    ensures NormalizedName("NEW YORK (THE BATTERY)") == "New York (The Battery)"
  {
    NewYorkSteps("NEW YORK (THE BATTERY)", "NEW", "YORK", "THE", "BATTERY)");
  }

  /** A word with an apostrophe and no leading "(" is formatted by capitalising its apostrophe-separated parts. */
  lemma ApostropheWord(w: string, isFirst: bool, afterParen: bool)
    requires w != [] && w[0] != '(' && '\'' in w
    ensures FormatWord(w, isFirst, afterParen) == JoinWith(CapitalizeAll(SplitOn(w, '\'')), "'")
  {
  }

  lemma OBrienSplit(w: string)
    requires w == "O'BRIEN"
    ensures w != [] && w[0] != '(' && '\'' in w && NoSpace(w)
    ensures SplitOn(w, '\'') == ["O", "BRIEN"]
  {
    var parts := ["O", "BRIEN"];
    assert w[1] == '\'';
    assert JoinWith(parts, "'") == w;
    SplitJoin(parts, '\'');
  }

  lemma OBrienCapitals(parts: seq<string>)
    requires parts == ["O", "BRIEN"]
    ensures CapitalizeAll(parts) == ["O", "Brien"]
  {
    assert Capitalize("O") == "O";
    assert Capitalize("BRIEN") == "Brien";
  }

  lemma OBrienRejoined(parts: seq<string>)
    requires parts == ["O", "Brien"]
    ensures JoinWith(parts, "'") == "O'Brien"
  {
  }

  lemma OBrienFirstWord(w: string)
    requires w == "O'BRIEN"
    ensures w != [] && NoSpace(w) && FormatWord(w, true, false) == "O'Brien"
  {
    OBrienSplit(w);
    ApostropheWord(w, true, false);
    var parts := SplitOn(w, '\'');
    OBrienCapitals(parts);
    OBrienRejoined(CapitalizeAll(parts));
  }

  lemma PlainIsland(w: string)
    requires w == "ISLAND"
    ensures w != [] && NoSpace(w) && Plain(w) && Lower(w) !in MinorWords && Capitalize(w) == "Island"
  {
    assert Lower("ISLAND") == "island";
    assert Capitalize("ISLAND") == "Island";
  }

  lemma OBrienRaw(ws: seq<string>)
    requires ws == ["O'BRIEN", "ISLAND"]
    ensures JoinWith(ws, " ") == "O'BRIEN ISLAND"
  {
  }

  lemma OBrienJoined(ws: seq<string>)
    requires ws == ["O'Brien", "Island"]
    ensures JoinWith(ws, " ") == "O'Brien Island"
  {
  }

  lemma OBrienSteps(name: string, a: string, b: string)
    requires name == "O'BRIEN ISLAND" && a == "O'BRIEN" && b == "ISLAND"
    ensures NormalizedName(name) == "O'Brien Island"
  {
    OBrienFirstWord(a);
    PlainIsland(b);
    var ws := [a, b];
    OBrienRaw(ws);
    NormalizedFromWords(name, ws);
    OpeningThenCapitalized(a, b);
    assert FormatAll(ws) == ["O'Brien", "Island"];
    OBrienJoined(FormatAll(ws));
  }

  /** "O'BRIEN ISLAND" becomes "O'Brien Island": both sides of the apostrophe are capitalised. */
  lemma ExampleOBrien()
    ensures NormalizedName("O'BRIEN ISLAND") == "O'Brien Island"
  {
    OBrienSteps("O'BRIEN ISLAND", "O'BRIEN", "ISLAND");
  }

  lemma PlainUnknown(w: string)
    requires w == "Unknown"
    ensures w != [] && NoSpace(w) && Plain(w) && Capitalize(w) == w
  {
    assert Capitalize("Unknown") == "Unknown";
  }

  /** The default name "Unknown" is already normalised. */
  lemma UnknownIsNormalized()
    ensures NormalizedName("Unknown") == "Unknown"
  {
    PlainUnknown("Unknown");
    NameOfOne("Unknown");
    PlainWordRule("Unknown", true, false);
  }
}
