/** Text handling of the matching rules: lower-casing, trimming, and the keyword tokenizer. */
module Tokens {

  const STOPWORDS: set<string> :=
    {"a", "o", "e", "de", "da", "do", "na", "no", "em", "um", "uma", "com", "para"}

  const MIN_TOKEN_LENGTH := 3

  /** `str.lower` on one code point. Every code point whose lower-case form meets the token class
      is listed; the remaining ones are left as they are. */
  function LowerChar(c: char): string {
    var n := c as int;
    if 0x41 <= n <= 0x5A then [(n + 0x20) as char]
    else if 0xC0 <= n <= 0xDE && n != 0xD7 then [(n + 0x20) as char]
    else if n == 0x130 then ['i', '\U{0307}']
    else if n == 0x178 then ['\U{00FF}']
    else if n == 0x1E9E then ['\U{00DF}']
    else if n == 0x212A then ['k']
    else if n == 0x212B then ['\U{00E5}']
    else [c]
  }

  function Lower(s: string): string {
    if s == [] then [] else LowerChar(s[0]) + Lower(s[1..])
  }

  predicate IsSpace(c: char) {
    var n := c as int;
    || 0x09 <= n <= 0x0D || 0x1C <= n <= 0x20 || n == 0x85 || n == 0xA0 || n == 0x1680
    || 0x2000 <= n <= 0x200A || n == 0x2028 || n == 0x2029 || n == 0x202F || n == 0x205F || n == 0x3000
  }

  function Strip(s: string): string {
    if s == [] then []
    else if IsSpace(s[0]) then Strip(s[1..])
    else if IsSpace(s[|s| - 1]) then Strip(s[..|s| - 1])
    else s
  }

  function NormalizeValue(s: string): string {
    Lower(Strip(s))
  }

  /** The character class `[a-zA-ZÀ-ÿ0-9]`. */
  predicate IsTokenChar(c: char) {
    || 'a' <= c <= 'z' || 'A' <= c <= 'Z' || '0' <= c <= '9' || 0xC0 <= c as int <= 0xFF
  }

  function RunLength(s: string): (n: nat)
    ensures n <= |s|
    ensures forall i :: 0 <= i < n ==> IsTokenChar(s[i])
    ensures n < |s| ==> !IsTokenChar(s[n])
  {
    if s == [] || !IsTokenChar(s[0]) then 0 else 1 + RunLength(s[1..])
  }

  /** `re.findall` for one or more token characters, scanning from the left. */
  function FindAll(s: string): seq<string>
    decreases |s|
  {
    if s == [] then []
    else if !IsTokenChar(s[0]) then FindAll(s[1..])
    else
      var n := RunLength(s);
      [s[..n]] + FindAll(s[n..])
  }

  predicate IsKeyword(word: string) {
    |word| >= MIN_TOKEN_LENGTH && word !in STOPWORDS
  }

  function Tokenize(s: string): set<string> {
    set word | word in FindAll(Lower(s)) && IsKeyword(word)
  }

  // ---- What the scanner finds: exactly the maximal runs of token characters ----

  ghost predicate MaximalRun(s: string, i: int, j: int) {
    && 0 <= i < j <= |s|
    && (forall k :: i <= k < j ==> IsTokenChar(s[k]))
    && (i > 0 ==> !IsTokenChar(s[i - 1]))
    && (j < |s| ==> !IsTokenChar(s[j]))
  }

  ghost predicate IsRunOf(s: string, word: string) {
    exists i, j :: MaximalRun(s, i, j) && s[i..j] == word
  }

  lemma RunAfterPrefix(s: string, n: nat, i: int, j: int)
    requires n <= i && n <= |s| && MaximalRun(s, i, j)
    ensures MaximalRun(s[n..], i - n, j - n) && s[i..j] == s[n..][i - n..j - n]
  {
    var t := s[n..];
    forall k | i - n <= k < j - n ensures IsTokenChar(t[k]) { assert t[k] == s[k + n]; }
    if i > n { assert t[i - n - 1] == s[i - 1]; }
    if j < |s| { assert t[j - n] == s[j]; }
  }

  lemma RunBeforePrefix(s: string, n: nat, i: int, j: int)
    requires n <= |s| && MaximalRun(s[n..], i, j)
    requires 0 < n < |s| ==> !IsTokenChar(s[n - 1]) || !IsTokenChar(s[n])
    ensures MaximalRun(s, i + n, j + n) && s[i + n..j + n] == s[n..][i..j]
  {
    var t := s[n..];
    forall k | i + n <= k < j + n ensures IsTokenChar(s[k]) { assert s[k] == t[k - n]; }
    assert t[i] == s[i + n];
    if i > 0 { assert s[i + n - 1] == t[i - 1]; }
    if j < |t| { assert s[j + n] == t[j]; }
  }

  /** The scanner's first step: how far it moves, and that no run crosses that point. */
  function FirstStep(s: string): (n: nat)
    requires s != []
    ensures 0 < n <= |s|
    ensures n < |s| ==> !IsTokenChar(s[n - 1]) || !IsTokenChar(s[n])
  {
    if IsTokenChar(s[0]) then RunLength(s) else 1
  }

  /** A run that starts within the scanner's first step is the whole of that step. */
  lemma FirstRun(s: string, i: int, j: int)
    requires s != [] && MaximalRun(s, i, j) && i < FirstStep(s)
    ensures IsTokenChar(s[0]) && i == 0 && j == FirstStep(s)
  {
    assert IsTokenChar(s[i]);
  }

  lemma LaterRun(s: string, n: nat, word: string)
    requires n <= |s| && (0 < n < |s| ==> !IsTokenChar(s[n - 1]) || !IsTokenChar(s[n]))
    requires IsRunOf(s[n..], word)
    ensures IsRunOf(s, word)
  {
    var i, j :| MaximalRun(s[n..], i, j) && s[n..][i..j] == word;
    RunBeforePrefix(s, n, i, j);
  }

  lemma {:induction false} FoundIsRun(s: string, word: string)
    requires word in FindAll(s)
    ensures IsRunOf(s, word)
    decreases |s|
  {
    var n := FirstStep(s);
    if IsTokenChar(s[0]) && word == s[..n] {
      assert MaximalRun(s, 0, n) && s[0..n] == word;
    } else {
      FoundIsRun(s[n..], word);
      LaterRun(s, n, word);
    }
  }

  lemma {:induction false} RunIsFound(s: string, word: string)
    requires IsRunOf(s, word)
    ensures word in FindAll(s)
    decreases |s|
  {
    var i, j :| MaximalRun(s, i, j) && s[i..j] == word;
    var n := FirstStep(s);
    if i < n {
      FirstRun(s, i, j);
    } else {
      RunAfterPrefix(s, n, i, j);
      RunIsFound(s[n..], word);
    }
  }

  /** The scanner returns exactly the maximal runs of token characters. */
  lemma FindAllFindsMaximalRuns(s: string, word: string)
    ensures word in FindAll(s) <==> IsRunOf(s, word)
  {
    if word in FindAll(s) { FoundIsRun(s, word); }
    if IsRunOf(s, word) { RunIsFound(s, word); }
  }

  // ---- Tokenizing joined text ----

  lemma {:induction false} RunLengthStopsAt(a: string, c: char, b: string)
    requires !IsTokenChar(c)
    ensures RunLength(a + [c] + b) == RunLength(a)
  {
    var s := a + [c] + b;
    if a != [] && IsTokenChar(a[0]) {
      assert s[1..] == a[1..] + [c] + b;
      RunLengthStopsAt(a[1..], c, b);
    }
  }

  lemma {:induction false} FindAllSplits(a: string, c: char, b: string)
    requires !IsTokenChar(c)
    ensures FindAll(a + [c] + b) == FindAll(a) + FindAll(b)
    decreases |a|
  {
    var s := a + [c] + b;
    if a == [] {
      assert s[1..] == b;
    } else if !IsTokenChar(a[0]) {
      assert s[1..] == a[1..] + [c] + b;
      FindAllSplits(a[1..], c, b);
    } else {
      var n := RunLength(a);
      RunLengthStopsAt(a, c, b);
      assert s[..n] == a[..n];
      assert s[n..] == a[n..] + [c] + b;
      FindAllSplits(a[n..], c, b);
    }
  }

  lemma {:induction false} LowerConcat(a: string, b: string)
    ensures Lower(a + b) == Lower(a) + Lower(b)
  {
    if a == [] {
      assert a + b == b;
    } else {
      assert (a + b)[1..] == a[1..] + b;
      LowerConcat(a[1..], b);
    }
  }

  /** Tokenizing text joined by a space is the union of tokenizing the parts. */
  lemma TokenizeJoined(a: string, b: string)
    ensures Tokenize(a + " " + b) == Tokenize(a) + Tokenize(b)
  {
    LowerConcat(a + " ", b);
    LowerConcat(a, " ");
    assert Lower(" ") == LowerChar(' ') + Lower("");
    assert Lower(a + " " + b) == Lower(a) + [' '] + Lower(b);
    FindAllSplits(Lower(a), ' ', Lower(b));
  }

  // ---- What tokens are, without the scanner ----

  /** The stop words a token could be; the others are too short anyway. */
  lemma LongStopWords(word: string)
    requires |word| >= 3
    ensures word in STOPWORDS <==> word == "uma" || word == "com" || word == "para"
  {
    assert |"a"| == 1 && |"o"| == 1 && |"e"| == 1;
    assert |"de"| == 2 && |"da"| == 2 && |"do"| == 2 && |"na"| == 2 && |"no"| == 2 && |"em"| == 2 && |"um"| == 2;
  }

  /** A token is a maximal run of the lower-cased text that has at least three characters and is none of
      the three long stop words. */
  lemma TokenMeans(s: string, word: string)
    ensures word in Tokenize(s) <==>
      IsRunOf(Lower(s), word) && |word| >= 3 && word != "uma" && word != "com" && word != "para"
  {
    FindAllFindsMaximalRuns(Lower(s), word);
    if |word| >= 3 { LongStopWords(word); }
  }

  /** Lower-case letters, accented or not, and digits. */
  predicate IsPlain(c: char) {
    'a' <= c <= 'z' || '0' <= c <= '9' || 0xDF <= c as int <= 0xFF
  }

  /** ASCII characters that are neither letters nor digits, and the Latin-1 symbols. */
  predicate IsSeparator(c: char) {
    var n := c as int;
    n < 0x30 || 0x3A <= n <= 0x40 || 0x5B <= n <= 0x60 || 0x7B <= n <= 0xBF
  }

  lemma {:induction false} PlainStays(s: string)
    requires forall i :: 0 <= i < |s| ==> IsPlain(s[i])
    ensures Lower(s) == s && RunLength(s) == |s|
  {
    if s != [] {
      PlainStays(s[1..]);
      assert s == [s[0]] + s[1..];
    }
  }

  /** A word of plain characters is its own only token, if it is long enough and no stop word. */
  lemma WordIsItsToken(word: string)
    requires (forall i :: 0 <= i < |word| ==> IsPlain(word[i])) && |word| >= 3
    requires word !in {"uma", "com", "para"}
    ensures Tokenize(word) == {word}
  {
    PlainStays(word);
    assert IsTokenChar(word[0]);
    assert word[..|word|] == word && word[|word|..] == [];
    assert FindAll(word) == [word];
  }

  /** Text is tokenized piece by piece between separators. */
  lemma TokenizeSeparated(a: string, c: char, b: string)
    requires IsSeparator(c)
    ensures Tokenize(a + [c] + b) == Tokenize(a) + Tokenize(b)
  {
    LowerConcat(a + [c], b);
    LowerConcat(a, [c]);
    assert Lower([c]) == LowerChar(c) + Lower([c][1..]);
    assert Lower([c]) == [c];
    assert Lower(a + [c] + b) == Lower(a) + [c] + Lower(b);
    FindAllSplits(Lower(a), c, Lower(b));
  }

  // ---- What normalizing does ----

  predicate AllSpace(s: string) {
    forall i :: 0 <= i < |s| ==> IsSpace(s[i])
  }

  lemma {:induction false} StripDropsEnd(s: string, after: string)
    requires AllSpace(after)
    ensures Strip(s + after) == Strip(s)
    decreases |s| + |after|
  {
    if after == [] {
      assert s + after == s;
    } else if s == [] {
      assert s + after == after;
      assert after == [after[0]] + after[1..];
      StripDropsEnd([], after[1..]);
      assert [] + after[1..] == after[1..];
    } else if IsSpace(s[0]) {
      assert (s + after)[1..] == s[1..] + after;
      StripDropsEnd(s[1..], after);
    } else {
      var shorter := after[..|after| - 1];
      assert (s + after)[..|s + after| - 1] == s + shorter;
      StripDropsEnd(s, shorter);
    }
  }

  lemma {:induction false} StripDropsStart(before: string, s: string)
    requires AllSpace(before)
    ensures Strip(before + s) == Strip(s)
  {
    if before == [] {
      assert before + s == s;
    } else {
      assert (before + s)[1..] == before[1..] + s;
      StripDropsStart(before[1..], s);
    }
  }

  /** ASCII capitals, and the accented ones of Latin-1. */
  predicate IsCapital(c: char) {
    'A' <= c <= 'Z' || (0xC0 <= c as int <= 0xDE && c as int != 0xD7)
  }

  predicate SameLetter(a: char, b: char) {
    a == b || (IsCapital(a) && b as int == a as int + 32) || (IsCapital(b) && a as int == b as int + 32)
  }

  predicate SameLetters(s: string, t: string) {
    |s| == |t| && forall i :: 0 <= i < |s| ==> SameLetter(s[i], t[i])
  }

  lemma {:induction false} LowerIgnoresCase(s: string, t: string)
    requires SameLetters(s, t)
    ensures Lower(s) == Lower(t)
  {
    if s != [] {
      assert SameLetter(s[0], t[0]);
      LowerIgnoresCase(s[1..], t[1..]);
    }
  }

  /** Values compare equal up to surrounding white space and the case of Latin letters. */
  lemma NormalizeIgnoresPaddingAndCase(before: string, s: string, t: string, after: string)
    requires AllSpace(before) && AllSpace(after) && SameLetters(s, t)
    ensures NormalizeValue(before + s + after) == NormalizeValue(t)
  {
    StripDropsEnd(before + s, after);
    StripDropsStart(before, s);
    StripKeepsCase(s, t);
    LowerIgnoresCase(Strip(s), Strip(t));
  }

  /** In particular blanks, tabs and line ends around a value do not matter. */
  lemma NormalizeTrims(s: string, c: char)
    requires c == ' ' || c == '\t' || c == '\n' || c == '\r'
    ensures NormalizeValue([c] + s) == NormalizeValue(s) == NormalizeValue(s + [c])
  {
    StripDropsStart([c], s);
    StripDropsEnd(s, [c]);
  }

  lemma {:induction false} StripKeepsCase(s: string, t: string)
    requires SameLetters(s, t)
    ensures SameLetters(Strip(s), Strip(t))
    decreases |s|
  {
    if s != [] {
      assert SameLetter(s[0], t[0]) && SameLetter(s[|s| - 1], t[|s| - 1]);
      if IsSpace(s[0]) {
        StripKeepsCase(s[1..], t[1..]);
      } else if IsSpace(s[|s| - 1]) {
        StripKeepsCase(s[..|s| - 1], t[..|s| - 1]);
      }
    }
  }

  /** Tokens do not depend on case either. */
  lemma TokenizeIgnoresCase(s: string, t: string)
    requires SameLetters(s, t)
    ensures Tokenize(s) == Tokenize(t)
  {
    LowerIgnoresCase(s, t);
  }

  /** And no further: a value in lower case without surrounding white space is left as it is. */
  lemma NormalizeKeepsPlain(s: string)
    requires forall i :: 0 <= i < |s| ==> IsPlain(s[i])
    ensures NormalizeValue(s) == s
  {
    PlainStays(s);
  }

  // ---- Sorting a set of words by code point, as `sorted` does ----

  predicate LexLeq(a: string, b: string) {
    if a == [] then true
    else if b == [] then false
    else if a[0] != b[0] then a[0] < b[0]
    else LexLeq(a[1..], b[1..])
  }

  /** The order: a prefix comes first, otherwise the smaller character at the first difference. */
  lemma {:induction false} LexMeans(a: string, b: string)
    ensures LexLeq(a, b) <==> a <= b || exists k: nat :: FirstDifference(a, b, k) && a[k] < b[k]
  {
    if a != [] && b != [] && a[0] == b[0] {
      LexMeans(a[1..], b[1..]);
      assert a == [a[0]] + a[1..] && b == [b[0]] + b[1..];
      if k: nat :| FirstDifference(a[1..], b[1..], k) && a[1..][k] < b[1..][k] {
        assert FirstDifference(a, b, k + 1);
      }
      if k: nat :| FirstDifference(a, b, k) && a[k] < b[k] {
        assert FirstDifference(a[1..], b[1..], k - 1);
      }
    } else if a != [] && b != [] && a[0] < b[0] {
      assert FirstDifference(a, b, 0);
    }
  }

  predicate FirstDifference(a: string, b: string, k: nat) {
    k < |a| && k < |b| && a[k] != b[k] && forall i :: 0 <= i < k ==> a[i] == b[i]
  }

  lemma LexTotal(a: string, b: string)
    ensures LexLeq(a, b) || LexLeq(b, a)
  {
  }

  lemma {:induction false} LexAntisymmetric(a: string, b: string)
    requires LexLeq(a, b) && LexLeq(b, a)
    ensures a == b
  {
    if a != [] && b != [] {
      LexAntisymmetric(a[1..], b[1..]);
      assert a == [a[0]] + a[1..] && b == [b[0]] + b[1..];
    }
  }

  lemma {:induction false} LexTransitive(a: string, b: string, c: string)
    requires LexLeq(a, b) && LexLeq(b, c)
    ensures LexLeq(a, c)
  {
    if a != [] && b != [] && c != [] && a[0] == b[0] == c[0] {
      LexTransitive(a[1..], b[1..], c[1..]);
    }
  }

  ghost predicate IsLeast(word: string, words: set<string>) {
    word in words && forall other :: other in words ==> LexLeq(word, other)
  }

  lemma {:induction false} LeastExists(words: set<string>)
    requires words != {}
    ensures exists word :: IsLeast(word, words)
    decreases |words|
  {
    var x :| x in words;
    if words == {x} {
      LexTotal(x, x);
      assert IsLeast(x, words);
    } else {
      var rest := words - {x};
      assert words == rest + {x};
      LeastExists(rest);
      var y :| IsLeast(y, rest);
      LexTotal(x, y);
      LexTotal(x, x);
      if LexLeq(x, y) {
        forall other | other in words ensures LexLeq(x, other) {
          if other != x { LexTransitive(x, y, other); }
        }
        assert IsLeast(x, words);
      } else {
        assert IsLeast(y, words);
      }
    }
  }

  lemma LeastIsUnique(words: set<string>, x: string, y: string)
    requires IsLeast(x, words) && IsLeast(y, words)
    ensures x == y
  {
    LexAntisymmetric(x, y);
  }

  function Least(words: set<string>): (word: string)
    requires words != {}
    ensures IsLeast(word, words)
  {
    LeastExists(words);
    assert forall x, y | x in words && y in words && IsLeast(x, words) && IsLeast(y, words) :: x == y by {
      forall x, y | IsLeast(x, words) && IsLeast(y, words) ensures x == y { LeastIsUnique(words, x, y); }
    }
    var word :| word in words && forall other | other in words :: LexLeq(word, other);
    word
  }

  /** The words in ascending order, each once. */
  function Sorted(words: set<string>): (list: seq<string>)
    ensures list == [] <==> words == {}
  {
    if words == {} then []
    else
      var word := Least(words);
      [word] + Sorted(words - {word})
  }

  lemma {:induction false} SortedLists(words: set<string>)
    ensures var list := Sorted(words);
      && (forall word :: word in list <==> word in words)
      && (forall i, j :: 0 <= i < j < |list| ==> LexLeq(list[i], list[j]) && list[i] != list[j])
  {
    if words != {} {
      var word := Least(words);
      var rest := Sorted(words - {word});
      SortedLists(words - {word});
      var list := Sorted(words);
      assert list == [word] + rest;
      forall i, j | 0 <= i < j < |list| ensures LexLeq(list[i], list[j]) && list[i] != list[j] {
        assert list[j] == rest[j - 1] && rest[j - 1] in rest;
        if i > 0 { assert list[i] == rest[i - 1]; }
      }
    }
  }
}
