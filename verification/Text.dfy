/** The string operations the assembler relies on, on ASCII text, as Python defines them. */
module Text {

  /** ASCII characters that `str.strip` and `str.split` treat as white space. */
  predicate Blank(c: char) {
    c == ' ' || '\t' <= c <= '\r' || '\U{1c}' <= c <= '\U{1f}'
  }

  predicate NoBlank(s: string) {
    forall i :: 0 <= i < |s| ==> !Blank(s[i])
  }

  predicate Lacks(s: string, c: char) {
    forall i :: 0 <= i < |s| ==> s[i] != c
  }

  // ----- strip -----

  function StripLeft(s: string): (r: string)
    ensures r == [] || !Blank(r[0])
    ensures |r| <= |s| && r == s[|s| - |r|..]
  {
    if s != [] && Blank(s[0]) then StripLeft(s[1..]) else s
  }

  function StripRight(s: string): (r: string)
    ensures r == [] || !Blank(r[|r| - 1])
    ensures |r| <= |s| && r == s[..|r|]
  {
    if s != [] && Blank(s[|s| - 1]) then StripRight(s[..|s| - 1]) else s
  }

  function Strip(s: string): (r: string) {
    StripRight(StripLeft(s))
  }

  /** A non-empty string that neither starts nor ends with a blank is left alone. */
  predicate Trimmed(s: string) {
    s == [] || (!Blank(s[0]) && !Blank(s[|s| - 1]))
  }

  lemma StripIsTrimmed(s: string)
    ensures Trimmed(Strip(s))
  {
    var l := StripLeft(s);
    if Strip(s) != [] { assert Strip(s)[0] == l[0]; }
  }

  lemma StripTrimmed(s: string)
    requires Trimmed(s)
    ensures Strip(s) == s
  {
  }

  function Spaces(n: nat): string {
    seq(n, _ => ' ')
  }

  lemma {:induction false} StripIndented(n: nat, s: string)
    requires Trimmed(s)
    ensures Strip(Spaces(n) + s) == s
  {
    if n == 0 {
      assert Spaces(0) + s == s;
      StripTrimmed(s);
    } else {
      assert (Spaces(n) + s)[1..] == Spaces(n - 1) + s;
      StripIndented(n - 1, s);
    }
  }

  // ----- split on one character -----

  function SplitOn(s: string, c: char): (parts: seq<string>)
    ensures parts != []
  {
    if s == [] then [[]]
    else
      var rest := SplitOn(s[1..], c);
      if s[0] == c then [[]] + rest else [[s[0]] + rest[0]] + rest[1..]
  }

  function JoinWith(parts: seq<string>, c: char): string {
    if parts == [] then [] else if |parts| == 1 then parts[0] else parts[0] + [c] + JoinWith(parts[1..], c)
  }

  lemma {:induction false} SplitPrefix(p: string, s: string, c: char)
    requires Lacks(p, c)
    ensures var r := SplitOn(s, c); SplitOn(p + s, c) == [p + r[0]] + r[1..]
  {
    if p == [] {
      assert p + s == s;
      assert [] + SplitOn(s, c)[0] == SplitOn(s, c)[0];
    } else {
      assert (p + s)[1..] == p[1..] + s;
      SplitPrefix(p[1..], s, c);
      var r := SplitOn(s, c);
      assert [p[0]] + (p[1..] + r[0]) == p + r[0];
    }
  }

  /** Splitting undoes joining when the parts do not contain the separator. */
  lemma {:induction false} SplitOfJoin(parts: seq<string>, c: char)
    requires parts != [] && forall i :: 0 <= i < |parts| ==> Lacks(parts[i], c)
    ensures SplitOn(JoinWith(parts, c), c) == parts
  {
    if |parts| == 1 {
      SplitPrefix(parts[0], [], c);
      assert parts[0] + [] == parts[0];
    } else {
      SplitOfJoin(parts[1..], c);
      var rest := [c] + JoinWith(parts[1..], c);
      assert rest[1..] == JoinWith(parts[1..], c);
      assert SplitOn(rest, c) == [[]] + parts[1..];
      SplitPrefix(parts[0], rest, c);
      assert parts[0] + [c] + JoinWith(parts[1..], c) == parts[0] + rest;
      assert parts[0] + [] == parts[0];
      assert ([[]] + parts[1..])[1..] == parts[1..];
      assert [parts[0]] + parts[1..] == parts;
    }
  }

  // ----- split on white space -----

  /** Takes the leading word off. */
  function WordLength(s: string): (n: nat)
    ensures n <= |s| && NoBlank(s[..n]) && (n < |s| ==> Blank(s[n]))
  {
    if s == [] || Blank(s[0]) then 0
    else
      var n := WordLength(s[1..]);
      assert s[..n + 1] == [s[0]] + s[1..][..n];
      n + 1
  }

  function Words(s: string): (ws: seq<string>)
    decreases |s|
  {
    if s == [] then []
    else if Blank(s[0]) then Words(s[1..])
    else [s[..WordLength(s)]] + Words(s[WordLength(s)..])
  }

  predicate IsWord(w: string) {
    w != [] && NoBlank(w)
  }

  lemma {:induction false} WordsAreWords(s: string)
    ensures forall i :: 0 <= i < |Words(s)| ==> IsWord(Words(s)[i])
    decreases |s|
  {
    if s != [] {
      if Blank(s[0]) { WordsAreWords(s[1..]); } else { WordsAreWords(s[WordLength(s)..]); }
    }
  }

  lemma {:induction false} WordLengthOfWord(w: string, rest: string)
    requires NoBlank(w) && (rest == [] || Blank(rest[0]))
    ensures WordLength(w + rest) == |w|
  {
    if w == [] {
      assert w + rest == rest;
    } else {
      assert (w + rest)[1..] == w[1..] + rest;
      WordLengthOfWord(w[1..], rest);
    }
  }

  lemma WordsOfCons(w: string, rest: string)
    requires IsWord(w) && (rest == [] || Blank(rest[0]))
    ensures Words(w + rest) == [w] + Words(rest)
  {
    hide WordLength;
    WordLengthOfWord(w, rest);
    assert !Blank(w[0]) && (w + rest)[0] == w[0];
    assert (w + rest)[..|w|] == w && (w + rest)[|w|..] == rest;
  }

  /** White-space splitting undoes joining words with single blanks. */
  lemma {:induction false} WordsOfJoin(ws: seq<string>)
    requires forall i :: 0 <= i < |ws| ==> IsWord(ws[i])
    ensures Words(JoinWith(ws, ' ')) == ws
  {
    hide WordLength, IsWord;
    if |ws| == 1 {
      WordsOfCons(ws[0], []);
      assert ws[0] + [] == ws[0];
    } else if |ws| > 1 {
      WordsOfJoin(ws[1..]);
      var rest := [' '] + JoinWith(ws[1..], ' ');
      assert rest[1..] == JoinWith(ws[1..], ' ');
      WordsOfCons(ws[0], rest);
      assert JoinWith(ws, ' ') == ws[0] + rest;
      assert ws == [ws[0]] + ws[1..];
    }
  }

  lemma {:induction false} JoinOfWordsIsTrimmed(ws: seq<string>)
    requires forall i :: 0 <= i < |ws| ==> IsWord(ws[i])
    ensures Trimmed(JoinWith(ws, ' '))
    ensures ws != [] && IsWord(ws[0]) && IsWord(ws[|ws| - 1]) ==>
              var s, last := JoinWith(ws, ' '), ws[|ws| - 1];
              s != [] && s[0] == ws[0][0] && s[|s| - 1] == last[|last| - 1]
  {
    if |ws| > 1 {
      JoinOfWordsIsTrimmed(ws[1..]);
      assert ws[1..][|ws[1..]| - 1] == ws[|ws| - 1];
    }
  }

  lemma {:induction false} JoinLacks(ws: seq<string>, sep: char, c: char)
    requires sep != c && forall i :: 0 <= i < |ws| ==> Lacks(ws[i], c)
    ensures Lacks(JoinWith(ws, sep), c)
  {
    if |ws| > 1 { JoinLacks(ws[1..], sep, c); }
  }

  lemma {:induction false} WordsLack(s: string, c: char)
    requires Lacks(s, c)
    ensures forall i :: 0 <= i < |Words(s)| ==> Lacks(Words(s)[i], c)
    decreases |s|
  {
    if s != [] {
      if Blank(s[0]) { WordsLack(s[1..], c); } else { WordsLack(s[WordLength(s)..], c); }
    }
  }

  /** A trimmed non-empty string has words, and ends with the last character of the last word. */
  lemma {:induction false} LastWordEnds(s: string)
    requires s != [] && !Blank(s[|s| - 1])
    ensures Words(s) != []
    ensures var w := Words(s)[|Words(s)| - 1]; w != [] && w[|w| - 1] == s[|s| - 1]
    decreases |s|
  {
    if Blank(s[0]) {
      LastWordEnds(s[1..]);
    } else {
      var n := WordLength(s);
      if n == |s| {
        assert s[n..] == [];
        assert Words(s) == [s[..n]];
      } else {
        LastWordEnds(s[n..]);
      }
    }
  }

  // ----- upper case -----

  function UpperChar(c: char): char {
    if 'a' <= c <= 'z' then c - 'a' + 'A' else c
  }

  function Upper(s: string): (r: string)
    ensures |r| == |s| && forall i :: 0 <= i < |s| ==> r[i] == UpperChar(s[i])
  {
    seq(|s|, i requires 0 <= i < |s| => UpperChar(s[i]))
  }

  lemma UpperTwice(s: string)
    ensures Upper(Upper(s)) == Upper(s)
    ensures IsWord(s) ==> IsWord(Upper(s))
    ensures forall c :: Lacks(s, c) && !('A' <= c <= 'Z') ==> Lacks(Upper(s), c)
  {
  }

  // ----- numbers -----

  predicate IsDigit(c: char) { '0' <= c <= '9' }

  /** `str.isdigit` on ASCII. */
  predicate AllDigits(s: string) {
    s != [] && forall i :: 0 <= i < |s| ==> IsDigit(s[i])
  }

  function DigitValue(c: char): nat
    requires IsDigit(c)
  {
    c as int - '0' as int
  }

  function ParseDecimal(s: string): (n: nat)
    requires forall i :: 0 <= i < |s| ==> IsDigit(s[i])
  {
    if s == [] then 0 else 10 * ParseDecimal(s[..|s| - 1]) + DigitValue(s[|s| - 1])
  }

  function PrintDecimal(n: nat): (s: string)
    ensures AllDigits(s)
  {
    if n < 10 then [(n as char) + '0'] else PrintDecimal(n / 10) + [((n % 10) as char) + '0']
  }

  /** Printing and parsing decimal numbers is a round trip. */
  lemma {:induction false} DecimalRoundTrip(n: nat)
    ensures ParseDecimal(PrintDecimal(n)) == n
  {
    var s := PrintDecimal(n);
    if n < 10 {
      assert s[..0] == [];
      assert ParseDecimal(s[..0]) == 0;
    } else {
      DecimalRoundTrip(n / 10);
      assert s[..|s| - 1] == PrintDecimal(n / 10);
    }
  }

  /** Blanks and upper case by code point. */
  lemma CharactersAre(c: char)
    ensures Blank(c) <==> c as int in {9, 10, 11, 12, 13, 28, 29, 30, 31, 32}
    ensures UpperChar(c) as int == if 97 <= c as int <= 122 then c as int - 32 else c as int
    ensures IsDigit(c) <==> 48 <= c as int <= 57
  {
  }
}
