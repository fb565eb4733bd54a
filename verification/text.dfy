/** The little text processing the demos do by hand: splitting a file into
    lines as `std::getline` does, C's `atoi`, decimal output of numbers,
    `std::string::find`, and splitting a line into words (`strtok` with a
    blank as delimiter, or `>>` on a `std::stringstream`). */
module Text {

  import opened Common

  /** `isspace` in the "C" locale: blank, tab, newline, vertical tab, form
      feed and carriage return. */
  predicate IsSpace(c: char) {
    c == ' ' || c == '\t' || c == '\n' || c == '\U{000B}' || c == '\U{000C}' || c == '\r'
  }

  predicate IsDigit(c: char) {
    '0' <= c <= '9'
  }

  function DigitValue(c: char): (d: nat)
    requires IsDigit(c)
    ensures d < 10
  {
    c as int - '0' as int
  }

  function DigitChar(d: nat): (c: char)
    requires d < 10
    ensures IsDigit(c) && DigitValue(c) == d
  {
    ('0' as int + d) as char
  }

  // ---------------------------------------------------------------------
  // Lines

  /** Position of the first occurrence of `c` in `s`, if any. */
  function IndexOf(s: string, c: char): (r: Option<nat>)
    ensures r.None? <==> c !in s
    ensures r.Some? ==> r.value < |s| && s[r.value] == c && c !in s[..r.value]
  {
    if s == [] then None
    else if s[0] == c then Some(0)
    else match IndexOf(s[1..], c)
      case None => None
      case Some(k) => Some(k + 1)
  }

  /** The lines `std::getline` extracts from a stream holding `s`, one call
      at a time until it fails: pieces separated by '\n', without a final
      empty piece when the text ends in '\n'. */
  function Lines(s: string): (r: seq<string>)
    ensures forall k | 0 <= k < |r| :: '\n' !in r[k]
    decreases |s|
  {
    if s == [] then []
    else match IndexOf(s, '\n')
      case None => [s]
      case Some(i) => [s[..i]] + Lines(s[i + 1..])
  }

  /** Every line followed by a newline: what a loop appending
      `line + "\n"` for each extracted line builds. */
  function JoinLines(lines: seq<string>): string {
    if lines == [] then [] else lines[0] + "\n" + JoinLines(lines[1..])
  }

  /** Reading a text line by line and writing each line back with a newline
      gives the text itself when it is empty or ends in a newline, and the
      text with one newline added otherwise. */
  lemma {:induction false} JoinLinesOfLines(s: string)
    ensures JoinLines(Lines(s)) == if s == [] || s[|s| - 1] == '\n' then s else s + "\n"
    decreases |s|
  {
    if s != [] {
      match IndexOf(s, '\n')
      case None =>
        assert Lines(s) == [s];
        assert JoinLines([s]) == s + "\n" + JoinLines([]);
      case Some(i) =>
        var a, rest := s[..i], s[i + 1..];
        JoinLinesOfLines(rest);
        JoinLinesCons(a, Lines(rest));
        SplitAtNewline(s, i);
        if rest == [] || rest[|rest| - 1] == '\n' {
          assert JoinLines(Lines(s)) == a + "\n" + rest;
        } else {
          assert JoinLines(Lines(s)) == a + "\n" + (rest + "\n");
          assert a + "\n" + (rest + "\n") == (a + "\n" + rest) + "\n";
        }
    }
  }

  lemma JoinLinesCons(a: string, lines: seq<string>)
    ensures JoinLines([a] + lines) == a + "\n" + JoinLines(lines)
  {
    assert ([a] + lines)[1..] == lines;
  }

  /** Cutting a text at a newline: the pieces around it make up the text,
      and the text ends in a newline exactly when the part after it is empty
      or does. */
  lemma SplitAtNewline(s: string, i: nat)
    requires IndexOf(s, '\n') == Some(i)
    ensures Lines(s) == [s[..i]] + Lines(s[i + 1..])
    ensures s == s[..i] + "\n" + s[i + 1..]
    ensures (s[|s| - 1] == '\n') == (s[i + 1..] == [] || s[i + 1..][|s[i + 1..]| - 1] == '\n')
  {
  }

  /** A text made of newline-terminated lines is split back into exactly
      those lines. */
  lemma {:induction false} LinesOfJoinLines(lines: seq<string>)
    requires forall k | 0 <= k < |lines| :: '\n' !in lines[k]
    ensures Lines(JoinLines(lines)) == lines
  {
    if lines != [] {
      var s := JoinLines(lines);
      var rest := JoinLines(lines[1..]);
      assert s == lines[0] + "\n" + rest;
      FirstNewline(lines[0], rest);
      LinesOfJoinLines(lines[1..]);
      assert s[|lines[0]| + 1..] == rest;
    }
  }

  lemma FirstNewline(a: string, b: string)
    requires '\n' !in a
    ensures IndexOf(a + "\n" + b, '\n') == Some(|a|)
    ensures (a + "\n" + b)[..|a|] == a
  {
    var s := a + "\n" + b;
    assert s[|a|] == '\n';
    assert s[..|a|] == a;
  }

  // ---------------------------------------------------------------------
  // Numbers

  /** Number of leading characters of `s` satisfying `p`. */
  function Span(s: string, p: char -> bool): (n: nat)
    ensures n <= |s|
    ensures forall k | 0 <= k < n :: p(s[k])
    ensures n < |s| ==> !p(s[n])
  {
    if s == [] || !p(s[0]) then 0 else 1 + Span(s[1..], p)
  }

  /** The value of a string of decimal digits. */
  function DigitsValue(d: string): nat
    requires forall k | 0 <= k < |d| :: IsDigit(d[k])
  {
    if d == [] then 0 else 10 * DigitsValue(d[..|d| - 1]) + DigitValue(d[|d| - 1])
  }

  /** `atoi`: leading white space is skipped, then an optional sign, then
      as many decimal digits as follow; a string without digits there gives
      0. */
  function Atoi(s: string): int {
    var t := s[Span(s, IsSpace)..];
    var negative := |t| > 0 && t[0] == '-';
    var u := if |t| > 0 && (t[0] == '-' || t[0] == '+') then t[1..] else t;
    var digits := u[..Span(u, IsDigit)];
    var value: int := DigitsValue(digits);
    if negative then -value else value
  }

  /** The decimal representation of `n` as `std::ostream` writes it: no
      sign, no leading zeros, "0" for zero. */
  function NatToString(n: nat): (s: string)
    ensures |s| > 0
    ensures forall k | 0 <= k < |s| :: IsDigit(s[k])
    ensures |s| > 1 ==> s[0] != '0'
  {
    if n < 10 then [DigitChar(n)] else NatToString(n / 10) + [DigitChar(n % 10)]
  }

  /** The digits `NatToString` writes spell the number. */
  lemma {:induction false} DigitsOfNatToString(n: nat)
    ensures DigitsValue(NatToString(n)) == n
  {
    var s := NatToString(n);
    if n < 10 {
      assert s[..0] == [];
    } else {
      DigitsOfNatToString(n / 10);
      assert s[..|s| - 1] == NatToString(n / 10);
    }
  }

  /** A number written by `NatToString` is read back by `atoi`, and so is
      the number with a minus sign in front. */
  lemma AtoiNatToString(n: nat)
    ensures Atoi(NatToString(n)) == n
    ensures Atoi("-" + NatToString(n)) == -(n as int)
  {
    var s := NatToString(n);
    DigitsOfNatToString(n);
    AtoiOfDigits(s);
    AtoiOfNegatedDigits(s);
  }

  lemma AtoiOfDigits(s: string)
    requires |s| > 0 && forall k | 0 <= k < |s| :: IsDigit(s[k])
    ensures Atoi(s) == DigitsValue(s)
  {
    assert !IsSpace(s[0]);
    assert Span(s, IsSpace) == 0;
    assert s[0..] == s;
    SpanAll(s, IsDigit);
    assert s[..|s|] == s;
  }

  lemma AtoiOfNegatedDigits(s: string)
    requires |s| > 0 && forall k | 0 <= k < |s| :: IsDigit(s[k])
    ensures Atoi("-" + s) == -(DigitsValue(s) as int)
  {
    var m := "-" + s;
    assert !IsSpace(m[0]);
    assert Span(m, IsSpace) == 0;
    assert m[0..] == m && m[1..] == s;
    SpanAll(s, IsDigit);
    assert s[..|s|] == s;
  }

  lemma {:induction false} SpanAll(s: string, p: char -> bool)
    requires forall k | 0 <= k < |s| :: p(s[k])
    ensures Span(s, p) == |s|
  {
    if s != [] {
      SpanAll(s[1..], p);
    }
  }

  /** Decimal output of a possibly negative number. */
  function IntToString(i: int): (s: string)
    ensures |s| > 0
  {
    if i < 0 then "-" + NatToString(-i) else NatToString(i)
  }

  lemma AtoiIntToString(i: int)
    ensures Atoi(IntToString(i)) == i
  {
    if i < 0 {
      AtoiNatToString(-i);
    } else {
      AtoiNatToString(i);
    }
  }

  // ---------------------------------------------------------------------
  // Searching

  predicate OccursAt(s: string, pat: string, k: nat) {
    k + |pat| <= |s| && s[k..k + |pat|] == pat
  }

  /** `std::string::find`: the first position where `pat` occurs in `s`,
      or nothing (`npos`). */
  function Find(s: string, pat: string): (r: Option<nat>)
    ensures r.Some? ==> OccursAt(s, pat, r.value)
    ensures r.Some? ==> forall k: nat | k < r.value :: !OccursAt(s, pat, k)
    ensures r.None? ==> forall k: nat :: !OccursAt(s, pat, k)
  {
    FindFrom(s, pat, 0)
  }

  function FindFrom(s: string, pat: string, from: nat): (r: Option<nat>)
    ensures r.Some? ==> from <= r.value && OccursAt(s, pat, r.value)
    ensures r.Some? ==> forall k: nat | from <= k < r.value :: !OccursAt(s, pat, k)
    ensures r.None? ==> forall k: nat | from <= k :: !OccursAt(s, pat, k)
    decreases |s| - from
  {
    if from + |pat| > |s| then None
    else if s[from..from + |pat|] == pat then Some(from)
    else FindFrom(s, pat, from + 1)
  }

  // ---------------------------------------------------------------------
  // Words

  /** The words of `s`: the maximal runs of characters that are not
      delimiters, in order. */
  function Words(s: string, delim: char -> bool): (r: seq<string>)
    ensures forall k | 0 <= k < |r| :: |r[k]| > 0 && NoDelimiter(r[k], delim)
    decreases |s|
  {
    var t := s[Span(s, delim)..];
    if t == [] then []
    else
      var n := WordLength(t, delim);
      NextWordFacts(s, delim);
      var rest := Words(t[n..], delim);
      AllWordsCons(t[..n], rest, delim);
      [t[..n]] + rest
  }

  /** After the leading delimiters of a string that is not all delimiters
      comes a non-empty word without delimiters. */
  lemma NextWordFacts(s: string, delim: char -> bool)
    requires Span(s, delim) < |s|
    ensures var t := s[Span(s, delim)..];
      && 0 < WordLength(t, delim) <= |t| < |s| + 1
      && NoDelimiter(t[..WordLength(t, delim)], delim)
  {
    var i := Span(s, delim);
    var t := s[i..];
    assert t[0] == s[i];
  }

  /** A non-empty word without delimiters in front of such words keeps the
      list made of such words. */
  lemma AllWordsCons(w: string, rest: seq<string>, delim: char -> bool)
    requires |w| > 0 && NoDelimiter(w, delim)
    requires forall k | 0 <= k < |rest| :: |rest[k]| > 0 && NoDelimiter(rest[k], delim)
    ensures forall k | 0 <= k < |[w] + rest| :: |([w] + rest)[k]| > 0 && NoDelimiter(([w] + rest)[k], delim)
  {
  }

  /** Number of leading characters of `s` that are not delimiters. */
  function WordLength(s: string, delim: char -> bool): (n: nat)
    ensures n <= |s|
    ensures forall k | 0 <= k < n :: !delim(s[k])
    ensures n < |s| ==> delim(s[n])
  {
    if s == [] || delim(s[0]) then 0 else 1 + WordLength(s[1..], delim)
  }

  predicate NoDelimiter(w: string, delim: char -> bool) {
    forall k | 0 <= k < |w| :: !delim(w[k])
  }

  /** Words separated by one blank each. */
  function Unwords(ws: seq<string>): string {
    if ws == [] then [] else if |ws| == 1 then ws[0] else ws[0] + " " + Unwords(ws[1..])
  }

  predicate IsBlank(c: char) { c == ' ' }

  /** `strtok` with delimiter " " called until it returns null. */
  function BlankWords(s: string): (r: seq<string>)
    ensures forall k | 0 <= k < |r| :: |r[k]| > 0 && ' ' !in r[k]
    ensures Concat(r) == Strip(s, IsBlank)
  {
    WordsKeepText(s, IsBlank);
    var r := Words(s, IsBlank);
    assert forall k | 0 <= k < |r| :: ' ' !in r[k] by {
      forall k | 0 <= k < |r| ensures ' ' !in r[k] {
        assert NoDelimiter(r[k], IsBlank);
      }
    }
    r
  }

  /** `>>` into a `std::string` on a string stream, repeated until it
      fails. */
  function SpaceWords(s: string): (r: seq<string>)
    ensures forall k | 0 <= k < |r| :: |r[k]| > 0 && NoDelimiter(r[k], IsSpace)
    ensures Concat(r) == Strip(s, IsSpace)
  {
    WordsKeepText(s, IsSpace);
    Words(s, IsSpace)
  }

  /** Non-empty words without white space, written out separated by
      blanks, are read back by `>>` as the same words. */
  lemma SpaceWordsOfUnwords(ws: seq<string>)
    requires forall k | 0 <= k < |ws| :: |ws[k]| > 0 && NoDelimiter(ws[k], IsSpace)
    ensures SpaceWords(Unwords(ws)) == ws
  {
    WordsOfUnwords(ws, IsSpace);
  }

  /** Non-empty words without blanks, written out separated by blanks, are
      split back into the same words. */
  lemma BlankWordsOfUnwords(ws: seq<string>)
    requires forall k | 0 <= k < |ws| :: |ws[k]| > 0 && ' ' !in ws[k]
    ensures BlankWords(Unwords(ws)) == ws
  {
    forall k | 0 <= k < |ws| ensures NoDelimiter(ws[k], IsBlank) {
      assert forall c | c in ws[k] :: c != ' ';
    }
    WordsOfUnwords(ws, IsBlank);
  }

  /** Non-empty words free of delimiters, written out separated by one
      blank each, split back into the same words whenever the blank is a
      delimiter. */
  lemma {:induction false} WordsOfUnwords(ws: seq<string>, delim: char -> bool)
    requires delim(' ')
    requires forall k | 0 <= k < |ws| :: |ws[k]| > 0 && NoDelimiter(ws[k], delim)
    ensures Words(Unwords(ws), delim) == ws
  {
    if ws != [] {
      var w := ws[0];
      if |ws| == 1 {
        assert Unwords(ws) == w + [];
        WordThen(w, [], delim);
      } else {
        var rest := Unwords(ws[1..]);
        assert Unwords(ws) == w + (" " + rest);
        WordsOfUnwords(ws[1..], delim);
        UnwordsStart(ws[1..]);
        WordThen(w, " " + rest, delim);
        SkipOneBlank(rest, delim);
      }
    }
  }

  /** A word followed by nothing or by a delimiter is the first word. */
  lemma WordThen(w: string, u: string, delim: char -> bool)
    requires |w| > 0 && NoDelimiter(w, delim)
    requires u == [] || delim(u[0])
    ensures Words(w + u, delim) == [w] + Words(u, delim)
  {
    var s := w + u;
    assert s[0] == w[0];
    assert Span(s, delim) == 0;
    assert s[0..] == s;
    if u == [] {
      assert s == w;
      WordLengthAll(w, delim);
    } else {
      WordLengthPrefix(w, u, delim);
    }
    assert s[..|w|] == w && s[|w|..] == u;
  }

  /** One blank before a word does not change the words. */
  lemma SkipOneBlank(rest: string, delim: char -> bool)
    requires delim(' ') && |rest| > 0 && !delim(rest[0])
    ensures Words(" " + rest, delim) == Words(rest, delim)
  {
    var t := " " + rest;
    assert t[1..] == rest;
    assert Span(t, delim) == 1;
    assert Span(rest, delim) == 0;
    assert rest[0..] == rest;
  }

  lemma UnwordsStart(ws: seq<string>)
    requires ws != [] && |ws[0]| > 0
    ensures |Unwords(ws)| > 0 && Unwords(ws)[0] == ws[0][0]
  {
  }

  /** The words one after another, with nothing between them. */
  function Concat(ws: seq<string>): string {
    if ws == [] then [] else ws[0] + Concat(ws[1..])
  }

  /** The characters of `s` that are not delimiters, in order. */
  function Strip(s: string, delim: char -> bool): (r: string)
    ensures NoDelimiter(r, delim)
  {
    if s == [] then [] else (if delim(s[0]) then [] else [s[0]]) + Strip(s[1..], delim)
  }

  lemma {:induction false} StripAppend(a: string, b: string, delim: char -> bool)
    ensures Strip(a + b, delim) == Strip(a, delim) + Strip(b, delim)
    decreases |a|
  {
    if a != [] {
      assert (a + b)[1..] == a[1..] + b;
      StripAppend(a[1..], b, delim);
    } else {
      assert a + b == b;
    }
  }

  lemma {:induction false} StripDelimiters(a: string, delim: char -> bool)
    requires forall k | 0 <= k < |a| :: delim(a[k])
    ensures Strip(a, delim) == []
    decreases |a|
  {
    if a != [] {
      StripDelimiters(a[1..], delim);
    }
  }

  lemma {:induction false} StripWord(a: string, delim: char -> bool)
    requires NoDelimiter(a, delim)
    ensures Strip(a, delim) == a
    decreases |a|
  {
    if a != [] {
      StripWord(a[1..], delim);
      assert a == [a[0]] + a[1..];
    }
  }

  /** The words hold every character of `s` that is not a delimiter, in
      order, and nothing else: splitting loses only delimiters. */
  lemma {:induction false} WordsKeepText(s: string, delim: char -> bool)
    ensures Concat(Words(s, delim)) == Strip(s, delim)
    decreases |s|
  {
    var t := s[Span(s, delim)..];
    StripLeading(s, delim);
    if t != [] {
      NextWordFacts(s, delim);
      var n := WordLength(t, delim);
      StripFirstWord(t, n, delim);
      WordsKeepText(t[n..], delim);
      ConcatCons(t[..n], Words(t[n..], delim));
    }
  }

  /** The leading delimiters strip away. */
  lemma StripLeading(s: string, delim: char -> bool)
    ensures Strip(s, delim) == Strip(s[Span(s, delim)..], delim)
  {
    var i := Span(s, delim);
    assert s == s[..i] + s[i..];
    StripAppend(s[..i], s[i..], delim);
    StripDelimiters(s[..i], delim);
  }

  /** A leading word survives stripping whole. */
  lemma StripFirstWord(t: string, n: nat, delim: char -> bool)
    requires n <= |t| && NoDelimiter(t[..n], delim)
    ensures Strip(t, delim) == t[..n] + Strip(t[n..], delim)
  {
    assert t == t[..n] + t[n..];
    StripAppend(t[..n], t[n..], delim);
    StripWord(t[..n], delim);
  }

  lemma ConcatCons(w: string, rest: seq<string>)
    ensures Concat([w] + rest) == w + Concat(rest)
  {
    assert ([w] + rest)[1..] == rest;
  }

  lemma {:induction false} WordLengthAll(w: string, delim: char -> bool)
    requires NoDelimiter(w, delim)
    ensures WordLength(w, delim) == |w|
  {
    if w != [] {
      WordLengthAll(w[1..], delim);
    }
  }

  lemma {:induction false} WordLengthPrefix(w: string, rest: string, delim: char -> bool)
    requires NoDelimiter(w, delim)
    requires |rest| > 0 && delim(rest[0])
    ensures WordLength(w + rest, delim) == |w|
    decreases |w|
  {
    if w != [] {
      assert (w + rest)[1..] == w[1..] + rest;
      WordLengthPrefix(w[1..], rest, delim);
    } else {
      assert w + rest == rest;
    }
  }
}
