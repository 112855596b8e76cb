/**
  The text handling the bot applies to chat messages and callback data:
  Python's `str.split()` (whitespace runs), `str.split(sep)`, `str.lstrip(c)`,
  `str(n)` for integers and a simplified `int(s)`.
 */
module Parsing {
  import opened Wrappers

  // ---------------------------------------------------------------------------
  // Whitespace splitting, as `text.split()` with no argument
  // ---------------------------------------------------------------------------

  /** The characters `str.split()` treats as whitespace (`str.isspace()`). */
  predicate IsSpace(c: char) {
    c == ' ' || ('\t' <= c <= '\r') || ('\U{1C}' <= c <= '\U{1F}')
    || c == '\U{85}' || c == '\U{A0}' || c == '\U{1680}'
    || ('\U{2000}' <= c <= '\U{200A}') || c == '\U{2028}' || c == '\U{2029}'
    || c == '\U{202F}' || c == '\U{205F}' || c == '\U{3000}'
  }

  /** A word: a non-empty run of non-whitespace characters. */
  predicate IsWord(w: string) {
    w != [] && forall i | 0 <= i < |w| :: !IsSpace(w[i])
  }

  /** The length of the longest whitespace-free prefix of `s`. */
  function TokenLength(s: string): (n: nat)
    ensures n <= |s|
    ensures forall i | 0 <= i < n :: !IsSpace(s[i])
    ensures n == |s| || IsSpace(s[n])
  {
    if s == [] || IsSpace(s[0]) then 0 else 1 + TokenLength(s[1..])
  }

  /** `s.split()`: the maximal whitespace-free runs of `s`, in order. */
  function Words(s: string): (ws: seq<string>)
    ensures forall i | 0 <= i < |ws| :: IsWord(ws[i])
    decreases |s|
  {
    if s == [] then []
    else if IsSpace(s[0]) then Words(s[1..])
    else
      var n := TokenLength(s);
      [s[..n]] + Words(s[n..])
  }

  /** `" ".join(ws)`, the partner of `Words`. */
  function Unwords(ws: seq<string>): string {
    if ws == [] then [] else Join(ws, ' ')
  }

  /** Unfolds `Unwords` by one word. */
  lemma UnwordsCons(ws: seq<string>)
    requires |ws| > 1
    ensures Unwords(ws) == ws[0] + [' '] + Unwords(ws[1..])
  {
    assert ws[1..] != [];
  }

  lemma {:induction false} TokenLengthOfWord(w: string, rest: string)
    requires IsWord(w)
    requires rest == [] || IsSpace(rest[0])
    ensures TokenLength(w + rest) == |w|
    decreases |w|
  {
    if |w| > 1 {
      assert (w + rest)[1..] == w[1..] + rest;
      TokenLengthOfWord(w[1..], rest);
    } else {
      assert (w + rest)[1..] == rest;
    }
  }

  /** A word followed by whitespace or nothing is the first token. */
  lemma WordThenRest(w: string, rest: string)
    requires IsWord(w) && (rest == [] || IsSpace(rest[0]))
    ensures Words(w + rest) == [w] + Words(rest)
  {
    TokenLengthOfWord(w, rest);
    assert (w + rest)[..|w|] == w;
    assert (w + rest)[|w|..] == rest;
  }

  /** Splitting words joined by single spaces gives the words back. */
  lemma {:induction false} WordsOfUnwords(ws: seq<string>)
    requires forall i | 0 <= i < |ws| :: IsWord(ws[i])
    ensures Words(Unwords(ws)) == ws
    decreases |ws|
  {
    if ws == [] {
    } else if |ws| == 1 {
      WordThenRest(ws[0], []);
      assert ws[0] + [] == ws[0];
    } else {
      var tail := [' '] + Unwords(ws[1..]);
      UnwordsCons(ws);
      assert Unwords(ws) == ws[0] + tail;
      WordThenRest(ws[0], tail);
      assert tail[1..] == Unwords(ws[1..]);
      WordsOfUnwords(ws[1..]);
      assert ws == [ws[0]] + ws[1..];
    }
  }

  /** A run of whitespace, possibly empty. */
  predicate AllSpace(s: string) {
    forall i | 0 <= i < |s| :: IsSpace(s[i])
  }

  /** Each word followed by its gap: `ws[0] + gaps[0] + ws[1] + gaps[1] + ...`. */
  function Spaced(ws: seq<string>, gaps: seq<string>): string
    requires |gaps| == |ws|
  {
    if ws == [] then [] else ws[0] + gaps[0] + Spaced(ws[1..], gaps[1..])
  }

  /**
    Gaps that keep words apart: one per word, each a whitespace run, and
    every gap but the last (the trailing whitespace) non-empty.
   */
  predicate Separators(ws: seq<string>, gaps: seq<string>) {
    && |gaps| == |ws|
    && (forall i | 0 <= i < |gaps| :: AllSpace(gaps[i]))
    && (forall i | 0 <= i < |gaps| - 1 :: gaps[i] != [])
  }

  /** Leading whitespace does not change the words. */
  lemma {:induction false} WordsAfterSpace(sp: string, t: string)
    requires AllSpace(sp)
    ensures Words(sp + t) == Words(t)
    decreases |sp|
  {
    if sp != [] {
      assert (sp + t)[1..] == sp[1..] + t;
      WordsAfterSpace(sp[1..], t);
    } else {
      assert sp + t == t;
    }
  }

  lemma {:induction false} WordsOfSpaced(ws: seq<string>, gaps: seq<string>)
    requires forall i | 0 <= i < |ws| :: IsWord(ws[i])
    requires Separators(ws, gaps)
    ensures Words(Spaced(ws, gaps)) == ws
    decreases |ws|
  {
    if ws != [] {
      var w, g, rest := ws[0], gaps[0], Spaced(ws[1..], gaps[1..]);
      var tail := g + rest;
      assert Spaced(ws, gaps) == w + tail;
      if g == [] {
        assert |ws| == 1;
        assert rest == [] && tail == [];
      }
      TokenLengthOfWord(w, tail);
      assert (w + tail)[..|w|] == w;
      assert (w + tail)[|w|..] == tail;
      WordsAfterSpace(g, rest);
      WordsOfSpaced(ws[1..], gaps[1..]);
      assert ws == [w] + ws[1..];
    }
  }

  /**
    `text.split()` of words separated by any non-empty whitespace runs, with
    optional whitespace before the first and after the last, gives exactly
    those words.
   */
  lemma WordsOfLayout(lead: string, ws: seq<string>, gaps: seq<string>)
    requires forall i | 0 <= i < |ws| :: IsWord(ws[i])
    requires AllSpace(lead) && Separators(ws, gaps)
    ensures Words(lead + Spaced(ws, gaps)) == ws
  {
    WordsAfterSpace(lead, Spaced(ws, gaps));
    WordsOfSpaced(ws, gaps);
  }

  lemma SpacedCons(w: string, ws: seq<string>, gap: string, gaps: seq<string>)
    requires |gaps| == |ws|
    ensures Spaced([w] + ws, [gap] + gaps) == w + gap + Spaced(ws, gaps)
  {
    assert ([w] + ws)[1..] == ws && ([gap] + gaps)[1..] == gaps;
  }

  /** Whitespace in front of a word, where the text starts with whitespace, is not empty. */
  lemma GapBeforeWord(gap: string, ws: seq<string>, gaps: seq<string>)
    requires |gaps| == |ws| && ws != [] && IsWord(ws[0])
    requires var t := gap + Spaced(ws, gaps); t != [] && IsSpace(t[0])
    ensures gap != []
  {
    assert Spaced(ws, gaps)[0] == ws[0][0];
    assert !IsSpace(Spaced(ws, gaps)[0]);
  }

  lemma SeparatorsCons(w: string, ws: seq<string>, gap: string, gaps: seq<string>)
    requires Separators(ws, gaps) && AllSpace(gap)
    requires ws != [] ==> gap != []
    ensures Separators([w] + ws, [gap] + gaps)
  {
    var all := [gap] + gaps;
    assert forall i | 1 <= i < |all| :: all[i] == gaps[i - 1];
  }

  /** The layout step for a text that starts with whitespace. */
  lemma SpaceBeforeLead(c: char, lead: string, body: string)
    requires IsSpace(c) && AllSpace(lead)
    ensures AllSpace([c] + lead)
    ensures [c] + (lead + body) == ([c] + lead) + body
  {
    assert forall i | 1 <= i < |[c] + lead| :: ([c] + lead)[i] == lead[i - 1];
  }

  /** The layout step for a text that starts with a word. */
  lemma LayoutAfterWord(w: string, rest: string, lead: string, gaps: seq<string>)
    requires IsWord(w) && (rest == [] || IsSpace(rest[0]))
    requires AllSpace(lead) && Separators(Words(rest), gaps)
    requires rest == lead + Spaced(Words(rest), gaps)
    ensures Words(w + rest) == [w] + Words(rest)
    ensures Separators([w] + Words(rest), [lead] + gaps)
    ensures w + rest == Spaced([w] + Words(rest), [lead] + gaps)
  {
    var ws := Words(rest);
    WordThenRest(w, rest);
    if ws != [] {
      GapBeforeWord(lead, ws, gaps);
    }
    SeparatorsCons(w, ws, lead, gaps);
    SpacedCons(w, ws, lead, gaps);
  }

  /**
    Conversely, every text is laid out that way around its words: leading
    whitespace, then each word followed by its separating whitespace.
   */
  lemma {:induction false} LayoutOfWords(s: string) returns (lead: string, gaps: seq<string>)
    ensures AllSpace(lead) && Separators(Words(s), gaps)
    ensures s == lead + Spaced(Words(s), gaps)
    decreases |s|
  {
    if s == [] {
      lead, gaps := [], [];
    } else if IsSpace(s[0]) {
      var l, g := LayoutOfWords(s[1..]);
      assert s == [s[0]] + s[1..];
      WordsAfterSpace([s[0]], s[1..]);
      SpaceBeforeLead(s[0], l, Spaced(Words(s[1..]), g));
      lead, gaps := [s[0]] + l, g;
    } else {
      var n := TokenLength(s);
      var w, rest := s[..n], s[n..];
      var l, g := LayoutOfWords(rest);
      assert s == w + rest;
      LayoutAfterWord(w, rest, l, g);
      lead, gaps := [], [l] + g;
      assert s == lead + s;
    }
  }

  // ---------------------------------------------------------------------------
  // Splitting on one separator, as `s.split(sep)`
  // ---------------------------------------------------------------------------

  /** The number of occurrences of `c` in `s`. */
  function Occurrences(s: string, c: char): nat {
    if s == [] then 0 else (if s[0] == c then 1 else 0) + Occurrences(s[1..], c)
  }

  /** A string without `c` has no occurrence of it. */
  lemma {:induction false} NoOccurrences(s: string, c: char)
    ensures c !in s ==> Occurrences(s, c) == 0
  {
    if s != [] {
      assert c !in s ==> c !in s[1..] by {
        forall k | 0 <= k < |s[1..]| ensures s[1..][k] == s[k + 1] {
        }
      }
      NoOccurrences(s[1..], c);
    }
  }

  /**
    `s.split(sep)`: the pieces of `s` between occurrences of `sep`; an empty
    string gives one empty piece, and each separator adds one piece.
   */
  function Split(s: string, sep: char): (parts: seq<string>)
    ensures |parts| == Occurrences(s, sep) + 1
    ensures forall i | 0 <= i < |parts| :: sep !in parts[i]
  {
    if s == [] then [[]]
    else
      var rest := Split(s[1..], sep);
      if s[0] == sep then [[]] + rest
      else [[s[0]] + rest[0]] + rest[1..]
  }

  /** `sep.join(parts)`, the partner of `Split`. */
  function Join(parts: seq<string>, sep: char): string
    requires parts != []
  {
    if |parts| == 1 then parts[0] else parts[0] + [sep] + Join(parts[1..], sep)
  }

  /** Joining the pieces of a split restores the string. */
  lemma {:induction false} JoinOfSplit(s: string, sep: char)
    ensures Join(Split(s, sep), sep) == s
  {
    if s != [] {
      var rest := Split(s[1..], sep);
      JoinOfSplit(s[1..], sep);
      if s[0] == sep {
        assert ([[]] + rest)[1..] == rest;
      } else {
        var parts := [[s[0]] + rest[0]] + rest[1..];
        assert parts[1..] == rest[1..];
        if |rest| > 1 {
          assert Join(rest, sep) == rest[0] + [sep] + Join(rest[1..], sep);
        }
      }
    }
  }

  lemma {:induction false} SplitAfterPlainPrefix(p: string, t: string, sep: char)
    requires sep !in p
    ensures Split(p + t, sep) == [p + Split(t, sep)[0]] + Split(t, sep)[1..]
    decreases |p|
  {
    if p != [] {
      assert (p + t)[1..] == p[1..] + t;
      SplitAfterPlainPrefix(p[1..], t, sep);
      assert [p[0]] + (p[1..] + Split(t, sep)[0]) == p + Split(t, sep)[0];
    } else {
      var parts := Split(t, sep);
      assert p + t == t;
      assert p + parts[0] == parts[0];
      assert parts == [parts[0]] + parts[1..];
    }
  }

  /** A leading separator splits off one empty piece. */
  lemma SplitAfterSeparator(u: string, sep: char)
    ensures Split([sep] + u, sep) == [[]] + Split(u, sep)
  {
    assert ([sep] + u)[1..] == u;
  }

  /** Text that is empty or starts with the separator has an empty first piece. */
  lemma FirstPieceEmpty(rest: string, sep: char)
    requires rest == [] || rest[0] == sep
    ensures Split(rest, sep)[0] == []
  {
    if rest != [] {
      SplitAfterSeparator(rest[1..], sep);
      assert rest == [sep] + rest[1..];
    }
  }

  /** A separator-free prefix before an empty first piece is the whole first piece. */
  lemma FirstPieceOfPrefix(p: string, rest: string, sep: char)
    requires sep !in p
    requires rest == [] || rest[0] == sep
    ensures Split(p + rest, sep)[0] == p
  {
    FirstPieceEmpty(rest, sep);
    SplitAfterPlainPrefix(p, rest, sep);
    assert p + [] == p;
  }

  /** After a separator-free prefix and one separator come the pieces of the rest. */
  lemma PiecesAfterSeparator(a: string, u: string, sep: char)
    requires sep !in a
    ensures Split(a + ([sep] + u), sep)[1..] == Split(u, sep)
  {
    SplitAfterSeparator(u, sep);
    SplitAfterPlainPrefix(a, [sep] + u, sep);
  }

  /**
    With no separator in `a` or `p`, and `rest` empty or starting with the
    separator, the second piece of `a + sep + p + rest` is `p`.
   */
  lemma SecondPiece(a: string, p: string, rest: string, sep: char)
    requires sep !in a && sep !in p
    requires rest == [] || rest[0] == sep
    ensures var parts := Split(a + [sep] + p + rest, sep);
            |parts| >= 2 && parts[1] == p
  {
    assert a + [sep] + p + rest == a + ([sep] + (p + rest));
    FirstPieceOfPrefix(p, rest, sep);
    PiecesAfterSeparator(a, p + rest, sep);
  }

  /** Splitting pieces that contain no separator, once joined, gives them back. */
  lemma {:induction false} SplitOfJoin(parts: seq<string>, sep: char)
    requires parts != []
    requires forall i | 0 <= i < |parts| :: sep !in parts[i]
    ensures Split(Join(parts, sep), sep) == parts
    decreases |parts|
  {
    if |parts| == 1 {
      SplitAfterPlainPrefix(parts[0], [], sep);
      assert parts[0] + [] == parts[0];
    } else {
      var tail := [sep] + Join(parts[1..], sep);
      assert Join(parts, sep) == parts[0] + tail;
      SplitAfterPlainPrefix(parts[0], tail, sep);
      assert tail[1..] == Join(parts[1..], sep);
      SplitOfJoin(parts[1..], sep);
      assert Split(tail, sep) == [[]] + parts[1..];
      assert Split(tail, sep)[0] == [];
      assert Split(tail, sep)[1..] == parts[1..];
      assert parts[0] + [] == parts[0];
      assert parts == [parts[0]] + parts[1..];
    }
  }

  // ---------------------------------------------------------------------------
  // Stripping a leading character, as `s.lstrip(c)`
  // ---------------------------------------------------------------------------

  /** `s.lstrip(c)`: `s` without every leading copy of `c`. */
  function StripLeading(s: string, c: char): (r: string)
    ensures |r| <= |s| && r == s[|s| - |r|..]
    ensures forall i | 0 <= i < |s| - |r| :: s[i] == c
    ensures r == [] || r[0] != c
  {
    if s != [] && s[0] == c then StripLeading(s[1..], c) else s
  }

  // ---------------------------------------------------------------------------
  // Decimal integers, as `str(n)` and `int(s)`
  // ---------------------------------------------------------------------------

  predicate IsDigit(c: char) {
    '0' <= c <= '9'
  }

  predicate AllDigits(s: string) {
    forall i | 0 <= i < |s| :: IsDigit(s[i])
  }

  function DigitChar(d: nat): (c: char)
    requires d < 10
    ensures IsDigit(c)
  {
    ('0' as int + d) as char
  }

  function DigitValue(c: char): (d: nat)
    requires IsDigit(c)
    ensures d < 10
  {
    c as int - '0' as int
  }

  /** The decimal numeral of `n`, most significant digit first. */
  function NatToString(n: nat): (s: string)
    ensures s != [] && AllDigits(s)
  {
    if n < 10 then [DigitChar(n)] else NatToString(n / 10) + [DigitChar(n % 10)]
  }

  /** The value of a string of decimal digits. */
  function DigitsValue(s: string): nat
    requires AllDigits(s)
  {
    if s == [] then 0 else DigitsValue(s[..|s| - 1]) * 10 + DigitValue(s[|s| - 1])
  }

  lemma {:induction false} DigitsValueOfNatToString(n: nat)
    ensures DigitsValue(NatToString(n)) == n
  {
    if n >= 10 {
      var s := NatToString(n);
      assert s[..|s| - 1] == NatToString(n / 10);
      DigitsValueOfNatToString(n / 10);
    }
  }

  /** `str(i)`: a minus sign for negative numbers, then the numeral. */
  function IntToString(i: int): (s: string)
    ensures s != []
    ensures i < 0 <==> s[0] == '-'
    ensures i >= 0 ==> AllDigits(s)
    ensures i < 0 ==> |s| > 1 && AllDigits(s[1..])
  {
    if i < 0 then ['-'] + NatToString(-i) else NatToString(i)
  }

  /**
    `int(s)` restricted to an optional sign followed by ASCII digits; any other
    string is refused, as Python's `ValueError`.
   */
  function ParseInt(s: string): (r: Option<int>)
    ensures r.Some? <==>
              || (s != [] && AllDigits(s))
              || (|s| > 1 && (s[0] == '-' || s[0] == '+') && AllDigits(s[1..]))
    ensures s != [] && AllDigits(s) ==> r == Some(DigitsValue(s))
    ensures |s| > 1 && s[0] == '+' && AllDigits(s[1..]) ==> r == Some(DigitsValue(s[1..]))
    ensures |s| > 1 && s[0] == '-' && AllDigits(s[1..]) ==> r == Some(-(DigitsValue(s[1..]) as int))
    ensures r.Some? ==> ':' !in s
  {
    if s != [] && (s[0] == '-' || s[0] == '+') then
      if |s| > 1 && AllDigits(s[1..]) then
        var magnitude: int := DigitsValue(s[1..]);
        Some(if s[0] == '-' then -magnitude else magnitude)
      else None
    else if s != [] && AllDigits(s) then Some(DigitsValue(s))
    else None
  }

  /** Parsing the numeral of an integer gives the integer back. */
  lemma ParseIntOfIntToString(i: int)
    ensures ParseInt(IntToString(i)) == Some(i)
  {
    var s := IntToString(i);
    if i < 0 {
      var digits := NatToString(-i);
      assert s[1..] == digits;
      DigitsValueOfNatToString(-i);
      assert ParseInt(s) == Some(-(DigitsValue(digits) as int));
    } else {
      assert IsDigit(s[0]);
      DigitsValueOfNatToString(i);
    }
  }

  /** Two words written next to each other form one word. */
  lemma WordConcat(u: string, v: string)
    requires IsWord(u) && IsWord(v)
    ensures IsWord(u + v)
  {
    forall k | 0 <= k < |u + v|
      ensures !IsSpace((u + v)[k])
    {
      if k < |u| {
        assert (u + v)[k] == u[k];
      } else {
        assert (u + v)[k] == v[k - |u|];
      }
    }
  }

  /** The numeral of an integer is a single word. */
  lemma IntToStringIsWord(i: int)
    ensures IsWord(IntToString(i))
  {
    var digits := NatToString(if i < 0 then -i else i);
    assert forall k | 0 <= k < |digits| :: !IsSpace(digits[k]);
    if i < 0 {
      WordConcat("-", digits);
    }
  }

  /** `str(i)` never contains a colon, so it survives `split(":")` whole. */
  lemma IntToStringHasNoColon(i: int)
    ensures ':' !in IntToString(i)
  {
    var s := NatToString(if i < 0 then -i else i);
    assert forall k | 0 <= k < |s| :: s[k] != ':';
  }

  // ---------------------------------------------------------------------------
  // Scores, as `s1, s2 = map(int, score.split(":"))`
  // ---------------------------------------------------------------------------

  /**
    A score `"<s1>:<s2>"`: exactly two pieces around one colon, each an
    integer; anything else is refused (Python's `ValueError`).
   */
  function ParseScore(s: string): (r: Option<(int, int)>)
    ensures r.Some? ==> Occurrences(s, ':') == 1
  {
    var parts := Split(s, ':');
    if |parts| != 2 then None
    else
      match (ParseInt(parts[0]), ParseInt(parts[1]))
      case (Some(s1), Some(s2)) => Some((s1, s2))
      case _ => None
  }

  /** The text `"<s1>:<s2>"` of a score. */
  function ScoreText(s1: int, s2: int): string {
    IntToString(s1) + ":" + IntToString(s2)
  }

  /** A score written out by `ScoreText` parses back to the same pair. */
  /**
    Any two colon-free pieces around one colon: the score is accepted exactly
    when `int()` accepts both pieces, and then it is their two values.
   */
  lemma ParseScoreOfPieces(p: string, q: string)
    requires ':' !in p && ':' !in q
    ensures ParseScore(p + ":" + q)
            == if ParseInt(p).Some? && ParseInt(q).Some? then Some((ParseInt(p).value, ParseInt(q).value))
               else None
  {
    assert Join([p, q], ':') == p + ":" + q;
    SplitOfJoin([p, q], ':');
  }

  lemma ParseScoreOfScoreText(s1: int, s2: int)
    ensures ParseScore(ScoreText(s1, s2)) == Some((s1, s2))
  {
    var a, b := IntToString(s1), IntToString(s2);
    IntToStringHasNoColon(s1);
    IntToStringHasNoColon(s2);
    assert Join([a, b], ':') == ScoreText(s1, s2);
    SplitOfJoin([a, b], ':');
    ParseIntOfIntToString(s1);
    ParseIntOfIntToString(s2);
  }
}
