/** The words of a printed document: bare or quoted, how they are written, and how they are read back. */
module ToonWords {
  import opened Prelude

  /** The character classes of the standard library, which this model only pins down on ASCII. */
  datatype CharClasses = CharClasses(alphabetic: char -> bool, numeric: char -> bool, whitespace: char -> bool)

  predicate IsDigit(c: char) {
    '0' <= c <= '9'
  }

  predicate IsLetter(c: char) {
    'a' <= c <= 'z' || 'A' <= c <= 'Z'
  }

  predicate IsBlank(c: char) {
    c == ' ' || 9 as char <= c <= 13 as char
  }

  ghost predicate AgreesOnAscii(u: CharClasses) {
    forall c: char :: c < 128 as char ==>
      (u.alphabetic(c) <==> IsLetter(c)) && (u.numeric(c) <==> IsDigit(c)) && (u.whitespace(c) <==> IsBlank(c))
  }

  // ---- numbers ----

  predicate DigitRun(s: string, from: nat, to: nat)
    requires to <= |s|
  {
    forall i :: from <= i < to ==> IsDigit(s[i])
  }

  /** From here on there is nothing, or `e` or `E`, an optional sign and digits. */
  predicate IsExponent(s: string, from: nat)
    requires from <= |s|
  {
    from == |s|
    || ((s[from] == 'e' || s[from] == 'E')
        && var i := if from + 1 < |s| && (s[from + 1] == '+' || s[from + 1] == '-') then from + 2 else from + 1;
           i < |s| && DigitRun(s, i, |s|))
  }

  /** From here on there is an optional point and digits, then the exponent. */
  ghost predicate IsFraction(s: string, from: nat)
    requires from <= |s|
  {
    IsExponent(s, from)
    || (from < |s| && s[from] == '.'
        && exists k :: from + 1 < k <= |s| && DigitRun(s, from + 1, k) && IsExponent(s, k))
  }

  ghost predicate IsUnsigned(s: string, from: nat)
    requires from <= |s|
  {
    exists k :: from < k <= |s| && DigitRun(s, from, k) && IsFraction(s, k)
  }

  /** A decimal literal: an optional minus, digits, an optional fraction, an optional exponent. */
  ghost predicate IsNumber(s: string) {
    IsUnsigned(s, if s != "" && s[0] == '-' then 1 else 0)
  }

  /** The end of the run of digits that starts at `from`. */
  method DigitsFrom(s: string, from: nat) returns (i: nat)
    requires from <= |s|
    ensures from <= i <= |s| && DigitRun(s, from, i) && (i < |s| ==> !IsDigit(s[i]))
  {
    i := from;
    while i < |s| && IsDigit(s[i])
      invariant from <= i <= |s| && DigitRun(s, from, i)
    {
      i := i + 1;
    }
  }

  method ExponentFrom(s: string, from: nat) returns (r: bool)
    requires from <= |s|
    ensures r <==> IsExponent(s, from)
  {
    var i := from;
    if i < |s| && (s[i] == 'e' || s[i] == 'E') {
      i := i + 1;
      if i < |s| && (s[i] == '+' || s[i] == '-') {
        i := i + 1;
      }
      if i == |s| || !IsDigit(s[i]) {
        return false;
      }
      i := DigitsFrom(s, i);
    }
    return i == |s|;
  }

  method FractionFrom(s: string, from: nat) returns (r: bool)
    requires from <= |s|
    ensures r <==> IsFraction(s, from)
  {
    var i := from;
    if i < |s| && s[i] == '.' {
      i := i + 1;
      if i == |s| || !IsDigit(s[i]) {
        return false;
      }
      i := DigitsFrom(s, i);
    }
    r := ExponentFrom(s, i);
  }

  /** One scan over the text, a position moving forward: true exactly for the decimal literals. */
  method LooksNumeric(s: string) returns (r: bool)
    ensures r <==> IsNumber(s)
  {
    if |s| == 0 {
      return false;
    }
    var i := 0;
    if s[0] == '-' {
      i := i + 1;
      if i == |s| {
        return false;
      }
    }
    var j := DigitsFrom(s, i);
    if j == i {
      return false;
    }
    r := FractionFrom(s, j);
  }

  // ---- quoting ----

  predicate Unsupported(c: char) {
    c < 32 as char && c != '\n' && c != '\r' && c != '\t'
  }

  /** No control character but line feed, carriage return and tab. */
  predicate Carriable(s: string) {
    forall i :: 0 <= i < |s| ==> !Unsupported(s[i])
  }

  /** The characters that end a bare word. */
  predicate Delimits(c: char) {
    c == ',' || c == ':' || c == '[' || c == ']' || c == '{' || c == '}'
  }

  predicate Special(c: char) {
    Delimits(c) || c == '\\' || c == '"' || c == '\n' || c == '\r' || c == '\t'
  }

  predicate HasSpecial(s: string) {
    exists i :: 0 <= i < |s| && Special(s[i])
  }

  predicate HasLeadingZero(s: string) {
    |s| >= 2 && s[0] == '0' && IsDigit(s[1])
  }

  /** A value's text may not stand bare. */
  ghost predicate NeedsQuoting(u: CharClasses, s: string) {
    || s == "" || u.whitespace(s[0]) || u.whitespace(s[|s| - 1])
    || s == "true" || s == "false" || s == "null"
    || IsNumber(s) || HasLeadingZero(s) || HasSpecial(s) || s[0] == '-'
  }

  /** A key may stand bare: a letter or `_`, then letters, digits, `_` or `.`. */
  predicate IsBareKey(u: CharClasses, k: string) {
    && k != "" && (k[0] == '_' || u.alphabetic(k[0]))
    && forall i :: 1 <= i < |k| ==> u.alphabetic(k[i]) || u.numeric(k[i]) || k[i] == '_' || k[i] == '.'
  }

  function EscapedChar(c: char): string {
    match c
    case '\\' => "\\\\"
    case '"' => "\\\""
    case '\n' => "\\n"
    case '\r' => "\\r"
    case '\t' => "\\t"
    case _ => [c]
  }

  function Escaped(s: string): string {
    if s == "" then "" else EscapedChar(s[0]) + Escaped(s[1..])
  }

  function InQuotes(s: string): string {
    "\"" + Escaped(s) + "\""
  }

  lemma {:induction false} EscapedSplits(a: string, b: string)
    ensures Escaped(a + b) == Escaped(a) + Escaped(b)
  {
    if a == "" {
      assert a + b == b;
    } else {
      assert (a + b)[1..] == a[1..] + b;
      EscapedSplits(a[1..], b);
    }
  }

  lemma EscapedOneMore(s: string, i: nat)
    requires i < |s|
    ensures Escaped(s[..i + 1]) == Escaped(s[..i]) + EscapedChar(s[i])
  {
    EscapedSplits(s[..i], [s[i]]);
    assert s[..i + 1] == s[..i] + [s[i]];
    assert Escaped([s[i]]) == EscapedChar(s[i]) + Escaped("") == EscapedChar(s[i]);
  }

  method QuoteString(s: string) returns (r: Option<string>)
    ensures r == if Carriable(s) then Some(InQuotes(s)) else None
  {
    var out := "\"";
    for i := 0 to |s|
      invariant out == "\"" + Escaped(s[..i]) && forall j :: 0 <= j < i ==> !Unsupported(s[j])
    {
      EscapedOneMore(s, i);
      if Unsupported(s[i]) {
        return None;
      }
      out := out + EscapedChar(s[i]);
    }
    assert s[..|s|] == s;
    out := out + "\"";
    return Some(out);
  }

  // ---- words ----

  datatype Word = Bare(text: string) | Quoted(text: string)

  function WordText(w: Word): string {
    match w
    case Bare(t) => t
    case Quoted(t) => InQuotes(t)
  }

  /** A bare word that reads back as itself wherever it stands. */
  predicate PlainText(t: string) {
    && t != "" && t[0] != ' '
    && (t[0] == '-' ==> |t| > 1 && t[1] != ' ')
    && forall i :: 0 <= i < |t| ==> !Special(t[i])
  }

  predicate Plain(w: Word) {
    w.Bare? ==> PlainText(w.text)
  }

  function Unescaped(c: char): char {
    match c
    case 'n' => '\n'
    case 'r' => '\r'
    case 't' => '\t'
    case _ => c
  }

  /** Reads a quoted word from just after its opening quote, up to and over the closing one. */
  function ReadQuoted(s: string): (r: (string, string))
    ensures |r.1| <= |s|
  {
    if s == "" then ("", "")
    else if s[0] == '"' then ("", s[1..])
    else if s[0] == '\\' && |s| >= 2 then
      var (text, rest) := ReadQuoted(s[2..]);
      ([Unescaped(s[1])] + text, rest)
    else
      var (text, rest) := ReadQuoted(s[1..]);
      ([s[0]] + text, rest)
  }

  function ReadBare(s: string): (r: (string, string))
    ensures |r.1| <= |s|
  {
    if s == "" || Delimits(s[0]) then ("", s)
    else
      var (text, rest) := ReadBare(s[1..]);
      ([s[0]] + text, rest)
  }

  function ReadWord(s: string): (r: (Word, string))
    ensures |r.1| <= |s|
  {
    if s != "" && s[0] == '"' then
      var (text, rest) := ReadQuoted(s[1..]);
      (Quoted(text), rest)
    else
      var (text, rest) := ReadBare(s);
      (Bare(text), rest)
  }

  lemma BackslashReadsBack(c: char, next: string)
    ensures ReadQuoted(['\\', c] + next) == ([Unescaped(c)] + ReadQuoted(next).0, ReadQuoted(next).1)
  {
    assert (['\\', c] + next)[2..] == next;
  }

  lemma OrdinaryReadsBack(c: char, next: string)
    requires c != '"' && c != '\\'
    ensures ReadQuoted([c] + next) == ([c] + ReadQuoted(next).0, ReadQuoted(next).1)
  {
    assert ([c] + next)[1..] == next;
  }

  /** One escaped character reads back, whatever follows it. */
  lemma CharReadsBack(c: char, next: string)
    ensures ReadQuoted(EscapedChar(c) + next) == ([c] + ReadQuoted(next).0, ReadQuoted(next).1)
  {
    match c
    case '\\' => BackslashReadsBack('\\', next);
    case '"' => BackslashReadsBack('"', next);
    case '\n' => BackslashReadsBack('n', next);
    case '\r' => BackslashReadsBack('r', next);
    case '\t' => BackslashReadsBack('t', next);
    case _ => OrdinaryReadsBack(c, next);
  }

  lemma {:induction false} QuotedReadsBack(t: string, rest: string)
    ensures ReadQuoted(Escaped(t) + "\"" + rest) == (t, rest)
  {
    var s := Escaped(t) + "\"" + rest;
    if t == "" {
      assert s[0] == '"' && s[1..] == rest;
    } else {
      QuotedReadsBack(t[1..], rest);
      var next := Escaped(t[1..]) + "\"" + rest;
      assert s == EscapedChar(t[0]) + next;
      CharReadsBack(t[0], next);
      assert [t[0]] + t[1..] == t;
    }
  }

  /** The text ends here, or with a character that ends a bare word. */
  predicate EndsWord(rest: string) {
    rest == "" || Delimits(rest[0])
  }

  lemma {:induction false} BareReadsBack(t: string, rest: string)
    requires forall i :: 0 <= i < |t| ==> !Delimits(t[i])
    requires EndsWord(rest)
    ensures ReadBare(t + rest) == (t, rest)
  {
    if t == "" {
      assert t + rest == rest;
    } else {
      assert (t + rest)[1..] == t[1..] + rest && (t + rest)[0] == t[0];
      BareReadsBack(t[1..], rest);
      assert [t[0]] + t[1..] == t;
    }
  }

  lemma WordReadsBack(w: Word, rest: string)
    requires Plain(w) && EndsWord(rest)
    ensures ReadWord(WordText(w) + rest) == (w, rest)
  {
    match w {
      case Bare(t) =>
        assert (t + rest)[0] == t[0] && Special('"');
        BareReadsBack(t, rest);
      case Quoted(t) =>
        var s := InQuotes(t) + rest;
        assert s[0] == '"' && s[1..] == Escaped(t) + "\"" + rest;
        QuotedReadsBack(t, rest);
    }
  }

  // ---- comma-separated words ----

  function WordsText(ws: seq<Word>): string
    requires ws != []
  {
    if |ws| == 1 then WordText(ws[0]) else WordText(ws[0]) + "," + WordsText(ws[1..])
  }

  function ReadWords(s: string): (r: (seq<Word>, string))
    ensures |r.1| <= |s| && r.0 != []
    decreases |s|
  {
    var (w, rest) := ReadWord(s);
    if rest != "" && rest[0] == ',' then
      var (ws, rest') := ReadWords(rest[1..]);
      ([w] + ws, rest')
    else
      ([w], rest)
  }

  predicate AllPlain(ws: seq<Word>) {
    forall i :: 0 <= i < |ws| ==> Plain(ws[i])
  }

  /** The text ends here, or with a delimiter that is not the comma between words. */
  predicate EndsWords(rest: string) {
    EndsWord(rest) && (rest != "" ==> rest[0] != ',')
  }

  lemma {:induction false} WordsReadBack(ws: seq<Word>, rest: string)
    requires ws != [] && AllPlain(ws) && EndsWords(rest)
    ensures ReadWords(WordsText(ws) + rest) == (ws, rest)
  {
    if |ws| == 1 {
      WordReadsBack(ws[0], rest);
      assert [ws[0]] == ws;
    } else {
      WordsReadBack(ws[1..], rest);
      FirstWordReadsBack(ws[0], WordsText(ws[1..]), rest);
      assert [ws[0]] + ws[1..] == ws;
    }
  }

  lemma FirstWordReadsBack(w: Word, more: string, rest: string)
    requires Plain(w)
    ensures ReadWord(WordText(w) + "," + more + rest) == (w, "," + (more + rest))
  {
    var after := "," + (more + rest);
    assert WordText(w) + "," + more + rest == WordText(w) + after;
    WordReadsBack(w, after);
  }

  // ---- counts ----

  function Digit(n: nat): char
    requires n < 10
  {
    '0' + n as char
  }

  function Decimal(n: nat): string {
    if n < 10 then [Digit(n)] else Decimal(n / 10) + [Digit(n % 10)]
  }

  function ReadCount(s: string, sofar: nat): (r: (nat, string))
    ensures |r.1| <= |s|
    decreases |s|
  {
    if s != "" && IsDigit(s[0]) then ReadCount(s[1..], 10 * sofar + (s[0] as int - '0' as int)) else (sofar, s)
  }

  lemma {:induction false} CountReadsOn(n: nat, rest: string)
    ensures ReadCount(Decimal(n) + rest, 0) == ReadCount(rest, n)
  {
    if n < 10 {
      assert (Decimal(n) + rest)[0] == Digit(n) && (Decimal(n) + rest)[1..] == rest;
    } else {
      var d := Digit(n % 10);
      var after := [d] + rest;
      assert Decimal(n) + rest == Decimal(n / 10) + after;
      CountReadsOn(n / 10, after);
      assert after[0] == d && after[1..] == rest;
    }
  }

  lemma CountReadsBack(n: nat, rest: string)
    requires rest != "" && !IsDigit(rest[0])
    ensures ReadCount(Decimal(n) + rest, 0) == (n, rest)
  {
    CountReadsOn(n, rest);
  }

  // ---- no line feed inside ----

  predicate OneLine(s: string) {
    forall i :: 0 <= i < |s| ==> s[i] != '\n'
  }

  lemma {:induction false} EscapedIsOneLine(s: string)
    ensures OneLine(Escaped(s))
  {
    if s != "" {
      EscapedIsOneLine(s[1..]);
      assert OneLine(EscapedChar(s[0]));
    }
  }

  lemma WordIsOneLine(w: Word)
    requires Plain(w)
    ensures OneLine(WordText(w)) && WordText(w) != "" && WordText(w)[0] != ' '
  {
    if w.Quoted? {
      EscapedIsOneLine(w.text);
    } else {
      assert Special('\n');
    }
  }

  lemma {:induction false} WordsAreOneLine(ws: seq<Word>)
    requires ws != [] && AllPlain(ws)
    ensures OneLine(WordsText(ws))
  {
    WordIsOneLine(ws[0]);
    if |ws| > 1 { WordsAreOneLine(ws[1..]); }
  }

  lemma {:induction false} DecimalIsOneLine(n: nat)
    ensures OneLine(Decimal(n))
  {
    if n >= 10 { DecimalIsOneLine(n / 10); }
  }
}
