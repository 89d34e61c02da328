/** The lines of a printed document: what one line says, how it is written, and how it is read back. */
module ToonLines {
  import opened Prelude
  import opened ToonWords

  /** What stands on a line after its indentation and dash. */
  datatype Body =
    | Nothing
    | EmptyObject
    | Values(values: seq<Word>)
    | Field(key: Word, value: Word)
    | Opening(key: Word)
    | Header(name: Option<Word>, count: nat, columns: Option<seq<Word>>, inline: seq<Word>)

  datatype Line = Line(depth: nat, dash: bool, body: Body)

  /** The lines the printer produces: bare words are plain, and only a list item may say nothing. */
  predicate WellFormed(l: Line) {
    match l.body
    case Nothing => l.dash
    case EmptyObject => l.dash
    case Values(ws) => ws != [] && AllPlain(ws)
    case Field(k, w) => Plain(k) && Plain(w)
    case Opening(k) => Plain(k)
    case Header(name, _, columns, inline) =>
      && (name.Some? ==> Plain(name.value))
      && (columns.Some? ==> columns.value != [] && AllPlain(columns.value))
      && AllPlain(inline)
  }

  // ---- writing ----

  function NameText(name: Option<Word>): string {
    if name.Some? then WordText(name.value) else ""
  }

  function ColumnsText(columns: Option<seq<Word>>): string
    requires columns.Some? ==> columns.value != []
  {
    if columns.Some? then "{" + WordsText(columns.value) + "}" else ""
  }

  function InlineText(inline: seq<Word>): string {
    if inline == [] then "" else " " + WordsText(inline)
  }

  /** What follows the name of an array: its length, its columns if it is a table, its values if they are inline. */
  function CountText(count: nat, columns: Option<seq<Word>>, inline: seq<Word>): string
    requires columns.Some? ==> columns.value != []
  {
    "[" + Decimal(count) + "]" + ColumnsText(columns) + ":" + InlineText(inline)
  }

  function BodyText(b: Body): string
    requires b.Values? ==> b.values != []
    requires b.Header? && b.columns.Some? ==> b.columns.value != []
  {
    match b
    case Nothing => ""
    case EmptyObject => "{}"
    case Values(ws) => WordsText(ws)
    case Field(k, w) => WordText(k) + ": " + WordText(w)
    case Opening(k) => WordText(k) + ":"
    case Header(name, count, columns, inline) => NameText(name) + CountText(count, columns, inline)
  }

  function Indent(depth: nat): string {
    if depth == 0 then "" else "  " + Indent(depth - 1)
  }

  /** A line without its indentation. */
  function Content(l: Line): string
    requires WellFormed(l)
  {
    if !l.dash then BodyText(l.body)
    else if l.body.Nothing? then "-"
    else "- " + BodyText(l.body)
  }

  function LineText(l: Line): string
    requires WellFormed(l)
  {
    Indent(l.depth) + Content(l)
  }

  // ---- reading ----

  function Rest(s: string, n: nat): string {
    if n <= |s| then s[n..] else ""
  }

  function ReadHeader(name: Option<Word>, s: string): Body {
    var (count, after) := ReadCount(s, 0);
    ReadColumns(name, count, Rest(after, 1))
  }

  function ReadColumns(name: Option<Word>, count: nat, s: string): Body {
    if s != "" && s[0] == '{' then
      var (columns, after) := ReadWords(s[1..]);
      Header(name, count, Some(columns), ReadInline(Rest(after, 2)))
    else
      Header(name, count, None, ReadInline(Rest(s, 1)))
  }

  function ReadInline(s: string): seq<Word> {
    if s == "" then [] else ReadWords(s[1..]).0
  }

  function ReadBody(s: string): Body {
    if s == "" then Nothing
    else if s == "{}" then EmptyObject
    else if s[0] == '[' then ReadHeader(None, s[1..])
    else
      var (w, rest) := ReadWord(s);
      if rest == "" || rest[0] == ',' then Values(ReadWords(s).0)
      else if rest == ":" then Opening(w)
      else if rest[0] == ':' then Field(w, ReadWord(Rest(rest, 2)).0)
      else ReadHeader(Some(w), rest[1..])
  }

  function ReadContent(depth: nat, s: string): Line {
    if s == "-" then Line(depth, true, Nothing)
    else if |s| >= 2 && s[..2] == "- " then Line(depth, true, ReadBody(s[2..]))
    else Line(depth, false, ReadBody(s))
  }

  function ReadIndent(s: string): (r: (nat, string))
    ensures |r.1| <= |s|
  {
    if |s| >= 2 && s[..2] == "  " then
      var (depth, rest) := ReadIndent(s[2..]);
      (depth + 1, rest)
    else (0, s)
  }

  function ReadLine(s: string): Line {
    var (depth, rest) := ReadIndent(s);
    ReadContent(depth, rest)
  }

  // ---- reading back ----

  lemma {:induction false} IndentReadsBack(depth: nat, s: string)
    requires s != "" && s[0] != ' '
    ensures ReadIndent(Indent(depth) + s) == (depth, s)
  {
    var t := Indent(depth) + s;
    if depth == 0 {
      assert t == s;
    } else {
      assert t[..2] == "  " && t[2..] == Indent(depth - 1) + s;
      IndentReadsBack(depth - 1, s);
    }
  }

  lemma InlineReadsBack(inline: seq<Word>)
    requires AllPlain(inline)
    ensures ReadInline(InlineText(inline)) == inline
  {
    if inline != [] {
      WordsReadBack(inline, "");
      assert InlineText(inline)[1..] == WordsText(inline) + "";
    }
  }

  /** The text of a header after its count. */
  function AfterCount(columns: Option<seq<Word>>, inline: seq<Word>): string
    requires columns.Some? ==> columns.value != []
  {
    ColumnsText(columns) + (":" + InlineText(inline))
  }

  lemma CountThenRest(count: nat, columns: Option<seq<Word>>, inline: seq<Word>)
    requires columns.Some? ==> columns.value != []
    ensures CountText(count, columns, inline)[1..] == Decimal(count) + ("]" + AfterCount(columns, inline))
  {
    assert CountText(count, columns, inline) == "[" + (Decimal(count) + ("]" + AfterCount(columns, inline)));
  }

  lemma Braced(columns: string, tail: string)
    ensures ("{" + columns + "}") + (":" + tail) == "{" + (columns + ("}:" + tail))
    ensures ("{" + (columns + ("}:" + tail)))[1..] == columns + ("}:" + tail)
  {
  }

  lemma ColumnsReadBack(name: Option<Word>, count: nat, columns: seq<Word>, inline: seq<Word>)
    requires columns != [] && AllPlain(columns) && AllPlain(inline)
    ensures ReadColumns(name, count, AfterCount(Some(columns), inline)) == Header(name, count, Some(columns), inline)
  {
    var text, tail := WordsText(columns), InlineText(inline);
    InlineReadsBack(inline);
    WordsReadBack(columns, "}:" + tail);
    Braced(text, tail);
  }

  lemma AfterColon(tail: string)
    ensures "" + (":" + tail) == ":" + tail && Rest(":" + tail, 1) == tail
  {
  }

  lemma NoColumnsReadBack(name: Option<Word>, count: nat, inline: seq<Word>)
    requires AllPlain(inline)
    ensures ReadColumns(name, count, AfterCount(None, inline)) == Header(name, count, None, inline)
  {
    AfterColon(InlineText(inline));
    InlineReadsBack(inline);
  }

  lemma HeaderReadsBack(name: Option<Word>, count: nat, columns: Option<seq<Word>>, inline: seq<Word>)
    requires columns.Some? ==> columns.value != [] && AllPlain(columns.value)
    requires AllPlain(inline)
    ensures ReadHeader(name, CountText(count, columns, inline)[1..]) == Header(name, count, columns, inline)
  {
    var after := AfterCount(columns, inline);
    CountThenRest(count, columns, inline);
    CountReadsBack(count, "]" + after);
    assert Rest("]" + after, 1) == after;
    if columns.Some? {
      ColumnsReadBack(name, count, columns.value, inline);
    } else {
      NoColumnsReadBack(name, count, inline);
    }
  }

  /** A plain word starts no header, no empty object and no dash. */
  lemma WordStart(w: Word, rest: string)
    requires Plain(w)
    ensures var s := WordText(w) + rest;
            && s != "" && s[0] != ' '
            && s[0] != '[' && s[0] != '{' && !(s == "-") && !(|s| >= 2 && s[..2] == "- ")
  {
    var s := WordText(w) + rest;
    if w.Bare? {
      assert s[0] == w.text[0] && !Special(w.text[0]);
      if s[0] == '-' {
        assert s[1] == w.text[1];
      }
    } else {
      assert s[0] == '"';
    }
  }

  lemma ValuesReadBack(ws: seq<Word>)
    requires ws != [] && AllPlain(ws)
    ensures ReadBody(WordsText(ws)) == Values(ws)
  {
    var rest := if |ws| == 1 then "" else "," + WordsText(ws[1..]);
    assert WordsText(ws) == WordText(ws[0]) + rest;
    WordStart(ws[0], rest);
    WordReadsBack(ws[0], rest);
    WordsReadBack(ws, "");
    assert WordsText(ws) + "" == WordsText(ws);
  }

  lemma FieldReadsBack(k: Word, w: Word)
    requires Plain(k) && Plain(w)
    ensures ReadBody(WordText(k) + ": " + WordText(w)) == Field(k, w)
  {
    var rest := ": " + WordText(w);
    assert WordText(k) + ": " + WordText(w) == WordText(k) + rest;
    WordStart(k, rest);
    WordReadsBack(k, rest);
    WordReadsBack(w, "");
    assert rest[2..] == WordText(w) + "" && |rest| > 1;
  }

  lemma OpeningReadsBack(k: Word)
    requires Plain(k)
    ensures ReadBody(WordText(k) + ":") == Opening(k)
  {
    WordStart(k, ":");
    WordReadsBack(k, ":");
  }

  lemma NamedReadsBack(k: Word, count: nat, columns: Option<seq<Word>>, inline: seq<Word>)
    requires WellFormed(Line(0, true, Header(Some(k), count, columns, inline)))
    ensures ReadBody(WordText(k) + CountText(count, columns, inline)) == Header(Some(k), count, columns, inline)
  {
    var rest := CountText(count, columns, inline);
    assert rest[0] == '[';
    WordStart(k, rest);
    WordReadsBack(k, rest);
    HeaderReadsBack(Some(k), count, columns, inline);
  }

  lemma UnnamedReadsBack(count: nat, columns: Option<seq<Word>>, inline: seq<Word>)
    requires WellFormed(Line(0, true, Header(None, count, columns, inline)))
    ensures ReadBody(CountText(count, columns, inline)) == Header(None, count, columns, inline)
  {
    assert CountText(count, columns, inline)[0] == '[';
    HeaderReadsBack(None, count, columns, inline);
  }

  lemma BodyReadsBack(l: Line)
    requires WellFormed(l)
    ensures ReadBody(BodyText(l.body)) == l.body
  {
    match l.body {
      case Nothing =>
      case EmptyObject =>
      case Values(ws) => ValuesReadBack(ws);
      case Field(k, w) => FieldReadsBack(k, w);
      case Opening(k) => OpeningReadsBack(k);
      case Header(name, count, columns, inline) =>
        if name.Some? {
          NamedReadsBack(name.value, count, columns, inline);
        } else {
          UnnamedReadsBack(count, columns, inline);
          assert "" + CountText(count, columns, inline) == CountText(count, columns, inline);
        }
    }
  }

  /** A body that stands without a dash is not mistaken for one with a dash, nor for more indentation. */
  lemma BodyStart(l: Line)
    requires WellFormed(l) && !l.dash
    ensures var s := BodyText(l.body); s != "" && s[0] != ' ' && !(s == "-") && !(|s| >= 2 && s[..2] == "- ")
  {
    match l.body {
      case Values(ws) =>
        var rest := if |ws| == 1 then "" else "," + WordsText(ws[1..]);
        assert WordsText(ws) == WordText(ws[0]) + rest;
        WordStart(ws[0], rest);
      case Field(k, w) =>
        assert BodyText(l.body) == WordText(k) + (": " + WordText(w));
        WordStart(k, ": " + WordText(w));
      case Opening(k) => WordStart(k, ":");
      case Header(name, count, columns, inline) =>
        var rest := CountText(count, columns, inline);
        assert rest[0] == '[';
        if name.Some? {
          WordStart(name.value, rest);
        } else {
          assert "" + rest == rest;
        }
    }
  }

  /** Every line the printer writes reads back as itself. */
  lemma LineReadsBack(l: Line)
    requires WellFormed(l)
    ensures ReadLine(LineText(l)) == l
  {
    BodyReadsBack(l);
    if l.dash {
      IndentReadsBack(l.depth, Content(l));
      if !l.body.Nothing? {
        assert Content(l)[..2] == "- " && Content(l)[2..] == BodyText(l.body);
      }
    } else {
      BodyStart(l);
      IndentReadsBack(l.depth, Content(l));
    }
  }

  // ---- documents ----

  function Texts(ls: seq<Line>): (r: seq<string>)
    requires AllWellFormed(ls)
    ensures |r| == |ls|
  {
    seq(|ls|, i requires 0 <= i < |ls| => LineText(ls[i]))
  }

  predicate AllWellFormed(ls: seq<Line>) {
    forall i :: 0 <= i < |ls| ==> WellFormed(ls[i])
  }

  function Joined(ts: seq<string>): string {
    if ts == [] then "" else if |ts| == 1 then ts[0] else ts[0] + "\n" + Joined(ts[1..])
  }

  function FirstLine(s: string): (r: string)
    ensures |r| <= |s| && s[..|r|] == r && OneLine(r)
    ensures |r| < |s| ==> s[|r|] == '\n'
  {
    if s == "" || s[0] == '\n' then "" else [s[0]] + FirstLine(s[1..])
  }

  function Split(s: string): seq<string>
    decreases |s|
  {
    if s == "" then []
    else
      var first := FirstLine(s);
      [first] + Split(Rest(s, |first| + 1))
  }

  lemma {:induction false} FirstLineIs(t: string, rest: string)
    requires OneLine(t) && (rest != "" ==> rest[0] == '\n')
    ensures FirstLine(t + rest) == t
  {
    if t == "" {
      assert t + rest == rest;
    } else {
      assert (t + rest)[0] == t[0] && (t + rest)[1..] == t[1..] + rest;
      FirstLineIs(t[1..], rest);
    }
  }

  /** Joined lines split back, when no line is empty or holds a line feed. */
  lemma {:induction false} JoinedSplitsBack(ts: seq<string>)
    requires forall i :: 0 <= i < |ts| ==> ts[i] != "" && OneLine(ts[i])
    ensures Split(Joined(ts)) == ts
  {
    if |ts| == 1 {
      assert ts[0] + "" == ts[0];
      FirstLineIs(ts[0], "");
      assert [ts[0]] == ts;
    } else if |ts| > 1 {
      var rest := "\n" + Joined(ts[1..]);
      assert Joined(ts) == ts[0] + rest;
      FirstLineIs(ts[0], rest);
      assert Rest(Joined(ts), |ts[0]| + 1) == Joined(ts[1..]);
      JoinedSplitsBack(ts[1..]);
      assert [ts[0]] + ts[1..] == ts;
    }
  }

  lemma OneLineJoins(a: string, b: string)
    requires OneLine(a) && OneLine(b)
    ensures OneLine(a + b)
  {
  }

  lemma HeaderIsOneLine(count: nat, columns: Option<seq<Word>>, inline: seq<Word>)
    requires columns.Some? ==> columns.value != [] && AllPlain(columns.value)
    requires AllPlain(inline)
    ensures OneLine(CountText(count, columns, inline))
  {
    DecimalIsOneLine(count);
    OneLineJoins("[", Decimal(count));
    OneLineJoins("[" + Decimal(count), "]");
    if columns.Some? {
      WordsAreOneLine(columns.value);
      OneLineJoins("{", WordsText(columns.value));
      OneLineJoins("{" + WordsText(columns.value), "}");
    }
    OneLineJoins("[" + Decimal(count) + "]", ColumnsText(columns));
    if inline != [] {
      WordsAreOneLine(inline);
      OneLineJoins(" ", WordsText(inline));
    }
    OneLineJoins("[" + Decimal(count) + "]" + ColumnsText(columns), ":");
    OneLineJoins("[" + Decimal(count) + "]" + ColumnsText(columns) + ":", InlineText(inline));
  }

  lemma BodyIsOneLine(l: Line)
    requires WellFormed(l)
    ensures OneLine(BodyText(l.body))
  {
    match l.body {
      case Nothing =>
      case EmptyObject =>
      case Values(ws) => WordsAreOneLine(ws);
      case Field(k, w) => WordIsOneLine(k); WordIsOneLine(w);
      case Opening(k) => WordIsOneLine(k);
      case Header(name, count, columns, inline) =>
        HeaderIsOneLine(count, columns, inline);
        if name.Some? { WordIsOneLine(name.value); }
    }
  }

  lemma {:induction false} IndentIsOneLine(depth: nat)
    ensures OneLine(Indent(depth))
  {
    if depth > 0 { IndentIsOneLine(depth - 1); }
  }

  lemma LineIsOneLine(l: Line)
    requires WellFormed(l)
    ensures LineText(l) != "" && OneLine(LineText(l))
  {
    BodyIsOneLine(l);
    IndentIsOneLine(l.depth);
    if !l.dash { BodyStart(l); }
  }

  function ReadLines(s: string): seq<Line> {
    var ts := Split(s);
    seq(|ts|, i requires 0 <= i < |ts| => ReadLine(ts[i]))
  }

  /** A document's lines read back from its text. */
  lemma DocumentReadsBack(ls: seq<Line>)
    requires AllWellFormed(ls)
    ensures ReadLines(Joined(Texts(ls))) == ls
  {
    forall i | 0 <= i < |ls| ensures Texts(ls)[i] != "" && OneLine(Texts(ls)[i]) && ReadLine(Texts(ls)[i]) == ls[i] {
      LineIsOneLine(ls[i]);
      LineReadsBack(ls[i]);
    }
    JoinedSplitsBack(Texts(ls));
  }
}
