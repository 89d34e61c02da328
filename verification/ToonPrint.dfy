/** The printer: it pushes one text line after another, and stops at the first text it cannot carry. */
module ToonPrint {
  import opened Prelude
  import opened ToonWords
  import opened ToonLines
  import opened Toon
  import opened ToonDecode

  /** No key and no string in the value holds an unsupported control character. */
  predicate Carried(v: Value) {
    match v
    case Str(s) => Carriable(s)
    case Arr(items) => forall i :: 0 <= i < |items| ==> Carried(items[i])
    case Obj(es) => forall i :: 0 <= i < |es| ==> Carriable(es[i].key) && Carried(es[i].value)
    case _ => true
  }

  predicate EntriesCarried(es: seq<Entry>) {
    forall i :: 0 <= i < |es| ==> Carriable(es[i].key) && Carried(es[i].value)
  }

  predicate AllCarried(vs: seq<Value>) {
    forall i :: 0 <= i < |vs| ==> Carried(vs[i])
  }

  ghost predicate ValuesNormal(es: seq<Entry>) {
    forall i :: 0 <= i < |es| ==> Normal(es[i].value)
  }

  // ---- words ----

  method MustQuote(u: CharClasses, s: string) returns (r: bool)
    ensures r <==> NeedsQuoting(u, s)
  {
    if s == "" || u.whitespace(s[0]) || u.whitespace(s[|s| - 1]) {
      return true;
    }
    if s == "true" || s == "false" || s == "null" {
      return true;
    }
    var numeric := LooksNumeric(s);
    if numeric || HasLeadingZero(s) {
      return true;
    }
    if HasSpecial(s) {
      return true;
    }
    return s[0] == '-';
  }

  method FormatPrimitive(u: CharClasses, v: Value) returns (r: Option<string>)
    requires IsPrimitive(v)
    ensures r == if Carried(v) then Some(WordText(WordOf(u, v))) else None
  {
    match v {
      case Null => r := Some("null");
      case Flag(on) => r := Some(if on then "true" else "false");
      case Num(literal) => r := Some(literal);
      case Str(s) =>
        if !Carriable(s) {
          return None;
        }
        var quote := MustQuote(u, s);
        if quote {
          r := QuoteString(s);
        } else {
          r := Some(s);
        }
    }
  }

  method EncodeKey(u: CharClasses, key: string) returns (r: Option<string>)
    requires AgreesOnAscii(u)
    ensures r == if Carriable(key) then Some(WordText(KeyWord(u, key))) else None
  {
    if IsBareKey(u, key) {
      forall i | 0 <= i < |key| ensures !Unsupported(key[i]) {
        if i > 0 { assert u.alphabetic(key[i]) || u.numeric(key[i]) || key[i] == '_' || key[i] == '.'; }
      }
      return Some(key);
    }
    r := QuoteString(key);
  }

  /** Texts with commas between them. */
  function Commas(ts: seq<string>): string
    requires ts != []
  {
    if |ts| == 1 then ts[0] else ts[0] + "," + Commas(ts[1..])
  }

  lemma {:induction false} CommasAreWords(ws: seq<Word>, ts: seq<string>)
    requires |ts| == |ws| > 0 && forall i :: 0 <= i < |ws| ==> ts[i] == WordText(ws[i])
    ensures Commas(ts) == WordsText(ws)
  {
    if |ws| > 1 { CommasAreWords(ws[1..], ts[1..]); }
  }

  /** The tokens of some primitives. */
  method FormatAll(u: CharClasses, vs: seq<Value>) returns (r: Option<seq<string>>)
    requires AllPrimitive(vs)
    ensures r.Some? <==> AllCarried(vs)
    ensures r.Some? ==> |r.value| == |vs| && forall i :: 0 <= i < |vs| ==> r.value[i] == WordText(WordOf(u, vs[i]))
  {
    var tokens: seq<string> := [];
    for i := 0 to |vs|
      invariant |tokens| == i
      invariant forall j :: 0 <= j < i ==> Carried(vs[j]) && tokens[j] == WordText(WordOf(u, vs[j]))
    {
      var token := FormatPrimitive(u, vs[i]);
      if token.None? {
        return None;
      }
      tokens := tokens + [token.value];
    }
    return Some(tokens);
  }

  /** The tokens of some primitives, joined by commas. */
  method JoinPrimitives(u: CharClasses, vs: seq<Value>) returns (r: Option<string>)
    requires vs != [] && AllPrimitive(vs)
    ensures r == if AllCarried(vs) then Some(WordsText(WordsOf(u, vs))) else None
  {
    var tokens := FormatAll(u, vs);
    if tokens.None? {
      return None;
    }
    CommasAreWords(WordsOf(u, vs), tokens.value);
    return Some(Commas(tokens.value));
  }

  predicate KeysCarried(keys: seq<string>) {
    forall i :: 0 <= i < |keys| ==> Carriable(keys[i])
  }

  method EncodeKeys(u: CharClasses, keys: seq<string>) returns (r: Option<seq<string>>)
    requires AgreesOnAscii(u)
    ensures r.Some? <==> KeysCarried(keys)
    ensures r.Some? ==> |r.value| == |keys| && forall i :: 0 <= i < |keys| ==>
                          r.value[i] == WordText(KeyWord(u, keys[i]))
  {
    var tokens: seq<string> := [];
    for i := 0 to |keys|
      invariant |tokens| == i
      invariant forall j :: 0 <= j < i ==> Carriable(keys[j]) && tokens[j] == WordText(KeyWord(u, keys[j]))
    {
      var token := EncodeKey(u, keys[i]);
      if token.None? {
        return None;
      }
      tokens := tokens + [token.value];
    }
    return Some(tokens);
  }

  /** The column names of a table, joined by commas. */
  method JoinKeys(u: CharClasses, keys: seq<string>) returns (r: Option<string>)
    requires AgreesOnAscii(u) && keys != []
    ensures r == if KeysCarried(keys) then Some(WordsText(KeyWords(u, keys))) else None
  {
    var tokens := EncodeKeys(u, keys);
    if tokens.None? {
      return None;
    }
    CommasAreWords(KeyWords(u, keys), tokens.value);
    return Some(Commas(tokens.value));
  }

  /** An array's header: its name, its length, and its columns if it is a table. */
  method RenderHeader(u: CharClasses, name: string, length: nat, columns: Option<seq<string>>)
    returns (r: Option<string>)
    requires AgreesOnAscii(u) && (columns.Some? ==> columns.value != [])
    ensures columns.None? ==> r == Some(name + CountText(length, None, []))
    ensures columns.Some? ==>
              r == if KeysCarried(columns.value)
                then Some(name + CountText(length, Some(KeyWords(u, columns.value)), [])) else None
  {
    var count := "[" + Decimal(length) + "]";
    var fields := "";
    if columns.Some? {
      var joined := JoinKeys(u, columns.value);
      if joined.None? {
        return None;
      }
      fields := "{" + joined.value + "}";
    }
    assert ":" + InlineText([]) == ":";
    assert count + fields + ":" + "" == count + fields + ":";
    return Some(name + (count + fields + ":"));
  }

  // ---- tables ----

  /** As many keys, all of them known: with no key twice, that is the same key set. */
  lemma SameKeys(es: seq<Entry>, first: seq<Entry>)
    requires UniqueKeys(es) && UniqueKeys(first)
    ensures KeySet(es) == KeySet(first) <==> |es| == |first| && forall i :: 0 <= i < |es| ==> es[i].key in KeySet(first)
  {
    KeySetSize(es);
    KeySetSize(first);
    if |es| == |first| && forall i :: 0 <= i < |es| ==> es[i].key in KeySet(first) {
      assert KeySet(es) <= KeySet(first);
      SubsetOfSameSize(KeySet(es), KeySet(first));
    }
    if KeySet(es) == KeySet(first) {
      forall i | 0 <= i < |es| ensures es[i].key in KeySet(first) {
        assert es[i].key in KeySet(es);
      }
    }
  }

  lemma SubsetOfSameSize(a: set<string>, b: set<string>)
    requires a <= b && |a| == |b|
    ensures a == b
  {
    assert |b - a| == |b| - |a|;
    assert b == a + (b - a);
  }

  method RowFits(es: seq<Entry>, fields: seq<string>) returns (ok: bool)
    ensures ok <==> |es| == |fields| && Flat(Obj(es)) && forall i :: 0 <= i < |es| ==> es[i].key in fields
  {
    if |es| != |fields| {
      return false;
    }
    for i := 0 to |es|
      invariant forall j :: 0 <= j < i ==> IsPrimitive(es[j].value) && es[j].key in fields
    {
      if es[i].key !in fields || !IsPrimitive(es[i].value) {
        return false;
      }
    }
    return true;
  }

  /** The columns of a table, in the order of its first row; none if the array is not a table. */
  method DetectTabular(vs: seq<Value>) returns (r: Option<seq<string>>)
    requires AllNormal(vs)
    ensures r == if IsTable(vs) then Some(Keys(vs[0].entries)) else None
  {
    if vs == [] || !vs[0].Obj? || vs[0].entries == [] {
      return None;
    }
    var first := vs[0].entries;
    var fields: seq<string> := [];
    for i := 0 to |first|
      invariant fields == Keys(first)[..i] && forall j :: 0 <= j < i ==> IsPrimitive(first[j].value)
    {
      if !IsPrimitive(first[i].value) {
        assert !Flat(vs[0]);
        return None;
      }
      fields := fields + [first[i].key];
    }
    assert fields == Keys(first) && Flat(vs[0]);
    assert forall k :: k in fields <==> k in KeySet(first) by {
      assert forall i :: 0 <= i < |first| ==> fields[i] == first[i].key;
    }
    for i := 1 to |vs|
      invariant forall j :: 0 <= j < i ==> Flat(vs[j]) && KeySet(vs[j].entries) == KeySet(first)
    {
      if !vs[i].Obj? {
        return None;
      }
      var fits := RowFits(vs[i].entries, fields);
      assert Normal(vs[i]) && Normal(vs[0]) && NormalEntries(vs[i].entries) && NormalEntries(first);
      SameKeys(vs[i].entries, first);
      if !fits {
        return None;
      }
    }
    return Some(fields);
  }

  // ---- texts ----

  ghost function EntriesTexts(u: CharClasses, es: seq<Entry>, d: nat): seq<string>
    requires AgreesOnAscii(u) && ValuesNormal(es)
  {
    EntriesAreWellFormed(u, es, d);
    Texts(EntriesLines(u, es, d))
  }

  ghost function EntryTexts(u: CharClasses, e: Entry, d: nat): seq<string>
    requires AgreesOnAscii(u) && Normal(e.value)
  {
    EntryIsWellFormed(u, e, d);
    Texts(EntryLines(u, e, d))
  }

  ghost function ItemsTexts(u: CharClasses, vs: seq<Value>, d: nat): seq<string>
    requires AgreesOnAscii(u) && AllNormal(vs)
  {
    ItemsAreWellFormed(u, vs, d);
    Texts(ItemsLines(u, vs, d))
  }

  ghost function ItemTexts(u: CharClasses, v: Value, d: nat): seq<string>
    requires AgreesOnAscii(u) && Normal(v)
  {
    ItemIsWellFormed(u, v, d);
    Texts(ItemLines(u, v, d))
  }

  ghost function RowTexts(u: CharClasses, vs: seq<Value>, columns: seq<string>, d: nat): seq<string>
    requires AgreesOnAscii(u) && AllNormal(vs) && columns != [] && forall i :: 0 <= i < |vs| ==> Flat(vs[i])
  {
    RowsAreWellFormed(u, vs, columns, d);
    Texts(RowLines(u, vs, columns, d))
  }

  ghost function ArrayTexts(u: CharClasses, name: Option<Word>, vs: seq<Value>, d: nat, dash: bool): seq<string>
    requires AgreesOnAscii(u) && AllNormal(vs) && (name.Some? ==> Plain(name.value))
  {
    ArrayIsWellFormed(u, name, vs, d, dash);
    Texts(ArrayLines(u, name, vs, d, dash))
  }

  lemma TextsSplit(a: seq<Line>, b: seq<Line>)
    requires AllWellFormed(a) && AllWellFormed(b)
    ensures AllWellFormed(a + b) && Texts(a + b) == Texts(a) + Texts(b)
  {
  }

  lemma NextEntry(u: CharClasses, es: seq<Entry>, i: nat, d: nat)
    requires AgreesOnAscii(u) && ValuesNormal(es) && i < |es|
    ensures EntriesTexts(u, es[i..], d) == EntryTexts(u, es[i], d) + EntriesTexts(u, es[i + 1..], d)
  {
    assert es[i..][0] == es[i] && es[i..][1..] == es[i + 1..];
    EntryIsWellFormed(u, es[i], d);
    EntriesAreWellFormed(u, es[i + 1..], d);
    TextsSplit(EntryLines(u, es[i], d), EntriesLines(u, es[i + 1..], d));
  }

  lemma NextItem(u: CharClasses, vs: seq<Value>, i: nat, d: nat)
    requires AgreesOnAscii(u) && AllNormal(vs) && i < |vs|
    ensures ItemsTexts(u, vs[i..], d) == ItemTexts(u, vs[i], d) + ItemsTexts(u, vs[i + 1..], d)
  {
    assert vs[i..][0] == vs[i] && vs[i..][1..] == vs[i + 1..];
    ItemIsWellFormed(u, vs[i], d);
    ItemsAreWellFormed(u, vs[i + 1..], d);
    TextsSplit(ItemLines(u, vs[i], d), ItemsLines(u, vs[i + 1..], d));
  }

  lemma NextRow(u: CharClasses, vs: seq<Value>, i: nat, columns: seq<string>, d: nat)
    requires AgreesOnAscii(u) && AllNormal(vs) && columns != [] && (forall j :: 0 <= j < |vs| ==> Flat(vs[j]))
             && i < |vs|
    ensures vs[i].Obj? && AllPrimitive(Cells(vs[i].entries, columns))
    ensures RowTexts(u, vs[i..], columns, d)
            == [Indent(d) + WordsText(WordsOf(u, Cells(vs[i].entries, columns)))] + RowTexts(u, vs[i + 1..], columns, d)
  {
    assert Flat(vs[i]);
    assert vs[i..][0] == vs[i] && vs[i..][1..] == vs[i + 1..];
    CellsReadBack(u, vs[i], columns);
    var row := RowLine(u, vs[i], columns, d);
    assert WellFormed(row) && Texts([row]) == [LineText(row)];
    RowsAreWellFormed(u, vs[i + 1..], columns, d);
    TextsSplit([row], RowLines(u, vs[i + 1..], columns, d));
  }

  lemma Pushed(lines: seq<string>, line: string, more: seq<string>)
    ensures (lines + [line]) + more == lines + ([line] + more)
  {
  }

  lemma Regrouped(a: seq<string>, b: seq<string>, c: seq<string>)
    ensures (a + b) + c == a + (b + c)
  {
  }

  // ---- arrays ----

  /** What stands before a body: the indentation, and the dash of a list item. */
  function Lead(d: nat, dash: bool): string {
    Indent(d) + if dash then "- " else ""
  }

  ghost function BelowTexts(u: CharClasses, vs: seq<Value>, d: nat): seq<string>
    requires AgreesOnAscii(u) && AllNormal(vs)
  {
    ArrayIsWellFormed(u, None, vs, if d == 0 then 0 else d - 1, false);
    BelowIsWellFormed(u, vs, d);
    Texts(BelowHead(u, vs, d))
  }

  lemma BelowIsWellFormed(u: CharClasses, vs: seq<Value>, d: nat)
    requires AgreesOnAscii(u) && AllNormal(vs)
    ensures AllWellFormed(BelowHead(u, vs, d))
  {
    if !AllPrimitive(vs) {
      if IsTable(vs) {
        RowsAreWellFormed(u, vs, Keys(vs[0].entries), d);
      } else {
        ItemsAreWellFormed(u, vs, d);
      }
    }
  }

  ghost function HeadText(u: CharClasses, name: Option<Word>, vs: seq<Value>): string
    requires AgreesOnAscii(u) && AllNormal(vs) && (name.Some? ==> Plain(name.value))
  {
    HeadIsWellFormed(u, name, vs, 0, false);
    BodyText(Head(u, name, vs))
  }

  lemma HeadThenBelow(u: CharClasses, name: Option<Word>, vs: seq<Value>, d: nat, dash: bool)
    requires AgreesOnAscii(u) && AllNormal(vs) && (name.Some? ==> Plain(name.value))
    ensures ArrayTexts(u, name, vs, d, dash) == [Lead(d, dash) + HeadText(u, name, vs)] + BelowTexts(u, vs, d + 1)
  {
    var line := Line(d, dash, Head(u, name, vs));
    HeadIsWellFormed(u, name, vs, d, dash);
    BelowIsWellFormed(u, vs, d + 1);
    TextsSplit([line], BelowHead(u, vs, d + 1));
    assert Texts([line]) == [LineText(line)];
    LeadThenBody(line);
  }

  lemma LeadThenBody(l: Line)
    requires WellFormed(l) && !l.body.Nothing?
    ensures LineText(l) == Lead(l.depth, l.dash) + BodyText(l.body)
  {
    if l.dash {
      assert Indent(l.depth) + ("- " + BodyText(l.body)) == (Indent(l.depth) + "- ") + BodyText(l.body);
    } else {
      assert Indent(l.depth) + "" == Indent(l.depth);
    }
  }

  lemma InlineAfterHeader(lead: string, name: string, count: nat, inline: seq<Word>)
    requires inline != []
    ensures lead + (name + CountText(count, None, [])) + (" " + WordsText(inline))
            == lead + (name + CountText(count, None, inline))
    ensures InlineText(inline) == " " + WordsText(inline)
  {
    assert CountText(count, None, inline) == CountText(count, None, []) + (" " + WordsText(inline));
  }

  /** The one line of an array of primitives. */
  method InlineArray(u: CharClasses, lead: string, literal: string, ghost name: Option<Word>, vs: seq<Value>)
    returns (r: Option<string>)
    requires AgreesOnAscii(u) && AllNormal(vs) && AllPrimitive(vs)
    requires literal == NameText(name) && (name.Some? ==> Plain(name.value))
    ensures r == if AllCarried(vs) then Some(lead + HeadText(u, name, vs)) else None
  {
    var header := RenderHeader(u, literal, |vs|, None);
    var line := lead + header.value;
    if vs != [] {
      var tokens := JoinPrimitives(u, vs);
      if tokens.None? {
        return None;
      }
      InlineAfterHeader(lead, literal, |vs|, WordsOf(u, vs));
      line := line + (" " + tokens.value);
    }
    return Some(line);
  }

  ghost predicate RowsCarried(vs: seq<Value>, columns: seq<string>)
    requires forall i :: 0 <= i < |vs| ==> Flat(vs[i])
  {
    forall i :: 0 <= i < |vs| ==> RowCarried(vs[i], columns)
  }

  ghost predicate RowCarried(v: Value, columns: seq<string>)
    requires Flat(v)
  {
    AllCarried(Cells(v.entries, columns))
  }

  lemma RowCarriedIff(es: seq<Entry>, first: seq<Entry>)
    requires UniqueKeys(es) && UniqueKeys(first) && KeySet(es) == KeySet(first) && Flat(Obj(es))
    ensures EntriesCarried(es) <==> KeysCarried(Keys(first)) && RowCarried(Obj(es), Keys(first))
  {
    var keys := Keys(first);
    var row := InOrder(es, keys);
    RowIsRearranged(es, first);
    assert EntriesCarried(es) <==> forall e :: e in es ==> Carriable(e.key) && Carried(e.value);
    assert EntriesCarried(row) <==> forall e :: e in row ==> Carriable(e.key) && Carried(e.value);
    assert forall i :: 0 <= i < |row| ==> row[i].key == keys[i] && row[i].value == Cells(es, keys)[i];
  }

  /** A table can be printed when its columns and its cells can. */
  lemma TableCarriedIff(vs: seq<Value>)
    requires AllNormal(vs) && IsTable(vs)
    ensures AllCarried(vs) <==> KeysCarried(Keys(vs[0].entries)) && RowsCarried(vs, Keys(vs[0].entries))
  {
    var first := vs[0].entries;
    assert Flat(vs[0]) && Normal(vs[0]);
    forall i | 0 <= i < |vs| ensures Carried(vs[i]) <==> KeysCarried(Keys(first)) && RowCarried(vs[i], Keys(first)) {
      assert Flat(vs[i]) && Normal(vs[i]) && NormalEntries(vs[i].entries) && NormalEntries(first);
      RowCarriedIff(vs[i].entries, first);
      assert Carried(vs[i]) <==> EntriesCarried(vs[i].entries);
    }
  }

  method EmitTabularRows(u: CharClasses, vs: seq<Value>, fields: seq<string>, d: nat, lines: seq<string>)
    returns (r: Option<seq<string>>)
    requires AgreesOnAscii(u) && AllNormal(vs) && fields != [] && forall i :: 0 <= i < |vs| ==> Flat(vs[i])
    ensures r == if RowsCarried(vs, fields) then Some(lines + RowTexts(u, vs, fields, d)) else None
  {
    var out := lines;
    assert vs[0..] == vs;
    for i := 0 to |vs|
      invariant forall j :: 0 <= j < i ==> RowCarried(vs[j], fields)
      invariant out + RowTexts(u, vs[i..], fields, d) == lines + RowTexts(u, vs, fields, d)
    {
      NextRow(u, vs, i, fields, d);
      var tokens := JoinPrimitives(u, Cells(vs[i].entries, fields));
      if tokens.None? {
        assert !RowCarried(vs[i], fields);
        return None;
      }
      out := out + [Indent(d) + tokens.value];
    }
    assert vs[|vs|..] == [] && out + [] == out;
    return Some(out);
  }

  /** The header of a table and its rows. */
  method EncodeTable(u: CharClasses, lead: string, literal: string, ghost name: Option<Word>, vs: seq<Value>,
                     fields: seq<string>, d: nat, lines: seq<string>) returns (r: Option<seq<string>>)
    requires AgreesOnAscii(u) && AllNormal(vs) && IsTable(vs) && fields == Keys(vs[0].entries)
    requires literal == NameText(name) && (name.Some? ==> Plain(name.value))
    ensures r == if AllCarried(vs) then Some(lines + ([lead + HeadText(u, name, vs)] + BelowTexts(u, vs, d))) else None
  {
    TableCarriedIff(vs);
    var header := RenderHeader(u, literal, |vs|, Some(fields));
    if header.None? {
      return None;
    }
    Pushed(lines, lead + header.value, BelowTexts(u, vs, d));
    r := EmitTabularRows(u, vs, fields, d, lines + [lead + header.value]);
  }

  method EncodeArray(u: CharClasses, literal: string, ghost name: Option<Word>, vs: seq<Value>, d: nat,
                     lines: seq<string>)
    returns (r: Option<seq<string>>)
    requires AgreesOnAscii(u) && AllNormal(vs)
    requires literal == NameText(name) && (name.Some? ==> Plain(name.value))
    ensures r == if AllCarried(vs) then Some(lines + ArrayTexts(u, name, vs, d, false)) else None
    decreases vs, 2
  {
    HeadThenBelow(u, name, vs, d, false);
    var lead := Indent(d);
    assert lead == Lead(d, false);
    if AllPrimitive(vs) {
      var line := InlineArray(u, lead, literal, name, vs);
      assert BelowTexts(u, vs, d + 1) == [] && [lead + HeadText(u, name, vs)] + [] == [lead + HeadText(u, name, vs)];
      return if line.None? then None else Some(lines + [line.value]);
    }
    var fields := DetectTabular(vs);
    if fields.Some? {
      r := EncodeTable(u, lead, literal, name, vs, fields.value, d + 1, lines);
      return;
    }
    var header := RenderHeader(u, literal, |vs|, None);
    Pushed(lines, lead + header.value, BelowTexts(u, vs, d + 1));
    r := EncodeItems(u, vs, d + 1, lines + [lead + header.value]);
  }

  /** The same with a dash before it, and the table tried first. */
  method EncodeArrayItem(u: CharClasses, literal: string, ghost name: Option<Word>, vs: seq<Value>, d: nat,
                         lines: seq<string>)
    returns (r: Option<seq<string>>)
    requires AgreesOnAscii(u) && AllNormal(vs)
    requires literal == NameText(name) && (name.Some? ==> Plain(name.value))
    ensures r == if AllCarried(vs) then Some(lines + ArrayTexts(u, name, vs, d, true)) else None
    decreases vs, 2
  {
    HeadThenBelow(u, name, vs, d, true);
    var lead := Indent(d) + "- ";
    var fields := DetectTabular(vs);
    if fields.Some? {
      r := EncodeTable(u, lead, literal, name, vs, fields.value, d + 1, lines);
      return;
    }
    if AllPrimitive(vs) {
      var line := InlineArray(u, lead, literal, name, vs);
      assert BelowTexts(u, vs, d + 1) == [] && [lead + HeadText(u, name, vs)] + [] == [lead + HeadText(u, name, vs)];
      return if line.None? then None else Some(lines + [line.value]);
    }
    var header := RenderHeader(u, literal, |vs|, None);
    Pushed(lines, lead + header.value, BelowTexts(u, vs, d + 1));
    r := EncodeItems(u, vs, d + 1, lines + [lead + header.value]);
  }

  method EncodeItems(u: CharClasses, vs: seq<Value>, d: nat, lines: seq<string>) returns (r: Option<seq<string>>)
    requires AgreesOnAscii(u) && AllNormal(vs)
    ensures r == if AllCarried(vs) then Some(lines + ItemsTexts(u, vs, d)) else None
    decreases vs, 1
  {
    var out := lines;
    assert vs[0..] == vs;
    for i := 0 to |vs|
      invariant forall j :: 0 <= j < i ==> Carried(vs[j])
      invariant out + ItemsTexts(u, vs[i..], d) == lines + ItemsTexts(u, vs, d)
    {
      NextItem(u, vs, i, d);
      var next := EncodeListItem(u, vs[i], d, out);
      if next.None? {
        return None;
      }
      Regrouped(out, ItemTexts(u, vs[i], d), ItemsTexts(u, vs[i + 1..], d));
      out := next.value;
    }
    assert vs[|vs|..] == [] && out + [] == out;
    return Some(out);
  }

  // ---- list items ----

  method EncodeListItem(u: CharClasses, v: Value, d: nat, lines: seq<string>) returns (r: Option<seq<string>>)
    requires AgreesOnAscii(u) && Normal(v)
    ensures r == if Carried(v) then Some(lines + ItemTexts(u, v, d)) else None
    decreases v, 0
  {
    match v {
      case Obj(es) =>
        r := EncodeObjectItem(u, es, d, lines);
      case Arr(items) =>
        assert ItemTexts(u, v, d) == ArrayTexts(u, None, items, d, true);
        r := EncodeArrayItem(u, "", None, items, d, lines);
      case _ =>
        var token := FormatPrimitive(u, v);
        if token.None? {
          return None;
        }
        assert ItemTexts(u, v, d) == [Indent(d) + ("- " + token.value)];
        r := Some(lines + [Indent(d) + ("- " + token.value)]);
    }
  }

  lemma PrimitiveItemTexts(u: CharClasses, es: seq<Entry>, d: nat)
    requires AgreesOnAscii(u) && ValuesNormal(es) && Normal(Obj(es)) && es != [] && IsPrimitive(es[0].value)
    ensures ItemTexts(u, Obj(es), d)
            == [Indent(d) + ("- " + (WordText(KeyWord(u, es[0].key)) + ": " + WordText(WordOf(u, es[0].value))))]
               + EntriesTexts(u, es[1..], d + 1)
  {
    var line := Line(d, true, Field(KeyWord(u, es[0].key), WordOf(u, es[0].value)));
    KeyReadsBack(u, es[0].key);
    PrimitiveReadsBack(u, es[0].value);
    EntriesAreWellFormed(u, es[1..], d + 1);
    assert AllWellFormed([line]) && Texts([line]) == [LineText(line)];
    TextsSplit([line], EntriesLines(u, es[1..], d + 1));
  }

  lemma ArrayItemTexts(u: CharClasses, es: seq<Entry>, d: nat)
    requires AgreesOnAscii(u) && ValuesNormal(es) && Normal(Obj(es)) && es != [] && es[0].value.Arr?
    ensures Plain(KeyWord(u, es[0].key)) && Normal(es[0].value) && AllNormal(es[0].value.items)
    ensures ItemTexts(u, Obj(es), d)
            == ArrayTexts(u, Some(KeyWord(u, es[0].key)), es[0].value.items, d, true) + EntriesTexts(u, es[1..], d + 1)
  {
    KeyReadsBack(u, es[0].key);
    assert Normal(es[0].value);
    var name, items := Some(KeyWord(u, es[0].key)), es[0].value.items;
    ArrayIsWellFormed(u, name, items, d, true);
    EntriesAreWellFormed(u, es[1..], d + 1);
    TextsSplit(ArrayLines(u, name, items, d, true), EntriesLines(u, es[1..], d + 1));
  }

  lemma ObjectItemTexts(u: CharClasses, es: seq<Entry>, d: nat)
    requires AgreesOnAscii(u) && ValuesNormal(es) && Normal(Obj(es)) && es != [] && es[0].value.Obj?
    ensures ItemTexts(u, Obj(es), d) == [Indent(d) + "-"] + EntriesTexts(u, es, d + 1)
  {
    var line := Line(d, true, Nothing);
    EntriesAreWellFormed(u, es, d + 1);
    assert AllWellFormed([line]) && Texts([line]) == [LineText(line)];
    TextsSplit([line], EntriesLines(u, es, d + 1));
  }

  lemma FirstThenRestCarried(es: seq<Entry>)
    requires es != []
    ensures Carried(Obj(es)) <==> EntriesCarried(es)
    ensures EntriesCarried(es) <==> Carriable(es[0].key) && Carried(es[0].value) && EntriesCarried(es[1..])
  {
  }

  /** An object as a list item: its first entry stands on the dash's line where it can. */
  method EncodeObjectItem(u: CharClasses, es: seq<Entry>, d: nat, lines: seq<string>) returns (r: Option<seq<string>>)
    requires AgreesOnAscii(u) && ValuesNormal(es) && Normal(Obj(es))
    ensures r == if EntriesCarried(es) then Some(lines + ItemTexts(u, Obj(es), d)) else None
    decreases es, 1
  {
    if es == [] {
      assert ItemTexts(u, Obj(es), d) == [Indent(d) + ("- " + "{}")];
      return Some(lines + [Indent(d) + ("- " + "{}")]);
    }
    FirstThenRestCarried(es);
    if IsPrimitive(es[0].value) {
      r := EncodePrimitiveFirst(u, es, d, lines);
    } else if es[0].value.Arr? {
      r := EncodeArrayFirst(u, es, d, lines);
    } else {
      ObjectItemTexts(u, es, d);
      Pushed(lines, Indent(d) + "-", EntriesTexts(u, es, d + 1));
      r := EncodeObject(u, es, d + 1, lines + [Indent(d) + "-"]);
    }
  }

  method EncodePrimitiveFirst(u: CharClasses, es: seq<Entry>, d: nat, lines: seq<string>)
    returns (r: Option<seq<string>>)
    requires AgreesOnAscii(u) && ValuesNormal(es) && Normal(Obj(es)) && es != [] && IsPrimitive(es[0].value)
    ensures r == if EntriesCarried(es) then Some(lines + ItemTexts(u, Obj(es), d)) else None
    decreases es, 0, 1
  {
    FirstThenRestCarried(es);
    PrimitiveItemTexts(u, es, d);
    var key := EncodeKey(u, es[0].key);
    if key.None? {
      return None;
    }
    var token := FormatPrimitive(u, es[0].value);
    if token.None? {
      return None;
    }
    Pushed(lines, Indent(d) + ("- " + (key.value + ": " + token.value)), EntriesTexts(u, es[1..], d + 1));
    r := EncodeObject(u, es[1..], d + 1, lines + [Indent(d) + ("- " + (key.value + ": " + token.value))]);
  }

  method EncodeArrayFirst(u: CharClasses, es: seq<Entry>, d: nat, lines: seq<string>) returns (r: Option<seq<string>>)
    requires AgreesOnAscii(u) && ValuesNormal(es) && Normal(Obj(es)) && es != [] && es[0].value.Arr?
    ensures r == if EntriesCarried(es) then Some(lines + ItemTexts(u, Obj(es), d)) else None
    decreases es, 0, 1
  {
    FirstThenRestCarried(es);
    ArrayItemTexts(u, es, d);
    var key := EncodeKey(u, es[0].key);
    if key.None? {
      return None;
    }
    ghost var name := Some(KeyWord(u, es[0].key));
    var next := EncodeArrayItem(u, key.value, name, es[0].value.items, d, lines);
    if next.None? {
      return None;
    }
    Regrouped(lines, ArrayTexts(u, name, es[0].value.items, d, true), EntriesTexts(u, es[1..], d + 1));
    r := EncodeObject(u, es[1..], d + 1, next.value);
  }

  // ---- objects ----

  /** An object's entries, one after another. */
  method EncodeObject(u: CharClasses, es: seq<Entry>, d: nat, lines: seq<string>) returns (r: Option<seq<string>>)
    requires AgreesOnAscii(u) && ValuesNormal(es)
    ensures r == if EntriesCarried(es) then Some(lines + EntriesTexts(u, es, d)) else None
    decreases es, 0
  {
    var out := lines;
    assert es[0..] == es;
    for i := 0 to |es|
      invariant forall j :: 0 <= j < i ==> Carriable(es[j].key) && Carried(es[j].value)
      invariant out + EntriesTexts(u, es[i..], d) == lines + EntriesTexts(u, es, d)
    {
      NextEntry(u, es, i, d);
      var next := EncodeEntry(u, es[i], d, out);
      if next.None? {
        return None;
      }
      Regrouped(out, EntryTexts(u, es[i], d), EntriesTexts(u, es[i + 1..], d));
      out := next.value;
    }
    assert es[|es|..] == [] && out + [] == out;
    return Some(out);
  }

  lemma ObjectEntryTexts(u: CharClasses, e: Entry, d: nat)
    requires AgreesOnAscii(u) && Normal(e.value) && e.value.Obj? && ValuesNormal(e.value.entries)
    ensures EntryTexts(u, e, d)
            == [Indent(d) + (WordText(KeyWord(u, e.key)) + ":")] + EntriesTexts(u, e.value.entries, d + 1)
  {
    var line := Line(d, false, Opening(KeyWord(u, e.key)));
    KeyReadsBack(u, e.key);
    EntriesAreWellFormed(u, e.value.entries, d + 1);
    assert AllWellFormed([line]) && Texts([line]) == [LineText(line)];
    TextsSplit([line], EntriesLines(u, e.value.entries, d + 1));
  }

  method EncodeEntry(u: CharClasses, e: Entry, d: nat, lines: seq<string>) returns (r: Option<seq<string>>)
    requires AgreesOnAscii(u) && Normal(e.value)
    ensures r == if Carriable(e.key) && Carried(e.value) then Some(lines + EntryTexts(u, e, d)) else None
    decreases e, 0
  {
    var key := EncodeKey(u, e.key);
    if key.None? {
      return None;
    }
    KeyReadsBack(u, e.key);
    match e.value {
      case Obj(es) =>
        ObjectEntryTexts(u, e, d);
        Pushed(lines, Indent(d) + (key.value + ":"), EntriesTexts(u, es, d + 1));
        r := EncodeObject(u, es, d + 1, lines + [Indent(d) + (key.value + ":")]);
      case Arr(items) =>
        assert EntryTexts(u, e, d) == ArrayTexts(u, Some(KeyWord(u, e.key)), items, d, false);
        r := EncodeArray(u, key.value, Some(KeyWord(u, e.key)), items, d, lines);
      case v =>
        var token := FormatPrimitive(u, v);
        if token.None? {
          return None;
        }
        assert EntryTexts(u, e, d) == [Indent(d) + (key.value + ": " + token.value)];
        r := Some(lines + [Indent(d) + (key.value + ": " + token.value)]);
    }
  }

  // ---- documents ----

  ghost function DocumentTexts(u: CharClasses, v: Value): seq<string>
    requires AgreesOnAscii(u) && Normal(v)
  {
    DocumentIsWellFormed(u, v);
    Texts(DocumentLines(u, v))
  }

  lemma ObjectDocument(u: CharClasses, es: seq<Entry>)
    requires AgreesOnAscii(u) && Normal(Obj(es)) && ValuesNormal(es)
    ensures DocumentTexts(u, Obj(es)) == [] + EntriesTexts(u, es, 0)
    ensures es == [] ==> DocumentTexts(u, Obj(es)) == []
  {
  }

  lemma ArrayDocument(u: CharClasses, items: seq<Value>)
    requires AgreesOnAscii(u) && Normal(Arr(items)) && AllNormal(items)
    ensures DocumentTexts(u, Arr(items)) == [] + ArrayTexts(u, None, items, 0, false)
  {
  }

  lemma PrimitiveDocument(u: CharClasses, v: Value)
    requires AgreesOnAscii(u) && Normal(v) && IsPrimitive(v)
    ensures DocumentTexts(u, v) == [WordText(WordOf(u, v))]
  {
    var line := Line(0, false, Values([WordOf(u, v)]));
    PrimitiveReadsBack(u, v);
    assert WellFormed(line) && LineText(line) == "" + WordText(WordOf(u, v)) == WordText(WordOf(u, v));
  }

  method EncodeRoot(u: CharClasses, v: Value) returns (r: Option<seq<string>>)
    requires AgreesOnAscii(u) && Normal(v)
    ensures r == if Carried(v) then Some(DocumentTexts(u, v)) else None
  {
    match v {
      case Obj(es) =>
        ObjectDocument(u, es);
        if es == [] {
          return Some([]);
        }
        r := EncodeObject(u, es, 0, []);
      case Arr(items) =>
        ArrayDocument(u, items);
        r := EncodeArray(u, "", None, items, 0, []);
      case _ =>
        PrimitiveDocument(u, v);
        var token := FormatPrimitive(u, v);
        if token.None? {
          return None;
        }
        r := Some([token.value]);
    }
  }

  /**
   * Prints a value, or fails exactly when some key or string holds an unsupported control character.
   * What it prints decodes to the value, but for the order of the entries in the rows of its tables.
   */
  method PrintDocument(u: CharClasses, v: Value) returns (r: Option<string>)
    requires AgreesOnAscii(u) && Normal(v)
    ensures r.Some? <==> Carried(v)
    ensures r.Some? ==> r.value == Document(u, v) && Decode(r.value) == Tidy(v) && Alike(v, Decode(r.value))
  {
    DocumentDecodes(u, v);
    TidyIsAlike(v);
    var lines := EncodeRoot(u, v);
    if lines.None? {
      return None;
    }
    return Some(Joined(lines.value));
  }
}
