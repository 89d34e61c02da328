/** What a printed document looks like, line by line. */
module ToonLayout {
  import opened Prelude
  import opened ToonWords
  import opened ToonLines
  import opened Toon
  import opened ToonDecode
  import opened ToonPrint

  // ---- words ----

  ghost function PrimText(u: CharClasses, v: Value): string
    requires IsPrimitive(v)
  {
    WordText(WordOf(u, v))
  }

  function KeyText(u: CharClasses, key: string): string {
    WordText(KeyWord(u, key))
  }

  /** How a primitive is written: a string bare where it can be, and otherwise in quotes. */
  lemma PrimitiveText(u: CharClasses, v: Value)
    requires IsPrimitive(v)
    ensures v.Null? ==> PrimText(u, v) == "null"
    ensures v.Flag? ==> PrimText(u, v) == if v.on then "true" else "false"
    ensures v.Num? ==> PrimText(u, v) == v.literal
    ensures v.Str? && NeedsQuoting(u, v.text) ==> PrimText(u, v) == "\"" + Escaped(v.text) + "\""
    ensures v.Str? && !NeedsQuoting(u, v.text) ==> PrimText(u, v) == v.text
  {
  }

  /** A key is bare if it is a name, of letters, digits, underscores and points, and otherwise in quotes. */
  lemma KeyTextIs(u: CharClasses, key: string)
    ensures KeyText(u, key) == key
            || (!IsBareKey(u, key) && KeyText(u, key) == "\"" + Escaped(key) + "\"")
    ensures AgreesOnAscii(u) && key != "" && (key[0] == '_' || IsLetter(key[0]))
            && (forall i :: 1 <= i < |key| ==>
                  IsLetter(key[i]) || IsDigit(key[i]) || key[i] == '_' || key[i] == '.') ==>
              KeyText(u, key) == key
  {
  }

  /** Inside quotes a character stands for itself, but for the five that are escaped. */
  lemma EscapeTable(c: char)
    ensures Escaped("\\") == "\\\\" && Escaped("\"") == "\\\"" && Escaped("\n") == "\\n"
    ensures Escaped("\r") == "\\r" && Escaped("\t") == "\\t"
    ensures c !in {'\\', '"', '\n', '\r', '\t'} ==> Escaped([c]) == [c]
  {
    assert Escaped("") == "";
    assert forall d: char :: [d][1..] == "" && Escaped([d]) == EscapedChar(d) + "" == EscapedChar(d);
  }

  /** A string is quoted if it holds what ends words or is escaped, or could be read as another value. */
  lemma QuotedStrings(u: CharClasses, s: string, i: nat)
    requires AgreesOnAscii(u)
    ensures i < |s| && s[i] in {',', ':', '[', ']', '{', '}', '\\', '"', '\n', '\r', '\t'} ==> NeedsQuoting(u, s)
    ensures s in {"", "true", "false", "null"} ==> NeedsQuoting(u, s)
    ensures s != "" && (s[0] in {' ', '-'} || s[|s| - 1] == ' ') ==> NeedsQuoting(u, s)
    ensures IsNumber(s) ==> NeedsQuoting(u, s)
  {
    if i < |s| && s[i] in {',', ':', '[', ']', '{', '}', '\\', '"', '\n', '\r', '\t'} { assert Special(s[i]); }
  }

  /** What may stand inside a bare string. */
  predicate Ordinary(c: char) {
    IsLetter(c) || IsDigit(c)
      || c in {' ', '_', '-', '.', '/', '(', ')', '\'', '*', '+', '=', '!', '?', '#', '@', '$', '%', '&', ';', '<', '>',
               '|', '~', '^', '`'}
  }

  /** A string of ordinary characters stands bare unless a digit, a dash or a blank begins it or a blank ends it. */
  lemma BareStrings(u: CharClasses, s: string)
    requires AgreesOnAscii(u) && s != "" && s[0] !in {' ', '-'} && !IsDigit(s[0]) && s[|s| - 1] != ' '
    requires s !in {"true", "false", "null"} && forall i :: 0 <= i < |s| ==> Ordinary(s[i])
    ensures !NeedsQuoting(u, s)
  {
    assert !u.whitespace(s[0]);
    var last := s[|s| - 1];
    assert Ordinary(last) && last < 128 as char && !IsBlank(last);
    forall i | 0 <= i < |s| ensures !Special(s[i]) { assert Ordinary(s[i]); }
    assert !IsDigit(s[0]) && s[0] != '-';
  }

  /** Text can be carried unless it holds a control character that no escape stands for. */
  lemma CarriableIs(s: string)
    ensures Carriable(s) <==> forall i :: 0 <= i < |s| ==> s[i] >= ' ' || s[i] in {'\n', '\r', '\t'}
  {
    assert ' ' == 32 as char;
  }

  /** What a decimal literal may be made of. */
  predicate OfNumbers(c: char) {
    IsDigit(c) || c in {'-', '+', '.', 'e', 'E'}
  }

  lemma {:induction false} NumbersAreDigits(s: string, i: nat)
    requires IsNumber(s) && i < |s|
    ensures OfNumbers(s[i])
  {
    var from := if s[0] == '-' then 1 else 0;
    var k :| from < k <= |s| && DigitRun(s, from, k) && IsFraction(s, k);
    if i >= k && !IsExponent(s, k) {
      var e :| k + 1 < e <= |s| && DigitRun(s, k + 1, e) && IsExponent(s, e);
    }
  }

  /** A string that begins with a digit is quoted for a zero too many in front; any letter but `e` keeps it bare. */
  lemma DigitStrings(u: CharClasses, s: string, i: nat)
    requires AgreesOnAscii(u) && s != "" && IsDigit(s[0])
    ensures |s| >= 2 && s[0] == '0' && IsDigit(s[1]) ==> NeedsQuoting(u, s)
    ensures (forall j :: 0 <= j < |s| ==> Ordinary(s[j])) && s[|s| - 1] != ' '
            && !(|s| >= 2 && s[0] == '0' && IsDigit(s[1])) && i < |s| && !OfNumbers(s[i]) ==>
              !NeedsQuoting(u, s)
  {
    if && (forall j :: 0 <= j < |s| ==> Ordinary(s[j])) && s[|s| - 1] != ' '
       && !(|s| >= 2 && s[0] == '0' && IsDigit(s[1])) && i < |s| && !OfNumbers(s[i]) {
      if IsNumber(s) { NumbersAreDigits(s, i); }
      var last := s[|s| - 1];
      assert Ordinary(last) && last < 128 as char && !IsBlank(last) && !u.whitespace(s[0]);
      forall j | 0 <= j < |s| ensures !Special(s[j]) { assert Ordinary(s[j]); }
    }
  }

  ghost predicate HasKey(v: Value, key: string)
    requires v.Obj?
  {
    exists i :: 0 <= i < |v.entries| && v.entries[i].key == key
  }

  /** An array is a table exactly when it has only objects with primitive values, all with the same keys. */
  lemma TablesAre(vs: seq<Value>)
    ensures IsTable(vs) <==>
              && vs != [] && (forall i :: 0 <= i < |vs| ==> vs[i].Obj? && vs[i].entries != [])
              && (forall i, j :: 0 <= i < |vs| && 0 <= j < |vs[i].entries| ==> IsPrimitive(vs[i].entries[j].value))
              && (forall i, key :: 0 <= i < |vs| ==> (HasKey(vs[i], key) <==> HasKey(vs[0], key)))
  {
    if IsTable(vs) {
      forall i | 0 <= i < |vs|
        ensures vs[i].Obj? && vs[i].entries != [] && forall key :: HasKey(vs[i], key) <==> HasKey(vs[0], key)
      {
        assert Flat(vs[i]) && KeySet(vs[i].entries) == KeySet(vs[0].entries);
        assert vs[0].entries[0].key in KeySet(vs[0].entries);
        forall key ensures HasKey(vs[i], key) <==> HasKey(vs[0], key) {
          KeyInSet(vs[i], key);
          KeyInSet(vs[0], key);
        }
      }
    }
    if && vs != [] && (forall i :: 0 <= i < |vs| ==> vs[i].Obj? && vs[i].entries != [])
       && (forall i, j :: 0 <= i < |vs| && 0 <= j < |vs[i].entries| ==> IsPrimitive(vs[i].entries[j].value))
       && (forall i, key :: 0 <= i < |vs| ==> (HasKey(vs[i], key) <==> HasKey(vs[0], key))) {
      forall i | 0 <= i < |vs| ensures Flat(vs[i]) && KeySet(vs[i].entries) == KeySet(vs[0].entries) {
        forall key ensures key in KeySet(vs[i].entries) <==> key in KeySet(vs[0].entries) {
          KeyInSet(vs[i], key);
          KeyInSet(vs[0], key);
        }
      }
    }
  }

  lemma KeyInSet(v: Value, key: string)
    requires v.Obj?
    ensures HasKey(v, key) <==> key in KeySet(v.entries)
  {
  }

  // ---- lines ----

  function Spaces(n: nat): string {
    if n == 0 then "" else " " + Spaces(n - 1)
  }

  lemma {:induction false} IndentIsSpaces(d: nat)
    ensures Indent(d) == Spaces(2 * d)
  {
    if d > 0 {
      IndentIsSpaces(d - 1);
      assert Spaces(2 * d) == " " + (" " + Spaces(2 * d - 2));
    }
  }

  /** What a line begins with: two spaces for each level, and the dash of a list item. */
  function LeadOf(d: nat, dash: bool): string {
    if dash then Spaces(2 * d) + "- " else Spaces(2 * d)
  }

  lemma OneLineText(l: Line)
    requires WellFormed(l) && !l.body.Nothing?
    ensures Texts([l]) == [LeadOf(l.depth, l.dash) + BodyText(l.body)]
  {
    IndentIsSpaces(l.depth);
    LeadThenBody(l);
    assert Spaces(2 * l.depth) + "" == Spaces(2 * l.depth);
    assert Texts([l]) == [LineText(l)];
  }

  /** An entry with a primitive is one line. */
  lemma FieldLayout(u: CharClasses, k: string, v: Value, d: nat)
    requires AgreesOnAscii(u) && IsPrimitive(v) && Normal(v)
    ensures EntryTexts(u, Entry(k, v), d) == [Spaces(2 * d) + (KeyText(u, k) + ": " + PrimText(u, v))]
  {
    PrimitiveReadsBack(u, v);
    KeyReadsBack(u, k);
    OneLineText(Line(d, false, Field(KeyWord(u, k), WordOf(u, v))));
  }

  /** An entry with an object is its key and a colon, and the object's entries two spaces further in. */
  lemma NestedLayout(u: CharClasses, k: string, es: seq<Entry>, d: nat)
    requires AgreesOnAscii(u) && ValuesNormal(es) && Normal(Obj(es))
    ensures EntryTexts(u, Entry(k, Obj(es)), d)
            == [Spaces(2 * d) + (KeyText(u, k) + ":")] + EntriesTexts(u, es, d + 1)
  {
    var line := Line(d, false, Opening(KeyWord(u, k)));
    KeyReadsBack(u, k);
    EntriesAreWellFormed(u, es, d + 1);
    OneLineText(line);
    TextsSplit([line], EntriesLines(u, es, d + 1));
  }

  /** An entry with an array is the key and the array. */
  lemma ArrayEntryLayout(u: CharClasses, k: string, vs: seq<Value>, d: nat)
    requires AgreesOnAscii(u) && AllNormal(vs) && Normal(Arr(vs))
    ensures Plain(KeyWord(u, k))
    ensures EntryTexts(u, Entry(k, Arr(vs)), d) == ArrayTexts(u, Some(KeyWord(u, k)), vs, d, false)
  {
    KeyReadsBack(u, k);
  }

  function CountOf(n: nat): string {
    "[" + Decimal(n) + "]"
  }

  /** The texts of some primitives with commas between them. */
  ghost predicate IsCommaList(u: CharClasses, vs: seq<Value>, t: string)
    requires vs != [] && AllPrimitive(vs)
  {
    exists ts :: |ts| == |vs| && t == Commas(ts) && forall i :: 0 <= i < |vs| ==> ts[i] == PrimText(u, vs[i])
  }

  lemma {:induction false} WordsAreCommaList(u: CharClasses, vs: seq<Value>)
    requires vs != [] && AllPrimitive(vs)
    ensures IsCommaList(u, vs, WordsText(WordsOf(u, vs)))
  {
    var ts := seq(|vs|, i requires 0 <= i < |vs| => PrimText(u, vs[i]));
    CommasAreWords(WordsOf(u, vs), ts);
  }

  /** An array of primitives is one line: its length, and its items with commas between them. */
  lemma PrimitivesLayout(u: CharClasses, name: Option<Word>, vs: seq<Value>, d: nat, dash: bool) returns (items: string)
    requires AgreesOnAscii(u) && AllNormal(vs) && AllPrimitive(vs) && (name.Some? ==> Plain(name.value))
    ensures vs != [] ==> IsCommaList(u, vs, items)
    ensures ArrayTexts(u, name, vs, d, dash)
            == [LeadOf(d, dash)
                + (NameText(name) + (CountOf(|vs|) + ":" + if vs == [] then "" else " " + items))]
  {
    items := if vs == [] then "" else WordsText(WordsOf(u, vs));
    if vs != [] { WordsAreCommaList(u, vs); }
    HeadIsWellFormed(u, name, vs, d, dash);
    OneLineText(Line(d, dash, Head(u, name, vs)));
    assert CountOf(|vs|) + "" + ":" == CountOf(|vs|) + ":";
    assert WordsOf(u, vs) == [] <==> vs == [];
    assert [Line(d, dash, Head(u, name, vs))] + [] == [Line(d, dash, Head(u, name, vs))];
  }

  /** A table is its length and columns, and a row for each object two spaces further in. */
  lemma TableLayout(u: CharClasses, name: Option<Word>, vs: seq<Value>, d: nat, dash: bool)
    requires AgreesOnAscii(u) && AllNormal(vs) && IsTable(vs) && (name.Some? ==> Plain(name.value))
    ensures ArrayTexts(u, name, vs, d, dash)
            == [LeadOf(d, dash)
                + (NameText(name) + (CountOf(|vs|) + ("{" + WordsText(KeyWords(u, Keys(vs[0].entries))) + "}") + ":"))]
               + RowTexts(u, vs, Keys(vs[0].entries), d + 1)
  {
    var line := Line(d, dash, Head(u, name, vs));
    assert Flat(vs[0]) && !AllPrimitive(vs) && Keys(vs[0].entries) != [];
    var header := CountOf(|vs|) + ("{" + WordsText(KeyWords(u, Keys(vs[0].entries))) + "}") + ":";
    assert header + "" == header;
    HeadIsWellFormed(u, name, vs, d, dash);
    OneLineText(line);
    RowsAreWellFormed(u, vs, Keys(vs[0].entries), d + 1);
    TextsSplit([line], RowLines(u, vs, Keys(vs[0].entries), d + 1));
  }

  /** A row is the object's values under the columns, with commas between them. */
  lemma RowLayout(u: CharClasses, vs: seq<Value>, i: nat, columns: seq<string>, d: nat) returns (cells: string)
    requires AgreesOnAscii(u) && AllNormal(vs) && columns != [] && (forall j :: 0 <= j < |vs| ==> Flat(vs[j]))
             && i < |vs|
    ensures vs[i].Obj? && AllPrimitive(Cells(vs[i].entries, columns))
    ensures IsCommaList(u, Cells(vs[i].entries, columns), cells)
    ensures RowTexts(u, vs[i..], columns, d) == [Spaces(2 * d) + cells] + RowTexts(u, vs[i + 1..], columns, d)
  {
    assert Flat(vs[i]);
    NextRow(u, vs, i, columns, d);
    IndentIsSpaces(d);
    cells := WordsText(WordsOf(u, Cells(vs[i].entries, columns)));
    WordsAreCommaList(u, Cells(vs[i].entries, columns));
  }

  /** Any other array is its length, and its items two spaces further in. */
  lemma ListLayout(u: CharClasses, name: Option<Word>, vs: seq<Value>, d: nat, dash: bool)
    requires AgreesOnAscii(u) && AllNormal(vs) && !AllPrimitive(vs) && !IsTable(vs)
             && (name.Some? ==> Plain(name.value))
    ensures ArrayTexts(u, name, vs, d, dash)
            == [LeadOf(d, dash) + (NameText(name) + (CountOf(|vs|) + ":"))]
               + ItemsTexts(u, vs, d + 1)
  {
    var line := Line(d, dash, Head(u, name, vs));
    assert CountOf(|vs|) + "" + ":" + "" == CountOf(|vs|) + ":";
    HeadIsWellFormed(u, name, vs, d, dash);
    OneLineText(line);
    ItemsAreWellFormed(u, vs, d + 1);
    TextsSplit([line], ItemsLines(u, vs, d + 1));
  }

  /** A primitive as a list item, and an object with no entries. */
  lemma PlainItemLayout(u: CharClasses, v: Value, d: nat)
    requires AgreesOnAscii(u) && Normal(v) && (IsPrimitive(v) || v == Obj([]))
    ensures ItemTexts(u, v, d) == [Spaces(2 * d) + "- " + if IsPrimitive(v) then PrimText(u, v) else "{}"]
  {
    if IsPrimitive(v) {
      PrimitiveReadsBack(u, v);
      OneLineText(Line(d, true, Values([WordOf(u, v)])));
    } else {
      OneLineText(Line(d, true, EmptyObject));
    }
  }

  /** An array as a list item is the array behind a dash. */
  lemma ArrayItemLayout(u: CharClasses, vs: seq<Value>, d: nat)
    requires AgreesOnAscii(u) && AllNormal(vs) && Normal(Arr(vs))
    ensures ItemTexts(u, Arr(vs), d) == ArrayTexts(u, None, vs, d, true)
  {
  }

  /**
   * An object as a list item has its first entry on the line of the dash, unless that holds an object:
   * then the dash stands alone. The other entries follow two spaces further in.
   */
  lemma ObjectItemLayout(u: CharClasses, es: seq<Entry>, d: nat)
    requires AgreesOnAscii(u) && Normal(Obj(es)) && ValuesNormal(es) && es != []
    ensures IsPrimitive(es[0].value) ==>
              ItemTexts(u, Obj(es), d)
              == [Spaces(2 * d) + "- " + (KeyText(u, es[0].key) + ": " + PrimText(u, es[0].value))]
                 + EntriesTexts(u, es[1..], d + 1)
    ensures es[0].value.Obj? ==> ItemTexts(u, Obj(es), d) == [Spaces(2 * d) + "-"] + EntriesTexts(u, es, d + 1)
    ensures Plain(KeyWord(u, es[0].key))
    ensures es[0].value.Arr? && AllNormal(es[0].value.items) ==>
              ItemTexts(u, Obj(es), d)
              == ArrayTexts(u, Some(KeyWord(u, es[0].key)), es[0].value.items, d, true)
                 + EntriesTexts(u, es[1..], d + 1)
  {
    KeyReadsBack(u, es[0].key);
    assert Normal(es[0].value);
    EntriesAreWellFormed(u, es[1..], d + 1);
    EntriesAreWellFormed(u, es, d + 1);
    match es[0].value {
      case Obj(_) =>
        var line := Line(d, true, Nothing);
        IndentIsSpaces(d);
        assert Texts([line]) == [LineText(line)];
        TextsSplit([line], EntriesLines(u, es, d + 1));
      case Arr(items) =>
        ArrayIsWellFormed(u, Some(KeyWord(u, es[0].key)), items, d, true);
        TextsSplit(ArrayLines(u, Some(KeyWord(u, es[0].key)), items, d, true), EntriesLines(u, es[1..], d + 1));
      case w =>
        var line := Line(d, true, Field(KeyWord(u, es[0].key), WordOf(u, w)));
        PrimitiveReadsBack(u, w);
        OneLineText(line);
        TextsSplit([line], EntriesLines(u, es[1..], d + 1));
    }
  }

  // ---- documents ----

  /** A document is its lines with newlines between them: an object's entries, an array, or one primitive. */
  lemma DocumentLayout(u: CharClasses, v: Value)
    requires AgreesOnAscii(u) && Normal(v)
    ensures Document(u, v) == Joined(DocumentTexts(u, v))
    ensures v.Obj? ==> ValuesNormal(v.entries) && DocumentTexts(u, v) == EntriesTexts(u, v.entries, 0)
    ensures v.Arr? ==> AllNormal(v.items) && DocumentTexts(u, v) == ArrayTexts(u, None, v.items, 0, false)
    ensures IsPrimitive(v) ==> DocumentTexts(u, v) == [PrimText(u, v)]
  {
    match v {
      case Obj(es) =>
        ObjectDocument(u, es);
        assert [] + EntriesTexts(u, es, 0) == EntriesTexts(u, es, 0);
      case Arr(items) =>
        ArrayDocument(u, items);
        assert [] + ArrayTexts(u, None, items, 0, false) == ArrayTexts(u, None, items, 0, false);
      case _ => PrimitiveDocument(u, v);
    }
  }

  /** An object's lines are those of its entries, one after another. */
  lemma EntriesLayout(u: CharClasses, es: seq<Entry>, d: nat)
    requires AgreesOnAscii(u) && ValuesNormal(es)
    ensures es == [] ==> EntriesTexts(u, es, d) == []
    ensures es != [] ==> ValuesNormal(es[1..]) && Normal(es[0].value)
                         && EntriesTexts(u, es, d) == EntryTexts(u, es[0], d) + EntriesTexts(u, es[1..], d)
  {
    if es != [] {
      NextEntry(u, es, 0, d);
      assert es[0..] == es;
    }
  }

  /** A list's lines are those of its items, one after another. */
  lemma ItemsLayout(u: CharClasses, vs: seq<Value>, d: nat)
    requires AgreesOnAscii(u) && AllNormal(vs)
    ensures vs == [] ==> ItemsTexts(u, vs, d) == []
    ensures vs != [] ==>
              AllNormal(vs[1..]) && ItemsTexts(u, vs, d) == ItemTexts(u, vs[0], d) + ItemsTexts(u, vs[1..], d)
  {
    if vs != [] {
      NextItem(u, vs, 0, d);
      assert vs[0..] == vs;
    }
  }
}
