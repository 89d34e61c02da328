/** A decoder of printed documents, and the proof that it undoes the printer. */
module ToonDecode {
  import opened Prelude
  import opened ToonWords
  import opened ToonLines
  import opened Toon

  // ---- the decoder; on text that no value prints as, what it returns means nothing ----

  /** A quoted word is a string; a bare one is a constant, a number or a string. */
  ghost function ValueOf(w: Word): Value {
    if w.Quoted? then Str(w.text)
    else if w.text == "null" then Null
    else if w.text == "true" then Flag(true)
    else if w.text == "false" then Flag(false)
    else if IsNumber(w.text) then Num(w.text)
    else Str(w.text)
  }

  ghost function ValuesOf(ws: seq<Word>): (r: seq<Value>)
    ensures |r| == |ws|
  {
    seq(|ws|, i requires 0 <= i < |ws| => ValueOf(ws[i]))
  }

  /** One row: its cells under the columns. */
  ghost function ReadRow(l: Line, columns: seq<Word>): Value {
    if l.body.Values? && |l.body.values| == |columns| then
      Obj(seq(|columns|, i requires 0 <= i < |columns| => Entry(columns[i].text, ValueOf(l.body.values[i]))))
    else Null
  }

  ghost function ReadRows(n: nat, ls: seq<Line>, columns: seq<Word>): (r: (seq<Value>, seq<Line>))
    ensures |r.1| <= |ls|
  {
    if n == 0 || ls == [] then ([], ls)
    else
      var (rows, rest) := ReadRows(n - 1, ls[1..], columns);
      ([ReadRow(ls[0], columns)] + rows, rest)
  }

  /** What follows the first line of an array: rows, or items, one level deeper. */
  ghost function ReadArray(head: Body, ls: seq<Line>, d: nat): (r: (seq<Value>, seq<Line>))
    requires head.Header?
    ensures |r.1| <= |ls|
    decreases |ls|, 2
  {
    if head.columns.Some? then ReadRows(head.count, ls, head.columns.value)
    else if head.inline != [] || head.count == 0 then (ValuesOf(head.inline), ls)
    else ReadItems(head.count, ls, d)
  }

  ghost function ReadItems(n: nat, ls: seq<Line>, d: nat): (r: (seq<Value>, seq<Line>))
    ensures |r.1| <= |ls|
    decreases |ls|, 1
  {
    if n == 0 || ls == [] then ([], ls)
    else
      var (v, rest) := ReadItem(ls, d);
      var (vs, rest') := ReadItems(n - 1, rest, d);
      ([v] + vs, rest')
  }

  ghost function ReadItem(ls: seq<Line>, d: nat): (r: (Value, seq<Line>))
    requires ls != []
    ensures |r.1| < |ls|
    decreases |ls|, 0
  {
    var rest := ls[1..];
    match ls[0].body
    case EmptyObject => (Obj([]), rest)
    case Nothing =>
      var (es, rest') := ReadEntries(rest, d + 1);
      (Obj(es), rest')
    case Values(ws) => (if ws == [] then Null else ValueOf(ws[0]), rest)
    case Field(k, w) =>
      var (es, rest') := ReadEntries(rest, d + 1);
      (Obj([Entry(k.text, ValueOf(w))] + es), rest')
    case Header(name, _, _, _) =>
      var (vs, rest') := ReadArray(ls[0].body, rest, d + 1);
      if name.None? then (Arr(vs), rest')
      else
        var (es, rest'') := ReadEntries(rest', d + 1);
        (Obj([Entry(name.value.text, Arr(vs))] + es), rest'')
    case _ => (Null, rest)
  }

  /** The entries of an object at one depth: as many as there are lines at that depth. */
  ghost function ReadEntries(ls: seq<Line>, d: nat): (r: (seq<Entry>, seq<Line>))
    ensures |r.1| <= |ls|
    decreases |ls|, 1
  {
    if ls == [] || ls[0].depth != d then ([], ls)
    else
      var (e, rest) := ReadEntry(ls, d);
      var (es, rest') := ReadEntries(rest, d);
      ([e] + es, rest')
  }

  ghost function ReadEntry(ls: seq<Line>, d: nat): (r: (Entry, seq<Line>))
    requires ls != []
    ensures |r.1| < |ls|
    decreases |ls|, 0
  {
    var rest := ls[1..];
    match ls[0].body
    case Opening(k) =>
      var (es, rest') := ReadEntries(rest, d + 1);
      (Entry(k.text, Obj(es)), rest')
    case Header(name, _, _, _) =>
      var (vs, rest') := ReadArray(ls[0].body, rest, d + 1);
      (Entry(if name.Some? then name.value.text else "", Arr(vs)), rest')
    case Field(k, w) => (Entry(k.text, ValueOf(w)), rest)
    case _ => (Entry("", Null), rest)
  }

  /** The value a document stands for. */
  ghost function Decode(text: string): Value {
    ReadDocument(ReadLines(text))
  }

  ghost function ReadDocument(ls: seq<Line>): Value {
    if ls == [] then Obj([])
    else
      match ls[0].body
      case Values(ws) => if ws == [] then Null else ValueOf(ws[0])
      case Header(None, _, _, _) => Arr(ReadArray(ls[0].body, ls[1..], 1).0)
      case _ => Obj(ReadEntries(ls, 0).0)
  }

  // ---- words read back as values ----

  /** A number starts with a digit, or with a minus and a digit, and holds nothing special. */
  lemma NumberIsPlain(s: string)
    requires IsNumber(s)
    ensures PlainText(s) && s != "null" && s != "true" && s != "false"
  {
    var from := if s != "" && s[0] == '-' then 1 else 0;
    var k :| from < k <= |s| && DigitRun(s, from, k) && IsFraction(s, k);
    assert IsDigit(s[from]);
    FractionIsPlain(s, k);
    forall i | 0 <= i < |s| ensures !Special(s[i]) {
      if from <= i < k { assert IsDigit(s[i]); }
    }
  }

  lemma ExponentIsPlain(s: string, from: nat)
    requires from <= |s| && IsExponent(s, from)
    ensures forall i :: from <= i < |s| ==> !Special(s[i])
  {
    if from < |s| {
      var start := if from + 1 < |s| && (s[from + 1] == '+' || s[from + 1] == '-') then from + 2 else from + 1;
      forall i | from <= i < |s| ensures !Special(s[i]) {
        if i >= start { assert IsDigit(s[i]); }
      }
    }
  }

  lemma FractionIsPlain(s: string, from: nat)
    requires from <= |s| && IsFraction(s, from)
    ensures forall i :: from <= i < |s| ==> !Special(s[i])
  {
    if IsExponent(s, from) {
      ExponentIsPlain(s, from);
    } else {
      var k :| from + 1 < k <= |s| && DigitRun(s, from + 1, k) && IsExponent(s, k);
      ExponentIsPlain(s, k);
      forall i | from <= i < |s| ensures !Special(s[i]) {
        if from < i < k { assert IsDigit(s[i]); }
      }
    }
  }

  lemma {:induction false} PrimitiveReadsBack(u: CharClasses, v: Value)
    requires AgreesOnAscii(u) && IsPrimitive(v) && Normal(v)
    ensures Plain(WordOf(u, v)) && ValueOf(WordOf(u, v)) == v
  {
    match v {
      case Num(l) => NumberIsPlain(l);
      case Str(s) =>
        if !NeedsQuoting(u, s) {
          assert u.whitespace(' ');
          assert !HasSpecial(s);
        }
      case _ =>
    }
  }

  lemma KeyReadsBack(u: CharClasses, key: string)
    requires AgreesOnAscii(u)
    ensures Plain(KeyWord(u, key)) && KeyWord(u, key).text == key
  {
    if IsBareKey(u, key) {
      forall i | 0 <= i < |key| ensures !Special(key[i]) {
        if i > 0 { assert u.alphabetic(key[i]) || u.numeric(key[i]) || key[i] == '_' || key[i] == '.'; }
      }
      assert !u.alphabetic(' ') && !u.alphabetic('-');
    }
  }

  lemma {:induction false} PrimitivesReadBack(u: CharClasses, vs: seq<Value>)
    requires AgreesOnAscii(u) && AllPrimitive(vs) && AllNormal(vs)
    ensures AllPlain(WordsOf(u, vs)) && ValuesOf(WordsOf(u, vs)) == vs
  {
    forall i | 0 <= i < |vs| ensures Plain(WordOf(u, vs[i])) && ValueOf(WordOf(u, vs[i])) == vs[i] {
      PrimitiveReadsBack(u, vs[i]);
    }
  }

  // ---- tables read back ----

  lemma {:induction false} LookupIsNormal(es: seq<Entry>, key: string)
    requires forall i :: 0 <= i < |es| ==> Normal(es[i].value)
    ensures Normal(Lookup(es, key))
  {
    if es != [] && es[0].key != key {
      LookupIsNormal(es[1..], key);
    }
  }

  lemma CellsReadBack(u: CharClasses, v: Value, columns: seq<string>)
    requires AgreesOnAscii(u) && Flat(v) && Normal(v)
    ensures AllPrimitive(Cells(v.entries, columns))
    ensures var ws := WordsOf(u, Cells(v.entries, columns)); AllPlain(ws) && ValuesOf(ws) == Cells(v.entries, columns)
  {
    CellsArePrimitive(v.entries, columns);
    forall i | 0 <= i < |columns| ensures Normal(Cells(v.entries, columns)[i]) {
      LookupIsNormal(v.entries, columns[i]);
    }
    PrimitivesReadBack(u, Cells(v.entries, columns));
  }

  lemma {:induction false} RowReadsBack(u: CharClasses, v: Value, columns: seq<string>, d: nat)
    requires AgreesOnAscii(u) && Flat(v) && Normal(v)
    ensures ReadRow(RowLine(u, v, columns, d), KeyWords(u, columns)) == Obj(InOrder(v.entries, columns))
  {
    CellsReadBack(u, v, columns);
    var words, ws := KeyWords(u, columns), WordsOf(u, Cells(v.entries, columns));
    forall i | 0 <= i < |columns|
      ensures Entry(words[i].text, ValueOf(ws[i])) == InOrder(v.entries, columns)[i]
    {
      KeyReadsBack(u, columns[i]);
      assert ValuesOf(ws)[i] == Cells(v.entries, columns)[i];
    }
    var row := ReadRow(RowLine(u, v, columns, d), words);
    assert row.entries == InOrder(v.entries, columns);
  }

  ghost function Reordered(vs: seq<Value>, columns: seq<string>): seq<Value>
    requires forall i :: 0 <= i < |vs| ==> Flat(vs[i])
  {
    seq(|vs|, i requires 0 <= i < |vs| => assert Flat(vs[i]); Obj(InOrder(vs[i].entries, columns)))
  }

  lemma {:induction false} RowsReadBack(u: CharClasses, vs: seq<Value>, columns: seq<string>, d: nat, after: seq<Line>)
    requires AgreesOnAscii(u) && AllNormal(vs) && forall i :: 0 <= i < |vs| ==> Flat(vs[i])
    ensures ReadRows(|vs|, RowLines(u, vs, columns, d) + after, KeyWords(u, columns)) == (Reordered(vs, columns), after)
  {
    if vs == [] {
      assert [] + after == after;
    } else {
      var ls := RowLines(u, vs, columns, d) + after;
      assert ls[0] == RowLine(u, vs[0], columns, d) && ls[1..] == RowLines(u, vs[1..], columns, d) + after;
      RowReadsBack(u, vs[0], columns, d);
      RowsReadBack(u, vs[1..], columns, d, after);
      assert Reordered(vs, columns) == [Obj(InOrder(vs[0].entries, columns))] + Reordered(vs[1..], columns);
    }
  }

  // ---- arrays and objects read back ----

  /** What follows stands no deeper than this. */
  predicate NoDeeper(ls: seq<Line>, d: nat) {
    ls == [] || ls[0].depth <= d
  }

  lemma EntriesStart(u: CharClasses, es: seq<Entry>, d: nat, after: seq<Line>)
    requires NoDeeper(after, d)
    ensures NoDeeper(EntriesLines(u, es, d) + after, d)
  {
    if es == [] {
      assert [] + after == after;
    }
  }

  lemma {:induction false} EntriesReadBack(u: CharClasses, es: seq<Entry>, d: nat, after: seq<Line>)
    requires AgreesOnAscii(u) && forall i :: 0 <= i < |es| ==> Normal(es[i].value)
    requires after != [] ==> after[0].depth < d
    ensures ReadEntries(EntriesLines(u, es, d) + after, d) == (TidyEntries(es), after)
    decreases es, 0
  {
    var ls := EntriesLines(u, es, d) + after;
    if es == [] {
      assert ls == after;
    } else {
      var more := EntriesLines(u, es[1..], d) + after;
      assert ls == EntryLines(u, es[0], d) + more;
      EntriesStart(u, es[1..], d, after);
      EntryReadsBack(u, es[0], d, more);
      EntriesReadBack(u, es[1..], d, after);
    }
  }

  lemma {:induction false} EntryReadsBack(u: CharClasses, e: Entry, d: nat, after: seq<Line>)
    requires AgreesOnAscii(u) && Normal(e.value) && NoDeeper(after, d)
    ensures ReadEntry(EntryLines(u, e, d) + after, d) == (Entry(e.key, Tidy(e.value)), after)
    decreases e, 0
  {
    var ls := EntryLines(u, e, d) + after;
    KeyReadsBack(u, e.key);
    match e.value {
      case Obj(es) =>
        assert ls[1..] == EntriesLines(u, es, d + 1) + after;
        EntriesReadBack(u, es, d + 1, after);
      case Arr(items) =>
        assert ls[1..] == BelowHead(u, items, d + 1) + after;
        ArrayReadsBack(u, Some(KeyWord(u, e.key)), items, d + 1, after);
      case v =>
        assert ls[1..] == after;
        PrimitiveReadsBack(u, v);
    }
  }

  lemma {:induction false} ArrayReadsBack(u: CharClasses, name: Option<Word>, items: seq<Value>, d: nat,
                                          after: seq<Line>)
    requires AgreesOnAscii(u) && AllNormal(items) && NoDeeper(after, d)
    ensures ReadArray(Head(u, name, items), BelowHead(u, items, d) + after, d) == (TidyItems(items), after)
    decreases items, 1
  {
    if AllPrimitive(items) {
      assert [] + after == after;
      PrimitivesReadBack(u, items);
      PrimitivesAreTidy(items);
    } else if IsTable(items) {
      RowsReadBack(u, items, Keys(items[0].entries), d, after);
    } else {
      ItemsReadBack(u, items, d, after);
    }
  }

  lemma {:induction false} PrimitivesAreTidy(vs: seq<Value>)
    requires AllPrimitive(vs)
    ensures !IsTable(vs) && TidyEach(vs) == vs
  {
    if vs != [] {
      PrimitivesAreTidy(vs[1..]);
      assert IsPrimitive(vs[0]);
    }
  }

  lemma {:induction false} ItemsReadBack(u: CharClasses, vs: seq<Value>, d: nat, after: seq<Line>)
    requires AgreesOnAscii(u) && AllNormal(vs) && NoDeeper(after, d)
    ensures ReadItems(|vs|, ItemsLines(u, vs, d) + after, d) == (TidyEach(vs), after)
    decreases vs, 0
  {
    var ls := ItemsLines(u, vs, d) + after;
    if vs == [] {
      assert ls == after;
    } else {
      var more := ItemsLines(u, vs[1..], d) + after;
      assert ls == ItemLines(u, vs[0], d) + more;
      ItemReadsBack(u, vs[0], d, more);
      ItemsReadBack(u, vs[1..], d, after);
    }
  }

  lemma {:induction false} ItemReadsBack(u: CharClasses, v: Value, d: nat, after: seq<Line>)
    requires AgreesOnAscii(u) && Normal(v) && NoDeeper(after, d)
    ensures ReadItem(ItemLines(u, v, d) + after, d) == (Tidy(v), after)
    decreases v, 0
  {
    var ls := ItemLines(u, v, d) + after;
    match v {
      case Arr(items) =>
        assert ls[1..] == BelowHead(u, items, d + 1) + after;
        ArrayReadsBack(u, None, items, d + 1, after);
      case Obj(es) =>
        if es == [] {
          assert ls[1..] == after;
        } else {
          ObjectItemReadsBack(u, es, d, after);
        }
      case _ =>
        assert ls[1..] == after;
        PrimitiveReadsBack(u, v);
    }
  }

  lemma {:induction false} ObjectItemReadsBack(u: CharClasses, es: seq<Entry>, d: nat, after: seq<Line>)
    requires AgreesOnAscii(u) && es != [] && (forall i :: 0 <= i < |es| ==> Normal(es[i].value)) && NoDeeper(after, d)
    ensures ReadItem(ItemLines(u, Obj(es), d) + after, d) == (Obj(TidyEntries(es)), after)
    decreases es, 1
  {
    match es[0].value {
      case Obj(_) =>
        var ls := ItemLines(u, Obj(es), d) + after;
        assert ls[1..] == EntriesLines(u, es, d + 1) + after;
        EntriesReadBack(u, es, d + 1, after);
      case Arr(items) =>
        var more := EntriesLines(u, es[1..], d + 1) + after;
        EntriesStart(u, es[1..], d + 1, after);
        ArrayReadsBack(u, Some(KeyWord(u, es[0].key)), items, d + 1, more);
        EntriesReadBack(u, es[1..], d + 1, after);
        ArrayFirst(u, es, d, after);
      case _ =>
        EntriesReadBack(u, es[1..], d + 1, after);
        PrimitiveFirst(u, es, d, after);
    }
  }

  lemma ArrayFirst(u: CharClasses, es: seq<Entry>, d: nat, after: seq<Line>)
    requires AgreesOnAscii(u) && es != [] && es[0].value.Arr?
    requires var more := EntriesLines(u, es[1..], d + 1) + after;
             var items := es[0].value.items;
             && ReadEntries(more, d + 1) == (TidyEntries(es[1..]), after)
             && ReadArray(Head(u, Some(KeyWord(u, es[0].key)), items), BelowHead(u, items, d + 1) + more, d + 1)
                == (TidyItems(items), more)
    ensures ReadItem(ItemLines(u, Obj(es), d) + after, d) == (Obj(TidyEntries(es)), after)
  {
    var items := es[0].value.items;
    KeyReadsBack(u, es[0].key);
    var ls := ItemLines(u, Obj(es), d) + after;
    assert ls[0].body == Head(u, Some(KeyWord(u, es[0].key)), items);
    assert ls[1..] == BelowHead(u, items, d + 1) + (EntriesLines(u, es[1..], d + 1) + after);
  }

  lemma {:induction false} PrimitiveFirst(u: CharClasses, es: seq<Entry>, d: nat, after: seq<Line>)
    requires AgreesOnAscii(u) && es != [] && IsPrimitive(es[0].value) && Normal(es[0].value)
    requires ReadEntries(EntriesLines(u, es[1..], d + 1) + after, d + 1) == (TidyEntries(es[1..]), after)
    ensures ReadItem(ItemLines(u, Obj(es), d) + after, d) == (Obj(TidyEntries(es)), after)
  {
    KeyReadsBack(u, es[0].key);
    PrimitiveReadsBack(u, es[0].value);
    var ls := ItemLines(u, Obj(es), d) + after;
    assert ls[0].body == Field(KeyWord(u, es[0].key), WordOf(u, es[0].value));
    assert ls[1..] == EntriesLines(u, es[1..], d + 1) + after;
  }

  // ---- every line is well formed ----

  lemma {:induction false} HeadIsWellFormed(u: CharClasses, name: Option<Word>, items: seq<Value>, d: nat, dash: bool)
    requires AgreesOnAscii(u) && AllNormal(items) && (name.Some? ==> Plain(name.value))
    ensures WellFormed(Line(d, dash, Head(u, name, items)))
  {
    if AllPrimitive(items) {
      PrimitivesReadBack(u, items);
    } else if IsTable(items) {
      forall i | 0 <= i < |items[0].entries| ensures Plain(KeyWord(u, items[0].entries[i].key)) {
        KeyReadsBack(u, items[0].entries[i].key);
      }
    }
  }

  lemma {:induction false} RowsAreWellFormed(u: CharClasses, vs: seq<Value>, columns: seq<string>, d: nat)
    requires AgreesOnAscii(u) && columns != [] && AllNormal(vs) && forall i :: 0 <= i < |vs| ==> Flat(vs[i])
    ensures AllWellFormed(RowLines(u, vs, columns, d))
  {
    if vs != [] {
      CellsReadBack(u, vs[0], columns);
      assert WellFormed(RowLine(u, vs[0], columns, d));
      RowsAreWellFormed(u, vs[1..], columns, d);
    }
  }

  lemma {:induction false} ArrayIsWellFormed(u: CharClasses, name: Option<Word>, items: seq<Value>, d: nat, dash: bool)
    requires AgreesOnAscii(u) && AllNormal(items) && (name.Some? ==> Plain(name.value))
    ensures AllWellFormed(ArrayLines(u, name, items, d, dash))
    decreases items, 1
  {
    HeadIsWellFormed(u, name, items, d, dash);
    if !AllPrimitive(items) {
      if IsTable(items) {
        RowsAreWellFormed(u, items, Keys(items[0].entries), d + 1);
      } else {
        ItemsAreWellFormed(u, items, d + 1);
      }
    }
  }

  lemma {:induction false} ItemsAreWellFormed(u: CharClasses, vs: seq<Value>, d: nat)
    requires AgreesOnAscii(u) && AllNormal(vs)
    ensures AllWellFormed(ItemsLines(u, vs, d))
    decreases vs, 0
  {
    if vs != [] {
      ItemIsWellFormed(u, vs[0], d);
      ItemsAreWellFormed(u, vs[1..], d);
    }
  }

  lemma {:induction false} ItemIsWellFormed(u: CharClasses, v: Value, d: nat)
    requires AgreesOnAscii(u) && Normal(v)
    ensures AllWellFormed(ItemLines(u, v, d))
    decreases v, 0
  {
    match v {
      case Arr(items) => ArrayIsWellFormed(u, None, items, d, true);
      case Obj(es) =>
        if es != [] {
          KeyReadsBack(u, es[0].key);
          match es[0].value {
            case Obj(_) =>
              EntriesAreWellFormed(u, es, d + 1);
            case Arr(items) =>
              assert Normal(es[0].value);
              ArrayIsWellFormed(u, Some(KeyWord(u, es[0].key)), items, d, true);
              EntriesAreWellFormed(u, es[1..], d + 1);
            case w =>
              PrimitiveReadsBack(u, w);
              EntriesAreWellFormed(u, es[1..], d + 1);
          }
        }
      case _ => PrimitiveReadsBack(u, v);
    }
  }

  lemma {:induction false} EntriesAreWellFormed(u: CharClasses, es: seq<Entry>, d: nat)
    requires AgreesOnAscii(u) && forall i :: 0 <= i < |es| ==> Normal(es[i].value)
    ensures AllWellFormed(EntriesLines(u, es, d))
    decreases es, 0
  {
    if es != [] {
      EntryIsWellFormed(u, es[0], d);
      EntriesAreWellFormed(u, es[1..], d);
    }
  }

  lemma {:induction false} EntryIsWellFormed(u: CharClasses, e: Entry, d: nat)
    requires AgreesOnAscii(u) && Normal(e.value)
    ensures AllWellFormed(EntryLines(u, e, d))
    decreases e, 0
  {
    KeyReadsBack(u, e.key);
    match e.value {
      case Obj(es) => EntriesAreWellFormed(u, es, d + 1);
      case Arr(items) => ArrayIsWellFormed(u, Some(KeyWord(u, e.key)), items, d, false);
      case v => PrimitiveReadsBack(u, v);
    }
  }

  lemma {:induction false} DocumentIsWellFormed(u: CharClasses, v: Value)
    requires AgreesOnAscii(u) && Normal(v)
    ensures AllWellFormed(DocumentLines(u, v))
  {
    match v {
      case Obj(es) => EntriesAreWellFormed(u, es, 0);
      case Arr(items) => ArrayIsWellFormed(u, None, items, 0, false);
      case _ => PrimitiveReadsBack(u, v);
    }
  }

  // ---- the main theorem ----

  /** The text of a value's document. */
  ghost function Document(u: CharClasses, v: Value): string
    requires AgreesOnAscii(u) && Normal(v)
  {
    DocumentIsWellFormed(u, v);
    Joined(Texts(DocumentLines(u, v)))
  }

  lemma LinesReadBack(u: CharClasses, v: Value)
    requires AgreesOnAscii(u) && Normal(v)
    ensures ReadDocument(DocumentLines(u, v)) == Tidy(v)
  {
    match v {
      case Obj(es) => ObjectReadsBack(u, es);
      case Arr(items) =>
        ArrayReadsBack(u, None, items, 1, []);
        assert BelowHead(u, items, 1) + [] == DocumentLines(u, v)[1..];
      case _ => PrimitiveReadsBack(u, v);
    }
  }

  lemma ObjectReadsBack(u: CharClasses, es: seq<Entry>)
    requires AgreesOnAscii(u) && forall i :: 0 <= i < |es| ==> Normal(es[i].value)
    ensures ReadDocument(EntriesLines(u, es, 0)) == Obj(TidyEntries(es))
  {
    var ls := EntriesLines(u, es, 0);
    if es != [] {
      EntriesReadBack(u, es, 0, []);
      assert ls + [] == ls;
      assert ls[0] == EntryLines(u, es[0], 0)[0];
    }
  }

  /** Printing is invertible: every value reads back from its document, the rows of its tables tidied. */
  lemma DocumentDecodes(u: CharClasses, v: Value)
    requires AgreesOnAscii(u) && Normal(v)
    ensures Decode(Document(u, v)) == Tidy(v)
  {
    DocumentIsWellFormed(u, v);
    DocumentReadsBack(DocumentLines(u, v));
    LinesReadBack(u, v);
  }

  // ---- tidying only reorders rows ----

  /** The same entries, each once, in some order. */
  ghost predicate Rearranged(es: seq<Entry>, es': seq<Entry>) {
    |es| == |es'| && UniqueKeys(es) && UniqueKeys(es') && forall e :: e in es <==> e in es'
  }

  /** Equal values, but for the order of the entries in the rows of a table. */
  ghost predicate Alike(v: Value, w: Value)
    decreases v
  {
    match v
    case Arr(items) =>
      && w.Arr? && |w.items| == |items|
      && if IsTable(items) then forall i :: 0 <= i < |items| ==>
           w.items[i].Obj? && Rearranged(items[i].entries, w.items[i].entries)
         else forall i :: 0 <= i < |items| ==> Alike(items[i], w.items[i])
    case Obj(es) =>
      && w.Obj? && |w.entries| == |es|
      && forall i :: 0 <= i < |es| ==> w.entries[i].key == es[i].key && Alike(es[i].value, w.entries[i].value)
    case _ => v == w
  }

  lemma {:induction false} LookupFinds(es: seq<Entry>, i: nat)
    requires UniqueKeys(es) && i < |es|
    ensures Lookup(es, es[i].key) == es[i].value
  {
    if i > 0 {
      assert es[0].key != es[i].key;
      assert es[1..][i - 1] == es[i];
      LookupFinds(es[1..], i - 1);
    }
  }

  /** A set of as many keys as there are entries, when no key repeats. */
  lemma {:induction false} KeySetSize(es: seq<Entry>)
    requires UniqueKeys(es)
    ensures |KeySet(es)| == |es|
  {
    if es != [] {
      var front := es[..|es| - 1];
      KeySetSize(front);
      OneMoreKey(es);
    }
  }

  lemma OneMoreKey(es: seq<Entry>)
    requires UniqueKeys(es) && es != []
    ensures var front, last := es[..|es| - 1], es[|es| - 1];
            last.key !in KeySet(front) && KeySet(es) == KeySet(front) + {last.key}
  {
    var front, last := es[..|es| - 1], es[|es| - 1];
    forall k ensures k in KeySet(es) <==> k in KeySet(front) || k == last.key {
      if k in KeySet(es) && k != last.key {
        var i :| 0 <= i < |es| && es[i].key == k;
        assert front[i].key == k;
      }
      if k in KeySet(front) {
        var i :| 0 <= i < |front| && front[i].key == k;
        assert es[i].key == k;
      }
      if k == last.key { assert es[|es| - 1].key == k; }
    }
  }

  lemma RowIsRearranged(es: seq<Entry>, first: seq<Entry>)
    requires UniqueKeys(es) && UniqueKeys(first) && KeySet(es) == KeySet(first)
    ensures Rearranged(es, InOrder(es, Keys(first)))
  {
    var row := InOrder(es, Keys(first));
    KeySetSize(es);
    KeySetSize(first);
    forall e | e in es ensures e in row {
      var i :| 0 <= i < |es| && es[i] == e;
      LookupFinds(es, i);
      assert e.key in KeySet(first);
      var j :| 0 <= j < |first| && first[j].key == e.key;
      assert row[j] == e;
    }
    forall e | e in row ensures e in es {
      var j :| 0 <= j < |row| && row[j] == e;
      assert first[j].key in KeySet(es);
      var i :| 0 <= i < |es| && es[i].key == first[j].key;
      LookupFinds(es, i);
    }
  }

  lemma {:induction false} TidyEachAt(vs: seq<Value>, i: nat)
    requires i < |vs|
    ensures |TidyEach(vs)| == |vs| && TidyEach(vs)[i] == Tidy(vs[i])
  {
    if i > 0 { TidyEachAt(vs[1..], i - 1); } else if |vs| > 1 { TidyEachAt(vs[1..], 0); }
  }

  lemma {:induction false} TidyEntriesAt(es: seq<Entry>, i: nat)
    requires i < |es|
    ensures |TidyEntries(es)| == |es| && TidyEntries(es)[i] == Entry(es[i].key, Tidy(es[i].value))
  {
    if i > 0 { TidyEntriesAt(es[1..], i - 1); } else if |es| > 1 { TidyEntriesAt(es[1..], 0); }
  }

  /** What reads back is the value, but for the order of the entries in the rows of its tables. */
  lemma {:induction false} TidyIsAlike(v: Value)
    requires Normal(v)
    ensures Alike(v, Tidy(v))
    decreases v
  {
    match v {
      case Arr(items) =>
        if IsTable(items) {
          forall i | 0 <= i < |items| ensures Rearranged(items[i].entries, TidyItems(items)[i].entries) {
            assert Normal(items[i]) && Normal(items[0]) && Flat(items[i]) && Flat(items[0]);
            assert NormalEntries(items[0].entries) && NormalEntries(items[i].entries);
            RowIsRearranged(items[i].entries, items[0].entries);
          }
        } else {
          forall i | 0 <= i < |items| ensures |TidyEach(items)| == |items| && Alike(items[i], TidyEach(items)[i]) {
            TidyEachAt(items, i);
            TidyIsAlike(items[i]);
          }
        }
      case Obj(es) =>
        forall i | 0 <= i < |es|
          ensures |TidyEntries(es)| == |es| && TidyEntries(es)[i].key == es[i].key
          ensures Alike(es[i].value, TidyEntries(es)[i].value)
        {
          TidyEntriesAt(es, i);
          TidyIsAlike(es[i].value);
        }
      case _ =>
    }
  }

  /** So two values with one document are the same, up to the order of the entries in their tables' rows. */
  lemma {:induction false} SameDocumentSameValue(u: CharClasses, v: Value, w: Value)
    requires AgreesOnAscii(u) && Normal(v) && Normal(w) && Document(u, v) == Document(u, w)
    ensures Tidy(v) == Tidy(w) && Alike(v, Tidy(w)) && Alike(w, Tidy(v))
  {
    DocumentDecodes(u, v);
    DocumentDecodes(u, w);
    TidyIsAlike(v);
    TidyIsAlike(w);
  }
}
