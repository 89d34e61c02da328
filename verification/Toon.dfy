/** Values, the document that stands for one, and the proof that a decoder reads it back. */
module Toon {
  import opened Prelude
  import opened ToonWords
  import opened ToonLines

  datatype Entry = Entry(key: string, value: Value)

  datatype Value =
    | Null
    | Flag(on: bool)
    | Str(text: string)
    | Num(literal: string)
    | Arr(items: seq<Value>)
    | Obj(entries: seq<Entry>)

  predicate IsPrimitive(v: Value) {
    !v.Arr? && !v.Obj?
  }

  predicate AllPrimitive(vs: seq<Value>) {
    forall i :: 0 <= i < |vs| ==> IsPrimitive(vs[i])
  }

  /** The first entry under a key, or null. */
  function Lookup(es: seq<Entry>, key: string): Value {
    if es == [] then Null else if es[0].key == key then es[0].value else Lookup(es[1..], key)
  }

  function Keys(es: seq<Entry>): seq<string> {
    seq(|es|, i requires 0 <= i < |es| => es[i].key)
  }

  predicate UniqueKeys(es: seq<Entry>) {
    forall i, j :: 0 <= i < j < |es| ==> es[i].key != es[j].key
  }

  /** Normalised: keys are unique in every object and numbers are decimal literals. */
  ghost predicate Normal(v: Value) {
    match v
    case Num(l) => IsNumber(l)
    case Arr(items) => forall i :: 0 <= i < |items| ==> Normal(items[i])
    case Obj(es) => NormalEntries(es)
    case _ => true
  }

  ghost predicate NormalEntries(es: seq<Entry>) {
    UniqueKeys(es) && forall i :: 0 <= i < |es| ==> Normal(es[i].value)
  }

  ghost predicate AllNormal(vs: seq<Value>) {
    forall i :: 0 <= i < |vs| ==> Normal(vs[i])
  }

  // ---- tables ----

  ghost function KeySet(es: seq<Entry>): set<string> {
    set i | 0 <= i < |es| :: es[i].key
  }

  predicate Flat(v: Value) {
    v.Obj? && forall i :: 0 <= i < |v.entries| ==> IsPrimitive(v.entries[i].value)
  }

  /** A uniform array of flat objects: one key set, not empty, and primitive values only. */
  ghost predicate IsTable(vs: seq<Value>) {
    && vs != [] && vs[0].Obj? && vs[0].entries != []
    && forall i :: 0 <= i < |vs| ==> Flat(vs[i]) && KeySet(vs[i].entries) == KeySet(vs[0].entries)
  }

  /** The row's values in the order of the columns. */
  function InOrder(es: seq<Entry>, columns: seq<string>): (r: seq<Entry>)
    ensures |r| == |columns|
  {
    seq(|columns|, i requires 0 <= i < |columns| => Entry(columns[i], Lookup(es, columns[i])))
  }

  /** The same value, with the rows of every table put in the order of its first row. */
  ghost function Tidy(v: Value): Value {
    match v
    case Arr(items) => Arr(TidyItems(items))
    case Obj(es) => Obj(TidyEntries(es))
    case _ => v
  }

  ghost function TidyItems(vs: seq<Value>): seq<Value>
    decreases vs, 1
  {
    if IsTable(vs) then seq(|vs|, i requires 0 <= i < |vs| => Obj(InOrder(vs[i].entries, Keys(vs[0].entries))))
    else TidyEach(vs)
  }

  ghost function TidyEach(vs: seq<Value>): seq<Value>
    decreases vs, 0
  {
    if vs == [] then [] else [Tidy(vs[0])] + TidyEach(vs[1..])
  }

  ghost function TidyEntries(es: seq<Entry>): seq<Entry> {
    if es == [] then [] else [Entry(es[0].key, Tidy(es[0].value))] + TidyEntries(es[1..])
  }

  // ---- the lines of a value ----

  ghost function WordOf(u: CharClasses, v: Value): Word
    requires IsPrimitive(v)
  {
    match v
    case Null => Bare("null")
    case Flag(on) => Bare(if on then "true" else "false")
    case Num(l) => Bare(l)
    case Str(s) => if NeedsQuoting(u, s) then Quoted(s) else Bare(s)
  }

  function KeyWord(u: CharClasses, key: string): Word {
    if IsBareKey(u, key) then Bare(key) else Quoted(key)
  }

  ghost function WordsOf(u: CharClasses, vs: seq<Value>): (r: seq<Word>)
    requires AllPrimitive(vs)
    ensures |r| == |vs|
  {
    seq(|vs|, i requires 0 <= i < |vs| => WordOf(u, vs[i]))
  }

  function KeyWords(u: CharClasses, keys: seq<string>): (r: seq<Word>)
    ensures |r| == |keys|
  {
    seq(|keys|, i requires 0 <= i < |keys| => KeyWord(u, keys[i]))
  }

  function Cells(es: seq<Entry>, columns: seq<string>): (r: seq<Value>)
    ensures |r| == |columns|
  {
    seq(|columns|, i requires 0 <= i < |columns| => Lookup(es, columns[i]))
  }

  lemma {:induction false} LookupIsPrimitive(es: seq<Entry>, key: string)
    requires Flat(Obj(es))
    ensures IsPrimitive(Lookup(es, key))
  {
    if es != [] && es[0].key != key {
      assert forall i :: 0 <= i < |es[1..]| ==> es[1..][i] == es[i + 1];
      LookupIsPrimitive(es[1..], key);
    }
  }

  lemma CellsArePrimitive(es: seq<Entry>, columns: seq<string>)
    requires Flat(Obj(es))
    ensures AllPrimitive(Cells(es, columns))
  {
    forall i | 0 <= i < |columns| ensures IsPrimitive(Cells(es, columns)[i]) {
      LookupIsPrimitive(es, columns[i]);
    }
  }

  ghost function RowLine(u: CharClasses, v: Value, columns: seq<string>, d: nat): Line
    requires Flat(v)
  {
    CellsArePrimitive(v.entries, columns);
    Line(d, false, Values(WordsOf(u, Cells(v.entries, columns))))
  }

  ghost function RowLines(u: CharClasses, vs: seq<Value>, columns: seq<string>, d: nat): seq<Line>
    requires forall i :: 0 <= i < |vs| ==> Flat(vs[i])
  {
    if vs == [] then [] else [RowLine(u, vs[0], columns, d)] + RowLines(u, vs[1..], columns, d)
  }

  ghost function EntriesLines(u: CharClasses, es: seq<Entry>, d: nat): seq<Line>
    decreases es, 0
  {
    if es == [] then [] else EntryLines(u, es[0], d) + EntriesLines(u, es[1..], d)
  }

  ghost function EntryLines(u: CharClasses, e: Entry, d: nat): (r: seq<Line>)
    ensures r != [] && r[0].depth == d && !r[0].dash
    decreases e, 0
  {
    match e.value
    case Obj(es) => [Line(d, false, Opening(KeyWord(u, e.key)))] + EntriesLines(u, es, d + 1)
    case Arr(items) => ArrayLines(u, Some(KeyWord(u, e.key)), items, d, false)
    case _ => [Line(d, false, Field(KeyWord(u, e.key), WordOf(u, e.value)))]
  }

  /** What an array says on its first line: all of it, the columns of a table, or only how many items follow. */
  ghost function Head(u: CharClasses, name: Option<Word>, items: seq<Value>): Body {
    if AllPrimitive(items) then Header(name, |items|, None, WordsOf(u, items))
    else if IsTable(items) then Header(name, |items|, Some(KeyWords(u, Keys(items[0].entries))), [])
    else Header(name, |items|, None, [])
  }

  ghost function ArrayLines(u: CharClasses, name: Option<Word>, items: seq<Value>, d: nat, dash: bool): (r: seq<Line>)
    ensures |r| > 0 && r[0] == Line(d, dash, Head(u, name, items)) && r[1..] == BelowHead(u, items, d + 1)
    decreases items, 2
  {
    [Line(d, dash, Head(u, name, items))] + BelowHead(u, items, d + 1)
  }

  ghost function BelowHead(u: CharClasses, items: seq<Value>, d: nat): seq<Line>
    decreases items, 1
  {
    if AllPrimitive(items) then []
    else if IsTable(items) then RowLines(u, items, Keys(items[0].entries), d)
    else ItemsLines(u, items, d)
  }

  ghost function ItemsLines(u: CharClasses, items: seq<Value>, d: nat): seq<Line>
    decreases items, 0
  {
    if items == [] then [] else ItemLines(u, items[0], d) + ItemsLines(u, items[1..], d)
  }

  ghost function ItemLines(u: CharClasses, v: Value, d: nat): (r: seq<Line>)
    ensures r != [] && r[0].depth == d && r[0].dash
    decreases v, 0
  {
    match v
    case Arr(items) => ArrayLines(u, None, items, d, true)
    case Obj(es) =>
      if es == [] then [Line(d, true, EmptyObject)]
      else
        (match es[0].value
         case Obj(_) => [Line(d, true, Nothing)] + EntriesLines(u, es, d + 1)
         case Arr(items) => ArrayLines(u, Some(KeyWord(u, es[0].key)), items, d, true) + EntriesLines(u, es[1..], d + 1)
         case w => [Line(d, true, Field(KeyWord(u, es[0].key), WordOf(u, w)))] + EntriesLines(u, es[1..], d + 1))
    case _ => [Line(d, true, Values([WordOf(u, v)]))]
  }

  ghost function DocumentLines(u: CharClasses, v: Value): seq<Line> {
    match v
    case Obj(es) => EntriesLines(u, es, 0)
    case Arr(items) => ArrayLines(u, None, items, 0, false)
    case _ => [Line(0, false, Values([WordOf(u, v)]))]
  }
}
