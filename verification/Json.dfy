/** JSON values, what normalising them folds together, and printing one as a document. */
module Json {
  import opened Prelude
  import opened ToonWords
  import opened Toon
  import opened ToonDecode
  import opened ToonPrint

  datatype Field = Field(key: string, value: Json)

  /** A JSON value; a finite float is its shortest decimal text, an integer any that 64 bits hold. */
  datatype Json =
    | JNull
    | JBool(on: bool)
    | JStr(text: string)
    | JInt(n: int)
    | JFloat(shown: string)
    | JArr(items: seq<Json>)
    | JObj(fields: seq<Field>)

  const MaxSafe: int := 9_007_199_254_740_991

  /** Integers that a reader who holds numbers as doubles gets exactly. */
  predicate IsSafe(n: int) {
    -MaxSafe <= n <= MaxSafe
  }

  predicate FieldKeysUnique(fs: seq<Field>) {
    forall i, j :: 0 <= i < j < |fs| ==> fs[i].key != fs[j].key
  }

  ghost predicate WellFormed(j: Json) {
    match j
    case JInt(n) => -0x8000_0000_0000_0000 <= n < 0x1_0000_0000_0000_0000
    case JFloat(shown) => IsNumber(shown)
    case JArr(items) => forall i :: 0 <= i < |items| ==> WellFormed(items[i])
    case JObj(fs) => FieldKeysUnique(fs) && forall i :: 0 <= i < |fs| ==> WellFormed(fs[i].value)
    case _ => true
  }

  // ---- integers as text ----

  function Literal(n: int): string {
    if n < 0 then ['-'] + Decimal(-n) else Decimal(n)
  }

  function ReadLiteral(s: string): int {
    var size: int := ReadCount(if s != "" && s[0] == '-' then s[1..] else s, 0).0;
    if s != "" && s[0] == '-' then -size else size
  }

  lemma {:induction false} DecimalIsDigits(n: nat)
    ensures Decimal(n) != "" && DigitRun(Decimal(n), 0, |Decimal(n)|)
  {
    if n >= 10 { DecimalIsDigits(n / 10); }
  }

  /** An integer's text gives the integer back. */
  lemma LiteralReadsBack(n: int)
    ensures ReadLiteral(Literal(n)) == n
  {
    var size := if n < 0 then -n else n;
    DecimalIsDigits(size);
    CountReadsOn(size, "");
    assert Decimal(size) + "" == Decimal(size);
    if n < 0 { assert Literal(n)[1..] == Decimal(size); }
  }

  lemma LiteralIsNumber(n: int)
    ensures IsNumber(Literal(n)) && Carriable(Literal(n))
  {
    var size, from := if n < 0 then -n else n, if n < 0 then 1 else 0;
    DecimalIsDigits(size);
    var s := Literal(n);
    assert DigitRun(s, from, |s|) && IsFraction(s, |s|);
  }

  // ---- normalising ----

  predicate IsZero(shown: string) {
    shown == "0" || shown == "-0"
  }

  /** A float's literal: negative zero is folded to zero. */
  function Folded(shown: string): string {
    if IsZero(shown) then "0" else shown
  }

  /** The value that is printed: integers out of the safe range become strings. */
  function Normalized(j: Json): Value {
    match j
    case JNull => Null
    case JBool(on) => Flag(on)
    case JStr(s) => Str(s)
    case JInt(n) => if IsSafe(n) then Num(Literal(n)) else Str(Literal(n))
    case JFloat(shown) => Num(Folded(shown))
    case JArr(items) => Arr(seq(|items|, i requires 0 <= i < |items| => Normalized(items[i])))
    case JObj(fs) => Obj(seq(|fs|, i requires 0 <= i < |fs| => Entry(fs[i].key, Normalized(fs[i].value))))
  }

  /** Every string and every key of the value can be printed. */
  predicate Printable(j: Json) {
    match j
    case JStr(s) => Carriable(s)
    case JArr(items) => forall i :: 0 <= i < |items| ==> Printable(items[i])
    case JObj(fs) => forall i :: 0 <= i < |fs| ==> Carriable(fs[i].key) && Printable(fs[i].value)
    case _ => true
  }

  lemma ZeroIsNumber()
    ensures IsNumber("0")
  {
    assert DigitRun("0", 0, 1) && IsFraction("0", 1);
  }

  /** Normalising gives a value the printer takes, and one it can print exactly when the original can be. */
  lemma {:induction false} NormalizedIsNormal(j: Json)
    requires WellFormed(j)
    ensures Normal(Normalized(j)) && (Carried(Normalized(j)) <==> Printable(j))
    decreases j
  {
    match j {
      case JInt(n) => LiteralIsNumber(n);
      case JFloat(shown) => ZeroIsNumber();
      case JArr(items) =>
        forall i | 0 <= i < |items|
          ensures Normal(Normalized(items[i])) && (Carried(Normalized(items[i])) <==> Printable(items[i]))
        {
          NormalizedIsNormal(items[i]);
        }
        var vs := Normalized(j).items;
        assert forall i :: 0 <= i < |items| ==>
                 vs[i] == Normalized(items[i]) && (Carried(vs[i]) <==> Printable(items[i]));
        assert forall i :: 0 <= i < |items| ==> (Printable(items[i]) <==> Carried(vs[i]));
      case JObj(fs) =>
        forall i | 0 <= i < |fs|
          ensures Normal(Normalized(fs[i].value)) && (Carried(Normalized(fs[i].value)) <==> Printable(fs[i].value))
        {
          NormalizedIsNormal(fs[i].value);
        }
        var es := Normalized(j).entries;
        assert |es| == |fs| && forall i :: 0 <= i < |fs| ==> es[i] == Entry(fs[i].key, Normalized(fs[i].value));
        assert forall i :: 0 <= i < |fs| ==> (Printable(fs[i].value) <==> Carried(es[i].value));
      case _ =>
    }
  }

  // ---- what a reader sees ----

  /**
   * The value shows what the JSON value says: the same null, truth value or string, the number of an
   * integer as a numeral or, out of the safe range, as a string, a float's own text with zero unsigned,
   * and the members of an array or object one by one in their order.
   */
  ghost predicate Shows(j: Json, v: Value)
    decreases j
  {
    match j
    case JNull => v == Null
    case JBool(on) => v == Flag(on)
    case JStr(s) => v == Str(s)
    case JInt(n) =>
      if -9_007_199_254_740_991 <= n <= 9_007_199_254_740_991 then v.Num? && IsNumeral(v.literal, n)
      else v.Str? && IsNumeral(v.text, n)
    case JFloat(shown) => v == Num(if shown == "-0" then "0" else shown)
    case JArr(items) => v.Arr? && |v.items| == |items| && forall i :: 0 <= i < |items| ==> Shows(items[i], v.items[i])
    case JObj(fs) =>
      && v.Obj? && |v.entries| == |fs|
      && forall i :: 0 <= i < |fs| ==> v.entries[i].key == fs[i].key && Shows(fs[i].value, v.entries[i].value)
  }

  /** The text stands for the integer, with no digit to spare. */
  ghost predicate IsNumeral(s: string, n: int) {
    && ReadLiteral(s) == n && (n < 0 <==> s != "" && s[0] == '-')
    && !HasLeadingZero(if n < 0 then s[1..] else s)
  }

  lemma {:induction false} DecimalStart(n: nat)
    ensures Decimal(n) != "" && IsDigit(Decimal(n)[0]) && (n > 0 ==> Decimal(n)[0] != '0')
            && (n == 0 ==> |Decimal(n)| == 1)
  {
    if n >= 10 { DecimalStart(n / 10); }
  }

  lemma {:induction false} LiteralIsNumeral(n: int)
    ensures IsNumeral(Literal(n), n)
  {
    LiteralReadsBack(n);
    DecimalStart(if n < 0 then -n else n);
  }

  lemma IntShows(n: int)
    ensures Shows(JInt(n), Normalized(JInt(n)))
  {
    LiteralIsNumeral(n);
  }

  /** The normalised value shows the JSON value. */
  lemma {:induction false} NormalizedShows(j: Json)
    ensures Shows(j, Normalized(j))
    decreases j
  {
    match j {
      case JInt(n) => IntShows(n);
      case JArr(items) =>
        forall i | 0 <= i < |items| ensures Shows(items[i], Normalized(j).items[i]) { NormalizedShows(items[i]); }
      case JObj(fs) =>
        forall i | 0 <= i < |fs| ensures Shows(fs[i].value, Normalized(j).entries[i].value) {
          NormalizedShows(fs[i].value);
        }
      case _ =>
    }
  }

  // ---- what normalising folds together ----

  /**
   * Two values that mean the same to a reader of the document: equal, but that a safe integer is also
   * the float with its text, an unsafe one is also the string of its digits, and zero has no sign.
   */
  ghost predicate Same(a: Json, b: Json) {
    match a
    case JArr(xs) => b.JArr? && |xs| == |b.items| && forall i :: 0 <= i < |xs| ==> Same(xs[i], b.items[i])
    case JObj(xs) =>
      && b.JObj? && |xs| == |b.fields|
      && forall i :: 0 <= i < |xs| ==> xs[i].key == b.fields[i].key && Same(xs[i].value, b.fields[i].value)
    case JInt(n) =>
      || a == b
      || (IsSafe(n) && b.JFloat? && Folded(b.shown) == Literal(n))
      || (!IsSafe(n) && b.JStr? && b.text == Literal(n))
    case JFloat(s) =>
      || a == b
      || (b.JFloat? && IsZero(s) && IsZero(b.shown))
      || (b.JInt? && IsSafe(b.n) && Folded(s) == Literal(b.n))
    case JStr(s) => a == b || (b.JInt? && !IsSafe(b.n) && s == Literal(b.n))
    case _ => a == b
  }

  /** Exactly what normalising loses. */
  lemma {:induction false} NormalizedSameIff(a: Json, b: Json)
    requires WellFormed(a) && WellFormed(b)
    ensures Normalized(a) == Normalized(b) <==> Same(a, b)
    decreases a
  {
    match a {
      case JArr(xs) =>
        if b.JArr? && |xs| == |b.items| {
          forall i | 0 <= i < |xs| ensures Normalized(xs[i]) == Normalized(b.items[i]) <==> Same(xs[i], b.items[i]) {
            NormalizedSameIff(xs[i], b.items[i]);
          }
          SameItems(xs, b.items);
        }
      case JObj(xs) =>
        if b.JObj? && |xs| == |b.fields| {
          forall i | 0 <= i < |xs|
            ensures Normalized(xs[i].value) == Normalized(b.fields[i].value) <==> Same(xs[i].value, b.fields[i].value)
          {
            NormalizedSameIff(xs[i].value, b.fields[i].value);
          }
          SameFields(xs, b.fields);
        }
      case JInt(n) =>
        LiteralReadsBack(n);
        if b.JInt? { LiteralReadsBack(b.n); }
      case _ =>
    }
  }

  lemma SameItems(xs: seq<Json>, ys: seq<Json>)
    requires |xs| == |ys|
    ensures Normalized(JArr(xs)) == Normalized(JArr(ys))
            <==> forall i :: 0 <= i < |xs| ==> Normalized(xs[i]) == Normalized(ys[i])
  {
    var a, b := Normalized(JArr(xs)).items, Normalized(JArr(ys)).items;
    assert forall i :: 0 <= i < |xs| ==> a[i] == Normalized(xs[i]) && b[i] == Normalized(ys[i]);
  }

  lemma SameFields(xs: seq<Field>, ys: seq<Field>)
    requires |xs| == |ys|
    ensures Normalized(JObj(xs)) == Normalized(JObj(ys))
            <==> forall i :: 0 <= i < |xs| ==>
                   xs[i].key == ys[i].key && Normalized(xs[i].value) == Normalized(ys[i].value)
  {
    var a, b := Normalized(JObj(xs)).entries, Normalized(JObj(ys)).entries;
    assert forall i :: 0 <= i < |xs| ==>
             a[i] == Entry(xs[i].key, Normalized(xs[i].value)) && b[i] == Entry(ys[i].key, Normalized(ys[i].value));
  }

  // ---- printing ----

  ghost function DocumentOf(u: CharClasses, j: Json): string
    requires AgreesOnAscii(u) && WellFormed(j)
  {
    NormalizedIsNormal(j);
    Document(u, Normalized(j))
  }

  /**
   * Prints a JSON value, or fails exactly when some key or string of it holds an unsupported control
   * character. What it prints decodes to the normalised value, but for the order of the entries in the
   * rows of its tables.
   */
  method MarshalToon(u: CharClasses, j: Json) returns (r: Option<string>)
    requires AgreesOnAscii(u) && WellFormed(j)
    ensures r.Some? <==> Printable(j)
    ensures r.Some? ==> r.value == DocumentOf(u, j) && Decode(r.value) == Tidy(Normalized(j))
    ensures r.Some? ==> exists v :: Shows(j, v) && Alike(v, Decode(r.value))
  {
    NormalizedIsNormal(j);
    NormalizedShows(j);
    r := PrintDocument(u, Normalized(j));
  }

  /** One document is printed only for values that are the same, up to the order of entries in table rows. */
  lemma {:induction false} SameDocumentSameJson(u: CharClasses, a: Json, b: Json)
    requires AgreesOnAscii(u) && WellFormed(a) && WellFormed(b)
    ensures Same(a, b) ==> DocumentOf(u, a) == DocumentOf(u, b)
    ensures DocumentOf(u, a) == DocumentOf(u, b) ==> Tidy(Normalized(a)) == Tidy(Normalized(b))
  {
    NormalizedIsNormal(a);
    NormalizedIsNormal(b);
    NormalizedSameIff(a, b);
    if DocumentOf(u, a) == DocumentOf(u, b) {
      SameDocumentSameValue(u, Normalized(a), Normalized(b));
    }
  }
}
