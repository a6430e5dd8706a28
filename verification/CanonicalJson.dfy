/**
 The canonical form by which the trace viewer compares messages: every `cache_control` field is removed at
 any depth, then the value is printed as JSON with sorted keys (json.dumps with ensure_ascii=False).
 */
module CanonicalJson {

  /** A parsed JSON value.  A dictionary keeps its insertion order; a number is the token it is printed as. */
  datatype Json =
    | Null
    | Bool(b: bool)
    | Number(token: string)
    | Str(text: string)
    | List(items: seq<Json>)
    | Dict(fields: seq<Field>)

  datatype Field = Field(key: string, value: Json)

  const TRANSIENT := "cache_control"

  // ---------------------------------------------------------------- the code

  /** `strip_transient_fields` */
  function Strip(j: Json): Json {
    match j
    case List(items) => List(StripItems(items))
    case Dict(fields) => Dict(StripFields(fields))
    case _ => j
  }

  function StripItems(items: seq<Json>): seq<Json> {
    if items == [] then [] else [Strip(items[0])] + StripItems(items[1..])
  }

  function StripFields(fields: seq<Field>): seq<Field> {
    if fields == [] then []
    else if fields[0].key == TRANSIENT then StripFields(fields[1..])
    else [Field(fields[0].key, Strip(fields[0].value))] + StripFields(fields[1..])
  }

  /** Code point order, as Python compares strings. */
  predicate Before(s: string, t: string) {
    t != [] && (s == [] || s[0] < t[0] || (s[0] == t[0] && Before(s[1..], t[1..])))
  }

  function Insert(f: Field, sorted: seq<Field>): seq<Field> {
    if sorted == [] || Before(f.key, sorted[0].key) then [f] + sorted
    else [sorted[0]] + Insert(f, sorted[1..])
  }

  /** sort_keys=True, at every depth. */
  function SortKeys(j: Json): Json {
    match j
    case List(items) => List(SortItems(items))
    case Dict(fields) => Dict(SortFields(fields))
    case _ => j
  }

  function SortItems(items: seq<Json>): seq<Json> {
    if items == [] then [] else [SortKeys(items[0])] + SortItems(items[1..])
  }

  function SortFields(fields: seq<Field>): seq<Field> {
    if fields == [] then []
    else Insert(Field(fields[0].key, SortKeys(fields[0].value)), SortFields(fields[1..]))
  }

  function HexDigit(n: nat): char
    requires n < 16
  {
    "0123456789abcdef"[n]
  }

  /** The escapes of section 7 of RFC 8259 that the printer uses; everything else is printed as it is. */
  function Escape(c: char): string {
    if c == '\"' then ['\\', '\"']
    else if c == '\\' then ['\\', '\\']
    else if c == '\n' then ['\\', 'n']
    else if c == '\r' then ['\\', 'r']
    else if c == '\t' then ['\\', 't']
    else if c as int == 12 then ['\\', 'f']
    else if c as int == 8 then ['\\', 'b']
    else if c as int < 32 then ['\\', 'u', '0', '0', HexDigit(c as int / 16), HexDigit(c as int % 16)]
    else [c]
  }

  /** The printer, written as the text of each piece followed by the rest of the document. */
  function Quoted(s: string, rest: string): string {
    ['\"'] + QuoteEnd(s, rest)
  }

  function QuoteEnd(s: string, rest: string): string {
    if s == [] then ['\"'] + rest else Escape(s[0]) + QuoteEnd(s[1..], rest)
  }

  function Printed(j: Json, rest: string): string {
    match j
    case Null => "null" + rest
    case Bool(b) => (if b then "true" else "false") + rest
    case Number(token) => token + rest
    case Str(text) => Quoted(text, rest)
    case List(items) =>
      ['['] + if items == [] then [']'] + rest else Printed(items[0], PrintedItems(items[1..], rest))
    case Dict(fields) =>
      ['{'] + if fields == [] then ['}'] + rest else PrintedField(fields[0], PrintedFields(fields[1..], rest))
  }

  /** The elements of a list after its first. */
  function PrintedItems(items: seq<Json>, rest: string): string {
    if items == [] then [']'] + rest else ", " + Printed(items[0], PrintedItems(items[1..], rest))
  }

  function PrintedField(f: Field, rest: string): string {
    Quoted(f.key, ": " + Printed(f.value, rest))
  }

  /** The fields of a dictionary after its first. */
  function PrintedFields(fields: seq<Field>, rest: string): string {
    if fields == [] then ['}'] + rest else ", " + PrintedField(fields[0], PrintedFields(fields[1..], rest))
  }

  /** `canonical_message` */
  function Canonical(j: Json): string {
    Printed(SortKeys(Strip(j)), "")
  }

  // ---------------------------------------------------------------- what a message means

  /** A JSON value up to the order of dictionary fields. */
  datatype Tree =
    | NullTree
    | BoolTree(b: bool)
    | NumberTree(token: string)
    | StrTree(text: string)
    | ListTree(items: seq<Tree>)
    | DictTree(fields: map<string, Tree>)

  /** The tree of a value without its `cache_control` fields. */
  function Meaning(j: Json): Tree {
    match j
    case Null => NullTree
    case Bool(b) => BoolTree(b)
    case Number(token) => NumberTree(token)
    case Str(text) => StrTree(text)
    case List(items) => ListTree(MeaningItems(items))
    case Dict(fields) => DictTree(MeaningFields(fields))
  }

  function MeaningItems(items: seq<Json>): seq<Tree> {
    if items == [] then [] else [Meaning(items[0])] + MeaningItems(items[1..])
  }

  function MeaningFields(fields: seq<Field>): map<string, Tree> {
    if fields == [] then map[]
    else
      var rest := MeaningFields(fields[1..]);
      if fields[0].key == TRANSIENT then rest else rest[fields[0].key := Meaning(fields[0].value)]
  }

  predicate Digit(c: char) { '0' <= c <= '9' }

  predicate Delimiter(c: char) { c == ',' || c == ']' || c == '}' }

  /** A number token starts with a digit, a minus sign, or the N or I of NaN and Infinity. */
  predicate NumberToken(token: string) {
    && token != [] && (Digit(token[0]) || token[0] == '-' || token[0] == 'N' || token[0] == 'I')
    && forall i | 0 <= i < |token| :: !Delimiter(token[i])
  }

  predicate HasKey(fields: seq<Field>, key: string) {
    exists i | 0 <= i < |fields| :: fields[i].key == key
  }

  /** What the parser delivers: number tokens, and dictionaries without repeated keys. */
  predicate Valid(j: Json) {
    match j
    case Number(token) => NumberToken(token)
    case List(items) => ValidItems(items)
    case Dict(fields) => ValidFields(fields)
    case _ => true
  }

  predicate ValidItems(items: seq<Json>) {
    items == [] || (Valid(items[0]) && ValidItems(items[1..]))
  }

  predicate ValidFields(fields: seq<Field>) {
    fields == [] || (Valid(fields[0].value) && !HasKey(fields[1..], fields[0].key) && ValidFields(fields[1..]))
  }

  /** The field of the dictionary with the key. */
  ghost predicate Carries(fields: seq<Field>, key: string, value: Json) {
    exists i | 0 <= i < |fields| :: fields[i] == Field(key, value)
  }

  /** A list means its items in order. */
  lemma {:induction false} MeaningOfItems(items: seq<Json>)
    ensures |MeaningItems(items)| == |items|
    ensures forall i | 0 <= i < |items| :: MeaningItems(items)[i] == Meaning(items[i])
  {
    if items != [] {
      MeaningOfItems(items[1..]);
    }
  }

  /** A dictionary means its fields in any order, all but the one called cache_control. */
  lemma {:induction false} MeaningOfFields(fields: seq<Field>, key: string, value: Json)
    requires ValidFields(fields) && Carries(fields, key, value)
    ensures key in MeaningFields(fields) <==> key != "cache_control"
    ensures key != "cache_control" ==> MeaningFields(fields)[key] == Meaning(value)
  {
    var i :| 0 <= i < |fields| && fields[i] == Field(key, value);
    if i > 0 {
      assert fields[1..][i - 1] == fields[i];
      MeaningOfFields(fields[1..], key, value);
    } else {
      MeansNoOther(fields[1..], key);
    }
  }

  lemma {:induction false} MeansNoOther(fields: seq<Field>, key: string)
    requires !HasKey(fields, key)
    ensures key !in MeaningFields(fields)
  {
    if fields != [] {
      assert fields[0].key != key;
      forall i | 0 <= i < |fields| - 1 ensures fields[1..][i].key != key { assert fields[1..][i] == fields[i + 1]; }
      MeansNoOther(fields[1..], key);
    }
  }

  // ---------------------------------------------------------------- the printer is uniquely decodable

  lemma DropPrefix(p: string, r: string, s: string)
    requires p + r == p + s
    ensures r == s
  {
    assert r == (p + r)[|p|..] && s == (p + s)[|p|..];
  }

  /** The first two characters of an escape tell its length. */
  lemma EscapeShape(c: char)
    ensures var x := Escape(c);
            && (|x| == 1 || |x| == 2 || |x| == 6)
            && (|x| == 1 ==> x == [c] && c != '\\')
            && (|x| > 1 ==> x[0] == '\\' && (x[1] == 'u' <==> |x| == 6))
  {
  }

  lemma EscapeIsInjective(c: char, d: char)
    requires Escape(c) == Escape(d)
    ensures c == d
  {
    EscapeShape(c);
    EscapeShape(d);
    if |Escape(c)| == 6 {
      assert Escape(c)[4] == Escape(d)[4] && Escape(c)[5] == Escape(d)[5];
      assert c as int == d as int;
    }
  }

  /** No escape is a prefix of another. */
  lemma EscapeIsPrefixFree(c: char, d: char, r: string, s: string)
    requires Escape(c) + r == Escape(d) + s
    ensures c == d && r == s
  {
    var x, y, u, v := Escape(c), Escape(d), Escape(c) + r, Escape(d) + s;
    EscapeShape(c);
    EscapeShape(d);
    assert u[0] == x[0] && v[0] == y[0];
    assert |x| > 1 ==> u[1] == x[1];
    assert |y| > 1 ==> v[1] == y[1];
    assert |x| == |y|;
    assert x == u[..|x|] && y == v[..|y|];
    EscapeIsInjective(c, d);
    DropPrefix(x, r, s);
  }

  lemma QuoteEndStarts(x: string, r: string)
    ensures QuoteEnd(x, r) != [] && (QuoteEnd(x, r)[0] == '\"' <==> x == [])
  {
  }

  lemma {:induction false} QuoteEndIsUnique(x: string, y: string, r: string, s: string)
    requires QuoteEnd(x, r) == QuoteEnd(y, s)
    ensures x == y && r == s
  {
    QuoteEndStarts(x, r);
    QuoteEndStarts(y, s);
    if x == [] {
      DropPrefix(['\"'], r, s);
    } else {
      EscapeIsPrefixFree(x[0], y[0], QuoteEnd(x[1..], r), QuoteEnd(y[1..], s));
      QuoteEndIsUnique(x[1..], y[1..], r, s);
    }
  }

  lemma QuotedIsUnique(x: string, y: string, r: string, s: string)
    requires Quoted(x, r) == Quoted(y, s)
    ensures x == y && r == s
  {
    DropPrefix(['\"'], QuoteEnd(x, r), QuoteEnd(y, s));
    QuoteEndIsUnique(x, y, r, s);
  }

  /** The text that may follow a value inside a document, or nothing. */
  predicate Closed(r: string) {
    r == [] || Delimiter(r[0])
  }

  function At(s: string, i: int): char {
    if 0 <= i < |s| then s[i] else ','
  }

  lemma TokenIsNotShorter(x: string, y: string, r: string, s: string)
    requires NumberToken(y) && Closed(r) && x + r == y + s
    ensures |x| >= |y|
  {
    assert At(x + r, |x|) == At(r, 0);
    assert |x| < |y| ==> At(y + s, |x|) == At(y, |x|);
  }

  lemma TokenIsUnique(x: string, y: string, r: string, s: string)
    requires NumberToken(x) && NumberToken(y) && Closed(r) && Closed(s)
    requires x + r == y + s
    ensures x == y && r == s
  {
    TokenIsNotShorter(x, y, r, s);
    TokenIsNotShorter(y, x, s, r);
    assert x == (x + r)[..|x|] && y == (y + s)[..|y|];
    DropPrefix(x, r, s);
  }

  /** The first character of a printed value tells its kind. */
  predicate Opens(c: char, j: Json) {
    match j
    case Null => c == 'n'
    case Bool(b) => c == if b then 't' else 'f'
    case Number(_) => Digit(c) || c == '-' || c == 'N' || c == 'I'
    case Str(_) => c == '\"'
    case List(_) => c == '['
    case Dict(_) => c == '{'
  }

  lemma PrintedOpens(j: Json, r: string)
    requires Valid(j)
    ensures Printed(j, r) != [] && Opens(Printed(j, r)[0], j)
  {
  }

  lemma ItemsAreClosed(items: seq<Json>, r: string)
    ensures PrintedItems(items, r) != [] && Closed(PrintedItems(items, r))
    ensures PrintedItems(items, r)[0] == if items == [] then ']' else ','
  {
  }

  lemma FieldsAreClosed(fields: seq<Field>, r: string)
    ensures PrintedFields(fields, r) != [] && Closed(PrintedFields(fields, r))
    ensures PrintedFields(fields, r)[0] == if fields == [] then '}' else ','
  {
  }

  /** Two printed values followed by delimiters agree as texts only if they agree as values. */
  lemma {:induction false} PrintedIsUnique(a: Json, b: Json, r: string, s: string)
    requires Valid(a) && Valid(b) && Closed(r) && Closed(s)
    requires Printed(a, r) == Printed(b, s)
    ensures a == b && r == s
    decreases a
  {
    PrintedOpens(a, r);
    PrintedOpens(b, s);
    match a
    case Null => DropPrefix("null", r, s);
    case Bool(x) => DropPrefix(if x then "true" else "false", r, s);
    case Number(token) => TokenIsUnique(token, b.token, r, s);
    case Str(text) => QuotedIsUnique(text, b.text, r, s);
    case List(items) => ListIsUnique(items, b.items, r, s);
    case Dict(fields) => DictIsUnique(fields, b.fields, r, s);
  }

  lemma {:induction false} ListIsUnique(xs: seq<Json>, ys: seq<Json>, r: string, s: string)
    requires ValidItems(xs) && ValidItems(ys)
    requires Printed(List(xs), r) == Printed(List(ys), s)
    ensures xs == ys && r == s
    decreases xs, 1
  {
    var p := if xs == [] then [']'] + r else Printed(xs[0], PrintedItems(xs[1..], r));
    var q := if ys == [] then [']'] + s else Printed(ys[0], PrintedItems(ys[1..], s));
    DropPrefix(['['], p, q);
    if xs != [] { PrintedOpens(xs[0], PrintedItems(xs[1..], r)); }
    if ys != [] { PrintedOpens(ys[0], PrintedItems(ys[1..], s)); }
    assert p[0] == q[0];
    if xs == [] {
      DropPrefix([']'], r, s);
    } else {
      ItemsAreClosed(xs[1..], r);
      ItemsAreClosed(ys[1..], s);
      PrintedIsUnique(xs[0], ys[0], PrintedItems(xs[1..], r), PrintedItems(ys[1..], s));
      ItemsAreUnique(xs[1..], ys[1..], r, s);
    }
  }

  lemma {:induction false} ItemsAreUnique(xs: seq<Json>, ys: seq<Json>, r: string, s: string)
    requires ValidItems(xs) && ValidItems(ys)
    requires PrintedItems(xs, r) == PrintedItems(ys, s)
    ensures xs == ys && r == s
    decreases xs, 0
  {
    ItemsAreClosed(xs, r);
    ItemsAreClosed(ys, s);
    if xs == [] {
      DropPrefix([']'], r, s);
    } else {
      var p, q := PrintedItems(xs[1..], r), PrintedItems(ys[1..], s);
      DropPrefix(", ", Printed(xs[0], p), Printed(ys[0], q));
      ItemsAreClosed(xs[1..], r);
      ItemsAreClosed(ys[1..], s);
      PrintedIsUnique(xs[0], ys[0], p, q);
      ItemsAreUnique(xs[1..], ys[1..], r, s);
    }
  }

  lemma {:induction false} FieldIsUnique(f: Field, g: Field, r: string, s: string)
    requires Valid(f.value) && Valid(g.value) && Closed(r) && Closed(s)
    requires PrintedField(f, r) == PrintedField(g, s)
    ensures f == g && r == s
    decreases f
  {
    var p, q := Printed(f.value, r), Printed(g.value, s);
    QuotedIsUnique(f.key, g.key, ": " + p, ": " + q);
    DropPrefix(": ", p, q);
    PrintedIsUnique(f.value, g.value, r, s);
  }

  lemma {:induction false} DictIsUnique(fs: seq<Field>, gs: seq<Field>, r: string, s: string)
    requires ValidFields(fs) && ValidFields(gs)
    requires Printed(Dict(fs), r) == Printed(Dict(gs), s)
    ensures fs == gs && r == s
    decreases fs, 1
  {
    var p := if fs == [] then ['}'] + r else PrintedField(fs[0], PrintedFields(fs[1..], r));
    var q := if gs == [] then ['}'] + s else PrintedField(gs[0], PrintedFields(gs[1..], s));
    DropPrefix(['{'], p, q);
    assert p[0] == q[0];
    if fs == [] {
      DropPrefix(['}'], r, s);
    } else {
      FieldsAreClosed(fs[1..], r);
      FieldsAreClosed(gs[1..], s);
      FieldIsUnique(fs[0], gs[0], PrintedFields(fs[1..], r), PrintedFields(gs[1..], s));
      FieldsAreUnique(fs[1..], gs[1..], r, s);
    }
  }

  lemma {:induction false} FieldsAreUnique(fs: seq<Field>, gs: seq<Field>, r: string, s: string)
    requires ValidFields(fs) && ValidFields(gs)
    requires PrintedFields(fs, r) == PrintedFields(gs, s)
    ensures fs == gs && r == s
    decreases fs, 0
  {
    FieldsAreClosed(fs, r);
    FieldsAreClosed(gs, s);
    if fs == [] {
      DropPrefix(['}'], r, s);
    } else {
      var p, q := PrintedFields(fs[1..], r), PrintedFields(gs[1..], s);
      DropPrefix(", ", PrintedField(fs[0], p), PrintedField(gs[0], q));
      FieldsAreClosed(fs[1..], r);
      FieldsAreClosed(gs[1..], s);
      FieldIsUnique(fs[0], gs[0], p, q);
      FieldsAreUnique(fs[1..], gs[1..], r, s);
    }
  }

  // ---------------------------------------------------------------- normal forms

  lemma {:induction false} BeforeIsTransitive(s: string, t: string, u: string)
    requires Before(s, t) && Before(t, u)
    ensures Before(s, u)
  {
    if s != [] && s[0] == t[0] == u[0] { BeforeIsTransitive(s[1..], t[1..], u[1..]); }
  }

  lemma {:induction false} BeforeIsAsymmetric(s: string, t: string)
    requires Before(s, t)
    ensures !Before(t, s) && s != t
  {
    if s != [] && s[0] == t[0] { BeforeIsAsymmetric(s[1..], t[1..]); }
  }

  lemma {:induction false} BeforeIsTotal(s: string, t: string)
    ensures Before(s, t) || Before(t, s) || s == t
  {
    if s != [] && t != [] && s[0] == t[0] {
      BeforeIsTotal(s[1..], t[1..]);
      assert s == [s[0]] + s[1..] && t == [t[0]] + t[1..];
    }
  }

  /** Valid, without `cache_control`, and with strictly increasing keys at every depth. */
  predicate Normal(j: Json) {
    match j
    case Number(token) => NumberToken(token)
    case List(items) => NormalItems(items)
    case Dict(fields) => NormalFields(fields)
    case _ => true
  }

  predicate NormalItems(items: seq<Json>) {
    items == [] || (Normal(items[0]) && NormalItems(items[1..]))
  }

  predicate NormalFields(fields: seq<Field>) {
    fields == [] ||
    (&& fields[0].key != TRANSIENT && Normal(fields[0].value)
     && (|fields| > 1 ==> Before(fields[0].key, fields[1].key))
     && NormalFields(fields[1..]))
  }

  /** The first key of a normal dictionary comes before every other. */
  lemma {:induction false} FirstKeyIsLeast(fields: seq<Field>, i: nat)
    requires NormalFields(fields) && 0 < i < |fields|
    ensures Before(fields[0].key, fields[i].key)
  {
    if i > 1 {
      FirstKeyIsLeast(fields[1..], i - 1);
      BeforeIsTransitive(fields[0].key, fields[1].key, fields[i].key);
    }
  }

  lemma {:induction false} KeysOfMeaning(fields: seq<Field>)
    requires NormalFields(fields)
    ensures forall k :: k in MeaningFields(fields) <==> HasKey(fields, k)
  {
    if fields != [] {
      KeysOfMeaning(fields[1..]);
      forall k ensures HasKey(fields, k) <==> k == fields[0].key || HasKey(fields[1..], k) {
        KeySplit(fields, k);
      }
    }
  }

  lemma KeySplit(fields: seq<Field>, k: string)
    requires fields != []
    ensures HasKey(fields, k) <==> k == fields[0].key || HasKey(fields[1..], k)
  {
    if HasKey(fields, k) && k != fields[0].key {
      var i :| 0 <= i < |fields| && fields[i].key == k;
      assert fields[1..][i - 1].key == k;
    }
    if HasKey(fields[1..], k) {
      var i :| 0 <= i < |fields[1..]| && fields[1..][i].key == k;
      assert fields[i + 1].key == k;
    }
  }

  /** Every key of a normal dictionary is its first or comes after it. */
  lemma KeysFollowFirst(fields: seq<Field>, k: string)
    requires NormalFields(fields) && fields != [] && k in MeaningFields(fields)
    ensures k == fields[0].key || Before(fields[0].key, k)
  {
    KeysOfMeaning(fields);
    var i :| 0 <= i < |fields| && fields[i].key == k;
    if i > 0 { FirstKeyIsLeast(fields, i); }
  }

  lemma FirstKeyIsNotRepeated(fields: seq<Field>)
    requires NormalFields(fields) && fields != []
    ensures !HasKey(fields[1..], fields[0].key)
    ensures fields[0].key !in MeaningFields(fields[1..])
  {
    KeysOfMeaning(fields[1..]);
    forall i | 0 < i < |fields| ensures fields[i].key != fields[0].key {
      FirstKeyIsLeast(fields, i);
      BeforeIsAsymmetric(fields[0].key, fields[i].key);
    }
  }

  lemma {:induction false} NormalIsValid(j: Json)
    requires Normal(j)
    ensures Valid(j)
    decreases j
  {
    match j
    case List(items) => NormalItemsAreValid(items);
    case Dict(fields) => NormalFieldsAreValid(fields);
    case _ =>
  }

  lemma {:induction false} NormalItemsAreValid(items: seq<Json>)
    requires NormalItems(items)
    ensures ValidItems(items)
    decreases items
  {
    if items != [] {
      NormalIsValid(items[0]);
      NormalItemsAreValid(items[1..]);
    }
  }

  lemma {:induction false} NormalFieldsAreValid(fields: seq<Field>)
    requires NormalFields(fields)
    ensures ValidFields(fields)
    decreases fields
  {
    if fields != [] {
      NormalIsValid(fields[0].value);
      FirstKeyIsNotRepeated(fields);
      NormalFieldsAreValid(fields[1..]);
    }
  }

  /** Normal forms are determined by what they mean. */
  lemma {:induction false} NormalIsUnique(a: Json, b: Json)
    requires Normal(a) && Normal(b) && Meaning(a) == Meaning(b)
    ensures a == b
    decreases a
  {
    match a
    case List(items) => NormalItemsAreUnique(items, b.items);
    case Dict(fields) => NormalFieldsAreUnique(fields, b.fields);
    case _ =>
  }

  lemma {:induction false} NormalItemsAreUnique(xs: seq<Json>, ys: seq<Json>)
    requires NormalItems(xs) && NormalItems(ys) && MeaningItems(xs) == MeaningItems(ys)
    ensures xs == ys
    decreases xs
  {
    if xs != [] && ys != [] {
      var u, v := MeaningItems(xs), MeaningItems(ys);
      assert u[0] == Meaning(xs[0]) && v[0] == Meaning(ys[0]);
      assert u[1..] == MeaningItems(xs[1..]) && v[1..] == MeaningItems(ys[1..]);
      NormalIsUnique(xs[0], ys[0]);
      NormalItemsAreUnique(xs[1..], ys[1..]);
    }
  }

  lemma SameFirstKey(fs: seq<Field>, gs: seq<Field>)
    requires NormalFields(fs) && NormalFields(gs) && fs != [] && gs != []
    requires MeaningFields(fs) == MeaningFields(gs)
    ensures fs[0].key == gs[0].key
  {
    var k, l := fs[0].key, gs[0].key;
    KeysFollowFirst(fs, l);
    KeysFollowFirst(gs, k);
    if k != l { BeforeIsAsymmetric(k, l); }
  }

  lemma {:induction false} NormalFieldsAreUnique(fs: seq<Field>, gs: seq<Field>)
    requires NormalFields(fs) && NormalFields(gs) && MeaningFields(fs) == MeaningFields(gs)
    ensures fs == gs
    decreases fs
  {
    assert fs != [] ==> fs[0].key in MeaningFields(fs);
    assert gs != [] ==> gs[0].key in MeaningFields(gs);
    if fs != [] && gs != [] {
      SameFirstKey(fs, gs);
      var k := fs[0].key;
      assert MeaningFields(fs)[k] == Meaning(fs[0].value) && MeaningFields(gs)[k] == Meaning(gs[0].value);
      NormalIsUnique(fs[0].value, gs[0].value);
      FirstKeyIsNotRepeated(fs);
      FirstKeyIsNotRepeated(gs);
      assert MeaningFields(fs[1..]) == MeaningFields(fs) - {k};
      assert MeaningFields(gs[1..]) == MeaningFields(gs) - {k};
      NormalFieldsAreUnique(fs[1..], gs[1..]);
    }
  }

  // ---------------------------------------------------------------- the code computes normal forms

  lemma {:induction false} InsertKeepsNormal(f: Field, fields: seq<Field>)
    requires NormalFields(fields) && Normal(f.value) && f.key != TRANSIENT && !HasKey(fields, f.key)
    ensures NormalFields(Insert(f, fields))
    ensures MeaningFields(Insert(f, fields)) == MeaningFields(fields)[f.key := Meaning(f.value)]
    ensures Insert(f, fields)[0] == f || (fields != [] && Insert(f, fields)[0] == fields[0])
  {
    var sorted := Insert(f, fields);
    if fields == [] || Before(f.key, fields[0].key) {
      assert sorted[1..] == fields;
    } else {
      KeySplit(fields, f.key);
      InsertKeepsNormal(f, fields[1..]);
      BeforeIsTotal(f.key, fields[0].key);
      assert sorted[1..] == Insert(f, fields[1..]);
    }
  }

  lemma {:induction false} NormalForm(j: Json)
    requires Valid(j)
    ensures Normal(SortKeys(Strip(j))) && Meaning(SortKeys(Strip(j))) == Meaning(j)
    decreases j
  {
    match j
    case List(items) => NormalFormOfItems(items);
    case Dict(fields) => NormalFormOfFields(fields);
    case _ =>
  }

  lemma {:induction false} NormalFormOfItems(items: seq<Json>)
    requires ValidItems(items)
    ensures NormalItems(SortItems(StripItems(items)))
    ensures MeaningItems(SortItems(StripItems(items))) == MeaningItems(items)
    decreases items
  {
    if items != [] {
      NormalForm(items[0]);
      NormalFormOfItems(items[1..]);
      assert StripItems(items)[1..] == StripItems(items[1..]);
      var sorted := SortItems(StripItems(items));
      assert sorted[1..] == SortItems(StripItems(items[1..]));
    }
  }

  lemma {:induction false} StripAddsNoKey(fields: seq<Field>, k: string)
    requires !HasKey(fields, k)
    ensures !HasKey(SortFields(StripFields(fields)), k)
  {
    if fields != [] {
      KeySplit(fields, k);
      StripAddsNoKey(fields[1..], k);
      var rest := SortFields(StripFields(fields[1..]));
      if fields[0].key != TRANSIENT {
        assert StripFields(fields)[1..] == StripFields(fields[1..]);
        InsertAddsOneKey(Field(fields[0].key, SortKeys(Strip(fields[0].value))), rest, k);
      }
    }
  }

  lemma {:induction false} InsertAddsOneKey(f: Field, fields: seq<Field>, k: string)
    requires !HasKey(fields, k) && f.key != k
    ensures !HasKey(Insert(f, fields), k)
  {
    var sorted := Insert(f, fields);
    if fields != [] && !Before(f.key, fields[0].key) {
      KeySplit(fields, k);
      InsertAddsOneKey(f, fields[1..], k);
      assert sorted[1..] == Insert(f, fields[1..]);
    } else {
      assert sorted[1..] == fields;
    }
    KeySplit(sorted, k);
  }

  lemma {:induction false} NormalFormOfFields(fields: seq<Field>)
    requires ValidFields(fields)
    ensures NormalFields(SortFields(StripFields(fields)))
    ensures MeaningFields(SortFields(StripFields(fields))) == MeaningFields(fields)
    decreases fields
  {
    if fields != [] {
      NormalFormOfFields(fields[1..]);
      if fields[0].key != TRANSIENT {
        NormalForm(fields[0].value);
        assert StripFields(fields)[1..] == StripFields(fields[1..]);
        StripAddsNoKey(fields[1..], fields[0].key);
        InsertKeepsNormal(Field(fields[0].key, SortKeys(Strip(fields[0].value))), SortFields(StripFields(fields[1..])));
      }
    }
  }

  /**
   Main result: the canonical text is a faithful key.  Two messages have the same one exactly when they are the
   same tree after removing every `cache_control` field, whatever the order of their dictionary fields.
   */
  lemma CanonicalIsFaithful(a: Json, b: Json)
    requires Valid(a) && Valid(b)
    ensures Canonical(a) == Canonical(b) <==> Meaning(a) == Meaning(b)
  {
    var x, y := SortKeys(Strip(a)), SortKeys(Strip(b));
    NormalForm(a);
    NormalForm(b);
    NormalIsValid(x);
    NormalIsValid(y);
    if Canonical(a) == Canonical(b) {
      PrintedIsUnique(x, y, "", "");
    }
    if Meaning(a) == Meaning(b) {
      NormalIsUnique(x, y);
    }
  }
}
