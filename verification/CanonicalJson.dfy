/**
 * stableStringify: the canonical text of a cursor scope.
 *
 * Json is a value as the program holds it: object entries in insertion order,
 * members that are undefined, numbers that are not finite, Date objects. Value is
 * what such a value means once it is JSON: objects are maps, undefined members
 * are gone, and whatever JSON cannot carry is null.
 */
module CanonicalJson {
  import opened Ordering

  datatype Entry = Entry(key: string, value: Json)

  /** Num carries the text that Number::toString gives a finite number. */
  datatype Json =
    | Null
    | Undefined
    | NonFinite
    | Bool(b: bool)
    | Num(text: string)
    | Str(s: string)
    | Arr(items: seq<Json>)
    | Obj(entries: seq<Entry>)
    | Date(ms: int)

  datatype Value =
    | VNull
    | VBool(b: bool)
    | VNum(text: string)
    | VStr(s: string)
    | VArr(items: seq<Value>)
    | VObj(members: map<string, Value>)

  predicate NumChar(c: char) {
    '0' <= c <= '9' || c == '-' || c == '+' || c == '.' || c == 'e'
  }

  predicate NumText(t: string) {
    t != [] && ('0' <= t[0] <= '9' || t[0] == '-') && forall i :: 0 <= i < |t| ==> NumChar(t[i])
  }

  predicate DistinctKeys(es: seq<Entry>) {
    forall i, j :: 0 <= i < j < |es| ==> es[i].key != es[j].key
  }

  /** What every JavaScript value of these kinds satisfies. */
  predicate WellFormed(j: Json)
    decreases j, 1
  {
    match j
    case Num(t) => NumText(t)
    case Arr(items) => forall i :: 0 <= i < |items| ==> WellFormed(items[i])
    case Obj(es) => DistinctKeys(es) && forall i :: 0 <= i < |es| ==> WellFormed(es[i].value)
    case _ => true
  }

  // ---------- Meaning ----------

  function Meaning(j: Json): Value
    decreases j, 1
  {
    match j
    case Null => VNull
    case Undefined => VNull
    case NonFinite => VNull
    case Bool(b) => VBool(b)
    case Num(t) => VNum(t)
    case Str(s) => VStr(s)
    case Arr(items) => VArr(MeaningItems(items))
    case Obj(es) => VObj(MeaningEntries(es))
    case Date(_) => VObj(map[])
  }

  function MeaningItems(items: seq<Json>): seq<Value>
    decreases items, 0
  {
    if items == [] then [] else [Meaning(items[0])] + MeaningItems(items[1..])
  }

  function MeaningEntries(es: seq<Entry>): map<string, Value>
    decreases es, 0
  {
    if es == [] then map[]
    else
      var rest := MeaningEntries(es[1..]);
      if es[0].value.Undefined? then rest else rest[es[0].key := Meaning(es[0].value)]
  }

  // ---------- Text ----------

  function Size(j: Json): nat
    decreases j, 1
  {
    match j
    case Arr(items) => 1 + SizeItems(items)
    case Obj(es) => 1 + SizeEntries(es)
    case _ => 1
  }

  function SizeItems(items: seq<Json>): nat
    decreases items, 0
  {
    if items == [] then 0 else 1 + Size(items[0]) + SizeItems(items[1..])
  }

  function SizeEntries(es: seq<Entry>): nat
    decreases es, 0
  {
    if es == [] then 0 else 1 + Size(es[0].value) + SizeEntries(es[1..])
  }

  /** Object.keys(o).filter(k => o[k] !== undefined). */
  function Defined(es: seq<Entry>): (r: seq<Entry>)
    ensures SizeEntries(r) <= SizeEntries(es)
    ensures forall e :: e in r <==> e in es && !e.value.Undefined?
  {
    if es == [] then []
    else if es[0].value.Undefined? then Defined(es[1..])
    else [es[0]] + Defined(es[1..])
  }

  function InsertKey(e: Entry, es: seq<Entry>): (r: seq<Entry>)
    ensures SizeEntries(r) == 1 + Size(e.value) + SizeEntries(es)
    ensures forall x :: x in r <==> x == e || x in es
  {
    if es == [] then [e]
    else if TextLess(e.key, es[0].key) then [e] + es
    else
      var t := InsertKey(e, es[1..]);
      assert ([es[0]] + t)[1..] == t;
      [es[0]] + t
  }

  function SortKeys(es: seq<Entry>): (r: seq<Entry>)
    ensures SizeEntries(r) == SizeEntries(es)
    ensures forall x :: x in r <==> x in es
  {
    if es == [] then [] else InsertKey(es[0], SortKeys(es[1..]))
  }

  function HexDigit(n: nat): char
    requires n < 16
  {
    if n < 10 then (48 + n) as char else (87 + n) as char
  }

  /** QuoteJSONString, one character (section 25.5.2.3 of ECMA-262). */
  function Escape(c: char): string {
    if c == '\"' then "\\\""
    else if c == '\\' then "\\\\"
    else if c == 8 as char then "\\b"
    else if c == 12 as char then "\\f"
    else if c == '\n' then "\\n"
    else if c == '\r' then "\\r"
    else if c == '\t' then "\\t"
    else if (c as int) < 0x20 then "\\u00" + [HexDigit(c as int / 16), HexDigit(c as int % 16)]
    else [c]
  }

  function EscapeAll(s: string): string {
    if s == [] then [] else Escape(s[0]) + EscapeAll(s[1..])
  }

  function Quote(s: string): string {
    "\"" + EscapeAll(s) + "\""
  }

  function Stringify(j: Json): string
    decreases Size(j), 1
  {
    match j
    case Null => "null"
    case Undefined => "null"
    case NonFinite => "null"
    case Bool(b) => if b then "true" else "false"
    case Num(t) => t
    case Str(s) => Quote(s)
    case Arr(items) => "[" + ItemsText(items)
    case Obj(es) => "{" + EntriesText(SortKeys(Defined(es)))
    case Date(_) => "{}"
  }

  /** The elements joined by commas, and the closing bracket. */
  function ItemsText(items: seq<Json>): string
    decreases SizeItems(items), 0
  {
    if items == [] then "]"
    else Stringify(items[0]) + (if |items| == 1 then "]" else "," + ItemsText(items[1..]))
  }

  /** The members joined by commas, and the closing brace. */
  function EntriesText(es: seq<Entry>): string
    decreases SizeEntries(es), 0
  {
    if es == [] then "}"
    else Quote(es[0].key) + (":" + (Stringify(es[0].value) + (if |es| == 1 then "}" else "," + EntriesText(es[1..]))))
  }

  // ---------- Sorted entries determine the map ----------

  ghost predicate KeySorted(es: seq<Entry>) {
    forall i, j :: 0 <= i < j < |es| ==> TextLess(es[i].key, es[j].key)
  }

  ghost predicate AllDefined(es: seq<Entry>) {
    forall i :: 0 <= i < |es| ==> !es[i].value.Undefined? && WellFormed(es[i].value)
  }

  lemma {:induction false} DefinedProperties(es: seq<Entry>)
    requires DistinctKeys(es) && forall i :: 0 <= i < |es| ==> WellFormed(es[i].value)
    ensures DistinctKeys(Defined(es)) && AllDefined(Defined(es))
    ensures MeaningEntries(Defined(es)) == MeaningEntries(es)
  {
    if es != [] {
      DefinedProperties(es[1..]);
      var d := Defined(es[1..]);
      assert ([es[0]] + d)[1..] == d;
      forall e | e in d ensures e.key != es[0].key {
        assert e in es[1..];
      }
    }
  }

  lemma {:induction false} InsertKeyMeaning(e: Entry, es: seq<Entry>)
    requires AllDefined(es) && !e.value.Undefined?
    requires forall i :: 0 <= i < |es| ==> es[i].key != e.key
    ensures MeaningEntries(InsertKey(e, es)) == MeaningEntries(es)[e.key := Meaning(e.value)]
  {
    if es == [] || TextLess(e.key, es[0].key) {
      assert ([e] + es)[1..] == es;
    } else {
      InsertKeyMeaning(e, es[1..]);
      var t := InsertKey(e, es[1..]);
      assert ([es[0]] + t)[1..] == t;
    }
  }

  lemma {:induction false} InsertKeySorted(e: Entry, es: seq<Entry>)
    requires KeySorted(es)
    requires forall i :: 0 <= i < |es| ==> es[i].key != e.key
    ensures KeySorted(InsertKey(e, es))
  {
    if es != [] {
      TextLessTotal(e.key, es[0].key);
      if TextLess(e.key, es[0].key) {
        forall i | 0 < i < |es| ensures TextLess(e.key, es[i].key) {
          TextLessTransitive(e.key, es[0].key, es[i].key);
        }
      } else {
        InsertKeySorted(e, es[1..]);
        var t := InsertKey(e, es[1..]);
        forall j | 0 <= j < |t| ensures TextLess(es[0].key, t[j].key) {
          assert t[j] in t;
          assert t[j] == e || t[j] in es[1..];
        }
      }
    }
  }

  lemma {:induction false} SortKeysProperties(es: seq<Entry>)
    requires DistinctKeys(es) && AllDefined(es)
    ensures KeySorted(SortKeys(es)) && AllDefined(SortKeys(es))
    ensures MeaningEntries(SortKeys(es)) == MeaningEntries(es)
  {
    if es != [] {
      SortKeysProperties(es[1..]);
      var t := SortKeys(es[1..]);
      forall i | 0 <= i < |t| ensures t[i].key != es[0].key {
        assert t[i] in t;
        assert t[i] in es[1..];
      }
      InsertKeySorted(es[0], t);
      InsertKeyMeaning(es[0], t);
      forall i | 0 <= i < |SortKeys(es)| ensures SortKeys(es)[i] in es {
        assert SortKeys(es)[i] in SortKeys(es);
      }
    }
  }

  lemma {:induction false} MeaningKeys(es: seq<Entry>, k: string)
    requires AllDefined(es)
    ensures k in MeaningEntries(es) <==> exists i :: 0 <= i < |es| && es[i].key == k
  {
    if es != [] {
      MeaningKeys(es[1..], k);
      if k in MeaningEntries(es[1..]) {
        var i :| 0 <= i < |es[1..]| && es[1..][i].key == k;
        assert es[i + 1].key == k;
      }
      if i :| 0 <= i < |es| && es[i].key == k {
        if i > 0 { assert es[1..][i - 1].key == k; }
      }
    }
  }

  /** The head of a sorted list is the least key of its map, and the rest is the map without it. */
  lemma SortedHead(es: seq<Entry>)
    requires es != [] && KeySorted(es) && AllDefined(es)
    ensures es[0].key in MeaningEntries(es) && es[0].key !in MeaningEntries(es[1..])
    ensures MeaningEntries(es) == MeaningEntries(es[1..])[es[0].key := Meaning(es[0].value)]
    ensures forall k :: k in MeaningEntries(es[1..]) ==> TextLess(es[0].key, k)
  {
    TextLessTotal(es[0].key, es[0].key);
    MeaningKeys(es[1..], es[0].key);
    forall k | k in MeaningEntries(es[1..]) ensures TextLess(es[0].key, k) {
      MeaningKeys(es[1..], k);
    }
  }

  lemma SameInsert(a: map<string, Value>, b: map<string, Value>, k: string, u: Value, v: Value)
    requires k !in a && k !in b && a[k := u] == b[k := v]
    ensures a == b && u == v
  {
    assert a[k := u][k] == u && b[k := v][k] == v;
    assert a == a[k := u] - {k} && b == b[k := v] - {k};
  }

  lemma SameHead(a: seq<Entry>, b: seq<Entry>)
    requires a != [] && b != [] && KeySorted(a) && KeySorted(b) && AllDefined(a) && AllDefined(b)
    requires MeaningEntries(a) == MeaningEntries(b)
    ensures a[0].key == b[0].key
    ensures Meaning(a[0].value) == Meaning(b[0].value)
    ensures MeaningEntries(a[1..]) == MeaningEntries(b[1..])
  {
    SortedHead(a);
    SortedHead(b);
    assert a[0].key in MeaningEntries(b) && b[0].key in MeaningEntries(a);
    TextLessTotal(a[0].key, b[0].key);
    SameInsert(MeaningEntries(a[1..]), MeaningEntries(b[1..]), a[0].key, Meaning(a[0].value), Meaning(b[0].value));
  }

  // ---------- Equal meaning gives equal text ----------

  lemma {:induction false} SameMeaningSameText(a: Json, b: Json)
    requires WellFormed(a) && WellFormed(b)
    requires Meaning(a) == Meaning(b)
    ensures Stringify(a) == Stringify(b)
    decreases Size(a), 1
  {
    if a.Arr? {
      SameItemsSameText(a.items, b.items);
    } else if Braced(a) {
      BracedText(a);
      BracedText(b);
      SameEntriesSameText(Members(a), Members(b));
    }
  }

  lemma {:induction false} SameItemsSameText(a: seq<Json>, b: seq<Json>)
    requires forall i :: 0 <= i < |a| ==> WellFormed(a[i])
    requires forall i :: 0 <= i < |b| ==> WellFormed(b[i])
    requires MeaningItems(a) == MeaningItems(b)
    ensures ItemsText(a) == ItemsText(b)
    decreases SizeItems(a), 0
  {
    if a != [] && b != [] {
      assert MeaningItems(a)[0] == Meaning(a[0]) && MeaningItems(b)[0] == Meaning(b[0]);
      assert MeaningItems(a)[1..] == MeaningItems(a[1..]) && MeaningItems(b)[1..] == MeaningItems(b[1..]);
      SameMeaningSameText(a[0], b[0]);
      SameItemsSameText(a[1..], b[1..]);
      assert |MeaningItems(a[1..])| == |MeaningItems(b[1..])|;
    }
  }

  lemma {:induction false} SameEntriesSameText(a: seq<Entry>, b: seq<Entry>)
    requires KeySorted(a) && KeySorted(b) && AllDefined(a) && AllDefined(b)
    requires MeaningEntries(a) == MeaningEntries(b)
    ensures EntriesText(a) == EntriesText(b)
    decreases SizeEntries(a), 0
  {
    if a == [] || b == [] {
      if a != [] { SortedHead(a); }
      if b != [] { SortedHead(b); }
    } else {
      SameHead(a, b);
      SameMeaningSameText(a[0].value, b[0].value);
      SameEntriesSameText(a[1..], b[1..]);
      if |a| > 1 { SortedHead(a[1..]); }
      if |b| > 1 { SortedHead(b[1..]); }
    }
  }

  predicate Braced(j: Json) {
    j.Obj? || j.Date?
  }

  /** The members a braced value prints, sorted by key. */
  function Members(j: Json): (r: seq<Entry>)
    requires Braced(j)
    ensures SizeEntries(r) < Size(j)
  {
    if j.Obj? then SortKeys(Defined(j.entries)) else []
  }

  lemma BracedText(j: Json)
    requires Braced(j) && WellFormed(j)
    ensures Stringify(j) == "{" + EntriesText(Members(j))
    ensures KeySorted(Members(j)) && AllDefined(Members(j))
    ensures Meaning(j) == VObj(MeaningEntries(Members(j)))
  {
    if j.Obj? {
      DefinedProperties(j.entries);
      SortKeysProperties(Defined(j.entries));
    }
  }

  // ---------- Equal text gives equal meaning ----------
  //
  // Show(j, k) is the text of j followed by k. Reading two such texts from the
  // left decides, character by character, that the values agree and that what
  // follows them agrees.

  function Show(j: Json, k: string): string
    decreases Size(j), 1
  {
    match j
    case Str(s) => "\"" + ShowChars(s, k)
    case Arr(items) => "[" + ShowItems(items, k)
    case Obj(es) => "{" + ShowEntries(SortKeys(Defined(es)), k)
    case Date(_) => "{" + ShowEntries([], k)
    case _ => Stringify(j) + k
  }

  function ShowChars(s: string, k: string): string {
    if s == [] then "\"" + k else Escape(s[0]) + ShowChars(s[1..], k)
  }

  function ShowItems(items: seq<Json>, k: string): string
    decreases SizeItems(items), 0
  {
    if items == [] then "]" + k
    else Show(items[0], if |items| == 1 then "]" + k else "," + ShowItems(items[1..], k))
  }

  function ShowEntries(es: seq<Entry>, k: string): string
    decreases SizeEntries(es), 0
  {
    if es == [] then "}" + k
    else "\"" + ShowChars(es[0].key, ":" + ShowValue(es, k))
  }

  /** The first member's value and everything after it. */
  function ShowValue(es: seq<Entry>, k: string): string
    requires es != []
    decreases SizeEntries(es), 0, 0
  {
    Show(es[0].value, if |es| == 1 then "}" + k else "," + ShowEntries(es[1..], k))
  }

  lemma {:induction false} ShowCharsText(s: string, k: string)
    ensures ShowChars(s, k) == EscapeAll(s) + "\"" + k
  {
    if s != [] {
      ShowCharsText(s[1..], k);
    }
  }

  lemma {:induction false} ShowText(j: Json, k: string)
    ensures Show(j, k) == Stringify(j) + k
    decreases Size(j), 1
  {
    match j
    case Str(s) => ShowCharsText(s, k);
    case Arr(items) => ShowItemsText(items, k);
    case Obj(es) => ShowEntriesText(SortKeys(Defined(es)), k);
    case _ =>
  }

  lemma {:induction false} ShowItemsText(items: seq<Json>, k: string)
    ensures ShowItems(items, k) == ItemsText(items) + k
    decreases SizeItems(items), 0
  {
    if items != [] {
      ShowItemsText(items[1..], k);
      ShowText(items[0], if |items| == 1 then "]" + k else "," + ShowItems(items[1..], k));
    }
  }

  lemma {:induction false} ShowEntriesText(es: seq<Entry>, k: string)
    ensures ShowEntries(es, k) == EntriesText(es) + k
    decreases SizeEntries(es), 0
  {
    if es != [] {
      var t := if |es| == 1 then "}" else "," + EntriesText(es[1..]);
      var after := if |es| == 1 then "}" + k else "," + ShowEntries(es[1..], k);
      assert after == t + k by {
        ShowEntriesText(es[1..], k);
      }
      ShowText(es[0].value, after);
      ShowCharsText(es[0].key, ":" + ShowValue(es, k));
      Regroup(EscapeAll(es[0].key), Stringify(es[0].value), t, k);
    }
  }

  lemma Regroup(e: string, v: string, t: string, k: string)
    ensures "\"" + (e + "\"" + (":" + (v + (t + k)))) == ("\"" + e + "\"") + (":" + (v + t)) + k
  {
  }

  lemma Cons(c: char, d: char, x: string, y: string)
    requires [c] + x == [d] + y
    ensures c == d && x == y
  {
    assert ([c] + x)[0] == c && ([d] + y)[0] == d;
    assert ([c] + x)[1..] == x && ([d] + y)[1..] == y;
  }

  lemma SamePrefix(p: string, x: string, y: string)
    requires p + x == p + y
    ensures x == y
  {
    assert (p + x)[|p|..] == x && (p + y)[|p|..] == y;
  }

  lemma EscapePrefixFree(c: char, d: char, x: string, y: string)
    requires Escape(c) + x == Escape(d) + y
    ensures c == d && x == y
  {
    var u, v := Escape(c) + x, Escape(d) + y;
    assert u[0] == Escape(c)[0] && v[0] == Escape(d)[0];
    if |Escape(c)| > 1 && |Escape(d)| > 1 {
      assert u[1] == Escape(c)[1] && v[1] == Escape(d)[1];
      if |Escape(c)| == 6 && |Escape(d)| == 6 {
        assert u[4] == Escape(c)[4] && u[5] == Escape(c)[5];
        assert v[4] == Escape(d)[4] && v[5] == Escape(d)[5];
      }
    }
    assert c == d;
    SamePrefix(Escape(c), x, y);
  }

  /** The first character tells whether the closing quote is next. */
  lemma QuoteNext(s: string, k: string)
    ensures ShowChars(s, k) != []
    ensures s == [] <==> ShowChars(s, k)[0] == '\"'
  {
    if s != [] {
      assert ShowChars(s, k)[0] == Escape(s[0])[0];
    }
  }

  lemma {:induction false} CharsPrefixFree(s: string, t: string, x: string, y: string)
    requires ShowChars(s, x) == ShowChars(t, y)
    ensures s == t && x == y
  {
    QuoteNext(s, x);
    QuoteNext(t, y);
    if s == [] {
      SamePrefix("\"", x, y);
    } else {
      EscapePrefixFree(s[0], t[0], ShowChars(s[1..], x), ShowChars(t[1..], y));
      CharsPrefixFree(s[1..], t[1..], x, y);
      assert s == [s[0]] + s[1..] && t == [t[0]] + t[1..];
    }
  }

  /** Text after a value: nothing, or one of the characters that end a value. */
  predicate Delimited(x: string) {
    x == [] || x[0] == ',' || x[0] == ']' || x[0] == '}'
  }

  lemma NumPrefixFree(s: string, t: string, x: string, y: string)
    requires NumText(s) && NumText(t) && Delimited(x) && Delimited(y)
    requires s + x == t + y
    ensures s == t && x == y
  {
    NumShorter(s, t, x, y);
    NumShorter(t, s, y, x);
    assert s == (s + x)[..|s|] && t == (t + y)[..|t|];
    SamePrefix(s, x, y);
  }

  lemma NumShorter(s: string, t: string, x: string, y: string)
    requires NumText(t) && Delimited(x) && s + x == t + y
    ensures |t| <= |s|
  {
    var w := t + y;
    assert forall k :: 0 <= k < |t| ==> w[k] == t[k];
    assert x != [] ==> w[|s|] == x[0];
  }

  /** The kind of a value, as its first character tells it. */
  function Kind(j: Json): (c: char)
    ensures c != ']'
  {
    match j
    case Null => 'n'
    case Undefined => 'n'
    case NonFinite => 'n'
    case Bool(b) => if b then 't' else 'f'
    case Num(_) => '0'
    case Str(_) => '\"'
    case Arr(_) => '['
    case Obj(_) => '{'
    case Date(_) => '{'
  }

  lemma FirstChar(j: Json, k: string)
    requires WellFormed(j)
    ensures Show(j, k) != []
    ensures Show(j, k)[0] != ']'
    ensures Kind(j) == if '0' <= Show(j, k)[0] <= '9' || Show(j, k)[0] == '-' then '0' else Show(j, k)[0]
  {
  }

  lemma {:induction false} SameTextSameMeaning(a: Json, b: Json, x: string, y: string)
    requires WellFormed(a) && WellFormed(b) && Delimited(x) && Delimited(y)
    requires Show(a, x) == Show(b, y)
    ensures Meaning(a) == Meaning(b) && x == y
    decreases Size(a), 2
  {
    FirstChar(a, x);
    FirstChar(b, y);
    if a.Num? {
      NumPrefixFree(a.text, b.text, x, y);
    } else if a.Str? {
      Cons('\"', '\"', ShowChars(a.s, x), ShowChars(b.s, y));
      CharsPrefixFree(a.s, b.s, x, y);
    } else if a.Arr? {
      Cons('[', '[', ShowItems(a.items, x), ShowItems(b.items, y));
      SameTextItems(a.items, b.items, x, y);
    } else if Braced(a) {
      BracedText(a);
      BracedText(b);
      Cons('{', '{', ShowEntries(Members(a), x), ShowEntries(Members(b), y));
      SameTextEntries(Members(a), Members(b), x, y);
    } else {
      SamePrefix(Stringify(a), x, y);
    }
  }

  ghost predicate AllWellFormed(items: seq<Json>) {
    forall k :: 0 <= k < |items| ==> WellFormed(items[k])
  }

  lemma {:induction false} SameTextItems(a: seq<Json>, b: seq<Json>, x: string, y: string)
    requires AllWellFormed(a) && AllWellFormed(b)
    requires ShowItems(a, x) == ShowItems(b, y)
    ensures MeaningItems(a) == MeaningItems(b) && x == y
    decreases SizeItems(a), 0
  {
    ItemsNext(a, x);
    ItemsNext(b, y);
    if a == [] {
      Cons(']', ']', x, y);
    } else {
      var p := if |a| == 1 then "]" + x else "," + ShowItems(a[1..], x);
      var q := if |b| == 1 then "]" + y else "," + ShowItems(b[1..], y);
      SameTextSameMeaning(a[0], b[0], p, q);
      assert (|a| == 1 <==> p[0] == ']') && (|b| == 1 <==> q[0] == ']');
      assert p[1..] == if |a| == 1 then x else ShowItems(a[1..], x);
      assert q[1..] == if |b| == 1 then y else ShowItems(b[1..], y);
      if |a| > 1 {
        SameTextItems(a[1..], b[1..], x, y);
      }
    }
  }

  lemma ItemsNext(items: seq<Json>, k: string)
    requires AllWellFormed(items)
    ensures ShowItems(items, k) != []
    ensures items == [] <==> ShowItems(items, k)[0] == ']'
  {
    if items != [] {
      FirstChar(items[0], if |items| == 1 then "]" + k else "," + ShowItems(items[1..], k));
    }
  }

  lemma {:induction false} SameTextEntries(a: seq<Entry>, b: seq<Entry>, x: string, y: string)
    requires AllDefined(a) && AllDefined(b)
    requires ShowEntries(a, x) == ShowEntries(b, y)
    ensures MeaningEntries(a) == MeaningEntries(b) && x == y
    decreases SizeEntries(a), 1
  {
    assert (a == [] <==> ShowEntries(a, x)[0] == '}') && (b == [] <==> ShowEntries(b, y)[0] == '}');
    if a == [] {
      Cons('}', '}', x, y);
    } else {
      var u, v := ":" + ShowValue(a, x), ":" + ShowValue(b, y);
      Cons('\"', '\"', ShowChars(a[0].key, u), ShowChars(b[0].key, v));
      CharsPrefixFree(a[0].key, b[0].key, u, v);
      SamePrefix(":", ShowValue(a, x), ShowValue(b, y));
      SameTextValue(a, b, x, y);
    }
  }

  lemma {:induction false} SameTextValue(a: seq<Entry>, b: seq<Entry>, x: string, y: string)
    requires AllDefined(a) && AllDefined(b) && a != [] && b != [] && a[0].key == b[0].key
    requires ShowValue(a, x) == ShowValue(b, y)
    ensures MeaningEntries(a) == MeaningEntries(b) && x == y
    decreases SizeEntries(a), 0
  {
    var p := if |a| == 1 then "}" + x else "," + ShowEntries(a[1..], x);
    var q := if |b| == 1 then "}" + y else "," + ShowEntries(b[1..], y);
    SameTextSameMeaning(a[0].value, b[0].value, p, q);
    assert (|a| == 1 <==> p[0] == '}') && (|b| == 1 <==> q[0] == '}');
    assert p[1..] == if |a| == 1 then x else ShowEntries(a[1..], x);
    assert q[1..] == if |b| == 1 then y else ShowEntries(b[1..], y);
    if |a| > 1 {
      SameTextEntries(a[1..], b[1..], x, y);
    }
  }

  // ---------- Main results ----------

  /** Two scopes have the same canonical text exactly when they are the same JSON value. */
  lemma StringifyInjective(a: Json, b: Json)
    requires WellFormed(a) && WellFormed(b)
    ensures Stringify(a) == Stringify(b) <==> Meaning(a) == Meaning(b)
  {
    if Stringify(a) == Stringify(b) {
      ShowText(a, []);
      ShowText(b, []);
      SameTextSameMeaning(a, b, [], []);
    } else if Meaning(a) == Meaning(b) {
      SameMeaningSameText(a, b);
    }
  }

  /** A Date object has no enumerable keys, so scopes that differ only in a Date share their text. */
  lemma DatesCollide(key: string, s: int, t: int)
    ensures Stringify(Obj([Entry(key, Date(s))])) == Stringify(Obj([Entry(key, Date(t))]))
  {
    var a, b := Obj([Entry(key, Date(s))]), Obj([Entry(key, Date(t))]);
    assert a.entries[1..] == [] && b.entries[1..] == [];
    assert MeaningEntries([]) == map[];
    assert Meaning(Date(s)) == Meaning(Date(t));
    StringifyInjective(a, b);
  }

  /** A character that a string needs no escape for. */
  predicate PlainChar(c: char) {
    c as int >= 0x20 && c != '\"' && c != '\\'
  }

  lemma EscapePlain(c: char)
    requires PlainChar(c)
    ensures Escape(c) == [c]
  {
  }

  lemma {:induction false} PlainText(s: string)
    requires forall i :: 0 <= i < |s| ==> PlainChar(s[i])
    ensures EscapeAll(s) == s
  {
    if s != [] {
      EscapePlain(s[0]);
      PlainText(s[1..]);
      assert s == [s[0]] + s[1..];
    }
  }

  /** The texts of the simple values, and of strings without special characters. */
  lemma SimpleTexts(s: string)
    requires forall i :: 0 <= i < |s| ==> PlainChar(s[i])
    ensures Stringify(Null) == Stringify(Undefined) == Stringify(NonFinite) == "null"
    ensures Stringify(Bool(true)) == "true" && Stringify(Bool(false)) == "false"
    ensures Stringify(Str(s)) == "\"" + s + "\""
    ensures Stringify(Arr([])) == "[]" && Stringify(Obj([])) == "{}"
  {
    PlainText(s);
  }

  /** Arrays keep their order. */
  lemma ItemsInOrder(x: Json, y: Json)
    ensures Stringify(Arr([x, y])) == "[" + Stringify(x) + "," + Stringify(y) + "]"
  {
    assert [x, y][1..] == [y];
    assert ItemsText([y]) == Stringify(y) + "]";
  }

  lemma ObjText(es: seq<Entry>, sorted: seq<Entry>)
    requires SortKeys(Defined(es)) == sorted
    ensures Stringify(Obj(es)) == "{" + EntriesText(sorted)
  {
  }

  lemma LastMember(a: Entry)
    ensures EntriesText([a]) == Quote(a.key) + ":" + Stringify(a.value) + "}"
  {
  }

  lemma OneDefined(a: Entry)
    ensures Defined([a]) == (if a.value.Undefined? then [] else [a]) && SortKeys([a]) == [a]
  {
    assert [a][1..] == [] && Defined([]) == [] && SortKeys([]) == [];
  }

  lemma TwoSorted(a: Entry, b: Entry)
    requires TextLess(a.key, b.key)
    ensures SortKeys([a, b]) == [a, b] == SortKeys([b, a])
  {
    TextLessTotal(a.key, b.key);
    assert [a, b][1..] == [b] && [b, a][1..] == [a];
    OneDefined(a);
    OneDefined(b);
    assert [a][1..] == [] && [b][1..] == [];
  }

  lemma TwoDefined(a: Entry, b: Entry)
    requires !b.value.Undefined?
    ensures Defined([a, b]) == if a.value.Undefined? then [b] else [a, b]
  {
    assert [a, b][1..] == [b];
    OneDefined(b);
  }

  lemma TwoMembers(a: Entry, b: Entry)
    ensures EntriesText([a, b]) == Quote(a.key) + ":" + Stringify(a.value) + "," + EntriesText([b])
  {
    assert [a, b][1..] == [b];
  }

  /** Objects list their members by key, whichever came first. */
  lemma MembersByKey(a: Entry, b: Entry)
    requires TextLess(a.key, b.key) && !a.value.Undefined? && !b.value.Undefined?
    ensures Stringify(Obj([a, b])) == Stringify(Obj([b, a])) ==
      "{" + (Quote(a.key) + ":" + Stringify(a.value) + "," + (Quote(b.key) + ":" + Stringify(b.value) + "}"))
  {
    TwoDefined(a, b);
    TwoDefined(b, a);
    TwoSorted(a, b);
    ObjText([a, b], [a, b]);
    ObjText([b, a], [a, b]);
    TwoMembers(a, b);
    LastMember(b);
  }

  /** Undefined members are left out. */
  lemma UndefinedLeftOut(u: Entry, a: Entry)
    requires u.value.Undefined? && !a.value.Undefined?
    ensures Stringify(Obj([u, a])) == "{" + (Quote(a.key) + ":" + Stringify(a.value) + "}")
  {
    TwoDefined(u, a);
    OneDefined(a);
    ObjText([u, a], [a]);
    LastMember(a);
  }
}
