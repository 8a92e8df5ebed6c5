/**
 * JSON values as the pages see them after `JSON.parse` or `response.json()`,
 * together with the three JavaScript behaviours the normalisation code leans
 * on: property access (`a.b`, `undefined` when absent), truthiness (`||`,
 * `&&`, `if (x)`, `filter(Boolean)`) and string conversion (`String(x)`).
 *
 * `JSON.parse` itself is not modelled: every operation that calls it takes
 * the parser as a parameter `parse: Parser`, a total function from the text
 * to either a value or the message of the `SyntaxError` it throws.
 */
module Json {
  import opened Wrappers
  import opened JsString

  /** An object lists its properties in the order `Object.entries` yields
      them, each key once (as `JSON.parse` builds them). Numbers are the
      integers; fractional numbers do not occur in the payloads modelled. */
  datatype Json =
    | JNull
    | JBool(b: bool)
    | JNum(n: int)
    | JStr(s: string)
    | JArr(items: seq<Json>)
    | JObj(fields: seq<(string, Json)>)

  /** The outcome of `JSON.parse(text)`. */
  datatype Parsed = Ok(value: Json) | SyntaxError(message: string)

  type Parser = string -> Parsed

  /** `fields[key]` on an object's property list: the first entry with that key. */
  function Lookup(fields: seq<(string, Json)>, key: string): (r: Option<Json>)
    ensures r.Some? <==> exists i :: 0 <= i < |fields| && fields[i].0 == key
    ensures r.Some? ==> exists i :: 0 <= i < |fields| && fields[i] == (key, r.value)
  {
    if |fields| == 0 then None
    else if fields[0].0 == key then
      assert fields[0] == (key, fields[0].1);
      Some(fields[0].1)
    else
      var r := Lookup(fields[1..], key);
      assert forall i :: 1 <= i < |fields| ==> fields[i] == fields[1..][i - 1];
      r
  }

  /** The first property named `key` is the one read. */
  lemma {:induction false} LookupAt(fields: seq<(string, Json)>, key: string, i: nat)
    requires i < |fields| && fields[i].0 == key
    requires forall j :: 0 <= j < i ==> fields[j].0 != key
    ensures Lookup(fields, key) == Some(fields[i].1)
    decreases i
  {
    if i > 0 {
      assert fields[1..][i - 1] == fields[i];
      LookupAt(fields[1..], key, i - 1);
    }
  }

  /** Property access `j.key`. Only objects have the properties read here:
      arrays, strings, numbers and booleans give `undefined`. */
  function Get(j: Json, key: string): Option<Json> {
    match j
    case JObj(fields) => Lookup(fields, key)
    case _ => None
  }

  /** `j.k1.k2…` guarded by `&&` at each step, as in `a && a.b && a.b.c`. */
  function Path(j: Json, keys: seq<string>): Option<Json>
    decreases |keys|
  {
    if |keys| == 0 then Some(j)
    else match Get(j, keys[0])
      case None => None
      case Some(v) => if Truthy(v) then Path(v, keys[1..]) else Some(v)
  }

  /** JavaScript truthiness of a value. */
  predicate Truthy(j: Json) {
    match j
    case JNull => false
    case JBool(b) => b
    case JNum(n) => n != 0
    case JStr(s) => |s| > 0
    case JArr(_) => true
    case JObj(_) => true
  }

  /** Truthiness of a possibly-`undefined` value: `undefined` is falsy. */
  predicate Present(o: Option<Json>) {
    o.Some? && Truthy(o.value)
  }

  /** `typeof j === 'object'` (which includes `null` and arrays). */
  predicate IsObjectTyped(j: Json) {
    j.JNull? || j.JArr? || j.JObj?
  }

  /** An object literal whose `undefined` properties are left out, which is
      also what `JSON.stringify` writes for it. */
  function Record(entries: seq<(string, Option<Json>)>): (r: Json)
    ensures r.JObj?
    ensures |r.fields| <= |entries|
    decreases |entries|
  {
    if |entries| == 0 then JObj([])
    else
      var rest := Record(entries[1..]);
      match entries[0].1
      case None => rest
      case Some(v) => JObj([(entries[0].0, v)] + rest.fields)
  }

  /** No key is given twice, as in every object literal of the pages. */
  predicate DistinctKeys(entries: seq<(string, Option<Json>)>) {
    forall i, j :: 0 <= i < j < |entries| ==> entries[i].0 != entries[j].0
  }

  /** Reading a property back from a record gives the value it was built with,
      `undefined` when that entry was absent. */
  lemma {:induction false} GetRecord(entries: seq<(string, Option<Json>)>, key: string)
    requires DistinctKeys(entries)
    ensures Get(Record(entries), key) == FirstEntry(entries, key)
    decreases |entries|
  {
    if |entries| > 0 {
      assert DistinctKeys(entries[1..]) by {
        forall i, j | 0 <= i < j < |entries| - 1
          ensures entries[1..][i].0 != entries[1..][j].0
        {
          assert entries[1..][i] == entries[i + 1] && entries[1..][j] == entries[j + 1];
        }
      }
      GetRecord(entries[1..], key);
      if entries[0].0 == key && entries[0].1.None? {
        assert FirstEntry(entries[1..], key).None? by {
          FirstEntryAbsent(entries[1..], key);
        }
      }
    }
  }

  /** Reading back the `i`-th property of a record. */
  lemma GetRecordAt(entries: seq<(string, Option<Json>)>, i: nat)
    requires DistinctKeys(entries) && i < |entries|
    ensures Get(Record(entries), entries[i].0) == entries[i].1
  {
    GetRecord(entries, entries[i].0);
    FirstEntryAt(entries, i);
  }

  lemma {:induction false} FirstEntryAt(entries: seq<(string, Option<Json>)>, i: nat)
    requires DistinctKeys(entries) && i < |entries|
    ensures FirstEntry(entries, entries[i].0) == entries[i].1
    decreases i
  {
    if i > 0 {
      assert entries[0].0 != entries[i].0;
      assert DistinctKeys(entries[1..]) by {
        forall a, b | 0 <= a < b < |entries| - 1
          ensures entries[1..][a].0 != entries[1..][b].0
        {
          assert entries[1..][a] == entries[a + 1] && entries[1..][b] == entries[b + 1];
        }
      }
      FirstEntryAt(entries[1..], i - 1);
    }
  }

  /** The value given to `key` by the first entry naming it. */
  function FirstEntry(entries: seq<(string, Option<Json>)>, key: string): Option<Json>
    decreases |entries|
  {
    if |entries| == 0 then None
    else if entries[0].0 == key then entries[0].1
    else FirstEntry(entries[1..], key)
  }

  lemma {:induction false} FirstEntryAbsent(entries: seq<(string, Option<Json>)>, key: string)
    requires forall i :: 0 <= i < |entries| ==> entries[i].0 != key
    ensures FirstEntry(entries, key).None?
    decreases |entries|
  {
    if |entries| > 0 {
      FirstEntryAbsent(entries[1..], key);
    }
  }

  /** `{question: text}`: the record the legacy path builds from bare text. */
  function QuestionOnly(text: string): Json {
    JObj([("question", JStr(text))])
  }

  /** `String(j)`: what `JSON.parse` and property keys turn a value into.
      Arrays join their elements with commas, `null` elements becoming empty. */
  function ToJsString(j: Json): string
    decreases j
  {
    match j
    case JNull => "null"
    case JBool(b) => if b then "true" else "false"
    case JNum(n) => IntToString(n)
    case JStr(s) => s
    case JArr(items) =>
      Join(seq(|items|, i requires 0 <= i < |items| =>
        if items[i].JNull? then "" else ToJsString(items[i])))
    case JObj(_) => "[object Object]"
  }

  /** `[a, b, c].join(",")`. */
  function Join(parts: seq<string>): string
    decreases |parts|
  {
    if |parts| == 0 then ""
    else if |parts| == 1 then parts[0]
    else parts[0] + "," + Join(parts[1..])
  }

  /** `String(x)` of a property key that may be `undefined`. */
  function PropertyKey(o: Option<Json>): string {
    match o
    case None => "undefined"
    case Some(j) => ToJsString(j)
  }

  /** The four characters `JSON.parse` skips before a value. */
  predicate IsJsonSpace(c: char) {
    c == ' ' || c == '\t' || c == '\n' || c == '\r'
  }

  /** The characters a JSON text can begin with once white space is skipped. */
  predicate CanStartJson(c: char) {
    c == '{' || c == '[' || c == '"' || c == '-' || IsDigit(c) || c == 't' || c == 'f' || c == 'n'
  }

  function SkipJsonSpace(s: string): (r: string)
    ensures |r| <= |s|
  {
    if |s| > 0 && IsJsonSpace(s[0]) then SkipJsonSpace(s[1..]) else s
  }

  /** Text that no JSON value can be read from: blank, or its first
      character after JSON white space cannot begin a value. Prose such as
      a story sentence in Chinese is plain text. */
  predicate PlainText(s: string) {
    var t := SkipJsonSpace(s);
    |t| == 0 || !CanStartJson(t[0])
  }

  /** The one law about the host parser the model needs: `JSON.parse`
      throws on plain text. */
  ghost predicate RejectsPlainText(parse: Parser) {
    forall s :: PlainText(s) ==> parse(s).SyntaxError?
  }

  /** Text beginning with a character that is neither JSON white space nor
      able to begin a value is plain text, whatever follows. */
  lemma PlainTextByFirstChar(c: char, rest: string)
    requires !IsJsonSpace(c) && !CanStartJson(c)
    ensures PlainText([c] + rest)
  {
    assert ([c] + rest)[0] == c;
  }
}
