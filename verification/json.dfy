/** Decoded JSON values and the Python operations the bot applies to them:
    `dict.get`, `isinstance` against `Mapping` and `Sequence`, truthiness,
    `int(...)`, `str(...)` and equality of dictionary keys. Floats are not
    part of the model. */
module Json {
  import opened Wrappers
  import opened Text

  datatype JValue =
    | JNull
    | JBool(b: bool)
    | JInt(i: int)
    | JStr(s: string)
    | JList(items: seq<JValue>)
    | JObj(fields: seq<Field>)

  /** One key of a decoded object; an object lists its keys in insertion
      order, each key once, as a Python dict does. */
  datatype Field = Field(key: string, value: JValue)

  /** `d.get(key)` distinguishing a missing key (`None`) from a present one. */
  function Lookup(fields: seq<Field>, key: string): (r: Option<JValue>)
    ensures r.None? <==> forall k :: 0 <= k < |fields| ==> fields[k].key != key
    ensures r.Some? ==> exists k :: 0 <= k < |fields| && fields[k] == Field(key, r.value)
  {
    if |fields| == 0 then None
    else if fields[0].key == key then Some(fields[0].value)
    else Lookup(fields[1..], key)
  }

  /** `d.get(key)`: a missing key reads as `None`. */
  function Get(fields: seq<Field>, key: string): JValue {
    Lookup(fields, key).GetOr(JNull)
  }

  /** `isinstance(v, Mapping)`. */
  predicate IsMapping(v: JValue) {
    v.JObj?
  }

  /** `isinstance(v, Sequence)`: lists and also strings. */
  predicate IsSequence(v: JValue) {
    v.JList? || v.JStr?
  }

  /** Iterating a sequence: the items of a list, the one-character strings of
      a string. */
  function Elements(v: JValue): (r: seq<JValue>)
    requires IsSequence(v)
    ensures v.JList? ==> r == v.items
    ensures v.JStr? ==> |r| == |v.s| && forall i :: 0 <= i < |r| ==> r[i] == JStr([v.s[i]])
  {
    if v.JList? then v.items else seq(|v.s|, i requires 0 <= i < |v.s| => JStr([v.s[i]]))
  }

  /** Python truthiness: `None`, `False`, `0` and empty strings, lists and
      objects are false. */
  predicate Truthy(v: JValue) {
    match v
    case JNull => false
    case JBool(b) => b
    case JInt(i) => i != 0
    case JStr(s) => s != ""
    case JList(items) => items != []
    case JObj(fields) => fields != []
  }

  /** `int(v)`; `None` stands for the `TypeError` or `ValueError` raised.
      `bool` is a subclass of `int`, so `int(True) == 1`. */
  function PyInt(v: JValue): (r: Option<int>)
    ensures v.JInt? ==> r == Some(v.i)
    ensures v.JBool? ==> r == Some(if v.b then 1 else 0)
    ensures v.JNull? || v.JList? || v.JObj? ==> r.None?
  {
    match v
    case JBool(b) => Some(if b then 1 else 0)
    case JInt(i) => Some(i)
    case JStr(s) => ParseInt(s)
    case _ => None
  }

  /** `repr` of a Python str: single quotes unless the text holds a single
      quote and no double quote; backslash, the quote, tab, newline, carriage
      return and the other characters below U+0100 that Python does not
      print (the C0 and C1 controls, DEL, no-break space and soft hyphen)
      escaped as `\xNN`. */
  function ReprString(s: string): string {
    var q := if '\'' in s && '"' !in s then '"' else '\'';
    [q] + EscapeChars(s, q) + [q]
  }

  function HexDigit(d: nat): char
    requires d < 16
  {
    if d < 10 then DigitChar(d) else ('a' as int + d - 10) as char
  }

  function EscapeChar(c: char, q: char): string {
    if c == '\\' then "\\\\"
    else if c == q then ['\\', q]
    else if c == '\t' then "\\t"
    else if c == '\n' then "\\n"
    else if c == '\r' then "\\r"
    else if c as int < 0x20 || 0x7F <= c as int <= 0xA0 || c as int == 0xAD then
      ['\\', 'x', HexDigit(c as int / 16), HexDigit(c as int % 16)]
    else [c]
  }

  function EscapeChars(s: string, q: char): string {
    if |s| == 0 then "" else EscapeChar(s[0], q) + EscapeChars(s[1..], q)
  }

  /** `repr(v)` of the Python object decoded from the JSON value. */
  function Repr(v: JValue): string
    decreases v, 1
  {
    match v
    case JStr(s) => ReprString(s)
    case JList(items) => "[" + Join(", ", ReprItems(v, items)) + "]"
    case JObj(fields) => "{" + Join(", ", ReprFields(v, fields)) + "}"
    case _ => ScalarStr(v)
  }

  function ReprItems(ghost parent: JValue, items: seq<JValue>): seq<string>
    requires forall i :: 0 <= i < |items| ==> items[i] < parent
    decreases parent, 0, |items|
  {
    if |items| == 0 then [] else [Repr(items[0])] + ReprItems(parent, items[1..])
  }

  function ReprFields(ghost parent: JValue, fields: seq<Field>): seq<string>
    requires forall i :: 0 <= i < |fields| ==> fields[i].value < parent
    decreases parent, 0, |fields|
  {
    if |fields| == 0 then []
    else [ReprString(fields[0].key) + ": " + Repr(fields[0].value)] + ReprFields(parent, fields[1..])
  }

  /** `str` and `repr` of `None`, booleans and integers. */
  function ScalarStr(v: JValue): string {
    match v
    case JNull => "None"
    case JBool(b) => if b then "True" else "False"
    case JInt(i) => IntToString(i)
    case _ => ""
  }

  /** `str(v)`: strings are themselves, other values are their `repr`. */
  function PyStr(v: JValue): string {
    match v
    case JStr(s) => s
    case _ => Repr(v)
  }

  /** Values usable as dictionary keys; lists and objects raise `TypeError`. */
  predicate Hashable(v: JValue) {
    !v.JList? && !v.JObj?
  }

  /** Python `==` between hashable values: `True == 1` and `False == 0`, a
      string never equals a number. */
  predicate KeyEq(a: JValue, b: JValue)
    requires Hashable(a) && Hashable(b)
  {
    match (a, b)
    case (JNull, JNull) => true
    case (JStr(x), JStr(y)) => x == y
    case (JStr(_), _) => false
    case (_, JStr(_)) => false
    case (JNull, _) => false
    case (_, JNull) => false
    case _ => PyInt(a) == PyInt(b)
  }

  lemma KeyEqIsEquivalence(a: JValue, b: JValue, c: JValue)
    requires Hashable(a) && Hashable(b) && Hashable(c)
    ensures KeyEq(a, a)
    ensures KeyEq(a, b) ==> KeyEq(b, a)
    ensures KeyEq(a, b) && KeyEq(b, c) ==> KeyEq(a, c)
  {
  }
}
