/** Dynamic Python values, as far as the modelled code inspects them. A `dict`
    and a `set` keep their iteration order: a dict is its list of entries in
    insertion order, a set its list of elements in the order `list(s)` yields. */
module PyValue {
  import opened Wrappers

  datatype Value =
    | PNone
    | PBool(b: bool)
    | PInt(i: int)
    | PStr(s: string)
    | PTuple(items: seq<Value>)
    | PList(items: seq<Value>)
    | PDict(entries: seq<(Value, Value)>)
    | PSet(elems: seq<Value>)

  /** Values that Python can hash, i.e. that may be dict keys or set members. */
  predicate Hashable(v: Value) {
    match v
    case PNone => true
    case PBool(_) => true
    case PInt(_) => true
    case PStr(_) => true
    case PTuple(items) => forall i | 0 <= i < |items| :: Hashable(items[i])
    case _ => false
  }

  function Keys(entries: seq<(Value, Value)>): (r: seq<Value>)
    ensures |r| == |entries|
    ensures forall i :: 0 <= i < |r| ==> r[i] == entries[i].0
  {
    if entries == [] then [] else [entries[0].0] + Keys(entries[1..])
  }

  /** Well-formed values: dict keys and set members are hashable and distinct,
      at every depth. */
  predicate WellFormed(v: Value) {
    match v
    case PTuple(items) => forall i | 0 <= i < |items| :: WellFormed(items[i])
    case PList(items) => forall i | 0 <= i < |items| :: WellFormed(items[i])
    case PDict(entries) =>
      NoDups(Keys(entries)) &&
      forall i | 0 <= i < |entries| :: Hashable(entries[i].0) && WellFormed(entries[i].0) && WellFormed(entries[i].1)
    case PSet(elems) =>
      NoDups(elems) && forall i | 0 <= i < |elems| :: Hashable(elems[i]) && WellFormed(elems[i])
    case _ => true
  }

  /** `d.get(key)`: the value stored under `key`, if any. */
  function Lookup(entries: seq<(Value, Value)>, key: Value): (r: Option<Value>)
    ensures r.Some? <==> exists i :: 0 <= i < |entries| && entries[i].0 == key
    ensures r.Some? ==> exists i :: 0 <= i < |entries| && entries[i] == (key, r.value)
  {
    if entries == [] then None
    else if entries[0].0 == key then Some(entries[0].1)
    else
      var r := Lookup(entries[1..], key);
      assert forall i :: 1 <= i < |entries| ==> entries[i] == entries[1..][i - 1];
      r
  }

  /** The first entry holding the key decides the lookup. */
  lemma {:induction false} LookupFirst(entries: seq<(Value, Value)>, i: int, key: Value)
    requires 0 <= i < |entries| && entries[i].0 == key
    requires forall j :: 0 <= j < i ==> entries[j].0 != key
    ensures Lookup(entries, key) == Some(entries[i].1)
  {
    if i > 0 {
      LookupFirst(entries[1..], i - 1, key);
    }
  }

  /** Python truthiness. */
  predicate Truthy(v: Value) {
    match v
    case PNone => false
    case PBool(b) => b
    case PInt(i) => i != 0
    case PStr(s) => s != ""
    case PTuple(items) => items != []
    case PList(items) => items != []
    case PDict(entries) => entries != []
    case PSet(elems) => elems != []
  }

  /** Python's name of the value's type, as `type(v).__name__` gives it. */
  function TypeName(v: Value): string {
    match v
    case PNone => "NoneType"
    case PBool(_) => "bool"
    case PInt(_) => "int"
    case PStr(_) => "str"
    case PTuple(_) => "tuple"
    case PList(_) => "list"
    case PDict(_) => "dict"
    case PSet(_) => "set"
  }

  /** Decimal digits of a natural number, as `str` writes it. */
  function NatToString(n: nat): (r: string)
    ensures |r| >= 1 && forall k :: 0 <= k < |r| ==> '0' <= r[k] <= '9'
  {
    var d := ['0', '1', '2', '3', '4', '5', '6', '7', '8', '9'][n % 10];
    if n < 10 then [d] else NatToString(n / 10) + [d]
  }

  function IntToString(i: int): string {
    if i < 0 then "-" + NatToString(-i) else NatToString(i)
  }

  /** `", ".join(parts)`. */
  function JoinComma(parts: seq<string>): string {
    if parts == [] then ""
    else if |parts| == 1 then parts[0]
    else parts[0] + ", " + JoinComma(parts[1..])
  }

  /** The quote `repr` puts around a string: double quotes when the string
      holds a single quote and no double quote, single quotes otherwise. */
  function QuoteFor(s: string): (q: char)
    ensures q == '"' <==> '\'' in s && '"' !in s
    ensures q == '"' || q == '\''
  {
    if '\'' in s && '"' !in s then '"' else '\''
  }

  function HexDigit(d: int): char
    requires 0 <= d < 16
  {
    "0123456789abcdef"[d]
  }

  /** A character `repr` shows as itself: printable ASCII other than the backslash. */
  predicate PlainChar(c: char) {
    32 <= c as int < 127 && c != '\\'
  }

  /** How `repr` shows one character of a string quoted with `q`: the
      backslash, the quote, newline, carriage return and tab get their
      escapes, other ASCII control characters a `\x` escape. */
  function EscapeChar(c: char, q: char): (r: string)
    ensures PlainChar(c) && c != q ==> r == [c]
    ensures |r| >= 1
  {
    if c == '\\' then "\\\\"
    else if c == q then ['\\', q]
    else if c == '\n' then "\\n"
    else if c == '\r' then "\\r"
    else if c == '\t' then "\\t"
    else if c as int < 32 || c as int == 127 then ['\\', 'x', HexDigit(c as int / 16), HexDigit(c as int % 16)]
    else [c]
  }

  function Escaped(s: string, q: char): string {
    if s == [] then [] else EscapeChar(s[0], q) + Escaped(s[1..], q)
  }

  /** A string of plain characters without the quote is shown unchanged. */
  lemma {:induction false} EscapedPlain(s: string, q: char)
    requires forall i :: 0 <= i < |s| ==> PlainChar(s[i]) && s[i] != q
    ensures Escaped(s, q) == s
  {
    if s != [] {
      EscapedPlain(s[1..], q);
      assert s == [s[0]] + s[1..];
    }
  }

  /** The chosen quote never appears unescaped inside: every occurrence of
      it in the escaped text follows a backslash. */
  lemma {:induction false} EscapedQuoted(s: string, q: char)
    requires q == '"' || q == '\''
    ensures forall i :: 0 <= i < |Escaped(s, q)| && Escaped(s, q)[i] == q ==> i > 0 && Escaped(s, q)[i - 1] == '\\'
  {
    if s != [] {
      EscapedQuoted(s[1..], q);
      var head := EscapeChar(s[0], q);
      var tail := Escaped(s[1..], q);
      EscapeCharQuoted(s[0], q);
      forall i | 0 <= i < |head + tail| && (head + tail)[i] == q ensures i > 0 && (head + tail)[i - 1] == '\\' {
        if i >= |head| {
          assert (head + tail)[i] == tail[i - |head|];
          if i - |head| == 0 {
            assert false;
          }
        }
      }
    }
  }

  /** In one escaped character, the quote only appears after a backslash. */
  lemma EscapeCharQuoted(c: char, q: char)
    requires q == '"' || q == '\''
    ensures forall i :: 0 <= i < |EscapeChar(c, q)| && EscapeChar(c, q)[i] == q ==> i > 0 && EscapeChar(c, q)[i - 1] == '\\'
  {
  }

  /** `repr(s)` for a string. */
  function StrRepr(s: string): (r: string)
    ensures |r| >= 2 && r[0] == QuoteFor(s) && r[|r| - 1] == QuoteFor(s)
  {
    [QuoteFor(s)] + Escaped(s, QuoteFor(s)) + [QuoteFor(s)]
  }

  /** A string of plain characters without a single quote is shown between single quotes. */
  lemma StrReprSingle(s: string)
    requires forall i :: 0 <= i < |s| ==> PlainChar(s[i]) && s[i] != '\''
    ensures StrRepr(s) == "'" + s + "'"
  {
    EscapedPlain(s, '\'');
  }

  /** A string of plain characters with a single quote and no double quote is
      shown between double quotes, unescaped. */
  lemma StrReprDouble(s: string)
    requires forall i :: 0 <= i < |s| ==> PlainChar(s[i]) && s[i] != '"'
    requires '\'' in s
    ensures StrRepr(s) == "\"" + s + "\""
  {
    EscapedPlain(s, '"');
  }

  /** `str(KeyError(key))` for a string key: the key's `repr`. */
  function KeyErrorMessage(key: string): string {
    StrRepr(key)
  }

  /** Python's `repr`; a string is shown as `StrRepr` shows it. Non-ASCII
      characters are shown as themselves. */
  function Repr(v: Value): string {
    match v
    case PNone => "None"
    case PBool(b) => if b then "True" else "False"
    case PInt(i) => IntToString(i)
    case PStr(s) => StrRepr(s)
    case PTuple(items) =>
      var parts := seq(|items|, k requires 0 <= k < |items| => Repr(items[k]));
      "(" + JoinComma(parts) + (if |items| == 1 then "," else "") + ")"
    case PList(items) =>
      "[" + JoinComma(seq(|items|, k requires 0 <= k < |items| => Repr(items[k]))) + "]"
    case PDict(entries) =>
      "{" + JoinComma(seq(|entries|, k requires 0 <= k < |entries| => Repr(entries[k].0) + ": " + Repr(entries[k].1))) + "}"
    case PSet(elems) =>
      if elems == [] then "set()"
      else "{" + JoinComma(seq(|elems|, k requires 0 <= k < |elems| => Repr(elems[k]))) + "}"
  }
}
