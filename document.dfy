/**
 * The parsed document as the validators see it: a serde_json value tree.
 * An object is the sequence of its entries in iteration order.
 */
module Document {

  datatype Value =
    | Null
    | Bool(b: bool)
    | Number(n: real)
    | Str(s: string)
    | Array(items: seq<Value>)
    | Object(entries: seq<(string, Value)>)

  /** The keys of an object's entries (`Map::contains_key`). */
  function Keys(entries: seq<(string, Value)>): set<string>
  {
    set i | 0 <= i < |entries| :: entries[i].0
  }

  /** The value of the first entry named `key`, or Null. */
  function Lookup(entries: seq<(string, Value)>, key: string): (r: Value)
    ensures key !in Keys(entries) ==> r == Null
    ensures key in Keys(entries) ==> exists i :: 0 <= i < |entries| && entries[i] == (key, r)
  {
    if |entries| == 0 then Null
    else if entries[0].0 == key then entries[0].1
    else
      var r := Lookup(entries[1..], key);
      KeysOfTail(entries);
      r
  }

  lemma KeysOfTail(entries: seq<(string, Value)>)
    requires |entries| > 0
    ensures Keys(entries) == {entries[0].0} + Keys(entries[1..])
  {
    forall x | x in Keys(entries) ensures x in {entries[0].0} + Keys(entries[1..]) {
      var i :| 0 <= i < |entries| && entries[i].0 == x;
      if i > 0 { assert entries[1..][i - 1].0 == x; }
    }
  }

  /**
   * `value[key]` (serde_json's `Index<&str>`): the entry's value on an
   * object that has the key, Null on anything else.
   */
  function Get(v: Value, key: string): (r: Value)
    ensures !v.Object? ==> r == Null
    ensures v.Object? && key !in Keys(v.entries) ==> r == Null
    ensures v.Object? && key in Keys(v.entries) ==>
              exists i :: 0 <= i < |v.entries| && v.entries[i] == (key, r)
  {
    if v.Object? then Lookup(v.entries, key) else Null
  }

  const HexDigits := "0123456789abcdef"

  /** How serde_json writes one character inside a JSON string literal. */
  function EscapeChar(c: char): (r: string)
    ensures |r| >= 1
    ensures c != '"' && c != '\\' && c >= ' ' ==> r == [c]
  {
    if c == '"' then "\\\""
    else if c == '\\' then "\\\\"
    else if c == '\n' then "\\n"
    else if c == '\r' then "\\r"
    else if c == '\t' then "\\t"
    else if c as int == 8 then "\\b"
    else if c as int == 12 then "\\f"
    else if c < ' ' then "\\u00" + [HexDigits[c as int / 16], HexDigits[c as int % 16]]
    else [c]
  }

  predicate NeedsNoEscape(s: string)
  {
    forall k :: 0 <= k < |s| ==> s[k] != '"' && s[k] != '\\' && s[k] >= ' '
  }

  /**
   * The `Display` of `Value::String(s)`: the JSON string literal of `s`.
   * A string with no quote, backslash or control character is only wrapped in quotes.
   */
  function JsonString(s: string): (r: string)
    ensures NeedsNoEscape(s) ==> r == "\"" + s + "\""
  {
    "\"" + Escaped(s) + "\""
  }

  function Escaped(s: string): (r: string)
    ensures |r| >= |s|
    ensures NeedsNoEscape(s) ==> r == s
  {
    if |s| == 0 then "" else EscapeChar(s[0]) + Escaped(s[1..])
  }
}
