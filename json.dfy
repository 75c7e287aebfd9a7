/** The part of Jackson's `JsonNode` API the console catalogs use, over a
    plain JSON tree. An absent node is `None`: it stands both for Jackson's
    `MissingNode` (what `path` returns) and for the Java `null` that `get`
    returns. Numbers are integers. */
module Json {
  import opened Wrappers
  import opened Strings

  datatype Json =
    | JNull
    | JBool(b: bool)
    | JInt(i: int)
    | JString(s: string)
    | JArray(items: seq<Json>)
    | JObject(fields: map<string, Json>)

  /** `node.path(key)` and `node.get(key)`: the field of an object, and
      nothing for any other node. */
  function Field(node: Json, key: string): Option<Json> {
    if node.JObject? && key in node.fields then Some(node.fields[key]) else None
  }

  /** `node.has(key)`: the object has the field, even when it is null. */
  predicate Has(node: Json, key: string) {
    Field(node, key).Some?
  }

  /** `node.hasNonNull(key)`. */
  predicate HasNonNull(node: Json, key: string) {
    Field(node, key).Some? && Field(node, key).value != JNull
  }

  /** `has(key) && get(key).isArray() ? get(key) : createArrayNode()`: the
      elements of an array field, in order, and none otherwise. */
  function ArrayField(node: Json, key: string): (r: seq<Json>)
    ensures Field(node, key).Some? && Field(node, key).value.JArray? ==> r == Field(node, key).value.items
    ensures !(Field(node, key).Some? && Field(node, key).value.JArray?) ==> r == []
  {
    match Field(node, key)
    case Some(JArray(items)) => items
    case _ => []
  }

  // ----- decimal text -----

  function DigitChar(d: nat): char
    requires d < 10
  {
    "0123456789"[d]
  }

  predicate IsDigit(c: char) {
    '0' <= c <= '9'
  }

  /** The decimal digits of a natural number, without leading zeros. */
  function NatText(n: nat): (r: string)
    ensures r != [] && forall k :: 0 <= k < |r| ==> IsDigit(r[k])
    decreases n
  {
    if n < 10 then [DigitChar(n)] else NatText(n / 10) + [DigitChar(n % 10)]
  }

  /** Java's `Integer.toString`/`Long.toString`. */
  function IntText(n: int): (r: string)
    ensures r != []
  {
    if n < 0 then "-" + NatText(-n) else NatText(n)
  }

  /** The value of a string of decimal digits. */
  function DigitsValue(s: string): nat
    requires forall k :: 0 <= k < |s| ==> IsDigit(s[k])
    decreases |s|
  {
    if s == [] then 0 else assert IsDigit(s[|s| - 1]); 10 * DigitsValue(s[..|s| - 1]) + (s[|s| - 1] as int - '0' as int)
  }

  lemma {:induction false} NatTextValue(n: nat)
    ensures DigitsValue(NatText(n)) == n
    decreases n
  {
    if n >= 10 {
      var s := NatText(n);
      NatTextValue(n / 10);
      assert s[..|s| - 1] == NatText(n / 10);
    }
  }

  /** Jackson's `NumberInput.parseAsInt` for text that is a signed run of
      digits: the text is trimmed, a leading `+` or `-` is taken as the
      sign, and every other character must be a digit. */
  function ParseInt(text: string): (r: Option<int>)
  {
    var s := JavaTrim(text);
    if s == [] then None
    else
      var sign := if s[0] == '-' then -1 else 1;
      var digits := if s[0] == '-' || s[0] == '+' then s[1..] else s;
      if digits == [] || exists k :: 0 <= k < |digits| && !IsDigit(digits[k]) then None
      else Some(sign * DigitsValue(digits))
  }

  /** The text Java prints for a number reads back as that number. */
  lemma IntTextRoundTrip(n: int)
    ensures ParseInt(IntText(n)) == Some(n)
  {
    var t := IntText(n);
    var m: nat := if n < 0 then -n else n;
    var digits := NatText(m);
    assert JavaTrim(t) == t by {
      assert !IsJavaTrimmable(t[0]) && !IsJavaTrimmable(t[|t| - 1]);
      StripUnchanged(t, IsJavaTrimmable);
    }
    assert (if t[0] == '-' || t[0] == '+' then t[1..] else t) == digits by {
      if n < 0 {
        assert t == "-" + digits && t[1..] == digits;
      } else {
        assert t == digits && IsDigit(t[0]);
      }
    }
    NatTextValue(m);
    assert !exists k :: 0 <= k < |digits| && !IsDigit(digits[k]);
  }

  // ----- asText / asInt -----

  /** `node.asText()`: `MissingNode` gives "", `NullNode` gives "null",
      containers give "". */
  function AsText(node: Option<Json>): (r: string)
    ensures node.Some? && node.value.JString? ==> r == node.value.s
    ensures node.None? || node.value.JArray? || node.value.JObject? ==> r == ""
    ensures node == Some(JNull) ==> r == "null"
    ensures node.Some? && node.value.JBool? ==> r == if node.value.b then "true" else "false"
    ensures node.Some? && node.value.JInt? ==> ParseInt(r) == Some(node.value.i)
  {
    match node
    case None => ""
    case Some(JNull) => "null"
    case Some(JBool(b)) => if b then "true" else "false"
    case Some(JInt(i)) => IntTextRoundTrip(i); IntText(i)
    case Some(JString(s)) => s
    case Some(JArray(_)) => ""
    case Some(JObject(_)) => ""
  }

  /** `node.asText(default)`: the default stands in for a missing or null
      node; any other node gives its text. */
  function AsTextOr(node: Option<Json>, default: string): (r: string)
    ensures node.None? || node == Some(JNull) ==> r == default
    ensures node.Some? && node.value != JNull ==> r == AsText(node)
  {
    match node
    case None => default
    case Some(JNull) => default
    case _ => AsText(node)
  }

  /** `node.asInt(default)`: numbers as they are, booleans as 1 or 0, text
      through ParseInt, anything else the default. */
  function AsIntOr(node: Option<Json>, default: int): (r: int)
    ensures node.Some? && node.value.JInt? ==> r == node.value.i
    ensures node.None? || node == Some(JNull) ==> r == default
    ensures node.Some? && node.value.JBool? ==> r == if node.value.b then 1 else 0
    ensures node.Some? && node.value.JString? && ParseInt(node.value.s).Some? ==> r == ParseInt(node.value.s).value
    ensures node.Some? && node.value.JString? && ParseInt(node.value.s).None? ==> r == default
    ensures node.Some? && (node.value.JArray? || node.value.JObject?) ==> r == default
  {
    match node
    case Some(JInt(i)) => i
    case Some(JBool(b)) => if b then 1 else 0
    case Some(JString(s)) => (var p := ParseInt(s); if p.Some? then p.value else default)
    case _ => default
  }

  /** A number written as text is read as that number. */
  lemma AsIntOfText(n: int, default: int)
    ensures AsIntOr(Some(JString(IntText(n))), default) == n
  {
    IntTextRoundTrip(n);
  }
}
