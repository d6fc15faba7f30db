/**
 * The JSON trees the app-engine reads with Jackson and the core builds as request
 * bodies. An integral number is a `JNum`; a number written with a fraction or an
 * exponent is a `JDouble`, Jackson's `DoubleNode`. Object fields keep their
 * insertion order, as Jackson's `ObjectNode` does.
 */
module Json {
  import opened Wrappers
  import Text

  /** A Java `double`: a finite value or one of the three special values. */
  datatype Double = Finite(x: real) | NaN | PosInf | NegInf

  /** The JDK's double parser (`Double.parseDouble`, which Jackson's
      `NumberInput.parseDouble` follows): the double a text denotes, None where
      it throws `NumberFormatException`. It is not part of this model, so the
      operations that use it take it as a parameter. */
  type DoubleParser = string -> Option<Double>

  /** `shown` in a `JDouble` is the node's `Double.toString` text, which the
      model does not compute. */
  datatype Json =
    | JNull
    | JBool(b: bool)
    | JNum(n: int)
    | JDouble(d: Double, shown: string)
    | JStr(s: string)
    | JArr(items: seq<Json>)
    | JObj(fields: seq<(string, Json)>)

  /** `JsonNode.get(key)`: the value of the first field named `key`, None for Java null. */
  function Get(j: Json, key: string): (r: Option<Json>)
    ensures r.Some? ==> j.JObj? && exists i :: 0 <= i < |j.fields| && j.fields[i] == (key, r.value)
    ensures r.None? ==> !j.JObj? || forall i :: 0 <= i < |j.fields| ==> j.fields[i].0 != key
  {
    if !j.JObj? then None else Lookup(j.fields, key)
  }

  function Lookup(fields: seq<(string, Json)>, key: string): (r: Option<Json>)
    ensures r.Some? ==> exists i :: 0 <= i < |fields| && fields[i] == (key, r.value)
    ensures r.None? ==> forall i :: 0 <= i < |fields| ==> fields[i].0 != key
  {
    if |fields| == 0 then None
    else if fields[0].0 == key then Some(fields[0].1)
    else
      var r := Lookup(fields[1..], key);
      assert r.Some? ==> fields[1..][0..] == fields[1..];
      r
  }

  /** `JsonNode.has(key)`. */
  predicate Has(j: Json, key: string) {
    Get(j, key).Some?
  }

  /** `ObjectNode.remove(key)`: every field named `key` goes, the rest keep their order. */
  function Remove(j: Json, key: string): (r: Json)
    ensures j.JObj? ==> r.JObj? && !Has(r, key)
    ensures !j.JObj? ==> r == j
    ensures j.JObj? ==> forall k :: k != key ==> Get(r, k) == Get(j, k)
  {
    if !j.JObj? then j else JObj(RemoveField(j.fields, key))
  }

  function RemoveField(fields: seq<(string, Json)>, key: string): (r: seq<(string, Json)>)
    ensures Lookup(r, key).None?
    ensures forall k :: k != key ==> Lookup(r, k) == Lookup(fields, k)
  {
    if |fields| == 0 then []
    else if fields[0].0 == key then RemoveField(fields[1..], key)
    else [fields[0]] + RemoveField(fields[1..], key)
  }

  /** `ObjectNode.put` / `ObjectNode.set`: the field named `key` takes `v` where it
      stands, or is appended when there is none; every other field stays. */
  function Put(j: Json, key: string, v: Json): (r: Json)
    requires j.JObj?
    ensures r.JObj? && Get(r, key) == Some(v)
    ensures forall k :: k != key ==> Get(r, k) == Get(j, k)
  {
    JObj(PutField(j.fields, key, v))
  }

  function PutField(fields: seq<(string, Json)>, key: string, v: Json): (r: seq<(string, Json)>)
    ensures Lookup(r, key) == Some(v)
    ensures forall k :: k != key ==> Lookup(r, k) == Lookup(fields, k)
  {
    if |fields| == 0 then [(key, v)]
    else if fields[0].0 == key then [(key, v)] + fields[1..]
    else [fields[0]] + PutField(fields[1..], key, v)
  }

  /** `JsonNode.textValue()`: the text of a textual node, Java null for any other node. */
  function TextValue(j: Json): (r: Option<string>)
    ensures r.Some? <==> j.JStr?
  {
    if j.JStr? then Some(j.s) else None
  }

  /** `JsonNode.asText()`: the scalar's text; "null" for a null node, "" for containers. */
  function AsText(j: Json): string {
    match j
    case JNull => "null"
    case JBool(b) => if b then "true" else "false"
    case JNum(n) => Text.IntToString(n)
    case JDouble(_, shown) => shown
    case JStr(s) => s
    case JArr(_) => ""
    case JObj(_) => ""
  }

  /** Java's `(int)` cast of a double: NaN is 0, a finite value is truncated
      toward zero, and anything beyond the `int` range saturates at its ends. */
  function DoubleToInt(d: Double): (r: int)
    ensures Text.INT_MIN <= r <= Text.INT_MAX
    ensures d == NaN ==> r == 0
    ensures d.Finite? && 0.0 <= d.x < (Text.INT_MAX + 1) as real ==> r as real <= d.x < r as real + 1.0
    ensures d.Finite? && (Text.INT_MIN - 1) as real < d.x <= 0.0 ==> r as real - 1.0 < d.x <= r as real
    ensures d == PosInf || (d.Finite? && d.x >= Text.INT_MAX as real) ==> r == Text.INT_MAX
    ensures d == NegInf || (d.Finite? && d.x <= Text.INT_MIN as real) ==> r == Text.INT_MIN
  {
    match d
    case NaN => 0
    case PosInf => Text.INT_MAX
    case NegInf => Text.INT_MIN
    case Finite(x) =>
      var t := if x >= 0.0 then x.Floor else 0 - (0.0 - x).Floor;
      if t > Text.INT_MAX then Text.INT_MAX else if t < Text.INT_MIN then Text.INT_MIN else t
  }

  /** The characters `parseAsInt` scans: those after a leading sign. */
  function Scanned(t: string): string {
    if |t| > 0 && (t[0] == '-' || t[0] == '+') then t[1..] else t
  }

  /** The text `parseAsInt` hands to the double parser: a leading '+' is dropped. */
  function Unplussed(t: string): string {
    if |t| > 0 && t[0] == '+' then t[1..] else t
  }

  /** Jackson's `NumberInput.parseAsInt(s, default)`, behind a textual node's
      `asInt`. The text is trimmed. When the characters after an optional sign
      are all ASCII digits it goes through `Integer.parseInt`, whose overflow
      gives the default; otherwise through the double parser and the `(int)`
      cast, a text the parser refuses giving the default. */
  function ParseAsInt(s: string, default: int, parseDouble: DoubleParser): (r: int)
    ensures Text.Trim(s) == "" ==> r == default
    ensures Text.ParseInt(Text.Trim(s)).Some? ==> r == Text.ParseInt(Text.Trim(s)).value
    ensures Text.AllDigits(Scanned(Text.Trim(s))) && Text.ParseInt(Text.Trim(s)).None? ==> r == default
    ensures !Text.AllDigits(Scanned(Text.Trim(s))) && parseDouble(Unplussed(Text.Trim(s))).None? ==> r == default
    ensures forall d :: !Text.AllDigits(Scanned(Text.Trim(s))) && parseDouble(Unplussed(Text.Trim(s))) == Some(d) ==>
      r == DoubleToInt(d)
  {
    var t := Text.Trim(s);
    if |t| == 0 then default
    else if Text.AllDigits(Scanned(t)) then Text.ParseInt(t).GetOr(default)
    else
      assert Text.ParseInt(t).None? by { if Text.ParseInt(t).Some? { ParseIntScansDigits(t); } }
      match parseDouble(Unplussed(t))
      case Some(d) => DoubleToInt(d)
      case None => default
  }

  /** A text `Integer.parseInt` accepts is, past its sign, all ASCII digits. */
  lemma ParseIntScansDigits(t: string)
    requires Text.ParseInt(t).Some?
    ensures Text.AllDigits(Scanned(t))
  {
  }

  /** `JsonNode.asInt()`: `asInt(0)`. */
  function AsInt(j: Json, parseDouble: DoubleParser): (r: int)
    ensures Text.INT_MIN <= r <= Text.INT_MAX
    ensures j.JNum? && Text.INT_MIN <= j.n <= Text.INT_MAX ==> r == j.n
    ensures j.JDouble? ==> r == DoubleToInt(j.d)
    ensures j.JStr? ==> r == ParseAsInt(j.s, 0, parseDouble)
    ensures j.JNull? || j.JArr? || j.JObj? ==> r == 0
  {
    AsIntOr(Some(j), 0, parseDouble)
  }

  /** `JsonNode.asInt(default)` on the node `path(key)` finds: an integral number
      cast to `int` (its low 32 bits), a fractional one by the `(int)` cast, a
      boolean as 1 or 0, a text by `parseAsInt`, and the default for a missing,
      null or container node. */
  function AsIntOr(j: Option<Json>, default: int, parseDouble: DoubleParser): (r: int)
    ensures Text.INT_MIN <= default <= Text.INT_MAX ==> Text.INT_MIN <= r <= Text.INT_MAX
    ensures j.None? || j == Some(JNull) || (j.Some? && (j.value.JArr? || j.value.JObj?)) ==> r == default
    ensures j.Some? && j.value.JNum? ==> (r - j.value.n) % 0x1_0000_0000 == 0 && Text.INT_MIN <= r <= Text.INT_MAX
    ensures j.Some? && j.value.JDouble? ==> r == DoubleToInt(j.value.d)
    ensures j.Some? && j.value.JBool? ==> (r == 1 <==> j.value.b) && (r == 0 <==> !j.value.b)
    ensures j.Some? && j.value.JStr? ==> r == ParseAsInt(j.value.s, default, parseDouble)
  {
    match j
    case Some(JNum(n)) => Text.Int32(n)
    case Some(JDouble(d, _)) => DoubleToInt(d)
    case Some(JBool(b)) => if b then 1 else 0
    case Some(JStr(s)) =>
      assert ParseAsInt(s, default, parseDouble) == default || Text.ParseInt(Text.Trim(s)).Some?
        || (exists d :: parseDouble(Unplussed(Text.Trim(s))) == Some(d));
      ParseAsInt(s, default, parseDouble)
    case _ => default
  }

  /** Jackson truncates what the source reads as an `int`: a fraction, written
      as a number or as text, loses its fractional part, and text in exponent
      form is read through the double parser. */
  lemma {:induction false} FractionsTruncate(parseDouble: DoubleParser)
    requires parseDouble("0.5") == Some(Finite(0.5))
    requires parseDouble("2.5") == Some(Finite(2.5))
    requires parseDouble("1e3") == Some(Finite(1000.0))
    ensures AsIntOr(Some(JStr("0.5")), 4, parseDouble) == 0
    ensures AsInt(JStr("2.5"), parseDouble) == 2
    ensures AsInt(JStr("1e3"), parseDouble) == 1000
    ensures AsIntOr(Some(JDouble(Finite(0.5), "0.5")), 4, parseDouble) == 0
    ensures AsInt(JDouble(Finite(1024.5), "1024.5"), parseDouble) == 1024
  {
    TrimPlain("0.5");
    TrimPlain("2.5");
    TrimPlain("1e3");
    assert !Text.AllDigits("0.5") by { assert !Text.IsDigit("0.5"[1]); }
    assert !Text.AllDigits("2.5") by { assert !Text.IsDigit("2.5"[1]); }
    assert !Text.AllDigits("1e3") by { assert !Text.IsDigit("1e3"[1]); }
  }

  /** Text without blanks at either end is its own trim. */
  lemma TrimPlain(s: string)
    requires |s| > 0 && s[0] > ' ' && s[|s| - 1] > ' '
    ensures Text.Trim(s) == s
  {
  }

  /** `JsonNode.asText(default)` on the node `path(key)` finds: the default for a
      missing or null node, `asText()` for any other. */
  function AsTextOr(j: Option<Json>, default: string): (r: string)
    ensures j.None? || j == Some(JNull) ==> r == default
    ensures j.Some? && j.value.JStr? ==> r == j.value.s
  {
    match j
    case None => default
    case Some(JNull) => default
    case Some(v) => AsText(v)
  }

  /** Jackson's escaping of one character inside a JSON string literal. */
  function EscapeChar(c: char): string {
    if c == '"' then "\\\""
    else if c == '\\' then "\\\\"
    else if c == '\n' then "\\n"
    else if c == '\t' then "\\t"
    else if c == '\r' then "\\r"
    else if c as int == 8 then "\\b"
    else if c as int == 12 then "\\f"
    else if c < ' ' then "\\u00" + [HexDigit(c as int / 16), HexDigit(c as int % 16)]
    else [c]
  }

  function HexDigit(d: nat): char
    requires d < 16
  {
    if d < 10 then ('0' as int + d) as char else ('A' as int + d - 10) as char
  }

  function Escape(s: string): string {
    if |s| == 0 then "" else EscapeChar(s[0]) + Escape(s[1..])
  }

  function Quote(s: string): string {
    "\"" + Escape(s) + "\""
  }

  /** `JsonNode.toString()`: compact JSON text. */
  function Serialize(j: Json): string
    decreases j, 1
  {
    match j
    case JNull => "null"
    case JBool(b) => if b then "true" else "false"
    case JNum(n) => Text.IntToString(n)
    case JDouble(_, shown) => shown
    case JStr(s) => Quote(s)
    case JArr(items) => "[" + SerializeItems(j, items) + "]"
    case JObj(fields) => "{" + SerializeFields(j, fields) + "}"
  }

  function SerializeItems(parent: Json, items: seq<Json>): string
    requires forall i :: 0 <= i < |items| ==> items[i] < parent
    decreases parent, 0, |items|
  {
    if |items| == 0 then ""
    else if |items| == 1 then Serialize(items[0])
    else Serialize(items[0]) + "," + SerializeItems(parent, items[1..])
  }

  function SerializeFields(parent: Json, fields: seq<(string, Json)>): string
    requires forall i :: 0 <= i < |fields| ==> fields[i].1 < parent
    decreases parent, 0, |fields|
  {
    if |fields| == 0 then ""
    else
      var head := Quote(fields[0].0) + ":" + Serialize(fields[0].1);
      if |fields| == 1 then head else head + "," + SerializeFields(parent, fields[1..])
  }
}
