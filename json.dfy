/**
  Decoded JSON values as the application receives them from the server and the
  browser, with the bits of Python semantics the code relies on: truthiness,
  `a or b`, `dict.get`, `int(value)` and `str(value)`.
 */
module Json {
  import opened Wrappers
  import Text

  datatype Json =
    | JNull
    | JBool(b: bool)
    | JInt(i: int)
    | JStr(s: string)
    | JArr(elems: seq<Json>)
    | JObj(fields: map<string, Json>)

  /** Python truthiness of a decoded JSON value. */
  predicate Truthy(v: Json) {
    match v
    case JNull => false
    case JBool(b) => b
    case JInt(i) => i != 0
    case JStr(s) => s != ""
    case JArr(e) => e != []
    case JObj(f) => f != map[]
  }

  /** Python's `a or b`. */
  function Or(a: Json, b: Json): (r: Json)
    ensures r == a || r == b
    ensures Truthy(a) ==> r == a
  {
    if Truthy(a) then a else b
  }

  /** `str(v or "").strip()`: the text of a value, with None and other falsy values reading as "". */
  function StrippedText(v: Json): string {
    Text.Strip(PyStr(Or(v, JStr(""))))
  }

  /** A non-empty stripped string reads back as itself. */
  lemma StrippedTextOfStripped(s: string)
    requires s != "" && Text.IsStripped(s)
    ensures StrippedText(JStr(s)) == s
  {
    Text.StripOfStripped(s);
  }

  /** A list of strings. */
  function Strings(ts: seq<string>): (r: Json)
    ensures r.JArr? && |r.elems| == |ts|
    ensures forall i :: 0 <= i < |ts| ==> r.elems[i] == JStr(ts[i])
  {
    JArr(seq(|ts|, i requires 0 <= i < |ts| => JStr(ts[i])))
  }

  /** Python's `d.get(k)`: a missing key reads as None. */
  function Get(d: map<string, Json>, k: string): Json {
    if k in d then d[k] else JNull
  }

  /** Python's `d.get(k, default)`. */
  function GetOr(d: map<string, Json>, k: string, default: Json): Json {
    if k in d then d[k] else default
  }

  /** An optional string as Python holds it: the string, or None. */
  function OptionalString(v: Option<string>): Json {
    match v
    case None => JNull
    case Some(s) => JStr(s)
  }

  /** Python's `int(value)`: None for the values on which it raises TypeError or ValueError. */
  function IntOf(v: Json): (r: Option<int>)
    ensures v.JInt? ==> r == Some(v.i)
    ensures v.JNull? || v.JArr? || v.JObj? ==> r == None
  {
    match v
    case JBool(b) => Some(if b then 1 else 0)
    case JInt(i) => Some(i)
    case JStr(s) => Text.ParseInt(s)
    case _ => None
  }

  /**
    Python's `str(value)`. Scalars render as Python renders them; a list renders
    as its elements' `repr` inside brackets; an object renders by its size only.
   */
  function PyStr(v: Json): string
    decreases v, 0
  {
    match v
    case JNull => "None"
    case JBool(b) => if b then "True" else "False"
    case JInt(i) => Text.IntToString(i)
    case JStr(s) => s
    case JArr(e) => "[" + Text.Join(seq(|e|, k requires 0 <= k < |e| => PyRepr(e[k])), ", ") + "]"
    case JObj(f) => if f == map[] then "{}" else "{...}"
  }

  /** `repr()` of a list element: a string is quoted and escaped, anything else renders as `str()`. */
  function PyRepr(v: Json): string
    decreases v, 1
  {
    if v.JStr? then StrRepr(v.s) else PyStr(v)
  }

  /**
    The quote `repr()` puts around a string: `"` when the string holds a `'`
    and no `"`, otherwise `'`.
   */
  function ReprQuote(s: string): (q: char)
    ensures q == '"' <==> '\'' in s && '"' !in s
    ensures q == '"' || q == '\''
  {
    if '\'' in s && '"' !in s then '"' else '\''
  }

  function HexDigit(n: int): char
    requires 0 <= n < 16
  {
    "0123456789abcdef"[n]
  }

  /**
    One character inside a string's `repr()`: the quote and the backslash get a
    backslash, tab, newline and carriage return their escapes, the other ASCII
    control characters `\xhh`, and every other character stands for itself.
   */
  function ReprChar(c: char, quote: char): (r: string)
    ensures r != [] && (r[0] == '\\' <==> |r| > 1)
    ensures c != quote && c != '\\' && ' ' <= c && c as int != 0x7F ==> r == [c]
  {
    if c == quote || c == '\\' then ['\\', c]
    else if c == '\t' then "\\t"
    else if c == '\n' then "\\n"
    else if c == '\r' then "\\r"
    else if c < ' ' || c as int == 0x7F then "\\x" + [HexDigit(c as int / 16), HexDigit(c as int % 16)]
    else [c]
  }

  function ReprChars(s: string, quote: char): (r: string)
    ensures |r| >= |s|
    decreases |s|
  {
    if s == [] then [] else ReprChars(s[..|s| - 1], quote) + ReprChar(s[|s| - 1], quote)
  }

  /** Python's `repr()` of a string. */
  function StrRepr(s: string): (r: string)
    ensures |r| >= |s| + 2
    ensures r[0] == ReprQuote(s) && r[|r| - 1] == ReprQuote(s)
  {
    [ReprQuote(s)] + ReprChars(s, ReprQuote(s)) + [ReprQuote(s)]
  }

  /**
    A string of printable characters without backslashes is quoted as it is,
    and the quote chosen never occurs in it unless the string holds both kinds.
   */
  lemma {:induction false} ReprPlain(s: string, quote: char)
    requires forall i :: 0 <= i < |s| ==> s[i] != quote && s[i] != '\\' && ' ' <= s[i] && s[i] as int != 0x7F
    ensures ReprChars(s, quote) == s
    decreases |s|
  {
    if s != [] {
      ReprPlain(s[..|s| - 1], quote);
      assert s[..|s| - 1] + [s[|s| - 1]] == s;
    }
  }

  /** `repr("it's")` is `"it's"`: a string holding only `'` is quoted with `"`. */
  lemma ApostropheRepr()
    ensures PyRepr(JStr("it's")) == "\"it's\""
  {
    var s := "it's";
    assert s[2] == '\'';
    assert ReprQuote(s) == '"';
    ReprPlain(s, '"');
    assert StrRepr(s) == ['"'] + s + ['"'];
  }

  /** `str(["it's"])` is `["it's"]`. */
  lemma ReprOfApostrophe()
    ensures PyStr(JArr([JStr("it's")])) == "[\"it's\"]"
  {
    var e := [JStr("it's")];
    var parts := seq(|e|, k requires 0 <= k < |e| => PyRepr(e[k]));
    ApostropheRepr();
    assert parts == [PyRepr(JStr("it's"))];
    assert Text.Join(parts, ", ") == "\"it's\"";
    assert PyStr(JArr(e)) == "[" + Text.Join(parts, ", ") + "]";
  }
}
