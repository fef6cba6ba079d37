/** JSON texts as the storage layer writes and reads them.

    The writer lays a value out the way an indenting marshaller does; the reader is a
    recursive-descent parser for the grammar of RFC 8259.  A character stands for one byte
    of the file.  String and number literals are kept in their written form, so that the
    reader's result can be compared with what was written. */
module Json {
  import opened Wrappers

  datatype Json =
    | Null
    | True
    | False
    | Num(lit: string)
    | Str(lit: string)
    | Arr(items: Items)
    | Obj(items: Items)

  /** Members of an array or object, in order; array members carry an empty key. */
  datatype Items = End | More(key: string, value: Json, rest: Items)

  // ---------------------------------------------------------------- characters

  predicate IsSpace(c: char) { c == ' ' || c == '\t' || c == '\n' || c == '\r' }

  predicate IsDigit(c: char) { '0' <= c <= '9' }

  predicate IsHex(c: char) { IsDigit(c) || 'a' <= c <= 'f' || 'A' <= c <= 'F' }

  predicate IsNumberChar(c: char) {
    IsDigit(c) || c == '-' || c == '+' || c == '.' || c == 'e' || c == 'E'
  }

  predicate AllDigits(s: string) { s != "" && forall c :: c in s ==> IsDigit(c) }

  // The number of leading characters of s that may belong to a number.
  function NumberSpan(s: string): (n: nat)
    ensures n <= |s|
    ensures forall i :: 0 <= i < n ==> IsNumberChar(s[i])
    ensures n < |s| ==> !IsNumberChar(s[n])
  {
    if s == "" || !IsNumberChar(s[0]) then 0 else 1 + NumberSpan(s[1..])
  }

  // The number of leading digits of s.
  function DigitSpan(s: string): (n: nat)
    ensures n <= |s|
  {
    if s == "" || !IsDigit(s[0]) then 0 else 1 + DigitSpan(s[1..])
  }

  predicate IsExponent(s: string) {
    s == "" ||
    ((s[0] == 'e' || s[0] == 'E') &&
     var t := s[1..];
     AllDigits(if t != "" && (t[0] == '-' || t[0] == '+') then t[1..] else t))
  }

  predicate IsFractionAndExponent(s: string) {
    if s != "" && s[0] == '.' then
      var n := DigitSpan(s[1..]);
      n > 0 && IsExponent(s[1 + n..])
    else
      IsExponent(s)
  }

  // Section 6 of RFC 8259.
  predicate IsNumber(lit: string) {
    var s := if lit != "" && lit[0] == '-' then lit[1..] else lit;
    var n := DigitSpan(s);
    n > 0 && (s[0] == '0' ==> n == 1) && IsFractionAndExponent(s[n..])
  }

  // The length of the escape sequence at the front of s, or 0 if there is none.
  function EscapeLength(s: string): (n: nat)
    ensures n <= |s|
    ensures n != 0 ==> n >= 2 && s[0] == '\\'
    ensures forall i :: 2 <= i < n ==> IsHex(s[i])
  {
    if |s| < 2 || s[0] != '\\' then 0
    else if s[1] in "\"\\/bfnrt" then 2
    else if s[1] == 'u' && |s| >= 6 && IsHex(s[2]) && IsHex(s[3]) && IsHex(s[4]) && IsHex(s[5]) then 6
    else 0
  }

  // s is the inside of a string literal: every quote, backslash and control character escaped.
  predicate IsStringBody(s: string)
    decreases |s|
  {
    if s == "" then true
    else if s[0] == '\\' then EscapeLength(s) != 0 && IsStringBody(s[EscapeLength(s)..])
    else s[0] != '"' && s[0] >= ' ' && IsStringBody(s[1..])
  }

  // ---------------------------------------------------------------- writing

  predicate Writable(v: Json) {
    match v
    case Null => true
    case True => true
    case False => true
    case Num(lit) => IsNumber(lit) && forall c :: c in lit ==> IsNumberChar(c)
    case Str(lit) => IsStringBody(lit)
    case Arr(items) => WritableItems(items, false)
    case Obj(items) => WritableItems(items, true)
  }

  predicate WritableItems(items: Items, keyed: bool) {
    match items
    case End => true
    case More(key, value, rest) =>
      (if keyed then IsStringBody(key) else key == "") && Writable(value) && WritableItems(rest, keyed)
  }

  function Tabs(n: nat): string { if n == 0 then "" else "\t" + Tabs(n - 1) }

  function NewLine(depth: nat): string { "\n" + Tabs(depth) }

  function Quoted(lit: string): string { "\"" + lit + "\"" }

  function Opening(keyed: bool): char { if keyed then '{' else '[' }

  function Closing(keyed: bool): char { if keyed then '}' else ']' }

  function Text(v: Json, depth: nat): string
    decreases v, 0
  {
    match v
    case Null => "null"
    case True => "true"
    case False => "false"
    case Num(lit) => lit
    case Str(lit) => Quoted(lit)
    case Arr(items) => [Opening(false)] + Inside(items, false, depth) + [Closing(false)]
    case Obj(items) => [Opening(true)] + Inside(items, true, depth) + [Closing(true)]
  }

  function Inside(items: Items, keyed: bool, depth: nat): string
    decreases items, 1
  {
    if items.End? then "" else Lines(items, keyed, depth + 1) + NewLine(depth)
  }

  function Label(key: string, keyed: bool): string { if keyed then Quoted(key) + ": " else "" }

  function Lines(items: Items, keyed: bool, depth: nat): string
    decreases items, 0
  {
    match items
    case End => ""
    case More(key, value, rest) =>
      NewLine(depth) + Label(key, keyed) + Text(value, depth)
      + (if rest.End? then "" else "," + Lines(rest, keyed, depth))
  }

  // ---------------------------------------------------------------- reading

  function SkipSpace(s: string): (t: string)
    ensures |t| <= |s|
    ensures t != "" ==> !IsSpace(t[0])
  {
    if s != "" && IsSpace(s[0]) then SkipSpace(s[1..]) else s
  }

  /** The literal up to the closing quote, and what follows that quote. */
  function ReadString(s: string): (r: Option<(string, string)>)
    ensures r.Some? ==> |r.value.1| < |s|
    decreases |s|
  {
    if s == "" then None
    else if s[0] == '"' then Some(("", s[1..]))
    else
      var n := if s[0] == '\\' then EscapeLength(s) else if s[0] >= ' ' then 1 else 0;
      if n == 0 then None
      else
        match ReadString(s[n..])
        case None => None
        case Some((lit, rest)) => Some((s[..n] + lit, rest))
  }

  function ReadValue(s: string): (r: Option<(Json, string)>)
    ensures r.Some? ==> |r.value.1| < |s|
    decreases |s|, 0
  {
    var t := SkipSpace(s);
    if t == "" then None
    else if t[0] == '{' then ReadNode(t[1..], true)
    else if t[0] == '[' then ReadNode(t[1..], false)
    else if t[0] == '"' then
      match ReadString(t[1..])
      case None => None
      case Some((lit, rest)) => Some((Str(lit), rest))
    else ReadWord(t)
  }

  function ReadWord(t: string): (r: Option<(Json, string)>)
    ensures r.Some? ==> |r.value.1| < |t|
  {
    if "null" <= t then Some((Null, t[4..]))
    else if "true" <= t then Some((True, t[4..]))
    else if "false" <= t then Some((False, t[5..]))
    else ReadNumber(t)
  }

  function ReadNumber(t: string): (r: Option<(Json, string)>)
    ensures r.Some? ==> |r.value.1| < |t|
  {
    var n := NumberSpan(t);
    if n > 0 && IsNumber(t[..n]) then Some((Num(t[..n]), t[n..])) else None
  }

  function Node(items: Items, keyed: bool): Json { if keyed then Obj(items) else Arr(items) }

  function ReadNode(s: string, keyed: bool): (r: Option<(Json, string)>)
    ensures r.Some? ==> |r.value.1| < |s|
    decreases |s|, 2
  {
    var t := SkipSpace(s);
    if t != "" && t[0] == Closing(keyed) then Some((Node(End, keyed), t[1..]))
    else
      match ReadItems(s, keyed)
      case None => None
      case Some((items, rest)) => Some((Node(items, keyed), rest))
  }

  /** The key and what follows the colon; array members have neither. */
  function ReadLabel(s: string, keyed: bool): (r: Option<(string, string)>)
    ensures r.Some? ==> |r.value.1| <= |s|
    ensures r.Some? && keyed ==> |r.value.1| < |s|
  {
    if !keyed then Some(("", s))
    else
      var t := SkipSpace(s);
      if t == "" || t[0] != '"' then None
      else
        match ReadString(t[1..])
        case None => None
        case Some((key, rest)) =>
          var u := SkipSpace(rest);
          if u != "" && u[0] == ':' then Some((key, u[1..])) else None
  }

  function ReadItems(s: string, keyed: bool): (r: Option<(Items, string)>)
    ensures r.Some? ==> |r.value.1| < |s|
    decreases |s|, 1
  {
    match ReadLabel(s, keyed)
    case None => None
    case Some((key, afterKey)) =>
      match ReadValue(afterKey)
      case None => None
      case Some((value, afterValue)) =>
        var t := SkipSpace(afterValue);
        if t == "" then None
        else if t[0] == Closing(keyed) then Some((More(key, value, End), t[1..]))
        else if t[0] != ',' then None
        else
          match ReadItems(t[1..], keyed)
          case None => None
          case Some((items, rest)) => Some((More(key, value, items), rest))
  }

  /** A whole file: one value with nothing but white space around it. */
  function Decode(body: string): Option<Json> {
    match ReadValue(body)
    case None => None
    case Some((v, rest)) => if SkipSpace(rest) == "" then Some(v) else None
  }

  // ---------------------------------------------------------------- members by position

  function Length(items: Items): nat { if items.End? then 0 else 1 + Length(items.rest) }

  function KeyAt(items: Items, i: nat): string
    requires i < Length(items)
  {
    if i == 0 then items.key else KeyAt(items.rest, i - 1)
  }

  function ValueAt(items: Items, i: nat): Json
    requires i < Length(items)
  {
    if i == 0 then items.value else ValueAt(items.rest, i - 1)
  }
}
