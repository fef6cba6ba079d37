/** What the writer lays out reads back: every written value is the value the reader returns. */
module JsonLaws {
  import opened Wrappers
  import opened Json

  // ---------------------------------------------------------------- round trip

  lemma {:induction false} SkipTabs(n: nat, x: string)
    ensures SkipSpace(Tabs(n) + x) == SkipSpace(x)
  {
    if n == 0 {
      assert Tabs(n) + x == x;
    } else {
      assert (Tabs(n) + x)[1..] == Tabs(n - 1) + x;
      SkipTabs(n - 1, x);
    }
  }

  lemma SkipNewLine(n: nat, x: string)
    ensures SkipSpace(NewLine(n) + x) == SkipSpace(x)
  {
    assert (NewLine(n) + x)[1..] == Tabs(n) + x;
    SkipTabs(n, x);
  }

  lemma {:induction false} StringReadsBack(lit: string, tail: string)
    requires IsStringBody(lit)
    ensures ReadString(lit + "\"" + tail) == Some((lit, tail))
    decreases |lit|
  {
    var s := lit + "\"" + tail;
    if lit == "" {
      assert s == "\"" + tail;
    } else {
      var n := if lit[0] == '\\' then EscapeLength(lit) else 1;
      assert lit[0] == '\\' ==> EscapeLength(s) == n;
      assert s[n..] == lit[n..] + "\"" + tail;
      StringReadsBack(lit[n..], tail);
      assert s[..n] + lit[n..] == lit;
    }
  }

  lemma {:induction false} NumberSpans(lit: string, tail: string)
    requires forall c :: c in lit ==> IsNumberChar(c)
    requires tail != "" ==> !IsNumberChar(tail[0])
    ensures NumberSpan(lit + tail) == |lit|
  {
    if lit == "" {
      assert lit + tail == tail;
    } else {
      assert (lit + tail)[1..] == lit[1..] + tail;
      NumberSpans(lit[1..], tail);
    }
  }

  lemma ReadsWord(t: string)
    requires t != "" && !IsSpace(t[0]) && t[0] != '{' && t[0] != '[' && t[0] != '"'
    ensures ReadValue(t) == ReadWord(t)
  {
    assert SkipSpace(t) == t;
  }

  lemma NotPrefix(w: string, t: string)
    requires w != "" && t != "" && w[0] != t[0]
    ensures !(w <= t)
  {
  }

  // A text that starts like a number is read as one.
  lemma ReadsNumber(t: string)
    requires t != "" && IsNumberChar(t[0])
    ensures ReadWord(t) == ReadNumber(t)
  {
    NotPrefix("null", t);
    NotPrefix("true", t);
    NotPrefix("false", t);
  }

  lemma NumberReadsBack(lit: string, tail: string)
    requires Writable(Num(lit))
    requires tail != "" ==> !IsNumberChar(tail[0])
    ensures ReadValue(lit + tail) == Some((Num(lit), tail))
  {
    var t := lit + tail;
    assert t[0] == lit[0] && lit[0] in lit;
    ReadsWord(t);
    ReadsNumber(t);
    NumberSpans(lit, tail);
    assert t[..|lit|] == lit && t[|lit|..] == tail;
  }

  lemma WordReadsBack(v: Json, tail: string)
    requires v.Null? || v.True? || v.False?
    ensures ReadValue(Text(v, 0) + tail) == Some((v, tail))
  {
    var t := Text(v, 0) + tail;
    ReadsWord(t);
    assert t[|Text(v, 0)|..] == tail;
    assert v.True? ==> t[0] == 't';
    assert v.False? ==> t[0] == 'f';
  }

  lemma QuotedReadsBack(lit: string, tail: string)
    requires IsStringBody(lit)
    ensures ReadValue(Quoted(lit) + tail) == Some((Str(lit), tail))
  {
    var t := Quoted(lit) + tail;
    assert t[1..] == lit + "\"" + tail;
    StringReadsBack(lit, tail);
  }

  lemma BracketReads(keyed: bool, x: string)
    ensures ReadValue([Opening(keyed)] + x) == ReadNode(x, keyed)
  {
    assert ([Opening(keyed)] + x)[1..] == x;
  }

  lemma NodeText(v: Json, depth: nat, tail: string)
    requires v.Arr? || v.Obj?
    ensures ReadValue(Text(v, depth) + tail)
         == ReadNode(Inside(v.items, v.Obj?, depth) + [Closing(v.Obj?)] + tail, v.Obj?)
  {
    var inside := Inside(v.items, v.Obj?, depth) + [Closing(v.Obj?)] + tail;
    assert Text(v, depth) + tail == [Opening(v.Obj?)] + inside;
    BracketReads(v.Obj?, inside);
  }

  lemma {:induction false} ValueReadsBack(v: Json, depth: nat, tail: string)
    requires Writable(v)
    requires tail != "" ==> !IsNumberChar(tail[0])
    ensures ReadValue(Text(v, depth) + tail) == Some((v, tail))
    decreases v, 0
  {
    if v.Num? {
      NumberReadsBack(v.lit, tail);
    } else if v.Str? {
      QuotedReadsBack(v.lit, tail);
    } else if v.Arr? || v.Obj? {
      NodeText(v, depth, tail);
      NodeReadsBack(v.items, v.Obj?, depth, tail);
    } else {
      WordReadsBack(v, tail);
    }
  }

  lemma {:induction false} NodeReadsBack(items: Items, keyed: bool, depth: nat, tail: string)
    requires WritableItems(items, keyed)
    ensures ReadNode(Inside(items, keyed, depth) + [Closing(keyed)] + tail, keyed)
         == Some((Node(items, keyed), tail))
    decreases items, 1
  {
    var close := [Closing(keyed)] + tail;
    if items.End? {
      ReadEmptyNode(keyed, tail);
    } else {
      var lines := Lines(items, keyed, depth + 1);
      Reassociate3(lines, NewLine(depth), [Closing(keyed)], tail);
      LinesReadBack(items, keyed, depth + 1, depth, tail);
      LinesDoNotClose(items, keyed, depth + 1, NewLine(depth) + close);
      ReadFullNode(lines + (NewLine(depth) + close), keyed, items, tail);
    }
  }

  lemma ReadEmptyNode(keyed: bool, tail: string)
    ensures ReadNode("" + [Closing(keyed)] + tail, keyed) == Some((Node(End, keyed), tail))
  {
    assert "" + [Closing(keyed)] + tail == [Closing(keyed)] + tail;
    assert ([Closing(keyed)] + tail)[1..] == tail;
  }

  lemma ReadFullNode(s: string, keyed: bool, items: Items, tail: string)
    requires var t := SkipSpace(s); t != "" && t[0] != Closing(keyed)
    requires ReadItems(s, keyed) == Some((items, tail))
    ensures ReadNode(s, keyed) == Some((Node(items, keyed), tail))
  {
  }

  lemma Reassociate3(a: string, b: string, c: string, d: string)
    ensures a + b + c + d == a + (b + (c + d))
  {
  }

  // The first line of a node starts with its key or its value, not with the closing bracket.
  lemma LinesDoNotClose(items: Items, keyed: bool, depth: nat, x: string)
    requires items.More? && WritableItems(items, keyed)
    ensures var t := SkipSpace(Lines(items, keyed, depth) + x); t != "" && t[0] != Closing(keyed)
  {
    var body := Label(items.key, keyed) + (Text(items.value, depth) + (Rest(items, keyed, depth) + x));
    LinesUnfold(items, keyed, depth, x);
    SkipNewLine(depth, body);
    TextStart(items.value, depth);
    assert body[0] == if keyed then '"' else Text(items.value, depth)[0];
    assert SkipSpace(body) == body;
  }

  lemma TextStart(v: Json, depth: nat)
    requires Writable(v)
    ensures var t := Text(v, depth);
      t != "" && !IsSpace(t[0]) && t[0] != ']' && t[0] != '}' && t[0] != ',' && t[0] != ':'
  {
    if v.Num? {
      assert v.lit[0] in v.lit;
    }
  }

  // A member whose key and value read back reads back, up to the separator that follows it.
  lemma MemberReadsBack(key: string, value: Json, keyed: bool, depth: nat, after: string)
    requires if keyed then IsStringBody(key) else key == ""
    requires Writable(value)
    requires ReadValue(Text(value, depth) + after) == Some((value, after))
    ensures var r := ReadLabel(NewLine(depth) + (Label(key, keyed) + (Text(value, depth) + after)), keyed);
      r.Some? && r.value.0 == key && ReadValue(r.value.1) == Some((value, after))
  {
    var body := Text(value, depth) + after;
    TextStart(value, depth);
    LabelReadsBack(key, keyed, depth, body);
    assert SkipSpace(body) == body;
    SameAfterSpace(ReadLabel(NewLine(depth) + (Label(key, keyed) + body), keyed).value.1, body);
  }

  lemma SameAfterSpace(x: string, y: string)
    requires SkipSpace(x) == SkipSpace(y)
    ensures ReadValue(x) == ReadValue(y)
  {
  }

  function Rest(items: Items, keyed: bool, depth: nat): string
    requires items.More?
  {
    if items.rest.End? then "" else "," + Lines(items.rest, keyed, depth)
  }

  // The first line of a node, taken apart.
  lemma LinesUnfold(items: Items, keyed: bool, depth: nat, end: string)
    requires items.More?
    ensures Lines(items, keyed, depth) + end
         == NewLine(depth) + (Label(items.key, keyed) + (Text(items.value, depth) + (Rest(items, keyed, depth) + end)))
  {
    Reassociate(NewLine(depth), Label(items.key, keyed), Text(items.value, depth), Rest(items, keyed, depth), end);
  }

  lemma Reassociate(a: string, b: string, c: string, d: string, e: string)
    ensures a + b + c + d + e == a + (b + (c + (d + e)))
  {
  }

  lemma Comma(a: string, b: string)
    ensures "," + a + b == "," + (a + b)
  {
  }

  lemma ReadLastItem(s: string, keyed: bool, key: string, value: Json, after: string, tail: string)
    requires var r := ReadLabel(s, keyed);
      r.Some? && r.value.0 == key && ReadValue(r.value.1) == Some((value, after))
    requires SkipSpace(after) == [Closing(keyed)] + tail
    ensures ReadItems(s, keyed) == Some((More(key, value, End), tail))
  {
    assert SkipSpace(after)[1..] == tail;
  }

  lemma ReadNextItem(s: string, keyed: bool, key: string, value: Json, next: string, items: Items, tail: string)
    requires var r := ReadLabel(s, keyed);
      r.Some? && r.value.0 == key && ReadValue(r.value.1) == Some((value, "," + next))
    requires ReadItems(next, keyed) == Some((items, tail))
    ensures ReadItems(s, keyed) == Some((More(key, value, items), tail))
  {
    assert SkipSpace("," + next) == "," + next;
    assert ("," + next)[1..] == next;
  }

  lemma {:induction false} LinesReadBack(items: Items, keyed: bool, depth: nat, outer: nat, tail: string)
    requires items.More? && WritableItems(items, keyed)
    ensures ReadItems(Lines(items, keyed, depth) + (NewLine(outer) + ([Closing(keyed)] + tail)), keyed)
         == Some((items, tail))
    decreases items, 0
  {
    var close := [Closing(keyed)] + tail;
    var end := NewLine(outer) + close;
    var after := Rest(items, keyed, depth) + end;
    var s := Lines(items, keyed, depth) + end;
    LinesUnfold(items, keyed, depth, end);
    ValueReadsBack(items.value, depth, after);
    MemberReadsBack(items.key, items.value, keyed, depth, after);
    if items.rest.End? {
      assert "" + end == end;
      SkipNewLine(outer, close);
      ReadLastItem(s, keyed, items.key, items.value, after, tail);
    } else {
      var next := Lines(items.rest, keyed, depth) + end;
      Comma(Lines(items.rest, keyed, depth), end);
      LinesReadBack(items.rest, keyed, depth, outer, tail);
      ReadNextItem(s, keyed, items.key, items.value, next, items.rest, tail);
    }
  }

  lemma LabelReadsBack(key: string, keyed: bool, depth: nat, body: string)
    requires if keyed then IsStringBody(key) else key == ""
    requires body != "" ==> !IsSpace(body[0])
    ensures var r := ReadLabel(NewLine(depth) + (Label(key, keyed) + body), keyed);
      r.Some? && r.value.0 == key && SkipSpace(r.value.1) == body
  {
    var s := NewLine(depth) + (Label(key, keyed) + body);
    SkipNewLine(depth, Label(key, keyed) + body);
    if keyed {
      var t := Label(key, keyed) + body;
      assert t[1..] == key + "\"" + (": " + body);
      StringReadsBack(key, ": " + body);
      assert (": " + body)[1..] == " " + body;
      assert (" " + body)[1..] == body;
    } else {
      assert Label(key, keyed) + body == body;
    }
  }

  /** Reading back a written value gives the value. */
  lemma ReadsBack(v: Json)
    requires Writable(v)
    ensures Decode(Text(v, 0)) == Some(v)
  {
    ValueReadsBack(v, 0, "");
    assert Text(v, 0) + "" == Text(v, 0);
  }

  /** Text after a written object must be white space. */
  lemma TrailingTextIff(items: Items, tail: string)
    requires WritableItems(items, true)
    ensures Decode(Text(Obj(items), 0) + tail) == if SkipSpace(tail) == "" then Some(Obj(items)) else None
  {
    var inside := Inside(items, true, 0) + [Closing(true)] + tail;
    assert Text(Obj(items), 0) + tail == [Opening(true)] + inside;
    BracketReads(true, inside);
    NodeReadsBack(items, true, 0, tail);
  }

  // ---------------------------------------------------------------- the layout

  lemma {:induction false} TabsAre(n: nat)
    ensures |Tabs(n)| == n && forall i :: 0 <= i < n ==> Tabs(n)[i] == '\t'
  {
    if n > 0 {
      TabsAre(n - 1);
    }
  }

  /** Each member stands on its own line, indented by one tab more than the brackets around it, with a space
      after the colon and a comma before the next one. */
  lemma Layout(items: Items, depth: nat)
    requires items.More?
    ensures var line := "\n" + Tabs(depth + 1) + "\"" + items.key + "\": " + Text(items.value, depth + 1);
      var next := if items.rest.End? then "" else "," + Lines(items.rest, true, depth + 1);
      Text(Obj(items), depth) == "{" + (line + next + "\n" + Tabs(depth)) + "}"
  {
    var member := Label(items.key, true) + Text(items.value, depth + 1);
    assert Label(items.key, true) == "\"" + items.key + "\"" + ": ";
    assert "\"" + items.key + "\"" + ": " == "\"" + items.key + "\": ";
    assert Text(Obj(items), depth) == "{" + Inside(items, true, depth) + "}";
  }

  // ---------------------------------------------------------------- what is read can be written

  lemma {:induction false} StringReadIs(s: string)
    requires ReadString(s).Some?
    ensures var (lit, rest) := ReadString(s).value; IsStringBody(lit) && s == lit + "\"" + rest
    decreases |s|
  {
    var (lit, rest) := ReadString(s).value;
    if s[0] != '"' {
      var n := if s[0] == '\\' then EscapeLength(s) else 1;
      var inner := ReadString(s[n..]).value.0;
      StringReadIs(s[n..]);
      BodyMore(s[..n], inner, s);
      Glue(s, n, inner, "\"", rest);
    }
  }

  lemma Glue(s: string, n: nat, inner: string, quote: string, rest: string)
    requires n <= |s| && s[n..] == inner + quote + rest
    ensures s == s[..n] + inner + quote + rest
  {
    assert s == s[..n] + s[n..];
  }

  /** The reader takes exactly the bodies of string literals. */
  lemma StringReadIff(s: string, lit: string, rest: string)
    ensures ReadString(s) == Some((lit, rest)) <==> IsStringBody(lit) && s == lit + "\"" + rest
  {
    if IsStringBody(lit) && s == lit + "\"" + rest {
      StringReadsBack(lit, rest);
    }
    if ReadString(s) == Some((lit, rest)) {
      StringReadIs(s);
    }
  }

  lemma BodyMore(front: string, inner: string, s: string)
    requires s != "" && IsStringBody(inner)
    requires if s[0] == '\\' then EscapeLength(s) != 0 && front == s[..EscapeLength(s)]
             else s[0] != '"' && s[0] >= ' ' && front == s[..1]
    ensures IsStringBody(front + inner)
  {
    var lit := front + inner;
    assert lit[0] == s[0] && lit[|front|..] == inner;
    if s[0] == '\\' {
      assert EscapeLength(lit) == |front|;
    }
  }

  lemma {:induction false} ReadIsWritable(s: string)
    requires ReadValue(s).Some?
    ensures Writable(ReadValue(s).value.0)
    decreases |s|, 0
  {
    var t := SkipSpace(s);
    if t[0] == '{' {
      NodeIsWritable(t[1..], true);
    } else if t[0] == '[' {
      NodeIsWritable(t[1..], false);
    } else if t[0] == '"' {
      var r := ReadString(t[1..]).value;
      StringReadIff(t[1..], r.0, r.1);
    }
  }

  lemma {:induction false} NodeIsWritable(s: string, keyed: bool)
    requires ReadNode(s, keyed).Some?
    ensures Writable(ReadNode(s, keyed).value.0)
    decreases |s|, 2
  {
    var t := SkipSpace(s);
    if !(t != "" && t[0] == Closing(keyed)) {
      ItemsReadAreWritable(s, keyed);
    }
  }

  lemma {:induction false} ItemsReadAreWritable(s: string, keyed: bool)
    requires ReadItems(s, keyed).Some?
    ensures WritableItems(ReadItems(s, keyed).value.0, keyed)
    decreases |s|, 1
  {
    var (key, afterKey) := ReadLabel(s, keyed).value;
    if keyed {
      var t := SkipSpace(s);
      var r := ReadString(t[1..]).value;
      StringReadIff(t[1..], r.0, r.1);
    }
    ReadIsWritable(afterKey);
    var t := SkipSpace(ReadValue(afterKey).value.1);
    if t[0] != Closing(keyed) {
      ItemsReadAreWritable(t[1..], keyed);
    }
  }

  /** Whatever text was decoded, writing the value and reading it again gives it back. */
  lemma DecodedReadsBack(s: string)
    requires Decode(s).Some?
    ensures Decode(Text(Decode(s).value, 0)) == Decode(s)
  {
    ReadIsWritable(s);
    ReadsBack(Decode(s).value);
  }
}
