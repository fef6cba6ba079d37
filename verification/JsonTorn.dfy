/** A proper prefix of a written object or array is not a JSON text.

    The argument follows bracket depth: every text the reader accepts closes what it opens,
    and a written object stays open from its first character to its last. */
module JsonTorn {
  import opened Wrappers
  import opened Json
  import opened JsonLaws

  datatype Mode = Outside | InString | Escaped

  datatype Position = Position(depth: int, mode: Mode)

  function Next(q: Position, c: char): Position {
    match q.mode
    case Escaped => q.(mode := InString)
    case InString => if c == '"' then q.(mode := Outside) else if c == '\\' then q.(mode := Escaped) else q
    case Outside =>
      if c == '"' then q.(mode := InString)
      else if c == '{' || c == '[' then q.(depth := q.depth + 1)
      else if c == '}' || c == ']' then q.(depth := q.depth - 1)
      else q
  }

  // Where the scan of s stands after its last character.
  function Scan(s: string, q: Position): Position {
    if s == "" then q else Scan(s[1..], Next(q, s[0]))
  }

  // The depth never falls below floor while s is scanned.
  predicate StaysAbove(s: string, q: Position, floor: int) {
    q.depth >= floor && (s == "" || StaysAbove(s[1..], Next(q, s[0]), floor))
  }

  predicate IsPlain(c: char) { c != '"' && c != '{' && c != '[' && c != '}' && c != ']' }

  // ---------------------------------------------------------------- accepted texts are balanced

  lemma {:induction false} PlainIsLevel(s: string, n: nat, depth: int)
    requires n <= |s| && forall i :: 0 <= i < n ==> IsPlain(s[i])
    ensures Scan(s, Position(depth, Outside)) == Scan(s[n..], Position(depth, Outside))
    decreases n
  {
    if n == 0 {
      assert s[n..] == s;
    } else {
      PlainIsLevel(s[1..], n - 1, depth);
      assert s[1..][n - 1..] == s[n..];
    }
  }

  lemma {:induction false} SpaceIsLevel(s: string, depth: int)
    ensures Scan(SkipSpace(s), Position(depth, Outside)) == Scan(s, Position(depth, Outside))
  {
    if s != "" && IsSpace(s[0]) {
      SpaceIsLevel(s[1..], depth);
    }
  }

  lemma {:induction false} HexIsLevel(s: string, n: nat, depth: int)
    requires n <= |s| && forall i :: 0 <= i < n ==> IsHex(s[i])
    ensures Scan(s, Position(depth, InString)) == Scan(s[n..], Position(depth, InString))
    decreases n
  {
    if n == 0 {
      assert s[n..] == s;
    } else {
      HexIsLevel(s[1..], n - 1, depth);
      assert s[1..][n - 1..] == s[n..];
    }
  }

  lemma {:induction false} EscapeIsLevel(s: string, depth: int)
    requires EscapeLength(s) != 0
    ensures Scan(s, Position(depth, InString)) == Scan(s[EscapeLength(s)..], Position(depth, InString))
  {
    var n := EscapeLength(s);
    assert s[1..][1..] == s[2..];
    HexIsLevel(s[2..], n - 2, depth);
    assert s[2..][n - 2..] == s[n..];
  }

  lemma {:induction false} StringIsBalanced(s: string, depth: int)
    requires ReadString(s).Some?
    ensures Scan(s, Position(depth, InString)) == Scan(ReadString(s).value.1, Position(depth, Outside))
    decreases |s|
  {
    if s[0] == '"' {
    } else if s[0] == '\\' {
      EscapeIsLevel(s, depth);
      StringIsBalanced(s[EscapeLength(s)..], depth);
    } else {
      StringIsBalanced(s[1..], depth);
    }
  }

  lemma {:induction false} ValueIsBalanced(s: string, depth: int)
    requires ReadValue(s).Some?
    ensures Scan(s, Position(depth, Outside)) == Scan(ReadValue(s).value.1, Position(depth, Outside))
    decreases |s|, 0
  {
    var t := SkipSpace(s);
    SpaceIsLevel(s, depth);
    if t[0] == '{' {
      NodeIsBalanced(t[1..], true, depth + 1);
    } else if t[0] == '[' {
      NodeIsBalanced(t[1..], false, depth + 1);
    } else if t[0] == '"' {
      StringIsBalanced(t[1..], depth);
    } else {
      var n := WordLength(t);
      PlainIsLevel(t, n, depth);
    }
  }

  // The length of the literal name or number that the reader takes from t.
  ghost function WordLength(t: string): (n: nat)
    requires t != "" && !IsSpace(t[0]) && t[0] !in "{[\"" && ReadValue(t).Some?
    ensures n <= |t| && ReadValue(t).value.1 == t[n..]
    ensures forall i :: 0 <= i < n ==> IsPlain(t[i])
  {
    if "null" <= t || "true" <= t then 4 else if "false" <= t then 5 else NumberSpan(t)
  }

  lemma {:induction false} NodeIsBalanced(s: string, keyed: bool, depth: int)
    requires ReadNode(s, keyed).Some?
    ensures Scan(s, Position(depth, Outside)) == Scan(ReadNode(s, keyed).value.1, Position(depth - 1, Outside))
    decreases |s|, 3
  {
    var t := SkipSpace(s);
    SpaceIsLevel(s, depth);
    if t != "" && t[0] == Closing(keyed) {
    } else {
      ItemsAreBalanced(s, keyed, depth);
    }
  }

  lemma {:induction false} LabelIsBalanced(s: string, keyed: bool, depth: int)
    requires ReadLabel(s, keyed).Some?
    ensures Scan(s, Position(depth, Outside)) == Scan(ReadLabel(s, keyed).value.1, Position(depth, Outside))
  {
    if keyed {
      var t := SkipSpace(s);
      SpaceIsLevel(s, depth);
      StringIsBalanced(t[1..], depth);
      SpaceIsLevel(ReadString(t[1..]).value.1, depth);
    }
  }

  // What follows the first member of a node.
  ghost function AfterMember(s: string, keyed: bool): (t: string)
    requires ReadItems(s, keyed).Some?
    ensures t != "" && |t| <= |s|
    ensures t[0] == Closing(keyed) ==> ReadItems(s, keyed).value.1 == t[1..]
    ensures t[0] != Closing(keyed) ==>
      t[0] == ',' && ReadItems(t[1..], keyed).Some? && ReadItems(s, keyed).value.1 == ReadItems(t[1..], keyed).value.1
  {
    SkipSpace(ReadValue(ReadLabel(s, keyed).value.1).value.1)
  }

  lemma {:induction false} MemberIsBalanced(s: string, keyed: bool, depth: int)
    requires ReadItems(s, keyed).Some?
    ensures Scan(s, Position(depth, Outside)) == Scan(AfterMember(s, keyed), Position(depth, Outside))
    decreases |s|, 1
  {
    LabelIsBalanced(s, keyed, depth);
    var afterKey := ReadLabel(s, keyed).value.1;
    ValueIsBalanced(afterKey, depth);
    SpaceIsLevel(ReadValue(afterKey).value.1, depth);
  }

  lemma {:induction false} ItemsAreBalanced(s: string, keyed: bool, depth: int)
    requires ReadItems(s, keyed).Some?
    ensures Scan(s, Position(depth, Outside)) == Scan(ReadItems(s, keyed).value.1, Position(depth - 1, Outside))
    decreases |s|, 2
  {
    MemberIsBalanced(s, keyed, depth);
    var t := AfterMember(s, keyed);
    if t[0] != Closing(keyed) {
      ItemsAreBalanced(t[1..], keyed, depth);
    }
  }

  // ---------------------------------------------------------------- written nodes stay open

  lemma {:induction false} ScanConcat(x: string, y: string, q: Position, floor: int)
    ensures Scan(x + y, q) == Scan(y, Scan(x, q))
    ensures StaysAbove(x, q, floor) && StaysAbove(y, Scan(x, q), floor) ==> StaysAbove(x + y, q, floor)
  {
    if x == "" {
      assert x + y == y;
    } else {
      assert (x + y)[1..] == x[1..] + y;
      ScanConcat(x[1..], y, Next(q, x[0]), floor);
    }
  }

  lemma {:induction false} PrefixStaysAbove(x: string, k: nat, q: Position, floor: int)
    requires k <= |x| && StaysAbove(x, q, floor)
    ensures Scan(x[..k], q).depth >= floor
    decreases k
  {
    if k > 0 {
      PrefixStaysAbove(x[1..], k - 1, Next(q, x[0]), floor);
      assert x[..k][1..] == x[1..][..k - 1];
    }
  }

  // A text that starts and ends at the same level and never goes below it.
  predicate IsLevel(x: string, depth: int) {
    var q := Position(depth, Outside);
    Scan(x, q) == q && StaysAbove(x, q, depth)
  }

  lemma LevelConcat(x: string, y: string, depth: int)
    requires IsLevel(x, depth) && IsLevel(y, depth)
    ensures IsLevel(x + y, depth)
  {
    ScanConcat(x, y, Position(depth, Outside), depth);
  }

  lemma {:induction false} PlainTextIsLevel(x: string, depth: int)
    requires forall c :: c in x ==> IsPlain(c)
    ensures IsLevel(x, depth)
  {
    if x != "" {
      assert x[0] in x && forall c :: c in x[1..] ==> c in x;
      PlainTextIsLevel(x[1..], depth);
    }
  }

  lemma {:induction false} HexStaysInString(x: string, depth: int)
    requires forall i :: 0 <= i < |x| ==> IsHex(x[i])
    ensures Scan(x, Position(depth, InString)) == Position(depth, InString)
    ensures StaysAbove(x, Position(depth, InString), depth)
  {
    if x != "" {
      HexStaysInString(x[1..], depth);
    }
  }

  lemma {:induction false} BodyStaysInString(lit: string, depth: int)
    requires IsStringBody(lit)
    ensures Scan(lit, Position(depth, InString)) == Position(depth, InString)
    ensures StaysAbove(lit, Position(depth, InString), depth)
    decreases |lit|
  {
    if lit == "" {
    } else if lit[0] == '\\' {
      var n := EscapeLength(lit);
      var front, back := lit[..n], lit[n..];
      HexStaysInString(front[2..], depth);
      assert front[1..][1..] == front[2..];
      assert StaysAbove(front[1..], Position(depth, Escaped), depth);
      BodyStaysInString(back, depth);
      ScanConcat(front, back, Position(depth, InString), depth);
      assert front + back == lit;
    } else {
      BodyStaysInString(lit[1..], depth);
    }
  }

  lemma QuotedIsLevel(lit: string, depth: int)
    requires IsStringBody(lit)
    ensures IsLevel(Quoted(lit), depth)
  {
    BodyStaysInString(lit, depth);
    assert "\""[1..] == "" && StaysAbove("\"", Position(depth, InString), depth);
    ScanConcat(lit, "\"", Position(depth, InString), depth);
    assert Quoted(lit)[1..] == lit + "\"";
  }

  lemma BracketsAreLevel(open: char, inside: string, close: char, depth: int)
    requires (open == '{' || open == '[') && (close == '}' || close == ']')
    requires IsLevel(inside, depth + 1)
    ensures IsLevel([open] + inside + [close], depth)
  {
    var q := Position(depth + 1, Outside);
    LowerFloor(inside, q, depth + 1, depth);
    assert [close][1..] == "" && StaysAbove([close], q, depth);
    ScanConcat(inside, [close], q, depth);
    var t := [open] + inside + [close];
    assert t[1..] == inside + [close];
  }

  lemma {:induction false} LowerFloor(x: string, q: Position, floor: int, lower: int)
    requires StaysAbove(x, q, floor) && lower <= floor
    ensures StaysAbove(x, q, lower)
  {
    if x != "" {
      LowerFloor(x[1..], Next(q, x[0]), floor, lower);
    }
  }

  lemma {:induction false} TabsArePlain(n: nat)
    ensures forall c :: c in Tabs(n) ==> IsPlain(c)
  {
    if n > 0 {
      TabsArePlain(n - 1);
    }
  }

  lemma NewLineIsLevel(n: nat, depth: int)
    ensures IsLevel(NewLine(n), depth)
  {
    TabsArePlain(n);
    PlainTextIsLevel(NewLine(n), depth);
  }

  lemma LabelIsLevel(key: string, keyed: bool, depth: int)
    requires keyed ==> IsStringBody(key)
    ensures IsLevel(Label(key, keyed), depth)
  {
    if keyed {
      QuotedIsLevel(key, depth);
      PlainTextIsLevel(": ", depth);
      LevelConcat(Quoted(key), ": ", depth);
    }
  }

  lemma {:induction false} TextIsLevel(v: Json, indent: nat, depth: int)
    requires Writable(v)
    ensures IsLevel(Text(v, indent), depth)
    decreases v, 0
  {
    match v
    case Str(lit) => QuotedIsLevel(lit, depth);
    case Arr(items) =>
      InsideIsLevel(items, false, indent, depth + 1);
      BracketsAreLevel('[', Inside(items, false, indent), ']', depth);
    case Obj(items) =>
      InsideIsLevel(items, true, indent, depth + 1);
      BracketsAreLevel('{', Inside(items, true, indent), '}', depth);
    case _ => PlainTextIsLevel(Text(v, indent), depth);
  }

  lemma {:induction false} InsideIsLevel(items: Items, keyed: bool, indent: nat, depth: int)
    requires WritableItems(items, keyed)
    ensures IsLevel(Inside(items, keyed, indent), depth)
    decreases items, 1
  {
    if items.More? {
      LinesAreLevel(items, keyed, indent + 1, depth);
      NewLineIsLevel(indent, depth);
      LevelConcat(Lines(items, keyed, indent + 1), NewLine(indent), depth);
    }
  }

  lemma {:induction false} LinesAreLevel(items: Items, keyed: bool, indent: nat, depth: int)
    requires WritableItems(items, keyed)
    ensures IsLevel(Lines(items, keyed, indent), depth)
    decreases items, 0
  {
    if items.More? {
      NewLineIsLevel(indent, depth);
      LabelIsLevel(items.key, keyed, depth);
      LevelConcat(NewLine(indent), Label(items.key, keyed), depth);
      TextIsLevel(items.value, indent, depth);
      LevelConcat(NewLine(indent) + Label(items.key, keyed), Text(items.value, indent), depth);
      LinesAreLevel(items.rest, keyed, indent, depth);
      PlainTextIsLevel(",", depth);
      LevelConcat(",", Lines(items.rest, keyed, indent), depth);
      LevelConcat(NewLine(indent) + Label(items.key, keyed) + Text(items.value, indent),
                  Rest(items, keyed, indent), depth);
    }
  }

  /** A file holding only the first n characters of a written object cannot be decoded. */
  lemma TornIsUnreadable(items: Items, n: nat)
    requires WritableItems(items, true)
    requires n < |Text(Obj(items), 0)|
    ensures Decode(Text(Obj(items), 0)[..n]) == None
  {
    var torn := Text(Obj(items), 0)[..n];
    if n > 0 {
      StillOpen(items, n);
      if Decode(torn) != None {
        ValueIsBalanced(torn, 0);
        SpaceIsLevel(ReadValue(torn).value.1, 0);
        assert false;
      }
    }
  }

  lemma StillOpen(items: Items, n: nat)
    requires WritableItems(items, true)
    requires 0 < n < |Text(Obj(items), 0)|
    ensures Scan(Text(Obj(items), 0)[..n], Position(0, Outside)).depth >= 1
  {
    InsideIsLevel(items, true, 0, 1);
    BracketStillOpen(Inside(items, true, 0), n);
  }

  lemma BracketStillOpen(inside: string, n: nat)
    requires StaysAbove(inside, Position(1, Outside), 1) && 0 < n < |inside| + 2
    ensures Scan((['{'] + inside + ['}'])[..n], Position(0, Outside)).depth >= 1
  {
    PrefixStaysAbove(inside, n - 1, Position(1, Outside), 1);
    var torn := (['{'] + inside + ['}'])[..n];
    assert torn[0] == '{' && torn[1..] == inside[..n - 1];
  }
}
