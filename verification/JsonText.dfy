/** The canonical text of a JSON value, and why no such text of an object is the beginning of another. */
module JsonText {

  /** `Plain` is a number, `true`, `false` or `null`; the members of an object are listed in the order of their keys. */
  datatype Value = Plain(text: string) | Str(s: string) | List(items: seq<Value>) | Object(members: seq<Member>)

  datatype Member = Member(key: string, value: Value)

  // ---- Rendering --------------------------------------------------------------------------------------------------------

  function HexDigit(n: nat): char
    requires n < 16
  {
    "0123456789abcdef"[n]
  }

  /** One character inside a JSON string: quotes, backslashes and control characters are escaped. */
  function Escape(c: char): string {
    if c == '"' || c == '\\' then ['\\', c]
    else if c == '\n' then "\\n"
    else if c == '\r' then "\\r"
    else if c == '\t' then "\\t"
    else if c == '\U{0008}' then "\\b"
    else if c == '\U{000C}' then "\\f"
    else if c < ' ' then "\\u00" + [HexDigit(c as int / 16), HexDigit(c as int % 16)]
    else [c]
  }

  function EscapeAll(s: string): string {
    if s == "" then "" else Escape(s[0]) + EscapeAll(s[1..])
  }

  function Quoted(s: string): string {
    "\"" + (EscapeAll(s) + "\"")
  }

  function Render(v: Value): string {
    match v
    case Plain(text) => text
    case Str(s) => Quoted(s)
    case List(items) => "[" + (RenderItems(items) + "]")
    case Object(members) => "{" + (RenderMembers(members) + "}")
  }

  function RenderItems(items: seq<Value>): string {
    if items == [] then ""
    else Render(items[0]) + if |items| == 1 then "" else "," + RenderItems(items[1..])
  }

  function RenderMembers(members: seq<Member>): string {
    if members == [] then ""
    else
      Quoted(members[0].key) + (":" + Render(members[0].value))
      + if |members| == 1 then "" else "," + RenderMembers(members[1..])
  }

  /** Numbers and the three words hold no quote, bracket or brace. */
  predicate Neutral(c: char) {
    c != '"' && c != '[' && c != ']' && c != '{' && c != '}'
  }

  predicate WellFormed(v: Value) {
    match v
    case Plain(text) => forall k :: 0 <= k < |text| ==> Neutral(text[k])
    case Str(_) => true
    case List(items) => forall i :: i in items ==> WellFormed(i)
    case Object(members) => forall m :: m in members ==> WellFormed(m.value)
  }

  // ---- Reading brackets ---------------------------------------------------------------------------------------------------

  datatype Mode = Outside | Inside | Escaped

  /** How many brackets are open, and whether the next character is inside a string. */
  datatype Reader = Reader(depth: int, mode: Mode)

  function Step(r: Reader, c: char): Reader {
    match r.mode
    case Escaped => r.(mode := Inside)
    case Inside => if c == '\\' then r.(mode := Escaped) else if c == '"' then r.(mode := Outside) else r
    case Outside =>
      if c == '"' then r.(mode := Inside)
      else if c == '[' || c == '{' then r.(depth := r.depth + 1)
      else if c == ']' || c == '}' then r.(depth := r.depth - 1)
      else r
  }

  function Read(r: Reader, s: string): Reader
    decreases |s|
  {
    if s == "" then r else Read(Step(r, s[0]), s[1..])
  }

  /** Reading the text, the depth never falls below `floor`. */
  predicate Above(r: Reader, s: string, floor: int)
    decreases |s|
  {
    r.depth >= floor && (s != "" ==> Above(Step(r, s[0]), s[1..], floor))
  }

  /** The text keeps to its level: it ends where it began, and never falls below. */
  ghost predicate Level(s: string) {
    forall d: int {:trigger Reader(d, Outside)} :: Read(Reader(d, Outside), s) == Reader(d, Outside) && Above(Reader(d, Outside), s, d)
  }

  /** The text of an object: its opening brace is closed at the very end, and not before. */
  ghost predicate ObjectText(s: string) {
    |s| >= 2 && s[0] == '{' && s[|s| - 1] == '}' && Level(s[1..|s| - 1])
  }

  lemma {:induction false} ReadConcat(r: Reader, a: string, b: string, floor: int)
    ensures Read(r, a + b) == Read(Read(r, a), b)
    ensures Above(r, a, floor) ==> Read(r, a).depth >= floor
    ensures Above(r, a + b, floor) <==> Above(r, a, floor) && Above(Read(r, a), b, floor)
    decreases |a|
  {
    if a == "" {
      assert a + b == b;
    } else {
      assert (a + b)[0] == a[0] && (a + b)[1..] == a[1..] + b;
      ReadConcat(Step(r, a[0]), a[1..], b, floor);
    }
  }

  lemma LevelConcat(a: string, b: string)
    requires Level(a) && Level(b)
    ensures Level(a + b)
  {
    forall d: int ensures Read(Reader(d, Outside), a + b) == Reader(d, Outside) && Above(Reader(d, Outside), a + b, d) {
      ReadConcat(Reader(d, Outside), a, b, d);
    }
  }

  lemma {:induction false} NeutralIsLevel(s: string)
    requires forall k :: 0 <= k < |s| ==> Neutral(s[k])
    ensures Level(s)
  {
    if s != "" {
      NeutralIsLevel(s[1..]);
    }
  }

  lemma {:induction false} EscapedStaysInside(s: string, d: int)
    ensures Read(Reader(d, Inside), EscapeAll(s)) == Reader(d, Inside) && Above(Reader(d, Inside), EscapeAll(s), d)
  {
    if s != "" {
      EscapedStaysInside(s[1..], d);
      EscapeStaysInside(s[0], d);
      ReadConcat(Reader(d, Inside), Escape(s[0]), EscapeAll(s[1..]), d);
    }
  }

  lemma {:induction false} PlainStaysInside(s: string, d: int)
    requires forall k :: 0 <= k < |s| ==> s[k] != '\\' && s[k] != '"'
    ensures Read(Reader(d, Inside), s) == Reader(d, Inside) && Above(Reader(d, Inside), s, d)
  {
    if s != "" {
      PlainStaysInside(s[1..], d);
    }
  }

  /** An escaped character is a backslash, one more character, and then no quote or backslash; or neither of the two. */
  lemma EscapeShape(c: char)
    ensures var e := Escape(c);
      e != "" && if e[0] == '\\' then |e| >= 2 && forall k :: 2 <= k < |e| ==> e[k] != '\\' && e[k] != '"'
                 else e == [c] && c != '"'
  {
    if c < ' ' {
      HexIsPlain(c as int / 16);
      HexIsPlain(c as int % 16);
    }
  }

  lemma HexIsPlain(n: nat)
    requires n < 16
    ensures HexDigit(n) != '\\' && HexDigit(n) != '"'
  {
  }

  lemma EscapeStaysInside(c: char, d: int)
    ensures Read(Reader(d, Inside), Escape(c)) == Reader(d, Inside) && Above(Reader(d, Inside), Escape(c), d)
  {
    EscapeShape(c);
    var e := Escape(c);
    hide Escape;
    if e[0] == '\\' {
      assert e == ['\\', e[1]] + e[2..];
      PlainStaysInside(e[2..], d);
      ReadConcat(Reader(d, Inside), ['\\', e[1]], e[2..], d);
      TwoSteps('\\', e[1], d);
    } else {
      PlainStaysInside(e, d);
    }
  }

  lemma TwoSteps(a: char, b: char, d: int)
    requires a == '\\'
    ensures Read(Reader(d, Inside), [a, b]) == Reader(d, Inside) && Above(Reader(d, Inside), [a, b], d)
  {
    assert [a, b] == [a] + [b];
    One(Reader(d, Inside), a, d);
    One(Reader(d, Escaped), b, d);
    ReadConcat(Reader(d, Inside), [a], [b], d);
  }

  lemma One(r: Reader, c: char, floor: int)
    ensures Read(r, [c]) == Step(r, c) && (Above(r, [c], floor) <==> r.depth >= floor && Step(r, c).depth >= floor)
  {
    assert [c][1..] == "";
  }

  lemma QuotedIsLevel(s: string)
    ensures Level(Quoted(s))
  {
    forall d: int ensures Read(Reader(d, Outside), Quoted(s)) == Reader(d, Outside) && Above(Reader(d, Outside), Quoted(s), d) {
      EscapedStaysInside(s, d);
      One(Reader(d, Outside), '"', d);
      One(Reader(d, Inside), '"', d);
      ReadConcat(Reader(d, Inside), EscapeAll(s), "\"", d);
      ReadConcat(Reader(d, Outside), "\"", EscapeAll(s) + "\"", d);
    }
  }

  lemma BracketedIsLevel(open: char, s: string, close: char)
    requires Level(s) && (open == '[' || open == '{') && (close == ']' || close == '}')
    ensures Level([open] + (s + [close]))
  {
    forall d: int ensures var t := [open] + (s + [close]); Read(Reader(d, Outside), t) == Reader(d, Outside) && Above(Reader(d, Outside), t, d) {
      BracketedAt(open, s, close, d);
    }
  }

  lemma BracketedAt(open: char, s: string, close: char, d: int)
    requires Level(s) && (open == '[' || open == '{') && (close == ']' || close == '}')
    ensures var t := [open] + (s + [close]); Read(Reader(d, Outside), t) == Reader(d, Outside) && Above(Reader(d, Outside), t, d)
  {
    var inner := Reader(d + 1, Outside);
    assert Read(inner, s) == inner && Above(inner, s, d + 1);
    hide Level, Read, Above;
    One(Reader(d, Outside), open, d);
    One(inner, close, d);
    Lower(inner, s, d + 1);
    ReadConcat(inner, s, [close], d);
    ReadConcat(Reader(d, Outside), [open], s + [close], d);
  }

  lemma {:induction false} Lower(r: Reader, s: string, floor: int)
    requires Above(r, s, floor)
    ensures Above(r, s, floor - 1)
    decreases |s|
  {
    if s != "" {
      Lower(Step(r, s[0]), s[1..], floor);
    }
  }

  lemma Neutrals()
    ensures Level("") && Level(",") && Level(":")
  {
    NeutralIsLevel("");
    NeutralIsLevel(",");
    NeutralIsLevel(":");
  }

  lemma {:induction false} RenderIsLevel(v: Value)
    requires WellFormed(v)
    ensures Level(Render(v))
    decreases v, 0
  {
    match v
    case Plain(text) => NeutralIsLevel(text);
    case Str(s) => QuotedIsLevel(s);
    case List(items) =>
      ItemsAreLevel(items);
      BracketedIsLevel('[', RenderItems(items), ']');
    case Object(members) =>
      MembersAreLevel(members);
      BracketedIsLevel('{', RenderMembers(members), '}');
  }

  lemma {:induction false} ItemsAreLevel(items: seq<Value>)
    requires forall i :: i in items ==> WellFormed(i)
    ensures Level(RenderItems(items))
    decreases items, 1
  {
    hide Level;
    Neutrals();
    if items != [] {
      RenderIsLevel(items[0]);
      if |items| == 1 {
        LevelConcat(Render(items[0]), "");
      } else {
        ItemsAreLevel(items[1..]);
        LevelConcat(",", RenderItems(items[1..]));
        LevelConcat(Render(items[0]), "," + RenderItems(items[1..]));
      }
    }
  }

  lemma {:induction false} MembersAreLevel(members: seq<Member>)
    requires forall m :: m in members ==> WellFormed(m.value)
    ensures Level(RenderMembers(members))
    decreases members, 1
  {
    hide Level;
    Neutrals();
    if members != [] {
      var m := members[0];
      assert m in members;
      QuotedIsLevel(m.key);
      RenderIsLevel(m.value);
      LevelConcat(":", Render(m.value));
      LevelConcat(Quoted(m.key), ":" + Render(m.value));
      var first := Quoted(m.key) + (":" + Render(m.value));
      if |members| == 1 {
        LevelConcat(first, "");
      } else {
        MembersAreLevel(members[1..]);
        LevelConcat(",", RenderMembers(members[1..]));
        LevelConcat(first, "," + RenderMembers(members[1..]));
      }
    }
  }

  /** The canonical text of an object is the text of an object. */
  lemma RenderedObject(members: seq<Member>)
    requires WellFormed(Object(members))
    ensures ObjectText(Render(Object(members)))
  {
    MembersAreLevel(members);
    var s := Render(Object(members));
    assert s[1..|s| - 1] == RenderMembers(members);
  }

  /** No text of an object is a proper beginning of another: its end would close the other one early. */
  lemma ObjectTextsAreApart(a: string, b: string)
    requires ObjectText(a) && ObjectText(b) && a <= b
    ensures a == b
  {
    if |a| < |b| {
      var inner, rest := a[1..|a| - 1], b[|a|..|b| - 1];
      assert b[1..|b| - 1] == inner + (['}'] + rest);
      var r := Reader(0, Outside);
      ReadConcat(r, inner, ['}'] + rest, 0);
      ReadConcat(r, ['}'], rest, 0);
      One(r, '}', 0);
    }
  }
}
