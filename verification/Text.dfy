/** Plain-text helpers shared by the parsers: ASCII classes, stripping, decimal numbers, prefixes. */
module Text {
  import opened Basics

  predicate IsSpace(c: char) {
    '\U{0009}' <= c <= '\U{000D}' || '\U{001C}' <= c <= '\U{0020}'
  }

  predicate IsDigit(c: char) {
    '0' <= c <= '9'
  }

  predicate IsAlnum(c: char) {
    'a' <= c <= 'z' || 'A' <= c <= 'Z' || '0' <= c <= '9'
  }

  function LStrip(s: string): (r: string)
    ensures |r| <= |s| && (r != "" ==> !IsSpace(r[0]))
    ensures (s == "" || !IsSpace(s[0])) ==> r == s
  {
    if s != "" && IsSpace(s[0]) then LStrip(s[1..]) else s
  }

  function RStrip(s: string): (r: string)
    ensures r <= s && (r != "" ==> !IsSpace(r[|r| - 1]))
    ensures (s == "" || !IsSpace(s[|s| - 1])) ==> r == s
  {
    if s != "" && IsSpace(s[|s| - 1]) then RStrip(s[..|s| - 1]) else s
  }

  /** `str.strip` on ASCII white space. */
  function Strip(s: string): (r: string)
    ensures s != "" && !IsSpace(s[0]) && !IsSpace(s[|s| - 1]) ==> r == s
  {
    RStrip(LStrip(s))
  }

  predicate Stripped(s: string) {
    s == "" || (!IsSpace(s[0]) && !IsSpace(s[|s| - 1]))
  }

  lemma StripOfStripped(s: string)
    requires Stripped(s)
    ensures Strip(s) == s
  {
  }

  lemma StripIsShorter(s: string)
    ensures |Strip(s)| <= |s| && (|Strip(s)| == |s| ==> Strip(s) == s)
  {
    var l := LStrip(s);
    assert RStrip(l) <= l;
    if |RStrip(l)| == |s| {
      LStripShorter(s);
    }
  }

  lemma {:induction false} LStripShorter(s: string)
    ensures |LStrip(s)| == |s| ==> LStrip(s) == s
  {
  }

  lemma {:induction false} LStripIs(s: string) returns (left: string)
    ensures s == left + LStrip(s) && forall k :: 0 <= k < |left| ==> IsSpace(left[k])
  {
    left := "";
    if s != "" && IsSpace(s[0]) {
      var more := LStripIs(s[1..]);
      left := [s[0]] + more;
    }
  }

  lemma {:induction false} RStripIs(s: string) returns (right: string)
    ensures s == RStrip(s) + right && forall k :: 0 <= k < |right| ==> IsSpace(right[k])
  {
    right := "";
    if s != "" && IsSpace(s[|s| - 1]) {
      var more := RStripIs(s[..|s| - 1]);
      right := more + [s[|s| - 1]];
    }
  }

  /** Stripping takes white space off both ends, and all of it. */
  lemma StripIs(s: string, spaces: string) returns (left: string, right: string)
    requires spaces == "\t\n\U{000B}\U{000C}\r\U{001C}\U{001D}\U{001E}\U{001F} "
    ensures s == left + Strip(s) + right
    ensures forall c :: c in left || c in right ==> c in spaces
    ensures Strip(s) != "" ==> Strip(s)[0] !in spaces && Strip(s)[|Strip(s)| - 1] !in spaces
  {
    left := LStripIs(s);
    right := RStripIs(LStrip(s));
    assert Strip(s) != "" ==> Strip(s)[0] == LStrip(s)[0];
    IsSpaceIff(spaces);
    hide LStrip, RStrip, IsSpace;
  }

  lemma IsSpaceIff(spaces: string)
    requires spaces == "\t\n\U{000B}\U{000C}\r\U{001C}\U{001D}\U{001E}\U{001F} "
    ensures forall c :: IsSpace(c) <==> c in spaces
  {
    assert spaces[0] == '\t' && spaces[1] == '\n' && spaces[2] == '\U{000B}' && spaces[3] == '\U{000C}' && spaces[4] == '\r';
    assert spaces[5] == '\U{001C}' && spaces[6] == '\U{001D}' && spaces[7] == '\U{001E}' && spaces[8] == '\U{001F}' && spaces[9] == ' ';
  }

  // ---- Case folding -------------------------------------------------------------------------------------------------

  function LowerChar(c: char): char {
    if 'A' <= c <= 'Z' then 'a' + (c - 'A') else c
  }

  function Lower(s: string): (r: string)
    ensures |r| == |s| && forall k :: 0 <= k < |s| ==> r[k] == LowerChar(s[k])
  {
    seq(|s|, k requires 0 <= k < |s| => LowerChar(s[k]))
  }

  /** Lowering adds 32 to the codes of the capital letters, 65 to 90, and changes nothing else. */
  lemma LowerIs(s: string, k: nat)
    requires k < |s|
    ensures |Lower(s)| == |s| && Lower(s)[k] as int == s[k] as int + if 65 <= s[k] as int <= 90 then 32 else 0
  {
  }

  // ---- Decimal numbers ----------------------------------------------------------------------------------------------

  predicate AllDigits(s: string) {
    forall k :: 0 <= k < |s| ==> IsDigit(s[k])
  }

  function DigitChar(d: nat): (c: char)
    requires d < 10
    ensures IsDigit(c) && c as int - '0' as int == d
  {
    '0' + d as char
  }

  function Decimal(n: nat): (s: string)
    ensures s != "" && AllDigits(s)
  {
    if n < 10 then [DigitChar(n)] else Decimal(n / 10) + [DigitChar(n % 10)]
  }

  function ParseDecimal(s: string): nat
    requires AllDigits(s)
  {
    if s == "" then 0 else 10 * ParseDecimal(s[..|s| - 1]) + (s[|s| - 1] as int - '0' as int)
  }

  lemma {:induction false} ParseOfDecimal(n: nat)
    ensures ParseDecimal(Decimal(n)) == n
  {
    if n < 10 {
      assert Decimal(n)[..0] == "";
    } else {
      ParseOfDecimal(n / 10);
      assert Decimal(n)[..|Decimal(n)| - 1] == Decimal(n / 10);
    }
  }

  // ---- Splitting at white space --------------------------------------------------------------------------------------

  predicate IsWordText(w: string) {
    w != "" && forall k :: 0 <= k < |w| ==> !IsSpace(w[k])
  }

  function WordLength(s: string): (n: nat)
    ensures n <= |s|
  {
    if s == "" || IsSpace(s[0]) then 0 else 1 + WordLength(s[1..])
  }

  /** `s.split()` */
  function Words(s: string): seq<string>
    decreases |s|
  {
    if s == "" then []
    else if IsSpace(s[0]) then Words(s[1..])
    else [s[..WordLength(s)]] + Words(s[WordLength(s)..])
  }

  lemma {:induction false} WordLengthIs(w: string, t: string)
    requires forall k :: 0 <= k < |w| ==> !IsSpace(w[k])
    requires t == "" || IsSpace(t[0])
    ensures WordLength(w + t) == |w|
  {
    if w == "" {
      assert w + t == t;
    } else {
      assert (w + t)[1..] == w[1..] + t;
      WordLengthIs(w[1..], t);
    }
  }

  lemma {:induction false} LeadingWord(s: string)
    ensures forall k :: 0 <= k < WordLength(s) ==> !IsSpace(s[k])
  {
    if s != "" && !IsSpace(s[0]) {
      LeadingWord(s[1..]);
      assert forall k :: 1 <= k < WordLength(s) ==> s[k] == s[1..][k - 1];
    }
  }

  lemma {:induction false} WordsAreWords(s: string)
    ensures forall w :: w in Words(s) ==> IsWordText(w)
    decreases |s|
  {
    if s != "" {
      if IsSpace(s[0]) {
        WordsAreWords(s[1..]);
      } else {
        LeadingWord(s);
        WordsAreWords(s[WordLength(s)..]);
      }
    }
  }

  lemma WordsOfWord(w: string, t: string)
    requires IsWordText(w) && (t == "" || IsSpace(t[0]))
    ensures Words(w + t) == [w] + Words(t)
  {
    WordLengthIs(w, t);
    assert (w + t)[0] == w[0];
    assert (w + t)[..|w|] == w && (w + t)[|w|..] == t;
  }

  lemma {:induction false} WordLengthStays(x: string, y: string)
    requires WordLength(x) < |x|
    ensures WordLength(x + y) == WordLength(x)
  {
    assert (x + y)[0] == x[0];
    if !IsSpace(x[0]) {
      assert (x + y)[1..] == x[1..] + y;
      WordLengthStays(x[1..], y);
    }
  }

  lemma {:induction false} WordEndsBefore(x: string)
    requires x != "" && IsSpace(x[|x| - 1])
    ensures WordLength(x) < |x|
  {
    if !IsSpace(x[0]) {
      WordEndsBefore(x[1..]);
    }
  }

  lemma SpaceFirst(s: string)
    ensures s == "" ==> Words(s) == []
    ensures s != "" && IsSpace(s[0]) ==> Words(s) == Words(s[1..])
  {
  }

  lemma WordStays(x: string, y: string)
    requires x != "" && IsSpace(x[|x| - 1])
    ensures WordLength(x) < |x| && WordLength(x + y) == WordLength(x)
    ensures (x + y)[..WordLength(x)] == x[..WordLength(x)] && (x + y)[WordLength(x)..] == x[WordLength(x)..] + y
  {
    WordEndsBefore(x);
    WordLengthStays(x, y);
  }

  /** Text that ends in white space is split on its own. */
  lemma {:induction false} WordsConcat(x: string, y: string)
    requires x == "" || IsSpace(x[|x| - 1])
    ensures Words(x + y) == Words(x) + Words(y)
    decreases |x|
  {
    hide Words, WordLength;
    SpaceFirst(x);
    if x == "" {
      assert x + y == y;
    } else if IsSpace(x[0]) {
      SpaceFirst(x + y);
      assert (x + y)[0] == x[0] && (x + y)[1..] == x[1..] + y;
      WordsConcat(x[1..], y);
    } else {
      WordStays(x, y);
      FirstWord(x);
      FirstWord(x + y);
      WordsConcat(x[WordLength(x)..], y);
      Associate([x[..WordLength(x)]], Words(x[WordLength(x)..]), Words(y));
    }
  }

  lemma FirstWord(s: string)
    requires s != "" && !IsSpace(s[0])
    ensures WordLength(s) > 0 && Words(s) == [s[..WordLength(s)]] + Words(s[WordLength(s)..])
  {
  }

  // ---- Splitting at commas ------------------------------------------------------------------------------------------

  /** `s.split(",")` */
  function Split(s: string): (parts: seq<string>)
    ensures parts != []
  {
    if s == "" then [""]
    else if s[0] == ',' then [""] + Split(s[1..])
    else var rest := Split(s[1..]); [[s[0]] + rest[0]] + rest[1..]
  }

  lemma {:induction false} SplitAtComma(a: string, b: string)
    ensures Split(a + "," + b) == Split(a) + Split(b)
  {
    if a == "" {
      assert a + "," + b == [','] + b;
    } else {
      assert (a + "," + b)[1..] == a[1..] + "," + b;
      SplitAtComma(a[1..], b);
    }
  }

  lemma {:induction false} SplitPlain(t: string)
    requires ',' !in t
    ensures Split(t) == [t]
  {
    if t != "" {
      SplitPlain(t[1..]);
      assert t[0] in t;
      assert t == [t[0]] + t[1..];
    }
  }
}
