/**
 The JSON parser: recursive descent over a cursor with one character of
 push-back.  At the end of the text reading does not advance the cursor, but
 pushing back still moves it, so the last character may be read again.
 */
module Json {
  datatype Value =
    | Unknown
    | True
    | False
    | Null
    | Number(n: nat)
    | Text(s: string)
    | Array(elems: seq<Value>)
    | Object(members: seq<(string, Value)>)

  const STRING_MAX := 127
  const DIGITS_MAX := 19

  predicate IsSpace(c: char) {
    c == ' ' || '\t' <= c <= '\r'
  }

  predicate IsDigit(c: char) {
    '0' <= c <= '9'
  }

  /** Texts whose last character is not an opening bracket, which the parser
      could read again and again. */
  predicate Closed(t: string) {
    |t| > 0 && t[|t| - 1] != '['
  }

  /** The character read at `p`; NUL at the end of the text. */
  function CharAt(t: string, p: nat): char {
    if p < |t| then t[p] else '\0'
  }

  function Read(t: string, p: nat): nat {
    if p < |t| then p + 1 else p
  }

  /** Reading at `p` and pushing back. */
  function Back(t: string, p: nat): (q: nat)
    requires |t| > 0 && p <= |t|
    ensures q < |t| && (p < |t| ==> q == p) && (p == |t| ==> q == p - 1)
  {
    Read(t, p) - 1
  }

  function SkipSpace(t: string, p: nat): (q: nat)
    requires |t| > 0 && p <= |t|
    ensures q < |t| && (p < |t| ==> p <= q) && (p == |t| ==> q == p - 1)
    decreases |t| - p
  {
    if CharAt(t, p) != '\0' && IsSpace(CharAt(t, p)) then SkipSpace(t, p + 1) else Back(t, p)
  }

  /** The outcome that stands for a recursion without end. */
  const LOOPS := -2

  /** The outcome that stands for a read before the text. */
  const OUTSIDE := -3

  /** Outcome of a parse: 1 for a match, 0 for none, -1 for an error. */
  datatype Parsed<+T> = Parsed(ret: int, pos: nat, value: T)

  // ---------------------------------------------------------------------
  // Scalars

  function StringChars(t: string, p: nat, buf: string): (r: Parsed<string>)
    requires p <= |t| && |buf| <= STRING_MAX
    ensures p <= r.pos <= |t| && (r.ret == 1 || r.ret == -1) && (r.ret == 1 ==> p < r.pos)
    decreases |t| - p
  {
    var c := CharAt(t, p);
    if c == '\0' then Parsed(-1, Read(t, p), buf)
    else if c == '"' || |buf| == STRING_MAX then Parsed(1, p + 1, buf)
    else StringChars(t, p + 1, buf + [c])
  }

  function ParseString(t: string, p: nat): (r: Parsed<string>)
    requires |t| > 0 && p <= |t|
    ensures r.pos <= |t| && r.ret in {-1, 0, 1}
    ensures r.ret == 0 ==> r.pos == Back(t, p)
    ensures r.ret == 1 ==> p + 2 <= r.pos
    ensures r.ret != 0 <==> CharAt(t, p) == '"'
  {
    if CharAt(t, p) != '"' then Parsed(0, Back(t, p), "")
    else StringChars(t, p + 1, "")
  }

  function Decimal(digits: string): nat
    requires forall i | 0 <= i < |digits| :: IsDigit(digits[i])
  {
    if |digits| == 0 then 0
    else
      var c := digits[|digits| - 1];
      assert IsDigit(c);
      10 * Decimal(digits[..|digits| - 1]) + (c as int - '0' as int)
  }

  /** The digits from `p` on, at most `max` of them. */
  function Digits(t: string, p: nat, max: nat): (d: string)
    ensures |d| <= max && forall i | 0 <= i < |d| :: IsDigit(d[i])
    ensures p <= |t| ==> p + |d| <= |t| && d == t[p..p + |d|]
    ensures p < |t| && max > 0 && IsDigit(t[p]) ==> |d| > 0
    decreases max
  {
    if max > 0 && p < |t| && IsDigit(t[p]) then [t[p]] + Digits(t, p + 1, max - 1) else []
  }

  function ParseNumber(t: string, p: nat): (r: Parsed<Value>)
    requires |t| > 0 && p < |t|
    ensures r.pos < |t| && p <= r.pos && r.ret in {0, 1}
    ensures r.ret == 1 <==> IsDigit(t[p])
    ensures r.ret == 0 ==> r.pos == p
  {
    var d := Digits(t, p, DIGITS_MAX);
    Parsed(if |d| == 0 then 0 else 1, Back(t, p + |d|), Number(Decimal(d)))
  }

  /** Compares a keyword letter by letter from its second letter on.  The pointer
      moves past a letter before the comparison is judged, so a wrong last letter
      still counts as a match. */
  function KeywordLoop(t: string, p: nat, m: string, c: char): (r: Parsed<()>)
    requires 0 < p <= |t|
    ensures r.ret in {-1, 1} && r.pos < |t| && p <= r.pos + 1
    decreases |m|
  {
    if m == "" then Parsed(1, p - 1, ())
    else if m[0] != c then Parsed(if |m| == 1 then 1 else -1, p - 1, ())
    else if p == |t| then KeywordEnd(t, m[1..])
    else KeywordLoop(t, p + 1, m[1..], t[p])
  }

  /** The comparison at the end of the text, where every further read gives NUL. */
  function KeywordEnd(t: string, m: string): (r: Parsed<()>)
    requires |t| > 0
    ensures r.ret in {-1, 1} && r.pos == |t| - 1
  {
    Parsed(if |m| <= 1 then 1 else -1, |t| - 1, ())
  }

  function ParseKeyword(t: string, p: nat): (r: Parsed<Value>)
    requires |t| > 0 && p < |t|
    ensures r.ret in {-1, 0, 1} && p <= r.pos < |t|
    ensures r.ret == 1 ==> p + 1 < |t|
  {
    var c := t[p];
    if c == 't' then var k := KeywordLoop(t, p + 1, "true", c); Parsed(k.ret, k.pos, True)
    else if c == 'f' then var k := KeywordLoop(t, p + 1, "false", c); Parsed(k.ret, k.pos, False)
    else if c == 'n' then var k := KeywordLoop(t, p + 1, "null", c); Parsed(k.ret, k.pos, Null)
    else Parsed(0, p, Unknown)
  }

  // ---------------------------------------------------------------------
  // Values

  /** The characters left at `p`; the last one can always be read again. */
  function Left(t: string, p: nat): nat
    requires |t| > 0 && p <= |t|
  {
    if p < |t| then |t| - p else 1
  }

  function ParseValue(t: string, p: nat): (r: Parsed<Value>)
    requires |t| > 0 && p <= |t|
    ensures r.pos <= |t| && r.ret in {LOOPS, -1, 1} && (r.ret == LOOPS ==> !Closed(t))
    ensures r.ret == 1 && p < |t| ==> p <= r.pos
    ensures r.ret == 1 && p >= |t| - 1 ==> r.pos == |t| - 1 && IsDigit(t[|t| - 1])
    decreases Left(t, p), 4
  {
    var q := SkipSpace(t, p);
    var r := Alternatives(t, q);
    if r.ret == 0 then Parsed(-1, r.pos, Unknown) else Trailing(t, r)
  }

  /** The forms of a value, tried one after the other. */
  function Alternatives(t: string, q: nat): (r: Parsed<Value>)
    requires |t| > 0 && q < |t|
    ensures r.pos <= |t| && r.ret in {LOOPS, -1, 0, 1} && (r.ret == LOOPS ==> !Closed(t))
    ensures r.ret == 1 ==> q <= r.pos
    ensures r.ret == 1 && q == |t| - 1 ==> r.pos == |t| - 1 && IsDigit(t[|t| - 1])
    decreases Left(t, q), 3
  {
    var o := ParseObject(t, q);
    if o.ret != 0 then o else
    var a := ParseArray(t, q);
    if a.ret != 0 then a else
    var s := ParseString(t, q);
    if s.ret != 0 then Parsed(s.ret, s.pos, Text(s.value)) else
    var n := ParseNumber(t, q);
    if n.ret != 0 then n else ParseKeyword(t, q)
  }

  /** Skips the space behind a value. */
  function Trailing(t: string, r: Parsed<Value>): (r': Parsed<Value>)
    requires |t| > 0 && r.pos <= |t|
    ensures r'.pos < |t| && r'.ret == r.ret && r'.value == r.value
    ensures r.pos < |t| ==> r.pos <= r'.pos
    ensures r.pos == |t| ==> r'.pos == |t| - 1
  {
    r.(pos := SkipSpace(t, r.pos))
  }

  /** A bracket that ends the text is pushed back and read again as the start of
      its own first element. */
  function ParseArray(t: string, p: nat): (r: Parsed<Value>)
    requires |t| > 0 && p < |t|
    ensures r.pos <= |t| && r.ret in {LOOPS, -1, 0, 1} && (r.ret == LOOPS ==> !Closed(t))
    ensures r.ret == 0 <==> t[p] != '['
    ensures r.ret == 0 ==> r.pos == p
    ensures r.ret == 1 ==> p + 1 < r.pos
    decreases Left(t, p), 2
  {
    if t[p] != '[' then Parsed(0, p, Unknown)
    else if p + 1 == |t| then Parsed(LOOPS, p + 1, Unknown)
    else
      var r := Elements(t, p + 1, []);
      Parsed(r.ret, r.pos, Array(r.value))
  }

  /** The elements of an array from `p` on, behind those in `acc`. */
  function Elements(t: string, p: nat, acc: seq<Value>): (r: Parsed<seq<Value>>)
    requires |t| > 0 && p <= |t|
    ensures r.pos <= |t| && r.ret in {LOOPS, -1, 1} && (r.ret == LOOPS ==> !Closed(t))
    ensures r.ret == 1 ==> p < r.pos
    decreases Left(t, p), 5
  {
    var v := ParseValue(t, p);
    if v.ret <= 0 then Parsed(v.ret, v.pos, acc)
    else
      var acc1 := acc + [v.value];
      var c := CharAt(t, v.pos);
      if c == ']' then Parsed(1, Read(t, v.pos), acc1)
      else if c == ',' then Elements(t, Read(t, v.pos), acc1)
      else Parsed(-1, Read(t, v.pos), acc1)
  }

  function ParseObject(t: string, p: nat): (r: Parsed<Value>)
    requires |t| > 0 && p < |t|
    ensures r.pos <= |t| && r.ret in {LOOPS, -1, 0, 1} && (r.ret == LOOPS ==> !Closed(t))
    ensures r.ret == 0 <==> t[p] != '{'
    ensures r.ret == 0 ==> r.pos == p
    ensures r.ret == 1 ==> p + 1 < r.pos
    decreases Left(t, p), 2
  {
    if t[p] != '{' then Parsed(0, p, Unknown)
    else
      var r := Members(t, p + 1, []);
      Parsed(r.ret, r.pos, Object(r.value))
  }

  function Members(t: string, p: nat, acc: seq<(string, Value)>): (r: Parsed<seq<(string, Value)>>)
    requires |t| > 0 && p <= |t|
    ensures r.pos <= |t| && r.ret in {LOOPS, -1, 1} && (r.ret == LOOPS ==> !Closed(t))
    ensures r.ret == 1 ==> p < r.pos
    decreases Left(t, p), 1
  {
    var m := ParseProperty(t, p);
    if m.ret <= 0 then Parsed(m.ret, m.pos, acc)
    else
      var acc1 := acc + [m.value];
      var c := CharAt(t, m.pos);
      if c == '}' then Parsed(1, Read(t, m.pos), acc1)
      else if c == ',' then Members(t, Read(t, m.pos), acc1)
      else Parsed(-1, Read(t, m.pos), acc1)
  }

  function ParseProperty(t: string, p: nat): (r: Parsed<(string, Value)>)
    requires |t| > 0 && p <= |t|
    ensures r.pos <= |t| && r.ret in {LOOPS, -1, 1} && (r.ret == LOOPS ==> !Closed(t))
    ensures r.ret == 1 ==> p + 1 < r.pos < |t|
    decreases Left(t, p), 0
  {
    var none := ("", Unknown);
    var k := ParseString(t, SkipSpace(t, p));
    if k.ret <= 0 then Parsed(-1, k.pos, none)
    else
      var q := SkipSpace(t, k.pos);
      if CharAt(t, q) != ':' then Parsed(-1, Read(t, q), none)
      else
        var v := ParseValue(t, q + 1);
        if v.ret <= 0 then Parsed(v.ret, v.pos, none) else Parsed(1, v.pos, (k.value, v.value))
  }

  /** The root value, if the text has one.  On the empty text the first push-back
      moves the cursor before the text, where the next read is. */
  function Parse(t: string): (r: Parsed<Value>)
    ensures r.ret in {OUTSIDE, LOOPS, -1, 1} && r.pos <= |t|
    ensures r.ret == OUTSIDE <==> t == ""
    ensures Closed(t) ==> r.ret != LOOPS
  {
    if t == "" then Parsed(OUTSIDE, 0, Unknown) else ParseValue(t, 0)
  }
}
