/**
 The parser as the program runs it: one cursor over the text, moved by every
 read and push-back.  Each procedure is proved to give what the function of the
 same name in `Json` gives.
 */
module JsonParser {
  import opened Json

  /** A procedure's result, return code and cursor agree with `f`. */
  predicate Gives<T(==)>(f: Parsed<T>, ret: int, pos: nat, value: T) {
    f.ret == ret && f.pos == pos && (ret == 1 ==> f.value == value)
  }

  /** The digits read are those up to the first other character. */
  lemma {:induction false} DigitsRun(t: string, p: nat, n: nat, max: nat)
    requires p + n <= |t| && n <= max && forall i | p <= i < p + n :: IsDigit(t[i])
    requires n == max || p + n == |t| || !IsDigit(t[p + n])
    ensures Digits(t, p, max) == t[p..p + n]
    decreases n
  {
    if n > 0 {
      DigitsRun(t, p + 1, n - 1, max - 1);
    }
  }

  class Parser {
    const text: string
    var pos: nat

    predicate Valid()
      reads this
    {
      |text| > 0 && pos <= |text|
    }

    constructor (json: string)
      requires |json| > 0
      ensures Valid() && text == json && pos == 0
    {
      text := json;
      pos := 0;
    }

    method Input() returns (ch: char)
      requires Valid()
      modifies this
      ensures Valid() && ch == CharAt(text, old(pos)) && pos == Read(text, old(pos))
    {
      if pos >= |text| {
        return '\0';
      }
      ch := text[pos];
      pos := pos + 1;
    }

    method Unput()
      requires Valid() && pos > 0
      modifies this
      ensures Valid() && pos == old(pos) - 1
    {
      pos := pos - 1;
    }

    method SkipWhitespace()
      requires Valid()
      modifies this
      ensures Valid() && pos == SkipSpace(text, old(pos))
    {
      ghost var p := pos;
      var ch := Input();
      while ch != '\0' && IsSpace(ch)
        invariant Valid() && p <= |text|
        invariant ch == CharAt(text, p) && pos == Read(text, p)
        invariant SkipSpace(text, p) == SkipSpace(text, old(pos))
        decreases |text| - p
      {
        p := pos;
        ch := Input();
      }
      Unput();
    }

    method ParseString() returns (ret: int, value: string)
      requires Valid()
      modifies this
      ensures Valid() && Gives(Json.ParseString(text, old(pos)), ret, pos, value)
    {
      value := "";
      var ch := Input();
      if ch != '"' {
        Unput();
        return 0, value;
      }
      ghost var p := pos;
      ch := Input();
      while ch != '\0' && ch != '"' && |value| < STRING_MAX
        invariant Valid() && p <= |text| && |value| <= STRING_MAX
        invariant ch == CharAt(text, p) && pos == Read(text, p)
        invariant StringChars(text, p, value) == Json.ParseString(text, old(pos))
        decreases |text| - p
      {
        value := value + [ch];
        p := pos;
        ch := Input();
      }
      ret := if ch == '\0' then -1 else 1;
    }

    /** Reads digits and one character more. */
    method ReadDigits() returns (b: string)
      requires Valid()
      modifies this
      ensures Valid() && b == Digits(text, old(pos), DIGITS_MAX) && pos == Read(text, old(pos) + |b|)
    {
      hide Digits;
      b := "";
      ghost var start, p := pos, pos;
      var ch := Input();
      while ch != '\0' && IsDigit(ch) && |b| < DIGITS_MAX
        invariant Valid() && start + |b| == p <= |text| && |b| <= DIGITS_MAX
        invariant b == text[start..p] && forall i | start <= i < p :: IsDigit(text[i])
        invariant ch == CharAt(text, p) && pos == Read(text, p)
        decreases |text| - p
      {
        assert text[start..p + 1] == text[start..p] + [ch];
        b := b + [ch];
        p := pos;
        ch := Input();
      }
      DigitsRun(text, start, |b|, DIGITS_MAX);
    }

    method ParseNumber() returns (ret: int, value: Value)
      requires Valid() && pos < |text|
      modifies this
      ensures Valid() && Gives(Json.ParseNumber(text, old(pos)), ret, pos, value)
    {
      hide Digits, Decimal;
      var b := ReadDigits();
      Unput();
      ret := if |b| == 0 then 0 else 1;
      value := Number(Decimal(b));
    }

    /** Compares the keyword with the text, from its first letter, already read. */
    method MatchKeyword(keyword: string, first: char) returns (ret: int)
      requires Valid() && pos > 0 && keyword != "" && '\0' !in keyword
      modifies this
      ensures Valid()
      ensures var k := KeywordLoop(text, old(pos), keyword, first); ret == k.ret && pos == k.pos
    {
      var m := keyword;
      var ch := first;
      ghost var ended := false;
      while m != "" && m[0] == ch
        invariant Valid() && pos > 0 && '\0' !in m
        invariant !ended ==> KeywordLoop(text, pos, m, ch) == KeywordLoop(text, old(pos), keyword, first)
        invariant ended ==> ch == '\0' && pos == |text|
        invariant ended ==> KeywordEnd(text, m) == KeywordLoop(text, old(pos), keyword, first)
        decreases |m|
      {
        m := m[1..];
        ended := pos == |text|;
        ch := Input();
      }
      if m != "" {
        m := m[1..];
      }
      Unput();
      ret := if m == "" then 1 else -1;
    }

    method ParseKeyword() returns (ret: int, value: Value)
      requires Valid() && pos < |text|
      modifies this
      ensures Valid() && Gives(Json.ParseKeyword(text, old(pos)), ret, pos, value)
    {
      var ch := Input();
      if ch == 't' {
        value := True;
        ret := MatchKeyword("true", ch);
      } else if ch == 'f' {
        value := False;
        ret := MatchKeyword("false", ch);
      } else if ch == 'n' {
        value := Null;
        ret := MatchKeyword("null", ch);
      } else {
        value := Unknown;
        Unput();
        ret := 0;
      }
    }

    method ParseValue() returns (ret: int, value: Value)
      requires Valid()
      modifies this
      ensures Valid() && Gives(Json.ParseValue(text, old(pos)), ret, pos, value)
      decreases Left(text, pos), 4
    {
      SkipWhitespace();
      ret, value := ParseForms();
      if ret == 0 {
        return -1, value;
      }
      SkipWhitespace();
    }

    /** The forms of a value, one after the other. */
    method ParseForms() returns (ret: int, value: Value)
      requires Valid() && pos < |text|
      modifies this
      ensures Valid() && Gives(Alternatives(text, old(pos)), ret, pos, value)
      decreases Left(text, pos), 3
    {
      ret, value := ParseObject();
      if ret != 0 {
        return;
      }
      ret, value := ParseArray();
      if ret != 0 {
        return;
      }
      var s: string;
      ret, s := ParseString();
      if ret != 0 {
        return ret, Text(s);
      }
      ret, value := ParseNumber();
      if ret != 0 {
        return;
      }
      ret, value := ParseKeyword();
    }

    method ParseArray() returns (ret: int, value: Value)
      requires Valid() && pos < |text|
      modifies this
      ensures Valid() && Gives(Json.ParseArray(text, old(pos)), ret, pos, value)
      decreases Left(text, pos), 2
    {
      value := Unknown;
      var ch := Input();
      if ch != '[' {
        Unput();
        return 0, value;
      }
      if pos == |text| {
        return LOOPS, value;
      }
      var elems: seq<Value> := [];
      ch := ',';
      while ch == ','
        invariant Valid() && old(pos) < pos && old(pos) + 1 < |text|
        invariant ch == ',' ==> Elements(text, pos, elems) == Elements(text, old(pos) + 1, [])
        invariant ch != ',' && ch != ']' ==> Elements(text, old(pos) + 1, []) == Parsed(-1, pos, elems)
        invariant ch == ']' ==> Elements(text, old(pos) + 1, []) == Parsed(1, pos, elems)
        decreases if ch == ',' then Left(text, pos) + 1 else 0
      {
        var v;
        ret, v := ParseValue();
        if ret <= 0 {
          return;
        }
        elems := elems + [v];
        ch := Input();
      }
      value := Array(elems);
      ret := if ch == ']' then 1 else -1;
    }

    method ParseObject() returns (ret: int, value: Value)
      requires Valid() && pos < |text|
      modifies this
      ensures Valid() && Gives(Json.ParseObject(text, old(pos)), ret, pos, value)
      decreases Left(text, pos), 2
    {
      value := Unknown;
      var ch := Input();
      if ch != '{' {
        Unput();
        return 0, value;
      }
      var members: seq<(string, Value)> := [];
      ch := ',';
      while ch == ','
        invariant Valid() && old(pos) < pos
        invariant ch == ',' ==> Members(text, pos, members) == Members(text, old(pos) + 1, [])
        invariant ch != ',' && ch != '}' ==> Members(text, old(pos) + 1, []) == Parsed(-1, pos, members)
        invariant ch == '}' ==> Members(text, old(pos) + 1, []) == Parsed(1, pos, members)
        decreases if ch == ',' then Left(text, pos) + 1 else 0
      {
        var m;
        ret, m := ParseProperty();
        if ret <= 0 {
          return;
        }
        members := members + [m];
        ch := Input();
      }
      value := Object(members);
      ret := if ch == '}' then 1 else -1;
    }

    method ParseProperty() returns (ret: int, value: (string, Value))
      requires Valid()
      modifies this
      ensures Valid() && Gives(Json.ParseProperty(text, old(pos)), ret, pos, value)
      decreases Left(text, pos), 0
    {
      value := ("", Unknown);
      SkipWhitespace();
      var key, v;
      ret, key := ParseString();
      if ret <= 0 {
        return -1, value;
      }
      SkipWhitespace();
      var ch := Input();
      if ch != ':' {
        return -1, value;
      }
      ret, v := ParseValue();
      value := (key, v);
    }
  }

  /** The whole text; no value where the program returns no tree. */
  method ParseText(json: string) returns (ret: int, value: Value)
    ensures ret == Parse(json).ret && (ret == 1 ==> value == Parse(json).value)
  {
    if json == "" {
      return OUTSIDE, Unknown;
    }
    var parser := new Parser(json);
    ret, value := parser.ParseValue();
  }
}
