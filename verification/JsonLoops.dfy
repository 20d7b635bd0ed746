/**
 Exactly when the parser loops: a scanner with a stack, which goes over the text
 once and never back, tells whether the last bracket is read where a value is due.
 */
module JsonLoops {
  import opened Json

  // ---------------------------------------------------------------------
  // The scanner

  /** What the scanner is about to read: a value, a key, a colon, the rest of a string
      of which it has read `n` characters, of a number or of a keyword, or what comes
      behind a value. */
  datatype Mode = Want | WantKey | Colon | Str(n: nat, key: bool) | Num(n: nat) | Word(rest: string) | Behind | Stop

  /** `open` holds the brackets that are open, the innermost last. */
  datatype Scanner = Scanner(mode: Mode, open: string)

  const START := Scanner(Want, "")

  function Step(s: Scanner, c: char): Scanner {
    match s.mode
    case Want => Scanner(Begin(c), if c == '[' || c == '{' then s.open + [c] else s.open)
    case WantKey => s.(mode := if IsSpace(c) then WantKey else if c == '"' then Str(0, true) else Stop)
    case Colon => s.(mode := if IsSpace(c) then Colon else if c == ':' then Want else Stop)
    case Str(n, key) =>
      s.(mode := if c == '\0' then Stop
                 else if c == '"' || n == STRING_MAX then (if key then Colon else Behind)
                 else Str(n + 1, key))
    case Num(n) => if IsDigit(c) && n < DIGITS_MAX then s.(mode := Num(n + 1)) else Follow(s.open, c)
    case Word(rest) =>
      if rest != "" && rest[0] == c then s.(mode := Word(rest[1..]))
      else if |rest| <= 1 then Follow(s.open, c)
      else s.(mode := Stop)
    case Behind => Follow(s.open, c)
    case Stop => s
  }

  /** The first character of a value. */
  function Begin(c: char): Mode {
    if IsSpace(c) || c == '[' then Want
    else if c == '{' then WantKey
    else if c == '"' then Str(0, false)
    else if IsDigit(c) then Num(1)
    else if c == 't' then Word("rue")
    else if c == 'f' then Word("alse")
    else if c == 'n' then Word("ull")
    else Stop
  }

  /** A character behind a value: it closes the innermost bracket or goes on in it. */
  function Follow(open: string, c: char): Scanner {
    if IsSpace(c) then Scanner(Behind, open)
    else if open == "" then Scanner(Stop, open)
    else
      var b, rest := open[|open| - 1], open[..|open| - 1];
      if c == ',' then Scanner(if b == '[' then Want else WantKey, open)
      else if c == (if b == '[' then ']' else '}') then Scanner(Behind, rest)
      else Scanner(Stop, open)
  }

  /** From position `p` on, the scanner comes to the last character wanting a value. */
  predicate Wants(t: string, p: nat, s: Scanner)
    requires p < |t|
    decreases |t| - p
  {
    if p + 1 == |t| then s.mode == Want else Wants(t, p + 1, Step(s, t[p]))
  }

  lemma StepOnce(t: string, q: nat, s: Scanner)
    requires q + 1 < |t|
    ensures Wants(t, q, s) == Wants(t, q + 1, Step(s, t[q]))
  {
  }

  lemma LastMode(t: string, s: Scanner)
    requires |t| > 0
    ensures Wants(t, |t| - 1, s) == (s.mode == Want)
  {
  }

  lemma {:induction false} Stopped(t: string, p: nat, open: string)
    requires p < |t|
    ensures !Wants(t, p, Scanner(Stop, open))
    decreases |t| - p
  {
    if p + 1 < |t| {
      Stopped(t, p + 1, open);
    }
  }

  // ---------------------------------------------------------------------
  // Scalars

  /** Texts that end in an opening bracket. */
  predicate Ends(t: string) {
    |t| > 0 && t[|t| - 1] == '['
  }

  /** Spaces do not change a mode that passes over them. */
  lemma {:induction false} Spaces(t: string, p: nat, s: Scanner)
    requires Ends(t) && p < |t| && (s.mode == Want || s.mode == WantKey || s.mode == Colon || s.mode == Behind)
    ensures Wants(t, p, s) == Wants(t, SkipSpace(t, p), s)
    ensures !IsSpace(t[SkipSpace(t, p)])
    decreases |t| - p
  {
    if IsSpace(t[p]) {
      assert p + 1 < |t| && Step(s, t[p]) == s;
      Spaces(t, p + 1, s);
    }
  }

  /** The position behind a value at which the parser goes on. */
  function At(t: string, p: nat): nat
    requires |t| > 0
  {
    if p < |t| then p else |t| - 1
  }

  lemma {:induction false} StringScan(t: string, p: nat, buf: string, open: string, key: bool)
    requires Ends(t) && p < |t| && |buf| <= STRING_MAX
    ensures var r := StringChars(t, p, buf);
            Wants(t, p, Scanner(Str(|buf|, key), open))
            == (r.ret == 1 && Wants(t, At(t, r.pos), Scanner(if key then Colon else Behind, open)))
    decreases |t| - p
  {
    var s := Scanner(Str(|buf|, key), open);
    if p + 1 < |t| {
      var c := t[p];
      if c == '\0' {
        Stopped(t, p + 1, open);
      } else if c != '"' && |buf| < STRING_MAX {
        StringScan(t, p + 1, buf + [c], open, key);
      }
    } else if |buf| < STRING_MAX {
      assert StringChars(t, p + 1, buf + [t[p]]).ret == -1;
    }
  }

  lemma {:induction false} NumberScan(t: string, p: nat, n: nat, open: string)
    requires Ends(t) && p < |t| && n <= DIGITS_MAX
    ensures var q := p + |Digits(t, p, DIGITS_MAX - n)|;
            q < |t| && Wants(t, p, Scanner(Num(n), open)) == Wants(t, q, Scanner(Behind, open))
    decreases |t| - p
  {
    hide Wants, Follow;
    var s, s1 := Scanner(Num(n), open), Scanner(Behind, open);
    if p + 1 < |t| {
      StepOnce(t, p, s);
      StepOnce(t, p, s1);
      if IsDigit(t[p]) && n < DIGITS_MAX {
        NumberScan(t, p + 1, n + 1, open);
      }
    } else {
      LastMode(t, s);
      LastMode(t, s1);
    }
  }

  lemma {:induction false} WordScan(t: string, p: nat, m: string, open: string)
    requires Ends(t) && p < |t| && '[' !in m
    ensures var r := KeywordLoop(t, p + 1, m, t[p]);
            Wants(t, p, Scanner(Word(m), open)) == (r.ret == 1 && Wants(t, r.pos, Scanner(Behind, open)))
    decreases |m|
  {
    if m != "" && m[0] == t[p] {
      assert p + 1 < |t|;
      WordScan(t, p + 1, m[1..], open);
    } else if p + 1 < |t| && |m| > 1 {
      Stopped(t, p + 1, open);
    }
  }

  lemma KeywordScan(t: string, p: nat, open: string)
    requires Ends(t) && p + 1 < |t| && t[p] in {'t', 'f', 'n'}
    ensures var r := ParseKeyword(t, p);
            Wants(t, p, Scanner(Want, open)) == (r.ret == 1 && Wants(t, r.pos, Scanner(Behind, open)))
  {
    hide KeywordLoop, Wants;
    var m := if t[p] == 't' then "true" else if t[p] == 'f' then "false" else "null";
    WordScan(t, p + 1, m[1..], open);
    KeywordFirst(t, p, m);
    WantStep(t, p, open);
  }

  lemma KeywordFirst(t: string, p: nat, m: string)
    requires p + 1 < |t| && m != "" && m[0] == t[p]
    ensures KeywordLoop(t, p + 1, m, t[p]) == KeywordLoop(t, p + 2, m[1..], t[p + 1])
  {
  }

  lemma WantStep(t: string, p: nat, open: string)
    requires p + 1 < |t|
    ensures Wants(t, p, Scanner(Want, open)) == Wants(t, p + 1, Step(Scanner(Want, open), t[p]))
  {
  }

  // ---------------------------------------------------------------------
  // Values

  /** The parse of a part agrees with the scanner, which is in state `s` where the part
      begins and in state `s1` behind it. */
  predicate Agrees<T>(t: string, p: nat, s: Scanner, r: Parsed<T>, s1: Scanner)
    requires p < |t|
  {
    Wants(t, p, s) == (r.ret == LOOPS || (r.ret == 1 && Wants(t, At(t, r.pos), s1)))
  }

  lemma {:induction false} ValueScan(t: string, p: nat, open: string)
    requires Ends(t) && p < |t|
    ensures Agrees(t, p, Scanner(Want, open), ParseValue(t, p), Scanner(Behind, open))
    ensures var r := ParseValue(t, p); r.ret == 1 ==> r.pos < |t| && !IsSpace(t[r.pos])
    decreases Left(t, p), 4
  {
    hide Wants, Alternatives, SkipSpace;
    var q := SkipSpace(t, p);
    var r := Alternatives(t, q);
    Spaces(t, p, Scanner(Want, open));
    FormScan(t, q, open);
    if r.ret == 1 && r.pos < |t| {
      Spaces(t, r.pos, Scanner(Behind, open));
    }
  }

  lemma {:induction false} FormScan(t: string, q: nat, open: string)
    requires Ends(t) && q < |t| && !IsSpace(t[q])
    ensures Agrees(t, q, Scanner(Want, open), Alternatives(t, q), Scanner(Behind, open))
    decreases Left(t, q), 3
  {
    hide Wants, Elements, Members, StringChars, ParseKeyword, Digits, SkipSpace;
    if q + 1 == |t| {
      LastBracket(t, open);
    } else {
      WantStep(t, q, open);
      if t[q] == '{' {
        MembersScan(t, q + 1, [], open);
      } else if t[q] == '[' {
        ElementsScan(t, q + 1, [], open);
      } else if t[q] == '"' {
        StringScan(t, q + 1, "", open, false);
      } else if IsDigit(t[q]) {
        NumberScan(t, q + 1, 1, open);
        DigitsFirst(t, q);
      } else if t[q] in {'t', 'f', 'n'} {
        KeywordScan(t, q, open);
      } else {
        Stopped(t, q + 1, open);
        NoKeyword(t, q);
      }
    }
  }

  lemma LastBracket(t: string, open: string)
    requires Ends(t)
    ensures Wants(t, |t| - 1, Scanner(Want, open)) && Alternatives(t, |t| - 1).ret == LOOPS
  {
    hide Elements, Members;
  }

  lemma DigitsFirst(t: string, q: nat)
    requires q + 1 < |t| && IsDigit(t[q])
    ensures |Digits(t, q, DIGITS_MAX)| == 1 + |Digits(t, q + 1, DIGITS_MAX - 1)|
  {
  }

  lemma NoKeyword(t: string, q: nat)
    requires |t| > 0 && q < |t| && t[q] !in {'t', 'f', 'n'}
    ensures ParseKeyword(t, q).ret == 0
  {
  }

  lemma {:induction false} ElementsScan(t: string, p: nat, acc: seq<Value>, open: string)
    requires Ends(t) && p < |t|
    ensures Agrees(t, p, Scanner(Want, open + "["), Elements(t, p, acc), Scanner(Behind, open))
    decreases Left(t, p), 5
  {
    hide Wants, ParseValue;
    ValueScan(t, p, open + "[");
    var v := ParseValue(t, p);
    if v.ret == 1 {
      BehindStep(t, v.pos, open, '[');
      if v.pos + 1 < |t| && t[v.pos] == ',' {
        ElementsScan(t, v.pos + 1, acc + [v.value], open);
      }
    }
  }

  /** Behind a value inside a bracket: its end, a comma, or an error. */
  lemma BehindStep(t: string, q: nat, open: string, b: char)
    requires Ends(t) && q < |t| && (b == '[' || b == '{') && !IsSpace(t[q])
    ensures var s := Scanner(Behind, open + [b]);
            Wants(t, q, s) == (q + 1 < |t| &&
                               if t[q] == ',' then Wants(t, q + 1, Scanner(if b == '[' then Want else WantKey, open + [b]))
                               else t[q] == (if b == '[' then ']' else '}') && Wants(t, q + 1, Scanner(Behind, open)))
  {
    hide Wants;
    var s := Scanner(Behind, open + [b]);
    assert (open + [b])[..|open|] == open;
    if q + 1 < |t| {
      StepOnce(t, q, s);
      Stopped(t, q + 1, open + [b]);
    } else {
      LastMode(t, s);
    }
  }

  lemma {:induction false} MembersScan(t: string, p: nat, acc: seq<(string, Value)>, open: string)
    requires Ends(t) && p < |t|
    ensures Agrees(t, p, Scanner(WantKey, open + "{"), Members(t, p, acc), Scanner(Behind, open))
    decreases Left(t, p), 1
  {
    hide Wants, ParseProperty;
    PropertyScan(t, p, open + "{");
    var m := ParseProperty(t, p);
    if m.ret == 1 {
      BehindStep(t, m.pos, open, '{');
      if m.pos + 1 < |t| && t[m.pos] == ',' {
        MembersScan(t, m.pos + 1, acc + [m.value], open);
      }
    }
  }

  lemma KeyScan(t: string, q: nat, open: string)
    requires Ends(t) && q < |t| && !IsSpace(t[q])
    ensures var r := ParseString(t, q);
            Wants(t, q, Scanner(WantKey, open)) == (r.ret == 1 && Wants(t, At(t, r.pos), Scanner(Colon, open)))
  {
    hide Wants, StringChars;
    var s := Scanner(WantKey, open);
    if q + 1 == |t| {
      LastMode(t, s);
    } else {
      StepOnce(t, q, s);
      if t[q] == '"' {
        StringScan(t, q + 1, "", open, true);
      } else {
        Stopped(t, q + 1, open);
      }
    }
  }

  lemma ColonScan(t: string, q: nat, open: string)
    requires Ends(t) && q < |t| && !IsSpace(t[q])
    ensures Wants(t, q, Scanner(Colon, open)) == (t[q] == ':' && Wants(t, q + 1, Scanner(Want, open)))
  {
    hide Wants;
    var s := Scanner(Colon, open);
    if q + 1 == |t| {
      LastMode(t, s);
    } else {
      StepOnce(t, q, s);
      if t[q] != ':' {
        Stopped(t, q + 1, open);
      }
    }
  }

  lemma {:induction false} PropertyScan(t: string, p: nat, open: string)
    requires Ends(t) && p < |t|
    ensures Agrees(t, p, Scanner(WantKey, open), ParseProperty(t, p), Scanner(Behind, open))
    ensures var r := ParseProperty(t, p); r.ret == 1 ==> !IsSpace(t[r.pos])
    decreases Left(t, p), 0
  {
    hide Wants, StringChars, SkipSpace, ParseValue;
    var q := SkipSpace(t, p);
    Spaces(t, p, Scanner(WantKey, open));
    KeyScan(t, q, open);
    var k := ParseString(t, q);
    if k.ret == 1 {
      Spaces(t, At(t, k.pos), Scanner(Colon, open));
      ColonScan(t, SkipSpace(t, k.pos), open);
      var c := SkipSpace(t, k.pos);
      if t[c] == ':' {
        ValueScan(t, c + 1, open);
      }
    }
  }

  /** The parser loops exactly on the texts that end in an opening bracket and whose
      other characters bring the scanner to it wanting a value. */
  lemma LoopsExactly(t: string)
    ensures Parse(t).ret == LOOPS <==> Ends(t) && Wants(t, 0, START)
  {
    hide Wants, ParseValue;
    if Ends(t) {
      ValueScan(t, 0, "");
      assert Parse(t) == ParseValue(t, 0);
      BehindAll(t, At(t, ParseValue(t, 0).pos));
    }
  }

  /** Behind the root value nothing is wanted any more. */
  lemma {:induction false} BehindAll(t: string, p: nat)
    requires p < |t|
    ensures !Wants(t, p, Scanner(Behind, ""))
    decreases |t| - p
  {
    if p + 1 < |t| {
      if IsSpace(t[p]) {
        BehindAll(t, p + 1);
      } else {
        Stopped(t, p + 1, "");
      }
    }
  }
}
