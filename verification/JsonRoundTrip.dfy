/**
 Any JSON document of the supported kind, with any white space between its
 tokens, parses to the tree it was written from.
 */
module JsonRoundTrip {
  import opened Json

  /** Numbers of at most this many digits are exact in a double. */
  const EXACT_DIGITS := 15

  /** A value with the white space around it. */
  datatype Doc = Doc(pre: string, body: Body, post: string)

  datatype Body =
    | BTrue | BFalse | BNull
    | BNumber(digits: string)
    | BText(s: string)
    | BArray(elems: seq<Doc>)
    | BObject(members: seq<Member>)

  datatype Member = Member(pre: string, key: string, mid: string, value: Doc)

  // ---------------------------------------------------------------------
  // Documents, their text and their tree

  predicate Spaces(s: string) {
    forall i | 0 <= i < |s| :: IsSpace(s[i])
  }

  predicate AllDigits(s: string) {
    forall i | 0 <= i < |s| :: IsDigit(s[i])
  }

  predicate Plain(s: string) {
    |s| <= STRING_MAX && forall i | 0 <= i < |s| :: s[i] != '"' && s[i] != '\0'
  }

  predicate WfDoc(d: Doc) {
    Spaces(d.pre) && Spaces(d.post) && WfBody(d.body)
  }

  predicate WfBody(b: Body) {
    match b
    case BNumber(d) => 0 < |d| <= EXACT_DIGITS && AllDigits(d)
    case BText(s) => Plain(s)
    case BArray(ds) => |ds| > 0 && forall d | d in ds :: WfDoc(d)
    case BObject(ms) => |ms| > 0 && forall m | m in ms :: WfMember(m)
    case _ => true
  }

  predicate WfMember(m: Member) {
    Spaces(m.pre) && Plain(m.key) && Spaces(m.mid) && WfDoc(m.value)
  }

  function Print(d: Doc): string {
    d.pre + PrintBody(d.body) + d.post
  }

  function PrintBody(b: Body): (s: string) {
    match b
    case BTrue => "true"
    case BFalse => "false"
    case BNull => "null"
    case BNumber(d) => d
    case BText(s) => "\"" + s + "\""
    case BArray(ds) => "[" + PrintElems(ds)
    case BObject(ms) => "{" + PrintMembers(ms)
  }

  /** The elements with their separators and the closing bracket. */
  function PrintElems(ds: seq<Doc>): string {
    if ds == [] then "]"
    else Print(ds[0]) + (if |ds| == 1 then "]" else "," + PrintElems(ds[1..]))
  }

  function PrintMember(m: Member): string {
    m.pre + "\"" + m.key + "\"" + m.mid + ":" + Print(m.value)
  }

  function PrintMembers(ms: seq<Member>): string {
    if ms == [] then "}"
    else PrintMember(ms[0]) + (if |ms| == 1 then "}" else "," + PrintMembers(ms[1..]))
  }

  function ToValue(d: Doc): Value
    requires WfDoc(d)
  {
    BodyValue(d.body)
  }

  function BodyValue(b: Body): Value
    requires WfBody(b)
  {
    match b
    case BTrue => True
    case BFalse => False
    case BNull => Null
    case BNumber(d) => Number(Decimal(d))
    case BText(s) => Text(s)
    case BArray(ds) => Array(ElemValues(ds))
    case BObject(ms) => Object(MemberValues(ms))
  }

  function ElemValues(ds: seq<Doc>): seq<Value>
    requires forall d | d in ds :: WfDoc(d)
  {
    if ds == [] then [] else [ToValue(ds[0])] + ElemValues(ds[1..])
  }

  function MemberValues(ms: seq<Member>): seq<(string, Value)>
    requires forall m | m in ms :: WfMember(m)
  {
    if ms == [] then []
    else
      assert WfMember(ms[0]);
      [(ms[0].key, ToValue(ms[0].value))] + MemberValues(ms[1..])
  }

  // ---------------------------------------------------------------------
  // Text at a position

  /** The text `s` stands in `t` at position `p`. */
  predicate Sees(t: string, p: nat, s: string) {
    p + |s| <= |t| && t[p..p + |s|] == s
  }

  lemma SeesConcat(t: string, p: nat, a: string, b: string)
    ensures Sees(t, p, a + b) <==> Sees(t, p, a) && Sees(t, p + |a|, b)
  {
    if p + |a| + |b| <= |t| {
      var s := t[p..p + |a| + |b|];
      assert s[..|a|] == t[p..p + |a|] && s[|a|..] == t[p + |a|..p + |a| + |b|];
      assert s == a + b <==> s[..|a|] == a && s[|a|..] == b;
    }
  }

  /** What may follow a value. */
  predicate Ends(t: string, p: nat) {
    p == |t| || (p < |t| && (t[p] == ',' || t[p] == ']' || t[p] == '}' || IsSpace(t[p])))
  }

  /** The cursor stands at `e`, or perhaps one back if that is the end of the text. */
  predicate At(t: string, pos: nat, e: nat) {
    pos == e || (e == |t| && pos + 1 == e)
  }

  predicate Delimited(t: string, p: nat) {
    p < |t| && (t[p] == ',' || t[p] == ']' || t[p] == '}')
  }

  lemma {:induction false} SkipOver(t: string, p: nat, ws: string)
    requires |t| > 0 && Sees(t, p, ws) && Spaces(ws) && p + |ws| < |t| && !IsSpace(t[p + |ws|])
    ensures SkipSpace(t, p) == p + |ws|
    decreases |ws|
  {
    if ws != "" {
      assert t[p] == ws[0];
      assert t[p + 1..p + |ws|] == ws[1..];
      SkipOver(t, p + 1, ws[1..]);
    }
  }

  // ---------------------------------------------------------------------
  // Scalars

  lemma {:induction false} StringRT(t: string, p: nat, s: string, buf: string)
    requires Sees(t, p, s + "\"") && Plain(s) && |buf| + |s| <= STRING_MAX
    ensures StringChars(t, p, buf) == Parsed(1, p + |s| + 1, buf + s)
    decreases |s|
  {
    if s == "" {
      assert t[p] == t[p..p + 1][0] == '"';
      assert buf + s == buf;
    } else {
      assert t[p] == (s + "\"")[0] == s[0];
      assert t[p + 1..p + |s| + 1] == (s + "\"")[1..] == s[1..] + "\"";
      StringRT(t, p + 1, s[1..], buf + [s[0]]);
      assert buf + [s[0]] + s[1..] == buf + s;
    }
  }

  lemma QuotedRT(t: string, p: nat, s: string)
    requires |t| > 0 && Sees(t, p, "\"" + s + "\"") && Plain(s)
    ensures p < |t| && t[p] == '"' && ParseString(t, p) == Parsed(1, p + |s| + 2, s)
  {
    assert "\"" + s + "\"" == "\"" + (s + "\"");
    SeesConcat(t, p, "\"", s + "\"");
    assert t[p] == t[p..p + 1][0] == '"';
    StringRT(t, p + 1, s, "");
    assert "" + s == s;
  }

  lemma {:induction false} DigitsRT(t: string, p: nat, d: string, max: nat)
    requires Sees(t, p, d) && AllDigits(d) && |d| <= max && (p + |d| < |t| ==> !IsDigit(t[p + |d|]))
    ensures Digits(t, p, max) == d
    decreases |d|
  {
    if d != "" {
      assert t[p] == d[0] && t[p + 1..p + |d|] == d[1..];
      DigitsRT(t, p + 1, d[1..], max - 1);
    }
  }

  lemma {:induction false} KeywordRT(t: string, p: nat, m: string)
    requires m != "" && Sees(t, p, m)
    ensures var r := KeywordLoop(t, p + 1, m, t[p]);
            r.ret == 1 && r.pos == Back(t, p + |m|)
    decreases |m|
  {
    assert t[p] == t[p..p + |m|][0] == m[0];
    if |m| > 1 {
      assert t[p + 1..p + |m|] == m[1..];
      KeywordRT(t, p + 1, m[1..]);
    }
  }

  lemma BodyStart(b: Body)
    requires WfBody(b)
    ensures |PrintBody(b)| > 0 && !IsSpace(PrintBody(b)[0])
  {
  }

  lemma ScalarRT(t: string, p: nat, b: Body)
    requires |t| > 0 && WfBody(b) && !b.BArray? && !b.BObject?
    requires Sees(t, p, PrintBody(b)) && Ends(t, p + |PrintBody(b)|)
    ensures p < |t|
    ensures var r := Alternatives(t, p);
            r.ret == 1 && r.value == BodyValue(b) && At(t, r.pos, p + |PrintBody(b)|)
  {
    hide ParseObject, ParseArray, KeywordLoop, KeywordEnd, Digits, StringChars;
    var s := PrintBody(b);
    BodyStart(b);
    assert t[p] == t[p..p + |s|][0] == s[0];
    match b
    case BText(x) => QuotedRT(t, p, x);
    case BNumber(d) => DigitsRT(t, p, d, DIGITS_MAX);
    case _ => KeywordRT(t, p, s);
  }

  // ---------------------------------------------------------------------
  // Values

  lemma BracketForms(t: string, p: nat)
    requires p < |t|
    ensures t[p] == '[' ==> Alternatives(t, p) == ParseArray(t, p)
    ensures t[p] == '{' ==> Alternatives(t, p) == ParseObject(t, p)
  {
    hide ParseArray, ParseObject;
  }

  lemma {:induction false} BodyRT(t: string, p: nat, b: Body)
    requires |t| > 0 && WfBody(b)
    requires Sees(t, p, PrintBody(b)) && Ends(t, p + |PrintBody(b)|)
    ensures p < |t|
    ensures var r := Alternatives(t, p);
            r.ret == 1 && r.value == BodyValue(b) && At(t, r.pos, p + |PrintBody(b)|)
    decreases b
  {
    hide Alternatives, Elements, Members, PrintElems, PrintMembers;
    match b
    case BArray(ds) =>
      SeesConcat(t, p, "[", PrintElems(ds));
      assert t[p] == t[p..p + 1][0] == '[';
      BracketForms(t, p);
      ElementsRT(t, p + 1, ds, []);
      assert [] + ElemValues(ds) == ElemValues(ds);
    case BObject(ms) =>
      SeesConcat(t, p, "{", PrintMembers(ms));
      assert t[p] == t[p..p + 1][0] == '{';
      BracketForms(t, p);
      MembersRT(t, p + 1, ms, []);
      assert [] + MemberValues(ms) == MemberValues(ms);
    case _ => ScalarRT(t, p, b);
  }

  /** A value in its white space, in front of a delimiter. */
  lemma {:induction false} ValueRT(t: string, p: nat, d: Doc)
    requires |t| > 0 && WfDoc(d)
    requires Sees(t, p, Print(d)) && Delimited(t, p + |Print(d)|)
    ensures ParseValue(t, p) == Parsed(1, p + |Print(d)|, ToValue(d))
    decreases d
  {
    hide SkipSpace, Alternatives, Sees, PrintBody, BodyValue, WfBody;
    var e := InSpace(t, p, d);
    BodyRT(t, p + |d.pre|, d.body);
    SkipOver(t, e, d.post);
  }

  /** Where the parts of a value stand. */
  lemma InSpace(t: string, p: nat, d: Doc) returns (e: nat)
    requires |t| > 0 && WfDoc(d) && Sees(t, p, Print(d))
    requires p + |Print(d)| < |t| ==> Delimited(t, p + |Print(d)|)
    ensures e == p + |d.pre| + |PrintBody(d.body)| && e + |d.post| == p + |Print(d)|
    ensures Sees(t, p + |d.pre|, PrintBody(d.body)) && Sees(t, e, d.post) && Ends(t, e)
    ensures SkipSpace(t, p) == p + |d.pre|
  {
    e := p + |d.pre| + |PrintBody(d.body)|;
    SeesConcat(t, p, d.pre + PrintBody(d.body), d.post);
    SeesConcat(t, p, d.pre, PrintBody(d.body));
    BodyStart(d.body);
    assert t[p + |d.pre|] == t[p + |d.pre|..e][0] == PrintBody(d.body)[0];
    SkipOver(t, p, d.pre);
    if d.post != "" {
      assert t[e] == t[e..e + |d.post|][0] == d.post[0];
    }
  }

  lemma ElementStep(t: string, p: nat, acc: seq<Value>, q: nat, v: Value)
    requires |t| > 0 && p <= |t| && q < |t| && ParseValue(t, p) == Parsed(1, q, v)
    ensures t[q] == ']' ==> Elements(t, p, acc) == Parsed(1, q + 1, acc + [v])
    ensures t[q] == ',' ==> Elements(t, p, acc) == Elements(t, q + 1, acc + [v])
  {
    hide ParseValue;
  }

  lemma MemberStep(t: string, p: nat, acc: seq<(string, Value)>, q: nat, m: (string, Value))
    requires |t| > 0 && p <= |t| && q < |t| && ParseProperty(t, p) == Parsed(1, q, m)
    ensures t[q] == '}' ==> Members(t, p, acc) == Parsed(1, q + 1, acc + [m])
    ensures t[q] == ',' ==> Members(t, p, acc) == Members(t, q + 1, acc + [m])
  {
    hide ParseProperty;
  }

  /** What follows an element or a member. */
  lemma Follows(t: string, p: nat, s: string, rest: string)
    requires rest != "" && Sees(t, p, s + rest)
    ensures Sees(t, p, s) && Sees(t, p + |s|, rest) && p + |s| < |t| && t[p + |s|] == rest[0]
    ensures Sees(t, p + |s| + 1, rest[1..])
  {
    SeesConcat(t, p, s, rest);
    assert rest == rest[..1] + rest[1..];
    SeesConcat(t, p + |s|, rest[..1], rest[1..]);
    assert t[p + |s|] == t[p + |s|..p + |s| + |rest|][0];
  }

  lemma {:induction false} ElementsRT(t: string, p: nat, ds: seq<Doc>, acc: seq<Value>)
    requires |t| > 0 && |ds| > 0 && (forall d | d in ds :: WfDoc(d))
    requires Sees(t, p, PrintElems(ds))
    ensures Elements(t, p, acc) == Parsed(1, p + |PrintElems(ds)|, acc + ElemValues(ds))
    decreases ds
  {
    hide ParseValue, Elements, Print, Sees, ToValue, WfDoc;
    var d := ds[0];
    var rest := if |ds| == 1 then "]" else "," + PrintElems(ds[1..]);
    var q := p + |Print(d)|;
    Follows(t, p, Print(d), rest);
    ValueRT(t, p, d);
    ElementStep(t, p, acc, q, ToValue(d));
    assert ElemValues(ds) == [ToValue(d)] + ElemValues(ds[1..]);
    assert acc + ElemValues(ds) == acc + [ToValue(d)] + ElemValues(ds[1..]);
    if |ds| > 1 {
      assert rest[1..] == PrintElems(ds[1..]);
      ElementsRT(t, q + 1, ds[1..], acc + [ToValue(d)]);
    } else {
      assert acc + ElemValues(ds) == acc + [ToValue(d)];
    }
  }

  /** Where the parts of a member stand: key, colon and value. */
  lemma MemberParts(t: string, p: nat, m: Member) returns (k: nat, c: nat)
    requires |t| > 0 && WfMember(m) && Sees(t, p, PrintMember(m))
    ensures k == p + |m.pre| && c == k + |m.key| + 2 + |m.mid|
    ensures c + 1 + |Print(m.value)| == p + |PrintMember(m)| && c < |t| && t[c] == ':'
    ensures SkipSpace(t, p) == k && ParseString(t, k) == Parsed(1, k + |m.key| + 2, m.key)
    ensures SkipSpace(t, k + |m.key| + 2) == c && Sees(t, c + 1, Print(m.value))
  {
    hide Print, ParseString, SkipSpace, Sees, Spaces, Plain;
    k := p + |m.pre|;
    c := k + |m.key| + 2 + |m.mid|;
    var quoted := "\"" + m.key + "\"";
    var tail := m.mid + (":" + Print(m.value));
    assert PrintMember(m) == m.pre + (quoted + tail);
    SeesConcat(t, p, m.pre, quoted + tail);
    SeesConcat(t, k, quoted, tail);
    Follows(t, k + |quoted|, m.mid, ":" + Print(m.value));
    assert (":" + Print(m.value))[1..] == Print(m.value);
    QuotedRT(t, k, m.key);
    assert t[k] == '"';
    SkipOver(t, p, m.pre);
    SkipOver(t, k + |quoted|, m.mid);
  }

  lemma PropertyStep(t: string, p: nat, k: nat, e: nat, c: nat, key: string, q: nat, v: Value)
    requires |t| > 0 && p <= |t| && k < |t| && e <= |t| && c < |t|
    requires SkipSpace(t, p) == k && ParseString(t, k) == Parsed(1, e, key)
    requires SkipSpace(t, e) == c && t[c] == ':' && ParseValue(t, c + 1) == Parsed(1, q, v)
    ensures ParseProperty(t, p) == Parsed(1, q, (key, v))
  {
    hide ParseString, SkipSpace, ParseValue;
  }

  /** A member in front of a delimiter. */
  lemma {:induction false} PropertyRT(t: string, p: nat, m: Member)
    requires |t| > 0 && WfMember(m)
    requires Sees(t, p, PrintMember(m)) && Delimited(t, p + |PrintMember(m)|)
    ensures ParseProperty(t, p) == Parsed(1, p + |PrintMember(m)|, (m.key, ToValue(m.value)))
    decreases m
  {
    hide ParseString, SkipSpace, ParseValue, ParseProperty, Print, PrintMember;
    var k, c := MemberParts(t, p, m);
    ValueRT(t, c + 1, m.value);
    PropertyStep(t, p, k, k + |m.key| + 2, c, m.key, p + |PrintMember(m)|, ToValue(m.value));
  }

  lemma {:induction false} MembersRT(t: string, p: nat, ms: seq<Member>, acc: seq<(string, Value)>)
    requires |t| > 0 && |ms| > 0 && (forall m | m in ms :: WfMember(m))
    requires Sees(t, p, PrintMembers(ms))
    ensures Members(t, p, acc) == Parsed(1, p + |PrintMembers(ms)|, acc + MemberValues(ms))
    decreases ms
  {
    hide ParseProperty, Members, PrintMember, Sees, ToValue, WfDoc;
    var m := ms[0];
    assert WfMember(m);
    var rest := if |ms| == 1 then "}" else "," + PrintMembers(ms[1..]);
    var q := p + |PrintMember(m)|;
    Follows(t, p, PrintMember(m), rest);
    PropertyRT(t, p, m);
    var kv := (m.key, ToValue(m.value));
    MemberStep(t, p, acc, q, kv);
    assert MemberValues(ms) == [kv] + MemberValues(ms[1..]);
    assert acc + MemberValues(ms) == acc + [kv] + MemberValues(ms[1..]);
    if |ms| > 1 {
      assert rest[1..] == PrintMembers(ms[1..]);
      MembersRT(t, q + 1, ms[1..], acc + [kv]);
    } else {
      assert acc + MemberValues(ms) == acc + [kv];
    }
  }

  // ---------------------------------------------------------------------
  // Whole texts

  lemma {:induction false} ElemsEnd(ds: seq<Doc>)
    ensures |PrintElems(ds)| > 0 && PrintElems(ds)[|PrintElems(ds)| - 1] == ']'
    decreases |ds|
  {
    if |ds| > 1 { ElemsEnd(ds[1..]); }
  }

  lemma {:induction false} MembersEnd(ms: seq<Member>)
    ensures |PrintMembers(ms)| > 0 && PrintMembers(ms)[|PrintMembers(ms)| - 1] == '}'
    decreases |ms|
  {
    if |ms| > 1 { MembersEnd(ms[1..]); }
  }

  /** The last character of a printed document. */
  lemma PrintEnd(d: Doc)
    requires WfDoc(d)
    ensures var s := Print(d);
            |s| > 0 && s[|s| - 1] != ',' && s[|s| - 1] != '['
            && (s[|s| - 1] == ']' <==> d.body.BArray? && d.post == "")
            && (IsSpace(s[|s| - 1]) <==> d.post != "")
  {
    var s := PrintBody(d.body);
    BodyStart(d.body);
    assert s[|s| - 1] != ',' && s[|s| - 1] != '[' && !IsSpace(s[|s| - 1])
           && (s[|s| - 1] == ']' <==> d.body.BArray?) by {
      match d.body
      case BArray(ds) => ElemsEnd(ds);
      case BObject(ms) => MembersEnd(ms);
      case _ =>
    }
    assert Print(d)[|Print(d)| - 1] == if d.post == "" then s[|s| - 1] else d.post[|d.post| - 1];
  }

  lemma ValueForm(t: string, p: nat)
    requires |t| > 0 && p <= |t|
    ensures var r := Alternatives(t, SkipSpace(t, p));
            r.ret == 1 ==> ParseValue(t, p).ret == 1 && ParseValue(t, p).value == r.value
    ensures Parse(t) == ParseValue(t, 0)
  {
    hide Alternatives, SkipSpace;
  }

  /** Every document, whatever its white space, parses to its tree: shape, order,
      keys, strings and numbers. */
  lemma RoundTrip(d: Doc)
    requires WfDoc(d)
    ensures Closed(Print(d))
    ensures Parse(Print(d)).ret == 1 && Parse(Print(d)).value == ToValue(d)
  {
    var t := Print(d);
    assert Sees(t, 0, t);
    hide Alternatives, SkipSpace, ParseValue, Parse, Print, PrintBody, BodyValue, Sees, WfBody, Spaces, Ends, At;
    PrintEnd(d);
    var e := InSpace(t, 0, d);
    BodyRT(t, |d.pre|, d.body);
    ValueForm(t, 0);
  }
}
