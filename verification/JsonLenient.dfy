/**
 Texts the parser accepts although they are not JSON: a keyword with a wrong or
 missing last letter, and an array whose closing bracket is missing behind an
 inner array.
 */
module JsonLenient {
  import opened Json
  import opened JsonRoundTrip

  // ---------------------------------------------------------------------
  // Keywords

  /** A keyword is accepted exactly when all its letters but the last are there. */
  lemma {:induction false} KeywordLoopAccepts(t: string, p: nat, m: string)
    requires m != "" && p < |t|
    ensures KeywordLoop(t, p + 1, m, t[p]).ret == 1 <==> Sees(t, p, m[..|m| - 1])
    decreases |m|
  {
    if |m| > 1 {
      var m0 := m[..|m| - 1];
      assert m[1..][..|m| - 2] == m0[1..] && m0 == [m0[0]] + m0[1..];
      SeesConcat(t, p, [m0[0]], m0[1..]);
      assert Sees(t, p, [m0[0]]) <==> t[p..p + 1] == [m0[0]];
      assert t[p..p + 1] == [t[p]];
      if p + 1 < |t| {
        KeywordLoopAccepts(t, p + 1, m[1..]);
      }
    }
  }

  lemma KeywordAccepts(t: string, p: nat)
    requires p < |t|
    ensures ParseKeyword(t, p).ret == 1 <==> Sees(t, p, "tru") || Sees(t, p, "fals") || Sees(t, p, "nul")
  {
    hide KeywordLoop, Sees;
    KeywordLoopAccepts(t, p, "true");
    KeywordLoopAccepts(t, p, "false");
    KeywordLoopAccepts(t, p, "null");
    assert "true"[..3] == "tru" && "false"[..4] == "fals" && "null"[..3] == "nul";
    FirstLetter(t, p, "tru");
    FirstLetter(t, p, "fals");
    FirstLetter(t, p, "nul");
  }

  lemma FirstLetter(t: string, p: nat, s: string)
    requires s != "" && p < |t|
    ensures Sees(t, p, s) ==> t[p] == s[0]
  {
    if Sees(t, p, s) {
      assert t[p] == t[p..p + |s|][0];
    }
  }

  // ---------------------------------------------------------------------
  // Endless recursion

  /** At the end of a text whose last character is an opening bracket, looking
      for a value comes back to that bracket: the call repeats itself. */
  lemma BracketRereads(t: string)
    requires |t| > 0 && !Closed(t)
    ensures SkipSpace(t, |t|) + 1 == |t| && t[SkipSpace(t, |t|)] == '['
    ensures ParseValue(t, |t|).ret == LOOPS
  {
    assert ParseArray(t, |t| - 1).ret == LOOPS;
  }

  /** One bracket that is still open, with the complete elements or members before the
      value to come. */
  datatype Level =
    | InArray(pre: string, elems: seq<Doc>)
    | InObject(pre: string, members: seq<Member>, keyPre: string, key: string, mid: string)

  predicate WfLevel(l: Level) {
    match l
    case InArray(pre, ds) => Spaces(pre) && forall d | d in ds :: WfDoc(d)
    case InObject(pre, ms, keyPre, key, mid) =>
      Spaces(pre) && (forall m | m in ms :: WfMember(m)) && Spaces(keyPre) && Plain(key) && Spaces(mid)
  }

  function PrintDone(ds: seq<Doc>): string {
    if ds == [] then "" else Print(ds[0]) + ("," + PrintDone(ds[1..]))
  }

  function PrintDoneMembers(ms: seq<Member>): string {
    if ms == [] then "" else PrintMember(ms[0]) + ("," + PrintDoneMembers(ms[1..]))
  }

  function KeyText(keyPre: string, key: string, mid: string): (s: string)
    ensures |s| == |keyPre| + |key| + 2 + |mid| + 1
  {
    keyPre + ("\"" + key + "\"" + (mid + ":"))
  }

  function PrintLevel(l: Level): string {
    match l
    case InArray(pre, ds) => pre + ("[" + PrintDone(ds))
    case InObject(pre, ms, keyPre, key, mid) =>
      pre + ("{" + (PrintDoneMembers(ms) + KeyText(keyPre, key, mid)))
  }

  function PrintLevels(ls: seq<Level>): string {
    if ls == [] then "" else PrintLevel(ls[0]) + PrintLevels(ls[1..])
  }

  lemma {:induction false} ElementsThrough(t: string, p: nat, ds: seq<Doc>, acc: seq<Value>) returns (acc1: seq<Value>)
    requires |t| > 0 && Sees(t, p, PrintDone(ds)) && forall d | d in ds :: WfDoc(d)
    ensures Elements(t, p, acc) == Elements(t, p + |PrintDone(ds)|, acc1)
    decreases ds
  {
    hide ParseValue, Elements, Print, Sees, ToValue, WfDoc;
    acc1 := acc;
    if ds != [] {
      var d, q := ds[0], p + |Print(ds[0])|;
      Follows(t, p, Print(d), "," + PrintDone(ds[1..]));
      assert ("," + PrintDone(ds[1..]))[1..] == PrintDone(ds[1..]);
      ValueRT(t, p, d);
      ElementStep(t, p, acc, q, ToValue(d));
      acc1 := ElementsThrough(t, q + 1, ds[1..], acc + [ToValue(d)]);
    }
  }

  lemma {:induction false} MembersThrough(t: string, p: nat, ms: seq<Member>, acc: seq<(string, Value)>)
    returns (acc1: seq<(string, Value)>)
    requires |t| > 0 && Sees(t, p, PrintDoneMembers(ms)) && forall m | m in ms :: WfMember(m)
    ensures Members(t, p, acc) == Members(t, p + |PrintDoneMembers(ms)|, acc1)
    decreases ms
  {
    hide ParseProperty, Members, PrintMember, Sees, ToValue, WfDoc;
    acc1 := acc;
    if ms != [] {
      var m, q := ms[0], p + |PrintMember(ms[0])|;
      assert WfMember(m);
      Follows(t, p, PrintMember(m), "," + PrintDoneMembers(ms[1..]));
      assert ("," + PrintDoneMembers(ms[1..]))[1..] == PrintDoneMembers(ms[1..]);
      PropertyRT(t, p, m);
      MemberStep(t, p, acc, q, (m.key, ToValue(m.value)));
      acc1 := MembersThrough(t, q + 1, ms[1..], acc + [(m.key, ToValue(m.value))]);
    }
  }

  /** If the value to come loops, so do the array or object around it. */
  lemma ArrayLoops(t: string, p: nat, q: nat, acc: seq<Value>)
    requires p < q < |t| && t[p] == '[' && Elements(t, p + 1, []) == Elements(t, q, acc) && ParseValue(t, q).ret == LOOPS
    ensures Alternatives(t, p).ret == LOOPS
  {
    hide ParseValue;
    BracketForms(t, p);
    assert Elements(t, q, acc).ret == LOOPS;
  }

  lemma ObjectLoops(t: string, p: nat, q: nat, acc: seq<(string, Value)>)
    requires p < q < |t| && t[p] == '{' && Members(t, p + 1, []) == Members(t, q, acc) && ParseProperty(t, q).ret == LOOPS
    ensures Alternatives(t, p).ret == LOOPS
  {
    hide ParseProperty;
    BracketForms(t, p);
    assert Members(t, q, acc).ret == LOOPS;
  }

  lemma ValueLoops(t: string, p: nat, pre: string)
    requires |t| > 0 && Sees(t, p, pre) && Spaces(pre) && p + |pre| < |t| && !IsSpace(t[p + |pre|])
    requires Alternatives(t, p + |pre|).ret == LOOPS
    ensures ParseValue(t, p).ret == LOOPS
  {
    hide Alternatives, Sees, SkipSpace;
    SkipOver(t, p, pre);
  }

  /** Where the key and the colon of a property stand. */
  lemma KeyParts(t: string, p: nat, keyPre: string, key: string, mid: string) returns (k: nat, e: nat, c: nat)
    requires |t| > 0 && Spaces(keyPre) && Plain(key) && Spaces(mid)
    requires Sees(t, p, KeyText(keyPre, key, mid))
    ensures k == p + |keyPre| && e == k + |key| + 2 && c == e + |mid| && c < |t| && t[c] == ':'
    ensures SkipSpace(t, p) == k && ParseString(t, k) == Parsed(1, e, key) && SkipSpace(t, e) == c
  {
    hide Sees, Spaces, Plain, SkipSpace, ParseString;
    k, e, c := p + |keyPre|, p + |keyPre| + |key| + 2, p + |keyPre| + |key| + 2 + |mid|;
    var quoted := "\"" + key + "\"";
    SeesConcat(t, p, keyPre, quoted + (mid + ":"));
    SeesConcat(t, k, quoted, mid + ":");
    Follows(t, e, mid, ":");
    QuotedRT(t, k, key);
    assert t[k] == '"';
    SkipOver(t, p, keyPre);
    SkipOver(t, e, mid);
  }

  lemma PropertyLoops(t: string, p: nat, k: nat, e: nat, c: nat, key: string)
    requires |t| > 0 && p <= |t| && k < |t| && e <= |t| && c < |t| && t[c] == ':'
    requires SkipSpace(t, p) == k && ParseString(t, k) == Parsed(1, e, key) && SkipSpace(t, e) == c
    requires ParseValue(t, c + 1).ret == LOOPS
    ensures ParseProperty(t, p).ret == LOOPS
  {
    hide SkipSpace, ParseString, ParseValue;
  }

  /** In every context of open brackets with complete values before it, a bracket that
      ends the text makes the parser loop. */
  lemma {:induction false} OpenBracketLoops(t: string, p: nat, ls: seq<Level>, ws: string)
    requires (forall l | l in ls :: WfLevel(l)) && Spaces(ws)
    requires Sees(t, p, PrintLevels(ls) + (ws + "[")) && p + |PrintLevels(ls)| + |ws| + 1 == |t|
    ensures ParseValue(t, p).ret == LOOPS
    decreases |ls|
  {
    hide Sees, ParseValue, Alternatives, WfLevel, PrintLevel, Spaces;
    if ls == [] {
      assert "" + (ws + "[") == ws + "[";
      Follows(t, p, ws, "[");
      LastBracket(t);
      ValueLoops(t, p, ws);
    } else {
      var l, rest := ls[0], PrintLevels(ls[1..]) + (ws + "[");
      assert PrintLevels(ls) + (ws + "[") == PrintLevel(l) + rest;
      SeesConcat(t, p, PrintLevel(l), rest);
      OpenBracketLoops(t, p + |PrintLevel(l)|, ls[1..], ws);
      assert WfLevel(l);
      LevelLoops(t, p, l);
    }
  }

  lemma LastBracket(t: string)
    requires |t| > 0 && t[|t| - 1] == '['
    ensures Alternatives(t, |t| - 1).ret == LOOPS
  {
    BracketForms(t, |t| - 1);
  }

  lemma LevelLoops(t: string, p: nat, l: Level)
    requires WfLevel(l) && Sees(t, p, PrintLevel(l)) && p + |PrintLevel(l)| < |t|
    requires ParseValue(t, p + |PrintLevel(l)|).ret == LOOPS
    ensures ParseValue(t, p).ret == LOOPS
  {
    hide Sees, ParseValue, WfDoc, WfMember, PrintDone, PrintDoneMembers, Plain, Spaces, KeyText;
    match l
    case InArray(pre, ds) => ArrayLevel(t, p, pre, ds);
    case InObject(pre, ms, keyPre, key, mid) => ObjectLevel(t, p, pre, ms, keyPre, key, mid);
  }

  lemma ArrayLevel(t: string, p: nat, pre: string, ds: seq<Doc>)
    requires Spaces(pre) && (forall d | d in ds :: WfDoc(d)) && Sees(t, p, pre + ("[" + PrintDone(ds)))
    requires p + |pre| + 1 + |PrintDone(ds)| < |t| && ParseValue(t, p + |pre| + 1 + |PrintDone(ds)|).ret == LOOPS
    ensures ParseValue(t, p).ret == LOOPS
  {
    hide Sees, ParseValue, Alternatives, Elements, WfDoc, PrintDone, Spaces;
    var b := p + |pre|;
    Follows(t, p, pre, "[" + PrintDone(ds));
    assert ("[" + PrintDone(ds))[1..] == PrintDone(ds);
    var acc := ElementsThrough(t, b + 1, ds, []);
    ArrayLoops(t, b, b + 1 + |PrintDone(ds)|, acc);
    ValueLoops(t, p, pre);
  }

  lemma ObjectLevel(t: string, p: nat, pre: string, ms: seq<Member>, keyPre: string, key: string, mid: string)
    requires Spaces(pre) && (forall m | m in ms :: WfMember(m)) && Spaces(keyPre) && Plain(key) && Spaces(mid)
    requires Sees(t, p, pre + ("{" + (PrintDoneMembers(ms) + KeyText(keyPre, key, mid))))
    requires var q := p + |pre| + 1 + |PrintDoneMembers(ms)| + |KeyText(keyPre, key, mid)|;
             q < |t| && ParseValue(t, q).ret == LOOPS
    ensures ParseValue(t, p).ret == LOOPS
  {
    hide Sees, ParseValue, Alternatives, Members, ParseProperty, WfMember, PrintDoneMembers, Plain, Spaces, SkipSpace,
         ParseString, KeyText;
    var b, done, prop := p + |pre|, PrintDoneMembers(ms), KeyText(keyPre, key, mid);
    Follows(t, p, pre, "{" + (done + prop));
    assert ("{" + (done + prop))[1..] == done + prop;
    SeesConcat(t, b + 1, done, prop);
    var acc := MembersThrough(t, b + 1, ms, []);
    var q := b + 1 + |done|;
    var k, e, c := KeyParts(t, q, keyPre, key, mid);
    PropertyLoops(t, q, k, e, c, key);
    ObjectLoops(t, b, q, acc);
    ValueLoops(t, p, pre);
  }

  /** A last bracket that is not reached does no harm. */
  lemma UnreachedBracket(t: string)
    requires |t| > 0 && IsDigit(t[0])
    ensures Parse(t).ret == 1
  {
    hide ParseArray, ParseObject, ParseString, ParseNumber, ParseKeyword;
    assert SkipSpace(t, 0) == 0;
    var r := Alternatives(t, 0);
    assert r == ParseNumber(t, 0);
    assert ParseValue(t, 0).ret == r.ret;
  }

  // ---------------------------------------------------------------------
  // Missing brackets

  lemma {:induction false} SkipToEnd(t: string, p: nat, ws: string)
    requires |t| > 0 && Sees(t, p, ws) && Spaces(ws) && p + |ws| == |t|
    ensures SkipSpace(t, p) == |t| - 1
    decreases |ws|
  {
    if ws != "" {
      assert t[p] == ws[0];
      assert t[p + 1..p + |ws|] == ws[1..];
      SkipToEnd(t, p + 1, ws[1..]);
    }
  }

  /** Behind a value that ends the text the cursor stands on its last character. */
  lemma LastValue(t: string, p: nat, d: Doc)
    requires |t| > 0 && WfDoc(d) && Sees(t, p, Print(d)) && p + |Print(d)| == |t|
    ensures ParseValue(t, p) == Parsed(1, |t| - 1, ToValue(d))
  {
    hide Sees, PrintBody, BodyValue, WfBody, Alternatives;
    PrintEnd(d);
    var e := InSpace(t, p, d);
    BodyRT(t, p + |d.pre|, d.body);
    if d.post != "" {
      SkipToEnd(t, e, d.post);
    } else {
      assert t[|t| - 1] == Print(d)[|Print(d)| - 1] by { EndsText(t, p, Print(d)); }
    }
  }

  lemma EndsText(t: string, p: nat, s: string)
    requires s != "" && Sees(t, p, s) && p + |s| == |t|
    ensures t[|t| - 1] == s[|s| - 1]
  {
    assert t[|t| - 1] == t[p..p + |s|][|s| - 1];
  }

  /** An array of one element without its closing bracket is accepted exactly when
      the element is itself an array and nothing follows it: the inner bracket is
      read a second time. */
  lemma UnclosedArray(d: Doc)
    requires WfDoc(d)
    ensures Parse("[" + Print(d)).ret == 1 <==> d.body.BArray? && d.post == ""
    ensures d.body.BArray? && d.post == "" ==> Parse("[" + Print(d)).value == Array([ToValue(d)])
  {
    var t := "[" + Print(d);
    PrintEnd(d);
    assert t[1..] == Print(d);
    assert Sees(t, 1, Print(d));
    LastValue(t, 1, d);
    UnclosedSteps(t, ToValue(d));
  }

  lemma UnclosedSteps(t: string, v: Value)
    requires |t| > 1 && t[0] == '[' && t[|t| - 1] != ','
    requires ParseValue(t, 1) == Parsed(1, |t| - 1, v)
    ensures Parse(t).ret == 1 <==> t[|t| - 1] == ']'
    ensures t[|t| - 1] == ']' ==> Parse(t).value == Array([v])
  {
    assert Elements(t, 1, []).ret == if t[|t| - 1] == ']' then 1 else -1;
    assert [] + [v] == [v];
    BracketForms(t, 0);
    assert ParseValue(t, 0) == Trailing(t, ParseArray(t, 0));
  }
}
