/** What setting an argument promises: the edit of the argument list, and get after set. */
module CmdlineLaws {
  import opened Wrappers
  import opened Cmdline

  // ----------------------------------------------------------- lexical facts

  lemma SubSlice(s: string, a: int, b: int, c: int, d: int)
    requires 0 <= a <= b <= |s| && 0 <= c <= d <= b - a
    ensures s[a..b][c..d] == s[a + c..a + d]
  {
    var x := s[a..b];
    var y := x[c..d];
    var z := s[a + c..a + d];
    assert |y| == |z|;
    assert forall i :: 0 <= i < |y| ==> y[i] == z[i];
    assert y == z;
  }

  /** A string that is exactly one argument. */
  predicate IsToken(t: string) {
    t != "" && TokenLen(t, false) == Some(|t|)
  }

  predicate AtBoundary(r: string) {
    r == "" || r[0] == ' '
  }

  lemma {:induction false} TokenEndsThere(t: string, r: string, quoted: bool)
    requires TokenLen(t, quoted) == Some(|t|) && AtBoundary(r)
    ensures TokenLen(t + r, quoted) == Some(|t|)
  {
    if t == "" {
      assert t + r == r;
    } else {
      assert (t + r)[1..] == t[1..] + r;
      TokenEndsThere(t[1..], r, if quoted then t[0] != '"' else t[0] == '"');
    }
  }

  lemma CutStep(s: string, n: nat)
    requires 0 < n <= |s|
    ensures s[..n] != "" && s[..n][0] == s[0]
    ensures s[..n][1..] == s[1..][..n - 1] && s[n..] == s[1..][n - 1..]
  {
    SubSlice(s, 0, n, 1, n);
    SubSlice(s, 1, |s|, 0, n - 1);
    SubSlice(s, 1, |s|, n - 1, |s| - 1);
  }

  /** The token at the start of s is what its length cuts off, and has the same name. */
  predicate CutsOff(s: string, quoted: bool, n: nat)
    requires n <= |s|
  {
    TokenLen(s[..n], quoted) == Some(n) && AtBoundary(s[n..]) && KeyLen(s[..n], quoted) == KeyLen(s, quoted)
  }

  lemma CutOneMore(s: string, quoted: bool, n: nat, inside: bool)
    requires 0 < n <= |s| && (quoted || s[0] != ' ') && inside == (if quoted then s[0] != '"' else s[0] == '"')
    requires CutsOff(s[1..], inside, n - 1)
    ensures CutsOff(s, quoted, n)
  {
    CutStep(s, n);
    var head := s[..n];
    assert TokenLen(head, quoted) == Shift(TokenLen(head[1..], inside), 1);
  }

  lemma {:induction false} TokenCut(s: string, quoted: bool)
    requires TokenLen(s, quoted).Some?
    ensures CutsOff(s, quoted, TokenLen(s, quoted).value)
  {
    var n := TokenLen(s, quoted).value;
    if s != "" && (quoted || s[0] != ' ') {
      var inside := if quoted then s[0] != '"' else s[0] == '"';
      TokenCut(s[1..], inside);
      CutOneMore(s, quoted, n, inside);
    }
  }

  lemma {:induction false} LexTokens(s: string)
    ensures forall i :: 0 <= i < |Lex(s).tokens| ==> IsToken(Lex(s).tokens[i])
    decreases |s|
  {
    var s1 := SkipSpaces(s);
    if s1 != "" && TokenLen(s1, false).Some? {
      TokenCut(s1, false);
      LexTokens(s1[TokenLen(s1, false).value..]);
    }
  }

  predicate AllTokens(ts: seq<string>) {
    forall i :: 0 <= i < |ts| ==> IsToken(ts[i])
  }

  lemma LexFirst(t: string, r: string)
    requires IsToken(t) && AtBoundary(r)
    ensures Lex(t + r) == Lexed([t] + Lex(r).tokens, Lex(r).ok)
  {
    var s := t + r;
    assert s[0] == t[0] && t[0] != ' ';
    assert SkipSpaces(s) == s;
    TokenEndsThere(t, r, false);
    assert s[..|t|] == t && s[|t|..] == r;
  }

  lemma LexSpace(s: string)
    ensures Lex(" " + s) == Lex(s)
  {
    assert (" " + s)[1..] == s;
    assert SkipSpaces(" " + s) == SkipSpaces(s);
  }

  /** Splitting undoes joining. */
  lemma {:induction false} LexJoin(ts: seq<string>)
    requires AllTokens(ts)
    ensures Lex(Join(ts)) == Lexed(ts, true)
  {
    if ts != [] {
      var rest := Join(ts[1..]);
      LexJoin(ts[1..]);
      if |ts| == 1 {
        LexFirst(ts[0], "");
        assert ts[0] + "" == ts[0];
      } else {
        LexFirst(ts[0], " " + rest);
        LexSpace(rest);
        assert ts[0] + (" " + rest) == Join(ts);
      }
      assert [ts[0]] + ts[1..] == ts;
    }
  }

  // ------------------------------------------------------------ joining facts

  predicate NoneEmpty(ts: seq<string>) {
    forall i :: 0 <= i < |ts| ==> ts[i] != ""
  }

  lemma {:induction false} GlueIsJoin(line: string, ts: seq<string>)
    requires NoneEmpty(ts)
    ensures GlueAll(line, ts) == if line == "" then Join(ts) else if ts == [] then line else line + " " + Join(ts)
    decreases |ts|
  {
    if ts != [] {
      GlueIsJoin(Glue(line, ts[0]), ts[1..]);
      if line != "" && |ts| > 1 {
        var rest := Join(ts[1..]);
        assert line + " " + ts[0] + " " + rest == line + " " + (ts[0] + " " + rest);
      }
    }
  }

  lemma {:induction false} TokenLastChar(t: string, quoted: bool)
    requires t != "" && TokenLen(t, quoted) == Some(|t|)
    ensures t[|t| - 1] != ' '
  {
    if |t| > 1 {
      TokenLastChar(t[1..], if quoted then t[0] != '"' else t[0] == '"');
    }
  }

  /** Not empty and not ending in a space. */
  predicate Solid(t: string) {
    t != "" && t[|t| - 1] != ' '
  }

  predicate AllSolid(ts: seq<string>) {
    forall i :: 0 <= i < |ts| ==> Solid(ts[i])
  }

  lemma TokensAreSolid(ts: seq<string>)
    requires AllTokens(ts)
    ensures AllSolid(ts)
  {
    forall i | 0 <= i < |ts| ensures Solid(ts[i]) {
      TokenLastChar(ts[i], false);
    }
  }

  lemma {:induction false} JoinIsSolid(ts: seq<string>)
    requires AllSolid(ts) && ts != []
    ensures Solid(Join(ts))
  {
    if |ts| > 1 { JoinIsSolid(ts[1..]); }
  }

  lemma {:induction false} JoinSnoc(ts: seq<string>, t: string)
    requires ts != []
    ensures Join(ts + [t]) == Join(ts) + " " + t
  {
    assert (ts + [t])[1..] == ts[1..] + [t];
    if |ts| > 1 {
      JoinSnoc(ts[1..], t);
      assert ts[0] + " " + (Join(ts[1..]) + " " + t) == ts[0] + " " + Join(ts[1..]) + " " + t;
    }
  }

  // ---------------------------------------------------------- rendering facts

  /** No space and no quote. */
  predicate Plain(s: string) {
    forall i :: 0 <= i < |s| ==> s[i] != ' ' && s[i] != '"'
  }

  /** A name that a command line can hold: no space, no '=', no quote. */
  predicate GoodName(arg: string) {
    Plain(arg) && forall i :: 0 <= i < |arg| ==> arg[i] != '='
  }

  /** Something is left of the argument when it is written. */
  predicate Shows(arg: string, val: NewVal) {
    arg != "" || val.Value?
  }

  predicate GoodVal(val: NewVal) {
    val.Value? ==> '"' !in val.v
  }

  lemma {:induction false} PlainPrefix(p: string, r: string)
    requires Plain(p)
    ensures TokenLen(p + r, false) == Shift(TokenLen(r, false), |p|)
    ensures (forall i :: 0 <= i < |p| ==> p[i] != '=') ==> KeyLen(p + r, false) == |p| + KeyLen(r, false)
  {
    if p == "" {
      assert p + r == r;
    } else {
      assert (p + r)[1..] == p[1..] + r;
      assert Plain(p[1..]);
      PlainPrefix(p[1..], r);
    }
  }

  lemma {:induction false} QuotedRun(v: string)
    requires '"' !in v
    ensures TokenLen(v + "\"", true) == Some(|v| + 1)
  {
    if v == "" {
      assert v + "\"" == "\"";
      assert "\""[1..] == "";
    } else {
      assert (v + "\"")[1..] == v[1..] + "\"";
      QuotedRun(v[1..]);
    }
  }

  lemma EqualsToken(body: string)
    requires TokenLen(body, false) == Some(|body|)
    ensures TokenLen("=" + body, false) == Some(1 + |body|) && KeyLen("=" + body, false) == 0
  {
    assert ("=" + body)[1..] == body;
  }

  lemma NamedLens(arg: string, r: string)
    requires GoodName(arg) && TokenLen(r, false) == Some(|r|) && KeyLen(r, false) == 0
    ensures TokenLen(arg + r, false) == Some(|arg| + |r|) && KeyLen(arg + r, false) == |arg|
  {
    PlainPrefix(arg, r);
  }

  lemma NamedToken(arg: string, t: string)
    requires t != "" && arg <= t && TokenLen(t, false) == Some(|t|) && KeyLen(t, false) == |arg|
    ensures IsToken(t) && Key(t) == arg
  {
  }

  lemma BodyIsToken(v: string)
    requires '"' !in v
    ensures var body := if ' ' in v then "\"" + v + "\"" else v;
            TokenLen(body, false) == Some(|body|)
  {
    if ' ' in v {
      var body := "\"" + v + "\"";
      assert body[1..] == v + "\"";
      QuotedRun(v);
    } else {
      PlainPrefix(v, "");
      assert v + "" == v;
    }
  }

  lemma RenderIsToken(arg: string, val: NewVal)
    requires GoodName(arg) && GoodVal(val) && Shows(arg, val)
    ensures IsToken(Render(arg, val)) && Key(Render(arg, val)) == arg
  {
    if val.Value? {
      var body := if ' ' in val.v then "\"" + val.v + "\"" else val.v;
      BodyIsToken(val.v);
      EqualsToken(body);
      NamedLens(arg, "=" + body);
      assert arg + ("=" + body) == Render(arg, val);
    } else {
      NamedLens(arg, "");
      assert arg + "" == arg;
    }
    NamedToken(arg, Render(arg, val));
  }

  // ------------------------------------------------------------ set is the edit

  lemma {:induction false} EditTokens(ts: seq<string>, arg: string, val: NewVal)
    requires AllTokens(ts) && GoodName(arg) && GoodVal(val) && (val.Delete? || Shows(arg, val))
    ensures AllTokens(Edit(ts, arg, val))
  {
    if ts != [] {
      EditTokens(ts[1..], arg, val);
      if !val.Delete? { RenderIsToken(arg, val); }
    }
  }

  lemma {:induction false} EditAbsent(ts: seq<string>, arg: string, val: NewVal)
    requires !Has(ts, arg)
    ensures Edit(ts, arg, val) == ts
  {
    if ts != [] { EditAbsent(ts[1..], arg, val); }
  }

  /** A name and value whose rendering is not empty and does not end in a space. */
  predicate SolidArg(arg: string, val: NewVal) {
    GoodVal(val) && (val.Bare? ==> Solid(arg))
  }

  lemma {:induction false} EditSolid(ts: seq<string>, arg: string, val: NewVal)
    requires AllSolid(ts) && SolidArg(arg, val)
    ensures AllSolid(Edit(ts, arg, val))
  {
    if ts != [] {
      EditSolid(ts[1..], arg, val);
      if !val.Delete? { RenderIsSolid(arg, val); }
    }
  }

  lemma RenderIsSolid(arg: string, val: NewVal)
    requires SolidArg(arg, val) && !val.Delete?
    ensures Solid(Render(arg, val))
  {
    if val.Value? && val.v != "" {
      assert val.v[|val.v| - 1] in val.v;
    }
  }

  /** The edit of the argument list of this command line. */
  function Edited(cmdline: string, arg: string, val: NewVal): seq<string> {
    EditAll(Lex(cmdline).tokens, arg, val)
  }

  lemma EditedIsSolid(cmdline: string, arg: string, val: NewVal)
    requires SolidArg(arg, val)
    ensures AllSolid(Lex(cmdline).tokens) && AllSolid(Edit(Lex(cmdline).tokens, arg, val))
    ensures AllSolid(Edited(cmdline, arg, val))
  {
    LexTokens(cmdline);
    TokensAreSolid(Lex(cmdline).tokens);
    EditSolid(Lex(cmdline).tokens, arg, val);
    if !val.Delete? { RenderIsSolid(arg, val); }
  }

  /** The written line splits into exactly the edited arguments. */
  lemma SetLexes(cmdline: string, arg: string, val: NewVal)
    requires GoodName(arg) && GoodVal(val) && (val.Delete? || Shows(arg, val))
    ensures Lex(Join(Edited(cmdline, arg, val))) == Lexed(Edited(cmdline, arg, val), true)
  {
    LexTokens(cmdline);
    EditTokens(Lex(cmdline).tokens, arg, val);
    if !val.Delete? { RenderIsToken(arg, val); }
    LexJoin(Edited(cmdline, arg, val));
  }

  // --------------------------------------------------------------- get after set

  function FirstToken(ts: seq<string>, arg: string): (t: Option<string>)
    ensures t.Some? ==> Key(t.value) == arg && t.value in ts
  {
    if ts == [] then None
    else if Key(ts[0]) == arg then Some(ts[0])
    else FirstToken(ts[1..], arg)
  }

  predicate Holds(s: string, off: int, t: string) {
    0 <= off && off + |t| <= |s| && s[off..off + |t|] == t
  }

  lemma HoldsShift(s: string, k: int, off: int, t: string)
    requires 0 <= k <= |s| && Holds(s[k..], off, t)
    ensures Holds(s, k + off, t)
  {
    SubSlice(s, k, |s|, off, off + |t|);
  }

  /**
   r is the right answer for arg in s, whose arguments are ts: the span of its
   first token's value, t at offset off.
   */
  predicate Answers(s: string, ts: seq<string>, arg: string, off: int, r: GetResult) {
    match FirstToken(ts, arg)
    case None => r == NotFound
    case Some(t) => t != "" && Holds(s, off, t) && r == Found(off + ValueSpan(t).0, ValueSpan(t).1)
  }

  lemma AnswersStep(s: string, ts: seq<string>, arg: string, k: int, n: int, off: int, r: GetResult)
    requires 0 <= k && 0 < n && k + n <= |s| && Answers(s[k + n..], ts, arg, off, r)
    ensures var t := s[k..k + n];
            if Key(t) == arg then Answers(s, [t] + ts, arg, k, Found(k + ValueSpan(t).0, ValueSpan(t).1))
            else Answers(s, [t] + ts, arg, k + n + off, Move(r, k + n))
  {
    var t := s[k..k + n];
    FirstCons(t, ts, arg);
    if Key(t) != arg && FirstToken(ts, arg).Some? {
      HoldsShift(s, k + n, off, FirstToken(ts, arg).value);
    }
  }

  /** The first argument of s, n characters long after k spaces, and the rest of s. */
  lemma LexStep(s: string, arg: string) returns (k: int, n: int)
    requires Lex(s).ok && SkipSpaces(s) != ""
    ensures 0 <= k && 0 < n && k + n <= |s|
    ensures Lex(s) == Lexed([s[k..k + n]] + Lex(s[k + n..]).tokens, Lex(s[k + n..]).ok)
    ensures GetArg(s, arg) == if Key(s[k..k + n]) == arg
                              then Found(k + ValueSpan(s[k..k + n]).0, ValueSpan(s[k..k + n]).1)
                              else Move(GetArg(s[k + n..], arg), k + n)
  {
    var s1 := SkipSpaces(s);
    SkipIsSuffix(s);
    k, n := |s| - |s1|, TokenLen(s1, false).value;
    SubSlice(s, k, |s|, 0, n);
    SubSlice(s, k, |s|, n, |s1|);
    assert s1[..n] == s[k..k + n] && s1[n..] == s[k + n..];
  }

  lemma FirstCons(t: string, ts: seq<string>, arg: string)
    ensures FirstToken([t] + ts, arg) == if Key(t) == arg then Some(t) else FirstToken(ts, arg)
  {
    assert ([t] + ts)[1..] == ts;
  }

  /** Reading finds the first argument of that name, and reports the span of its value. */
  lemma {:induction false} GetIsFirst(s: string, arg: string) returns (off: int)
    requires Lex(s).ok
    ensures Answers(s, Lex(s).tokens, arg, off, GetArg(s, arg))
    decreases |s|
  {
    off := 0;
    if SkipSpaces(s) != "" {
      var k, n := LexStep(s, arg);
      var o := GetIsFirst(s[k + n..], arg);
      AnswersStep(s, Lex(s[k + n..]).tokens, arg, k, n, o, GetArg(s[k + n..], arg));
      off := if Key(s[k..k + n]) == arg then k else k + n + o;
    }
  }

  lemma {:induction false} SkipIsSuffix(s: string)
    ensures SkipSpaces(s) == s[|s| - |SkipSpaces(s)|..]
  {
    if s != "" && s[0] == ' ' { SkipIsSuffix(s[1..]); }
  }

  /** The text that reading argument arg of s yields, if it is there. */
  ghost predicate Reads(s: string, arg: string, v: string) {
    var r := GetArg(s, arg);
    r.Found? && r.len == |v| && Holds(s, r.pos, v)
  }

  lemma {:induction false} FirstEdited(ts: seq<string>, arg: string, val: NewVal)
    requires GoodName(arg) && GoodVal(val) && (val.Delete? || Shows(arg, val))
    ensures Has(ts, arg) ==> FirstToken(Edit(ts, arg, val), arg) == if val.Delete? then None else Some(Render(arg, val))
    ensures !Has(ts, arg) ==> FirstToken(Edit(ts, arg, val), arg) == None
  {
    if ts != [] {
      FirstEdited(ts[1..], arg, val);
      if !val.Delete? { RenderIsToken(arg, val); }
    }
  }

  lemma {:induction false} FirstSnoc(ts: seq<string>, t: string, arg: string)
    ensures FirstToken(ts + [t], arg)
         == if FirstToken(ts, arg).Some? then FirstToken(ts, arg) else if Key(t) == arg then Some(t) else None
  {
    if ts != [] {
      assert (ts + [t])[1..] == ts[1..] + [t];
      FirstSnoc(ts[1..], t, arg);
    } else {
      assert (ts + [t])[1..] == [];
    }
  }

  lemma {:induction false} OthersEdited(ts: seq<string>, arg: string, val: NewVal, other: string)
    requires GoodName(arg) && GoodVal(val) && (val.Delete? || Shows(arg, val)) && other != arg
    ensures FirstToken(Edit(ts, arg, val), other) == FirstToken(ts, other)
  {
    if ts != [] {
      OthersEdited(ts[1..], arg, val, other);
      if !val.Delete? { RenderIsToken(arg, val); }
    }
  }

  lemma RenderedSpan(arg: string, val: NewVal)
    requires GoodName(arg) && GoodVal(val) && Shows(arg, val) && !val.Delete?
    ensures Render(arg, val) != ""
    ensures var t := Render(arg, val); var (start, len) := ValueSpan(t);
            var v := if val.Value? then val.v else "";
            len == |v| && Holds(t, start, v)
  {
    RenderIsToken(arg, val);
    var t := Render(arg, val);
    assert |Key(t)| == |arg|;
    if val.Bare? {
    } else if ' ' !in val.v && val.v != "" {
      assert t[|t| - 1] == val.v[|val.v| - 1];
    }
  }

  lemma SpanInside(t: string)
    requires t != ""
    ensures 0 <= ValueSpan(t).0 && ValueSpan(t).0 + ValueSpan(t).1 <= |t|
  {
  }

  lemma HoldsInside(s: string, off: int, t: string, start: int, v: string)
    requires Holds(s, off, t) && 0 <= start && start + |v| <= |t|
    ensures Holds(s, off + start, v) <==> Holds(t, start, v)
  {
    SubSlice(s, off, off + |t|, start, start + |v|);
  }

  lemma FoundReads(s: string, off: int, t: string, r: GetResult, v: string)
    requires t != "" && Holds(s, off, t) && r == Found(off + ValueSpan(t).0, ValueSpan(t).1)
    ensures r.len == |v| && Holds(s, r.pos, v) <==> ValueSpan(t).1 == |v| && Holds(t, ValueSpan(t).0, v)
  {
    SpanInside(t);
    if ValueSpan(t).1 == |v| {
      HoldsInside(s, off, t, ValueSpan(t).0, v);
    }
  }

  /** Reading an argument gives the text v exactly when the value of its first token is v. */
  lemma ReadsToken(s: string, arg: string, t: string, v: string)
    requires Lex(s).ok && FirstToken(Lex(s).tokens, arg) == Some(t)
    ensures t != "" && GetArg(s, arg).Found? && GetArg(s, arg).len == ValueSpan(t).1
    ensures Reads(s, arg, v) <==> ValueSpan(t).1 == |v| && Holds(t, ValueSpan(t).0, v)
  {
    var off := GetIsFirst(s, arg);
    FoundReads(s, off, t, GetArg(s, arg), v);
  }

  // ------------------------------------------------------------ what the value is

  /** What stands behind the equals sign. */
  function RawValue(t: string): string {
    var k := KeyLen(t, false);
    if k < |t| then t[k + 1..] else ""
  }

  predicate Enclosed(v: string) {
    |v| >= 2 && v[0] == '"' && v[|v| - 1] == '"'
  }

  /** The value of a token: what stands behind the equals sign, without quotes that enclose it. */
  function ValueOf(t: string): string {
    var v := RawValue(t);
    if Enclosed(v) then v[1..|v| - 1] else v
  }

  /** The span reported for a token is its value exactly if a quote at its end has a partner where the value starts. */
  lemma WhenSpanIsValue(t: string)
    requires t != ""
    ensures ValueSpan(t).1 == |ValueOf(t)| && Holds(t, ValueSpan(t).0, ValueOf(t))
            <==> (t[|t| - 1] == '"' ==> Enclosed(RawValue(t)))
  {
    var v := RawValue(t);
    if t[|t| - 1] == '"' && !Enclosed(v) {
      assert ValueSpan(t).1 == |v| - 2;
    } else {
      assert ValueOf(t) == v || ValueOf(t) == v[1..|v| - 1];
    }
  }

  /** So reading an argument gives its value exactly then. */
  lemma ReadsItsValue(s: string, arg: string, t: string)
    requires Lex(s).ok && FirstToken(Lex(s).tokens, arg) == Some(t)
    ensures t != "" && (Reads(s, arg, ValueOf(t)) <==> (t[|t| - 1] == '"' ==> Enclosed(RawValue(t))))
  {
    ReadsToken(s, arg, t, ValueOf(t));
    WhenSpanIsValue(t);
  }

  /** A value quoted in part: what is reported starts with the quote and lacks what stands before it. */
  lemma PartlyQuoted()
    ensures GetArg("a=x\"y z\"", "a") == Found(3, 4) && ValueOf("a=x\"y z\"") == "x\"y z\""
  {
    var s := "a=x\"y z\"";
    assert |s| == 8;
    assert TokenLen(s[8..], false) == Some(0);
    assert TokenLen(s[7..], true) == Some(1) by { assert s[7..][1..] == s[8..]; }
    assert TokenLen(s[6..], true) == Some(2) by { assert s[6..][1..] == s[7..]; }
    assert TokenLen(s[5..], true) == Some(3) by { assert s[5..][1..] == s[6..]; }
    assert TokenLen(s[4..], true) == Some(4) by { assert s[4..][1..] == s[5..]; }
    assert TokenLen(s[3..], false) == Some(5) by { assert s[3..][1..] == s[4..]; }
    assert TokenLen(s[2..], false) == Some(6) by { assert s[2..][1..] == s[3..]; }
    assert TokenLen(s[1..], false) == Some(7) by { assert s[1..][1..] == s[2..]; }
    assert TokenLen(s, false) == Some(8);
    assert KeyLen(s, false) == 1;
    assert s[..8] == s && Key(s) == "a";
  }

  /** In the edited list the first argument called arg is the rendered one, and all others are as before. */
  lemma EditedFirst(ts: seq<string>, arg: string, val: NewVal, other: string)
    requires GoodName(arg) && GoodVal(val) && AllTokens(ts) && if val.Delete? then Has(ts, arg) else Shows(arg, val)
    ensures var ts' := EditAll(ts, arg, val);
            FirstToken(ts', other) ==
              if other != arg then FirstToken(ts, other) else if val.Delete? then None else Some(Render(arg, val))
  {
    FirstEdited(ts, arg, val);
    if !Has(ts, arg) {
      RenderIsToken(arg, val);
      EditAbsent(ts, arg, val);
    }
    FirstSnoc(ts, Render(arg, val), other);
    if other != arg {
      OthersEdited(ts, arg, val, other);
    }
  }
}
