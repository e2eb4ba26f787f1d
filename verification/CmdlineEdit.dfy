/** The command-line editor as U-Boot runs it: one pass over the line, writing into a buffer. */
module CmdlineEdit {
  import opened Wrappers
  import opened Cmdline
  import opened CmdlineLaws

  function Code(e: Error): int {
    match e
    case ENOENT => -2
    case E2BIG => -7
    case EBADF => -9
    case EINVAL => -22
  }

  /** memcpy of src to position to. */
  method Put(buf: array<char>, to: nat, src: string)
    requires to + |src| <= buf.Length
    modifies buf
    ensures buf[..to + |src|] == old(buf[..to]) + src
  {
    forall i | 0 <= i < |src| {
      buf[to + i] := src[i];
    }
  }

  /** One character of the scan for the end of an argument. */
  lemma ScanOne(s: string, p: nat, quoted: bool)
    requires p < |s|
    ensures TokenLen(s[p..], quoted)
         == if !quoted && s[p] == ' ' then Some(0)
            else Shift(TokenLen(s[p + 1..], if quoted then s[p] != '"' else s[p] == '"'), 1)
    ensures KeyLen(s[p..], quoted)
         == if !quoted && (s[p] == ' ' || s[p] == '=') then 0
            else 1 + KeyLen(s[p + 1..], if quoted then s[p] != '"' else s[p] == '"')
  {
    assert s[p..][1..] == s[p + 1..];
  }

  lemma ShiftOne(s: string, p: nat, quoted: bool, d: nat)
    requires p < |s| && (quoted || s[p] != ' ')
    ensures Shift(TokenLen(s[p..], quoted), d)
         == Shift(TokenLen(s[p + 1..], if quoted then s[p] != '"' else s[p] == '"'), d + 1)
  {
    ScanOne(s, p, quoted);
  }

  /** Find the end of the argument at from, and of its name. */
  method FindArgEnd(s: string, from: nat) returns (ok: bool, argEnd: nat, valEnd: nat)
    requires from < |s| && s[from] != ' '
    ensures ok <==> TokenLen(s[from..], false).Some?
    ensures ok ==> from <= argEnd <= valEnd <= |s| && from < valEnd
    ensures ok ==> TokenLen(s[from..], false) == Some(valEnd - from)
    ensures ok ==> KeyLen(s[from..], false) == argEnd - from
  {
    var p, inQuote, hasArgEnd := from, false, false;
    argEnd, valEnd := 0, 0;
    ghost var token, key := TokenLen(s[from..], false), KeyLen(s[from..], false);
    while true
      invariant from <= p <= |s|
      invariant token == Shift(TokenLen(s[p..], inQuote), p - from)
      invariant hasArgEnd ==> from <= argEnd <= p && argEnd - from == key
      invariant !hasArgEnd ==> key == p - from + KeyLen(s[p..], inQuote)
      decreases |s| - p
    {
      ghost var was := inQuote;
      if p < |s| { ScanOne(s, p, inQuote); }
      if p < |s| && (inQuote || s[p] != ' ') { ShiftOne(s, p, inQuote, p - from); }
      if inQuote {
        if p == |s| {
          return false, argEnd, valEnd;
        }
        if s[p] == '"' {
          inQuote := false;
        }
      } else if p < |s| && s[p] == '=' && !hasArgEnd {
        argEnd, hasArgEnd := p, true;
      } else if p < |s| && s[p] == '"' {
        inQuote := true;
      } else if p == |s| || s[p] == ' ' {
        valEnd := p;
        if !hasArgEnd {
          argEnd := p;
        }
        return true, argEnd, valEnd;
      }
      assert inQuote == if was then s[p] != '"' else s[p] == '"';
      p := p + 1;
    }
  }

  /** The value part of an argument: '=', and quotes around a value with spaces. */
  method CopyValue(buf: array<char>, to: nat, v: string)
    requires to + 1 + (if ' ' in v then 2 else 0) + |v| <= buf.Length
    modifies buf
    ensures buf[..to + 1 + (if ' ' in v then 2 else 0) + |v|]
         == old(buf[..to]) + ("=" + (if ' ' in v then "\"" + v + "\"" else v))
  {
    var at := to;
    ghost var line := buf[..to];
    Put(buf, at, "=");
    at := at + 1;
    if ' ' in v {
      Put(buf, at, "\"");
      Put(buf, at + 1, v);
      Put(buf, at + 1 + |v|, "\"");
      assert line + "=" + "\"" + v + "\"" == line + ("=" + ("\"" + v + "\""));
    } else {
      Put(buf, at, v);
      assert line + "=" + v == line + ("=" + v);
    }
  }

  lemma RenderSplit(line: string, arg: string, v: string)
    ensures var tail := "=" + (if ' ' in v then "\"" + v + "\"" else v);
            && |tail| == 1 + (if ' ' in v then 2 else 0) + |v|
            && Render(arg, Value(v)) == arg + tail
            && line + Render(arg, Value(v)) == line + arg + tail
  {
  }

  method CopyIn(buf: array<char>, to: nat, end: nat, arg: string, val: NewVal) returns (n: int)
    requires to <= end <= buf.Length && !val.Delete?
    modifies buf
    ensures n == if to + |Render(arg, val)| < end then |Render(arg, val)| else Code(E2BIG)
    ensures n >= 0 ==> to + n < end && buf[..to + n] == old(buf[..to]) + Render(arg, val)
  {
    if to + |arg| >= end {
      return Code(E2BIG);
    }
    ghost var line := buf[..to];
    Put(buf, to, arg);
    n := |arg|;
    if val.Value? {
      var len := 1 + (if ' ' in val.v then 2 else 0) + |val.v|;
      RenderSplit(line, arg, val.v);
      if to + n + len >= end {
        return Code(E2BIG);
      }
      CopyValue(buf, to + n, val.v);
      n := n + len;
    }
  }

  // ------------------------------------------------------------ the main pass

  /** What has been written and what is still to read make up the whole edit. */
  ghost predicate Halfway(s: string, arg: string, val: NewVal, from: nat, line: string, found: bool)
    requires from <= |s|
  {
    var all, rest := Lex(s), Lex(s[from..]);
    && GlueAll("", Edit(all.tokens, arg, val)) == GlueAll(line, Edit(rest.tokens, arg, val))
    && all.ok == rest.ok
    && (Has(all.tokens, arg) <==> found || Has(rest.tokens, arg))
  }

  lemma {:induction false} GlueGrows(line: string, ts: seq<string>)
    ensures |GlueAll(line, ts)| >= |line|
    decreases |ts|
  {
    if ts != [] { GlueGrows(Glue(line, ts[0]), ts[1..]); }
  }

  /** A line that is already too long cannot end up fitting. */
  lemma TooLong(s: string, arg: string, val: NewVal, maxlen: nat, from: nat, line: string, found: bool)
    requires s != "" && from <= |s| && Halfway(s, arg, val, from, line, found) && |line| >= maxlen && GoodVal(val)
    ensures SetArg(s, arg, val, maxlen) == Err(E2BIG)
  {
    GlueGrows(line, Edit(Lex(s[from..]).tokens, arg, val));
  }

  lemma LexAt(s: string, from: nat, to: nat)
    requires from < to <= |s| && s[from] != ' ' && TokenLen(s[from..], false) == Some(to - from)
    ensures Lex(s[from..]) == Lexed([s[from..to]] + Lex(s[to..]).tokens, Lex(s[to..]).ok)
  {
    var r := s[from..];
    assert SkipSpaces(r) == r;
    SubSlice(s, from, |s|, 0, to - from);
    SubSlice(s, from, |s|, to - from, |r|);
    assert r[..to - from] == s[from..to] && r[to - from..] == s[to..];
  }

  /** Moving one argument from the rest to the line. */
  lemma OneToken(s: string, arg: string, val: NewVal, from: nat, to: nat, line: string, found: bool)
    requires from < to <= |s| && s[from] != ' ' && TokenLen(s[from..], false) == Some(to - from)
    requires Halfway(s, arg, val, from, line, found)
    ensures var t := s[from..to];
            if Key(t) != arg then Halfway(s, arg, val, to, Glue(line, t), found)
            else if val.Delete? then Halfway(s, arg, val, to, line, true)
            else Halfway(s, arg, val, to, Glue(line, Render(arg, val)), true)
  {
    var t, rest := s[from..to], Lex(s[to..]).tokens;
    LexAt(s, from, to);
    assert ([t] + rest)[1..] == rest;
    var tail := Edit(rest, arg, val);
    var x := if Key(t) != arg then t else Render(arg, val);
    assert ([x] + tail)[1..] == tail;
  }

  lemma KeyAt(s: string, from: nat, argEnd: nat, valEnd: nat)
    requires from <= argEnd <= valEnd <= |s| && TokenLen(s[from..], false) == Some(valEnd - from)
    requires KeyLen(s[from..], false) == argEnd - from
    ensures Key(s[from..valEnd]) == s[from..argEnd]
  {
    var rest, t := s[from..], s[from..valEnd];
    assert CutsOff(rest, false, valEnd - from) by { TokenCut(rest, false); }
    assert rest[..valEnd - from] == t by { SubSlice(s, from, |s|, 0, valEnd - from); }
    assert KeyLen(t, false) == argEnd - from;
    SubSlice(s, from, valEnd, 0, argEnd - from);
  }

  lemma OpenQuote(s: string, arg: string, val: NewVal, maxlen: nat, from: nat, line: string, found: bool)
    requires from < |s| && s[from] != ' ' && TokenLen(s[from..], false).None? && GoodVal(val)
    requires Halfway(s, arg, val, from, line, found) && |line| < maxlen
    ensures SetArg(s, arg, val, maxlen) == Err(EINVAL)
  {
    assert SkipSpaces(s[from..]) == s[from..];
    assert Lex(s[from..]) == Lexed([], false);
  }

  lemma SkipOneSpace(s: string, k: nat)
    requires k <= |s|
    ensures k < |s| && s[k] == ' ' ==> Lex(s[k + 1..]) == Lex(s[k..])
  {
    if k < |s| && s[k] == ' ' {
      assert s[k..] == " " + s[k + 1..];
      LexSpace(s[k + 1..]);
    }
  }

  /** When an argument is to be added, what is already there does not end in a space. */
  lemma LineIsSolid(s: string, arg: string, val: NewVal, line: string)
    requires Halfway(s, arg, val, |s|, line, false)
    requires !Has(Lex(s).tokens, arg)
    ensures line != "" ==> Solid(line)
  {
    var ts := Lex(s).tokens;
    assert s[|s|..] == "" && Lex("") == Lexed([], true);
    EditAbsent(ts, arg, val);
    LexTokens(s);
    TokensAreSolid(ts);
    GlueIsJoin("", ts);
    if ts != [] { JoinIsSolid(ts); }
  }

  /** At the end of the line: nothing is left to read. */
  lemma AllRead(s: string, arg: string, val: NewVal, maxlen: nat, line: string, found: bool)
    requires Halfway(s, arg, val, |s|, line, found) && (s != "" ==> |line| < maxlen) && GoodVal(val)
    ensures SetArg(s, arg, val, maxlen)
         == if found then Ok(DropTrailingSpace(line))
            else if val.Delete? then Err(ENOENT)
            else if |Glue(line, Render(arg, val))| >= maxlen then Err(E2BIG)
            else Ok(DropTrailingSpace(Glue(line, Render(arg, val))))
    ensures found <==> Has(Lex(s).tokens, arg)
  {
    assert s[|s|..] == "" && Lex("") == Lexed([], true);
  }

  /** Drop a trailing space and end the string. */
  method Terminate(buf: array<char>, len: nat) returns (ret: int)
    requires len < buf.Length
    modifies buf
    ensures var line := DropTrailingSpace(old(buf[..len]));
            ret == |line| + 1 && ret <= buf.Length && buf[..|line|] == line && buf[|line|] == '\0'
  {
    var to := len;
    if to > 0 && buf[to - 1] == ' ' {
      to := to - 1;
    }
    ghost var line := buf[..to];
    buf[to] := '\0';
    assert buf[..to] == line;
    return to + 1;
  }

  /** Add the argument if it was not found, then end the string. */
  method Finish(buf: array<char>, len: nat, maxlen: nat, ghost cmdline: string, arg: string, val: NewVal, found: bool)
    returns (ret: int)
    requires len <= maxlen <= buf.Length && (cmdline != "" ==> len < maxlen) && GoodVal(val)
    requires Halfway(cmdline, arg, val, |cmdline|, buf[..len], found)
    requires found ==> len < maxlen
    modifies buf
    ensures match SetArg(cmdline, arg, val, maxlen)
            case Ok(line) => ret == |line| + 1 && ret <= buf.Length && buf[..|line|] == line && buf[|line|] == '\0'
            case Err(e) => ret == Code(e)
  {
    var to := len;
    ghost var line := buf[..to];
    AllRead(cmdline, arg, val, maxlen, line, found);
    if !found {
      if val.Delete? {
        return Code(ENOENT);
      }
      if to >= maxlen {
        return Code(E2BIG);
      }
      LineIsSolid(cmdline, arg, val, line);
      if to != 0 && buf[to - 1] != ' ' {
        buf[to] := ' ';
        to := to + 1;
        assert buf[..to] == line + " ";
      }
      var n := CopyIn(buf, to, maxlen, arg, val);
      if n < 0 {
        return n;
      }
      to := to + n;
      assert buf[..to] == Glue(line, Render(arg, val));
    }
    ret := Terminate(buf, to);
  }

  method SkipBlanks(s: string, from: nat) returns (k: nat)
    requires from <= |s|
    ensures from <= k <= |s| && (k < |s| ==> s[k] != ' ')
    ensures s[k..] == SkipSpaces(s[from..]) && Lex(s[k..]) == Lex(s[from..])
  {
    k := from;
    while k < |s| && s[k] == ' '
      invariant from <= k <= |s| && SkipSpaces(s[k..]) == SkipSpaces(s[from..])
    {
      assert s[k..][1..] == s[k + 1..];
      k := k + 1;
    }
  }

  /** Write one argument after what is there: arg with its new value if replace is set, else the token as it is. */
  method Emit(buf: array<char>, to: nat, end: nat, token: string, replace: bool, arg: string,
              val: NewVal) returns (n: int)
    requires to < end <= buf.Length && (replace ==> !val.Delete?)
    modifies buf
    ensures var line := Glue(old(buf[..to]), if replace then Render(arg, val) else token);
            if |line| < end then n == |line| && buf[..n] == line else n == Code(E2BIG)
  {
    ghost var line := buf[..to];
    var at := to;
    if to != 0 {
      buf[at] := ' ';
      at := at + 1;
      assert buf[..at] == line + " ";
    }
    if replace {
      n := CopyIn(buf, at, end, arg, val);
      if n >= 0 {
        n := at + n;
      }
    } else {
      if at + |token| >= end {
        return Code(E2BIG);
      }
      Put(buf, at, token);
      n := at + |token|;
    }
  }

  lemma SameRest(s: string, arg: string, val: NewVal, from: nat, at: nat, line: string, found: bool)
    requires from <= |s| && at <= |s| && Lex(s[at..]) == Lex(s[from..]) && Halfway(s, arg, val, from, line, found)
    ensures Halfway(s, arg, val, at, line, found)
  {
  }

  /** An error code is right if it is the one that setting the argument ends in. */
  ghost predicate Fails(cmdline: string, arg: string, val: NewVal, maxlen: nat, code: int) {
    var r := SetArg(cmdline, arg, val, maxlen);
    r.Err? && code == Code(r.error)
  }

  /** Deal with the argument from..valEnd of the line, whose name ends at argEnd. */
  method PlaceArg(buf: array<char>, maxlen: nat, cmdline: string, arg: string, val: NewVal,
                  from: nat, argEnd: nat, valEnd: nat, to: nat, found: bool)
    returns (code: int, from': nat, to': nat, found': bool)
    requires from <= argEnd <= valEnd <= |cmdline| && from < valEnd && to < maxlen <= buf.Length && GoodVal(val)
    requires Key(cmdline[from..valEnd]) == cmdline[from..argEnd]
    requires var t := cmdline[from..valEnd]; var line := buf[..to];
             if Key(t) != arg then Halfway(cmdline, arg, val, valEnd, Glue(line, t), found)
             else if val.Delete? then Halfway(cmdline, arg, val, valEnd, line, true)
             else Halfway(cmdline, arg, val, valEnd, Glue(line, Render(arg, val)), true)
    modifies buf
    ensures code != 0 ==> Fails(cmdline, arg, val, maxlen, code)
    ensures code == 0 ==> from < from' <= |cmdline| && to' < maxlen
    ensures code == 0 ==> Halfway(cmdline, arg, val, from', buf[..to'], found')
  {
    ghost var line := buf[..to];
    from', to' := valEnd, to;
    var isTarget := cmdline[from..argEnd] == arg;
    found' := found || isTarget;
    if isTarget && val.Delete? {
      SkipOneSpace(cmdline, valEnd);
      from' := valEnd + (if valEnd < |cmdline| && cmdline[valEnd] == ' ' then 1 else 0);
      SameRest(cmdline, arg, val, valEnd, from', line, true);
      return 0, from', to, found';
    }
    var token := cmdline[from..valEnd];
    code := Emit(buf, to, maxlen, token, isTarget, arg, val);
    if code < 0 {
      TooLong(cmdline, arg, val, maxlen, valEnd, Glue(line, if isTarget then Render(arg, val) else token), found');
    } else {
      code, to' := 0, code;
    }
  }

  /**
   One turn of the pass: skip spaces and deal with one argument. Stops with an
   error code, or goes on with more read and more written.
   */
  method OneArg(buf: array<char>, maxlen: nat, cmdline: string, arg: string, val: NewVal, from: nat, to: nat,
                found: bool)
    returns (code: int, from': nat, to': nat, found': bool)
    requires from < |cmdline| && to <= maxlen <= buf.Length && GoodVal(val)
    requires Halfway(cmdline, arg, val, from, buf[..to], found)
    modifies buf
    ensures code != 0 ==> Fails(cmdline, arg, val, maxlen, code)
    ensures code == 0 ==> from < from' <= |cmdline| && to' < maxlen
    ensures code == 0 ==> Halfway(cmdline, arg, val, from', buf[..to'], found')
  {
    ghost var line := buf[..to];
    from', to', found' := from, to, found;
    if to >= maxlen {
      TooLong(cmdline, arg, val, maxlen, from, line, found);
      return Code(E2BIG), from', to', found';
    }
    var at := SkipBlanks(cmdline, from);
    SameRest(cmdline, arg, val, from, at, line, found);
    if at == |cmdline| {
      return 0, at, to, found;
    }
    var ok, argEnd, valEnd := FindArgEnd(cmdline, at);
    if !ok {
      OpenQuote(cmdline, arg, val, maxlen, at, line, found);
      return Code(EINVAL), from', to', found';
    }
    KeyAt(cmdline, at, argEnd, valEnd);
    OneToken(cmdline, arg, val, at, valEnd, line, found);
    code, from', to', found' := PlaceArg(buf, maxlen, cmdline, arg, val, at, argEnd, valEnd, to, found);
  }

  method CmdlineSetArg(buf: array<char>, maxlen: nat, cmdline: string, arg: string, val: NewVal) returns (ret: int)
    requires maxlen <= buf.Length
    modifies buf
    ensures match SetArg(cmdline, arg, val, maxlen)
            case Ok(line) => ret == |line| + 1 && ret <= buf.Length && buf[..|line|] == line && buf[|line|] == '\0'
            case Err(e) => ret == Code(e)
  {
    if val.Value? && '"' in val.v {
      return Code(EBADF);
    }
    var from, to, found := 0, 0, false;
    assert cmdline[0..] == cmdline;
    while from < |cmdline|
      invariant 0 <= from <= |cmdline| && 0 <= to <= maxlen && (from > 0 ==> to < maxlen)
      invariant Halfway(cmdline, arg, val, from, buf[..to], found)
    {
      var code;
      code, from, to, found := OneArg(buf, maxlen, cmdline, arg, val, from, to, found);
      if code != 0 {
        return code;
      }
    }
    ret := Finish(buf, to, maxlen, cmdline, arg, val, found);
  }

  // ----------------------------------------------------------------- reading

  lemma GetSkips(s: string, arg: string, from: nat, at: nat)
    requires from <= at <= |s| && s[at..] == SkipSpaces(s[from..])
    ensures GetArg(s[from..], arg) == Move(GetArg(s[at..], arg), at - from)
  {
    SkipTwice(s[from..]);
  }

  lemma {:induction false} SkipTwice(s: string)
    ensures SkipSpaces(SkipSpaces(s)) == SkipSpaces(s)
  {
    if s != "" && s[0] == ' ' { SkipTwice(s[1..]); }
  }

  /** Reading at an argument: its value, or what reading the rest gives. */
  lemma GetAt(s: string, arg: string, from: nat, argEnd: nat, to: nat)
    requires from < to <= |s| && from <= argEnd <= to && s[from] != ' '
    requires TokenLen(s[from..], false) == Some(to - from) && KeyLen(s[from..], false) == argEnd - from
    ensures GetArg(s[from..], arg)
         == if s[from..argEnd] == arg then Found(ValueSpan(s[from..to]).0, ValueSpan(s[from..to]).1)
            else Move(GetArg(s[to..], arg), to - from)
    ensures KeyLen(s[from..to], false) == argEnd - from
  {
    var r := s[from..];
    assert SkipSpaces(r) == r;
    KeyAt(s, from, argEnd, to);
    TokenCut(r, false);
    SubSlice(s, from, |s|, 0, to - from);
    SubSlice(s, from, |s|, to - from, |r|);
    assert r[..to - from] == s[from..to] && r[to - from..] == s[to..];
  }

  lemma GetOpen(s: string, arg: string, from: nat)
    requires from < |s| && s[from] != ' ' && TokenLen(s[from..], false).None?
    ensures GetArg(s[from..], arg) == Unbalanced
  {
    assert SkipSpaces(s[from..]) == s[from..];
  }

  /** Look at the argument at from: the answer, relative to from, or where to go on. */
  method ReadOne(s: string, arg: string, from: nat) returns (answer: Option<GetResult>, next: nat)
    requires from < |s| && s[from] != ' '
    ensures answer.Some? ==> GetArg(s[from..], arg) == answer.value && !answer.value.NotFound?
    ensures answer.None? ==> from < next <= |s| && GetArg(s[from..], arg) == Move(GetArg(s[next..], arg), next - from)
  {
    var ok, argEnd, valEnd := FindArgEnd(s, from);
    if !ok {
      GetOpen(s, arg, from);
      return Some(Unbalanced), from;
    }
    GetAt(s, arg, from, argEnd, valEnd);
    if s[from..argEnd] != arg {
      return None, valEnd;
    }
    var hasQuote := if s[valEnd - 1] == '"' then 1 else 0;
    var val := if argEnd < valEnd then argEnd + 1 else valEnd;
    return Some(Found(val + hasQuote - from, valEnd as int - val - 2 * hasQuote)), from;
  }

  method CmdlineGetArg(cmdline: string, arg: string) returns (ret: int, pos: int)
    ensures match GetArg(cmdline, arg)
            case Found(p, len) => ret == len && pos == p
            case NotFound => ret == Code(ENOENT)
            case Unbalanced => ret == Code(EINVAL)
  {
    pos := 0;
    var from := 0;
    assert cmdline[0..] == cmdline;
    while from < |cmdline|
      invariant 0 <= from <= |cmdline| && GetArg(cmdline, arg) == Move(GetArg(cmdline[from..], arg), from)
    {
      var at := SkipBlanks(cmdline, from);
      GetSkips(cmdline, arg, from, at);
      from := at;
      if from == |cmdline| {
        break;
      }
      var answer, next := ReadOne(cmdline, arg, from);
      match answer {
        case Some(Found(p, len)) => return len, from + p;
        case Some(_) => return Code(EINVAL), pos;
        case None => from := next;
      }
    }
    return Code(ENOENT), pos;
  }
}
