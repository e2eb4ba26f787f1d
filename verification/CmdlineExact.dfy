/** What setting an argument writes, for every name, value and buffer; and what reading finds afterwards. */
module CmdlineExact {
  import opened Wrappers
  import opened Cmdline
  import opened CmdlineLaws

  // ------------------------------------------------------------- the result

  function DropEmptyFront(ts: seq<string>): seq<string> {
    if ts != [] && ts[0] == "" then DropEmptyFront(ts[1..]) else ts
  }

  /** The tokens joined, without empty ones in front. */
  function Joined(ts: seq<string>): string {
    Join(DropEmptyFront(ts))
  }

  lemma {:induction false} GlueOnto(line: string, ts: seq<string>)
    requires line != ""
    ensures GlueAll(line, ts) == if ts == [] then line else line + " " + Join(ts)
    decreases |ts|
  {
    if ts != [] {
      GlueOnto(line + " " + ts[0], ts[1..]);
      if |ts| > 1 {
        assert line + " " + ts[0] + " " + Join(ts[1..]) == line + " " + (ts[0] + " " + Join(ts[1..]));
      }
    }
  }

  lemma {:induction false} GlueIsJoined(ts: seq<string>)
    ensures GlueAll("", ts) == Joined(ts)
  {
    if ts != [] {
      if ts[0] == "" { GlueIsJoined(ts[1..]); } else { GlueOnto(ts[0], ts[1..]); }
    }
  }

  lemma {:induction false} GlueSnoc(line: string, ts: seq<string>, t: string)
    ensures GlueAll(line, ts + [t]) == Glue(GlueAll(line, ts), t)
    decreases |ts|
  {
    if ts != [] {
      assert (ts + [t])[1..] == ts[1..] + [t];
      GlueSnoc(Glue(line, ts[0]), ts[1..], t);
    } else {
      assert ts + [t] == [t];
      assert [t][1..] == [];
    }
  }

  /** There is something to edit: quotes are balanced, and an argument to delete is there. */
  predicate Editable(cmdline: string, arg: string, val: NewVal) {
    Lex(cmdline).ok && (val.Delete? ==> Has(Lex(cmdline).tokens, arg))
  }

  /**
   The result of a set for every input: which error, and otherwise the joined
   edited arguments, if they fit, without a space at the end.
   */
  lemma SetExact(cmdline: string, arg: string, val: NewVal, maxlen: nat)
    ensures SetArg(cmdline, arg, val, maxlen)
            == if !GoodVal(val) then Err(EBADF)
               else if !Editable(cmdline, arg, val) then
                 Err(if cmdline != "" && |Joined(Edit(Lex(cmdline).tokens, arg, val))| >= maxlen then E2BIG
                     else if !Lex(cmdline).ok then EINVAL else ENOENT)
               else if |Joined(Edited(cmdline, arg, val))| >= maxlen then Err(E2BIG)
               else Ok(DropTrailingSpace(Joined(Edited(cmdline, arg, val))))
  {
    var ts := Lex(cmdline).tokens;
    GlueIsJoined(Edit(ts, arg, val));
    if Editable(cmdline, arg, val) && !Has(ts, arg) {
      EditAbsent(ts, arg, val);
      GlueIsJoined(ts + [Render(arg, val)]);
      GlueSnoc("", ts, Render(arg, val));
    }
  }

  // ------------------------------------------------------- when it is the edit

  lemma SolidJoined(ts: seq<string>)
    requires AllSolid(ts)
    ensures Joined(ts) == Join(ts) && DropTrailingSpace(Join(ts)) == Join(ts)
  {
    if ts != [] { JoinIsSolid(ts); }
  }

  /**
   With balanced quotes and something to edit, setting an argument writes the
   space-joined edited list if that fits, and nothing else: it fails exactly when
   the result does not fit. The one exception is a bare name that is empty or
   ends in a space.
   */
  lemma SetIsEdit(cmdline: string, arg: string, val: NewVal, maxlen: nat)
    requires GoodVal(val) && Editable(cmdline, arg, val) && (val.Bare? ==> Solid(arg))
    ensures var out := Join(Edited(cmdline, arg, val));
            SetArg(cmdline, arg, val, maxlen) == if |out| < maxlen then Ok(out) else Err(E2BIG)
  {
    SetExact(cmdline, arg, val, maxlen);
    EditedIsSolid(cmdline, arg, val);
    SolidJoined(Edited(cmdline, arg, val));
  }

  /** No name on a command line ends in a space. */
  lemma {:induction false} KeyEndsSolid(t: string, quoted: bool)
    requires TokenLen(t, quoted) == Some(|t|) && KeyLen(t, quoted) > 0
    ensures t[KeyLen(t, quoted) - 1] != ' '
  {
    var inside := if quoted then t[0] != '"' else t[0] == '"';
    if KeyLen(t[1..], inside) > 0 { KeyEndsSolid(t[1..], inside); }
  }

  lemma {:induction false} SpacedNameIsNew(ts: seq<string>, arg: string)
    requires AllTokens(ts) && arg != "" && arg[|arg| - 1] == ' '
    ensures !Has(ts, arg)
  {
    if ts != [] {
      SpacedNameIsNew(ts[1..], arg);
      assert IsToken(ts[0]);
      if Key(ts[0]) == arg {
        KeyEndsSolid(ts[0], false);
        assert false;
      }
    }
  }

  /** Where an empty bare name leaves the line as the edit has it: alone, or in the middle only. */
  predicate EmptyNameJoins(ts: seq<string>) {
    if Has(ts, "") then |ts| == 1 || (Key(ts[0]) != "" && Key(ts[|ts| - 1]) != "") else ts == []
  }

  predicate NameJoins(ts: seq<string>, arg: string, val: NewVal) {
    val.Bare? ==> Solid(arg) || (arg == "" && EmptyNameJoins(ts))
  }

  lemma {:induction false} EmptyBareEdit(ts: seq<string>)
    ensures |Edit(ts, "", Bare)| == |ts|
    ensures forall i :: 0 <= i < |ts| ==> Edit(ts, "", Bare)[i] == if Key(ts[i]) == "" then "" else ts[i]
  {
    if ts != [] { EmptyBareEdit(ts[1..]); }
  }

  lemma {:induction false} JoinedIsShorter(ts: seq<string>)
    ensures |Joined(ts)| <= |Join(ts)|
  {
    if ts != [] && ts[0] == "" { JoinedIsShorter(ts[1..]); }
  }

  /** What is written for these tokens is just their join. */
  predicate KeptAsJoined(ts: seq<string>) {
    DropTrailingSpace(Joined(ts)) == Join(ts)
  }

  lemma FrontIsLost(ts: seq<string>)
    requires |ts| > 1 && ts[0] == ""
    ensures !KeptAsJoined(ts)
  {
    JoinedIsShorter(ts[1..]);
    assert Joined(ts) == Joined(ts[1..]);
    assert |Join(ts)| == 1 + |Join(ts[1..])|;
  }

  /** Nothing is lost in front; at the end a space is, exactly if the last token is empty. */
  lemma EndIsLost(init: seq<string>, last: string)
    requires init != [] && init[0] != "" && (last == "" || Solid(last))
    ensures KeptAsJoined(init + [last]) <==> last != ""
  {
    JoinSnoc(init, last);
    assert (init + [last])[0] == init[0];
    var line := Join(init) + " " + last;
    assert Joined(init + [last]) == line;
    assert line[|line| - 1] == if last == "" then ' ' else last[|last| - 1];
  }

  lemma OneIsKept(t: string)
    requires t == "" || Solid(t)
    ensures KeptAsJoined([t])
  {
    assert [t][1..] == [] && DropEmptyFront([]) == [] && Join([]) == "";
    assert DropEmptyFront([t]) == if t == "" then [] else [t];
  }

  /** Whether an edited list with empty tokens in it comes out as joined. */
  lemma WhenJoined(ts: seq<string>)
    requires ts != [] && forall i :: 0 <= i < |ts| ==> ts[i] == "" || Solid(ts[i])
    ensures KeptAsJoined(ts) <==> |ts| == 1 || (ts[0] != "" && ts[|ts| - 1] != "")
  {
    if |ts| == 1 {
      OneIsKept(ts[0]);
      assert ts == [ts[0]];
    } else if ts[0] == "" {
      FrontIsLost(ts);
    } else {
      LastDecides(ts, ts[..|ts| - 1], ts[|ts| - 1]);
    }
  }

  lemma LastDecides(ts: seq<string>, init: seq<string>, last: string)
    requires ts == init + [last] && init != [] && init[0] != "" && (last == "" || Solid(last))
    ensures KeptAsJoined(ts) <==> last != ""
  {
    EndIsLost(init, last);
  }

  lemma SpacedIsLost(cmdline: string, arg: string)
    requires arg != "" && arg[|arg| - 1] == ' ' && Lex(cmdline).ok
    ensures !KeptAsJoined(Edited(cmdline, arg, Bare))
  {
    var ts := Lex(cmdline).tokens;
    LexTokens(cmdline);
    SpacedNameIsNew(ts, arg);
    TokensAreSolid(ts);
    if ts == [] {
      assert ts + [arg] == [arg];
    } else {
      JoinSnoc(ts, arg);
      assert (ts + [arg])[0] == ts[0];
    }
  }

  /** The edited list when the empty name is there, and when it is not. */
  lemma EmptyReplaced(ts: seq<string>)
    requires AllTokens(ts) && Has(ts, "")
    ensures KeptAsJoined(Edit(ts, "", Bare)) <==> |ts| == 1 || (Key(ts[0]) != "" && Key(ts[|ts| - 1]) != "")
  {
    var out := Edit(ts, "", Bare);
    TokensAreSolid(ts);
    EmptyBareEdit(ts);
    WhenJoined(out);
    assert IsToken(ts[0]) && IsToken(ts[|ts| - 1]);
    assert out[0] == "" <==> Key(ts[0]) == "";
    assert out[|ts| - 1] == "" <==> Key(ts[|ts| - 1]) == "";
  }

  lemma EmptyAdded(ts: seq<string>)
    requires AllTokens(ts)
    ensures KeptAsJoined(ts + [""]) <==> ts == []
  {
    if ts == [] {
      OneIsKept("");
      assert ts + [""] == [""];
    } else {
      assert IsToken(ts[0]);
      EndIsLost(ts, "");
    }
  }

  lemma EmptyIsKept(cmdline: string)
    requires Lex(cmdline).ok
    ensures KeptAsJoined(Edited(cmdline, "", Bare)) <==> EmptyNameJoins(Lex(cmdline).tokens)
  {
    var ts := Lex(cmdline).tokens;
    LexTokens(cmdline);
    if Has(ts, "") { EmptyReplaced(ts); } else { EmptyAdded(ts); }
  }

  /** What is written is the space-joined edited list exactly if the name joins, for every name and value. */
  lemma SetIsEditExactly(cmdline: string, arg: string, val: NewVal, maxlen: nat)
    requires GoodVal(val) && Editable(cmdline, arg, val)
    ensures var r := SetArg(cmdline, arg, val, maxlen);
            && (r.Ok? <==> |Joined(Edited(cmdline, arg, val))| < maxlen) && (r.Err? ==> r.error == E2BIG)
            && (r.Ok? ==> (r.line == Join(Edited(cmdline, arg, val)) <==> NameJoins(Lex(cmdline).tokens, arg, val)))
  {
    SetExact(cmdline, arg, val, maxlen);
    if val.Bare? && arg == "" {
      EmptyIsKept(cmdline);
    } else if val.Bare? && !Solid(arg) {
      SpacedIsLost(cmdline, arg);
    } else {
      SetIsEdit(cmdline, arg, val, maxlen);
    }
  }

  /** A bare name that ends in a space loses it: the edit is not what is written. */
  lemma TrailingSpaceIsLost()
    ensures SetArg("", "a ", Bare, 8) == Ok("a") && Join(Edited("", "a ", Bare)) == "a "
  {
    assert Lex("") == Lexed([], true);
    assert GlueAll("", []) == "";
    assert [] + ["a "] == ["a "];
  }

  /** Exactly when a set is refused, and with which error: a quote in the value first, then the size, then the rest. */
  lemma SetRefuses(cmdline: string, arg: string, val: NewVal, maxlen: nat)
    ensures var r := SetArg(cmdline, arg, val, maxlen);
            && (r == Err(EBADF) <==> !GoodVal(val))
            && (r == Err(EINVAL) <==> GoodVal(val) && !Lex(cmdline).ok
                                      && |Joined(Edit(Lex(cmdline).tokens, arg, val))| < maxlen)
            && (r == Err(ENOENT) <==> GoodVal(val) && Lex(cmdline).ok && val.Delete? && !Has(Lex(cmdline).tokens, arg)
                                      && (cmdline == "" || |Joined(Edit(Lex(cmdline).tokens, arg, val))| < maxlen))
            && (r.Ok? <==> GoodVal(val) && Editable(cmdline, arg, val) && |Joined(Edited(cmdline, arg, val))| < maxlen)
            && (r.Err? ==> r.error in {EBADF, EINVAL, ENOENT, E2BIG})
  {
    SetExact(cmdline, arg, val, maxlen);
    assert Lex("").ok;
  }

  // ------------------------------------------------------------- get after set

  /** Whatever starts at a boundary behind line is split as if line's tokens ts stood in front of it. */
  ghost predicate Absorbs(line: string, ts: seq<string>) {
    forall r :: AtBoundary(r) ==> Lex(line + r) == Lexed(ts + Lex(r).tokens, Lex(r).ok)
  }

  function NonEmpty(ts: seq<string>): seq<string> {
    if ts == [] then [] else (if ts[0] == "" then [] else [ts[0]]) + NonEmpty(ts[1..])
  }

  lemma AbsorbsSpace(line: string, ts: seq<string>)
    requires Absorbs(line, ts)
    ensures Absorbs(line + " ", ts)
  {
    forall r | AtBoundary(r) ensures Lex(line + " " + r) == Lexed(ts + Lex(r).tokens, Lex(r).ok) {
      assert line + " " + r == line + (" " + r);
      LexSpace(r);
    }
  }

  lemma AbsorbsFirst(t: string)
    requires IsToken(t)
    ensures Absorbs(t, [t])
  {
    forall r | AtBoundary(r) ensures Lex(t + r) == Lexed([t] + Lex(r).tokens, Lex(r).ok) { LexFirst(t, r); }
  }

  lemma AbsorbsNext(line: string, ts: seq<string>, t: string)
    requires Absorbs(line, ts) && IsToken(t)
    ensures Absorbs(line + " " + t, ts + [t])
  {
    forall r | AtBoundary(r) ensures Lex(line + " " + t + r) == Lexed(ts + [t] + Lex(r).tokens, Lex(r).ok) {
      var rest := " " + (t + r);
      AbsorbsAt(line, ts, rest);
      NextTokens(t, r);
      Grouped(line, t, r);
      assert ts + ([t] + Lex(r).tokens) == ts + [t] + Lex(r).tokens;
    }
  }

  lemma AbsorbsAt(line: string, ts: seq<string>, r: string)
    requires Absorbs(line, ts) && AtBoundary(r)
    ensures Lex(line + r) == Lexed(ts + Lex(r).tokens, Lex(r).ok)
  {
  }

  lemma NextTokens(t: string, r: string)
    requires IsToken(t) && AtBoundary(r)
    ensures Lex(" " + (t + r)) == Lexed([t] + Lex(r).tokens, Lex(r).ok)
  {
    LexSpace(t + r);
    LexFirst(t, r);
  }

  lemma Grouped(line: string, t: string, r: string)
    ensures line + " " + t + r == line + (" " + (t + r))
  {
  }

  predicate TokensOrEmpty(ts: seq<string>) {
    forall i :: 0 <= i < |ts| ==> ts[i] == "" || IsToken(ts[i])
  }

  /** The line is empty and holds nothing, or it absorbs. */
  ghost predicate HoldsTokens(line: string, ts: seq<string>) {
    if line == "" then ts == [] else Absorbs(line, ts)
  }

  lemma GlueHolds(line: string, ts: seq<string>, t: string)
    requires HoldsTokens(line, ts) && (t == "" || IsToken(t))
    ensures HoldsTokens(Glue(line, t), if t == "" then ts else ts + [t])
  {
    if line == "" {
      if t != "" {
        AbsorbsFirst(t);
        assert [] + [t] == [t];
      }
    } else if t == "" {
      AbsorbsSpace(line, ts);
      assert line + " " + t == line + " ";
    } else {
      AbsorbsNext(line, ts, t);
    }
  }

  lemma Regrouped(a: seq<string>, b: seq<string>, c: seq<string>)
    ensures a + b + c == a + (b + c) && [] + c == c
  {
  }

  lemma HeldStep(held: seq<string>, ts: seq<string>)
    requires ts != []
    ensures (if ts[0] == "" then held else held + [ts[0]]) + NonEmpty(ts[1..]) == held + NonEmpty(ts)
  {
    Regrouped(held, [ts[0]], NonEmpty(ts[1..]));
  }

  lemma {:induction false} GlueAllHolds(line: string, held: seq<string>, ts: seq<string>)
    requires HoldsTokens(line, held) && TokensOrEmpty(ts)
    ensures HoldsTokens(GlueAll(line, ts), held + NonEmpty(ts))
    decreases |ts|
  {
    if ts == [] {
      assert held + NonEmpty(ts) == held;
    } else {
      GlueHolds(line, held, ts[0]);
      RestIsToo(ts);
      GlueAllHolds(Glue(line, ts[0]), if ts[0] == "" then held else held + [ts[0]], ts[1..]);
      HeldStep(held, ts);
    }
  }

  lemma RestIsToo(ts: seq<string>)
    requires ts != [] && TokensOrEmpty(ts)
    ensures TokensOrEmpty(ts[1..])
  {
  }

  lemma HoldsIsLexed(line: string, ts: seq<string>)
    requires HoldsTokens(line, ts)
    ensures Lex(line) == Lexed(ts, true)
  {
    assert Lex("") == Lexed([], true);
    if line != "" {
      assert line + "" == line;
      assert Lex(line + "") == Lexed(ts + Lex("").tokens, Lex("").ok);
      assert ts + [] == ts;
    }
  }

  lemma {:induction false} NonEmptySnoc(ts: seq<string>, t: string)
    ensures NonEmpty(ts + [t]) == NonEmpty(ts) + if t == "" then [] else [t]
  {
    if ts == [] {
      assert ts + [t] == [t] && [t][1..] == [];
    } else {
      assert (ts + [t])[1..] == ts[1..] + [t];
      NonEmptySnoc(ts[1..], t);
    }
  }

  /** An empty bare name is a deletion as far as the tokens go. */
  lemma {:induction false} EmptyBareDeletes(ts: seq<string>)
    requires AllTokens(ts)
    ensures NonEmpty(Edit(ts, "", Bare)) == Edit(ts, "", Delete) && TokensOrEmpty(Edit(ts, "", Bare))
  {
    if ts != [] {
      assert IsToken(ts[0]);
      EmptyBareDeletes(ts[1..]);
      var rest := Edit(ts[1..], "", Bare);
      var t := if Key(ts[0]) == "" then "" else ts[0];
      assert Edit(ts, "", Bare) == [t] + rest;
      assert ([t] + rest)[1..] == rest;
    }
  }

  lemma {:induction false} NoneToDrop(ts: seq<string>)
    requires AllTokens(ts)
    ensures NonEmpty(ts) == ts
  {
    if ts != [] { NoneToDrop(ts[1..]); }
  }

  /** Dropping the space at the end drops no token. */
  lemma GluedLexes(init: seq<string>, last: string)
    requires TokensOrEmpty(init) && (last == "" || IsToken(last))
    ensures Lex(DropTrailingSpace(Glue(GlueAll("", init), last)))
            == Lexed(if last == "" then NonEmpty(init) else NonEmpty(init) + [last], true)
  {
    GlueAllHolds("", [], init);
    assert [] + NonEmpty(init) == NonEmpty(init);
    GlueHolds(GlueAll("", init), NonEmpty(init), last);
    EndDropped(GlueAll("", init), NonEmpty(init), last);
  }

  lemma DroppedLexes(out: seq<string>, init: seq<string>, last: string)
    requires out == init + [last] && TokensOrEmpty(init) && (last == "" || IsToken(last))
    ensures Lex(DropTrailingSpace(Joined(out))) == Lexed(NonEmpty(out), true)
  {
    GlueIsJoined(out);
    GlueSnoc("", init, last);
    NonEmptySnoc(init, last);
    GluedLexes(init, last);
    assert NonEmpty(init) + [] == NonEmpty(init);
  }

  lemma EndDropped(line: string, ts: seq<string>, last: string)
    requires HoldsTokens(line, ts) && (last == "" || IsToken(last))
    requires HoldsTokens(Glue(line, last), if last == "" then ts else ts + [last])
    ensures Lex(DropTrailingSpace(Glue(line, last))) == Lexed(if last == "" then ts else ts + [last], true)
  {
    if last == "" {
      HoldsIsLexed(line, ts);
      if line == "" {
        HoldsIsLexed(Glue(line, last), ts);
      } else {
        assert line + " " + last == line + " ";
        assert (line + " ")[..|line|] == line;
      }
    } else {
      TokenLastChar(last, false);
      HoldsIsLexed(Glue(line, last), ts + [last]);
    }
  }

  lemma ReplacedLexes(ts: seq<string>, out: seq<string>)
    requires AllTokens(ts) && Has(ts, "") && out == Edit(ts, "", Bare)
    ensures Lex(DropTrailingSpace(Joined(out))) == Lexed(Edit(ts, "", Delete), true)
  {
    EmptyBareDeletes(ts);
    EmptyBareEdit(ts);
    var init, last := out[..|out| - 1], out[|out| - 1];
    assert TokensOrEmpty(init);
    assert out == init + [last];
    DroppedLexes(out, init, last);
  }

  lemma AddedLexes(ts: seq<string>)
    requires AllTokens(ts) && !Has(ts, "")
    ensures Lex(DropTrailingSpace(Joined(ts + [""]))) == Lexed(Edit(ts, "", Delete), true)
  {
    EditAbsent(ts, "", Delete);
    NoneToDrop(ts);
    NonEmptySnoc(ts, "");
    DroppedLexes(ts + [""], ts, "");
  }

  lemma EmptyBareLexes(cmdline: string, maxlen: nat, line: string)
    requires SetArg(cmdline, "", Bare, maxlen) == Ok(line)
    ensures Lex(line) == Lexed(Edit(Lex(cmdline).tokens, "", Delete), true)
  {
    var ts := Lex(cmdline).tokens;
    SetExact(cmdline, "", Bare, maxlen);
    LexTokens(cmdline);
    if Has(ts, "") {
      ReplacedLexes(ts, Edit(ts, "", Bare));
    } else {
      AddedLexes(ts);
    }
  }

  /** The arguments after a successful set: the edited ones, of which an empty bare name leaves none. */
  function After(ts: seq<string>, arg: string, val: NewVal): seq<string> {
    if val.Bare? && arg == "" then Edit(ts, "", Delete) else EditAll(ts, arg, val)
  }

  lemma WrittenTokens(cmdline: string, arg: string, val: NewVal, maxlen: nat, line: string)
    requires GoodName(arg) && SetArg(cmdline, arg, val, maxlen) == Ok(line)
    ensures GoodVal(val) && Editable(cmdline, arg, val)
    ensures Lex(line) == Lexed(After(Lex(cmdline).tokens, arg, val), true)
  {
    SetExact(cmdline, arg, val, maxlen);
    if val.Bare? && arg == "" {
      EmptyBareLexes(cmdline, maxlen, line);
    } else {
      SetIsEdit(cmdline, arg, val, maxlen);
      SetLexes(cmdline, arg, val);
    }
  }

  lemma FirstAfter(ts: seq<string>, arg: string, val: NewVal, other: string)
    requires GoodName(arg) && GoodVal(val) && AllTokens(ts) && (val.Delete? ==> Has(ts, arg))
    ensures FirstToken(After(ts, arg, val), other)
            == if other != arg then FirstToken(ts, other)
               else if val.Delete? || !Shows(arg, val) then None else Some(Render(arg, val))
  {
    if val.Bare? && arg == "" {
      FirstEdited(ts, "", Delete);
      if other != "" { OthersEdited(ts, "", Delete, other); }
    } else {
      EditedFirst(ts, arg, val, other);
    }
  }

  /**
   After a successful set of value v, reading the argument gives exactly v, quoting
   left out; after a deletion, or of an empty bare name, it finds nothing.
   */
  lemma GetAfterSet(cmdline: string, arg: string, val: NewVal, maxlen: nat, line: string)
    requires GoodName(arg) && SetArg(cmdline, arg, val, maxlen) == Ok(line)
    ensures match val
            case Delete => GetArg(line, arg) == NotFound
            case Bare => if arg == "" then GetArg(line, arg) == NotFound else Reads(line, arg, "")
            case Value(v) => Reads(line, arg, v)
  {
    WrittenTokens(cmdline, arg, val, maxlen, line);
    LexTokens(cmdline);
    FirstAfter(Lex(cmdline).tokens, arg, val, arg);
    if val.Delete? || !Shows(arg, val) {
      var _ := GetIsFirst(line, arg);
    } else {
      RenderedSpan(arg, val);
      ReadsToken(line, arg, Render(arg, val), if val.Value? then val.v else "");
    }
  }

  /** A successful set leaves what every other argument reads as unchanged, found or not. */
  lemma OthersAfterSet(cmdline: string, arg: string, val: NewVal, maxlen: nat, line: string, other: string, v: string)
    requires GoodName(arg) && other != arg && SetArg(cmdline, arg, val, maxlen) == Ok(line)
    ensures GetArg(line, other).Found? <==> GetArg(cmdline, other).Found?
    ensures GetArg(cmdline, other).Found? ==> GetArg(line, other).len == GetArg(cmdline, other).len
    ensures Reads(line, other, v) <==> Reads(cmdline, other, v)
  {
    WrittenTokens(cmdline, arg, val, maxlen, line);
    LexTokens(cmdline);
    var ts := Lex(cmdline).tokens;
    FirstAfter(ts, arg, val, other);
    match FirstToken(ts, other)
    case None =>
      var _ := GetIsFirst(cmdline, other);
      var _ := GetIsFirst(line, other);
    case Some(t) =>
      ReadsToken(cmdline, other, t, v);
      ReadsToken(line, other, t, v);
  }
}
