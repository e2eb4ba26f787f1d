/**
 The kernel command line as a list of arguments, quote-aware, and what setting,
 deleting and reading one argument means on that list.
 */
module Cmdline {
  import opened Wrappers

  /** NULL deletes the argument, BOOTFLOWCL_EMPTY gives it no '=', a string becomes its value. */
  datatype NewVal = Delete | Bare | Value(v: string)

  datatype Error = E2BIG | EBADF | EINVAL | ENOENT

  // ----------------------------------------------------------- lexical layer

  function Shift(n: Option<nat>, k: nat): Option<nat> {
    if n.Some? then Some(n.value + k) else None
  }

  /** Length of the argument at the start of s: up to an unquoted space or the end; None if a quote stays open. */
  function TokenLen(s: string, quoted: bool): (n: Option<nat>)
    ensures n.Some? ==> n.value <= |s|
  {
    if s == "" then if quoted then None else Some(0)
    else if quoted then Shift(TokenLen(s[1..], s[0] != '"'), 1)
    else if s[0] == ' ' then Some(0)
    else Shift(TokenLen(s[1..], s[0] == '"'), 1)
  }

  /** Length of its name: up to the first unquoted '=' or the end of the argument. */
  function KeyLen(s: string, quoted: bool): (n: nat)
    ensures n <= |s|
  {
    if s == "" then 0
    else if quoted then 1 + KeyLen(s[1..], s[0] != '"')
    else if s[0] == '=' || s[0] == ' ' then 0
    else 1 + KeyLen(s[1..], s[0] == '"')
  }

  function Key(token: string): string {
    token[..KeyLen(token, false)]
  }

  function SkipSpaces(s: string): (r: string)
    ensures |r| <= |s| && (r != "" ==> r[0] != ' ')
  {
    if s != "" && s[0] == ' ' then SkipSpaces(s[1..]) else s
  }

  /** The arguments of a command line; ok is false if one of them leaves a quote open, and they stop there. */
  datatype Lexed = Lexed(tokens: seq<string>, ok: bool)

  function Lex(s: string): Lexed
    decreases |s|
  {
    var s := SkipSpaces(s);
    if s == "" then Lexed([], true)
    else
      match TokenLen(s, false)
      case None => Lexed([], false)
      case Some(n) =>
        var rest := Lex(s[n..]);
        Lexed([s[..n]] + rest.tokens, rest.ok)
  }

  // -------------------------------------------------------------- token layer

  function Render(arg: string, val: NewVal): string {
    match val
    case Value(v) => arg + "=" + (if ' ' in v then "\"" + v + "\"" else v)
    case _ => arg
  }

  /** Every occurrence of arg replaced or deleted, everything else as it was. */
  function Edit(tokens: seq<string>, arg: string, val: NewVal): seq<string> {
    if tokens == [] then []
    else
      var rest := Edit(tokens[1..], arg, val);
      if Key(tokens[0]) != arg then [tokens[0]] + rest
      else if val.Delete? then rest
      else [Render(arg, val)] + rest
  }

  predicate Has(tokens: seq<string>, arg: string) {
    tokens != [] && (Key(tokens[0]) == arg || Has(tokens[1..], arg))
  }

  function Join(tokens: seq<string>): string {
    if tokens == [] then ""
    else if |tokens| == 1 then tokens[0]
    else tokens[0] + " " + Join(tokens[1..])
  }

  /** The edit of a whole argument list: arg is added at the end if it was not there. */
  function EditAll(tokens: seq<string>, arg: string, val: NewVal): seq<string> {
    if Has(tokens, arg) || val.Delete? then Edit(tokens, arg, val)
    else tokens + [Render(arg, val)]
  }

  // ---------------------------------------------------------- what set does

  /** Put a token after what is there, with a space between if there is something. */
  function Glue(line: string, token: string): string {
    if line == "" then token else line + " " + token
  }

  function GlueAll(line: string, tokens: seq<string>): string
    decreases |tokens|
  {
    if tokens == [] then line else GlueAll(Glue(line, tokens[0]), tokens[1..])
  }

  function DropTrailingSpace(s: string): string {
    if s != "" && s[|s| - 1] == ' ' then s[..|s| - 1] else s
  }

  datatype SetResult = Ok(line: string) | Err(error: Error)

  /** The exact result of setting an argument, for any name and any buffer size. */
  function SetArg(cmdline: string, arg: string, val: NewVal, maxlen: nat): SetResult {
    if val.Value? && '"' in val.v then Err(EBADF)
    else
      var lexed := Lex(cmdline);
      var line := GlueAll("", Edit(lexed.tokens, arg, val));
      if cmdline != "" && |line| >= maxlen then Err(E2BIG)
      else if !lexed.ok then Err(EINVAL)
      else if Has(lexed.tokens, arg) then Ok(DropTrailingSpace(line))
      else if val.Delete? then Err(ENOENT)
      else
        var line := Glue(line, Render(arg, val));
        if |line| >= maxlen then Err(E2BIG) else Ok(DropTrailingSpace(line))
  }

  // ---------------------------------------------------------- what get does

  /** Where the value of an argument starts within it, and its length, quotes left out. */
  function ValueSpan(token: string): (int, int)
    requires token != ""
  {
    var k := KeyLen(token, false);
    var start := if k < |token| then k + 1 else k;
    var quote := if token[|token| - 1] == '"' then 1 else 0;
    (start + quote, |token| - start - 2 * quote)
  }

  datatype GetResult = Found(pos: int, len: int) | NotFound | Unbalanced

  function Move(r: GetResult, k: int): GetResult {
    if r.Found? then Found(r.pos + k, r.len) else r
  }

  /** The first argument called arg. */
  function GetArg(cmdline: string, arg: string): GetResult
    decreases |cmdline|
  {
    var s := SkipSpaces(cmdline);
    var skipped := |cmdline| - |s|;
    if s == "" then NotFound
    else
      match TokenLen(s, false)
      case None => Unbalanced
      case Some(n) =>
        if Key(s[..n]) == arg then
          var (start, len) := ValueSpan(s[..n]);
          Found(skipped + start, len)
        else Move(GetArg(s[n..], arg), skipped + n)
  }
}
