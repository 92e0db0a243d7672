/** The compiler-flag parser and its printer. */
module Cflags {
  import opened Strings
  import T = Tokens

  /** Include paths are kept as the text they were given as. */
  datatype CompilerFlag = IncludePath(path: string) | Define(key: string, value: Option<string>)

  function ToClangArg(flag: CompilerFlag): string {
    match flag
    case IncludePath(path) => "-I" + path
    case Define(key, None) => "-D" + key
    case Define(key, Some(v)) => "-D" + (key + ['='] + v)
  }

  function ToClangArgs(flags: seq<CompilerFlag>): seq<string> {
    seq(|flags|, i requires 0 <= i < |flags| => ToClangArg(flags[i]))
  }

  predicate IsFlag(tok: string) {
    "-I" <= tok || "-D" <= tok
  }

  function DefineOf(define: string): CompilerFlag {
    match SplitOnce(define, '=')
    case Some(parts) => Define(parts.0, Some(parts.1))
    case None => Define(define, None)
  }

  function FlagOf(tok: string): CompilerFlag
    requires IsFlag(tok)
  {
    if "-I" <= tok then IncludePath(tok[2..]) else DefineOf(tok[2..])
  }

  /** The `-I` and `-D` tokens, each at its first occurrence. */
  function FirstFlags(toks: seq<string>): (r: seq<string>)
    ensures forall i :: 0 <= i < |r| ==> IsFlag(r[i])
  {
    if toks == [] then []
    else
      var init, last := toks[..|toks| - 1], toks[|toks| - 1];
      FirstFlags(init) + if IsFlag(last) && last !in init then [last] else []
  }

  function FlagsOf(toks: seq<string>): seq<CompilerFlag>
    requires forall i :: 0 <= i < |toks| ==> IsFlag(toks[i])
  {
    seq(|toks|, i requires 0 <= i < |toks| => FlagOf(toks[i]))
  }

  function CflagsMeaning(ws: T.Space, output: string): seq<CompilerFlag> {
    FlagsOf(FirstFlags(T.SplitWhitespace(ws, output)))
  }

  /** `PkgConfigParser::parse_cflags`. */
  method ParseCflags(ws: T.Space, output: string) returns (flags: seq<CompilerFlag>)
    ensures flags == CflagsMeaning(ws, output)
    ensures ToClangArgs(flags) == FirstFlags(T.SplitWhitespace(ws, output))
  {
    var toks := T.SplitWhitespace(ws, output);
    flags := [];
    var seen := {};
    ghost var done: seq<string> := [];
    for i := 0 to |toks|
      invariant done == toks[..i]
      invariant flags == FlagsOf(FirstFlags(done))
      invariant forall t :: t in seen <==> t in done && IsFlag(t)
    {
      var token := toks[i];
      FirstFlagsSnoc(done, token);
      if StripPrefix(token, "-I").Some? {
        if token !in seen {
          seen := seen + {token};
          flags := flags + [IncludePath(StripPrefix(token, "-I").value)];
        }
      } else if StripPrefix(token, "-D").Some? && token !in seen {
        seen := seen + {token};
        var define := StripPrefix(token, "-D").value;
        match SplitOnce(define, '=') {
          case Some(parts) => flags := flags + [Define(parts.0, Some(parts.1))];
          case None => flags := flags + [Define(define, None)];
        }
      }
      done := done + [token];
    }
    assert done == toks;
    ArgsOfFlags(FirstFlags(toks));
  }

  /** A token adds its flag, unless it is no flag or was met before. */
  lemma FirstFlagsSnoc(toks: seq<string>, tok: string)
    ensures FirstFlags(toks + [tok]) ==
            if IsFlag(tok) && tok !in toks then FirstFlags(toks) + [tok] else FirstFlags(toks)
    ensures FlagsOf(FirstFlags(toks + [tok])) ==
            if IsFlag(tok) && tok !in toks then FlagsOf(FirstFlags(toks)) + [FlagOf(tok)] else FlagsOf(FirstFlags(toks))
  {
    assert (toks + [tok])[..|toks|] == toks;
  }

  // ----- the printer against the parser

  /** Printing a parsed token gives its text back, character for character. */
  lemma ArgOfFlag(tok: string)
    requires IsFlag(tok)
    ensures ToClangArg(FlagOf(tok)) == tok
  {
    var rest := tok[2..];
    assert tok == (if "-I" <= tok then "-I" else "-D") + rest;
  }

  lemma ArgsOfFlags(toks: seq<string>)
    requires forall i :: 0 <= i < |toks| ==> IsFlag(toks[i])
    ensures ToClangArgs(FlagsOf(toks)) == toks
  {
    forall i | 0 <= i < |toks|
      ensures ToClangArgs(FlagsOf(toks))[i] == toks[i]
    {
      ArgOfFlag(toks[i]);
    }
  }

  /** Parsing a printed flag gives the flag back, unless a macro name holds `=`. */
  lemma FlagOfArg(flag: CompilerFlag)
    ensures IsFlag(ToClangArg(flag))
    ensures FlagOf(ToClangArg(flag)) == flag <==> (flag.Define? ==> '=' !in flag.key)
  {
    var arg := ToClangArg(flag);
    match flag {
      case IncludePath(path) =>
        assert arg[2..] == path;
      case Define(key, None) =>
        assert arg[2..] == key;
        assert arg[1] == 'D';
      case Define(key, Some(v)) =>
        assert arg[2..] == key + ['='] + v;
        assert arg[1] == 'D';
        if '=' !in key {
          SplitOnceOf(key, '=', v);
        }
    }
  }

  /** The text behind each flag. */
  lemma FlagText(path: string, key: string, value: string)
    ensures IsFlag("-I" + path) && FlagOf("-I" + path) == IncludePath(path)
    ensures IsFlag("-D" + key + "=" + value)
    ensures IsFlag("-D" + key)
    ensures '=' !in key ==> FlagOf("-D" + key + "=" + value) == Define(key, Some(value))
    ensures '=' !in key ==> FlagOf("-D" + key) == Define(key, None)
  {
    assert ("-I" + path)[2..] == path;
    var full, bare := "-D" + key + "=" + value, "-D" + key;
    assert full[2..] == key + ['='] + value && full[..2] == "-D" && full[1] == 'D';
    assert bare[2..] == key && bare[..2] == "-D" && bare[1] == 'D';
    if '=' !in key {
      SplitOnceOf(key, '=', value);
    }
  }

  /** A flag is parsed exactly when its text is among the tokens; no macro name holds `=`. */
  lemma ParsedText(ws: T.Space, output: string, path: string, key: string, value: string)
    ensures var flags, toks := CflagsMeaning(ws, output), T.SplitWhitespace(ws, output);
            && (IncludePath(path) in flags <==> "-I" + path in toks)
            && (Define(key, Some(value)) in flags <==> '=' !in key && "-D" + key + "=" + value in toks)
            && (Define(key, None) in flags <==> '=' !in key && "-D" + key in toks)
  {
    FlagText(path, key, value);
    assert "-D" + (key + ['='] + value) == "-D" + key + "=" + value;
    ParsedFlag(ws, output, IncludePath(path));
    ParsedFlag(ws, output, Define(key, Some(value)));
    ParsedFlag(ws, output, Define(key, None));
  }

  lemma ParsedFlag(ws: T.Space, output: string, flag: CompilerFlag)
    ensures flag in CflagsMeaning(ws, output) <==>
            (flag.Define? ==> '=' !in flag.key) && ToClangArg(flag) in T.SplitWhitespace(ws, output)
  {
    var toks := T.SplitWhitespace(ws, output);
    var ts, flags := FirstFlags(toks), CflagsMeaning(ws, output);
    FirstFlagsMeaning(toks);
    FlagOfArg(flag);
    if flag in flags {
      var i :| 0 <= i < |flags| && flags[i] == flag;
      ArgOfFlag(ts[i]);
    }
    if FlagOf(ToClangArg(flag)) == flag && ToClangArg(flag) in toks {
      var i :| 0 <= i < |ts| && ts[i] == ToClangArg(flag);
      assert flags[i] == flag;
    }
  }

  // ----- de-duplication

  ghost predicate NoRepeats(ts: seq<string>) {
    forall i, j :: 0 <= i < j < |ts| ==> ts[i] != ts[j]
  }

  function FirstIndex(toks: seq<string>, tok: string): (i: nat)
    requires tok in toks
    ensures i < |toks| && toks[i] == tok
    ensures forall j :: 0 <= j < i ==> toks[j] != tok
  {
    if toks[0] == tok then 0 else 1 + FirstIndex(toks[1..], tok)
  }

  /** The tokens `ts` come in the order of their first occurrences in `toks`. */
  ghost predicate InOrder(toks: seq<string>, ts: seq<string>) {
    forall i, j :: 0 <= i < j < |ts| ==>
      ts[i] in toks && ts[j] in toks && FirstIndex(toks, ts[i]) < FirstIndex(toks, ts[j])
  }

  lemma FirstIndexKept(init: seq<string>, last: string, tok: string)
    requires tok in init
    ensures FirstIndex(init + [last], tok) == FirstIndex(init, tok)
  {
    var p, q := FirstIndex(init, tok), FirstIndex(init + [last], tok);
    assert (init + [last])[p] == init[p];
    assert q < |init| ==> (init + [last])[q] == init[q];
  }

  /** Reference meaning of the de-duplication: exactly the flag tokens, none twice, ordered by
      where they first occur. */
  lemma {:induction false} FirstFlagsMeaning(toks: seq<string>)
    ensures forall t :: t in FirstFlags(toks) <==> t in toks && IsFlag(t)
    ensures NoRepeats(FirstFlags(toks))
    ensures InOrder(toks, FirstFlags(toks))
  {
    if toks != [] {
      var init, last := toks[..|toks| - 1], toks[|toks| - 1];
      FirstFlagsMeaning(init);
      assert toks == init + [last];
      var r := FirstFlags(toks);
      forall i, j | 0 <= i < j < |r|
        ensures r[i] in toks && r[j] in toks && FirstIndex(toks, r[i]) < FirstIndex(toks, r[j])
      {
        var head := FirstFlags(init);
        assert head[i] == r[i] && r[i] in init;
        FirstIndexKept(init, last, r[i]);
        if j < |head| {
          assert head[j] == r[j] && r[j] in init;
          FirstIndexKept(init, last, r[j]);
        } else {
          assert r[j] == last && last !in init;
          assert forall k :: 0 <= k < |init| ==> toks[k] == init[k];
        }
      }
    }
  }

  lemma {:induction false} FirstFlagsFixed(ts: seq<string>)
    requires NoRepeats(ts) && forall i :: 0 <= i < |ts| ==> IsFlag(ts[i])
    ensures FirstFlags(ts) == ts
  {
    if ts != [] {
      var init, last := ts[..|ts| - 1], ts[|ts| - 1];
      FirstFlagsFixed(init);
      FirstFlagsSnoc(init, last);
      assert last !in init;
      assert ts == init + [last];
    }
  }

  /** The parsed flags are pairwise different. */
  lemma ParsedFlagsDiffer(ws: T.Space, output: string)
    ensures var flags := CflagsMeaning(ws, output);
            forall i, j :: 0 <= i < j < |flags| ==> flags[i] != flags[j]
  {
    var ts := FirstFlags(T.SplitWhitespace(ws, output));
    FirstFlagsMeaning(T.SplitWhitespace(ws, output));
    var flags := CflagsMeaning(ws, output);
    forall i, j | 0 <= i < j < |flags|
      ensures flags[i] != flags[j]
    {
      ArgOfFlag(ts[i]);
      ArgOfFlag(ts[j]);
    }
  }

  /** Normal form: the printed flags, joined by spaces, parse to the same flags. */
  lemma NormalForm(ws: T.Space, output: string)
    requires ws(' ')
    ensures var flags := CflagsMeaning(ws, output);
            CflagsMeaning(ws, T.JoinSpaces(ToClangArgs(flags))) == flags
  {
    var toks := T.SplitWhitespace(ws, output);
    var ts := FirstFlags(toks);
    FirstFlagsMeaning(toks);
    ArgsOfFlags(ts);
    assert T.Words(ws, ts) by {
      forall i | 0 <= i < |ts|
        ensures T.Word(ws, ts[i])
      {
        assert ts[i] in toks;
      }
    }
    T.SplitJoin(ws, ts);
    FirstFlagsFixed(ts);
  }
}
