/** The linker flags, and what the link-line parser means: a description of the output that
    looks at the whole token stream at once. */
module LinkSpec {
  import opened Strings
  import Paths

  datatype LinkKind = Default | Static | WholeArchive

  datatype LinkerFlag =
    | SearchPath(path: string)
    | Library(name: string, kind: LinkKind)
    | LinkerArg(arg: string)

  /** The settings of `PkgConfigParser`. */
  datatype Config = Config(systemRoots: seq<string>, forceWholeArchive: set<string>)

  /** Whether a file of the given name exists in the given directory: fixed during a parse. */
  type ArchiveOracle = (string, string) -> bool

  predicate IsStaticAvailable(cfg: Config, archiveIn: ArchiveOracle, name: string, dirs: seq<string>) {
    var libname := "lib" + name + ".a";
    exists dir :: dir in dirs && archiveIn(dir, libname)
               && !(exists sys :: sys in cfg.systemRoots && Paths.StartsWith(dir, sys))
  }

  /** Everything a library's kind depends on besides the tokens. */
  datatype Env = Env(cfg: Config, archiveIn: ArchiveOracle, dirs: seq<string>) {
    predicate HasStatic(name: string) {
      IsStaticAvailable(cfg, archiveIn, name, dirs)
    }

    predicate Forced(name: string) {
      name in cfg.forceWholeArchive
    }
  }

  // ----- tokens

  /** The library named by the text after `-l:`. */
  function ExplicitName(rest: string): string {
    StripSuffix(StripPrefix(rest, "lib").GetOr(rest), ".a").GetOr(rest)
  }

  predicate IsDir(tok: string) {
    "-L" <= tok
  }

  predicate Opens(tok: string) {
    "-Wl," <= tok && Contains(tok[4..], "--whole-archive") && !Contains(tok[4..], "--no-whole-archive")
  }

  predicate Closes(tok: string) {
    "-Wl," <= tok && Contains(tok[4..], "--no-whole-archive")
  }

  predicate PassesThrough(tok: string) {
    "-Wl," <= tok && (Contains(tok[4..], "export-dynamic") || Contains(tok[4..], "as-needed"))
  }

  /** The library a `-l` or `-l:` token mentions. */
  function Mention(tok: string): Option<string> {
    if "-l:" <= tok then Some(ExplicitName(tok[3..]))
    else if "-l" <= tok then Some(tok[2..])
    else None
  }

  /** The library a token can add to the output: a mention, or `-pthread`. */
  function Introduces(tok: string): Option<string> {
    if tok == "-pthread" then Some("pthread") else Mention(tok)
  }

  // ----- streams

  function Dirs(toks: seq<string>): seq<string> {
    if toks == [] then []
    else
      var last := toks[|toks| - 1];
      Dirs(toks[..|toks| - 1]) + if IsDir(last) then [last[2..]] else []
  }

  /** A whole-archive region is open just before position `i`. */
  ghost predicate Open(toks: seq<string>, i: nat)
    requires i <= |toks|
  {
    exists j :: 0 <= j < i && Opens(toks[j]) && forall k :: j < k < i ==> !Closes(toks[k])
  }

  ghost predicate MentionedInRegion(toks: seq<string>, name: string) {
    exists i :: 0 <= i < |toks| && Mention(toks[i]) == Some(name) && Open(toks, i)
  }

  ghost predicate Introduced(toks: seq<string>, name: string) {
    exists i :: 0 <= i < |toks| && Introduces(toks[i]) == Some(name)
  }

  /** Token `i` is the first to introduce its library. */
  ghost predicate IsFirst(toks: seq<string>, i: nat)
    requires i < |toks|
  {
    && Introduces(toks[i]).Some?
    && forall j :: 0 <= j < i ==> Introduces(toks[j]) != Introduces(toks[i])
  }

  /** The kind of the library first introduced by token `i`, judged over ALL tokens. */
  ghost function KindOf(env: Env, toks: seq<string>, i: nat): LinkKind
    requires i < |toks| && Introduces(toks[i]).Some?
  {
    var name := Introduces(toks[i]).value;
    if toks[i] == "-pthread" || !env.HasStatic(name) then Default
    else if env.Forced(name) || MentionedInRegion(toks, name) then WholeArchive
    else Static
  }

  /** What token `i` contributes to the output. */
  ghost function EntryAt(env: Env, toks: seq<string>, i: nat): seq<LinkerFlag>
    requires i < |toks|
  {
    if IsDir(toks[i]) then [SearchPath(toks[i][2..])]
    else if PassesThrough(toks[i]) then [LinkerArg(toks[i])]
    else if IsFirst(toks, i) then [Library(Introduces(toks[i]).value, KindOf(env, toks, i))]
    else []
  }

  /** The contributions of the first `n` tokens, each judged over all tokens. */
  ghost function Entries(env: Env, toks: seq<string>, n: nat): seq<LinkerFlag>
    requires n <= |toks|
  {
    if n == 0 then [] else Entries(env, toks, n - 1) + EntryAt(env, toks, n - 1)
  }

  ghost function LinkFlags(env: Env, toks: seq<string>): seq<LinkerFlag> {
    Entries(env, toks, |toks|)
  }

  /** The meaning of a whole parse: the search directories come from the stream itself. */
  ghost function ParseMeaning(cfg: Config, archiveIn: ArchiveOracle, toks: seq<string>): seq<LinkerFlag> {
    LinkFlags(Env(cfg, archiveIn, Dirs(toks)), toks)
  }

  // ----- one step of the single pass, without its caches

  ghost predicate HasLibrary(flags: seq<LinkerFlag>, name: string) {
    exists i :: 0 <= i < |flags| && flags[i].Library? && flags[i].name == name
  }

  ghost predicate DistinctLibraries(flags: seq<LinkerFlag>) {
    forall i, j :: 0 <= i < j < |flags| && flags[i].Library? && flags[j].Library? ==>
      flags[i].name != flags[j].name
  }

  function Promote(flag: LinkerFlag, name: string): LinkerFlag {
    if flag == Library(name, Static) then Library(name, WholeArchive) else flag
  }

  function PromoteAll(flags: seq<LinkerFlag>, name: string): (r: seq<LinkerFlag>)
    ensures |r| == |flags|
    ensures forall i :: 0 <= i < |flags| ==> r[i] == Promote(flags[i], name)
  {
    seq(|flags|, i requires 0 <= i < |flags| => Promote(flags[i], name))
  }

  function NewKind(env: Env, name: string, region: bool): LinkKind {
    if !env.HasStatic(name) then Default
    else if region || env.Forced(name) then WholeArchive
    else Static
  }

  /** The effect of one mention on the flags emitted so far. */
  ghost function Mentioned(env: Env, flags: seq<LinkerFlag>, name: string, region: bool): seq<LinkerFlag> {
    if !HasLibrary(flags, name) then flags + [Library(name, NewKind(env, name, region))]
    else if region then PromoteAll(flags, name)
    else flags
  }

  /** The effect of one token. */
  ghost function Step(env: Env, flags: seq<LinkerFlag>, tok: string, region: bool): seq<LinkerFlag> {
    if IsDir(tok) then flags + [SearchPath(tok[2..])]
    else if PassesThrough(tok) then flags + [LinkerArg(tok)]
    else if tok == "-pthread" then
      if HasLibrary(flags, "pthread") then flags else flags + [Library("pthread", Default)]
    else if Mention(tok).Some? then Mentioned(env, flags, Mention(tok).value, region)
    else flags
  }
}
