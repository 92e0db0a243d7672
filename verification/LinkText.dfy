/** The output of a parse in terms of the text alone: which token stands behind each entry, in which
    order, and what decides each library's kind. */
module LinkText {
  import opened Strings
  import opened LinkSpec
  import opened LinkTheorems
  import opened LinkRules
  import Paths
  import R = LinkRefinement

  // ----- what a token writes

  /** The ways to write a library. */
  predicate Spells(tok: string, name: string) {
    || (tok == "-l" + name && !(":" <= name))
    || tok == "-l:" + ("lib" + name + ".a")
    || (tok == "-l:" + (name + ".a") && !("lib" <= name))
    || (tok == "-l:" + name && !HasSuffix(name, ".a"))
    || (tok == "-pthread" && name == "pthread")
  }

  predicate SpellsArg(tok: string) {
    "-Wl," <= tok && (Contains(tok[4..], "export-dynamic") || Contains(tok[4..], "as-needed"))
  }

  lemma SpellingsMention(tok: string, name: string)
    requires Spells(tok, name)
    ensures Introduces(tok) == Some(name)
  {
    if tok == "-pthread" {
      PthreadIsNoMention(name);
    } else if tok == "-l" + name && !(":" <= name) {
      PlainSpelling(name);
    } else if tok == "-l:" + ("lib" + name + ".a") {
      ExplicitNameOfArchive(name);
    } else {
      var rest := tok[3..];
      assert tok == "-l:" + rest;
      assert rest == name + ".a" || rest == name;
      if rest == name + ".a" && !("lib" <= name) {
        ShortOfLib(name);
      } else {
        ExplicitNameKept(rest);
      }
    }
  }

  lemma PlainSpelling(name: string)
    requires !(":" <= name)
    ensures Mention("-l" + name) == Some(name) && "-l" + name != "-pthread"
  {
    var tok := "-l" + name;
    assert tok[2..] == name && tok[1] == 'l' && "-pthread"[1] == 'p';
    R.DisjointTokens(tok);
    PrefixInTail("-l", name, ":");
    assert "-l" + ":" == "-l:";
  }

  /** `-pthread` is written as no mention is. */
  lemma PthreadIsNoMention(name: string)
    requires Spells("-pthread", name)
    ensures name == "pthread"
  {
    var tok := "-pthread";
    assert tok[1] == 'p';
    assert ("-l" + name)[1] == 'l' && ("-l:" + name)[1] == 'l' && ("-l:" + (name + ".a"))[1] == 'l';
    assert ("-l:" + ("lib" + name + ".a"))[1] == 'l';
  }

  lemma MentionsAreSpelled(tok: string, name: string)
    requires Introduces(tok) == Some(name)
    ensures Spells(tok, name)
  {
    if tok != "-pthread" {
      if "-l:" <= tok {
        ExplicitSpelling(tok[3..]);
        assert tok == "-l:" + tok[3..];
      } else {
        assert tok == "-l" + name;
        PrefixInTail("-l", name, ":");
        assert "-l" + ":" == "-l:";
      }
    }
  }

  lemma ExplicitSpelling(rest: string)
    ensures Spells("-l:" + rest, ExplicitName(rest))
  {
    ExplicitNameKept(rest);
    ShortOfLib(ExplicitName(rest));
  }

  /** A token introduces a library exactly when it is written as that library. */
  lemma IntroducesIsSpells(tok: string, name: string)
    ensures Introduces(tok) == Some(name) <==> Spells(tok, name)
  {
    if Spells(tok, name) {
      SpellingsMention(tok, name);
    }
    if Introduces(tok) == Some(name) {
      MentionsAreSpelled(tok, name);
    }
  }

  // ----- entries and their tokens

  /** The entry is what the token writes; a library's kind is left open. */
  predicate Writes(tok: string, flag: LinkerFlag) {
    match flag
    case SearchPath(path) => tok == "-L" + path
    case LinkerArg(arg) => tok == arg && SpellsArg(arg)
    case Library(name, _) => Spells(tok, name)
  }

  /** The token is a directory, an argument to pass on, or the first to write its library. */
  ghost predicate Contributes(toks: seq<string>, i: nat)
    requires i < |toks|
  {
    || "-L" <= toks[i]
    || SpellsArg(toks[i])
    || exists name :: Spells(toks[i], name) && forall j :: 0 <= j < i ==> !Spells(toks[j], name)
  }

  lemma FirstIsSpelledFirst(toks: seq<string>, i: nat, name: string)
    requires i < |toks|
    ensures IsFirst(toks, i) && Introduces(toks[i]) == Some(name) <==>
            Spells(toks[i], name) && forall j :: 0 <= j < i ==> !Spells(toks[j], name)
  {
    IntroducesIsSpells(toks[i], name);
    forall j | 0 <= j < i
      ensures Introduces(toks[j]) == Some(name) <==> Spells(toks[j], name)
    {
      IntroducesIsSpells(toks[j], name);
    }
  }

  lemma EntryText(env: Env, toks: seq<string>, i: nat)
    requires i < |toks|
    ensures var entry := EntryAt(env, toks, i);
            if Contributes(toks, i) then |entry| == 1 && Writes(toks[i], entry[0]) else entry == []
  {
    forall name
      ensures IsFirst(toks, i) && Introduces(toks[i]) == Some(name) <==>
              Spells(toks[i], name) && forall j :: 0 <= j < i ==> !Spells(toks[j], name)
    {
      FirstIsSpelledFirst(toks, i, name);
    }
    if IsDir(toks[i]) {
      assert toks[i] == "-L" + toks[i][2..];
    }
  }

  /** The positions of the tokens that contribute, in order. */
  ghost function Origins(toks: seq<string>, n: nat): seq<nat>
    requires n <= |toks|
  {
    if n == 0 then [] else Origins(toks, n - 1) + if Contributes(toks, n - 1) then [n - 1] else []
  }

  /** Entry `k` is what token `os[k]` writes; `os` are all the contributing tokens in order. */
  ghost predicate InTokenOrder(flags: seq<LinkerFlag>, os: seq<nat>, toks: seq<string>, n: nat)
    requires n <= |toks|
  {
    && |flags| == |os|
    && (forall j, k :: 0 <= j < k < |os| ==> os[j] < os[k])
    && (forall k :: 0 <= k < |os| ==> os[k] < n && Contributes(toks, os[k]) && Writes(toks[os[k]], flags[k]))
    && (forall i: nat :: i < n && Contributes(toks, i) ==> i in os)
  }

  lemma OrderStep(flags: seq<LinkerFlag>, os: seq<nat>, toks: seq<string>, n: nat, entry: seq<LinkerFlag>)
    requires n < |toks| && InTokenOrder(flags, os, toks, n)
    requires if Contributes(toks, n) then |entry| == 1 && Writes(toks[n], entry[0]) else entry == []
    ensures InTokenOrder(flags + entry, os + if Contributes(toks, n) then [n] else [], toks, n + 1)
  {
    if Contributes(toks, n) {
      assert (os + [n])[|os|] == n;
      assert forall i :: i in os ==> i in os + [n];
    } else {
      assert flags + entry == flags && os + [] == os;
    }
  }

  lemma {:induction false} EntriesInOrder(env: Env, toks: seq<string>, n: nat)
    requires n <= |toks|
    ensures InTokenOrder(Entries(env, toks, n), Origins(toks, n), toks, n)
  {
    if n > 0 {
      EntriesInOrder(env, toks, n - 1);
      EntryText(env, toks, n - 1);
      OrderStep(Entries(env, toks, n - 1), Origins(toks, n - 1), toks, n - 1, EntryAt(env, toks, n - 1));
    }
  }

  /** The output has one entry for each directory, each argument passed on and each first writing of
      a library, in the order of the tokens, and each entry is what its token writes. */
  lemma OutputOrder(cfg: Config, archiveIn: ArchiveOracle, toks: seq<string>)
    ensures InTokenOrder(ParseMeaning(cfg, archiveIn, toks), Origins(toks, |toks|), toks, |toks|)
  {
    EntriesInOrder(Env(cfg, archiveIn, Dirs(toks)), toks, |toks|);
  }

  lemma EntryOfToken(cfg: Config, archiveIn: ArchiveOracle, toks: seq<string>, i: nat) returns (flag: LinkerFlag)
    requires i < |toks| && Contributes(toks, i)
    ensures flag in ParseMeaning(cfg, archiveIn, toks) && Writes(toks[i], flag)
  {
    OutputOrder(cfg, archiveIn, toks);
    var flags, os := ParseMeaning(cfg, archiveIn, toks), Origins(toks, |toks|);
    var k :| 0 <= k < |os| && os[k] == i;
    flag := flags[k];
  }

  lemma TokenOfEntry(cfg: Config, archiveIn: ArchiveOracle, toks: seq<string>, flag: LinkerFlag) returns (tok: string)
    requires flag in ParseMeaning(cfg, archiveIn, toks)
    ensures tok in toks && Writes(tok, flag)
  {
    OutputOrder(cfg, archiveIn, toks);
    var flags, os := ParseMeaning(cfg, archiveIn, toks), Origins(toks, |toks|);
    var k :| 0 <= k < |flags| && flags[k] == flag;
    tok := toks[os[k]];
  }

  /** What a token writes is decided by its first characters. */
  lemma WritesApart(tok: string, flag: LinkerFlag)
    requires Writes(tok, flag)
    ensures flag.SearchPath? <==> "-L" <= tok
    ensures flag.LinkerArg? <==> SpellsArg(tok)
  {
    R.DisjointTokens(tok);
    if flag.Library? {
      SpellingsMention(tok, flag.name);
    }
  }

  /** The search paths are the texts behind `-L`. */
  lemma SearchPathRule(cfg: Config, archiveIn: ArchiveOracle, toks: seq<string>, path: string)
    ensures SearchPath(path) in ParseMeaning(cfg, archiveIn, toks) <==> "-L" + path in toks
  {
    if SearchPath(path) in ParseMeaning(cfg, archiveIn, toks) {
      var tok := TokenOfEntry(cfg, archiveIn, toks, SearchPath(path));
    }
    if "-L" + path in toks {
      var i :| 0 <= i < |toks| && toks[i] == "-L" + path;
      assert "-L" <= toks[i];
      var flag := EntryOfToken(cfg, archiveIn, toks, i);
      WritesApart(toks[i], flag);
      SameSplit("-L", path, "-L", flag.path);
    }
  }

  /** The arguments passed on are the `-Wl,` tokens that hold `export-dynamic` or `as-needed`. */
  lemma LinkerArgRule(cfg: Config, archiveIn: ArchiveOracle, toks: seq<string>, arg: string)
    ensures LinkerArg(arg) in ParseMeaning(cfg, archiveIn, toks) <==>
            arg in toks && "-Wl," <= arg
            && (Contains(arg[4..], "export-dynamic") || Contains(arg[4..], "as-needed"))
  {
    if LinkerArg(arg) in ParseMeaning(cfg, archiveIn, toks) {
      var tok := TokenOfEntry(cfg, archiveIn, toks, LinkerArg(arg));
    }
    if arg in toks && SpellsArg(arg) {
      var i :| 0 <= i < |toks| && toks[i] == arg;
      var flag := EntryOfToken(cfg, archiveIn, toks, i);
      WritesApart(toks[i], flag);
    }
  }

  /** The libraries are the names written. */
  lemma LibraryRule(cfg: Config, archiveIn: ArchiveOracle, toks: seq<string>, name: string)
    ensures HasLibrary(ParseMeaning(cfg, archiveIn, toks), name) <==> exists tok :: tok in toks && Spells(tok, name)
    ensures DistinctLibraries(ParseMeaning(cfg, archiveIn, toks))
  {
    LibrariesAreDeclared(Env(cfg, archiveIn, Dirs(toks)), toks, name, Default);
    R.LibrariesOfEntries(Env(cfg, archiveIn, Dirs(toks)), toks, |toks|, name);
    assert toks[..|toks|] == toks;
    if Introduced(toks, name) {
      var i :| 0 <= i < |toks| && Introduces(toks[i]) == Some(name);
      IntroducesIsSpells(toks[i], name);
    }
    if exists tok :: tok in toks && Spells(tok, name) {
      var i :| 0 <= i < |toks| && Spells(toks[i], name);
      IntroducesIsSpells(toks[i], name);
    }
  }

  // ----- kinds

  lemma {:induction false} DirsInText(toks: seq<string>, dir: string)
    ensures dir in Dirs(toks) <==> "-L" + dir in toks
  {
    if toks != [] {
      var init, last := toks[..|toks| - 1], toks[|toks| - 1];
      DirsInText(init, dir);
      assert toks == init + [last];
      assert IsDir(last) ==> last == "-L" + last[2..];
      assert ("-L" + dir)[2..] == dir && IsDir("-L" + dir);
    }
  }

  /** Some `-L` directory outside the system roots holds the archive. */
  ghost predicate Available(cfg: Config, archiveIn: ArchiveOracle, toks: seq<string>, name: string) {
    exists dir :: "-L" + dir in toks && Provides(cfg, archiveIn, dir, name)
  }

  lemma AvailableIsDetected(cfg: Config, archiveIn: ArchiveOracle, toks: seq<string>, name: string)
    ensures Env(cfg, archiveIn, Dirs(toks)).HasStatic(name) <==> Available(cfg, archiveIn, toks, name)
  {
    forall dir
      ensures dir in Dirs(toks) <==> "-L" + dir in toks
    {
      DirsInText(toks, dir);
    }
    if Env(cfg, archiveIn, Dirs(toks)).HasStatic(name) {
      var dir :| dir in Dirs(toks) && archiveIn(dir, "lib" + name + ".a")
                 && !(exists sys :: sys in cfg.systemRoots && Paths.StartsWith(dir, sys));
      assert Provides(cfg, archiveIn, dir, name);
    }
  }

  /** `-pthread` is written before any other way to write `pthread`. */
  ghost predicate ByPthreadText(toks: seq<string>, name: string) {
    && name == "pthread"
    && exists i :: 0 <= i < |toks| && toks[i] == "-pthread" && forall j :: 0 <= j < i ==> !Spells(toks[j], name)
  }

  lemma ByPthreadIsText(toks: seq<string>, name: string)
    ensures ByPthread(toks, name) <==> ByPthreadText(toks, name)
  {
    forall i | 0 <= i < |toks| && toks[i] == "-pthread" && name == "pthread"
      ensures IsFirst(toks, i) <==> forall j :: 0 <= j < i ==> !Spells(toks[j], name)
    {
      FirstIsSpelledFirst(toks, i, name);
    }
  }

  /** The library is written, other than by `-pthread`, where a region is open. */
  ghost predicate InRegion(toks: seq<string>, name: string) {
    exists i :: 0 <= i < |toks| && Spells(toks[i], name) && toks[i] != "-pthread" && Open(toks, i)
  }

  lemma InRegionIsMentioned(toks: seq<string>, name: string)
    ensures MentionedInRegion(toks, name) <==> InRegion(toks, name)
  {
    forall i | 0 <= i < |toks|
      ensures Mention(toks[i]) == Some(name) <==> Spells(toks[i], name) && toks[i] != "-pthread"
    {
      IntroducesIsSpells(toks[i], name);
      R.DisjointTokens(toks[i]);
    }
  }

  /** The kind of every library of an output. */
  lemma KindRule(cfg: Config, archiveIn: ArchiveOracle, toks: seq<string>, name: string, kind: LinkKind)
    requires Library(name, kind) in ParseMeaning(cfg, archiveIn, toks)
    ensures kind == Default <==> ByPthreadText(toks, name) || !Available(cfg, archiveIn, toks, name)
    ensures kind == WholeArchive <==>
            && !ByPthreadText(toks, name) && Available(cfg, archiveIn, toks, name)
            && (name in cfg.forceWholeArchive || InRegion(toks, name))
  {
    AvailableIsDetected(cfg, archiveIn, toks, name);
    ByPthreadIsText(toks, name);
    InRegionIsMentioned(toks, name);
    LibrariesAreDeclared(Env(cfg, archiveIn, Dirs(toks)), toks, name, kind);
  }

  /** Archives under system roots do not count ... */
  lemma SystemArchivesIgnored(cfg: Config, archiveIn: ArchiveOracle, toks: seq<string>, name: string, kind: LinkKind)
    requires forall dir :: "-L" + dir in toks && archiveIn(dir, "lib" + name + ".a") ==>
               exists sys :: sys in cfg.systemRoots && Paths.StartsWith(dir, sys)
    requires Library(name, kind) in ParseMeaning(cfg, archiveIn, toks)
    ensures kind == Default
  {
    KindRule(cfg, archiveIn, toks, name, kind);
  }

  /** ... and one other archive is enough, whichever of the directories holds it. */
  lemma OneArchiveCounts(cfg: Config, archiveIn: ArchiveOracle, toks: seq<string>, dir: string,
                         name: string, kind: LinkKind)
    requires "-L" + dir in toks && Provides(cfg, archiveIn, dir, name) && !ByPthreadText(toks, name)
    requires Library(name, kind) in ParseMeaning(cfg, archiveIn, toks)
    ensures kind != Default
  {
    KindRule(cfg, archiveIn, toks, name, kind);
  }

  /** A forced library with an archive is linked whole wherever it is mentioned. */
  lemma ForcedIsWhole(cfg: Config, archiveIn: ArchiveOracle, toks: seq<string>, dir: string, tok: string, name: string)
    requires "-L" + dir in toks && Provides(cfg, archiveIn, dir, name) && !ByPthreadText(toks, name)
    requires name in cfg.forceWholeArchive && tok in toks && Spells(tok, name)
    ensures Library(name, WholeArchive) in ParseMeaning(cfg, archiveIn, toks)
  {
    LibraryRule(cfg, archiveIn, toks, name);
    var flags := ParseMeaning(cfg, archiveIn, toks);
    var i :| 0 <= i < |flags| && flags[i].Library? && flags[i].name == name;
    KindRule(cfg, archiveIn, toks, name, flags[i].kind);
    assert Provides(cfg, archiveIn, dir, name);
  }

  /** When every `-L` directory lies below one system root, every library is left to the linker. */
  lemma BelowRootIsDefault(cfg: Config, archiveIn: ArchiveOracle, toks: seq<string>, root: string,
                           name: string, kind: LinkKind)
    requires root in cfg.systemRoots && root != ""
    requires forall dir :: "-L" + dir in toks ==> exists rest :: dir == root + ['/'] + rest
    requires Library(name, kind) in ParseMeaning(cfg, archiveIn, toks)
    ensures kind == Default
  {
    forall dir | "-L" + dir in toks
      ensures Paths.StartsWith(dir, root)
    {
      var rest :| dir == root + ['/'] + rest;
      Paths.ChildIsUnder(root, rest);
    }
    SystemArchivesIgnored(cfg, archiveIn, toks, name, kind);
  }

  /** A directory that only begins like the root is none of its: with `/usr` as the only root, an
      archive in `/usr2` counts. */
  lemma BesideRootCounts(cfg: Config, archiveIn: ArchiveOracle, toks: seq<string>, parent: string, last: string,
                         suffix: string, name: string, kind: LinkKind)
    requires last != "" && last != "." && suffix != "" && '/' !in last && '/' !in suffix
    requires cfg.systemRoots == [parent + ['/'] + last]
    requires "-L" + (parent + ['/'] + (last + suffix)) in toks
    requires archiveIn(parent + ['/'] + (last + suffix), "lib" + name + ".a")
    requires !ByPthreadText(toks, name) && Library(name, kind) in ParseMeaning(cfg, archiveIn, toks)
    ensures kind != Default
  {
    Paths.SiblingIsNotUnder(parent, last, suffix);
    OneArchiveCounts(cfg, archiveIn, toks, parent + ['/'] + (last + suffix), name, kind);
  }
}
