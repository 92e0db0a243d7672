/** What the meaning of a parse promises: kinds, monotonicity in the settings, growth along the
    stream, and which changes to the stream leave the libraries alone. */
module LinkTheorems {
  import opened Strings
  import opened LinkSpec
  import R = LinkRefinement

  // ----- kinds

  /** `-pthread` comes before every mention of `pthread`. */
  ghost predicate ByPthread(toks: seq<string>, name: string) {
    name == "pthread" && exists i :: 0 <= i < |toks| && toks[i] == "-pthread" && IsFirst(toks, i)
  }

  ghost function DeclaredKind(env: Env, toks: seq<string>, name: string): LinkKind {
    if ByPthread(toks, name) || !env.HasStatic(name) then Default
    else if env.Forced(name) || MentionedInRegion(toks, name) then WholeArchive
    else Static
  }

  lemma FirstIsUnique(toks: seq<string>, i: nat, j: nat)
    requires i < |toks| && j < |toks| && IsFirst(toks, i) && IsFirst(toks, j)
    requires Introduces(toks[i]) == Introduces(toks[j])
    ensures i == j
  {
  }

  lemma KindIsDeclared(env: Env, toks: seq<string>, i: nat)
    requires i < |toks| && IsFirst(toks, i)
    ensures KindOf(env, toks, i) == DeclaredKind(env, toks, Introduces(toks[i]).value)
  {
    var name := Introduces(toks[i]).value;
    if ByPthread(toks, name) {
      var j :| 0 <= j < |toks| && toks[j] == "-pthread" && IsFirst(toks, j);
      FirstIsUnique(toks, i, j);
    }
  }

  lemma {:induction false} LibraryFromToken(env: Env, toks: seq<string>, n: nat, flag: LinkerFlag)
    requires n <= |toks| && flag in Entries(env, toks, n) && flag.Library?
    ensures flag == Library(flag.name, DeclaredKind(env, toks, flag.name))
  {
    if flag in Entries(env, toks, n - 1) {
      LibraryFromToken(env, toks, n - 1, flag);
    } else {
      KindIsDeclared(env, toks, n - 1);
    }
  }

  /** The libraries of the output are the introduced names, each once, with the declared kind. */
  lemma LibrariesAreDeclared(env: Env, toks: seq<string>, name: string, kind: LinkKind)
    ensures Library(name, kind) in LinkFlags(env, toks) <==>
            Introduced(toks, name) && kind == DeclaredKind(env, toks, name)
    ensures DistinctLibraries(LinkFlags(env, toks))
  {
    var flags := LinkFlags(env, toks);
    R.LibrariesOfEntries(env, toks, |toks|, name);
    assert toks[..|toks|] == toks;
    if Library(name, kind) in flags {
      LibraryFromToken(env, toks, |toks|, Library(name, kind));
      var i :| 0 <= i < |flags| && flags[i] == Library(name, kind);
    }
    if Introduced(toks, name) {
      var i :| 0 <= i < |flags| && flags[i].Library? && flags[i].name == name;
      LibraryFromToken(env, toks, |toks|, flags[i]);
    }
    R.ReplayIsMeaning(env, toks);
    ReplayDistinct(env, toks);
  }

  lemma {:induction false} ReplayDistinct(env: Env, toks: seq<string>)
    ensures DistinctLibraries(R.Replay(env, toks))
  {
    if toks != [] {
      ReplayDistinct(env, toks[..|toks| - 1]);
    }
  }

  // ----- two runs that differ in a setting

  ghost predicate Raised(flags: seq<LinkerFlag>, after: seq<LinkerFlag>, names: set<string>) {
    |flags| == |after| && forall i :: 0 <= i < |flags| ==>
      after[i] == flags[i]
      || (flags[i].Library? && flags[i].kind == Static && flags[i].name in names
          && after[i] == flags[i].(kind := WholeArchive))
  }

  lemma ForcedEntry(env: Env, forced: set<string>, toks: seq<string>, i: nat)
    requires i < |toks| && env.cfg.forceWholeArchive <= forced
    ensures var more := env.(cfg := env.cfg.(forceWholeArchive := forced));
            Raised(EntryAt(env, toks, i), EntryAt(more, toks, i), forced - env.cfg.forceWholeArchive)
  {
    var more := env.(cfg := env.cfg.(forceWholeArchive := forced));
    assert forall name :: more.HasStatic(name) <==> env.HasStatic(name);
  }

  lemma RaisedAppend(a: seq<LinkerFlag>, b: seq<LinkerFlag>, c: seq<LinkerFlag>, d: seq<LinkerFlag>, names: set<string>)
    requires Raised(a, b, names) && Raised(c, d, names)
    ensures Raised(a + c, b + d, names)
  {
  }

  lemma {:induction false} ForcedEntries(env: Env, forced: set<string>, toks: seq<string>, n: nat)
    requires n <= |toks| && env.cfg.forceWholeArchive <= forced
    ensures var more := env.(cfg := env.cfg.(forceWholeArchive := forced));
            Raised(Entries(env, toks, n), Entries(more, toks, n), forced - env.cfg.forceWholeArchive)
  {
    if n > 0 {
      var more := env.(cfg := env.cfg.(forceWholeArchive := forced));
      ForcedEntries(env, forced, toks, n - 1);
      ForcedEntry(env, forced, toks, n - 1);
      RaisedAppend(Entries(env, toks, n - 1), Entries(more, toks, n - 1), EntryAt(env, toks, n - 1),
                   EntryAt(more, toks, n - 1), forced - env.cfg.forceWholeArchive);
    }
  }

  /** Forcing more libraries keeps names and order, and only turns newly forced `Static`
      libraries into `WholeArchive`. */
  lemma ForceIsMonotone(cfg: Config, forced: set<string>, archiveIn: ArchiveOracle, toks: seq<string>)
    requires cfg.forceWholeArchive <= forced
    ensures Raised(ParseMeaning(cfg, archiveIn, toks),
                   ParseMeaning(cfg.(forceWholeArchive := forced), archiveIn, toks),
                   forced - cfg.forceWholeArchive)
  {
    ForcedEntries(Env(cfg, archiveIn, Dirs(toks)), forced, toks, |toks|);
  }

  ghost predicate Lowered(flags: seq<LinkerFlag>, after: seq<LinkerFlag>) {
    |flags| == |after| && forall i :: 0 <= i < |flags| ==>
      after[i] == flags[i] || (flags[i].Library? && after[i] == flags[i].(kind := Default))
  }

  lemma StaticShrinks(cfg: Config, roots: seq<string>, archiveIn: ArchiveOracle, name: string, dirs: seq<string>)
    requires forall r :: r in cfg.systemRoots ==> r in roots
    requires IsStaticAvailable(cfg.(systemRoots := roots), archiveIn, name, dirs)
    ensures IsStaticAvailable(cfg, archiveIn, name, dirs)
  {
  }

  lemma RootedEntry(env: Env, roots: seq<string>, toks: seq<string>, i: nat)
    requires i < |toks| && forall r :: r in env.cfg.systemRoots ==> r in roots
    ensures Lowered(EntryAt(env, toks, i), EntryAt(env.(cfg := env.cfg.(systemRoots := roots)), toks, i))
  {
    if Introduces(toks[i]).Some? {
      var name := Introduces(toks[i]).value;
      if IsStaticAvailable(env.cfg.(systemRoots := roots), env.archiveIn, name, env.dirs) {
        StaticShrinks(env.cfg, roots, env.archiveIn, name, env.dirs);
      }
    }
  }

  lemma LoweredAppend(a: seq<LinkerFlag>, b: seq<LinkerFlag>, c: seq<LinkerFlag>, d: seq<LinkerFlag>)
    requires Lowered(a, b) && Lowered(c, d)
    ensures Lowered(a + c, b + d)
  {
  }

  lemma {:induction false} RootedEntries(env: Env, roots: seq<string>, toks: seq<string>, n: nat)
    requires n <= |toks| && forall r :: r in env.cfg.systemRoots ==> r in roots
    ensures Lowered(Entries(env, toks, n), Entries(env.(cfg := env.cfg.(systemRoots := roots)), toks, n))
  {
    if n > 0 {
      var rooted := env.(cfg := env.cfg.(systemRoots := roots));
      RootedEntries(env, roots, toks, n - 1);
      RootedEntry(env, roots, toks, n - 1);
      LoweredAppend(Entries(env, toks, n - 1), Entries(rooted, toks, n - 1),
                    EntryAt(env, toks, n - 1), EntryAt(rooted, toks, n - 1));
    }
  }

  /** More system roots keep names and order, and only turn kinds into `Default`. */
  lemma RootsAreMonotone(cfg: Config, roots: seq<string>, archiveIn: ArchiveOracle, toks: seq<string>)
    requires forall r :: r in cfg.systemRoots ==> r in roots
    ensures Lowered(ParseMeaning(cfg, archiveIn, toks), ParseMeaning(cfg.(systemRoots := roots), archiveIn, toks))
  {
    RootedEntries(Env(cfg, archiveIn, Dirs(toks)), roots, toks, |toks|);
  }

  // ----- reading on

  /** Earlier entries stay where they are; a kind can only go from `Static` to `WholeArchive`. */
  ghost predicate Grown(flags: seq<LinkerFlag>, after: seq<LinkerFlag>) {
    |flags| <= |after| && forall i :: 0 <= i < |flags| ==>
      after[i] == flags[i]
      || (flags[i].Library? && flags[i].kind == Static && after[i] == flags[i].(kind := WholeArchive))
  }

  /** With the search directories fixed, more tokens only append entries and promote. */
  lemma {:induction false} ReadingOnGrows(env: Env, a: seq<string>, b: seq<string>)
    ensures Grown(LinkFlags(env, a), LinkFlags(env, a + b))
    decreases |b|
  {
    if b == [] {
      assert a + b == a;
    } else {
      var init, last := b[..|b| - 1], b[|b| - 1];
      ReadingOnGrows(env, a, init);
      R.LinkFlagsStep(env, a + init, last);
      assert a + init + [last] == a + b;
    }
  }

  // ----- rearranging the stream

  ghost function Libraries(flags: seq<LinkerFlag>): seq<LinkerFlag> {
    if flags == [] then []
    else
      var last := flags[|flags| - 1];
      Libraries(flags[..|flags| - 1]) + if last.Library? then [last] else []
  }

  ghost function WithoutDirs(toks: seq<string>): seq<string> {
    if toks == [] then []
    else
      var last := toks[|toks| - 1];
      WithoutDirs(toks[..|toks| - 1]) + if IsDir(last) then [] else [last]
  }

  lemma LibrariesSnoc(flags: seq<LinkerFlag>, flag: LinkerFlag)
    ensures Libraries(flags + [flag]) == Libraries(flags) + if flag.Library? then [flag] else []
  {
    assert (flags + [flag])[..|flags|] == flags;
  }

  lemma {:induction false} LibrariesHave(flags: seq<LinkerFlag>, name: string)
    ensures HasLibrary(Libraries(flags), name) <==> HasLibrary(flags, name)
  {
    if flags != [] {
      var init, last := flags[..|flags| - 1], flags[|flags| - 1];
      LibrariesHave(init, name);
      assert flags == init + [last];
      R.HasLibraryAppend(init, [last], name);
      R.HasLibraryAppend(Libraries(init), if last.Library? then [last] else [], name);
      assert [last][0] == last;
    }
  }

  lemma {:induction false} LibrariesPromote(flags: seq<LinkerFlag>, name: string)
    ensures Libraries(PromoteAll(flags, name)) == PromoteAll(Libraries(flags), name)
  {
    if flags != [] {
      var init, last := flags[..|flags| - 1], flags[|flags| - 1];
      LibrariesPromote(init, name);
      LibrariesSnoc(PromoteAll(init, name), Promote(last, name));
      assert PromoteAll(flags, name) == PromoteAll(init, name) + [Promote(last, name)];
    }
  }

  /** The libraries evolve on their own, whatever else the output holds. */
  lemma LibrariesOfStep(env: Env, flags: seq<LinkerFlag>, tok: string, region: bool)
    ensures Libraries(Step(env, flags, tok, region)) ==
            if Introduces(tok).Some? then Step(env, Libraries(flags), tok, region) else Libraries(flags)
  {
    R.DisjointTokens(tok);
    LibrariesSnoc(flags, SearchPath(if IsDir(tok) then tok[2..] else ""));
    LibrariesSnoc(flags, LinkerArg(tok));
    if Introduces(tok).Some? {
      var name := Introduces(tok).value;
      LibrariesHave(flags, name);
      LibrariesPromote(flags, name);
      LibrariesSnoc(flags, Library(name, if tok == "-pthread" then Default else NewKind(env, name, region)));
    }
  }

  lemma LibrariesOfReplay(env: Env, toks: seq<string>, tok: string)
    ensures Libraries(R.Replay(env, toks + [tok])) ==
            if Introduces(tok).Some? then Step(env, Libraries(R.Replay(env, toks)), tok, Open(toks, |toks|))
            else Libraries(R.Replay(env, toks))
  {
    assert (toks + [tok])[..|toks|] == toks;
    LibrariesOfStep(env, R.Replay(env, toks), tok, Open(toks, |toks|));
  }

  /** What a stream has led to: the libraries so far, and whether a region is open. */
  ghost function Outcome(env: Env, toks: seq<string>): (seq<LinkerFlag>, bool) {
    (Libraries(R.Replay(env, toks)), Open(toks, |toks|))
  }

  /** The outcome after one more token depends on the outcome before it, and not on `-L` tokens. */
  lemma OutcomeSnoc(env: Env, a: seq<string>, b: seq<string>, tok: string)
    requires Outcome(env, a) == Outcome(env, b)
    ensures Outcome(env, a + [tok]) == Outcome(env, b + [tok])
    ensures IsDir(tok) ==> Outcome(env, a + [tok]) == Outcome(env, a)
  {
    LibrariesOfReplay(env, a, tok);
    LibrariesOfReplay(env, b, tok);
    R.OpenSnoc(a, tok);
    R.OpenSnoc(b, tok);
    R.DisjointTokens(tok);
  }

  ghost predicate IgnoresDirs<T(!new)>(f: seq<string> -> T, a: seq<string>, b: seq<string>, tok: string) {
    && (f(a) == f(b) ==> f(a + [tok]) == f(b + [tok]))
    && (IsDir(tok) ==> f(a + [tok]) == f(a))
  }

  lemma WithoutDirsSnoc(toks: seq<string>, tok: string)
    ensures WithoutDirs(toks + [tok]) == if IsDir(tok) then WithoutDirs(toks) else WithoutDirs(toks) + [tok]
  {
    assert (toks + [tok])[..|toks|] == toks;
  }

  /** What goes from token to token and ignores `-L` tokens is decided by the others. */
  lemma {:induction false} IgnoringDirs<T(!new)>(f: seq<string> -> T, toks: seq<string>)
    requires forall a, b, tok :: IgnoresDirs(f, a, b, tok)
    ensures f(toks) == f(WithoutDirs(toks))
  {
    if toks != [] {
      var init, last := toks[..|toks| - 1], toks[|toks| - 1];
      IgnoringDirs(f, init);
      assert toks == init + [last];
      WithoutDirsSnoc(init, last);
      assert IgnoresDirs(f, init, WithoutDirs(init), last);
    }
  }

  /** `-L` tokens matter to the libraries only through the set of directories. */
  lemma DirTokensAreIdle(env: Env, toks: seq<string>)
    ensures Outcome(env, toks) == Outcome(env, WithoutDirs(toks))
  {
    ghost var f := (ts: seq<string>) => Outcome(env, ts);
    forall a, b, tok
      ensures IgnoresDirs(f, a, b, tok)
    {
      if Outcome(env, a) == Outcome(env, b) {
        OutcomeSnoc(env, a, b, tok);
      }
      OutcomeSnoc(env, a, a, tok);
    }
    IgnoringDirs(f, toks);
  }

  lemma {:induction false} SameAvailability(env: Env, other: Env, toks: seq<string>)
    requires env.cfg == other.cfg && forall name :: env.HasStatic(name) <==> other.HasStatic(name)
    ensures R.Replay(env, toks) == R.Replay(other, toks)
  {
    if toks != [] {
      SameAvailability(env, other, toks[..|toks| - 1]);
    }
  }

  /** Moving, repeating or merging `-L` tokens changes no library: two streams with the same
      other tokens and the same set of directories give the same names, order and kinds. */
  lemma DirsMayMove(cfg: Config, archiveIn: ArchiveOracle, a: seq<string>, b: seq<string>)
    requires WithoutDirs(a) == WithoutDirs(b)
    requires forall d :: d in Dirs(a) <==> d in Dirs(b)
    ensures Libraries(ParseMeaning(cfg, archiveIn, a)) == Libraries(ParseMeaning(cfg, archiveIn, b))
  {
    var envA, envB := Env(cfg, archiveIn, Dirs(a)), Env(cfg, archiveIn, Dirs(b));
    R.ReplayIsMeaning(envA, a);
    R.ReplayIsMeaning(envB, b);
    DirTokensAreIdle(envA, a);
    DirTokensAreIdle(envB, b);
    SameAvailability(envA, envB, WithoutDirs(a));
  }

  // ----- the stream twice over

  lemma {:induction false} DirsAppend(a: seq<string>, b: seq<string>)
    ensures Dirs(a + b) == Dirs(a) + Dirs(b)
    decreases |b|
  {
    if b == [] {
      assert a + b == a;
    } else {
      DirsAppend(a, b[..|b| - 1]);
      assert (a + b)[..|a + b| - 1] == a + b[..|b| - 1];
    }
  }

  lemma {:induction false} LibrariesAppend(a: seq<LinkerFlag>, b: seq<LinkerFlag>)
    ensures Libraries(a + b) == Libraries(a) + Libraries(b)
    decreases |b|
  {
    if b == [] {
      assert a + b == a;
    } else {
      LibrariesAppend(a, b[..|b| - 1]);
      assert (a + b)[..|a + b| - 1] == a + b[..|b| - 1];
    }
  }

  /** No region closes before position `i`. */
  ghost predicate Unclosed(toks: seq<string>, i: nat)
    requires i <= |toks|
  {
    forall k :: 0 <= k < i ==> !Closes(toks[k])
  }

  /** In a second copy a region is also open where the first copy's last one still runs. */
  lemma {:induction false} SecondCopyRegions(toks: seq<string>, twice: seq<string>, i: nat)
    requires twice == toks + toks && i <= |toks|
    ensures Open(twice, |toks| + i) <==> Open(toks, i) || (Open(toks, |toks|) && Unclosed(toks, i))
  {
    if i == 0 {
      R.OpenPrefix(toks, toks, |toks|);
    } else {
      SecondCopyRegions(toks, twice, i - 1);
      RegionStep(toks, twice, i - 1);
    }
  }

  lemma RegionStep(toks: seq<string>, twice: seq<string>, i: nat)
    requires twice == toks + toks && i < |toks|
    ensures Open(twice, |toks| + i + 1) <==> Opens(toks[i]) || (Open(twice, |toks| + i) && !Closes(toks[i]))
    ensures Open(toks, i + 1) <==> Opens(toks[i]) || (Open(toks, i) && !Closes(toks[i]))
    ensures Unclosed(toks, i + 1) <==> Unclosed(toks, i) && !Closes(toks[i])
    ensures !(Opens(toks[i]) && Closes(toks[i]))
  {
    assert twice[|toks| + i] == toks[i];
    R.DisjointTokens(toks[i]);
    R.OpenStep(twice, |toks| + i);
    R.OpenStep(toks, i);
  }

  /** The stream ends inside a region, and the library is mentioned before any region closes. */
  ghost predicate MentionedOnReentry(toks: seq<string>, name: string) {
    && Open(toks, |toks|)
    && exists i :: 0 <= i < |toks| && Mention(toks[i]) == Some(name) && Unclosed(toks, i)
  }

  lemma SecondCopyMentions(toks: seq<string>, name: string)
    ensures MentionedInRegion(toks + toks, name) <==> MentionedInRegion(toks, name) || MentionedOnReentry(toks, name)
  {
    var twice := toks + toks;
    if MentionedInRegion(twice, name) {
      var i :| 0 <= i < |twice| && Mention(twice[i]) == Some(name) && Open(twice, i);
      if i < |toks| {
        R.OpenPrefix(toks, toks, i);
        assert Mention(toks[i]) == Some(name);
      } else {
        SecondCopyRegions(toks, twice, i - |toks|);
        assert Mention(toks[i - |toks|]) == Some(name);
      }
    }
    if MentionedInRegion(toks, name) {
      var i :| 0 <= i < |toks| && Mention(toks[i]) == Some(name) && Open(toks, i);
      R.OpenPrefix(toks, toks, i);
      assert Mention(twice[i]) == Some(name);
    }
    if MentionedOnReentry(toks, name) {
      var i :| 0 <= i < |toks| && Mention(toks[i]) == Some(name) && Unclosed(toks, i);
      SecondCopyRegions(toks, twice, i);
      assert Mention(twice[|toks| + i]) == Some(name);
    }
  }

  /** No library that came out `Static` would be met again inside a region. */
  ghost predicate Settled(env: Env, toks: seq<string>) {
    forall name :: MentionedOnReentry(toks, name) ==> DeclaredKind(env, toks, name) != Static
  }

  lemma FirstCopyEntry(env: Env, toks: seq<string>, n: nat)
    requires n < |toks| && Settled(env, toks)
    ensures EntryAt(env, toks + toks, n) == EntryAt(env, toks, n)
  {
    var twice := toks + toks;
    assert twice[n] == toks[n];
    assert forall j :: 0 <= j < n ==> twice[j] == toks[j];
    assert IsFirst(twice, n) <==> IsFirst(toks, n);
    if IsFirst(toks, n) {
      SecondCopyMentions(toks, Introduces(toks[n]).value);
      KindIsDeclared(env, toks, n);
    }
  }

  lemma {:induction false} FirstCopyEntries(env: Env, toks: seq<string>, n: nat)
    requires n <= |toks| && Settled(env, toks)
    ensures Entries(env, toks + toks, n) == Entries(env, toks, n)
  {
    if n > 0 {
      FirstCopyEntries(env, toks, n - 1);
      FirstCopyEntry(env, toks, n - 1);
    }
  }

  lemma SecondCopyEntry(env: Env, toks: seq<string>, n: nat)
    requires n < |toks|
    ensures Libraries(EntryAt(env, toks + toks, |toks| + n)) == []
  {
    var twice, i := toks + toks, |toks| + n;
    assert twice[i] == toks[n] == twice[n];
    assert !IsFirst(twice, i);
    var entry := EntryAt(env, twice, i);
    assert entry == [] || (|entry| == 1 && !entry[0].Library? && entry[..0] == []);
  }

  /** Token `i` contributes no library. */
  ghost predicate Idle(env: Env, toks: seq<string>, i: nat)
    requires i < |toks|
  {
    Libraries(EntryAt(env, toks, i)) == []
  }

  lemma IdleEntry(env: Env, toks: seq<string>, i: nat)
    requires i < |toks| && Idle(env, toks, i)
    ensures Libraries(Entries(env, toks, i + 1)) == Libraries(Entries(env, toks, i))
  {
    LibrariesAppend(Entries(env, toks, i), EntryAt(env, toks, i));
  }

  lemma {:induction false} Constant<T>(f: nat -> T, m: nat, n: nat)
    requires m <= n && forall i :: m <= i < n ==> f(i + 1) == f(i)
    ensures f(n) == f(m)
  {
    if m < n {
      Constant(f, m, n - 1);
    }
  }

  ghost function LibrariesUpTo(env: Env, toks: seq<string>, n: nat): seq<LinkerFlag> {
    if n <= |toks| then Libraries(Entries(env, toks, n)) else []
  }

  lemma SecondCopyStep(env: Env, toks: seq<string>, twice: seq<string>, i: nat)
    requires twice == toks + toks && |toks| <= i < |twice|
    ensures LibrariesUpTo(env, twice, i + 1) == LibrariesUpTo(env, twice, i)
  {
    SecondCopyEntry(env, toks, i - |toks|);
    assert Idle(env, twice, i);
    IdleEntry(env, twice, i);
  }

  lemma SecondCopySteps(env: Env, toks: seq<string>, twice: seq<string>, f: nat -> seq<LinkerFlag>)
    requires twice == toks + toks && f == ((n: nat) => LibrariesUpTo(env, twice, n))
    ensures forall i :: |toks| <= i < |twice| ==> f(i + 1) == f(i)
  {
    forall i | |toks| <= i < |twice|
      ensures f(i + 1) == f(i)
    {
      SecondCopyStep(env, toks, twice, i);
    }
  }

  lemma SecondCopyIsIdle(env: Env, toks: seq<string>, twice: seq<string>)
    requires twice == toks + toks
    ensures LibrariesUpTo(env, twice, |twice|) == LibrariesUpTo(env, twice, |toks|)
  {
    ghost var f := (n: nat) => LibrariesUpTo(env, twice, n);
    SecondCopySteps(env, toks, twice, f);
    Constant(f, |toks|, |twice|);
  }

  lemma {:induction false} LibrariesContain(flags: seq<LinkerFlag>, flag: LinkerFlag)
    requires flag.Library?
    ensures flag in Libraries(flags) <==> flag in flags
  {
    if flags != [] {
      LibrariesContain(flags[..|flags| - 1], flag);
      assert flags == flags[..|flags| - 1] + [flags[|flags| - 1]];
    }
  }

  lemma UnsettledDiffers(env: Env, toks: seq<string>, name: string)
    requires MentionedOnReentry(toks, name) && DeclaredKind(env, toks, name) == Static
    ensures Library(name, Static) in Libraries(LinkFlags(env, toks))
    ensures Library(name, Static) !in Libraries(LinkFlags(env, toks + toks))
  {
    var i :| 0 <= i < |toks| && Mention(toks[i]) == Some(name) && Unclosed(toks, i);
    R.DisjointTokens(toks[i]);
    assert Introduces(toks[i]) == Some(name);
    SecondCopyMentions(toks, name);
    LibrariesAreDeclared(env, toks, name, Static);
    LibrariesAreDeclared(env, toks + toks, name, Static);
    LibrariesContain(LinkFlags(env, toks), Library(name, Static));
    LibrariesContain(LinkFlags(env, toks + toks), Library(name, Static));
  }

  lemma TwiceInOneEnv(env: Env, toks: seq<string>)
    ensures Libraries(LinkFlags(env, toks + toks)) == Libraries(LinkFlags(env, toks)) <==> Settled(env, toks)
  {
    if Settled(env, toks) {
      FirstCopyEntries(env, toks, |toks|);
      SecondCopyIsIdle(env, toks, toks + toks);
    } else {
      var name :| MentionedOnReentry(toks, name) && DeclaredKind(env, toks, name) == Static;
      UnsettledDiffers(env, toks, name);
    }
  }

  /** Parsing a stream twice over gives the libraries of parsing it once, if and only if no
      `Static` library is met again inside a region that the first copy left open. */
  lemma TwiceIsOnce(cfg: Config, archiveIn: ArchiveOracle, toks: seq<string>)
    ensures Libraries(ParseMeaning(cfg, archiveIn, toks + toks)) == Libraries(ParseMeaning(cfg, archiveIn, toks))
            <==> Settled(Env(cfg, archiveIn, Dirs(toks)), toks)
    ensures !Open(toks, |toks|) ==> Settled(Env(cfg, archiveIn, Dirs(toks)), toks)
  {
    var once, twice := Env(cfg, archiveIn, Dirs(toks)), Env(cfg, archiveIn, Dirs(toks + toks));
    DirsAppend(toks, toks);
    assert forall name :: once.HasStatic(name) <==> twice.HasStatic(name);
    R.ReplayIsMeaning(once, toks + toks);
    R.ReplayIsMeaning(twice, toks + toks);
    SameAvailability(once, twice, toks + toks);
    TwiceInOneEnv(once, toks);
  }
}
