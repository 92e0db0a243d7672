/** Rules that the source documents for link lines: when exactly the code meets them, and an input
    for each on which it does not. */
module LinkRules {
  import opened Strings
  import opened LinkSpec
  import opened LinkTheorems
  import Paths
  import R = LinkRefinement

  // ----- streams with one search directory

  /** The directory holds the library's archive and is under no system root. */
  predicate Provides(cfg: Config, archiveIn: ArchiveOracle, dir: string, name: string) {
    && archiveIn(dir, "lib" + name + ".a")
    && forall sys :: sys in cfg.systemRoots ==> !Paths.StartsWith(dir, sys)
  }

  lemma {:induction false} NoDirs(toks: seq<string>)
    requires forall tok :: tok in toks ==> !IsDir(tok)
    ensures Dirs(toks) == []
  {
    if toks != [] {
      NoDirs(toks[..|toks| - 1]);
    }
  }

  lemma OneDir(cfg: Config, archiveIn: ArchiveOracle, dir: string, rest: seq<string>, name: string)
    requires Provides(cfg, archiveIn, dir, name)
    requires forall tok :: tok in rest ==> !IsDir(tok)
    ensures Env(cfg, archiveIn, Dirs(["-L" + dir] + rest)).HasStatic(name)
  {
    NoDirs(rest);
    DirsAppend(["-L" + dir], rest);
    assert ["-L" + dir][..0] == [] && ("-L" + dir)[2..] == dir;
    assert dir in Dirs(["-L" + dir] + rest);
  }

  lemma DirToken(dir: string)
    ensures IsDir("-L" + dir) && Introduces("-L" + dir).None? && !Opens("-L" + dir) && !Closes("-L" + dir)
  {
    R.DisjointTokens("-L" + dir);
    assert ("-L" + dir)[..2] == "-L";
  }

  lemma PthreadToken()
    ensures !IsDir("-pthread")
  {
    R.DisjointTokens("-pthread");
  }

  lemma MarkerToken(tok: string)
    requires Opens(tok)
    ensures !IsDir(tok) && Introduces(tok).None?
  {
    R.DisjointTokens(tok);
  }

  lemma MentionToken(tok: string)
    requires Mention(tok).Some?
    ensures !IsDir(tok) && Introduces(tok) == Mention(tok) && tok != "-pthread"
  {
    R.DisjointTokens(tok);
  }

  /** A library whose only mention stands outside every region. */
  lemma OnlyMention(env: Env, toks: seq<string>, i: nat, name: string)
    requires i < |toks| && Mention(toks[i]) == Some(name) && !Open(toks, i)
    requires forall j :: 0 <= j < |toks| && j != i ==> Introduces(toks[j]) != Some(name)
    requires env.HasStatic(name) && !env.Forced(name)
    ensures DeclaredKind(env, toks, name) == Static && Library(name, Static) in LinkFlags(env, toks)
  {
    MentionToken(toks[i]);
    if MentionedInRegion(toks, name) {
      var j :| 0 <= j < |toks| && Mention(toks[j]) == Some(name) && Open(toks, j);
      MentionToken(toks[j]);
    }
    LibrariesAreDeclared(env, toks, name, Static);
  }

  // ----- "an archive mentioned inside a region is linked whole"

  /** The rule holds for a library if and only if `-pthread` did not introduce it. */
  lemma WholeArchiveRule(env: Env, toks: seq<string>, name: string)
    requires env.HasStatic(name) && MentionedInRegion(toks, name)
    ensures Library(name, WholeArchive) in LinkFlags(env, toks) <==> !ByPthread(toks, name)
  {
    R.MentionIntroduces(toks, name);
    LibrariesAreDeclared(env, toks, name, WholeArchive);
  }

  lemma PthreadFirst(toks: seq<string>)
    requires |toks| == 4 && Introduces(toks[0]).None? && toks[1] == "-pthread" && Opens(toks[2])
    requires Mention(toks[3]) == Some("pthread")
    ensures MentionedInRegion(toks, "pthread") && ByPthread(toks, "pthread")
  {
    assert Open(toks, 3);
    assert Introduces(toks[1]) == Some("pthread") && IsFirst(toks, 1);
  }

  /** `-pthread`, an opening marker, then a mention: the archive is there and mentioned in a region,
      yet the library is left to the linker. */
  lemma PthreadStays(cfg: Config, archiveIn: ArchiveOracle, dir: string, marker: string, mention: string)
    requires Provides(cfg, archiveIn, dir, "pthread") && Opens(marker) && Mention(mention) == Some("pthread")
    ensures var toks := ["-L" + dir, "-pthread", marker, mention];
            && Env(cfg, archiveIn, Dirs(toks)).HasStatic("pthread")
            && MentionedInRegion(toks, "pthread")
            && Library("pthread", Default) in ParseMeaning(cfg, archiveIn, toks)
            && Library("pthread", WholeArchive) !in ParseMeaning(cfg, archiveIn, toks)
  {
    var toks := ["-L" + dir, "-pthread", marker, mention];
    var env := Env(cfg, archiveIn, Dirs(toks));
    PthreadDirs(cfg, archiveIn, dir, marker, mention);
    assert MentionedInRegion(toks, "pthread") && ByPthread(toks, "pthread") by {
      DirToken(dir);
      PthreadFirst(toks);
    }
    R.MentionIntroduces(toks, "pthread");
    LibrariesAreDeclared(env, toks, "pthread", Default);
    LibrariesAreDeclared(env, toks, "pthread", WholeArchive);
  }

  lemma PthreadDirs(cfg: Config, archiveIn: ArchiveOracle, dir: string, marker: string, mention: string)
    requires Provides(cfg, archiveIn, dir, "pthread") && Opens(marker) && Mention(mention).Some?
    ensures Env(cfg, archiveIn, Dirs(["-L" + dir, "-pthread", marker, mention])).HasStatic("pthread")
  {
    PthreadToken();
    MarkerToken(marker);
    MentionToken(mention);
    OneDir(cfg, archiveIn, dir, ["-pthread", marker, mention], "pthread");
    assert ["-L" + dir, "-pthread", marker, mention] == ["-L" + dir] + ["-pthread", marker, mention];
  }

  /** A parse on which the rule fails. */
  lemma WholeArchiveRuleFails(cfg: Config, archiveIn: ArchiveOracle)
    requires Provides(cfg, archiveIn, "/opt/lib", "pthread")
    ensures var toks := ["-L" + "/opt/lib", "-pthread", "-Wl,--whole-archive", "-lpthread"];
            && Env(cfg, archiveIn, Dirs(toks)).HasStatic("pthread")
            && MentionedInRegion(toks, "pthread")
            && Library("pthread", Default) in ParseMeaning(cfg, archiveIn, toks)
            && Library("pthread", WholeArchive) !in ParseMeaning(cfg, archiveIn, toks)
  {
    MarkerOpens();
    PthreadIsMentioned();
    PthreadStays(cfg, archiveIn, "/opt/lib", "-Wl,--whole-archive", "-lpthread");
  }

  lemma PthreadIsMentioned()
    ensures Mention("-lpthread") == Some("pthread")
  {
    var tok := "-lpthread";
    assert tok[2] == 'p' && tok[2..] == "pthread";
  }

  lemma MarkerOpens()
    ensures Opens("-Wl,--whole-archive")
  {
    var arg, no := "--whole-archive", "--no-whole-archive";
    assert "-Wl,--whole-archive"[4..] == arg;
    assert OccursAt(arg, arg, 0);
    assert |no| > |arg|;
  }

  // ----- "forcing a library overrides the normal detection"

  /** The rule holds for a forced library of the output if and only if its archive was detected and
      `-pthread` did not introduce it; and without regions nothing else is linked whole. */
  lemma ForceRule(env: Env, toks: seq<string>, name: string)
    requires Introduced(toks, name)
    ensures name in env.cfg.forceWholeArchive ==>
              (Library(name, WholeArchive) in LinkFlags(env, toks) <==> env.HasStatic(name) && !ByPthread(toks, name))
    ensures Library(name, WholeArchive) in LinkFlags(env, toks) && name !in env.cfg.forceWholeArchive ==>
              MentionedInRegion(toks, name)
  {
    LibrariesAreDeclared(env, toks, name, WholeArchive);
  }

  /** A parse on which it fails: no directory holds the forced library's archive. */
  lemma ForceRuleFails(cfg: Config, archiveIn: ArchiveOracle)
    requires "foo" in cfg.forceWholeArchive
    ensures var toks := ["-lfoo"];
            && Library("foo", Default) in ParseMeaning(cfg, archiveIn, toks)
            && Library("foo", WholeArchive) !in ParseMeaning(cfg, archiveIn, toks)
  {
    var toks := ["-lfoo"];
    var env := Env(cfg, archiveIn, Dirs(toks));
    FooIsMentioned();
    MentionToken(toks[0]);
    NoDirs(toks);
    assert !env.HasStatic("foo");
    assert Introduced(toks, "foo");
    LibrariesAreDeclared(env, toks, "foo", Default);
    LibrariesAreDeclared(env, toks, "foo", WholeArchive);
  }

  // ----- "a name has no `lib` prefix and no `.a` or `.so` suffix"

  /** `-l:lib<name>.a` and `-l<name>` mention the same library. */
  lemma ExplicitNameOfArchive(name: string)
    ensures ExplicitName("lib" + name + ".a") == name
    ensures Mention("-l:" + ("lib" + name + ".a")) == Some(name)
  {
    var rest := "lib" + name + ".a";
    var tok := "-l:" + rest;
    assert rest[..3] == "lib" && rest[3..] == name + ".a";
    assert tok[3..] == rest;
  }

  /** The name loses its `lib` prefix only together with a `.a` suffix: exactly the file names
      without that suffix are kept whole. */
  lemma ExplicitNameKept(rest: string)
    ensures HasSuffix(rest, ".a") ==>
              (rest == ExplicitName(rest) + ".a" && !("lib" <= rest)) || rest == "lib" + ExplicitName(rest) + ".a"
    ensures ExplicitName(rest) == rest <==> !HasSuffix(rest, ".a")
  {
    if "lib" <= rest {
      var stem := rest[3..];
      assert rest == "lib" + stem;
      assert HasSuffix(rest, ".a") <==> HasSuffix(stem, ".a") by {
        if HasSuffix(rest, ".a") {
          assert rest[|rest| - 2] == '.' && rest[0] == 'l' && rest[1] == 'i' && rest[2] == 'b';
          assert stem[|stem| - 2..] == rest[|rest| - 2..];
        }
        if HasSuffix(stem, ".a") {
          assert stem[|stem| - 2..] == rest[|rest| - 2..];
        }
      }
    }
  }

  predicate Plain(name: string) {
    !("lib" <= name) && !HasSuffix(name, ".a") && !HasSuffix(name, ".so")
  }

  /** What to look at in the token: only after `-l:`, and only together with `.a`, are one `lib` and
      one `.a` taken off. */
  predicate PlainlyWritten(tok: string) {
    if !("-l:" <= tok) then !("-llib" <= tok) && !HasSuffix(tok, ".a") && !HasSuffix(tok, ".so")
    else if HasSuffix(tok, ".a") then
      !("-l:liblib" <= tok) && !HasSuffix(tok, ".a.a") && !HasSuffix(tok, ".so.a")
    else !("-l:lib" <= tok) && !HasSuffix(tok, ".so")
  }

  /** A suffix that starts with a character the head lacks lies in the tail. */
  lemma SuffixInTail(head: string, tail: string, p: string)
    requires p != [] && p[0] !in head
    ensures HasSuffix(head + tail, p) <==> HasSuffix(tail, p)
  {
    var s := head + tail;
    if HasSuffix(s, p) {
      var i := |s| - |p|;
      assert s[i] == p[0];
      assert forall k :: 0 <= k < |head| ==> s[k] in head;
      assert s[i..] == tail[i - |head|..];
    }
    if HasSuffix(tail, p) {
      assert s[|s| - |p|..] == tail[|tail| - |p|..];
    }
  }

  lemma PrefixInTail(head: string, tail: string, p: string)
    ensures head + p <= head + tail <==> p <= tail
  {
    if head + p <= head + tail {
      assert (head + tail)[|head|..] == tail && (head + p)[|head|..] == p;
      assert p == (head + tail)[..|head + p|][|head|..];
    }
  }

  /** The suffixes before a final `.a`. */
  lemma SuffixBefore(stem: string, p: string, q: string)
    ensures HasSuffix(stem + q, p + q) <==> HasSuffix(stem, p)
  {
    var s := stem + q;
    if HasSuffix(s, p + q) {
      SameSplit(s[..|s| - |p + q|] + p, q, stem, q);
    }
    if HasSuffix(stem, p) {
      assert s[|s| - |p + q|..] == stem[|stem| - |p|..] + q;
    }
  }

  lemma PlainMention(tok: string)
    requires Mention(tok).Some?
    ensures Plain(Mention(tok).value) <==> PlainlyWritten(tok)
  {
    if "-l:" <= tok {
      var rest := tok[3..];
      assert tok == "-l:" + rest;
      WrittenAsFile("-l:", rest);
      PlainFileIsPlain(rest);
    } else {
      var name := tok[2..];
      assert tok == "-l" + name;
      SuffixInTail("-l", name, ".a");
      SuffixInTail("-l", name, ".so");
      PrefixInTail("-l", name, "lib");
      assert "-l" + "lib" == "-llib";
    }
  }

  /** The condition after `-l:`. */
  predicate PlainFile(rest: string) {
    if HasSuffix(rest, ".a") then !("liblib" <= rest) && !HasSuffix(rest, ".a.a") && !HasSuffix(rest, ".so.a")
    else !("lib" <= rest) && !HasSuffix(rest, ".so")
  }

  lemma PlainFileIsPlain(rest: string)
    ensures Plain(ExplicitName(rest)) <==> PlainFile(rest)
  {
    ExplicitNameKept(rest);
    if HasSuffix(rest, ".a") {
      ArchivePlain(rest, ExplicitName(rest));
    }
  }

  lemma WrittenAsFile(head: string, rest: string)
    requires head == "-l:"
    ensures PlainlyWritten(head + rest) <==> PlainFile(rest)
  {
    var tok := head + rest;
    assert HasSuffix(tok, ".a") <==> HasSuffix(rest, ".a") by { SuffixInTail(head, rest, ".a"); }
    if HasSuffix(rest, ".a") {
      assert HasSuffix(tok, ".a.a") <==> HasSuffix(rest, ".a.a") by { SuffixInTail(head, rest, ".a.a"); }
      assert HasSuffix(tok, ".so.a") <==> HasSuffix(rest, ".so.a") by { SuffixInTail(head, rest, ".so.a"); }
      assert "-l:liblib" <= tok <==> "liblib" <= rest by {
        PrefixInTail(head, rest, "liblib");
        assert head + "liblib" == "-l:liblib";
      }
    } else {
      assert HasSuffix(tok, ".so") <==> HasSuffix(rest, ".so") by { SuffixInTail(head, rest, ".so"); }
      assert "-l:lib" <= tok <==> "lib" <= rest by {
        PrefixInTail(head, rest, "lib");
        assert head + "lib" == "-l:lib";
      }
    }
  }

  lemma ArchivePlain(rest: string, name: string)
    requires (rest == name + ".a" && !("lib" <= rest)) || rest == "lib" + name + ".a"
    ensures Plain(name) <==> !("liblib" <= rest) && !HasSuffix(rest, ".a.a") && !HasSuffix(rest, ".so.a")
  {
    var file := name + ".a";
    FilePlain(name);
    if rest == file && !("lib" <= rest) {
      assert forall k :: 0 <= k < 3 ==> "liblib"[k] == "lib"[k];
    } else {
      assert rest == "lib" + file;
      assert HasSuffix(rest, ".a.a") <==> HasSuffix(file, ".a.a") by { SuffixInTail("lib", file, ".a.a"); }
      assert HasSuffix(rest, ".so.a") <==> HasSuffix(file, ".so.a") by { SuffixInTail("lib", file, ".so.a"); }
      assert "liblib" <= rest <==> "lib" <= file by {
        PrefixInTail("lib", file, "lib");
        assert "lib" + "lib" == "liblib";
      }
    }
  }

  lemma FilePlain(name: string)
    ensures var file := name + ".a";
            Plain(name) <==> !("lib" <= file) && !HasSuffix(file, ".a.a") && !HasSuffix(file, ".so.a")
  {
    ShortOfLib(name);
    SuffixBefore(name, ".a", ".a");
    SuffixBefore(name, ".so", ".a");
    assert ".a" + ".a" == ".a.a" && ".so" + ".a" == ".so.a";
  }

  /** The `.a` behind a name does not complete a `lib` in front of it. */
  lemma ShortOfLib(name: string)
    ensures "lib" <= name + ".a" <==> "lib" <= name
  {
    var s := name + ".a";
    if "lib" <= s {
      assert s[0] == 'l' && s[1] == 'i' && s[2] == 'b';
      assert s[|name|] == '.' && s[|name| + 1] == 'a';
      assert |name| >= 3;
      assert s[..3] == name[..3];
    }
  }

  /** The rule holds for an output if and only if every library token is plainly written. */
  lemma PlainNameRule(env: Env, toks: seq<string>)
    ensures (forall flag :: flag in LinkFlags(env, toks) && flag.Library? ==> Plain(flag.name)) <==>
            (forall tok :: tok in toks && Mention(tok).Some? ==> PlainlyWritten(tok))
  {
    var flags := LinkFlags(env, toks);
    forall flag | flag in flags && flag.Library?
      ensures exists tok :: tok in toks && Introduces(tok) == Some(flag.name)
    {
      LibrariesAreDeclared(env, toks, flag.name, flag.kind);
    }
    forall tok | tok in toks && Mention(tok).Some?
      ensures exists flag :: flag in flags && flag.Library? && flag.name == Mention(tok).value
    {
      var name := Mention(tok).value;
      R.DisjointTokens(tok);
      assert Introduces(tok) == Some(name);
      LibrariesAreDeclared(env, toks, name, DeclaredKind(env, toks, name));
    }
    forall tok | tok in toks && Mention(tok).Some?
      ensures Plain(Mention(tok).value) <==> PlainlyWritten(tok)
    {
      PlainMention(tok);
    }
    PthreadIsPlain();
  }

  lemma PthreadIsPlain()
    ensures Plain("pthread")
  {
    var name := "pthread";
    assert name[0] == 'p' && name[|name| - 1] == 'd';
    assert name[|name| - 2..][1] == 'd' && name[|name| - 3..][2] == 'd';
  }

  /** A parse on which it fails: the shared object's file name becomes the name. */
  lemma PlainNameRuleFails(cfg: Config, archiveIn: ArchiveOracle)
    ensures exists kind :: Library("libfoo.so", kind) in ParseMeaning(cfg, archiveIn, ["-l:libfoo.so"])
    ensures !Plain("libfoo.so")
  {
    var toks, rest := ["-l:libfoo.so"], "libfoo.so";
    var env := Env(cfg, archiveIn, Dirs(toks));
    assert toks[0] == "-l:" + rest && toks[0][3..] == rest;
    assert rest[|rest| - 1] == 'o' && rest[|rest| - 2..][1] == 'o';
    ExplicitNameKept(rest);
    assert Introduces(toks[0]) == Some(rest);
    LibrariesAreDeclared(env, toks, rest, DeclaredKind(env, toks, rest));
  }

  // ----- "the last marker decides whether a region is open"

  /** The last marker in a linker argument is `--whole-archive`. */
  predicate LastOpens(arg: string) {
    exists i :: 0 <= i <= |arg| && OccursAt(arg, "--whole-archive", i)
             && forall j :: i < j <= |arg| ==> !OccursAt(arg, "--no-whole-archive", j)
  }

  /** What a linker reading the token's markers in order would do. */
  predicate RegionByLast(tok: string, region: bool) {
    if !("-Wl," <= tok) then region
    else LastOpens(tok[4..]) || (region && !Contains(tok[4..], "--no-whole-archive"))
  }

  /** The token holds both markers, with `--whole-archive` last. */
  predicate Mixed(tok: string) {
    "-Wl," <= tok && Contains(tok[4..], "--no-whole-archive") && LastOpens(tok[4..])
  }

  lemma LastMarkerRule(tok: string, region: bool)
    ensures (Opens(tok) || (region && !Closes(tok)) <==> RegionByLast(tok, region)) <==> !Mixed(tok)
  {
    if "-Wl," <= tok {
      var arg, yes, no := tok[4..], "--whole-archive", "--no-whole-archive";
      if LastOpens(arg) {
        assert Contains(arg, yes);
      }
      if Contains(arg, yes) && !Contains(arg, no) {
        var i :| 0 <= i <= |arg| && OccursAt(arg, yes, i);
        assert forall j :: i < j <= |arg| ==> !OccursAt(arg, no, j);
      }
    }
  }

  ghost predicate OpenByLast(toks: seq<string>, i: nat)
    requires i <= |toks|
  {
    i > 0 && RegionByLast(toks[i - 1], OpenByLast(toks, i - 1))
  }

  /** The region state is that of the last marker throughout a stream if and only if no token is mixed. */
  lemma RegionRule(toks: seq<string>)
    ensures (forall i :: 0 <= i <= |toks| ==> (Open(toks, i) <==> OpenByLast(toks, i))) <==>
            (forall tok :: tok in toks ==> !Mixed(tok))
  {
    if forall tok :: tok in toks ==> !Mixed(tok) {
      forall i | 0 <= i <= |toks|
        ensures Open(toks, i) <==> OpenByLast(toks, i)
      {
        OpenWithoutMixed(toks, i);
      }
    } else {
      var k :| 0 <= k < |toks| && Mixed(toks[k]);
      R.OpenStep(toks, k);
      LastMarkerRule(toks[k], Open(toks, k));
      assert (Open(toks, k) <==> OpenByLast(toks, k)) ==> (Open(toks, k + 1) <==> !OpenByLast(toks, k + 1));
      assert 0 <= k + 1 <= |toks|;
    }
  }

  lemma {:induction false} OpenWithoutMixed(toks: seq<string>, i: nat)
    requires i <= |toks| && forall tok :: tok in toks ==> !Mixed(tok)
    ensures Open(toks, i) <==> OpenByLast(toks, i)
  {
    if i > 0 {
      OpenWithoutMixed(toks, i - 1);
      R.OpenStep(toks, i - 1);
      LastMarkerRule(toks[i - 1], Open(toks, i - 1));
    }
  }

  lemma MixedCloses(toks: seq<string>)
    requires |toks| == 3 && Mixed(toks[1])
    ensures OpenByLast(toks, 2) && !Open(toks, 2)
  {
    R.OpenStep(toks, 1);
  }

  /** A parse on which it fails: the region that the token's last marker opens is not seen. */
  lemma RegionRuleFails(cfg: Config, archiveIn: ArchiveOracle)
    requires Provides(cfg, archiveIn, "/o", "foo") && "foo" !in cfg.forceWholeArchive
    ensures var toks := ["-L" + "/o", "-Wl," + "--no-whole-archive" + "," + "--whole-archive", "-lfoo"];
            OpenByLast(toks, 2) && Library("foo", Static) in ParseMeaning(cfg, archiveIn, toks)
  {
    var dir, mixed, mention := "-L" + "/o", "-Wl," + "--no-whole-archive" + "," + "--whole-archive", "-lfoo";
    BothMarkers("--no-whole-archive", "--whole-archive");
    FooIsMentioned();
    MixedToken(mixed);
    MentionToken(mention);
    DirToken("/o");
    var toks := [dir, mixed, mention];
    OneDir(cfg, archiveIn, "/o", [mixed, mention], "foo");
    assert toks == [dir] + [mixed, mention];
    MixedCloses(toks);
    OnlyMention(Env(cfg, archiveIn, Dirs(toks)), toks, 2, "foo");
  }

  lemma MixedToken(tok: string)
    requires Mixed(tok)
    ensures !IsDir(tok) && Introduces(tok).None?
  {
    assert "-Wl,"[1] == 'W' && "-l"[1] == 'l' && "-L"[1] == 'L' && "-pthread"[1] == 'p' && tok[1] == 'W';
  }

  /** Two texts in a row: the second is found behind the first, and the first not behind the second. */
  lemma InOrder(first: string, second: string)
    requires |second| <= |first|
    ensures var arg := first + "," + second;
            && OccursAt(arg, first, 0) && OccursAt(arg, second, |first| + 1)
            && forall j :: |first| + 1 < j <= |arg| ==> !OccursAt(arg, first, j)
  {
    var arg := first + "," + second;
    assert arg[0..|first|] == first && arg[|first| + 1..|arg|] == second;
  }

  lemma BothMarkers(no: string, yes: string)
    requires no == "--no-whole-archive" && yes == "--whole-archive"
    ensures Mixed("-Wl," + no + "," + yes)
  {
    var tok, arg := "-Wl," + no + "," + yes, no + "," + yes;
    assert tok == "-Wl," + arg && tok[4..] == arg;
    InOrder(no, yes);
  }

  lemma FooIsMentioned()
    ensures Mention("-lfoo") == Some("foo")
  {
    var tok := "-lfoo";
    assert tok[2] == 'f' && tok[2..] == "foo";
  }

  // ----- "parsing twice is parsing once"

  lemma MentionThenOpen(toks: seq<string>, name: string)
    requires |toks| == 3 && !Opens(toks[0]) && !Closes(toks[0]) && Mention(toks[1]) == Some(name) && Opens(toks[2])
    ensures !Open(toks, 1) && MentionedOnReentry(toks, name)
  {
    assert Open(toks, 3) && Unclosed(toks, 1);
  }

  /** A parse on which it fails: the second copy mentions the library in the region that the first
      left open. `TwiceIsOnce` has the exact condition. */
  lemma TwiceIsOnceFails(cfg: Config, archiveIn: ArchiveOracle)
    requires Provides(cfg, archiveIn, "/o", "foo") && "foo" !in cfg.forceWholeArchive
    ensures var toks := ["-L" + "/o", "-lfoo", "-Wl,--whole-archive"];
            && Library("foo", Static) in Libraries(ParseMeaning(cfg, archiveIn, toks))
            && Library("foo", Static) !in Libraries(ParseMeaning(cfg, archiveIn, toks + toks))
  {
    var dir, mention, marker := "-L" + "/o", "-lfoo", "-Wl,--whole-archive";
    var toks := [dir, mention, marker];
    FooIsMentioned();
    MarkerOpens();
    MarkerToken(marker);
    MentionToken(mention);
    DirToken("/o");
    OneDir(cfg, archiveIn, "/o", [mention, marker], "foo");
    assert toks == [dir] + [mention, marker];
    DirsAppend(toks, toks);
    var once, twice := Env(cfg, archiveIn, Dirs(toks)), Env(cfg, archiveIn, Dirs(toks + toks));
    assert once.HasStatic("foo") && twice.HasStatic("foo");
    MentionThenOpen(toks, "foo");
    OnlyMention(once, toks, 1, "foo");
    OnlyMention(twice, toks, 1, "foo");
    UnsettledDiffers(once, toks, "foo");
    UnsettledDiffers(twice, toks, "foo");
  }
}
