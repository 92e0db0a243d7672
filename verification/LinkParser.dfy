/** The parser itself: one pass over the tokens that emits flags, skips repeated libraries and
    reaches back to promote an entry already emitted. */
module LinkParser {
  import opened Strings
  import opened LinkSpec
  import L = LinkTheorems
  import R = LinkRefinement
  import T = Tokens

  /** The structures `parse` updates in place and lends to `handle_library`. */
  class LinkBuilder {
    var flags: seq<LinkerFlag>
    var seenLibs: set<string>
    var libIndices: map<string, nat>

    /** The two caches describe `flags`. Only `pthread`, added by `-pthread`, can be seen
        without an index, and then its entry is `Default`. */
    ghost predicate Valid()
      reads this
    {
      && DistinctLibraries(flags)
      && (forall name :: name in seenLibs <==> HasLibrary(flags, name))
      && (forall name :: name in libIndices ==>
            libIndices[name] < |flags| && flags[libIndices[name]].Library? && flags[libIndices[name]].name == name)
      && (forall name :: name in seenLibs && name !in libIndices ==>
            name == "pthread" && Library(name, Default) in flags)
    }

    constructor ()
      ensures Valid() && flags == []
    {
      flags, seenLibs, libIndices := [], {}, map[];
    }

    method PushOther(flag: LinkerFlag)
      requires Valid() && !flag.Library?
      modifies this
      ensures Valid() && flags == old(flags) + [flag]
    {
      PushKeeps(flag);
      flags := flags + [flag];
    }

    method PushPthread()
      requires Valid()
      modifies this
      ensures Valid()
      ensures flags == if HasLibrary(old(flags), "pthread") then old(flags)
                       else old(flags) + [Library("pthread", Default)]
    {
      if "pthread" !in seenLibs {
        PushKeeps(Library("pthread", Default));
        flags := flags + [Library("pthread", Default)];
        seenLibs := seenLibs + {"pthread"};
        assert flags[|flags| - 1] == Library("pthread", Default);
      }
    }

    method HandleLibrary(env: Env, libName: string, region: bool)
      requires Valid()
      modifies this
      ensures Valid()
      ensures flags == Mentioned(env, old(flags), libName, region)
    {
      if libName in seenLibs {
        if region {
          PromoteOne(libName);
          if libName in libIndices {
            var idx := libIndices[libName];
            if flags[idx].kind == Static {
              PromoteKeeps(idx);
              flags := flags[idx := flags[idx].(kind := WholeArchive)];
            }
          }
        }
        return;
      }
      var hasStatic := IsStaticAvailable(env.cfg, env.archiveIn, libName, env.dirs);
      var forcedWholeArchive := libName in env.cfg.forceWholeArchive;
      var kind :=
        if (region || forcedWholeArchive) && hasStatic then WholeArchive
        else if hasStatic then Static
        else Default;
      var idx := |flags|;
      PushKeeps(Library(libName, kind));
      flags := flags + [Library(libName, kind)];
      seenLibs := seenLibs + {libName};
      libIndices := libIndices[libName := idx];
    }

    /** Appending keeps every earlier entry findable, and adds its own name only. */
    lemma PushKeeps(flag: LinkerFlag)
      ensures forall name :: HasLibrary(flags + [flag], name) <==>
                HasLibrary(flags, name) || (flag.Library? && flag.name == name)
      ensures forall f :: f in flags ==> f in flags + [flag]
    {
      forall name
        ensures HasLibrary(flags + [flag], name) <==>
                HasLibrary(flags, name) || (flag.Library? && flag.name == name)
      {
        R.HasLibraryAppend(flags, [flag], name);
        assert [flag][0] == flag;
      }
    }

    /** Promoting everywhere is promoting at the recorded index. */
    lemma PromoteOne(name: string)
      requires Valid() && name in seenLibs
      ensures name in libIndices && flags[libIndices[name]].kind == Static ==>
                PromoteAll(flags, name) == flags[libIndices[name] := Library(name, WholeArchive)]
      ensures !(name in libIndices && flags[libIndices[name]].kind == Static) ==>
                PromoteAll(flags, name) == flags
    {
      if name !in libIndices {
        var k :| 0 <= k < |flags| && flags[k] == Library(name, Default);
      }
    }

    /** Changing the kind at an index changes no name. */
    lemma PromoteKeeps(idx: nat)
      requires Valid() && idx < |flags| && flags[idx].Library? && flags[idx].kind == Static
      ensures var r := flags[idx := flags[idx].(kind := WholeArchive)];
              && (forall name :: HasLibrary(r, name) <==> HasLibrary(flags, name))
              && (forall f :: f in flags && f.Library? && f.kind == Default ==> f in r)
    {
      var r := flags[idx := flags[idx].(kind := WholeArchive)];
      assert forall k :: 0 <= k < |flags| ==>
        (r[k].Library? <==> flags[k].Library?) && (r[k].Library? ==> r[k].name == flags[k].name);
      forall name
        ensures HasLibrary(r, name) <==> HasLibrary(flags, name)
      {
        if HasLibrary(flags, name) {
          var k :| 0 <= k < |flags| && flags[k].Library? && flags[k].name == name;
          assert r[k].Library? && r[k].name == name;
        }
      }
      forall f | f in flags && f.Library? && f.kind == Default
        ensures f in r
      {
        var k :| 0 <= k < |flags| && flags[k] == f;
        assert r[k] == f;
      }
    }
  }

  /** One iteration of the second pass. */
  method HandleToken(builder: LinkBuilder, env: Env, flag: string, region: bool) returns (regionAfter: bool)
    requires builder.Valid()
    modifies builder
    ensures builder.Valid()
    ensures builder.flags == Step(env, old(builder.flags), flag, region)
    ensures regionAfter <==> Opens(flag) || (region && !Closes(flag))
  {
    R.DisjointTokens(flag);
    regionAfter := region;
    if StripPrefix(flag, "-L").Some? {
      builder.PushOther(SearchPath(StripPrefix(flag, "-L").value));
    } else if StripPrefix(flag, "-Wl,").Some? {
      var wlArgs := StripPrefix(flag, "-Wl,").value;
      if Contains(wlArgs, "--whole-archive") && !Contains(wlArgs, "--no-whole-archive") {
        regionAfter := true;
      } else if Contains(wlArgs, "--no-whole-archive") {
        regionAfter := false;
      }
      if Contains(wlArgs, "export-dynamic") || Contains(wlArgs, "as-needed") {
        builder.PushOther(LinkerArg(flag));
      }
    } else if StripPrefix(flag, "-l:").Some? {
      var rest := StripPrefix(flag, "-l:").value;
      var stem := StripPrefix(rest, "lib").GetOr(rest);
      builder.HandleLibrary(env, StripSuffix(stem, ".a").GetOr(rest), region);
    } else if StripPrefix(flag, "-l").Some? {
      builder.HandleLibrary(env, StripPrefix(flag, "-l").value, region);
    } else if flag == "-pthread" {
      builder.PushPthread();
    }
  }

  /** The first pass. */
  method CollectDirs(toks: seq<string>) returns (libDirs: seq<string>)
    ensures libDirs == Dirs(toks)
  {
    libDirs := [];
    for i := 0 to |toks|
      invariant libDirs == Dirs(toks[..i])
    {
      assert toks[..i + 1][..i] == toks[..i];
      match StripPrefix(toks[i], "-L")
      case Some(path) => libDirs := libDirs + [path];
      case None =>
    }
    assert toks[..|toks|] == toks;
  }

  lemma TokenStep(env: Env, done: seq<string>, tok: string, region: bool)
    requires region <==> Open(done, |done|)
    ensures LinkFlags(env, done + [tok]) == Step(env, LinkFlags(env, done), tok, region)
    ensures Open(done + [tok], |done + [tok]|) <==> Opens(tok) || (region && !Closes(tok))
  {
    R.LinkFlagsStep(env, done, tok);
    R.OpenSnoc(done, tok);
  }

  /** The second pass. */
  method SecondPass(env: Env, toks: seq<string>) returns (flags: seq<LinkerFlag>)
    ensures flags == LinkFlags(env, toks)
    ensures DistinctLibraries(flags)
  {
    var builder := new LinkBuilder();
    var region := false;
    ghost var done: seq<string> := [];
    for i := 0 to |toks|
      invariant builder.Valid() && fresh(builder)
      invariant done == toks[..i]
      invariant builder.flags == LinkFlags(env, done)
      invariant region <==> Open(done, |done|)
    {
      TokenStep(env, done, toks[i], region);
      region := HandleToken(builder, env, toks[i], region);
      done := done + [toks[i]];
    }
    assert done == toks;
    flags := builder.flags;
  }

  /** `PkgConfigParser::parse`. */
  method Parse(cfg: Config, archiveIn: ArchiveOracle, ws: T.Space, output: string) returns (flags: seq<LinkerFlag>)
    ensures flags == ParseMeaning(cfg, archiveIn, T.SplitWhitespace(ws, output))
    ensures DistinctLibraries(flags)
  {
    var toks := T.SplitWhitespace(ws, output);
    var libDirs := CollectDirs(toks);
    flags := SecondPass(Env(cfg, archiveIn, libDirs), toks);
  }

  /** On the text itself: repeating an output whose regions are closed changes no library. */
  lemma RepeatedOutput(cfg: Config, archiveIn: ArchiveOracle, ws: T.Space, output: string, c: char)
    requires ws(c)
    requires var toks := T.SplitWhitespace(ws, output); !Open(toks, |toks|)
    ensures L.Libraries(ParseMeaning(cfg, archiveIn, T.SplitWhitespace(ws, output + [c] + output))) ==
            L.Libraries(ParseMeaning(cfg, archiveIn, T.SplitWhitespace(ws, output)))
  {
    T.SplitAppend(ws, output, c, output);
    L.TwiceIsOnce(cfg, archiveIn, T.SplitWhitespace(ws, output));
  }
}
