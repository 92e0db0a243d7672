/** The incremental pass with back-patching computes the whole-stream meaning: appending a token
    to the stream changes the meaning exactly as one step of the pass changes the flags. */
module LinkRefinement {
  import opened Strings
  import opened LinkSpec

  lemma DisjointTokens(tok: string)
    ensures Mention(tok).Some? ==> !IsDir(tok) && !PassesThrough(tok) && !Opens(tok) && !Closes(tok)
    ensures tok == "-pthread" ==> !IsDir(tok) && !PassesThrough(tok) && !Opens(tok) && !Closes(tok)
    ensures tok == "-pthread" ==> Mention(tok).None?
    ensures IsDir(tok) ==> !PassesThrough(tok) && !Opens(tok) && !Closes(tok)
    ensures !(Opens(tok) && Closes(tok))
  {
    assert "-L"[1] == 'L' && "-Wl,"[1] == 'W' && "-l"[1] == 'l' && "-l:"[1] == 'l';
    assert "-pthread"[1] == 'p';
    assert "-L" <= tok ==> tok[1] == 'L';
    assert "-Wl," <= tok ==> tok[1] == 'W';
    assert "-l" <= tok ==> tok[1] == 'l';
    assert "-l:" <= tok ==> tok[1] == 'l';
  }

  /** The region flag is the region state of the tokens read. */
  lemma OpenStep(toks: seq<string>, i: nat)
    requires i < |toks|
    ensures Open(toks, i + 1) <==> Opens(toks[i]) || (Open(toks, i) && !Closes(toks[i]))
  {
    if Open(toks, i + 1) && !Opens(toks[i]) {
      var j :| 0 <= j < i + 1 && Opens(toks[j]) && forall k :: j < k < i + 1 ==> !Closes(toks[k]);
      assert j < i;
    }
    if Open(toks, i) && !Closes(toks[i]) {
      var j :| 0 <= j < i && Opens(toks[j]) && forall k :: j < k < i ==> !Closes(toks[k]);
      assert 0 <= j < i + 1 && Opens(toks[j]) && forall k :: j < k < i + 1 ==> !Closes(toks[k]);
    }
  }

  lemma OpenPrefix(a: seq<string>, b: seq<string>, i: nat)
    requires i <= |a|
    ensures Open(a + b, i) <==> Open(a, i)
  {
    if Open(a + b, i) {
      var j :| 0 <= j < i && Opens((a + b)[j]) && forall k :: j < k < i ==> !Closes((a + b)[k]);
      assert Opens(a[j]);
      assert forall k :: j < k < i ==> !Closes(a[k]) by {
        forall k | j < k < i ensures !Closes(a[k]) { assert (a + b)[k] == a[k]; }
      }
    }
    if Open(a, i) {
      var j :| 0 <= j < i && Opens(a[j]) && forall k :: j < k < i ==> !Closes(a[k]);
      assert Opens((a + b)[j]);
    }
  }

  lemma OpenSnoc(toks: seq<string>, tok: string)
    ensures Open(toks + [tok], |toks| + 1) <==> Opens(tok) || (Open(toks, |toks|) && !Closes(tok))
  {
    OpenStep(toks + [tok], |toks|);
    OpenPrefix(toks, [tok], |toks|);
  }

  lemma MentionsOfSnoc(toks: seq<string>, tok: string, name: string)
    ensures MentionedInRegion(toks + [tok], name) <==>
            MentionedInRegion(toks, name) || (Mention(tok) == Some(name) && Open(toks, |toks|))
  {
    var all := toks + [tok];
    if MentionedInRegion(all, name) {
      var i :| 0 <= i < |all| && Mention(all[i]) == Some(name) && Open(all, i);
      OpenPrefix(toks, [tok], i);
      if i < |toks| {
        assert Mention(toks[i]) == Some(name);
      }
    }
    if MentionedInRegion(toks, name) {
      var i :| 0 <= i < |toks| && Mention(toks[i]) == Some(name) && Open(toks, i);
      OpenPrefix(toks, [tok], i);
      assert Mention(all[i]) == Some(name);
    }
    if Mention(tok) == Some(name) && Open(toks, |toks|) {
      OpenPrefix(toks, [tok], |toks|);
      assert all[|toks|] == tok;
    }
  }

  /** The library that the last token, mentioned in an open region, promotes. */
  ghost function Promotes(toks: seq<string>, tok: string): Option<string> {
    if Open(toks, |toks|) then Mention(tok) else None
  }

  ghost function Patched(flags: seq<LinkerFlag>, name: Option<string>): seq<LinkerFlag> {
    match name
    case None => flags
    case Some(n) => PromoteAll(flags, n)
  }

  lemma EntryOfSnoc(env: Env, toks: seq<string>, tok: string, i: nat)
    requires i < |toks|
    ensures EntryAt(env, toks + [tok], i) == Patched(EntryAt(env, toks, i), Promotes(toks, tok))
  {
    var all := toks + [tok];
    assert all[i] == toks[i];
    assert IsFirst(all, i) <==> IsFirst(toks, i) by {
      assert forall j :: 0 <= j < i ==> all[j] == toks[j];
    }
    if Introduces(toks[i]).Some? {
      MentionsOfSnoc(toks, tok, Introduces(toks[i]).value);
    }
  }

  lemma PatchedAppend(a: seq<LinkerFlag>, b: seq<LinkerFlag>, name: Option<string>)
    ensures Patched(a + b, name) == Patched(a, name) + Patched(b, name)
  {
    if name.Some? {
      var whole, parts := PromoteAll(a + b, name.value), PromoteAll(a, name.value) + PromoteAll(b, name.value);
      assert |whole| == |parts|;
      assert forall i :: 0 <= i < |whole| ==> whole[i] == parts[i];
    }
  }

  lemma {:induction false} EntriesOfSnoc(env: Env, toks: seq<string>, tok: string, n: nat)
    requires n <= |toks|
    ensures Entries(env, toks + [tok], n) == Patched(Entries(env, toks, n), Promotes(toks, tok))
  {
    if n > 0 {
      var before, entry, promoted := Entries(env, toks, n - 1), EntryAt(env, toks, n - 1), Promotes(toks, tok);
      assert Entries(env, toks + [tok], n - 1) == Patched(before, promoted) by {
        EntriesOfSnoc(env, toks, tok, n - 1);
      }
      assert EntryAt(env, toks + [tok], n - 1) == Patched(entry, promoted) by {
        EntryOfSnoc(env, toks, tok, n - 1);
      }
      PatchedAppend(before, entry, promoted);
    }
  }

  lemma HasLibraryAppend(a: seq<LinkerFlag>, b: seq<LinkerFlag>, name: string)
    ensures HasLibrary(a + b, name) <==> HasLibrary(a, name) || HasLibrary(b, name)
  {
    if HasLibrary(a, name) {
      var i :| 0 <= i < |a| && a[i].Library? && a[i].name == name;
      assert (a + b)[i] == a[i];
    }
    if HasLibrary(b, name) {
      var i :| 0 <= i < |b| && b[i].Library? && b[i].name == name;
      assert (a + b)[|a| + i] == b[i];
    }
    if HasLibrary(a + b, name) {
      var i :| 0 <= i < |a + b| && (a + b)[i].Library? && (a + b)[i].name == name;
      assert (a + b)[i] == if i < |a| then a[i] else b[i - |a|];
    }
  }

  /** What one entry adds to the names of the output. */
  lemma LibraryOfEntry(env: Env, toks: seq<string>, i: nat, name: string)
    requires i < |toks|
    ensures HasLibrary(EntryAt(env, toks, i), name) <==> IsFirst(toks, i) && Introduces(toks[i]) == Some(name)
  {
    DisjointTokens(toks[i]);
    if IsFirst(toks, i) {
      assert EntryAt(env, toks, i)[0].Library?;
    }
  }

  /** A token that is not the first to introduce its library repeats an earlier one. */
  lemma RepeatIntroduced(toks: seq<string>, n: nat, name: string)
    requires n < |toks| && Introduces(toks[n]) == Some(name) && !IsFirst(toks, n)
    ensures Introduced(toks[..n], name)
  {
    var j :| 0 <= j < n && Introduces(toks[j]) == Introduces(toks[n]);
    assert toks[..n][j] == toks[j];
  }

  /** The output has a library of a name exactly when some token introduced it. */
  lemma {:induction false} LibrariesOfEntries(env: Env, toks: seq<string>, n: nat, name: string)
    requires n <= |toks|
    ensures HasLibrary(Entries(env, toks, n), name) <==> Introduced(toks[..n], name)
  {
    if n > 0 {
      LibrariesOfEntries(env, toks, n - 1, name);
      HasLibraryAppend(Entries(env, toks, n - 1), EntryAt(env, toks, n - 1), name);
      LibraryOfEntry(env, toks, n - 1, name);
      IntroducedSnoc(toks, n - 1, name);
      if Introduces(toks[n - 1]) == Some(name) && !IsFirst(toks, n - 1) {
        RepeatIntroduced(toks, n - 1, name);
      }
    }
  }

  lemma IntroducedSnoc(toks: seq<string>, n: nat, name: string)
    requires n < |toks|
    ensures Introduced(toks[..n + 1], name) <==> Introduced(toks[..n], name) || Introduces(toks[n]) == Some(name)
  {
    var a, b := toks[..n], toks[..n + 1];
    assert b[n] == toks[n] && forall i :: 0 <= i < n ==> b[i] == a[i];
    if Introduced(a, name) {
      var i :| 0 <= i < |a| && Introduces(a[i]) == Some(name);
      assert Introduces(b[i]) == Some(name);
    }
  }

  /** The last token is the first of its name exactly when the output so far lacks the name. */
  lemma FirstIfMissing(env: Env, toks: seq<string>, tok: string)
    requires Introduces(tok).Some?
    ensures Introduced(toks, Introduces(tok).value) <==> HasLibrary(LinkFlags(env, toks), Introduces(tok).value)
    ensures IsFirst(toks + [tok], |toks|) <==> !Introduced(toks, Introduces(tok).value)
  {
    var all, n, name := toks + [tok], |toks|, Introduces(tok).value;
    LibrariesOfEntries(env, toks, n, name);
    assert toks[..n] == toks;
    if Introduced(toks, name) {
      var j :| 0 <= j < n && Introduces(toks[j]) == Some(name);
      assert all[j] == toks[j];
    }
    if !IsFirst(all, n) {
      var j :| 0 <= j < n && Introduces(all[j]) == Introduces(all[n]);
      assert toks[j] == all[j];
    }
  }

  /** The refinement step. */
  lemma LinkFlagsStep(env: Env, toks: seq<string>, tok: string)
    ensures LinkFlags(env, toks + [tok]) == Step(env, LinkFlags(env, toks), tok, Open(toks, |toks|))
  {
    var all, n, flags := toks + [tok], |toks|, LinkFlags(env, toks);
    EntriesOfSnoc(env, toks, tok, n);
    assert LinkFlags(env, all) == Patched(flags, Promotes(toks, tok)) + EntryAt(env, all, n);
    DisjointTokens(tok);
    assert all[n] == tok;
    if Introduces(tok).Some? {
      var name := Introduces(tok).value;
      FirstIfMissing(env, toks, tok);
      if !HasLibrary(flags, name) {
        NothingToPromote(flags, name);
        NewEntry(env, toks, tok);
      }
    }
  }

  lemma NothingToPromote(flags: seq<LinkerFlag>, name: string)
    requires !HasLibrary(flags, name)
    ensures PromoteAll(flags, name) == flags
  {
  }

  /** At a first mention the stream so far decides the kind. */
  lemma NewEntry(env: Env, toks: seq<string>, tok: string)
    requires Introduces(tok).Some? && !Introduced(toks, Introduces(tok).value)
    ensures KindOf(env, toks + [tok], |toks|) ==
            if tok == "-pthread" then Default else NewKind(env, Introduces(tok).value, Open(toks, |toks|))
  {
    var name := Introduces(tok).value;
    MentionsOfSnoc(toks, tok, name);
    DisjointTokens(tok);
    MentionIntroduces(toks, name);
  }

  lemma MentionIntroduces(toks: seq<string>, name: string)
    ensures MentionedInRegion(toks, name) ==> Introduced(toks, name)
  {
    if MentionedInRegion(toks, name) {
      var i :| 0 <= i < |toks| && Mention(toks[i]) == Some(name) && Open(toks, i);
      DisjointTokens(toks[i]);
      assert Introduces(toks[i]) == Some(name);
    }
  }

  /** The meaning as a left fold of steps: the cache-free form of the pass. */
  ghost function Replay(env: Env, toks: seq<string>): seq<LinkerFlag> {
    if toks == [] then []
    else
      var init := toks[..|toks| - 1];
      Step(env, Replay(env, init), toks[|toks| - 1], Open(init, |init|))
  }

  lemma {:induction false} ReplayIsMeaning(env: Env, toks: seq<string>)
    ensures Replay(env, toks) == LinkFlags(env, toks)
  {
    if toks != [] {
      var init, tok := toks[..|toks| - 1], toks[|toks| - 1];
      ReplayIsMeaning(env, init);
      LinkFlagsStep(env, init, tok);
      assert init + [tok] == toks;
    }
  }
}
