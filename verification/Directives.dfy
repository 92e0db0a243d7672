/** Printing linker flags as cargo directives, and reading them back. */
module Directives {
  import opened Strings
  import opened LinkSpec
  import R = LinkRefinement

  const SEARCH := "cargo:rustc-link-search=native="
  const LIB := "cargo:rustc-link-lib="
  const ARG := "cargo:rustc-link-arg="

  /** The modifiers in front of a static library's name. */
  function StaticMark(noBundle: bool): string {
    if noBundle then "static:-bundle=" else "static="
  }

  function WholeMark(noBundle: bool): string {
    if noBundle then "static:+whole-archive,-bundle=" else "static:+whole-archive="
  }

  function Mark(kind: LinkKind, noBundle: bool): string {
    match kind
    case Default => ""
    case Static => StaticMark(noBundle)
    case WholeArchive => WholeMark(noBundle)
  }

  function ToCargoDirective(flag: LinkerFlag, noBundle: bool): string {
    match flag
    case SearchPath(path) => SEARCH + path
    case Library(name, kind) => LIB + (Mark(kind, noBundle) + name)
    case LinkerArg(arg) => ARG + arg
  }

  function ToCargoDirectives(flags: seq<LinkerFlag>, noBundle: bool): seq<string> {
    seq(|flags|, i requires 0 <= i < |flags| => ToCargoDirective(flags[i], noBundle))
  }

  /** The printed text of every directive, for every name, path and argument. */
  lemma DirectiveText(name: string, path: string, arg: string, noBundle: bool)
    ensures ToCargoDirective(SearchPath(path), noBundle) == "cargo:rustc-link-search=native=" + path
    ensures ToCargoDirective(LinkerArg(arg), noBundle) == "cargo:rustc-link-arg=" + arg
    ensures ToCargoDirective(Library(name, Default), noBundle) == "cargo:rustc-link-lib=" + name
    ensures ToCargoDirective(Library(name, Static), noBundle) ==
            if noBundle then "cargo:rustc-link-lib=" + "static:-bundle=" + name
            else "cargo:rustc-link-lib=" + "static=" + name
    ensures ToCargoDirective(Library(name, WholeArchive), noBundle) ==
            if noBundle then "cargo:rustc-link-lib=" + "static:+whole-archive,-bundle=" + name
            else "cargo:rustc-link-lib=" + "static:+whole-archive=" + name
  {
    assert "" + name == name;
    forall mark: string
      ensures "cargo:rustc-link-lib=" + (mark + name) == "cargo:rustc-link-lib=" + mark + name
    {
    }
  }

  // ----- reading back

  function DecodeLibrary(text: string, noBundle: bool): LinkerFlag {
    if StaticMark(noBundle) <= text then Library(text[|StaticMark(noBundle)|..], Static)
    else if WholeMark(noBundle) <= text then Library(text[|WholeMark(noBundle)|..], WholeArchive)
    else Library(text, Default)
  }

  function Decode(directive: string, noBundle: bool): Option<LinkerFlag> {
    if SEARCH <= directive then Some(SearchPath(directive[|SEARCH|..]))
    else if LIB <= directive then Some(DecodeLibrary(directive[|LIB|..], noBundle))
    else if ARG <= directive then Some(LinkerArg(directive[|ARG|..]))
    else None
  }

  /** A `Default` library whose name itself looks like modifiers and a name. */
  predicate Ambiguous(flag: LinkerFlag, noBundle: bool) {
    && flag.Library? && flag.kind == Default
    && (StaticMark(noBundle) <= flag.name || WholeMark(noBundle) <= flag.name)
  }

  /** Two strings that differ inside a common index are no prefixes of one string. */
  lemma Apart(p: string, q: string, k: nat, s: string)
    requires k < |p| && k < |q| && p[k] != q[k] && p <= s
    ensures !(q <= s)
  {
    assert s[k] == p[k];
  }

  lemma DecodeMarked(name: string, kind: LinkKind, noBundle: bool)
    ensures DecodeLibrary(Mark(kind, noBundle) + name, noBundle) == Library(name, kind) <==>
            !Ambiguous(Library(name, kind), noBundle)
  {
    var text := Mark(kind, noBundle) + name;
    var s, w := StaticMark(noBundle), WholeMark(noBundle);
    var k := if noBundle then 7 else 6;
    assert s[k] != w[k];
    match kind {
      case Default =>
        assert text == name;
      case Static =>
        assert text[|s|..] == name;
      case WholeArchive =>
        Apart(w, s, k, text);
        assert text[|w|..] == name;
    }
  }

  /** A directive reads back as the flag it was printed from, except for ambiguous names. */
  lemma DirectiveDecodes(flag: LinkerFlag, noBundle: bool)
    ensures Decode(ToCargoDirective(flag, noBundle), noBundle) == Some(flag) <==> !Ambiguous(flag, noBundle)
  {
    var text := ToCargoDirective(flag, noBundle);
    assert SEARCH[17] == 's' && LIB[17] == 'l' && ARG[17] == 'a';
    match flag {
      case SearchPath(path) =>
        assert text[|SEARCH|..] == path;
      case Library(name, kind) =>
        Apart(LIB, SEARCH, 17, text);
        assert text[|LIB|..] == Mark(kind, noBundle) + name;
        DecodeMarked(name, kind, noBundle);
      case LinkerArg(arg) =>
        Apart(ARG, SEARCH, 17, text);
        Apart(ARG, LIB, 17, text);
        assert text[|ARG|..] == arg;
    }
  }

  /** Different flags print alike exactly when one is the ambiguous spelling of the other. */
  lemma DirectivesCollide(f: LinkerFlag, g: LinkerFlag, noBundle: bool)
    ensures f != g && ToCargoDirective(f, noBundle) == ToCargoDirective(g, noBundle) <==>
            SpelledAs(f, g, noBundle) || SpelledAs(g, f, noBundle)
  {
    if f != g && ToCargoDirective(f, noBundle) == ToCargoDirective(g, noBundle) {
      DirectiveDecodes(f, noBundle);
      DirectiveDecodes(g, noBundle);
      if Ambiguous(f, noBundle) {
        CollidesWithAmbiguous(f, g, noBundle);
      } else {
        CollidesWithAmbiguous(g, f, noBundle);
      }
    }
    SpelledAsCollides(f, g, noBundle);
    SpelledAsCollides(g, f, noBundle);
  }

  lemma SpelledAsCollides(f: LinkerFlag, g: LinkerFlag, noBundle: bool)
    ensures SpelledAs(f, g, noBundle) ==> f != g && ToCargoDirective(f, noBundle) == ToCargoDirective(g, noBundle)
  {
    if SpelledAs(f, g, noBundle) {
      assert "" + f.name == f.name;
    }
  }

  /** `f` is a `Default` library named like the modifiers and name of the static library `g`. */
  predicate SpelledAs(f: LinkerFlag, g: LinkerFlag, noBundle: bool) {
    && g.Library? && g.kind != Default
    && f == Library(Mark(g.kind, noBundle) + g.name, Default)
  }

  lemma CollidesWithAmbiguous(f: LinkerFlag, g: LinkerFlag, noBundle: bool)
    requires Ambiguous(f, noBundle) && f != g
    requires ToCargoDirective(f, noBundle) == ToCargoDirective(g, noBundle)
    ensures SpelledAs(f, g, noBundle)
  {
    var text := ToCargoDirective(f, noBundle);
    assert SEARCH[17] == 's' && LIB[17] == 'l' && ARG[17] == 'a';
    Apart(LIB, SEARCH, 17, text);
    Apart(LIB, ARG, 17, text);
    assert "" + f.name == f.name;
    SameSplit(LIB, f.name, LIB, Mark(g.kind, noBundle) + g.name);
  }

  /** Two flags that print alike: a library left to the linker that is named `static=foo`, and the
      static library `foo`. */
  lemma DirectivesClash()
    ensures var f, g := Library("static=" + "foo", Default), Library("foo", Static);
            f != g && ToCargoDirective(f, false) == ToCargoDirective(g, false)
  {
    DirectivesCollide(Library("static=" + "foo", Default), Library("foo", Static), false);
  }

  lemma PrefixHas(p: string, s: string, k: nat)
    requires k < |p|
    ensures p <= s ==> p[k] in s
  {
    if p <= s {
      assert s[k] == p[k];
    }
  }

  lemma PlainNamesAreClear(flag: LinkerFlag, noBundle: bool)
    requires flag.Library? ==> '=' !in flag.name
    ensures !Ambiguous(flag, noBundle)
  {
    if flag.Library? {
      var s, w := StaticMark(noBundle), WholeMark(noBundle);
      assert s[|s| - 1] == '=' && w[|w| - 1] == '=';
      PrefixHas(s, flag.name, |s| - 1);
      PrefixHas(w, flag.name, |w| - 1);
    }
  }

  function DecodeAll(directives: seq<string>, noBundle: bool): seq<Option<LinkerFlag>> {
    seq(|directives|, i requires 0 <= i < |directives| => Decode(directives[i], noBundle))
  }

  function Read(flags: seq<LinkerFlag>): seq<Option<LinkerFlag>> {
    seq(|flags|, i requires 0 <= i < |flags| => Some(flags[i]))
  }

  /** A whole list reads back if and only if it holds no ambiguous name. */
  lemma DirectiveListDecodes(flags: seq<LinkerFlag>, noBundle: bool)
    ensures DecodeAll(ToCargoDirectives(flags, noBundle), noBundle) == Read(flags) <==>
            forall flag :: flag in flags ==> !Ambiguous(flag, noBundle)
  {
    var decoded := DecodeAll(ToCargoDirectives(flags, noBundle), noBundle);
    forall i | 0 <= i < |flags|
      ensures decoded[i] == Some(flags[i]) <==> !Ambiguous(flags[i], noBundle)
    {
      DirectiveDecodes(flags[i], noBundle);
    }
    if decoded == Read(flags) {
      forall flag | flag in flags
        ensures !Ambiguous(flag, noBundle)
      {
        var i :| 0 <= i < |flags| && flags[i] == flag;
        assert decoded[i] == Read(flags)[i];
      }
    }
  }

  /** End to end: what the parser emits reads back, when no `-l` token names a library with `=`. */
  lemma ParsedDirectivesDecode(env: Env, toks: seq<string>, noBundle: bool)
    requires forall i :: 0 <= i < |toks| && Mention(toks[i]).Some? ==> '=' !in Mention(toks[i]).value
    ensures var flags := LinkFlags(env, toks);
            DecodeAll(ToCargoDirectives(flags, noBundle), noBundle) == Read(flags)
  {
    var flags := LinkFlags(env, toks);
    assert toks[..|toks|] == toks;
    forall flag | flag in flags
      ensures !Ambiguous(flag, noBundle)
    {
      if flag.Library? {
        R.LibrariesOfEntries(env, toks, |toks|, flag.name);
        var k :| 0 <= k < |flags| && flags[k] == flag;
        assert HasLibrary(flags, flag.name);
        var i :| 0 <= i < |toks| && Introduces(toks[i]) == Some(flag.name);
        assert '=' !in "pthread";
      }
      PlainNamesAreClear(flag, noBundle);
    }
    DirectiveListDecodes(flags, noBundle);
  }
}
