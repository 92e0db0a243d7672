/** `Path::starts_with`: paths are compared by component, not by character. */
module Paths {
  import opened Strings

  /** `..` is an ordinary `Name`: nothing resolves it. */
  datatype Component = RootDir | CurDir | Name(text: string)

  function Piece(s: string): seq<Component> {
    if s == "" || s == "." then [] else [Name(s)]
  }

  /** The pieces between slashes; empty ones and `.` disappear. */
  function Names(s: string): seq<Component>
    decreases |s|
  {
    match SplitOnce(s, '/')
    case None => Piece(s)
    case Some(parts) => Piece(parts.0) + Names(parts.1)
  }

  /** What the first characters contribute besides a name. */
  function Anchor(path: string): seq<Component> {
    if path == "" then []
    else if path[0] == '/' then [RootDir]
    else if path[0] == '.' && (|path| == 1 || path[1] == '/') then [CurDir]
    else []
  }

  /** `Path::components`: a leading `/` is the root, and a leading `.` of a relative path is kept. */
  function Components(path: string): seq<Component> {
    Anchor(path) + Names(path)
  }

  predicate StartsWith(path: string, base: string) {
    Components(base) <= Components(path)
  }

  lemma NamesOfPiece(p: string, rest: string)
    requires '/' !in p
    ensures Names(p + ['/'] + rest) == Piece(p) + Names(rest)
  {
    SplitOnceOf(p, '/', rest);
  }

  lemma {:induction false} NamesOfJoin(a: string, b: string)
    ensures Names(a + ['/'] + b) == Names(a) + Names(b)
    decreases |a|
  {
    match SplitOnce(a, '/') {
      case None =>
        NamesOfPiece(a, b);
      case Some(parts) =>
        var rest := parts.1 + ['/'] + b;
        assert a + ['/'] + b == parts.0 + ['/'] + rest;
        NamesOfPiece(parts.0, rest);
        NamesOfJoin(parts.1, b);
        Regroup(Piece(parts.0), Names(parts.1), Names(b));
    }
  }

  function Lead(base: string): seq<Component> {
    if base == "" then [RootDir] else Components(base)
  }

  lemma ComponentsOfJoin(base: string, rest: string)
    ensures Components(base + ['/'] + rest) == Lead(base) + Names(rest)
  {
    var path := base + ['/'] + rest;
    assert Components(path) == Anchor(path) + Names(path);
    assert Names(path) == Names(base) + Names(rest) by { NamesOfJoin(base, rest); }
    assert Anchor(path) == if base == "" then [RootDir] else Anchor(base) by { AnchorOfJoin(base, rest); }
    Regroup(Anchor(path), Names(base), Names(rest));
    assert base == "" ==> Names(base) == [];
  }

  lemma Regroup<T>(a: seq<T>, b: seq<T>, c: seq<T>)
    ensures a + (b + c) == (a + b) + c
    ensures b == [] ==> a + (b + c) == a + c
  {
  }

  lemma AnchorOfJoin(base: string, rest: string)
    ensures Anchor(base + ['/'] + rest) == if base == "" then [RootDir] else Anchor(base)
  {
    var path := base + ['/'] + rest;
    if base != "" {
      assert path[0] == base[0];
      assert path[1] == if |base| > 1 then base[1] else '/';
    }
  }

  ghost predicate PlainName(s: string) {
    s != "" && s != "." && '/' !in s
  }

  function Joined(names: seq<string>): string {
    if names == [] then "" else if |names| == 1 then names[0] else names[0] + ['/'] + Joined(names[1..])
  }

  function AsNames(names: seq<string>): seq<Component> {
    seq(|names|, i requires 0 <= i < |names| => Name(names[i]))
  }

  lemma {:induction false} NamesOfJoined(names: seq<string>)
    requires forall name :: name in names ==> PlainName(name)
    ensures Names(Joined(names)) == AsNames(names)
  {
    if names != [] {
      var first, rest := names[0], names[1..];
      assert PlainName(first) && names == [first] + rest;
      if rest == [] {
        assert SplitOnce(first, '/') == None;
        assert AsNames(names) == Piece(first);
      } else {
        NamesOfJoined(rest);
        NamesOfPiece(first, Joined(rest));
        assert AsNames(names) == Piece(first) + AsNames(rest);
      }
    }
  }

  /** A path of names between single slashes has those names as its components, `..` included, after
      the root if it begins with a slash. */
  lemma ComponentsOfNames(names: seq<string>)
    requires forall name :: name in names ==> PlainName(name)
    ensures Components(['/'] + Joined(names)) == [RootDir] + AsNames(names)
    ensures Components(Joined(names)) == AsNames(names)
  {
    NamesOfJoined(names);
    var path := "" + ['/'] + Joined(names);
    assert path == ['/'] + Joined(names);
    ComponentsOfJoin("", Joined(names));
    if names != [] {
      assert PlainName(names[0]);
      assert names[0] <= Joined(names);
      NoAnchor(names[0], Joined(names));
    }
  }

  lemma NoAnchor(name: string, path: string)
    requires PlainName(name) && name <= path && (|path| > |name| ==> path[|name|] == '/')
    ensures Anchor(path) == []
  {
    assert path[0] == name[0] && name[0] in name;
    assert |name| > 1 ==> path[1] == name[1] && name[1] in name;
    assert |name| == 1 ==> name == [name[0]];
  }

  /** Further slashes, and `.` between slashes, are no components ... */
  lemma RedundantPiece(a: string, piece: string, b: string)
    requires piece == "" || piece == "."
    ensures Components(a + ['/'] + (piece + ['/'] + b)) == Components(a + ['/'] + b)
  {
    var tail := piece + ['/'] + b;
    assert Names(tail) == Names(b) by {
      assert '/' !in piece && Piece(piece) == [];
      NamesOfPiece(piece, b);
    }
    assert Components(a + ['/'] + tail) == Lead(a) + Names(tail) by { ComponentsOfJoin(a, tail); }
    assert Components(a + ['/'] + b) == Lead(a) + Names(b) by { ComponentsOfJoin(a, b); }
  }

  /** ... nor is a slash at the end ... */
  lemma SlashAtEnd(a: string)
    requires a != ""
    ensures Components(a + ['/'] + "") == Components(a)
  {
    ComponentsOfJoin(a, "");
    assert Names("") == [];
  }

  /** ... but a `.` in front of a relative path is. */
  lemma DotInFront(dot: string, b: string)
    requires dot == "."
    ensures Components(dot + ['/'] + b) == [CurDir] + Names(b)
  {
    assert Components(dot) == [CurDir] by { DotAlone(dot); }
    assert Components(dot + ['/'] + b) == Lead(dot) + Names(b) by { ComponentsOfJoin(dot, b); }
  }

  lemma DotAlone(dot: string)
    requires dot == "."
    ensures Components(dot) == [CurDir]
  {
    assert SplitOnce(dot, '/') == None;
  }

  /** Everything below a directory is under it, however the slashes are written. */
  lemma ChildIsUnder(base: string, rest: string)
    requires base != ""
    ensures StartsWith(base + ['/'] + rest, base)
  {
    ComponentsOfJoin(base, rest);
  }

  /** A longer last name is another directory: `/usr2` is not under `/usr`. */
  lemma SiblingIsNotUnder(parent: string, last: string, suffix: string)
    requires last != "" && last != "." && suffix != ""
    requires '/' !in last && '/' !in suffix
    ensures !StartsWith(parent + ['/'] + (last + suffix), parent + ['/'] + last)
  {
    ComponentsOfJoin(parent, last);
    ComponentsOfJoin(parent, last + suffix);
    var n := |Lead(parent)|;
    assert Components(parent + ['/'] + last)[n] == Name(last);
    assert Components(parent + ['/'] + (last + suffix))[n] == Name(last + suffix);
    assert |last + suffix| != |last|;
  }
}
