/** `str::split_whitespace`, over an arbitrary whitespace predicate. */
module Tokens {

  type Space = char -> bool

  ghost predicate Blank(ws: Space, s: string) {
    forall i :: 0 <= i < |s| ==> ws(s[i])
  }

  ghost predicate Word(ws: Space, s: string) {
    s != [] && forall i :: 0 <= i < |s| ==> !ws(s[i])
  }

  ghost predicate Words(ws: Space, ts: seq<string>) {
    forall i :: 0 <= i < |ts| ==> Word(ws, ts[i])
  }

  /** Length of the longest prefix without whitespace. */
  function WordLength(ws: Space, s: string): (n: nat)
    ensures n <= |s|
    ensures forall i :: 0 <= i < n ==> !ws(s[i])
    ensures n < |s| ==> ws(s[n])
  {
    if s == [] || ws(s[0]) then 0 else 1 + WordLength(ws, s[1..])
  }

  function SplitWhitespace(ws: Space, s: string): (ts: seq<string>)
    ensures Words(ws, ts)
    decreases |s|
  {
    if s == [] then []
    else if ws(s[0]) then SplitWhitespace(ws, s[1..])
    else
      var n := WordLength(ws, s);
      [s[..n]] + SplitWhitespace(ws, s[n..])
  }

  /** Reference meaning: `s` is the words `ts`, in order, with blanks before, between
      (at least one) and after them. */
  ghost predicate Spells(ws: Space, s: string, ts: seq<string>)
    decreases |ts|
  {
    if ts == [] then Blank(ws, s)
    else exists gap: string, rest: string :: FirstWord(ws, s, gap, ts[0], rest) && Spells(ws, rest, ts[1..])
  }

  /** `s` is blanks, a word that ends there, and the rest. */
  ghost predicate FirstWord(ws: Space, s: string, gap: string, w: string, rest: string) {
    && s == gap + w + rest
    && Blank(ws, gap) && Word(ws, w)
    && (rest == [] || ws(rest[0]))
  }

  lemma {:induction false} SplitBlank(ws: Space, s: string)
    requires Blank(ws, s)
    ensures SplitWhitespace(ws, s) == []
  {
    if s != [] {
      SplitBlank(ws, s[1..]);
    }
  }

  lemma {:induction false} SplitSkipsBlank(ws: Space, gap: string, s: string)
    requires Blank(ws, gap)
    ensures SplitWhitespace(ws, gap + s) == SplitWhitespace(ws, s)
  {
    if gap == [] {
      assert gap + s == s;
    } else {
      assert (gap + s)[1..] == gap[1..] + s;
      SplitSkipsBlank(ws, gap[1..], s);
    }
  }

  lemma SplitTakesWord(ws: Space, w: string, rest: string)
    requires Word(ws, w) && (rest == [] || ws(rest[0]))
    ensures SplitWhitespace(ws, w + rest) == [w] + SplitWhitespace(ws, rest)
  {
    var s := w + rest;
    assert forall i :: 0 <= i < |w| ==> s[i] == w[i];
    assert rest != [] ==> s[|w|] == rest[0];
    var n := WordLength(ws, s);
    assert n == |w|;
    assert s[..n] == w && s[n..] == rest;
  }

  /** The tokens spell the input ... */
  lemma {:induction false} SplitSpells(ws: Space, s: string)
    ensures Spells(ws, s, SplitWhitespace(ws, s))
    decreases |s|
  {
    if s == [] {
    } else if ws(s[0]) {
      SplitSpells(ws, s[1..]);
      SpellsBlankFirst(ws, s[0], s[1..], SplitWhitespace(ws, s[1..]));
      assert [s[0]] + s[1..] == s;
    } else {
      var n := WordLength(ws, s);
      SplitSpells(ws, s[n..]);
      assert s == [] + s[..n] + s[n..];
      var ts := SplitWhitespace(ws, s);
      assert ts[0] == s[..n] && ts[1..] == SplitWhitespace(ws, s[n..]);
      assert FirstWord(ws, s, [], ts[0], s[n..]);
    }
  }

  lemma SpellsBlankFirst(ws: Space, c: char, s: string, ts: seq<string>)
    requires ws(c) && Spells(ws, s, ts)
    ensures Spells(ws, [c] + s, ts)
  {
    if ts != [] {
      var gap: string, rest: string :| FirstWord(ws, s, gap, ts[0], rest) && Spells(ws, rest, ts[1..]);
      assert [c] + s == ([c] + gap) + ts[0] + rest;
      assert FirstWord(ws, [c] + s, [c] + gap, ts[0], rest);
    }
  }

  /** ... and nothing else does. */
  lemma {:induction false} SpellsIsSplit(ws: Space, s: string, ts: seq<string>)
    requires Spells(ws, s, ts)
    ensures ts == SplitWhitespace(ws, s)
    decreases |ts|
  {
    if ts == [] {
      SplitBlank(ws, s);
    } else {
      var gap: string, rest: string :| FirstWord(ws, s, gap, ts[0], rest) && Spells(ws, rest, ts[1..]);
      assert s == gap + (ts[0] + rest);
      SplitSkipsBlank(ws, gap, ts[0] + rest);
      SplitTakesWord(ws, ts[0], rest);
      SpellsIsSplit(ws, rest, ts[1..]);
    }
  }

  /** Splitting distributes over a whitespace character. */
  lemma {:induction false} SplitAppend(ws: Space, a: string, c: char, b: string)
    requires ws(c)
    ensures SplitWhitespace(ws, a + [c] + b) == SplitWhitespace(ws, a) + SplitWhitespace(ws, b)
    decreases |a|
  {
    var s := a + [c] + b;
    if a == [] {
      assert s[1..] == b;
    } else if ws(a[0]) {
      assert s[1..] == a[1..] + [c] + b;
      SplitAppend(ws, a[1..], c, b);
    } else {
      var n := WordLength(ws, a);
      SplitAppendWord(ws, a[..n], a[n..], c, b);
      SplitAppend(ws, a[n..], c, b);
      assert a == a[..n] + a[n..];
    }
  }

  lemma SplitAppendWord(ws: Space, w: string, a: string, c: char, b: string)
    requires ws(c) && Word(ws, w) && (a == [] || ws(a[0]))
    ensures SplitWhitespace(ws, w + a + [c] + b) == [w] + SplitWhitespace(ws, a + [c] + b)
    ensures SplitWhitespace(ws, w + a) == [w] + SplitWhitespace(ws, a)
  {
    var rest := a + [c] + b;
    assert rest[0] == if a == [] then c else a[0];
    assert w + a + [c] + b == w + rest;
    SplitTakesWord(ws, w, rest);
    SplitTakesWord(ws, w, a);
  }

  /** The tokens separated by single spaces. */
  function JoinSpaces(ts: seq<string>): string {
    if ts == [] then [] else if |ts| == 1 then ts[0] else ts[0] + [' '] + JoinSpaces(ts[1..])
  }

  /** Splitting a join gives the tokens back. */
  lemma {:induction false} SplitJoin(ws: Space, ts: seq<string>)
    requires ws(' ') && Words(ws, ts)
    ensures SplitWhitespace(ws, JoinSpaces(ts)) == ts
  {
    if ts == [] {
    } else {
      assert ts[0] + [] == ts[0];
      SplitTakesWord(ws, ts[0], []);
      if |ts| > 1 {
        SplitAppend(ws, ts[0], ' ', JoinSpaces(ts[1..]));
        SplitJoin(ws, ts[1..]);
      }
    }
  }
}
