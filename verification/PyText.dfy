// The operations on Python strings and text files that the style checks use.
module PyText {

  /** str.isspace for one character. */
  predicate IsSpace(c: char) {
    || '\U{9}' <= c <= '\U{d}' || '\U{1c}' <= c <= '\U{20}' || c == '\U{85}' || c == '\U{a0}'
    || c == '\U{1680}' || '\U{2000}' <= c <= '\U{200a}' || c == '\U{2028}' || c == '\U{2029}'
    || c == '\U{202f}' || c == '\U{205f}' || c == '\U{3000}'
  }

  /** Among the ASCII characters these are the blank and the controls for tab, line and page. */
  lemma AsciiSpaces(c: char)
    ensures c in [' ', '\t', '\n', '\r', '\U{b}', '\U{c}'] ==> IsSpace(c)
    ensures '!' <= c <= '~' ==> !IsSpace(c)
  {
  }

  /** The characters a strip removes: whitespace by default, or a given set. */
  datatype Strippable = Space | Comment {
    predicate Has(c: char) {
      match this
      case Space => IsSpace(c)
      case Comment => c in ['*', '#', '/']
    }
  }

  function LStrip(s: string, p: Strippable): string {
    if s != [] && p.Has(s[0]) then LStrip(s[1..], p) else s
  }

  function RStrip(s: string, p: Strippable): string {
    if s != [] && p.Has(s[|s| - 1]) then RStrip(s[..|s| - 1], p) else s
  }

  function Strip(s: string, p: Strippable): string {
    LStrip(RStrip(s, p), p)
  }

  predicate All(s: string, p: Strippable) {
    forall c | c in s :: p.Has(c)
  }

  /** What a strip cannot take anything from. */
  predicate Solid(s: string, p: Strippable) {
    s != [] && !p.Has(s[0]) && !p.Has(s[|s| - 1])
  }

  lemma Assoc(a: string, b: string, c: string)
    ensures (a + b) + c == a + (b + c)
  {
  }

  lemma {:induction false} LStripShape(s: string, p: Strippable) returns (pre: string)
    ensures s == pre + LStrip(s, p) && All(pre, p)
    ensures LStrip(s, p) != [] ==> !p.Has(LStrip(s, p)[0])
  {
    pre := [];
    if s != [] && p.Has(s[0]) {
      pre := LStripShape(s[1..], p);
      pre := [s[0]] + pre;
    }
  }

  lemma {:induction false} RStripShape(s: string, p: Strippable) returns (post: string)
    ensures s == RStrip(s, p) + post && All(post, p)
    ensures RStrip(s, p) != [] ==> !p.Has(RStrip(s, p)[|RStrip(s, p)| - 1])
  {
    post := [];
    if s != [] && p.Has(s[|s| - 1]) {
      var init, last := s[..|s| - 1], [s[|s| - 1]];
      var rest := RStripShape(init, p);
      assert s == init + last;
      Assoc(RStrip(init, p), rest, last);
      post := rest + last;
    }
  }

  lemma StripShape(s: string, p: Strippable) returns (pre: string, post: string)
    ensures s == pre + Strip(s, p) + post && All(pre, p) && All(post, p)
    ensures Strip(s, p) == [] || Solid(Strip(s, p), p)
  {
    post := RStripShape(s, p);
    pre := LStripShape(RStrip(s, p), p);
    var r := RStrip(s, p);
    assert Strip(s, p) != [] ==> Strip(s, p)[|Strip(s, p)| - 1] == r[|r| - 1];
  }

  lemma {:induction false} LStripAround(pre: string, x: string, p: Strippable)
    requires x != [] && !p.Has(x[0])
    ensures LStrip(pre + x, p) == LStrip(pre, p) + x
  {
    if pre == [] {
      assert pre + x == x;
    } else {
      assert (pre + x)[1..] == pre[1..] + x;
      LStripAround(pre[1..], x, p);
    }
  }

  lemma {:induction false} RStripAround(x: string, post: string, p: Strippable)
    requires x != [] && !p.Has(x[|x| - 1])
    ensures RStrip(x + post, p) == x + RStrip(post, p)
  {
    if post == [] {
      assert x + post == x;
    } else {
      assert (x + post)[..|x + post| - 1] == x + post[..|post| - 1];
      RStripAround(x, post[..|post| - 1], p);
    }
  }

  /** Stripping around a solid middle does not look at the middle. */
  lemma StripAround(pre: string, x: string, post: string, p: Strippable)
    requires Solid(x, p)
    ensures Strip(pre + x + post, p) == LStrip(pre, p) + x + RStrip(post, p)
  {
    var r := RStrip(post, p);
    RStripAround(pre + x, post, p);
    Assoc(pre, x, r);
    LStripAround(pre, x + r, p);
    Assoc(LStrip(pre, p), x, r);
  }

  lemma {:induction false} StripAllLeft(pre: string, p: Strippable)
    requires All(pre, p)
    ensures LStrip(pre, p) == []
  {
    if pre != [] { StripAllLeft(pre[1..], p); }
  }

  lemma {:induction false} StripAllRight(post: string, p: Strippable)
    requires All(post, p)
    ensures RStrip(post, p) == []
  {
    if post != [] { StripAllRight(post[..|post| - 1], p); }
  }

  lemma StripTo(pre: string, x: string, post: string, p: Strippable)
    requires Solid(x, p) && All(pre, p) && All(post, p)
    ensures Strip(pre + x + post, p) == x
  {
    StripAround(pre, x, post, p);
    StripAllLeft(pre, p);
    StripAllRight(post, p);
  }

  // ---------------------------------------------------------------- expandtabs

  const TAB_SIZE := 4

  function Spaces(n: nat): string {
    seq(n, i => ' ')
  }

  /** str.expandtabs(TAB_SIZE) from a given column. */
  function ExpandTabs(s: string, column: nat): string {
    if s == [] then []
    else if s[0] == '\t' then
      var n := TAB_SIZE - column % TAB_SIZE;
      Spaces(n) + ExpandTabs(s[1..], column + n)
    else if s[0] == '\n' || s[0] == '\r' then [s[0]] + ExpandTabs(s[1..], 0)
    else [s[0]] + ExpandTabs(s[1..], column + 1)
  }

  lemma {:induction false} ExpandConcat(a: string, b: string, column: nat) returns (after: nat)
    ensures ExpandTabs(a + b, column) == ExpandTabs(a, column) + ExpandTabs(b, after)
  {
    if a == [] {
      assert a + b == b;
      after := column;
    } else {
      assert (a + b)[1..] == a[1..] + b;
      var next := if a[0] == '\t' then column + TAB_SIZE - column % TAB_SIZE
                  else if a[0] == '\n' || a[0] == '\r' then 0 else column + 1;
      after := ExpandConcat(a[1..], b, next);
    }
  }

  lemma {:induction false} ExpandPlain(a: string, b: string, column: nat)
    requires '\t' !in a && '\n' !in a && '\r' !in a
    ensures ExpandTabs(a + b, column) == a + ExpandTabs(b, column + |a|)
  {
    if a == [] {
      assert a + b == b;
    } else {
      assert (a + b)[1..] == a[1..] + b && a == [a[0]] + a[1..];
      assert a[0] in a && forall c | c in a[1..] :: c in a;
      ExpandPlain(a[1..], b, column + 1);
    }
  }

  lemma {:induction false} ExpandSpace(s: string, column: nat)
    requires All(s, Space)
    ensures All(ExpandTabs(s, column), Space)
  {
    if s != [] {
      var next := if s[0] == '\t' then column + TAB_SIZE - column % TAB_SIZE
                  else if s[0] == '\n' || s[0] == '\r' then 0 else column + 1;
      assert All(s[1..], Space);
      ExpandSpace(s[1..], next);
    }
  }

  lemma {:induction false} ExpandTabFree(s: string, column: nat)
    requires '\t' !in s
    ensures ExpandTabs(s, column) == s
  {
    if s != [] {
      var rest := s[1..];
      assert s == [s[0]] + rest && s[0] != '\t';
      ExpandTabFree(rest, if s[0] == '\n' || s[0] == '\r' then 0 else column + 1);
    }
  }

  lemma NextColumn(s: string, column: nat) returns (front: string, next: nat)
    requires s != []
    ensures ExpandTabs(s, column) == front + ExpandTabs(s[1..], next)
    ensures front != [] && '\t' !in front && forall c | c in front :: c == s[0] || c == ' '
  {
    if s[0] == '\t' {
      var n := TAB_SIZE - column % TAB_SIZE;
      front, next := Spaces(n), column + n;
    } else {
      front, next := [s[0]], if s[0] == '\n' || s[0] == '\r' then 0 else column + 1;
    }
  }

  lemma {:induction false} ExpandLeavesNoTab(s: string, column: nat)
    ensures '\t' !in ExpandTabs(s, column)
  {
    if s != [] {
      var front, next := NextColumn(s, column);
      ExpandLeavesNoTab(s[1..], next);
    }
  }

  lemma {:induction false} ExpandAddsNoNewline(s: string, column: nat)
    requires '\n' !in s
    ensures '\n' !in ExpandTabs(s, column)
  {
    if s != [] {
      var front, next := NextColumn(s, column);
      assert s[0] in s && forall c | c in s[1..] :: c in s;
      ExpandAddsNoNewline(s[1..], next);
    }
  }

  lemma ExpandLast(c: char, column: nat)
    ensures var e := ExpandTabs([c], column); e != [] && if c == '\n' then e == "\n" else '\n' !in e
  {
    var front, next := NextColumn([c], column);
    assert front + ExpandTabs([], next) == front;
  }

  lemma ExpandRemovesTabs(s: string, column: nat)
    ensures '\t' !in ExpandTabs(s, column)
    ensures s != [] ==> ExpandTabs(s, column) != []
    ensures s != [] && s[|s| - 1] == '\n' ==>
              var e := ExpandTabs(s, column); e[|e| - 1] == '\n'
    ensures (forall i | 0 <= i < |s| - 1 :: s[i] != '\n') ==>
              var e := ExpandTabs(s, column); forall i | 0 <= i < |e| - 1 :: e[i] != '\n'
  {
    ExpandLeavesNoTab(s, column);
    if s != [] {
      var body, c := s[..|s| - 1], s[|s| - 1];
      assert s == body + [c];
      var after := ExpandConcat(body, [c], column);
      ExpandLast(c, after);
      if forall i | 0 <= i < |s| - 1 :: s[i] != '\n' { ExpandAddsNoNewline(body, column); }
    }
  }

  // What expandtabs means: a tab becomes the spaces up to the next multiple of TAB_SIZE, at least one.

  function Column(start: nat, t: string): nat
    decreases |t|
  {
    if t == [] then start else Column(if t[0] == '\n' || t[0] == '\r' then 0 else start + 1, t[1..])
  }

  lemma {:induction false} ColumnConcat(start: nat, a: string, b: string)
    ensures Column(start, a + b) == Column(Column(start, a), b)
    decreases |a|
  {
    if a == [] {
      assert a + b == b;
    } else {
      assert (a + b)[1..] == a[1..] + b;
      ColumnConcat(if a[0] == '\n' || a[0] == '\r' then 0 else start + 1, a[1..], b);
    }
  }

  lemma {:induction false} ColumnSpaces(start: nat, n: nat)
    ensures Column(start, Spaces(n)) == start + n
    decreases n
  {
    if n > 0 {
      assert Spaces(n)[1..] == Spaces(n - 1);
      ColumnSpaces(start + 1, n - 1);
    }
  }

  function Front(c: char, column: nat): string {
    if c == '\t' then Spaces(TAB_SIZE - column % TAB_SIZE) else [c]
  }

  /** After the first character the output stands in the column where the rest begins. */
  lemma FrontColumn(s: string, column: nat)
    requires s != []
    ensures var front := Front(s[0], column); ExpandTabs(s, column) == front + ExpandTabs(s[1..], Column(column, front))
  {
    if s[0] == '\t' {
      ColumnSpaces(column, TAB_SIZE - column % TAB_SIZE);
    } else {
      assert [s[0]][1..] == [];
    }
  }

  lemma FrontIsTab(column: nat)
    ensures IsTab(column, Front('\t', column))
  {
    NextStop(column);
  }

  lemma NextStop(column: nat)
    ensures var n := 4 - column % 4; 1 <= n <= 4 && (column + n) % 4 == 0
  {
  }

  /** One to four spaces that lead from this column to a multiple of four. */
  predicate IsTab(column: nat, spaces: string) {
    1 <= |spaces| <= 4 && (column + |spaces|) % 4 == 0 && forall c | c in spaces :: c == ' '
  }

  /** So the characters are expanded one after the other, each from the column that the output has reached. */
  lemma {:induction false} ExpandedCharacter(s: string, c: char, column: nat)
    ensures var at := Column(column, ExpandTabs(s, column));
            ExpandTabs(s + [c], column) == ExpandTabs(s, column) + Front(c, at) && IsTab(at, Front('\t', at))
    decreases |s|
  {
    FrontIsTab(Column(column, ExpandTabs(s, column)));
    if s == [] {
      FrontColumn([c], column);
      assert s + [c] == [c] && [c][1..] == [] && Front(c, column) + [] == Front(c, column);
    } else {
      var front := Front(s[0], column);
      var next := Column(column, front);
      var rest := ExpandTabs(s[1..], next);
      FrontColumn(s, column);
      FrontColumn(s + [c], column);
      assert (s + [c])[0] == s[0] && (s + [c])[1..] == s[1..] + [c];
      ExpandedCharacter(s[1..], c, next);
      ColumnConcat(column, front, rest);
      Assoc(front, rest, Front(c, Column(next, rest)));
    }
  }

  // ---------------------------------------------------------------- lines of a file

  /** What readlines produces: text with a newline at most at the end. */
  predicate IsLine(l: string) {
    l != [] && forall i | 0 <= i < |l| - 1 :: l[i] != '\n'
  }

  predicate Ended(l: string) {
    l != [] && l[|l| - 1] == '\n'
  }

  /** A list of lines as readlines gives it: only the last one may lack its newline. */
  predicate WellCut(ls: seq<string>) {
    && (forall i | 0 <= i < |ls| :: IsLine(ls[i]))
    && (forall i | 0 <= i < |ls| - 1 :: Ended(ls[i]))
  }

  function FirstLine(s: string): (n: nat)
    requires s != []
    ensures 0 < n <= |s| && IsLine(s[..n]) && (n < |s| ==> Ended(s[..n]))
  {
    if s[0] == '\n' || |s| == 1 then 1
    else
      var n := FirstLine(s[1..]);
      assert s[..n + 1] == [s[0]] + s[1..][..n];
      n + 1
  }

  /** file.readlines(). */
  function Lines(s: string): seq<string> {
    if s == [] then [] else [s[..FirstLine(s)]] + Lines(s[FirstLine(s)..])
  }

  /** file.writelines(). */
  function Concat(ls: seq<string>): string {
    if ls == [] then [] else ls[0] + Concat(ls[1..])
  }

  lemma WellCutCons(l: string, ls: seq<string>)
    requires IsLine(l) && WellCut(ls) && (ls != [] ==> Ended(l))
    ensures WellCut([l] + ls)
  {
    forall i | 0 < i < |ls| + 1 ensures ([l] + ls)[i] == ls[i - 1] {}
  }

  lemma ConcatCons(l: string, ls: seq<string>)
    ensures Concat([l] + ls) == l + Concat(ls)
  {
    assert ([l] + ls)[1..] == ls;
  }

  lemma LinesSplit(s: string) returns (l: string, rest: string)
    requires s != []
    ensures s == l + rest && |rest| < |s| && Lines(s) == [l] + Lines(rest)
    ensures IsLine(l) && (Lines(rest) != [] ==> Ended(l))
  {
    var n := FirstLine(s);
    l, rest := s[..n], s[n..];
  }

  lemma {:induction false} EveryLineIsCut(s: string)
    ensures WellCut(Lines(s))
    decreases |s|
  {
    if s != [] {
      var l, rest := LinesSplit(s);
      EveryLineIsCut(rest);
      WellCutCons(l, Lines(rest));
    }
  }

  lemma {:induction false} ConcatOfLines(s: string)
    ensures Concat(Lines(s)) == s
    decreases |s|
  {
    if s != [] {
      var l, rest := LinesSplit(s);
      ConcatOfLines(rest);
      ConcatCons(l, Lines(rest));
    }
  }

  lemma LinesAreWellCut(s: string)
    ensures WellCut(Lines(s))
    ensures Concat(Lines(s)) == s
  {
    EveryLineIsCut(s);
    ConcatOfLines(s);
  }

  lemma {:induction false} FirstLineOf(l: string, rest: string)
    requires IsLine(l) && (Ended(l) || rest == [])
    ensures FirstLine(l + rest) == |l|
  {
    if |l| > 1 {
      assert (l + rest)[1..] == l[1..] + rest;
      assert forall i | 0 <= i < |l| - 2 :: l[1..][i] == l[i + 1];
      FirstLineOf(l[1..], rest);
    } else if !Ended(l) {
      assert l + rest == l;
    }
  }

  /** Reading back what was written gives the same lines. */
  lemma {:induction false} LinesOfConcat(ls: seq<string>)
    requires WellCut(ls)
    ensures Lines(Concat(ls)) == ls
  {
    if ls != [] {
      var rest := Concat(ls[1..]);
      assert WellCut(ls[1..]);
      LinesOfConcat(ls[1..]);
      if |ls| == 1 { assert ls[1..] == []; }
      FirstLineOf(ls[0], rest);
      assert (ls[0] + rest)[..|ls[0]|] == ls[0] && (ls[0] + rest)[|ls[0]|..] == rest;
    }
  }

  // ---------------------------------------------------------------- replace

  /** str.replace. */
  function Replace(s: string, from: string, to: string): string
    requires from != []
  {
    if s == [] then []
    else if from <= s then to + Replace(s[|from|..], from, to)
    else [s[0]] + Replace(s[1..], from, to)
  }

  lemma {:induction false} ReplaceNothing(s: string, from: string, to: string)
    requires from != [] && from[0] !in s
    ensures Replace(s, from, to) == s
  {
    if s != [] {
      assert from[0] != s[0];
      ReplaceNothing(s[1..], from, to);
    }
  }

  lemma ReplaceHere(from: string, post: string, to: string)
    requires from != [] && from[0] !in post
    ensures Replace(from + post, from, to) == to + post
  {
    assert (from + post)[|from|..] == post;
    ReplaceNothing(post, from, to);
  }

  lemma ReplaceLater(c: char, s: string, from: string, to: string)
    requires from != [] && from[0] != c
    ensures Replace([c] + s, from, to) == [c] + Replace(s, from, to)
  {
    assert ([c] + s)[1..] == s;
  }

  lemma FirstApart(pre: string, x: string, post: string)
    requires pre != []
    ensures pre + x + post == [pre[0]] + (pre[1..] + x + post)
  {
    Assoc([pre[0]], pre[1..], x);
    Assoc([pre[0]], pre[1..] + x, post);
    assert pre == [pre[0]] + pre[1..];
  }

  lemma {:induction false} ReplaceOne(pre: string, from: string, post: string, to: string)
    requires from != [] && from[0] !in pre && from[0] !in post
    ensures Replace(pre + from + post, from, to) == pre + to + post
  {
    if pre == [] {
      Assoc([], from, post);
      Assoc([], to, post);
      ReplaceHere(from, post, to);
    } else {
      var rest := pre[1..];
      ReplaceOne(rest, from, post, to);
      ReplaceLater(pre[0], rest + from + post, from, to);
      FirstApart(pre, from, post);
      FirstApart(pre, to, post);
    }
  }
}
