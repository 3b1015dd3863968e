// The three manual checks one after the other, in the order of check_style_clang_format: whitespace without
// guards, then tabs and licences with guards.  No later check undoes what an earlier one has fixed.
module StyleChain {
  import opened PyText
  import opened StyleCheck

  // ---------------------------------------------------------------- what a fixer does to the other checks

  predicate NoTrailing(line: string) {
    line == RStrip(line, Space) + "\n"
  }

  lemma NoTrailingShape(body: string)
    requires body != "" && !IsSpace(body[|body| - 1])
    ensures NoTrailing(body + "\n")
  {
    RStripAround(body, "\n", Space);
    StripAllRight("\n", Space);
  }

  /** Expanding tabs keeps the end of a line. */
  lemma TabsKeepEnds(line: string)
    requires NoTrailing(line)
    ensures NoTrailing(ExpandTabs(line, 0))
  {
    var body := RStrip(line, Space);
    var post := RStripShape(line, Space);
    if body != "" {
      var n := |body| - 1;
      var c1 := ExpandConcat(body, "\n", 0);
      var c2 := ExpandConcat(body[..n], [body[n]], 0);
      assert body == body[..n] + [body[n]];
      assert body[n] != '\t';
      ExpandTabFree([body[n]], c2);
      ExpandTabFree("\n", c1);
      NoTrailingShape(ExpandTabs(body, 0));
    } else {
      ExpandTabFree("\n", 0);
    }
  }

  lemma LastOf(a: string, b: string)
    requires b != ""
    ensures a + b != "" && (a + b)[|a + b| - 1] == b[|b| - 1]
  {
  }

  /** So does replacing the licence text, and it brings in no tab. */
  lemma LicenseKeepsEnds(line: string)
    requires IsLine(line) && CheckLicensesLine(line).fixed != ""
    ensures NoTrailing(line) ==> NoTrailing(CheckLicensesLine(line).fixed)
    ensures '\t' !in line ==> '\t' !in CheckLicensesLine(line).fixed
  {
    if CheckLicensesLine(line).fixed != line {
      var pre, x, post, y := LicenseParts(line);
      TextReplaced(pre, x, post, y);
    }
  }

  lemma LicenseParts(line: string) returns (pre: string, x: string, post: string, y: string)
    requires IsLine(line) && CheckLicensesLine(line).fixed !in ["", line]
    ensures line == pre + x + post && CheckLicensesLine(line).fixed == pre + y + post
    ensures Solid(x, Space) && Solid(y, Space) && '\t' !in y
  {
    SpdxIsSolid();
    GplIsSolid();
    x, y := GPL_LICENSE_LINES[0], SPDX_LICENSE;
    pre, post := UncommentShape(line);
    assert x[0] !in pre && x[0] !in post;
    ReplaceOne(pre, x, post, y);
    NoTabInSpdx();
  }

  lemma NoTabInSpdx()
    ensures '\t' !in SPDX_LICENSE
  {
  }

  lemma TextReplaced(pre: string, x: string, post: string, y: string)
    requires Solid(x, Space) && Solid(y, Space) && '\t' !in y
    ensures NoTrailing(pre + x + post) ==> NoTrailing(pre + y + post)
    ensures '\t' !in pre + x + post ==> '\t' !in pre + y + post
  {
    if NoTrailing(pre + x + post) { EndsKept(pre, x, post, y); }
    assert forall c | c in pre || c in post :: c in pre + x + post;
  }

  lemma EndsKept(pre: string, x: string, post: string, y: string)
    requires Solid(x, Space) && Solid(y, Space) && NoTrailing(pre + x + post)
    ensures NoTrailing(pre + y + post)
  {
    var line := pre + x + post;
    var q := RStrip(post, Space);
    LastOf(pre, x);
    LastOf(pre, y);
    RStripAround(pre + x, post, Space);
    RStripAround(pre + y, post, Space);
    assert line == pre + x + q + "\n";
    assert post == line[|pre + x|..] && q + "\n" == (pre + x + q + "\n")[|pre + x|..];
  }

  /** A licence line is no guard, and neither is what replaces it. */
  lemma LicenseKeepsGuard(line: string)
    requires IsLine(line)
    ensures var r := CheckLicensesLine(line); if r.fixed == "" then !IsGuard(line) else GuardOf(r.fixed) == GuardOf(line)
  {
    if IsGuard(line) { GuardIsNoLicense(line); }
    if Uncomment(line) == GPL_LICENSE_LINES[0] {
      SpdxIsSolid();
      GplIsSolid();
      LicenseLineReplaced(line, GPL_LICENSE_LINES[0], SPDX_LICENSE);
      var r := CheckLicensesLine(line).fixed;
      assert |SPDX_LICENSE| > 20;
      UncommentShorter(r);
      if IsGuard(r) { GuardText(r); }
    }
  }

  // ---------------------------------------------------------------- passes

  ghost predicate KeepsEnds(step: Step, line: string) {
    forall e: bool :: NoTrailing(line) ==> step(e, line).fixed == "" || NoTrailing(step(e, line).fixed)
  }

  lemma {:induction false} EndsKeptByPass(step: Step, enabled: bool, lines: seq<string>)
    requires forall l | l in lines :: KeepsEnds(step, l) && NoTrailing(l)
    ensures forall l | l in NonEmpty(Rewrite(step, enabled, lines)) :: NoTrailing(l)
    decreases |lines|
  {
    if lines != [] {
      assert KeepsEnds(step, lines[0]);
      EndsKeptByPass(step, step(enabled, lines[0]).enabled, lines[1..]);
    }
  }

  /** The whitespace check without guards finds nothing exactly when no line has trailing whitespace. */
  lemma {:induction false} NoTrailingIff(step: Step, enabled: bool, lines: seq<string>, n: nat)
    requires forall e: bool, l: string :: step(e, l).bad <==> !NoTrailing(l)
    ensures Violations(step, enabled, lines, n) == [] <==> forall l | l in lines :: NoTrailing(l)
    decreases |lines|
  {
    if lines != [] {
      NoTrailingIff(step, step(enabled, lines[0]).enabled, lines[1..], n + 1);
      assert lines == [lines[0]] + lines[1..];
    }
  }

  /** A pass of the first step leaves a line on which the second has nothing to report, in the same regions. */
  ghost predicate KeepsClean(first: Step, second: Step, line: string) {
    forall e: bool | !second(e, line).bad ::
      var s := first(e, line);
      && s.enabled == second(e, line).enabled
      && (s.fixed == "" ==> s.enabled == e)
      && (s.fixed != "" ==> !second(e, s.fixed).bad && second(e, s.fixed).enabled == s.enabled)
  }

  lemma {:induction false} CleanKeptByPass(first: Step, second: Step, enabled: bool, lines: seq<string>, n: nat, m: nat)
    requires forall l | l in lines :: KeepsClean(first, second, l)
    requires Violations(second, enabled, lines, n) == []
    ensures Violations(second, enabled, NonEmpty(Rewrite(first, enabled, lines)), m) == []
    decreases |lines|
  {
    if lines != [] {
      assert KeepsClean(first, second, lines[0]) && !second(enabled, lines[0]).bad;
      var s := first(enabled, lines[0]);
      var rest := NonEmpty(Rewrite(first, s.enabled, lines[1..]));
      if s.fixed == "" {
        CleanKeptByPass(first, second, s.enabled, lines[1..], n + 1, m);
      } else {
        CleanKeptByPass(first, second, s.enabled, lines[1..], n + 1, m + 1);
        assert ([s.fixed] + rest)[1..] == rest;
      }
    }
  }

  // ---------------------------------------------------------------- the three checks

  lemma StepKeepsEnds(check: LineCheck, line: string)
    requires NoTrailing(line) ==> check(line).fixed == "" || NoTrailing(check(line).fixed)
    ensures KeepsEnds(StepOf(check, true), line)
  {
    forall e: bool ensures NoTrailing(line) ==>
        StepOf(check, true)(e, line).fixed == "" || NoTrailing(StepOf(check, true)(e, line).fixed) {
      assert StepOf(check, true)(e, line) == TurnOf(true, e, line, GuardOf(line), check(line));
    }
  }

  lemma TurnKeepsClean(e: bool, line: string, g: Guard, r: LineResult, first: LineResult, g': Guard, r': LineResult)
    requires !TurnOf(true, e, line, g, r).bad
    requires first.fixed == "" ==> g == NoGuard
    requires first.fixed != "" ==> g' == g
    requires r.compliant && first.fixed != "" ==> r'.compliant
    ensures var s := TurnOf(true, e, line, g, first);
            && s.enabled == TurnOf(true, e, line, g, r).enabled
            && (s.fixed == first.fixed == "" ==> s.enabled == e)
            && (s.bad && first.fixed != "" ==>
                  var t := TurnOf(true, e, first.fixed, g', r'); !t.bad && t.enabled == s.enabled)
  {
  }

  lemma StepKeepsClean(first: LineCheck, second: LineCheck, line: string)
    requires line != ""
    requires var f := first(line);
             && (f.fixed == "" ==> GuardOf(line) == NoGuard)
             && (f.fixed != "" ==> GuardOf(f.fixed) == GuardOf(line))
             && (second(line).compliant && f.fixed != "" ==> second(f.fixed).compliant)
    ensures KeepsClean(StepOf(first, true), StepOf(second, true), line)
  {
    var f := first(line);
    forall e: bool | !StepOf(second, true)(e, line).bad
      ensures var s := StepOf(first, true)(e, line);
              && s.enabled == StepOf(second, true)(e, line).enabled
              && (s.fixed == "" ==> s.enabled == e)
              && (s.fixed != "" ==>
                    !StepOf(second, true)(e, s.fixed).bad && StepOf(second, true)(e, s.fixed).enabled == s.enabled)
    {
      TurnKeepsClean(e, line, GuardOf(line), second(line), f, GuardOf(f.fixed), second(f.fixed));
    }
  }

  /** What the three checks make of a file. */
  function FixedByAll(content: string): string {
    Fixed(Licenses, true, Fixed(Tabs, true, Fixed(Whitespace, false, content)))
  }

  lemma CleanEnds(content: string)
    ensures IsCompliant(Whitespace, false, content) <==> forall l | l in Lines(content) :: NoTrailing(l)
  {
    var step := StepOf(Whitespace.CheckLine, false);
    forall e: bool, l: string ensures step(e, l).bad <==> !NoTrailing(l) {
      assert step(e, l) == TurnOf(false, e, l, GuardOf(l), Whitespace.CheckLine(l));
    }
    NoTrailingIff(step, true, Lines(content), 0);
  }

  lemma TabsKeepWhitespace(content: string)
    requires IsCompliant(Whitespace, false, content)
    ensures IsCompliant(Whitespace, false, Fixed(Tabs, true, content))
  {
    CleanEnds(content);
    forall l | l in Lines(content) ensures KeepsEnds(StepOf(Tabs.CheckLine, true), l) {
      TabsKeepEnds(l);
      StepKeepsEnds(Tabs.CheckLine, l);
    }
    EndsKeptByPass(StepOf(Tabs.CheckLine, true), true, Lines(content));
    LinesOfFixed(Tabs, true, content);
    CleanEnds(Fixed(Tabs, true, content));
  }

  lemma LicensesKeepWhitespace(content: string)
    requires IsCompliant(Whitespace, false, content)
    ensures IsCompliant(Whitespace, false, Fixed(Licenses, true, content))
  {
    CleanEnds(content);
    LinesAreWellCut(content);
    forall l | l in Lines(content) ensures KeepsEnds(StepOf(Licenses.CheckLine, true), l) {
      if CheckLicensesLine(l).fixed != "" { LicenseKeepsEnds(l); }
      StepKeepsEnds(Licenses.CheckLine, l);
    }
    EndsKeptByPass(StepOf(Licenses.CheckLine, true), true, Lines(content));
    LinesOfFixed(Licenses, true, content);
    CleanEnds(Fixed(Licenses, true, content));
  }

  lemma LicensesKeepTabless(content: string)
    requires IsCompliant(Tabs, true, content)
    ensures IsCompliant(Tabs, true, Fixed(Licenses, true, content))
  {
    LinesAreWellCut(content);
    var first, second := StepOf(Licenses.CheckLine, true), StepOf(Tabs.CheckLine, true);
    forall l | l in Lines(content) ensures KeepsClean(first, second, l) {
      LicenseKeepsGuard(l);
      if CheckLicensesLine(l).fixed != "" { LicenseKeepsEnds(l); }
      StepKeepsClean(Licenses.CheckLine, Tabs.CheckLine, l);
    }
    CleanKeptByPass(first, second, true, Lines(content), 0, 0);
    LinesOfFixed(Licenses, true, content);
  }

  /** After the three checks have fixed a file, all three find it compliant and leave it as it is. */
  lemma ChainIsClean(content: string)
    ensures var f := FixedByAll(content);
            && IsCompliant(Whitespace, false, f) && IsCompliant(Tabs, true, f) && IsCompliant(Licenses, true, f)
            && Fixed(Whitespace, false, f) == f && Fixed(Tabs, true, f) == f && Fixed(Licenses, true, f) == f
  {
    var w := Fixed(Whitespace, false, content);
    var t := Fixed(Tabs, true, w);
    var f := Fixed(Licenses, true, t);
    FixIsIdempotent(Whitespace, false, content);
    FixIsIdempotent(Tabs, true, w);
    FixIsIdempotent(Licenses, true, t);
    TabsKeepWhitespace(w);
    LicensesKeepWhitespace(t);
    LicensesKeepTabless(t);
    CompliantIffFixed(Whitespace, false, f);
    CompliantIffFixed(Tabs, true, f);
  }

  /** So a second run of all three changes nothing. */
  lemma ChainIsIdempotent(content: string)
    ensures FixedByAll(FixedByAll(content)) == FixedByAll(content)
  {
    ChainIsClean(content);
  }
}
