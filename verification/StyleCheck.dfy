// The manual style checks of utils/check-style-clang-format.py: a two-state guard machine runs
// over the lines of a file and hands the enabled ones to a line checker, which may rewrite them.
module StyleCheck {
  import opened PyText

  const FORMAT_GUARD_ON := ["// clang-format on", "# cmake-format: on", "# fmt: on"]
  const FORMAT_GUARD_OFF := ["// clang-format off", "# cmake-format: off", "# fmt: off"]

  const GPL_LICENSE_LINES := [
    "This program is free software;" + " you can redistribute it and/or modify",
    "it under the terms of the GNU General Public License version 2 as",
    "published by the Free Software Foundation;",
    "This program is distributed in the hope that it will be useful,",
    "but WITHOUT ANY WARRANTY; without even the implied warranty of",
    "MERCHANTABILITY or FITNESS FOR A PARTICULAR PURPOSE.  See the",
    "GNU General Public License for more details.",
    "You should have received a copy of the GNU General Public License",
    "along with this program; if not, write to the Free Software",
    "Foundation, Inc., 59 Temple Place, Suite 330, Boston, MA  02111-1307  USA"
  ]
  const SPDX_LICENSE := "SPDX-License-Identifier: GPL-2.0-only"

  // ---------------------------------------------------------------- the line checkers

  datatype LineResult = LineResult(compliant: bool, fixed: string)

  function CheckWhitespaceLine(line: string): LineResult {
    var fixed := RStrip(line, Space) + "\n";
    LineResult(fixed == line, fixed)
  }

  function CheckTabsLine(line: string): LineResult {
    if '\t' in line then LineResult(false, ExpandTabs(line, 0)) else LineResult(true, line)
  }

  /** The text of a line inside its comment markers. */
  function Uncomment(line: string): string {
    Strip(Strip(Strip(line, Space), Comment), Space)
  }

  function CheckLicensesLine(line: string): LineResult {
    var text := Uncomment(line);
    if text !in GPL_LICENSE_LINES then LineResult(true, line)
    else if text == GPL_LICENSE_LINES[0] then LineResult(false, Replace(line, GPL_LICENSE_LINES[0], SPDX_LICENSE))
    else LineResult(false, "")
  }

  type LineCheck = string -> LineResult

  datatype Checker = Whitespace | Tabs | Licenses {
    function CheckLine(line: string): LineResult {
      match this
      case Whitespace => CheckWhitespaceLine(line)
      case Tabs => CheckTabsLine(line)
      case Licenses => CheckLicensesLine(line)
    }
  }

  datatype Guard = On | Off | NoGuard

  function GuardOf(line: string): Guard {
    if Strip(line, Space) in FORMAT_GUARD_ON then On
    else if Strip(line, Space) in FORMAT_GUARD_OFF then Off
    else NoGuard
  }

  predicate IsGuard(line: string) {
    GuardOf(line) != NoGuard
  }

  /** What the second pass needs to know about one rewritten line.  A line that was no guard may
      become one (a tab before "on" can expand to one space), but a guard stays the same guard. */
  ghost predicate FixedWell(check: LineCheck, line: string) {
    var r := check(line);
    && (r.compliant <==> r.fixed == line)
    && (r.fixed != "" ==> IsLine(r.fixed) && check(r.fixed).compliant)
    && (r.fixed != "" && Ended(line) ==> Ended(r.fixed))
    && (IsGuard(line) ==> r.fixed != "" && GuardOf(r.fixed) == GuardOf(line))
  }

  lemma FixedWhitespace(line: string)
    requires IsLine(line)
    ensures FixedWell(CheckWhitespaceLine, line)
  {
    var r := RStrip(line, Space);
    var post := RStripShape(line, Space);
    assert r + "\n" == r + "\n" + "";
    if r == "" {
      StripAllRight("\n", Space);
    } else {
      RStripAround(r, "\n", Space);
      StripAllRight("\n", Space);
    }
    assert RStrip(r + "\n", Space) == r;
    forall i | 0 <= i < |r| ensures r[i] != '\n' {
      assert r[i] == line[i];
    }
  }

  lemma GuardText(line: string)
    requires IsGuard(line)
    ensures var g := Strip(line, Space); Solid(g, Space) && '\t' !in g && |g| < 20
  {
  }

  lemma GuardSurvivesTabs(line: string)
    requires IsGuard(line)
    ensures Strip(ExpandTabs(line, 0), Space) == Strip(line, Space)
  {
    GuardText(line);
    var pre, post := StripShape(line, Space);
    var g := Strip(line, Space);
    var c1 := ExpandConcat(pre + g, post, 0);
    var c2 := ExpandConcat(pre, g, 0);
    ExpandTabFree(g, c2);
    ExpandSpace(pre, 0);
    ExpandSpace(post, c1);
    StripTo(ExpandTabs(pre, 0), g, ExpandTabs(post, c1), Space);
  }

  lemma FixedTabs(line: string)
    requires IsLine(line)
    ensures FixedWell(CheckTabsLine, line)
  {
    ExpandRemovesTabs(line, 0);
    if IsGuard(line) { GuardSurvivesTabs(line); }
  }

  // The licence line: text inside comment markers is replaced without disturbing what is around it.

  lemma UncommentShape(line: string) returns (pre: string, post: string)
    requires Uncomment(line) != ""
    ensures line == pre + Uncomment(line) + post
    ensures forall c | c in pre || c in post :: IsSpace(c) || Comment.Has(c)
    ensures Solid(Uncomment(line), Space)
  {
    var a := Strip(line, Space);
    var b := Strip(a, Comment);
    var w1, w2 := StripShape(line, Space);
    var c1, c2 := StripShape(a, Comment);
    var w3, w4 := StripShape(b, Space);
    pre, post := w1 + c1 + w3, w4 + c2 + w2;
    Reassociate(w1, c1, w3, Uncomment(line), w4, c2, w2);
  }

  lemma Reassociate(w1: string, c1: string, w3: string, x: string, w4: string, c2: string, w2: string)
    ensures w1 + (c1 + (w3 + x + w4) + c2) + w2 == (w1 + c1 + w3) + x + (w4 + c2 + w2)
  {
  }

  lemma UncommentAround(pre: string, x: string, post: string)
    requires Solid(x, Space) && Solid(x, Comment)
    ensures Uncomment(pre + x + post)
         == LStrip(LStrip(LStrip(pre, Space), Comment), Space) + x
            + RStrip(RStrip(RStrip(post, Space), Comment), Space)
  {
    StripAround(pre, x, post, Space);
    var p1, q1 := LStrip(pre, Space), RStrip(post, Space);
    StripAround(p1, x, q1, Comment);
    StripAround(LStrip(p1, Comment), x, RStrip(q1, Comment), Space);
  }

  /** Replacing the text of a comment line by another text makes that the text of the line. */
  lemma UncommentReplaced(pre: string, x: string, post: string, y: string)
    requires Solid(x, Space) && Solid(x, Comment) && Solid(y, Space) && Solid(y, Comment)
    requires Uncomment(pre + x + post) == x
    ensures Uncomment(pre + y + post) == y
  {
    UncommentAround(pre, x, post);
    UncommentAround(pre, y, post);
  }

  lemma LicenseTexts()
    ensures SPDX_LICENSE !in GPL_LICENSE_LINES
    ensures forall t | t in GPL_LICENSE_LINES :: |t| > 40
  {
    assert |SPDX_LICENSE| < 40;
  }

  lemma SpdxIsSolid()
    ensures Solid(SPDX_LICENSE, Space) && Solid(SPDX_LICENSE, Comment) && '\n' !in SPDX_LICENSE
  {
  }

  lemma GplIsSolid()
    ensures Solid(GPL_LICENSE_LINES[0], Space) && Solid(GPL_LICENSE_LINES[0], Comment)
  {
    var a, b := "This program is free software;", " you can redistribute it and/or modify";
    assert GPL_LICENSE_LINES[0] == a + b;
    assert a[0] == 'T' && b[|b| - 1] == 'y';
  }

  lemma UncommentShorter(line: string)
    ensures |Uncomment(line)| <= |Strip(line, Space)|
  {
    var a := Strip(line, Space);
    var c1, c2 := StripShape(a, Comment);
    var w3, w4 := StripShape(Strip(a, Comment), Space);
  }

  lemma ReplacedIsLine(pre: string, x: string, post: string, y: string)
    requires IsLine(pre + x + post) && x != "" && y != "" && '\n' !in y && x[|x| - 1] != '\n'
    ensures IsLine(pre + y + post) && (Ended(pre + x + post) ==> Ended(pre + y + post))
  {
    var s, t := pre + x + post, pre + y + post;
    forall i | 0 <= i < |t| - 1 ensures t[i] != '\n' {
      if i < |pre| { assert t[i] == s[i]; }
      else if i < |pre| + |y| { assert t[i] == y[i - |pre|]; }
      else { assert t[i] == s[i - |y| + |x|]; }
    }
    if post == "" { assert s[|s| - 1] == x[|x| - 1]; } else { assert t[|t| - 1] == s[|s| - 1]; }
  }

  lemma LicenseLineReplaced(line: string, x: string, y: string)
    requires IsLine(line) && Uncomment(line) == x && '\n' !in y
    requires Solid(x, Space) && Solid(x, Comment) && Solid(y, Space) && Solid(y, Comment)
    ensures var r := Replace(line, x, y);
            IsLine(r) && Uncomment(r) == y && (Ended(line) ==> Ended(r))
  {
    var pre, post := UncommentShape(line);
    assert x[0] !in pre && x[0] !in post;
    ReplaceOne(pre, x, post, y);
    UncommentReplaced(pre, x, post, y);
    assert IsSpace('\n');
    ReplacedIsLine(pre, x, post, y);
  }

  lemma GuardIsNoLicense(line: string)
    requires IsGuard(line)
    ensures Uncomment(line) !in GPL_LICENSE_LINES
  {
    GuardText(line);
    UncommentShorter(line);
    LicenseTexts();
  }

  lemma FixedLicenses(line: string)
    requires IsLine(line)
    ensures FixedWell(CheckLicensesLine, line)
  {
    LicenseTexts();
    if IsGuard(line) { GuardIsNoLicense(line); }
    if Uncomment(line) == GPL_LICENSE_LINES[0] {
      SpdxIsSolid();
      GplIsSolid();
      LicenseLineReplaced(line, GPL_LICENSE_LINES[0], SPDX_LICENSE);
    }
  }

  lemma FixedByChecker(ck: Checker, line: string)
    requires IsLine(line)
    ensures FixedWell(ck.CheckLine, line)
  {
    match ck
    case Whitespace => FixedWhitespace(line);
    case Tabs => FixedTabs(line);
    case Licenses => FixedLicenses(line);
  }

  // ---------------------------------------------------------------- one pass over the lines

  /** clang_format_enabled after looking at a line. */
  function NextEnabled(respect: bool, enabled: bool, g: Guard): bool {
    if !respect || g == NoGuard then enabled else g == On
  }

  /** Whether the line checker sees the line. */
  predicate Checked(respect: bool, enabled: bool, g: Guard) {
    !respect || enabled || g != NoGuard
  }

  /** What one turn of the loop makes of a line: the new clang_format_enabled, whether the line is
      reported, and the line it leaves when it fixes (empty when it deletes the line). */
  datatype LineStep = LineStep(enabled: bool, bad: bool, fixed: string)

  type Step = (bool, string) -> LineStep

  function TurnOf(respect: bool, enabled: bool, line: string, g: Guard, r: LineResult): LineStep {
    var e := NextEnabled(respect, enabled, g);
    if Checked(respect, e, g) && !r.compliant then LineStep(e, true, r.fixed) else LineStep(e, false, line)
  }

  function StepOf(check: LineCheck, respect: bool): Step {
    (enabled: bool, line: string) => TurnOf(respect, enabled, line, GuardOf(line), check(line))
  }

  /** The lines after fixing, from a given state of the guard machine; a deleted line is empty. */
  function Rewrite(step: Step, enabled: bool, lines: seq<string>): seq<string>
    decreases |lines|
  {
    if lines == [] then []
    else
      var s := step(enabled, lines[0]);
      [s.fixed] + Rewrite(step, s.enabled, lines[1..])
  }

  /** The numbers of the checked lines that are not compliant; n is the number of the first line. */
  function Violations(step: Step, enabled: bool, lines: seq<string>, n: nat): seq<nat>
    decreases |lines|
  {
    if lines == [] then []
    else
      var s := step(enabled, lines[0]);
      (if s.bad then [n] else []) + Violations(step, s.enabled, lines[1..], n + 1)
  }

  /** The file that check_manually_file leaves behind when it fixes. */
  function Fixed(ck: Checker, respect: bool, content: string): string {
    Concat(Rewrite(StepOf(ck.CheckLine, respect), true, Lines(content)))
  }

  function IsCompliant(ck: Checker, respect: bool, content: string): bool {
    Violations(StepOf(ck.CheckLine, respect), true, Lines(content), 0) == []
  }

  function NonEmpty(lines: seq<string>): seq<string> {
    if lines == [] then []
    else if lines[0] == "" then NonEmpty(lines[1..])
    else [lines[0]] + NonEmpty(lines[1..])
  }

  lemma {:induction false} ConcatNonEmpty(lines: seq<string>)
    ensures Concat(NonEmpty(lines)) == Concat(lines)
  {
    if lines != [] {
      ConcatNonEmpty(lines[1..]);
      ConcatCons(lines[0], NonEmpty(lines[1..]));
    }
  }

  /** What the proofs below use of a step.  The last clause relates a second pass to the first: on a
      rewritten line it finds nothing, in a state where at most the same regions are enabled. */
  ghost predicate StepWell(step: Step, line: string) {
    forall e1: bool, e2: bool | e2 ==> e1 :: StepWellFrom(step, line, e1, e2)
  }

  ghost predicate StepWellFrom(step: Step, line: string, e1: bool, e2: bool) {
    var s := step(e1, line);
    && (s.bad <==> s.fixed != line)
    && (s.fixed != "" ==> IsLine(s.fixed))
    && (s.fixed != "" && Ended(line) ==> Ended(s.fixed))
    && (s.fixed == "" && e2 ==> s.enabled)
    && (s.fixed != "" ==> !step(e2, s.fixed).bad && (step(e2, s.fixed).enabled ==> s.enabled))
  }

  /** New guards only appear in enabled regions: a line has guard g and result r in the first pass,
      its fixed form has guard g' and result r' in the second. */
  lemma TurnIsWell(respect: bool, e1: bool, e2: bool, line: string, g: Guard, r: LineResult, g': Guard, r': LineResult)
    requires e2 ==> e1
    requires r.compliant <==> r.fixed == line
    requires r.compliant || g != NoGuard ==> g' == g
    requires r.fixed == "" ==> g == NoGuard
    requires r.fixed != "" ==> r'.compliant
    ensures var s := TurnOf(respect, e1, line, g, r);
            && (s.bad <==> s.fixed != line)
            && (s.fixed == "" && e2 ==> s.enabled)
            && (s.fixed == r.fixed != "" ==>
                  var t := TurnOf(respect, e2, r.fixed, g', r'); !t.bad && (t.enabled ==> s.enabled))
            && (s.fixed == line != "" ==>
                  var t := TurnOf(respect, e2, line, g, r); !t.bad && (t.enabled ==> s.enabled))
  {
  }

  lemma StepIsWell(check: LineCheck, respect: bool, line: string)
    requires IsLine(line) && FixedWell(check, line)
    ensures StepWell(StepOf(check, respect), line)
  {
    var r := check(line);
    forall e1: bool, e2: bool | e2 ==> e1 ensures StepWellFrom(StepOf(check, respect), line, e1, e2) {
      TurnIsWell(respect, e1, e2, line, GuardOf(line), r, GuardOf(r.fixed), check(r.fixed));
    }
  }

  lemma {:induction false} RewriteWellCut(step: Step, enabled: bool, lines: seq<string>)
    requires WellCut(lines) && forall i | 0 <= i < |lines| :: StepWell(step, lines[i])
    ensures WellCut(NonEmpty(Rewrite(step, enabled, lines)))
    decreases |lines|
  {
    if lines != [] {
      var s := step(enabled, lines[0]);
      assert WellCut(lines[1..]);
      RewriteWellCut(step, s.enabled, lines[1..]);
      var rest := NonEmpty(Rewrite(step, s.enabled, lines[1..]));
      assert StepWell(step, lines[0]) && StepWellFrom(step, lines[0], enabled, enabled);
      if s.fixed != "" { WellCutCons(s.fixed, rest); }
    }
  }

  /** The second pass over the rewritten lines finds nothing.  The invariant between the passes is that
      a region enabled in the second was enabled in the first. */
  lemma {:induction false} SecondPassIsClean(step: Step, e1: bool, e2: bool, lines: seq<string>, n: nat)
    requires forall i | 0 <= i < |lines| :: StepWell(step, lines[i])
    requires e2 ==> e1
    ensures Violations(step, e2, NonEmpty(Rewrite(step, e1, lines)), n) == []
    decreases |lines|
  {
    if lines != [] {
      assert StepWell(step, lines[0]) && StepWellFrom(step, lines[0], e1, e2);
      var s := step(e1, lines[0]);
      var rest := Rewrite(step, s.enabled, lines[1..]);
      if s.fixed == "" {
        SecondPassIsClean(step, s.enabled, e2, lines[1..], n);
      } else {
        SecondPassIsClean(step, s.enabled, step(e2, s.fixed).enabled, lines[1..], n + 1);
        assert ([s.fixed] + NonEmpty(rest))[1..] == NonEmpty(rest);
      }
    }
  }

  /** A pass that finds nothing changes nothing, and one that finds something changes the file. */
  lemma {:induction false} CleanIsUnchanged(step: Step, enabled: bool, lines: seq<string>, n: nat)
    requires forall i | 0 <= i < |lines| :: StepWell(step, lines[i])
    ensures Violations(step, enabled, lines, n) == [] <==> Rewrite(step, enabled, lines) == lines
    decreases |lines|
  {
    if lines != [] {
      assert StepWell(step, lines[0]) && StepWellFrom(step, lines[0], enabled, enabled);
      CleanIsUnchanged(step, step(enabled, lines[0]).enabled, lines[1..], n + 1);
      var r := Rewrite(step, enabled, lines);
      assert r == [r[0]] + r[1..] && lines == [lines[0]] + lines[1..];
    }
  }

  lemma StepsAreWell(ck: Checker, respect: bool, lines: seq<string>)
    requires forall i | 0 <= i < |lines| :: IsLine(lines[i])
    ensures forall i | 0 <= i < |lines| :: StepWell(StepOf(ck.CheckLine, respect), lines[i])
  {
    forall i | 0 <= i < |lines| ensures StepWell(StepOf(ck.CheckLine, respect), lines[i]) {
      FixedByChecker(ck, lines[i]);
      StepIsWell(ck.CheckLine, respect, lines[i]);
    }
  }

  /** The lines read back from a fixed file. */
  lemma LinesOfFixed(ck: Checker, respect: bool, content: string)
    ensures Lines(Fixed(ck, respect, content))
         == NonEmpty(Rewrite(StepOf(ck.CheckLine, respect), true, Lines(content)))
    ensures WellCut(Lines(Fixed(ck, respect, content)))
  {
    var lines := Lines(content);
    var fixed := Rewrite(StepOf(ck.CheckLine, respect), true, lines);
    LinesAreWellCut(content);
    StepsAreWell(ck, respect, lines);
    RewriteWellCut(StepOf(ck.CheckLine, respect), true, lines);
    ConcatNonEmpty(fixed);
    LinesOfConcat(NonEmpty(fixed));
  }

  /** Running the fixer on its own output reports compliance and changes nothing. */
  lemma FixIsIdempotent(ck: Checker, respect: bool, content: string)
    ensures IsCompliant(ck, respect, Fixed(ck, respect, content))
    ensures Fixed(ck, respect, Fixed(ck, respect, content)) == Fixed(ck, respect, content)
  {
    var step := StepOf(ck.CheckLine, respect);
    var lines := Lines(content);
    var fixed := Rewrite(step, true, lines);
    LinesAreWellCut(content);
    StepsAreWell(ck, respect, lines);
    LinesOfFixed(ck, respect, content);
    SecondPassIsClean(step, true, true, lines, 0);
    StepsAreWell(ck, respect, NonEmpty(fixed));
    CleanIsUnchanged(step, true, NonEmpty(fixed), 0);
    ConcatNonEmpty(fixed);
  }

  /** A file is compliant exactly when fixing it would not change it. */
  lemma CompliantIffFixed(ck: Checker, respect: bool, content: string)
    ensures IsCompliant(ck, respect, content) <==> Fixed(ck, respect, content) == content
  {
    var lines := Lines(content);
    LinesAreWellCut(content);
    StepsAreWell(ck, respect, lines);
    CleanIsUnchanged(StepOf(ck.CheckLine, respect), true, lines, 0);
    if Fixed(ck, respect, content) == content {
      FixIsIdempotent(ck, respect, content);
    }
  }

  /** Expanding a tab can create a guard line, so the second pass may leave out lines that the first checked. */
  lemma ExpansionCanMakeGuard()
    ensures var line := " # fmt:" + "\toff\n"; !IsGuard(line) && IsGuard(CheckTabsLine(line).fixed)
  {
    var line := " # fmt:" + "\toff\n";
    assert !IsGuard(line) by {
      if IsGuard(line) {
        assert line == " " + "# fmt:\toff" + "\n";
        StripTo(" ", "# fmt:\toff", "\n", Space);
        assert "# fmt:\toff"[6] == '\t';
        GuardText(line);
        assert false;
      }
    }
    assert line[7] == '\t';
    ExpandedGuard();
    StripTo(" ", "# fmt: off", "\n", Space);
    assert "# fmt: off" == FORMAT_GUARD_OFF[2];
  }

  lemma ExpandedGuard()
    ensures ExpandTabs(" # fmt:" + "\toff\n", 0) == " " + "# fmt: off" + "\n"
  {
    ExpandPlain(" # fmt:", "\toff\n", 0);
    assert "\toff\n"[1..] == "off\n";
    ExpandTabFree("off\n", 8);
    assert Spaces(1) == " ";
    assert " # fmt:" + (" " + "off\n") == " " + "# fmt: off" + "\n";
  }

  // ---------------------------------------------------------------- which lines are checked, and what for

  predicate SwitchesOn(line: string) {
    Strip(line, Space) in FORMAT_GUARD_ON
  }

  predicate SwitchesOff(line: string) {
    Strip(line, Space) in FORMAT_GUARD_OFF
  }

  /** Line i is checked when guards are not respected, when it is a guard itself, when the last guard before it
      switches on, and when there is no guard before it. */
  ghost predicate IsChecked(respect: bool, lines: seq<string>, i: nat)
    requires i < |lines|
  {
    || !respect || SwitchesOn(lines[i]) || SwitchesOff(lines[i])
    || (exists k :: 0 <= k < i && SwitchesOn(lines[k]) && NoGuards(lines, k + 1, i))
    || NoGuards(lines, 0, i)
  }

  predicate NoGuards(lines: seq<string>, lo: int, hi: int) {
    forall m | 0 <= lo <= m < hi && m < |lines| :: !SwitchesOn(lines[m]) && !SwitchesOff(lines[m])
  }

  /** What is wrong with a line: it does not end in a newline right after its last visible character, it has a
      tab, or its text without comment markers is a line of the licence. */
  predicate IsBad(ck: Checker, line: string) {
    match ck
    case Whitespace => !(line != "" && line[|line| - 1] == '\n' && (|line| > 1 ==> !IsSpace(line[|line| - 2])))
    case Tabs => '\t' in line
    case Licenses => Uncomment(line) in GPL_LICENSE_LINES
  }

  lemma WhitespaceBadIff(line: string)
    ensures CheckWhitespaceLine(line).compliant <==> !IsBad(Whitespace, line)
  {
    var body := RStrip(line, Space);
    var post := RStripShape(line, Space);
    if !IsBad(Whitespace, line) {
      var n := |line| - 1;
      assert line == line[..n] + "\n";
      StripAllRight("\n", Space);
      if n > 0 { RStripAround(line[..n], "\n", Space); }
    }
  }

  lemma BadIff(ck: Checker, line: string)
    ensures ck.CheckLine(line).compliant <==> !IsBad(ck, line)
  {
    if ck.Whitespace? { WhitespaceBadIff(line); }
  }

  /** Only trailing whitespace goes, and one newline comes in its place. */
  lemma OnlyTrailingGoes(line: string) returns (body: string, space: string)
    ensures line == body + space && All(space, Space) && CheckWhitespaceLine(line).fixed == body + "\n"
    ensures body != "" ==> !IsSpace(body[|body| - 1])
  {
    body := RStrip(line, Space);
    space := RStripShape(line, Space);
  }

  predicate AllIn(s: string, cs: seq<char>) {
    forall c | c in s :: c in cs
  }

  predicate AllBlank(s: string) {
    AllIn(s, [' ', '\t', '\n'])
  }

  predicate AllMarkers(s: string) {
    AllIn(s, ['*', '#', '/'])
  }

  /** Blanks, comment markers and blanks again are taken off a text, before it and behind it. */
  lemma MarkersGo(a: string, b: string, c: string, x: string, z: string, y: string, w: string)
    requires AllBlank(a) && AllMarkers(b) && AllBlank(c) && AllBlank(z) && AllMarkers(y) && AllBlank(w)
    requires b != "" && (y == "" ==> z == "") && Solid(x, Space) && Solid(x, Comment)
    ensures Uncomment(a + (b + (c + x + z) + y) + w) == x
  {
    var inner := c + x + z;
    MarkedIsSolid(b, c, x, z, y);
    BlanksAreSpace(a, w);
    StripTo(a, b + inner + y, w, Space);
    InnerIsSolid(c, x, z);
    StripTo(b, inner, y, Comment);
    BlanksAreSpace(c, z);
    StripTo(c, x, z, Space);
  }

  lemma BlanksAreSpace(a: string, b: string)
    requires AllBlank(a) && AllBlank(b)
    ensures All(a, Space) && All(b, Space)
  {
    forall d | d in a || d in b ensures IsSpace(d) { AsciiSpaces(d); }
  }

  lemma InnerIsSolid(c: string, x: string, z: string)
    requires AllBlank(c) && AllBlank(z) && Solid(x, Comment)
    ensures Solid(c + x + z, Comment)
  {
    var s := c + x + z;
    assert c != "" ==> s[0] == c[0] && c[0] in c;
    assert c == "" ==> s[0] == x[0];
    assert z != "" ==> s[|s| - 1] == z[|z| - 1] && z[|z| - 1] in z;
    assert z == "" ==> s[|s| - 1] == x[|x| - 1];
  }

  lemma MarkedIsSolid(b: string, c: string, x: string, z: string, y: string)
    requires AllMarkers(b) && AllMarkers(y) && b != "" && (y == "" ==> z == "") && Solid(x, Space)
    ensures Solid(b + (c + x + z) + y, Space)
  {
    var s := b + (c + x + z) + y;
    assert s[0] == b[0] && b[0] in b;
    AsciiSpaces(s[0]);
    AsciiSpaces(s[|s| - 1]);
    assert y != "" ==> s[|s| - 1] == y[|y| - 1] && y[|y| - 1] in y;
    assert y == "" ==> s[|s| - 1] == x[|x| - 1];
  }

  /** The first line of the licence text gives way to the SPDX line between the same comment markers; a line with
      another part of the text goes altogether. */
  lemma LicenseGoes(line: string) returns (pre: string, post: string)
    requires IsBad(Licenses, line)
    ensures line == pre + Uncomment(line) + post && forall c | c in pre || c in post :: IsSpace(c) || c in ['*', '#', '/']
    ensures CheckLicensesLine(line).fixed
         == if Uncomment(line) == GPL_LICENSE_LINES[0] then pre + SPDX_LICENSE + post else ""
  {
    LicenseTexts();
    pre, post := UncommentShape(line);
    if Uncomment(line) == GPL_LICENSE_LINES[0] {
      GplIsSolid();
      assert GPL_LICENSE_LINES[0][0] !in pre && GPL_LICENSE_LINES[0][0] !in post;
      ReplaceOne(pre, GPL_LICENSE_LINES[0], post, SPDX_LICENSE);
    }
  }

  // The regions, over the guards alone.

  ghost predicate InRegion(gs: seq<Guard>, e: bool, i: nat)
    requires i <= |gs|
  {
    || (exists k :: 0 <= k < i && gs[k] == On && Quiet(gs, k + 1, i))
    || (e && Quiet(gs, 0, i))
  }

  predicate Quiet(gs: seq<Guard>, lo: nat, hi: nat)
    requires hi <= |gs|
  {
    forall m | lo <= m < hi :: gs[m] == NoGuard
  }

  lemma RegionNext(gs: seq<Guard>, e: bool, i: nat)
    requires 0 < i <= |gs|
    ensures InRegion(gs, e, i) <==> InRegion(gs[1..], if gs[0] == NoGuard then e else gs[0] == On, i - 1)
  {
    var rest := gs[1..];
    var d := if gs[0] == NoGuard then e else gs[0] == On;
    assert forall m | 0 <= m < i - 1 :: rest[m] == gs[m + 1];
    assert Quiet(gs, 1, i) <==> Quiet(rest, 0, i - 1) by {
      if Quiet(gs, 1, i) { forall m | 0 <= m < i - 1 ensures rest[m] == NoGuard { assert gs[m + 1] == NoGuard; } }
      if Quiet(rest, 0, i - 1) { forall m | 1 <= m < i ensures gs[m] == NoGuard { assert rest[m - 1] == NoGuard; } }
    }
    if k :| 0 <= k < i && gs[k] == On && Quiet(gs, k + 1, i) {
      if k > 0 {
        forall m | k <= m < i - 1 ensures rest[m] == NoGuard { assert gs[m + 1] == NoGuard; }
        assert rest[k - 1] == On && Quiet(rest, k, i - 1);
      }
    }
    if k :| 0 <= k < i - 1 && rest[k] == On && Quiet(rest, k + 1, i - 1) {
      forall m | k + 2 <= m < i ensures gs[m] == NoGuard { assert rest[m - 1] == NoGuard; }
      assert gs[k + 1] == On && Quiet(gs, k + 2, i);
    }
    if d && Quiet(rest, 0, i - 1) && gs[0] == On { assert Quiet(gs, 0 + 1, i); }
  }

  /** The step is the turn of the loop for these lines, with these guards and these results of the checker. */
  ghost predicate Turns(step: Step, respect: bool, lines: seq<string>, gs: seq<Guard>, rs: seq<LineResult>) {
    && |lines| == |gs| == |rs|
    && forall k, e: bool | 0 <= k < |lines| :: step(e, lines[k]) == TurnOf(respect, e, lines[k], gs[k], rs[k])
  }

  ghost predicate IsLooked(respect: bool, e: bool, gs: seq<Guard>, i: nat)
    requires i < |gs|
  {
    !respect || gs[i] != NoGuard || InRegion(gs, e, i)
  }

  predicate Ascending(v: seq<nat>, lo: nat, hi: nat) {
    && (forall x | x in v :: lo <= x < hi)
    && (forall a, b | 0 <= a < b < |v| :: v[a] < v[b])
  }

  lemma AscendingCons(n: nat, v: seq<nat>, hi: nat)
    requires Ascending(v, n + 1, hi) && n < hi
    ensures Ascending(v, n, hi) && Ascending([n] + v, n, hi)
  {
    assert forall a | 0 <= a < |v| :: v[a] in v;
  }

  /** The lines are reported in their order, each once. */
  lemma {:induction false} ViolationsInOrder(step: Step, e: bool, lines: seq<string>, n: nat)
    ensures Ascending(Violations(step, e, lines, n), n, n + |lines|)
    decreases |lines|
  {
    if lines != [] {
      var s := step(e, lines[0]);
      var rest := Violations(step, s.enabled, lines[1..], n + 1);
      ViolationsInOrder(step, s.enabled, lines[1..], n + 1);
      AscendingCons(n, rest, n + |lines|);
      assert [] + rest == rest;
    }
  }

  lemma {:induction false} RewriteLength(step: Step, e: bool, lines: seq<string>)
    ensures |Rewrite(step, e, lines)| == |lines|
    decreases |lines|
  {
    if lines != [] { RewriteLength(step, step(e, lines[0]).enabled, lines[1..]); }
  }

  lemma FirstLooked(respect: bool, e: bool, gs: seq<Guard>)
    requires gs != []
    ensures Checked(respect, NextEnabled(respect, e, gs[0]), gs[0]) <==> IsLooked(respect, e, gs, 0)
  {
  }

  lemma LaterLooked(respect: bool, e: bool, gs: seq<Guard>, i: nat)
    requires 0 < i < |gs|
    ensures IsLooked(respect, e, gs, i) <==> IsLooked(respect, NextEnabled(respect, e, gs[0]), gs[1..], i - 1)
  {
    if respect { RegionNext(gs, e, i); }
  }

  /** What a pass does with line i: it is fixed and reported exactly if it is looked at and not compliant. */
  lemma {:induction false} LineAt(step: Step, respect: bool, e: bool, lines: seq<string>, gs: seq<Guard>, rs: seq<LineResult>,
                                  n: nat, i: nat)
    requires Turns(step, respect, lines, gs, rs) && i < |lines|
    ensures |Rewrite(step, e, lines)| == |lines|
    ensures Rewrite(step, e, lines)[i]
         == if IsLooked(respect, e, gs, i) && !rs[i].compliant then rs[i].fixed else lines[i]
    ensures n + i in Violations(step, e, lines, n) <==> IsLooked(respect, e, gs, i) && !rs[i].compliant
    decreases |lines|
  {
    var s := step(e, lines[0]);
    var rest := Violations(step, s.enabled, lines[1..], n + 1);
    assert s == TurnOf(respect, e, lines[0], gs[0], rs[0]);
    RewriteLength(step, e, lines);
    ViolationsInOrder(step, s.enabled, lines[1..], n + 1);
    if i == 0 {
      FirstLooked(respect, e, gs);
      assert n !in rest;
    } else {
      LaterLooked(respect, e, gs, i);
      LineAt(step, respect, s.enabled, lines[1..], gs[1..], rs[1..], n + 1, i - 1);
    }
  }

  ghost function GuardsOf(lines: seq<string>): (gs: seq<Guard>)
    ensures |gs| == |lines| && forall k | 0 <= k < |lines| :: gs[k] == GuardOf(lines[k])
  {
    seq(|lines|, k requires 0 <= k < |lines| => GuardOf(lines[k]))
  }

  ghost function ResultsOf(check: LineCheck, lines: seq<string>): (rs: seq<LineResult>)
    ensures |rs| == |lines| && forall k | 0 <= k < |lines| :: rs[k] == check(lines[k])
  {
    seq(|lines|, k requires 0 <= k < |lines| => check(lines[k]))
  }

  lemma StepTurns(check: LineCheck, respect: bool, lines: seq<string>)
    ensures Turns(StepOf(check, respect), respect, lines, GuardsOf(lines), ResultsOf(check, lines))
  {
    var gs, rs := GuardsOf(lines), ResultsOf(check, lines);
    forall k, e: bool | 0 <= k < |lines|
      ensures StepOf(check, respect)(e, lines[k]) == TurnOf(respect, e, lines[k], gs[k], rs[k])
    {
    }
  }

  lemma GuardIff(line: string)
    ensures GuardOf(line) == On <==> SwitchesOn(line)
    ensures GuardOf(line) == Off <==> SwitchesOff(line)
  {
    OnIsNotOff();
  }

  lemma OnIsNotOff()
    ensures forall g | g in FORMAT_GUARD_ON :: g !in FORMAT_GUARD_OFF
  {
  }

  lemma NoGuardsIff(lines: seq<string>, lo: nat, hi: nat)
    requires hi <= |lines|
    ensures NoGuards(lines, lo, hi) <==> Quiet(GuardsOf(lines), lo, hi)
  {
    forall m | 0 <= m < |lines| ensures GuardsOf(lines)[m] == NoGuard <==> !SwitchesOn(lines[m]) && !SwitchesOff(lines[m]) {
      GuardIff(lines[m]);
    }
  }

  lemma CheckedIff(respect: bool, lines: seq<string>, i: nat)
    requires i < |lines|
    ensures IsChecked(respect, lines, i) <==> IsLooked(respect, true, GuardsOf(lines), i)
  {
    var gs := GuardsOf(lines);
    forall k | 0 <= k < |lines|
      ensures (gs[k] == On <==> SwitchesOn(lines[k])) && (gs[k] == Off <==> SwitchesOff(lines[k]))
    {
      GuardIff(lines[k]);
    }
    forall lo: nat, hi: nat | hi <= |lines| ensures NoGuards(lines, lo, hi) <==> Quiet(gs, lo, hi) {
      NoGuardsIff(lines, lo, hi);
    }
    if k :| 0 <= k < i && SwitchesOn(lines[k]) && NoGuards(lines, k + 1, i) {
      assert gs[k] == On && Quiet(gs, k + 1, i);
    }
    if k :| 0 <= k < i && gs[k] == On && Quiet(gs, k + 1, i) {
      assert SwitchesOn(lines[k]) && NoGuards(lines, k + 1, i);
    }
  }

  ghost predicate LineDone(step: Step, check: LineCheck, respect: bool, lines: seq<string>, i: nat)
    requires i < |lines|
  {
    var wrong := IsLooked(respect, true, GuardsOf(lines), i) && !check(lines[i]).compliant;
    && |Rewrite(step, true, lines)| == |lines|
    && Rewrite(step, true, lines)[i] == (if wrong then check(lines[i]).fixed else lines[i])
    && (i in Violations(step, true, lines, 0) <==> wrong)
  }

  lemma LineMeans(step: Step, check: LineCheck, respect: bool, lines: seq<string>, i: nat)
    requires Turns(step, respect, lines, GuardsOf(lines), ResultsOf(check, lines)) && i < |lines|
    ensures LineDone(step, check, respect, lines, i)
  {
    LineAt(step, respect, true, lines, GuardsOf(lines), ResultsOf(check, lines), 0, i);
    assert 0 + i == i;
  }

  lemma StepLineMeans(check: LineCheck, respect: bool, lines: seq<string>, i: nat)
    requires i < |lines|
    ensures LineDone(StepOf(check, respect), check, respect, lines, i)
  {
    StepTurns(check, respect, lines);
    LineMeans(StepOf(check, respect), check, respect, lines, i);
  }

  ghost predicate IsWrong(ck: Checker, respect: bool, lines: seq<string>, i: nat)
    requires i < |lines|
  {
    IsChecked(respect, lines, i) && IsBad(ck, lines[i])
  }

  lemma WrongIff(ck: Checker, respect: bool, lines: seq<string>, i: nat)
    requires i < |lines|
    ensures IsWrong(ck, respect, lines, i)
       <==> IsLooked(respect, true, GuardsOf(lines), i) && !ck.CheckLine(lines[i]).compliant
  {
    CheckedIff(respect, lines, i);
    BadIff(ck, lines[i]);
  }

  lemma LineReportedIff(check: LineCheck, respect: bool, lines: seq<string>, i: nat, wrong: bool)
    requires i < |lines|
    requires wrong <==> IsLooked(respect, true, GuardsOf(lines), i) && !check(lines[i]).compliant
    ensures i in Violations(StepOf(check, respect), true, lines, 0) <==> wrong
  {
    StepLineMeans(check, respect, lines, i);
  }

  /** A line is reported exactly when it is checked and bad, and no other number is. */
  lemma ReportedIff(ck: Checker, respect: bool, lines: seq<string>, i: nat)
    ensures i in Violations(StepOf(ck.CheckLine, respect), true, lines, 0) <==> i < |lines| && IsWrong(ck, respect, lines, i)
  {
    if i < |lines| {
      WrongIff(ck, respect, lines, i);
      LineReportedIff(ck.CheckLine, respect, lines, i, IsWrong(ck, respect, lines, i));
    } else {
      ViolationsInOrder(StepOf(ck.CheckLine, respect), true, lines, 0);
    }
  }

  /** And exactly those lines are replaced by what the line checker makes of them. */
  lemma RewrittenLine(ck: Checker, respect: bool, lines: seq<string>, i: nat)
    requires i < |lines|
    ensures var r := Rewrite(StepOf(ck.CheckLine, respect), true, lines);
            |r| == |lines| && r[i] == if IsWrong(ck, respect, lines, i) then ck.CheckLine(lines[i]).fixed else lines[i]
  {
    StepLineMeans(ck.CheckLine, respect, lines, i);
    WrongIff(ck, respect, lines, i);
  }

  /** The lines of the fixed file, a deleted line being empty. */
  ghost function FixedLines(ck: Checker, respect: bool, lines: seq<string>): (r: seq<string>)
    ensures |r| == |lines|
  {
    seq(|lines|, i requires 0 <= i < |lines| =>
      if IsWrong(ck, respect, lines, i) then ck.CheckLine(lines[i]).fixed else lines[i])
  }

  lemma RewriteIsFixedLines(ck: Checker, respect: bool, lines: seq<string>)
    ensures Rewrite(StepOf(ck.CheckLine, respect), true, lines) == FixedLines(ck, respect, lines)
  {
    RewriteLength(StepOf(ck.CheckLine, respect), true, lines);
    forall i | 0 <= i < |lines|
      ensures Rewrite(StepOf(ck.CheckLine, respect), true, lines)[i] == FixedLines(ck, respect, lines)[i]
    {
      RewrittenLine(ck, respect, lines, i);
    }
  }

  ghost predicate NothingWrong(ck: Checker, respect: bool, lines: seq<string>) {
    forall i | 0 <= i < |lines| :: !IsWrong(ck, respect, lines, i)
  }

  lemma NothingReported(ck: Checker, respect: bool, lines: seq<string>)
    ensures Violations(StepOf(ck.CheckLine, respect), true, lines, 0) == [] <==> NothingWrong(ck, respect, lines)
  {
    var v := Violations(StepOf(ck.CheckLine, respect), true, lines, 0);
    if v != [] {
      assert v[0] in v;
      ReportedIff(ck, respect, lines, v[0]);
    } else {
      forall i | 0 <= i < |lines| ensures !IsWrong(ck, respect, lines, i) {
        ReportedIff(ck, respect, lines, i);
      }
    }
  }

  /** A file is compliant exactly when no line that is checked is bad, and the fixed file has the fixed form of
      exactly those lines. */
  lemma FixedMeans(ck: Checker, respect: bool, content: string)
    ensures IsCompliant(ck, respect, content) <==> NothingWrong(ck, respect, Lines(content))
    ensures Fixed(ck, respect, content) == Concat(FixedLines(ck, respect, Lines(content)))
  {
    NothingReported(ck, respect, Lines(content));
    RewriteIsFixedLines(ck, respect, Lines(content));
  }

  // ---------------------------------------------------------------- the program

  /** What the loop of check_manually_file still has to do is to continue from line i. */
  ghost predicate PassAt(step: Step, lines: seq<string>, i: nat, enabled: bool, done: seq<string>, reported: seq<nat>)
    requires i <= |lines|
  {
    && Rewrite(step, true, lines) == done + Rewrite(step, enabled, lines[i..])
    && Violations(step, true, lines, 0) == reported + Violations(step, enabled, lines[i..], i)
  }

  lemma PassStart(step: Step, lines: seq<string>)
    ensures PassAt(step, lines, 0, true, [], [])
  {
    assert lines[0..] == lines;
  }

  lemma PassStep(step: Step, lines: seq<string>, i: nat, enabled: bool, done: seq<string>, reported: seq<nat>)
    requires i < |lines| && PassAt(step, lines, i, enabled, done, reported)
    ensures var s := step(enabled, lines[i]);
            PassAt(step, lines, i + 1, s.enabled, done + [s.fixed], if s.bad then reported + [i] else reported)
  {
    var s := step(enabled, lines[i]);
    assert lines[i..][0] == lines[i] && lines[i..][1..] == lines[i + 1..];
    assert reported + [] == reported;
  }

  lemma PassEnd(step: Step, lines: seq<string>, enabled: bool, done: seq<string>, reported: seq<nat>)
    requires PassAt(step, lines, |lines|, enabled, done, reported)
    ensures Rewrite(step, true, lines) == done && Violations(step, true, lines, 0) == reported
  {
    assert lines[|lines|..] == [];
    assert done + [] == done && reported + [] == reported;
  }

  lemma PassBreak(step: Step, lines: seq<string>, i: nat, enabled: bool, done: seq<string>, reported: seq<nat>)
    requires i <= |lines| && PassAt(step, lines, i, enabled, done, reported) && |reported| == 1
    ensures var v := Violations(step, true, lines, 0); v != [] && v[..1] == reported
  {
  }

  lemma PrefixUpdated(ls: seq<string>, i: nat, l: string)
    requires i < |ls|
    ensures ls[i := l][..i + 1] == ls[..i] + [l]
    ensures l == ls[i] ==> ls[i := l] == ls
  {
  }

  /** The guard part of the loop body: the new clang_format_enabled, and whether the line is skipped. */
  method CheckGuards(respect: bool, wasEnabled: bool, line: string) returns (enabled: bool, skipped: bool)
    ensures enabled == NextEnabled(respect, wasEnabled, GuardOf(line))
    ensures skipped <==> !Checked(respect, enabled, GuardOf(line))
  {
    enabled, skipped := wasEnabled, false;
    if respect {
      var stripped := Strip(line, Space);
      if stripped in FORMAT_GUARD_ON {
        enabled := true;
      } else if stripped in FORMAT_GUARD_OFF {
        enabled := false;
      }
      if !enabled && stripped !in FORMAT_GUARD_ON + FORMAT_GUARD_OFF {
        skipped := true;
      }
    }
  }

  /** step describes the loop body for this line checker. */
  ghost predicate Describes(step: Step, check: LineCheck, respect: bool) {
    forall e: bool, l: string {:trigger TurnOf(respect, e, l, GuardOf(l), check(l))} ::
      step(e, l) == TurnOf(respect, e, l, GuardOf(l), check(l))
  }

  lemma StepOfDescribes(check: LineCheck, respect: bool)
    ensures Describes(StepOf(check, respect), check, respect)
  {
    forall e: bool, l: string ensures StepOf(check, respect)(e, l) == TurnOf(respect, e, l, GuardOf(l), check(l)) {
    }
  }

  /** The loop body up to the call of the line checker and its verdict. */
  method CheckOne(respect: bool, wasEnabled: bool, line: string, check: LineCheck, ghost step: Step)
    returns (enabled: bool, bad: bool, fixed: string)
    requires Describes(step, check, respect)
    ensures LineStep(enabled, bad, if bad then fixed else line) == step(wasEnabled, line)
  {
    var skipped;
    enabled, skipped := CheckGuards(respect, wasEnabled, line);
    bad, fixed := false, line;
    if !skipped {
      var r := check(line);
      bad, fixed := !r.compliant, r.fixed;
    }
    assert step(wasEnabled, line) == TurnOf(respect, wasEnabled, line, GuardOf(line), check(line));
  }

  /** The loop of check_manually_file.  Without fix and verbose it stops at the first line that is not compliant. */
  method Pass(lines: seq<string>, fix: bool, verbose: bool, respect: bool, check: LineCheck, ghost step: Step)
    returns (fileLines: seq<string>, compliant: bool, reported: seq<nat>)
    requires Describes(step, check, respect)
    ensures compliant <==> Violations(step, true, lines, 0) == []
    ensures fix || verbose || compliant ==> fileLines == Rewrite(step, true, lines)
    ensures fix || verbose || compliant ==> reported == Violations(step, true, lines, 0)
    ensures !compliant && !fix && !verbose ==> reported == Violations(step, true, lines, 0)[..1]
  {
    fileLines, compliant, reported := lines, true, [];
    var enabled := true;
    var i := 0;
    PassStart(step, lines);
    assert fileLines[..0] == [];
    while i < |lines|
      invariant 0 <= i <= |lines| == |fileLines|
      invariant forall k | i <= k < |lines| :: fileLines[k] == lines[k]
      invariant PassAt(step, lines, i, enabled, fileLines[..i], reported)
      invariant compliant <==> reported == []
      invariant !fix && !verbose ==> compliant
    {
      PassStep(step, lines, i, enabled, fileLines[..i], reported);
      var bad, fixed;
      enabled, bad, fixed := CheckOne(respect, enabled, fileLines[i], check, step);
      PrefixUpdated(fileLines, i, if bad then fixed else fileLines[i]);
      if bad {
        compliant := false;
        fileLines := fileLines[i := fixed];
        reported := reported + [i];
        if !fix && !verbose {
          PassBreak(step, lines, i + 1, enabled, fileLines[..i + 1], reported);
          return;
        }
      }
      i := i + 1;
    }
    PassEnd(step, lines, enabled, fileLines[..i], reported);
    assert fileLines[..i] == fileLines;
  }

  /** check_manually_file: the content of the file afterwards, the verdict, and the numbers of the
      lines it reports. */
  method CheckManuallyFile(content: string, fix: bool, verbose: bool, respect: bool, ck: Checker)
    returns (newContent: string, compliant: bool, reported: seq<nat>)
    ensures compliant <==> NothingWrong(ck, respect, Lines(content))
    ensures newContent == if fix then Concat(FixedLines(ck, respect, Lines(content))) else content
    ensures compliant <==> IsCompliant(ck, respect, content)
    ensures newContent == if fix then Fixed(ck, respect, content) else content
    ensures var v := Violations(StepOf(ck.CheckLine, respect), true, Lines(content), 0);
            reported == if fix || verbose || v == [] then v else v[..1]
  {
    CompliantIffFixed(ck, respect, content);
    FixedMeans(ck, respect, content);
    StepOfDescribes(ck.CheckLine, respect);
    var fileLines;
    fileLines, compliant, reported := Pass(Lines(content), fix, verbose, respect, ck.CheckLine, StepOf(ck.CheckLine, respect));
    newContent := content;
    if fix && !compliant {
      newContent := Concat(fileLines);
    }
  }
}
