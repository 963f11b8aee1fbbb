/** Choosing the recognised text among several engine profiles.

    Both scripts run the OCR engine once per profile, in a fixed order, trim
    each output and keep the best one seen so far; the first profile may end
    the search early. The engine itself is a parameter: a function from the
    command line to what the run produced.

    - RunTesseractWithOptions: run_tesseract_with_options of the improved
      script; the score of an output is its length times (10 - warnings).
    - RunOcrWithBestSettings: run_ocr_with_best_settings of the enhanced
      script; the score is the length alone. */
module Recognition {
  import opened PyStr

  datatype Variant = Improved | Enhanced

  /** What one engine run gives back: it timed out, it raised, or it finished
      with its standard output and standard error. */
  datatype EngineOutcome = TimedOut | Failed | Completed(stdout: string, stderr: string)

  /** A page-segmentation mode, an engine mode and extra arguments. */
  datatype Profile = Profile(psm: string, oem: string, extra: seq<string>)

  /** The best output so far and its score. */
  datatype Best = Best(text: string, score: int)

  const Whitelist: string :=
    "tessedit_char_whitelist=ABCDEFGHIJKLMNOPQRSTUVWXYZabcdefghijklmnopqrstuvwxyz0123456789 .,:;!?()-\"'"

  const ImprovedProfiles: seq<Profile> :=
    [Profile("6", "1", ["-c", Whitelist]), Profile("11", "1", []), Profile("7", "1", []), Profile("3", "3", [])]

  const EnhancedProfiles: seq<Profile> :=
    [Profile("6", "1", []), Profile("11", "1", []), Profile("7", "1", []), Profile("3", "1", [])]

  function Profiles(v: Variant): seq<Profile> {
    match v
    case Improved => ImprovedProfiles
    case Enhanced => EnhancedProfiles
  }

  /** The engine command for one profile. */
  function Command(path: string, p: Profile): seq<string> {
    ["tesseract", path, "stdout", "--psm", p.psm, "--oem", p.oem] + p.extra
  }

  /** The commands the two scripts run, profile by profile: the enhanced
      script's literal command lists, and the improved script's commands, of
      which only the first carries the character whitelist. */
  lemma ProfileCommands(path: string)
    ensures [Command(path, EnhancedProfiles[0]), Command(path, EnhancedProfiles[1]),
             Command(path, EnhancedProfiles[2]), Command(path, EnhancedProfiles[3])]
            == [["tesseract", path, "stdout", "--psm", "6", "--oem", "1"],
                ["tesseract", path, "stdout", "--psm", "11", "--oem", "1"],
                ["tesseract", path, "stdout", "--psm", "7", "--oem", "1"],
                ["tesseract", path, "stdout", "--psm", "3", "--oem", "1"]]
    ensures Command(path, ImprovedProfiles[0])
            == ["tesseract", path, "stdout", "--psm", "6", "--oem", "1", "-c", Whitelist]
    ensures forall i :: 1 <= i < |ImprovedProfiles| ==> |Command(path, ImprovedProfiles[i])| == 7
    ensures Command(path, ImprovedProfiles[3])[6] == "3"
  {
    forall p | p in EnhancedProfiles ensures Command(path, p) == ["tesseract", path, "stdout", "--psm", p.psm, "--oem", p.oem] {
      assert p.extra == [];
    }
  }

  /** stderr.count('WARNING'): non-overlapping occurrences, scanning from the left. */
  function CountWarnings(s: string): (n: nat)
    ensures 7 * n <= |s|
  {
    if |s| < 7 then 0
    else if s[..7] == "WARNING" then 1 + CountWarnings(s[7..])
    else CountWarnings(s[1..])
  }

  /** The number of positions i with s[i..i + 7] == "WARNING", overlapping or not. */
  function WarningPositions(s: string): nat {
    if |s| < 7 then 0
    else (if s[..7] == "WARNING" then 1 else 0) + WarningPositions(s[1..])
  }

  /** Positions that cannot start a "WARNING" contribute nothing. */
  lemma {:induction false} SkipNonW(s: string, k: nat)
    requires k <= |s|
    requires forall j :: 0 <= j < k ==> s[j] != 'W'
    ensures WarningPositions(s) == WarningPositions(s[k..])
  {
    if k > 0 && |s| >= 7 {
      assert s[..7] != "WARNING" by { assert s[..7][0] == s[0]; }
      SkipNonW(s[1..], k - 1);
      assert s[1..][k - 1..] == s[k..];
    } else if k > 0 {
      assert WarningPositions(s[k..]) == 0;
    }
  }

  /** "WARNING" cannot overlap itself, so the left-to-right scan of str.count
      finds every position where it occurs. */
  lemma {:induction false} CountWarningsCountsAll(s: string)
    ensures CountWarnings(s) == WarningPositions(s)
  {
    if |s| >= 7 {
      if s[..7] == "WARNING" {
        CountWarningsCountsAll(s[7..]);
        var t := s[1..];
        forall j | 0 <= j < 6 ensures t[j] != 'W' {
          assert t[j] == s[..7][j + 1];
        }
        SkipNonW(t, 6);
        assert t[6..] == s[7..];
      } else {
        CountWarningsCountsAll(s[1..]);
      }
    }
  }

  /** What the search reads from one run: nothing for a run that timed out
      or raised, otherwise the trimmed output and the number of warnings. */
  datatype Reading = NoReading | Reading(text: string, warnings: nat)

  function Read(o: EngineOutcome): Reading {
    match o
    case Completed(stdout, stderr) => Reading(Strip(stdout), CountWarnings(stderr))
    case _ => NoReading
  }

  /** A run with a non-empty trimmed output: the only kind of run that is scored. */
  predicate Yields(r: Reading) {
    r.Reading? && r.text != ""
  }

  /** The score of an output: for the improved script |text| * (10 - warnings),
      ten times its confidence len * (1 - 0.1 * warnings) (see
      ScoreIsTenfoldConfidence); the length alone for the enhanced script.
      The product is written as Scaled, which ScaledIsProduct shows equal to
      it, so that the search proofs need no nonlinear arithmetic. */
  function Score(v: Variant, r: Reading): int
    requires r.Reading?
  {
    match v
    case Improved => Scaled(|r.text|, 10 - r.warnings)
    case Enhanced => |r.text|
  }

  /** n * k, as n additions of k (see ScaledIsProduct). */
  function Scaled(n: nat, k: int): int {
    if n == 0 then 0 else Scaled(n - 1, k) + k
  }

  lemma {:induction false} ScaledIsProduct(n: nat, k: int)
    ensures Scaled(n, k) == n * k
  {
    if n > 0 {
      ScaledIsProduct(n - 1, k);
    }
  }

  /** The early-exit length: more than this many characters from the first
      profile end the search. */
  function Threshold(v: Variant): nat {
    match v
    case Improved => 10
    case Enhanced => 5
  }

  /** The first run ends the search. */
  predicate Stops(v: Variant, r: Reading) {
    r.Reading? && |r.text| > Threshold(v)
  }

  /** One step of the search: a scored output replaces the best one only when
      its score is strictly higher. */
  function Consider(v: Variant, b: Best, r: Reading): Best {
    if Yields(r) && Score(v, r) > b.score then Best(r.text, Score(v, r)) else b
  }

  /** The best output over the readings `rs`, in order, starting from ("", 0). */
  function Selection(v: Variant, rs: seq<Reading>): Best {
    if rs == [] then Best("", 0) else Consider(v, Selection(v, rs[..|rs| - 1]), rs[|rs| - 1])
  }

  /** How many profiles are run: one when the first run ends the search, all otherwise. */
  function Invoked(v: Variant, rs: seq<Reading>): nat
    requires |rs| >= 1
  {
    if Stops(v, rs[0]) then 1 else |rs|
  }

  /** What the search reads from the engine for each profile of the variant, in order. */
  function Attempts(v: Variant, path: string, tesseract: seq<string> -> EngineOutcome): (rs: seq<Reading>)
  {
    seq(|Profiles(v)|, i requires 0 <= i < |Profiles(v)| => Read(tesseract(Command(path, Profiles(v)[i]))))
  }

  /** Selection over one more reading. */
  lemma SelectionStep(v: Variant, rs: seq<Reading>, i: nat)
    requires i < |rs|
    ensures Selection(v, rs[..i + 1]) == Consider(v, Selection(v, rs[..i]), rs[i])
  {
    assert rs[..i + 1][..i] == rs[..i];
  }

  // ---------------------------------------------------------------------------
  // The two loops

  /** run_tesseract_with_options: tries the improved profiles in order and
      returns the selected text; `invoked` is the number of engine runs. */
  method RunTesseractWithOptions(path: string, tesseract: seq<string> -> EngineOutcome)
    returns (best: string, invoked: nat)
    ensures var rs := Attempts(Improved, path, tesseract);
            && invoked == Invoked(Improved, rs)
            && best == Selection(Improved, rs[..invoked]).text
  {
    ghost var rs := Attempts(Improved, path, tesseract);
    best := "";
    var bestConfidence := 0;
    invoked := 0;
    for i := 0 to |ImprovedProfiles|
      invariant invoked == i
      invariant Selection(Improved, rs[..i]) == Best(best, bestConfidence)
      invariant i > 0 ==> !Stops(Improved, rs[0])
    {
      var outcome := tesseract(Command(path, ImprovedProfiles[i]));
      assert rs[i] == Read(outcome);
      SelectionStep(Improved, rs, i);
      invoked := invoked + 1;
      match outcome
      case TimedOut =>
      case Failed =>
      case Completed(stdout, stderr) =>
        var text := Strip(stdout);
        if text != "" {
          var confidence := Score(Improved, Reading(text, CountWarnings(stderr)));
          assert Yields(rs[i]) && confidence == Score(Improved, rs[i]);
          if confidence > bestConfidence {
            best := text;
            bestConfidence := confidence;
          }
          if i == 0 && |text| > 10 {
            assert Stops(Improved, rs[0]) && rs[..invoked] == rs[..i + 1];
            break;
          }
        }
    }
  }

  /** run_ocr_with_best_settings: tries the enhanced profiles in order and
      returns the longest text; `invoked` is the number of engine runs. */
  method RunOcrWithBestSettings(path: string, tesseract: seq<string> -> EngineOutcome)
    returns (best: string, invoked: nat)
    ensures var rs := Attempts(Enhanced, path, tesseract);
            && invoked == Invoked(Enhanced, rs)
            && best == Selection(Enhanced, rs[..invoked]).text
  {
    ghost var rs := Attempts(Enhanced, path, tesseract);
    best := "";
    var bestLength := 0;
    invoked := 0;
    for i := 0 to |EnhancedProfiles|
      invariant invoked == i
      invariant Selection(Enhanced, rs[..i]) == Best(best, bestLength)
      invariant i > 0 ==> !Stops(Enhanced, rs[0])
    {
      var outcome := tesseract(Command(path, EnhancedProfiles[i]));
      assert rs[i] == Read(outcome);
      SelectionStep(Enhanced, rs, i);
      invoked := invoked + 1;
      match outcome
      case TimedOut =>
      case Failed =>
      case Completed(stdout, _) =>
        var text := Strip(stdout);
        assert rs[i].text == text && Score(Enhanced, rs[i]) == |text|;
        if text != "" && |text| > bestLength {
          best := text;
          bestLength := |text|;
          if i == 0 && |text| > 5 {
            assert Stops(Enhanced, rs[0]) && rs[..invoked] == rs[..i + 1];
            break;
          }
        }
    }
  }

  // ---------------------------------------------------------------------------
  // What the selection promises

  /** The selected score is never negative, is 0 exactly when the selected
      text is "", and no run scores more. */
  lemma {:induction false} SelectionIsBest(v: Variant, rs: seq<Reading>)
    ensures var b := Selection(v, rs);
            && b.score >= 0
            && (b.text == "" <==> b.score == 0)
            && forall k :: 0 <= k < |rs| && Yields(rs[k]) ==> Score(v, rs[k]) <= b.score
  {
    if rs != [] {
      var init := rs[..|rs| - 1];
      SelectionIsBest(v, init);
      assert forall k :: 0 <= k < |init| ==> rs[k] == init[k];
    }
  }

  /** A positive selection is the trimmed output of the first run j with the
      highest score: every run before j scores less. */
  lemma {:induction false} SelectionIsFirst(v: Variant, rs: seq<Reading>) returns (j: nat)
    ensures var b := Selection(v, rs);
            b.score > 0 ==>
              && j < |rs| && Yields(rs[j])
              && b.text == rs[j].text && b.score == Score(v, rs[j])
              && forall k :: 0 <= k < j && Yields(rs[k]) ==> Score(v, rs[k]) < b.score
  {
    if rs == [] {
      j := 0;
    } else {
      var init, r := rs[..|rs| - 1], rs[|rs| - 1];
      var i := SelectionIsFirst(v, init);
      SelectionIsBest(v, init);
      var b := Selection(v, init);
      if Yields(r) && Score(v, r) > b.score {
        j := |rs| - 1;
        assert forall k :: 0 <= k < j ==> rs[k] == init[k];
      } else {
        j := i;
        if b.score > 0 {
          assert forall k :: 0 <= k < j ==> rs[k] == init[k];
          assert rs[j] == init[j];
        }
      }
    }
  }

  /** Some run scores above 0 exactly when the selected text is not empty. */
  lemma SelectionFindsText(v: Variant, rs: seq<Reading>)
    ensures Selection(v, rs).text != "" <==> exists k :: 0 <= k < |rs| && Yields(rs[k]) && Score(v, rs[k]) > 0
  {
    SelectionIsBest(v, rs);
    var j := SelectionIsFirst(v, rs);
  }

  /** A run that times out, raises or prints only whitespace leaves the
      selection as it was. */
  lemma {:induction false} SkippedRunIsInert(v: Variant, a: seq<Reading>, r: Reading, c: seq<Reading>)
    requires !Yields(r)
    ensures Selection(v, a + [r] + c) == Selection(v, a + c)
  {
    if c == [] {
      assert a + [r] + c == a + [r];
      assert (a + [r])[..|a|] == a;
      assert a + c == a;
    } else {
      var init := c[..|c| - 1];
      SkippedRunIsInert(v, a, r, init);
      assert (a + [r] + c)[..|a + [r] + c| - 1] == a + [r] + init;
      assert (a + c)[..|a + c| - 1] == a + init;
    }
  }

  /** The enhanced script keeps the first longest trimmed output. */
  lemma LongestWins(rs: seq<Reading>) returns (j: nat)
    ensures var t := Selection(Enhanced, rs).text;
            && (forall k :: 0 <= k < |rs| && rs[k].Reading? ==> |rs[k].text| <= |t|)
            && (t != "" ==>
                  && j < |rs| && rs[j].Reading? && t == rs[j].text
                  && forall k :: 0 <= k < j && rs[k].Reading? ==> |rs[k].text| < |t|)
  {
    SelectionIsBest(Enhanced, rs);
    j := SelectionIsFirst(Enhanced, rs);
  }

  /** The improved score is ten times the confidence the script computes, so
      both order outputs alike and are positive together. */
  lemma ScoreIsTenfoldConfidence(r: Reading)
    requires r.Reading?
    ensures Score(Improved, r) as real == 10.0 * Confidence(r)
  {
    var n, w := |r.text|, r.warnings;
    var nr, wr := n as real, w as real;
    ScaledIsProduct(n, 10 - w);
    assert (n * (10 - w)) as real == nr * (10.0 - wr) by { IntProductAsReal(n, 10 - w); }
    assert 10.0 * (nr * (1.0 - wr * 0.1)) == nr * (10.0 - wr);
  }

  lemma IntProductAsReal(a: int, b: int)
    ensures (a * b) as real == a as real * b as real
  {
  }

  /** len(text) * (1 - (stderr.count('WARNING') * 0.1)) in exact arithmetic. */
  function Confidence(r: Reading): real
    requires r.Reading?
  {
    |r.text| as real * (1.0 - r.warnings as real * 0.1)
  }

  // ---------------------------------------------------------------------------
  // The improved script's early exit

  /** As written, a first output longer than 10 characters ends the search
      even when ten or more warnings bring its score to 0 or below: the
      result is then "", whatever the later profiles would have found. */
  lemma EarlyExitDropsLaterText(rs: seq<Reading>)
    requires |rs| >= 2
    requires Stops(Improved, rs[0]) && Score(Improved, rs[0]) <= 0
    ensures Invoked(Improved, rs) == 1
    ensures Selection(Improved, rs[..Invoked(Improved, rs)]).text == ""
  {
    assert rs[..1][..0] == [];
  }

  /** The same search, stopping early only when the first output was also
      accepted as the best so far. */
  function CorrectedInvoked(rs: seq<Reading>): nat
    requires |rs| >= 1
  {
    if Stops(Improved, rs[0]) && Score(Improved, rs[0]) > 0 then 1 else |rs|
  }

  /** With the corrected exit the search returns text exactly when some
      profile produced an output with a positive score. */
  lemma CorrectedFindsText(rs: seq<Reading>)
    requires |rs| >= 1
    ensures Selection(Improved, rs[..CorrectedInvoked(rs)]).text != ""
            <==> exists k :: 0 <= k < |rs| && Yields(rs[k]) && Score(Improved, rs[k]) > 0
  {
    var n := CorrectedInvoked(rs);
    SelectionFindsText(Improved, rs[..n]);
    if Stops(Improved, rs[0]) && Score(Improved, rs[0]) > 0 {
      assert rs[..1][..0] == [];
      assert Yields(rs[0]);
    } else {
      assert rs[..n] == rs;
    }
  }
}
