/**
 * The password-strength scorer (`scorePassword` in server/server.js).
 *
 * A password is scored out of 100 from five independent factors: length
 * (0..25), letter case (0, 7 or 15), digits (0 or 20), symbols (0 or 20) and
 * a pattern gate (0 or 20) that is closed by a denylisted token or by a run of
 * three equal characters. Absent, non-string and empty input is "Invalid";
 * a string of one to five characters is "Too short (min 6)".
 */
module Scoring {

  /** The `password` field of the request body, as JavaScript sees it. */
  datatype Value = Str(s: string) | NotAString

  datatype Label = Invalid | TooShort | Weak | Medium | Strong | VeryStrong

  /**
   * The breakdown object. Which keys it holds depends on the path taken:
   * none for invalid input, only `lengthScore` for a short password, all of
   * them otherwise.
   */
  datatype Breakdown =
    | NoFactors
    | LengthOnly(lengthScore: int)
    | Factors(lengthScore: int, caseScore: int, digitScore: int, symbolScore: int,
              patternScore: int, containsCommon: bool, repeatedChars: bool)

  datatype ScoreResult = ScoreResult(score: int, breakdown: Breakdown, strength: Label)  // the `label` key

  const MinLength: nat := 6
  const FullLength: nat := 12
  const MaxScore: int := 100

  /** The label strings sent to the client. */
  function LabelText(l: Label): (r: string)
    ensures |r| > 0
  {
    match l
    case Invalid => "Invalid"
    case TooShort => "Too short (min 6)"
    case Weak => "Weak"
    case Medium => "Medium"
    case Strong => "Strong"
    case VeryStrong => "Very Strong"
  }

  function Min(a: int, b: int): int
  {
    if a <= b then a else b
  }

  // ---------------------------------------------------------------------
  // Character classes (the regular expressions of the scorer, ASCII only)
  // ---------------------------------------------------------------------

  predicate IsLower(c: char) { 'a' <= c <= 'z' }
  predicate IsUpper(c: char) { 'A' <= c <= 'Z' }
  /** `\d` without the `u` flag: the ten ASCII digits. */
  predicate IsDigit(c: char) { '0' <= c <= '9' }

  /** The members of the scorer's symbol character class. */
  const Symbols: string := "!@#$%^&*()-_=+[]{};:'\",.<>/?\\|`~"

  predicate IsSymbol(c: char) { c in Symbols }

  /**
   * The symbol class lists 32 characters, none of them a letter, a digit or a line
   * terminator; it includes the quote, the double quote, the backslash and
   * the bar that the generator's alphabet lacks.
   */
  lemma SymbolClass()
    ensures |Symbols| == 32
    ensures forall i :: 0 <= i < |Symbols| ==>
              !IsLower(Symbols[i]) && !IsUpper(Symbols[i]) && !IsDigit(Symbols[i]) && !IsLineTerminator(Symbols[i])
    ensures IsSymbol('\'') && IsSymbol('"') && IsSymbol('\\') && IsSymbol('|')
  {
  }

  /** The characters that `.` in a JavaScript regular expression does not match. */
  predicate IsLineTerminator(c: char)
  {
    c == '\n' || c == '\r' || c == '\U{2028}' || c == '\U{2029}'
  }

  predicate HasLower(s: string) { exists i :: 0 <= i < |s| && IsLower(s[i]) }
  predicate HasUpper(s: string) { exists i :: 0 <= i < |s| && IsUpper(s[i]) }
  predicate HasDigit(s: string) { exists i :: 0 <= i < |s| && IsDigit(s[i]) }
  predicate HasSymbol(s: string) { exists i :: 0 <= i < |s| && IsSymbol(s[i]) }

  /**
   * Each class test is `regex.test(s)` without anchors: it holds of a
   * concatenation exactly when it holds of one of the parts, and of a single
   * character exactly when that character is in the class.
   */
  lemma ClassTestsSplit(s: string, t: string)
    ensures HasLower(s + t) <==> HasLower(s) || HasLower(t)
    ensures HasUpper(s + t) <==> HasUpper(s) || HasUpper(t)
    ensures HasDigit(s + t) <==> HasDigit(s) || HasDigit(t)
    ensures HasSymbol(s + t) <==> HasSymbol(s) || HasSymbol(t)
  {
    LowerSplit(s, t);
    UpperSplit(s, t);
    DigitSplit(s, t);
    SymbolSplit(s, t);
  }

  lemma LowerSplit(s: string, t: string)
    ensures HasLower(s + t) <==> HasLower(s) || HasLower(t)
  {
    var u := s + t;
    if HasLower(u) {
      var i :| 0 <= i < |u| && IsLower(u[i]);
      if i < |s| { assert u[i] == s[i]; } else { assert u[i] == t[i - |s|]; }
    }
    if HasLower(s) {
      var i :| 0 <= i < |s| && IsLower(s[i]);
      assert u[i] == s[i];
    }
    if HasLower(t) {
      var i :| 0 <= i < |t| && IsLower(t[i]);
      assert u[|s| + i] == t[i];
    }
  }

  lemma UpperSplit(s: string, t: string)
    ensures HasUpper(s + t) <==> HasUpper(s) || HasUpper(t)
  {
    var u := s + t;
    if HasUpper(u) {
      var i :| 0 <= i < |u| && IsUpper(u[i]);
      if i < |s| { assert u[i] == s[i]; } else { assert u[i] == t[i - |s|]; }
    }
    if HasUpper(s) {
      var i :| 0 <= i < |s| && IsUpper(s[i]);
      assert u[i] == s[i];
    }
    if HasUpper(t) {
      var i :| 0 <= i < |t| && IsUpper(t[i]);
      assert u[|s| + i] == t[i];
    }
  }

  lemma DigitSplit(s: string, t: string)
    ensures HasDigit(s + t) <==> HasDigit(s) || HasDigit(t)
  {
    var u := s + t;
    if HasDigit(u) {
      var i :| 0 <= i < |u| && IsDigit(u[i]);
      if i < |s| { assert u[i] == s[i]; } else { assert u[i] == t[i - |s|]; }
    }
    if HasDigit(s) {
      var i :| 0 <= i < |s| && IsDigit(s[i]);
      assert u[i] == s[i];
    }
    if HasDigit(t) {
      var i :| 0 <= i < |t| && IsDigit(t[i]);
      assert u[|s| + i] == t[i];
    }
  }

  lemma SymbolSplit(s: string, t: string)
    ensures HasSymbol(s + t) <==> HasSymbol(s) || HasSymbol(t)
  {
    var u := s + t;
    if HasSymbol(u) {
      var i :| 0 <= i < |u| && IsSymbol(u[i]);
      if i < |s| { assert u[i] == s[i]; } else { assert u[i] == t[i - |s|]; }
    }
    if HasSymbol(s) {
      var i :| 0 <= i < |s| && IsSymbol(s[i]);
      assert u[i] == s[i];
    }
    if HasSymbol(t) {
      var i :| 0 <= i < |t| && IsSymbol(t[i]);
      assert u[|s| + i] == t[i];
    }
  }

  /** On a single character each class test is membership in its class; this only unfolds the definitions. */
  lemma ClassTestsSingle(c: char)
    ensures HasLower([c]) <==> IsLower(c)
    ensures HasUpper([c]) <==> IsUpper(c)
    ensures HasDigit([c]) <==> IsDigit(c)
    ensures HasSymbol([c]) <==> IsSymbol(c)
  {
    assert [c][0] == c;
  }

  /** `/(.)\1\1/`: some character other than a line terminator occurs three times in a row. */
  predicate HasTripleRun(s: string)
  {
    exists i :: 0 <= i && i + 2 < |s| && !IsLineTerminator(s[i]) && s[i] == s[i + 1] && s[i + 1] == s[i + 2]
  }

  /**
   * Three copies of one character form a run exactly when `.` matches that
   * character; this only unfolds the definition.
   */
  lemma TripleRunOfChar(c: char)
    ensures HasTripleRun([c, c, c]) <==> !IsLineTerminator(c)
  {
    var s := [c, c, c];
    assert s[0] == c && s[1] == c && s[2] == c;
  }

  /** The search is unanchored: a run stays a run whatever surrounds it. */
  lemma TripleRunExtends(p: string, s: string, q: string)
    requires HasTripleRun(s)
    ensures HasTripleRun(p + s + q)
  {
    var i :| 0 <= i && i + 2 < |s| && !IsLineTerminator(s[i]) && s[i] == s[i + 1] && s[i + 1] == s[i + 2];
    var u := p + s + q;
    assert u[|p| + i] == s[i] && u[|p| + i + 1] == s[i + 1] && u[|p| + i + 2] == s[i + 2];
  }

  // ---------------------------------------------------------------------
  // The denylist
  // ---------------------------------------------------------------------

  /** `toLowerCase`, folding ASCII letters only. */
  function AsciiLower(c: char): (r: char)
    ensures !IsUpper(r)
    ensures IsLower(r) <==> IsLower(c) || IsUpper(c)
    ensures !IsUpper(c) ==> r == c
    ensures IsUpper(c) ==> r as int - 'a' as int == c as int - 'A' as int
  {
    if IsUpper(c) then (c as int + 32) as char else c
  }

  function Lowered(s: string): (r: string)
    ensures |r| == |s|
    ensures forall i :: 0 <= i < |s| ==> r[i] == AsciiLower(s[i])
  {
    seq(|s|, i requires 0 <= i < |s| => AsciiLower(s[i]))
  }

  predicate MatchesAt(s: string, t: string, i: int)
  {
    0 <= i && i + |t| <= |s| && s[i..i + |t|] == t
  }

  /** `s.includes(t)`. */
  predicate Contains(s: string, t: string)
  {
    exists i :: 0 <= i <= |s| - |t| && MatchesAt(s, t, i)
  }

  const CommonPatterns: seq<string> :=
    ["123", "1234", "12345", "123456", "password", "qwerty", "abc", "letmein", "admin", "welcome", "iloveyou"]

  predicate ContainsCommon(s: string)
  {
    exists k :: 0 <= k < |CommonPatterns| && Contains(Lowered(s), CommonPatterns[k])
  }

  /**
   * Lowering leaves no upper-case letter, keeps the letters, is idempotent,
   * and therefore does not change the denylist verdict: the test ignores case.
   */
  lemma LoweredFolds(s: string)
    ensures !HasUpper(Lowered(s))
    ensures HasLower(Lowered(s)) <==> HasLower(s) || HasUpper(s)
    ensures Lowered(Lowered(s)) == Lowered(s)
    ensures ContainsCommon(Lowered(s)) <==> ContainsCommon(s)
  {
    var l := Lowered(s);
    if HasLower(l) {
      var i :| 0 <= i < |l| && IsLower(l[i]);
      assert IsLower(s[i]) || IsUpper(s[i]);
    }
    if HasLower(s) {
      var i :| 0 <= i < |s| && IsLower(s[i]);
      assert IsLower(l[i]);
    }
    if HasUpper(s) {
      var i :| 0 <= i < |s| && IsUpper(s[i]);
      assert IsLower(l[i]);
    }
    assert Lowered(l) == l;
  }

  /** Lowering commutes with concatenation. */
  lemma LoweredConcat(s: string, t: string)
    ensures Lowered(s + t) == Lowered(s) + Lowered(t)
  {
  }

  lemma ContainsExtends(p: string, s: string, q: string, t: string)
    requires Contains(s, t)
    ensures Contains(p + s + q, t)
  {
    var i :| 0 <= i <= |s| - |t| && MatchesAt(s, t, i);
    var u := p + s + q;
    assert u[|p| + i..|p| + i + |t|] == s[i..i + |t|];
    assert MatchesAt(u, t, |p| + i);
  }

  /** `includes` is unanchored: a denylisted token is found whatever surrounds it. */
  lemma ContainsCommonExtends(p: string, s: string, q: string)
    requires ContainsCommon(s)
    ensures ContainsCommon(p + s + q)
  {
    var k :| 0 <= k < |CommonPatterns| && Contains(Lowered(s), CommonPatterns[k]);
    LoweredConcat(p + s, q);
    LoweredConcat(p, s);
    ContainsExtends(Lowered(p), Lowered(s), Lowered(q), CommonPatterns[k]);
  }

  // ---------------------------------------------------------------------
  // The sub-scores
  // ---------------------------------------------------------------------

  /**
   * `Math.round(n / 6)` on exact rationals: the integer nearest to `n / 6`,
   * a tie going upwards. The ramp divides by 6 only.
   */
  function RoundSixths(n: int): (r: int)
    ensures n - 3 < 6 * r <= n + 3
  {
    (n + 3) / 6
  }

  /** `min(25, round((min(len, 12) - 6) / 6 * 25))` for a length of at least 6. */
  function LengthScore(len: nat): (r: int)
    requires len >= MinLength
    ensures 0 <= r <= 25
    ensures len == MinLength ==> r == 0
    ensures len >= FullLength ==> r == 25
  {
    Min(25, RoundSixths((Min(len, FullLength) - MinLength) * 25))
  }

  function CaseScore(s: string): (r: int)
    ensures r == 0 || r == 7 || r == 15
    ensures r == 15 <==> HasLower(s) && HasUpper(s)
    ensures r == 0 <==> !HasLower(s) && !HasUpper(s)
  {
    if HasLower(s) && HasUpper(s) then 15
    else if HasLower(s) || HasUpper(s) then 7
    else 0
  }

  /** The label ladder: 85 and up, 65 and up, 40 and up, and the rest. */
  function LabelFor(score: int): (r: Label)
    ensures r == VeryStrong <==> score >= 85
    ensures r == Strong <==> 65 <= score < 85
    ensures r == Medium <==> 40 <= score < 65
    ensures r == Weak <==> score < 40
  {
    if score >= 85 then VeryStrong
    else if score >= 65 then Strong
    else if score >= 40 then Medium
    else Weak
  }

  /** The order of the graded labels, weakest first. */
  function Rank(l: Label): int
  {
    match l
    case Weak => 1
    case Medium => 2
    case Strong => 3
    case VeryStrong => 4
    case _ => 0
  }

  function Total(b: Breakdown): int
  {
    match b
    case Factors(l, c, d, y, p, _, _) => l + c + d + y + p
    case LengthOnly(l) => l
    case NoFactors => 0
  }

  /** `scorePassword(password)`. */
  function ScorePassword(password: Value): (r: ScoreResult)
    ensures 0 <= r.score <= MaxScore
    ensures r.strength == Invalid <==> password == NotAString || password == Str("")
    ensures r.strength == Invalid ==> r.score == 0 && r.breakdown == NoFactors
    ensures r.strength == TooShort <==> password.Str? && 0 < |password.s| < MinLength
    ensures r.strength == TooShort ==> r.score == 0 && r.breakdown == LengthOnly(0)
    ensures password.Str? && |password.s| >= MinLength ==>
              r.breakdown.Factors? && r.score == Total(r.breakdown) && r.strength == LabelFor(r.score)
  {
    match password
    case NotAString => ScoreResult(0, NoFactors, Invalid)
    case Str(s) =>
      if |s| == 0 then ScoreResult(0, NoFactors, Invalid)
      else if |s| < MinLength then ScoreResult(0, LengthOnly(0), TooShort)
      else
        var lengthScore := LengthScore(|s|);
        var caseScore := CaseScore(s);
        var digitScore := if HasDigit(s) then 20 else 0;
        var symbolScore := if HasSymbol(s) then 20 else 0;
        var containsCommon := ContainsCommon(s);
        var repeatedChars := HasTripleRun(s);
        var patternScore := if containsCommon || repeatedChars then 0 else 20;
        var breakdown := Factors(lengthScore, caseScore, digitScore, symbolScore,
                                 patternScore, containsCommon, repeatedChars);
        var score := Min(MaxScore, Total(breakdown));
        ScoreResult(score, breakdown, LabelFor(score))
  }

  // ---------------------------------------------------------------------
  // Properties of the length sub-score
  // ---------------------------------------------------------------------

  lemma RoundSixthsMonotone(n1: int, n2: int)
    requires n1 <= n2
    ensures RoundSixths(n1) <= RoundSixths(n2)
  {
  }

  /** The ramp never loses credit as the password grows. */
  lemma LengthScoreMonotone(a: nat, b: nat)
    requires MinLength <= a <= b
    ensures LengthScore(a) <= LengthScore(b)
  {
    RoundSixthsMonotone((Min(a, FullLength) - MinLength) * 25, (Min(b, FullLength) - MinLength) * 25);
  }

  /**
   * The length score is the linear ramp `25 * k / 6`, `k = min(len, 12) - 6`,
   * rounded to the nearest integer with ties upwards: the cap at 25 never binds.
   */
  lemma LengthScoreIsRoundedRamp(len: nat)
    requires len >= MinLength
    ensures 25 * (Min(len, FullLength) - MinLength) - 3 < 6 * LengthScore(len)
                                                         <= 25 * (Min(len, FullLength) - MinLength) + 3
  {
    RoundSixthsMonotone((Min(len, FullLength) - MinLength) * 25, 150);
  }

  /** The values of the ramp; at length 9 the exact value 12.5 rounds up to 13. */
  lemma LengthScoreValues()
    ensures LengthScore(6) == 0 && LengthScore(7) == 4 && LengthScore(8) == 8
    ensures LengthScore(9) == 13 && LengthScore(10) == 17 && LengthScore(11) == 21
  {
  }

  // ---------------------------------------------------------------------
  // Properties of the breakdown, the total and the label
  // ---------------------------------------------------------------------

  /** Each factor takes only its listed values, and both pattern flags are always reported. */
  lemma BreakdownValues(s: string)
    requires |s| >= MinLength
    ensures var b := ScorePassword(Str(s)).breakdown;
      && b.Factors?
      && b.lengthScore == LengthScore(|s|)
      && b.caseScore == CaseScore(s)
      && (b.digitScore == 20 <==> HasDigit(s)) && (b.digitScore == 0 <==> !HasDigit(s))
      && (b.symbolScore == 20 <==> HasSymbol(s)) && (b.symbolScore == 0 <==> !HasSymbol(s))
      && b.containsCommon == ContainsCommon(s) && b.repeatedChars == HasTripleRun(s)
      && (b.patternScore == 0 <==> b.containsCommon || b.repeatedChars)
      && (b.patternScore == 20 <==> !b.containsCommon && !b.repeatedChars)
  {
  }

  /** The factor maxima add up to exactly 100, so `min(100, total)` never binds. */
  lemma CapNeverBinds(s: string)
    requires |s| >= MinLength
    ensures Total(ScorePassword(Str(s)).breakdown) <= MaxScore
    ensures ScorePassword(Str(s)).score == Total(ScorePassword(Str(s)).breakdown)
  {
  }

  /** A full score needs every factor at its maximum, and every maximal password gets it. */
  lemma PerfectScore(s: string)
    requires |s| >= MinLength
    ensures ScorePassword(Str(s)).score == MaxScore <==>
              |s| >= FullLength && HasLower(s) && HasUpper(s) && HasDigit(s) && HasSymbol(s)
              && !ContainsCommon(s) && !HasTripleRun(s)
    ensures ScorePassword(Str(s)).score == MaxScore ==> ScorePassword(Str(s)).strength == VeryStrong
  {
    if |s| < FullLength {
      LengthScoreMonotone(|s|, FullLength - 1);
      LengthScoreValues();
    }
  }

  /** A password caught by the pattern gate scores at most 80 and is never "Very Strong". */
  lemma PatternGateCapsScore(s: string)
    requires |s| >= MinLength
    requires ContainsCommon(s) || HasTripleRun(s)
    ensures ScorePassword(Str(s)).score <= 80
    ensures ScorePassword(Str(s)).strength != VeryStrong
  {
  }

  /** The label ladder is monotone in the score. */
  lemma LabelMonotone(a: int, b: int)
    requires a <= b
    ensures Rank(LabelFor(a)) <= Rank(LabelFor(b))
  {
  }

  /** Distinct labels are sent as distinct strings, so the client can tell every outcome apart. */
  lemma LabelTextDistinct(a: Label, b: Label)
    requires a != b
    ensures LabelText(a) != LabelText(b)
  {
  }

  /** For a well-formed password the label is graded, and a higher score never gets a lower label. */
  lemma ScoreLabelMonotone(s: string, t: string)
    requires |s| >= MinLength && |t| >= MinLength
    requires ScorePassword(Str(s)).score <= ScorePassword(Str(t)).score
    ensures 1 <= Rank(ScorePassword(Str(s)).strength) <= Rank(ScorePassword(Str(t)).strength)
  {
    LabelMonotone(ScorePassword(Str(s)).score, ScorePassword(Str(t)).score);
  }

  // ---------------------------------------------------------------------
  // The denylist
  // ---------------------------------------------------------------------

  lemma ContainsPrefix(s: string, t: string, n: nat)
    requires Contains(s, t) && n <= |t|
    ensures Contains(s, t[..n])
  {
    var i :| 0 <= i <= |s| - |t| && MatchesAt(s, t, i);
    assert s[i..i + n] == s[i..i + |t|][..n];
    assert MatchesAt(s, t[..n], i);
  }

  /** A string in which the first two characters of `t` never occur side by side does not contain `t`. */
  lemma MissingLeadingPair(s: string, t: string)
    requires |t| >= 2
    requires forall i :: 0 <= i < |s| - 1 ==> !(s[i] == t[0] && s[i + 1] == t[1])
    ensures !Contains(s, t)
  {
    forall i | 0 <= i <= |s| - |t|
      ensures !MatchesAt(s, t, i)
    {
      assert !(s[i] == t[0] && s[i + 1] == t[1]);
    }
  }

  /** The denylist without the tokens that contain "123": the same test. */
  const EssentialPatterns: seq<string> :=
    ["123", "password", "qwerty", "abc", "letmein", "admin", "welcome", "iloveyou"]

  /** "1234", "12345" and "123456" never change the verdict: each of them contains "123". */
  lemma LongerDigitRunsRedundant(s: string)
    ensures ContainsCommon(s) <==>
              exists k :: 0 <= k < |EssentialPatterns| && Contains(Lowered(s), EssentialPatterns[k])
  {
    var l := Lowered(s);
    if ContainsCommon(s) {
      var k :| 0 <= k < |CommonPatterns| && Contains(l, CommonPatterns[k]);
      if k <= 3 {
        assert CommonPatterns[k][..3] == "123";
        ContainsPrefix(l, CommonPatterns[k], 3);
        assert Contains(l, EssentialPatterns[0]);
      } else {
        assert CommonPatterns[k] == EssentialPatterns[k - 3];
      }
    }
    if exists k :: 0 <= k < |EssentialPatterns| && Contains(l, EssentialPatterns[k]) {
      var k :| 0 <= k < |EssentialPatterns| && Contains(l, EssentialPatterns[k]);
      if k == 0 {
        assert Contains(l, CommonPatterns[0]);
      } else {
        assert Contains(l, CommonPatterns[k + 3]);
      }
    }
  }

  /** The first two letters of every denylisted token. */
  const LeadingPairs: seq<string> := ["12", "pa", "qw", "ab", "le", "ad", "we", "il"]

  /**
   * A string in which no two adjacent characters, folded to lower case, are
   * the first two letters of a denylisted token contains none of the tokens.
   */
  lemma NoCommonWithoutLeadingPairs(s: string)
    requires forall i :: 0 <= i < |s| - 1 ==> [AsciiLower(s[i]), AsciiLower(s[i + 1])] !in LeadingPairs
    ensures !ContainsCommon(s)
  {
    var l := Lowered(s);
    forall k | 0 <= k < |CommonPatterns|
      ensures !Contains(l, CommonPatterns[k])
    {
      assert k in {0, 1, 2, 3, 4, 5, 6, 7, 8, 9, 10};
      assert [CommonPatterns[k][0], CommonPatterns[k][1]] in LeadingPairs;
      MissingLeadingPair(l, CommonPatterns[k]);
    }
  }

  // ---------------------------------------------------------------------
  // Worked examples
  // ---------------------------------------------------------------------

  lemma FullMarksClasses(s: string)
    requires s == "Tr0ub4dor&3XZ"
    ensures |s| == 13 && HasLower(s) && HasUpper(s) && HasDigit(s) && HasSymbol(s)
  {
    assert IsLower(s[1]) && IsUpper(s[0]) && IsDigit(s[2]) && IsSymbol(s[9]);
  }

  lemma FullMarksPatterns(s: string)
    requires s == "Tr0ub4dor&3XZ"
    ensures !ContainsCommon(s) && !HasTripleRun(s)
  {
    NoCommonWithoutLeadingPairs(s);
  }

  /** Twelve characters or more with every class and no pattern: 100, "Very Strong". */
  lemma ExampleFullMarks()
    ensures ScorePassword(Str("Tr0ub4dor&3XZ")) ==
              ScoreResult(100, Factors(25, 15, 20, 20, 20, false, false), VeryStrong)
  {
    var s := "Tr0ub4dor&3XZ";
    FullMarksClasses(s);
    FullMarksPatterns(s);
    BreakdownValues(s);
  }

  lemma DenylistedClasses(s: string)
    requires s == "password123"
    ensures |s| == 11 && HasLower(s) && !HasUpper(s) && HasDigit(s)
  {
    assert IsLower(s[0]) && IsDigit(s[8]);
  }

  lemma DenylistedNoSymbol(s: string)
    requires s == "password123"
    ensures !HasSymbol(s)
  {
  }

  lemma DenylistedPatterns(s: string)
    requires s == "password123"
    ensures ContainsCommon(s) && !HasTripleRun(s)
  {
    var l := Lowered(s);
    assert l[0..8] == "password";
    assert MatchesAt(l, CommonPatterns[4], 0);
  }

  /** A denylisted word closes the pattern gate: 48, "Medium". */
  lemma ExampleDenylisted()
    ensures ScorePassword(Str("password123")) ==
              ScoreResult(48, Factors(21, 7, 20, 0, 0, true, false), Medium)
  {
    var s := "password123";
    DenylistedClasses(s);
    DenylistedNoSymbol(s);
    DenylistedPatterns(s);
    BreakdownValues(s);
    LengthScoreValues();
  }

  lemma RepeatedFacts(s: string)
    requires s == "aaaAAA111!!!"
    ensures |s| == 12 && HasLower(s) && HasUpper(s) && HasDigit(s) && HasSymbol(s)
    ensures !ContainsCommon(s) && HasTripleRun(s)
  {
    NoCommonWithoutLeadingPairs(s);
    assert IsLower(s[0]) && IsUpper(s[3]) && IsDigit(s[6]) && IsSymbol(s[9]);
    assert !IsLineTerminator(s[0]) && s[0] == s[1] == s[2];
  }

  /** Runs of three equal characters close the pattern gate: 80, "Strong". */
  lemma ExampleRepeated()
    ensures ScorePassword(Str("aaaAAA111!!!")) ==
              ScoreResult(80, Factors(25, 15, 20, 20, 0, false, true), Strong)
  {
    var s := "aaaAAA111!!!";
    RepeatedFacts(s);
    BreakdownValues(s);
  }

}
