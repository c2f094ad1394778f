/**
 * The password strength evaluator: a fixed denylist, five character-class and
 * length rules counted into a score, one suggestion per failing rule, and a
 * threshold classification of the score into a rating.
 */
module PasswordStrength {

  /** The three ratings the evaluator hands back ("Weak", "Moderate", "Strong"). */
  datatype Rating = Weak | Moderate | Strong

  /** What one evaluation produces: the rating and the suggestions to show. */
  datatype Assessment = Assessment(rating: Rating, feedback: seq<string>)

  /** The character classes the evaluator looks for, one per pattern it searches. */
  datatype CharClass = Upper | Lower | Digit | Special

  /** The five rules, in the order in which suggestions are produced. */
  datatype Criterion = MinLength | Contains(cls: CharClass)

  const MinPasswordLength: nat := 8
  const SpecialChars: string := "!@#$%^&*"

  /** Exact, case-sensitive denylist of well-known passwords. */
  const CommonPasswords: set<string> := {"password", "123456", "password123", "qwerty", "abc123"}

  const CommonMessage: string := "Your password is too common. Choose a more secure one."
  const StrongMessage: string := "Your password is strong! ✅"

  const Criteria: seq<Criterion> :=
    [MinLength, Contains(Upper), Contains(Lower), Contains(Digit), Contains(Special)]

  predicate IsUpper(c: char) { 'A' <= c <= 'Z' }
  predicate IsLower(c: char) { 'a' <= c <= 'z' }
  /** ASCII decimal digits only. */
  predicate IsDigit(c: char) { '0' <= c <= '9' }
  predicate IsSpecial(c: char) { c in SpecialChars }

  predicate InClass(c: char, k: CharClass) {
    match k
    case Upper => IsUpper(c)
    case Lower => IsLower(c)
    case Digit => IsDigit(c)
    case Special => IsSpecial(c)
  }

  /** Some character of `s` belongs to class `k` (what a regex search for the class finds). */
  predicate Has(s: string, k: CharClass) {
    exists i | 0 <= i < |s| :: InClass(s[i], k)
  }

  predicate Holds(s: string, c: Criterion) {
    match c
    case MinLength => |s| >= MinPasswordLength
    case Contains(k) => Has(s, k)
  }

  const LengthMessage: string := "Increase length to at least 8 characters."
  const UpperMessage: string := "Add at least one uppercase letter."
  const LowerMessage: string := "Add at least one lowercase letter."
  const DigitMessage: string := "Include at least one digit (0-9)."
  const SpecialMessage: string := "Include at least one special character (!@#$%^&*)."

  /** The suggestion shown when rule `c` fails. */
  function Suggestion(c: Criterion): string {
    match c
    case MinLength => LengthMessage
    case Contains(Upper) => UpperMessage
    case Contains(Lower) => LowerMessage
    case Contains(Digit) => DigitMessage
    case Contains(Special) => SpecialMessage
  }

  function Indicator(b: bool): nat { if b then 1 else 0 }

  /** The score: the sum of the five rules taken as 0 or 1. */
  function Score(s: string): nat {
    Indicator(|s| >= MinPasswordLength) + Indicator(Has(s, Upper)) + Indicator(Has(s, Lower))
      + Indicator(Has(s, Digit)) + Indicator(Has(s, Special))
  }

  /** The number of rules among `cs` that `s` satisfies. */
  function CountHolding(s: string, cs: seq<Criterion>): nat {
    if cs == [] then 0 else Indicator(Holds(s, cs[0])) + CountHolding(s, cs[1..])
  }

  /** The suggestions of the rules among `cs` that `s` fails, in the order of `cs`. */
  function FailingSuggestions(s: string, cs: seq<Criterion>): seq<string> {
    if cs == [] then []
    else (if Holds(s, cs[0]) then [] else [Suggestion(cs[0])]) + FailingSuggestions(s, cs[1..])
  }

  /** The suggestions of all rules among `cs`, in order. */
  function Suggestions(cs: seq<Criterion>): seq<string> {
    if cs == [] then [] else [Suggestion(cs[0])] + Suggestions(cs[1..])
  }

  function Classify(score: nat): Rating {
    if score <= 2 then Weak else if score <= 4 then Moderate else Strong
  }

  /** The evaluator as a value: what the source's check_password_strength returns. */
  function Evaluate(password: string): Assessment {
    if password in CommonPasswords then Assessment(Weak, [CommonMessage])
    else
      var rating := Classify(Score(password));
      if rating == Strong then Assessment(Strong, [StrongMessage])
      else Assessment(rating, FailingSuggestions(password, Criteria))
  }

  /** `a` occurs in `b` in order, possibly with gaps. */
  predicate Subsequence(a: seq<string>, b: seq<string>)
    decreases |b|
  {
    a == [] || (b != [] && ((a[0] == b[0] && Subsequence(a[1..], b[1..])) || Subsequence(a, b[1..])))
  }

  /** One regex search for a character class: scan until a member is found. */
  method Search(s: string, k: CharClass) returns (found: bool)
    ensures found <==> Has(s, k)
  {
    found := false;
    var i := 0;
    while i < |s| && !found
      invariant 0 <= i <= |s|
      invariant found ==> Has(s, k)
      invariant !found ==> forall j | 0 <= j < i :: !InClass(s[j], k)
    {
      found := InClass(s[i], k);
      i := i + 1;
    }
  }

  /**
   * The evaluator as the source runs it: denylist check, score, a feedback list
   * grown by one conditional append per rule, then the classification.
   */
  method CheckPasswordStrength(password: string) returns (rating: Rating, feedback: seq<string>)
    ensures Assessment(rating, feedback) == Evaluate(password)
  {
    if password in CommonPasswords {
      return Weak, [CommonMessage];
    }

    var hasUpper := Search(password, Upper);
    var hasLower := Search(password, Lower);
    var hasDigit := Search(password, Digit);
    var hasSpecial := Search(password, Special);
    var score := Indicator(|password| >= MinPasswordLength) + Indicator(hasUpper)
      + Indicator(hasLower) + Indicator(hasDigit) + Indicator(hasSpecial);

    // After each step, feedback holds the suggestions of the failing rules checked so far.
    feedback := [];
    if |password| < MinPasswordLength {
      feedback := feedback + [LengthMessage];
    }
    FeedbackStep(password, 0);
    assert feedback == FailingSuggestions(password, Criteria[..1]);
    var found := Search(password, Upper);
    if !found {
      feedback := feedback + [UpperMessage];
    }
    FeedbackStep(password, 1);
    assert feedback == FailingSuggestions(password, Criteria[..2]);
    found := Search(password, Lower);
    if !found {
      feedback := feedback + [LowerMessage];
    }
    FeedbackStep(password, 2);
    assert feedback == FailingSuggestions(password, Criteria[..3]);
    found := Search(password, Digit);
    if !found {
      feedback := feedback + [DigitMessage];
    }
    FeedbackStep(password, 3);
    assert feedback == FailingSuggestions(password, Criteria[..4]);
    found := Search(password, Special);
    if !found {
      feedback := feedback + [SpecialMessage];
    }
    FeedbackStep(password, 4);
    assert Criteria[..5] == Criteria;
    assert feedback == FailingSuggestions(password, Criteria);

    ScoreCountsRules(password);
    if score <= 2 {
      rating := Weak;
    } else if score <= 4 {
      rating := Moderate;
    } else {
      rating, feedback := Strong, [StrongMessage];
    }
  }

  lemma {:induction false} FailingSuggestionsSnoc(s: string, cs: seq<Criterion>, c: Criterion)
    ensures FailingSuggestions(s, cs + [c])
         == FailingSuggestions(s, cs) + (if Holds(s, c) then [] else [Suggestion(c)])
  {
    if cs != [] {
      assert (cs + [c])[1..] == cs[1..] + [c];
      FailingSuggestionsSnoc(s, cs[1..], c);
    } else {
      assert [c][1..] == [];
    }
  }

  /** Checking rule number `k` extends the suggestions of the rules before it. */
  lemma FeedbackStep(s: string, k: nat)
    requires k < |Criteria|
    ensures FailingSuggestions(s, Criteria[..k + 1])
         == FailingSuggestions(s, Criteria[..k])
          + (if Holds(s, Criteria[k]) then [] else [Suggestion(Criteria[k])])
  {
    assert Criteria[..k + 1] == Criteria[..k] + [Criteria[k]];
    FailingSuggestionsSnoc(s, Criteria[..k], Criteria[k]);
  }

  lemma {:induction false} CountHoldingSnoc(s: string, cs: seq<Criterion>, c: Criterion)
    ensures CountHolding(s, cs + [c]) == CountHolding(s, cs) + Indicator(Holds(s, c))
  {
    if cs != [] {
      assert (cs + [c])[1..] == cs[1..] + [c];
      CountHoldingSnoc(s, cs[1..], c);
    } else {
      assert [c][1..] == [];
    }
  }

  lemma {:induction false} CountBound(s: string, cs: seq<Criterion>)
    ensures CountHolding(s, cs) <= |cs|
  {
    if cs != [] {
      CountBound(s, cs[1..]);
    }
  }

  /** The score is the number of the five rules that hold, so it is between 0 and 5. */
  lemma ScoreCountsRules(s: string)
    ensures Score(s) == CountHolding(s, Criteria)
    ensures Score(s) <= 5
  {
    assert Criteria[..0] == [];
    CountStep(s, 0);
    CountStep(s, 1);
    CountStep(s, 2);
    CountStep(s, 3);
    CountStep(s, 4);
    assert Criteria[..5] == Criteria;
    CountBound(s, Criteria);
  }

  lemma CountStep(s: string, k: nat)
    requires k < |Criteria|
    ensures CountHolding(s, Criteria[..k + 1])
         == CountHolding(s, Criteria[..k]) + Indicator(Holds(s, Criteria[k]))
  {
    assert Criteria[..k + 1] == Criteria[..k] + [Criteria[k]];
    CountHoldingSnoc(s, Criteria[..k], Criteria[k]);
  }

  /** Every rule yields either a point or a suggestion, never both. */
  lemma {:induction false} FeedbackComplementsCount(s: string, cs: seq<Criterion>)
    ensures |FailingSuggestions(s, cs)| == |cs| - CountHolding(s, cs)
  {
    if cs != [] {
      FeedbackComplementsCount(s, cs[1..]);
    }
  }

  lemma SuggestionInjective(c: Criterion, d: Criterion)
    ensures Suggestion(c) == Suggestion(d) <==> c == d
  {
  }

  /** A rule's suggestion appears exactly when the rule is listed and fails. */
  lemma {:induction false} FeedbackMembership(s: string, cs: seq<Criterion>, c: Criterion)
    ensures Suggestion(c) in FailingSuggestions(s, cs) <==> c in cs && !Holds(s, c)
  {
    if cs != [] {
      FeedbackMembership(s, cs[1..], c);
      SuggestionInjective(c, cs[0]);
      assert c in cs <==> c == cs[0] || c in cs[1..];
    }
  }

  /** Every suggestion given is the suggestion of a listed rule that fails. */
  lemma {:induction false} FeedbackFromFailingRules(s: string, cs: seq<Criterion>)
    ensures forall m | m in FailingSuggestions(s, cs) :: exists c | c in cs :: !Holds(s, c) && m == Suggestion(c)
  {
    if cs != [] {
      FeedbackFromFailingRules(s, cs[1..]);
      forall m | m in FailingSuggestions(s, cs)
        ensures exists c | c in cs :: !Holds(s, c) && m == Suggestion(c)
      {
        if m in FailingSuggestions(s, cs[1..]) {
          var c :| c in cs[1..] && !Holds(s, c) && m == Suggestion(c);
          assert c in cs;
        } else {
          assert !Holds(s, cs[0]) && m == Suggestion(cs[0]);
        }
      }
    }
  }

  /** The suggestions keep the order of the rules. */
  lemma {:induction false} FeedbackInRuleOrder(s: string, cs: seq<Criterion>)
    ensures Subsequence(FailingSuggestions(s, cs), Suggestions(cs))
  {
    if cs != [] {
      FeedbackInRuleOrder(s, cs[1..]);
      var fb, rest := FailingSuggestions(s, cs), FailingSuggestions(s, cs[1..]);
      var b := Suggestions(cs);
      assert b != [] && b[0] == Suggestion(cs[0]) && b[1..] == Suggestions(cs[1..]);
      if Holds(s, cs[0]) {
        assert fb == rest;
      } else {
        assert fb == [Suggestion(cs[0])] + rest;
        assert fb[0] == b[0] && fb[1..] == rest;
      }
    }
  }

  /** Denylisted passwords short-circuit to Weak with the single denylist message. */
  lemma CommonPasswordIsWeak(password: string)
    requires password in CommonPasswords
    ensures Evaluate(password) == Assessment(Weak, [CommonMessage])
  {
  }

  /** For a password not on the denylist the rating follows the score thresholds, both ways. */
  lemma RatingThresholds(password: string)
    requires password !in CommonPasswords
    ensures Evaluate(password).rating == Weak <==> Score(password) <= 2
    ensures Evaluate(password).rating == Moderate <==> 3 <= Score(password) <= 4
    ensures Evaluate(password).rating == Strong <==> Score(password) == 5
  {
  }

  /**
   * For a password not on the denylist: a Weak or Moderate rating comes with the
   * suggestions of exactly the failing rules, in rule order, 5 - score of them and
   * at least one; a Strong rating comes with the affirmative message alone, and the
   * suggestion list it replaces is empty.
   */
  lemma FeedbackMatchesScore(password: string)
    requires password !in CommonPasswords
    ensures var a := Evaluate(password);
      a.rating != Strong ==>
        && a.feedback == FailingSuggestions(password, Criteria)
        && |a.feedback| == 5 - Score(password) >= 1
        && Subsequence(a.feedback, Suggestions(Criteria))
        && (forall c | c in Criteria :: Suggestion(c) in a.feedback <==> !Holds(password, c))
    ensures var a := Evaluate(password);
      a.rating == Strong ==>
        a.feedback == [StrongMessage] && FailingSuggestions(password, Criteria) == []
  {
    ScoreCountsRules(password);
    FeedbackComplementsCount(password, Criteria);
    FeedbackInRuleOrder(password, Criteria);
    forall c | c in Criteria
      ensures Suggestion(c) in FailingSuggestions(password, Criteria) <==> !Holds(password, c)
    {
      FeedbackMembership(password, Criteria, c);
    }
  }

  /**
   * The denylist message is given exactly for denylisted passwords, and the
   * affirmative message exactly for Strong ones.
   */
  lemma OutcomeMessages(password: string)
    ensures Evaluate(password).feedback == [CommonMessage] <==> password in CommonPasswords
    ensures Evaluate(password).feedback == [StrongMessage] <==> Evaluate(password).rating == Strong
  {
    // The fixed messages are told apart from the suggestions by their lengths.
    assert |CommonMessage| == 54 && |StrongMessage| == 26;
    assert |LengthMessage| == 41 && |UpperMessage| == 34 && |LowerMessage| == 34;
    assert |DigitMessage| == 33 && |SpecialMessage| == 50;
    var fb := FailingSuggestions(password, Criteria);
    if password !in CommonPasswords && fb != [] {
      FeedbackFromFailingRules(password, Criteria);
      assert fb[0] in fb;
      var c :| c in Criteria && !Holds(password, c) && fb[0] == Suggestion(c);
      assert |fb[0]| != |CommonMessage| && |fb[0]| != |StrongMessage|;
    }
  }

  /** Every evaluation gives at least one message. */
  lemma FeedbackNeverEmpty(password: string)
    ensures Evaluate(password).feedback != []
  {
    if password !in CommonPasswords {
      FeedbackMatchesScore(password);
    }
  }

  /** The empty password is not denylisted, fails every rule and gets all five suggestions. */
  lemma EmptyPasswordIsWeak()
    ensures "" !in CommonPasswords && Score("") == 0
    ensures Evaluate("") == Assessment(Weak, [
      LengthMessage,
      UpperMessage,
      LowerMessage,
      DigitMessage,
      SpecialMessage])
  {
  }

  /** A password meeting all five rules is rated Strong. */
  lemma AllRulesExampleIsStrong()
    ensures Score("Abc12345!") == 5
    ensures Evaluate("Abc12345!") == Assessment(Strong, [StrongMessage])
  {
    var p := "Abc12345!";
    assert InClass(p[0], Upper) && InClass(p[1], Lower) && InClass(p[3], Digit) && InClass(p[8], Special);
  }

  /** Length and lowercase only: score 2, Weak. */
  lemma LowercaseOnlyExampleIsWeak()
    ensures Score("abcdefgh") == 2
    ensures Evaluate("abcdefgh").rating == Weak
  {
    var p := "abcdefgh";
    assert InClass(p[0], Lower);
    assert forall i | 0 <= i < |p| :: !InClass(p[i], Upper) && !InClass(p[i], Digit) && !InClass(p[i], Special);
  }

  /** Everything but a special character: score 4, Moderate, and the special-character suggestion alone. */
  lemma NoSpecialExampleIsModerate()
    ensures Score("Abcdefgh1") == 4
    ensures Evaluate("Abcdefgh1") == Assessment(Moderate, [SpecialMessage])
  {
    var p := "Abcdefgh1";
    assert Score(p) == 4 && !Has(p, Special) by {
      assert InClass(p[0], Upper) && InClass(p[1], Lower) && InClass(p[8], Digit);
      assert forall i | 0 <= i < |p| :: !InClass(p[i], Special);
    }
    assert p !in CommonPasswords;
    var fb := FailingSuggestions(p, Criteria);
    ScoreCountsRules(p);
    FeedbackComplementsCount(p, Criteria);
    FeedbackMembership(p, Criteria, Contains(Special));
    assert |fb| == 1 && SpecialMessage in fb;
  }

  /** The denylist matters: "password123" scores 3, which alone would be Moderate. */
  lemma DenylistOverridesScore()
    ensures Score("password123") == 3 && Classify(Score("password123")) == Moderate
    ensures Evaluate("password123").rating == Weak
  {
    var p := "password123";
    assert InClass(p[0], Lower) && InClass(p[8], Digit);
    assert forall i | 0 <= i < |p| :: !InClass(p[i], Upper) && !InClass(p[i], Special);
  }
}
