/** The substitution of `migrate-landing-names.py`: seven replacements applied
    one after the other.  The chain is proved equal to one left-to-right pass
    that picks the first matching rule, and to leave none of the old words. */
module Renaming {
  import opened Basics

  datatype Rule = Rule(pattern: string, replacement: string)

  const LANDING_WORKFLOW := Rule("steward-landing-on-completion", "landing-on-completion")
  const LEGACY_WORKFLOW := Rule("steward-on-completion", "legacy-landing-on-completion")
  const REVIEW := Rule("steward-review", "candidate-review")
  const REVIEW_IDENTIFIER := Rule("steward_review", "candidate_review")
  const CAPITALISED := Rule("Steward", "Landing")
  const UPPER_CASE := Rule("STEWARD", "LANDING")
  const LOWER_CASE := Rule("steward", "landing")

  /** The pairs of the loop, in its order. */
  const RULES: seq<Rule> :=
    [LANDING_WORKFLOW, LEGACY_WORKFLOW, REVIEW, REVIEW_IDENTIFIER, CAPITALISED, UPPER_CASE, LOWER_CASE]

  const OLD_WORDS: seq<string> := ["Steward", "STEWARD", "steward"]

  /** Python's `text.replace`: leftmost matches, never overlapping. */
  function Replace(text: string, rule: Rule): string
    requires rule.pattern != []
  {
    if text == [] then []
    else if rule.pattern <= text then rule.replacement + Replace(text[|rule.pattern|..], rule)
    else [text[0]] + Replace(text[1..], rule)
  }

  /** The replacements of the loop, in order. */
  function Chain(text: string, rules: seq<Rule>): string
    requires forall r :: r in rules ==> r.pattern != []
    decreases |rules|
  {
    if rules == [] then text else Chain(Replace(text, rules[0]), rules[1..])
  }

  function FirstMatch(text: string, rules: seq<Rule>): (m: Option<Rule>)
    ensures m.Some? ==> m.value in rules && m.value.pattern <= text
    ensures m.None? ==> forall r :: r in rules ==> !(r.pattern <= text)
    decreases |rules|
  {
    if rules == [] then None
    else if rules[0].pattern <= text then Some(rules[0])
    else
      assert forall r :: r in rules ==> r == rules[0] || r in rules[1..];
      FirstMatch(text, rules[1..])
  }

  /** One pass: at each position the first rule that matches is applied. */
  function Scan(text: string, rules: seq<Rule>): string
    requires forall r :: r in rules ==> r.pattern != []
  {
    if text == [] then []
    else match FirstMatch(text, rules)
         case Some(r) => r.replacement + Scan(text[|r.pattern|..], rules)
         case None => [text[0]] + Scan(text[1..], rules)
  }

  /** What one step of the pass emits, and how much it consumes. */
  function Emitted(text: string, rules: seq<Rule>): string
    requires text != []
  {
    match FirstMatch(text, rules) case Some(r) => r.replacement case None => [text[0]]
  }

  function Consumed(text: string, rules: seq<Rule>): (n: nat)
    requires text != [] && forall r :: r in rules ==> r.pattern != []
    ensures 1 <= n <= |text|
  {
    match FirstMatch(text, rules) case Some(r) => |r.pattern| case None => 1
  }

  lemma ScanUnfolds(text: string, rules: seq<Rule>)
    requires text != [] && forall r :: r in rules ==> r.pattern != []
    ensures Scan(text, rules) == Emitted(text, rules) + Scan(text[Consumed(text, rules)..], rules)
  {
  }

  // ----- when a chain of replacements is one pass ---------------------------

  /** `c` is not in `word` at or after position `from`. */
  predicate Lacks(word: string, from: nat, c: char) {
    forall i :: from <= i < |word| ==> word[i] != c
  }

  /** Placed after the first `p` characters of `word`, `replacement` disagrees
      with the rest of `word`. */
  predicate Clashes(word: string, p: nat, replacement: string) {
    exists d: nat :: d < |replacement| && p + d < |word| && word[p + d] != replacement[d]
  }

  /** `word` never begins before a replacement and runs into it. */
  predicate NoSeam(word: string, replacement: string) {
    forall p: nat :: 1 <= p < |word| ==> Clashes(word, p, replacement)
  }

  /** What makes a chain of passes the same as one pass: the character that
      starts a pattern is nowhere else in a pattern and in no replacement, and
      no later pattern can run into an earlier replacement. */
  ghost predicate Independent(rules: seq<Rule>) {
    && (forall r :: r in rules ==> r.pattern != [])
    && (forall i, j :: 0 <= i < |rules| && 0 <= j < |rules| ==>
          Lacks(rules[j].pattern, 1, rules[i].pattern[0]) && Lacks(rules[j].replacement, 0, rules[i].pattern[0]))
    && (forall i, j :: 0 <= i < j < |rules| ==> NoSeam(rules[j].pattern, rules[i].replacement))
  }

  lemma {:induction false} ReplaceSkips(a: string, u: string, r: Rule)
    requires r.pattern != [] && Lacks(a, 0, r.pattern[0])
    ensures Replace(a + u, r) == a + Replace(u, r)
  {
    if a == [] {
      assert a + u == u;
    } else {
      assert (a + u)[0] == a[0] && (a + u)[1..] == a[1..] + u;
      ReplaceSkips(a[1..], u, r);
    }
  }

  lemma {:induction false} ScanSkips(a: string, u: string, rules: seq<Rule>)
    requires forall r :: r in rules ==> r.pattern != [] && Lacks(a, 0, r.pattern[0])
    ensures Scan(a + u, rules) == a + Scan(u, rules)
  {
    if a == [] {
      assert a + u == u;
    } else {
      assert (a + u)[0] == a[0] && (a + u)[1..] == a[1..] + u;
      assert FirstMatch(a + u, rules).None?;
      ScanSkips(a[1..], u, rules);
    }
  }

  lemma NotInFront(word: string, p: nat, replacement: string, rest: string)
    requires p < |word| && Clashes(word, p, replacement)
    ensures !(word[p..] <= replacement + rest)
  {
    var d: nat :| d < |replacement| && p + d < |word| && word[p + d] != replacement[d];
    assert word[p..][d] == word[p + d] && (replacement + rest)[d] == replacement[d];
  }

  /** The tail of a word is in front of the text after a pass exactly when it
      was there before the pass. */
  lemma {:induction false} TailKept(word: string, p: nat, u: string, r: Rule)
    requires 1 <= p <= |word| && r.pattern != []
    requires Lacks(word, 1, r.pattern[0]) && NoSeam(word, r.replacement)
    ensures word[p..] <= Replace(u, r) <==> word[p..] <= u
    decreases |u|
  {
    if p < |word| && u != [] {
      assert word[p..] == [word[p]] + word[p + 1..];
      if r.pattern <= u {
        NotInFront(word, p, r.replacement, Replace(u[|r.pattern|..], r));
        assert u[0] == r.pattern[0] != word[p];
      } else {
        TailKept(word, p + 1, u[1..], r);
        assert u == [u[0]] + u[1..];
        PrefixByHead(word[p], word[p + 1..], u[0], u[1..]);
        PrefixByHead(word[p], word[p + 1..], u[0], Replace(u[1..], r));
      }
    }
  }

  lemma PrefixByHead(c: char, w: string, d: char, u: string)
    ensures [c] + w <= [d] + u <==> c == d && w <= u
  {
    if [c] + w <= [d] + u {
      assert ([d] + u)[..1 + |w|] == [c] + w;
      assert ([d] + u)[0] == c && u[..|w|] == ([d] + u)[1..1 + |w|] == w;
    }
    if w <= u {
      assert [c] + u == [c] + w + u[|w|..];
    }
  }

  /** A pass that does not touch the front neither makes nor breaks a match
      there. */
  lemma MatchKept(text: string, r: Rule, q: Rule)
    requires text != [] && r.pattern != [] && q.pattern != [] && !(r.pattern <= text)
    requires Lacks(q.pattern, 1, r.pattern[0]) && NoSeam(q.pattern, r.replacement)
    ensures q.pattern <= Replace(text, r) <==> q.pattern <= text
  {
    TailKept(q.pattern, 1, text[1..], r);
    assert text == [text[0]] + text[1..] && q.pattern == [q.pattern[0]] + q.pattern[1..];
    PrefixByHead(q.pattern[0], q.pattern[1..], text[0], text[1..]);
    PrefixByHead(q.pattern[0], q.pattern[1..], text[0], Replace(text[1..], r));
  }

  lemma {:induction false} FirstMatchKept(text: string, r: Rule, rest: seq<Rule>)
    requires text != [] && r.pattern != [] && !(r.pattern <= text)
    requires forall q :: q in rest ==>
             q.pattern != [] && Lacks(q.pattern, 1, r.pattern[0]) && NoSeam(q.pattern, r.replacement)
    ensures FirstMatch(Replace(text, r), rest) == FirstMatch(text, rest)
    decreases |rest|
  {
    if rest != [] {
      MatchKept(text, r, rest[0]);
      if !(rest[0].pattern <= text) {
        assert forall q :: q in rest[1..] ==> q in rest;
        FirstMatchKept(text, r, rest[1..]);
      }
    }
  }

  /** One pass with all rules is one pass with the first rule and then one pass
      with the others. */
  lemma {:induction false} PeelFirstRule(text: string, rules: seq<Rule>)
    requires rules != [] && Independent(rules)
    ensures Scan(text, rules) == Scan(Replace(text, rules[0]), rules[1..])
    decreases |text|
  {
    var r, rest := rules[0], rules[1..];
    IndependentFirst(rules);
    if text != [] {
      if r.pattern <= text {
        var t := text[|r.pattern|..];
        PeelFirstRule(t, rules);
        ScanSkips(r.replacement, Replace(t, r), rest);
      } else {
        FirstMatchKept(text, r, rest);
        var m := FirstMatch(text, rest);
        if m.Some? {
          PeelFirstRule(text[|m.value.pattern|..], rules);
          ReplaceAfterMatch(text, r, m.value);
        } else {
          PeelFirstRule(text[1..], rules);
        }
      }
    }
  }

  lemma IndependentFirst(rules: seq<Rule>)
    requires rules != [] && Independent(rules)
    ensures Independent(rules[1..])
    ensures forall q :: q in rules[1..] ==>
              && q.pattern != [] && Lacks(q.pattern, 1, rules[0].pattern[0])
              && NoSeam(q.pattern, rules[0].replacement) && Lacks(rules[0].replacement, 0, q.pattern[0])
  {
  }

  /** The first rule leaves a match of another rule whole. */
  lemma ReplaceAfterMatch(text: string, r: Rule, q: Rule)
    requires r.pattern != [] && q.pattern != [] && q.pattern <= text && !(r.pattern <= text)
    requires Lacks(q.pattern, 1, r.pattern[0])
    ensures Replace(text, r) == q.pattern + Replace(text[|q.pattern|..], r)
  {
    var t := text[|q.pattern|..];
    assert text[1..] == q.pattern[1..] + t;
    ReplaceSkips(q.pattern[1..], t, r);
    assert q.pattern == [text[0]] + q.pattern[1..];
  }

  lemma {:induction false} ChainIsScan(text: string, rules: seq<Rule>)
    requires Independent(rules)
    ensures Chain(text, rules) == Scan(text, rules)
    decreases |rules|
  {
    if rules == [] {
      NoRules(text);
    } else {
      PeelFirstRule(text, rules);
      IndependentFirst(rules);
      ChainIsScan(Replace(text, rules[0]), rules[1..]);
    }
  }

  lemma {:induction false} NoRules(text: string)
    ensures Scan(text, []) == text
  {
    if text != [] {
      NoRules(text[1..]);
    }
  }

  // ----- no old word is left ---------------------------------------------------

  predicate At(word: string, text: string, i: nat) {
    i + |word| <= |text| && text[i..i + |word|] == word
  }

  ghost predicate Occurs(word: string, text: string) {
    exists i: nat :: At(word, text, i)
  }

  /** `word` can neither begin inside a replacement nor run into one. */
  ghost predicate Foreign(word: string, rules: seq<Rule>) {
    && word != []
    && forall r :: r in rules ==> r.pattern != [] && Lacks(r.replacement, 0, word[0]) && NoSeam(word, r.replacement)
  }

  lemma {:induction false} TailNotMade(word: string, p: nat, u: string, rules: seq<Rule>)
    requires 1 <= p <= |word| && Foreign(word, rules)
    requires word[p..] <= Scan(u, rules)
    ensures word[p..] <= u
    decreases |u|
  {
    if p < |word| && u != [] {
      assert word[p..] == [word[p]] + word[p + 1..];
      match FirstMatch(u, rules) {
        case Some(r) =>
          NotInFront(word, p, r.replacement, Scan(u[|r.pattern|..], rules));
        case None =>
          PrefixByHead(word[p], word[p + 1..], u[0], Scan(u[1..], rules));
          TailNotMade(word, p + 1, u[1..], rules);
          assert u == [u[0]] + u[1..];
          PrefixByHead(word[p], word[p + 1..], u[0], u[1..]);
      }
    }
  }

  lemma SliceAfter(front: string, back: string, i: nat, n: nat)
    requires |front| <= i && i + n <= |front| + |back|
    ensures (front + back)[i..i + n] == back[i - |front|..i - |front| + n]
  {
  }

  /** A word that is itself a pattern is gone after the pass, at every position. */
  lemma {:induction false} ScanRemoves(text: string, rules: seq<Rule>, word: string, i: nat)
    requires Foreign(word, rules) && exists r :: r in rules && r.pattern == word
    requires i + |word| <= |Scan(text, rules)|
    ensures Scan(text, rules)[i..i + |word|] != word
    decreases |text|
  {
    hide Scan;
    NothingToScan(text, rules);
    if text != [] {
      ScanUnfolds(text, rules);
      var e, rest := Emitted(text, rules), text[Consumed(text, rules)..];
      if i >= |e| {
        ScanRemoves(rest, rules, word, i - |e|);
        SliceAfter(e, Scan(rest, rules), i, |word|);
      } else {
        if FirstMatch(text, rules).None? {
          NotMadeInFront(text, rules, word);
        }
        assert Scan(text, rules)[i..i + |word|][0] == e[i];
      }
    }
  }

  lemma NothingToScan(text: string, rules: seq<Rule>)
    requires forall r :: r in rules ==> r.pattern != []
    ensures text == [] ==> Scan(text, rules) == []
  {
  }

  /** Where no rule matches, a pattern is not in front after the pass either. */
  lemma NotMadeInFront(text: string, rules: seq<Rule>, word: string)
    requires text != [] && FirstMatch(text, rules).None?
    requires Foreign(word, rules) && exists r :: r in rules && r.pattern == word
    ensures !(word <= Scan(text, rules))
  {
    assert word == [word[0]] + word[1..] && text == [text[0]] + text[1..];
    PrefixByHead(word[0], word[1..], text[0], Scan(text[1..], rules));
    PrefixByHead(word[0], word[1..], text[0], text[1..]);
    if word[1..] <= Scan(text[1..], rules) {
      TailNotMade(word, 1, text[1..], rules);
    }
  }

  lemma OccursInFront(word: string, text: string)
    ensures word <= text ==> Occurs(word, text)
  {
    if word <= text {
      assert At(word, text, 0);
    }
  }

  lemma OccursLater(word: string, text: string)
    requires text != []
    ensures Occurs(word, text[1..]) ==> Occurs(word, text)
  {
    if Occurs(word, text[1..]) {
      var i: nat :| At(word, text[1..], i);
      SliceAfter([text[0]], text[1..], i + 1, |word|);
      assert text == [text[0]] + text[1..];
      assert At(word, text, i + 1);
    }
  }

  /** A text in which no rule matches anywhere is left alone. */
  lemma {:induction false} ScanKeeps(text: string, rules: seq<Rule>)
    requires forall r :: r in rules ==> r.pattern != [] && !Occurs(r.pattern, text)
    ensures Scan(text, rules) == text
  {
    if text != [] {
      forall r | r in rules
        ensures !(r.pattern <= text) && !Occurs(r.pattern, text[1..])
      {
        OccursInFront(r.pattern, text);
        OccursLater(r.pattern, text);
      }
      ScanKeeps(text[1..], rules);
    }
  }

  // ----- the seven rules ---------------------------------------------------------

  lemma NoSeamByHead(word: string, replacement: string)
    requires replacement != [] && Lacks(word, 1, replacement[0])
    ensures NoSeam(word, replacement)
  {
    forall p: nat | 1 <= p < |word|
      ensures Clashes(word, p, replacement)
    {
      assert word[p + 0] != replacement[0];
    }
  }

  predicate IsHead(c: char) { c == 's' || c == 'S' }

  /** What holds of each rule alone: its pattern begins with an old word, has the
      head only in front and no dot; its replacement has no head. */
  predicate Shape(r: Rule) {
    && r.pattern != [] && r.replacement != [] && IsHead(r.pattern[0])
    && Lacks(r.pattern, 1, 's') && Lacks(r.pattern, 1, 'S')
    && Lacks(r.replacement, 0, 's') && Lacks(r.replacement, 0, 'S')
    && Lacks(r.pattern, 0, '.')
  }

  /** The characters replacements start with, missing from later patterns. */
  predicate Late(r: Rule) {
    Lacks(r.pattern, 1, 'l') && Lacks(r.pattern, 1, 'c') && Lacks(r.pattern, 1, 'L')
  }

  predicate StartsReplacement(c: char) { c == 'l' || c == 'c' || c == 'L' }

  lemma LandingWorkflowShape()
    ensures Shape(LANDING_WORKFLOW) && "steward" <= LANDING_WORKFLOW.pattern
    ensures LANDING_WORKFLOW.replacement[0] == 'l' && LANDING_WORKFLOW.replacement[1] == 'a'
  {
    LandingWorkflowPattern();
    LandingWorkflowDot();
  }

  lemma LandingWorkflowPattern()
    ensures Lacks(LANDING_WORKFLOW.pattern, 1, 's') && Lacks(LANDING_WORKFLOW.pattern, 1, 'S')
  {
  }

  lemma LandingWorkflowDot()
    ensures Lacks(LANDING_WORKFLOW.pattern, 0, '.')
  {
  }

  lemma LegacyWorkflowShape()
    ensures Shape(LEGACY_WORKFLOW) && "steward" <= LEGACY_WORKFLOW.pattern
    ensures LEGACY_WORKFLOW.replacement[0] == 'l'
  {
    LegacyWorkflowPattern();
  }

  lemma LegacyWorkflowPattern()
    ensures Lacks(LEGACY_WORKFLOW.pattern, 1, 's') && Lacks(LEGACY_WORKFLOW.pattern, 1, 'S')
    ensures Lacks(LEGACY_WORKFLOW.pattern, 0, '.')
  {
  }

  /** The one pattern that could run into an earlier replacement. */
  lemma LegacyWorkflowSeam()
    ensures NoSeam(LEGACY_WORKFLOW.pattern, LANDING_WORKFLOW.replacement)
  {
    var word, replacement := LEGACY_WORKFLOW.pattern, LANDING_WORKFLOW.replacement;
    assert |word| == 21 && replacement[0] == 'l' && replacement[1] == 'a';
    forall p: nat | 1 <= p < |word|
      ensures Clashes(word, p, replacement)
    {
      if word[p] == 'l' {
        assert p == 15 && word[p + 1] != replacement[1];
      } else {
        assert word[p + 0] != replacement[0];
      }
    }
  }

  lemma ReviewShape()
    ensures Shape(REVIEW) && Late(REVIEW) && REVIEW.replacement[0] == 'c' && "steward" <= REVIEW.pattern
  {
  }

  lemma ReviewIdentifierShape()
    ensures Shape(REVIEW_IDENTIFIER) && Late(REVIEW_IDENTIFIER)
    ensures REVIEW_IDENTIFIER.replacement[0] == 'c' && "steward" <= REVIEW_IDENTIFIER.pattern
  {
  }

  lemma CapitalisedShape()
    ensures Shape(CAPITALISED) && Late(CAPITALISED) && CAPITALISED.replacement[0] == 'L'
  {
  }

  lemma UpperCaseShape()
    ensures Shape(UPPER_CASE) && Late(UPPER_CASE) && UPPER_CASE.replacement[0] == 'L'
  {
  }

  lemma LowerCaseShape()
    ensures Shape(LOWER_CASE) && Late(LOWER_CASE) && LOWER_CASE.replacement[0] == 'l'
  {
  }

  lemma RuleShapes()
    ensures |RULES| == 7 && |OLD_WORDS| == 3
    ensures forall i :: 0 <= i < 7 ==> Shape(RULES[i]) && StartsReplacement(RULES[i].replacement[0])
    ensures forall i :: 2 <= i < 7 ==> Late(RULES[i])
    ensures forall i :: 0 <= i < 3 ==> RULES[4 + i].pattern == OLD_WORDS[i] && |OLD_WORDS[i]| == 7
    ensures forall i :: 0 <= i < 4 ==> OLD_WORDS[2] <= RULES[i].pattern
  {
    LandingWorkflowShape();
    LegacyWorkflowShape();
    ReviewShape();
    ReviewIdentifierShape();
    CapitalisedShape();
    UpperCaseShape();
    LowerCaseShape();
  }

  lemma RulesIndependent()
    ensures Independent(RULES)
  {
    RuleShapes();
    forall i, j | 0 <= i < j < |RULES|
      ensures NoSeam(RULES[j].pattern, RULES[i].replacement)
    {
      if j == 1 {
        LegacyWorkflowSeam();
      } else {
        NoSeamByHead(RULES[j].pattern, RULES[i].replacement);
      }
    }
  }

  lemma OldWordsForeign(word: string)
    requires word in OLD_WORDS
    ensures Foreign(word, RULES) && exists r :: r in RULES && r.pattern == word
  {
    RuleShapes();
    var k :| 0 <= k < |OLD_WORDS| && word == OLD_WORDS[k];
    assert RULES[4 + k].pattern == word;
    forall r | r in RULES
      ensures r.pattern != [] && Lacks(r.replacement, 0, word[0]) && NoSeam(word, r.replacement)
    {
      NoSeamByHead(word, r.replacement);
    }
  }

  /** Every pattern begins with an old word. */
  lemma PatternsBeginOld(r: Rule)
    requires r in RULES
    ensures r.pattern != []
    ensures exists word :: word in OLD_WORDS && word <= r.pattern
  {
    RuleShapes();
    var k :| 0 <= k < |RULES| && r == RULES[k];
    var word := OLD_WORDS[if k < 4 then 2 else k - 4];
    if k >= 4 {
      assert RULES[4 + (k - 4)].pattern == OLD_WORDS[k - 4];
    }
    assert word in OLD_WORDS && word <= r.pattern;
  }

  /** What `rename` computes. */
  function Renamed(text: string): string {
    RuleShapes();
    Scan(text, RULES)
  }

  /** `rename`: reassign the text once per rule.  The result is that of a single
      pass in which every position is rewritten at most once. */
  method Rename(text: string) returns (out: string)
    ensures out == Renamed(text)
  {
    RulesIndependent();
    out := text;
    for i := 0 to |RULES|
      invariant Chain(out, RULES[i..]) == Chain(text, RULES)
    {
      assert RULES[i..][0] == RULES[i] && RULES[i..][1..] == RULES[i + 1..];
      out := Replace(out, RULES[i]);
    }
    ChainIsScan(text, RULES);
  }

  /** No old word is left in any renamed text, not even across the seams of
      replaced pieces. */
  lemma NoOldWordLeft(text: string, word: string)
    requires word in OLD_WORDS
    ensures !Occurs(word, Renamed(text))
  {
    OldWordsForeign(word);
    forall i: nat
      ensures !At(word, Renamed(text), i)
    {
      if i + |word| <= |Renamed(text)| {
        ScanRemoves(text, RULES, word, i);
      }
    }
  }

  ghost predicate Clean(text: string) {
    forall word :: word in OLD_WORDS ==> !Occurs(word, text)
  }

  lemma OccursWithin(word: string, pattern: string, text: string)
    requires word <= pattern && Occurs(pattern, text)
    ensures Occurs(word, text)
  {
    var i: nat :| At(pattern, text, i);
    assert text[i..i + |word|] == pattern[..|word|];
    assert At(word, text, i);
  }

  lemma CleanKept(text: string)
    requires Clean(text)
    ensures Renamed(text) == text
  {
    forall r | r in RULES
      ensures r.pattern != [] && !Occurs(r.pattern, text)
    {
      PatternsBeginOld(r);
      if Occurs(r.pattern, text) {
        var word :| word in OLD_WORDS && word <= r.pattern;
        OccursWithin(word, r.pattern, text);
      }
    }
    ScanKeeps(text, RULES);
  }

  /** Renaming changes exactly the texts in which an old word occurs. */
  lemma RenamedFixesOnlyClean(text: string)
    ensures Renamed(text) == text <==> Clean(text)
  {
    if Renamed(text) == text {
      forall word | word in OLD_WORDS
        ensures !Occurs(word, text)
      {
        NoOldWordLeft(text, word);
      }
    }
    if Clean(text) {
      CleanKept(text);
    }
  }

  lemma RenamedTwice(text: string)
    ensures Renamed(Renamed(text)) == Renamed(text)
  {
    forall word | word in OLD_WORDS
      ensures !Occurs(word, Renamed(text))
    {
      NoOldWordLeft(text, word);
    }
    CleanKept(Renamed(text));
  }

  // ----- file names keep their extension -------------------------------------------

  lemma PrefixBeforeDot(pattern: string, a: string, b: string)
    requires Lacks(pattern, 0, '.')
    ensures pattern <= a + "." + b <==> pattern <= a
  {
    var text := a + "." + b;
    assert text[|a|] == '.';
    if pattern <= text {
      assert forall i :: 0 <= i < |pattern| ==> pattern[i] == text[i];
      assert |pattern| <= |a|;
      assert a[..|pattern|] == text[..|pattern|];
    }
    if pattern <= a {
      assert text[..|pattern|] == a[..|pattern|];
    }
  }

  lemma {:induction false} FirstMatchBeforeDot(a: string, b: string, rules: seq<Rule>)
    requires forall r :: r in rules ==> Lacks(r.pattern, 0, '.')
    ensures FirstMatch(a + "." + b, rules) == FirstMatch(a, rules)
    decreases |rules|
  {
    if rules != [] {
      PrefixBeforeDot(rules[0].pattern, a, b);
      assert forall r :: r in rules[1..] ==> r in rules;
      FirstMatchBeforeDot(a, b, rules[1..]);
    }
  }

  lemma ScanOneStep(a: string, b: string, rules: seq<Rule>)
    requires a != [] && forall r :: r in rules ==> r.pattern != [] && Lacks(r.pattern, 0, '.')
    ensures var n := Consumed(a, rules);
            && Scan(a, rules) == Emitted(a, rules) + Scan(a[n..], rules)
            && Scan(a + "." + b, rules) == Emitted(a, rules) + Scan(a[n..] + "." + b, rules)
  {
    FirstMatchBeforeDot(a, b, rules);
    var n, text := Consumed(a, rules), a + "." + b;
    assert text[n..] == a[n..] + "." + b;
    assert text[0] == a[0];
  }

  lemma {:induction false} ScanAcrossDot(a: string, b: string, rules: seq<Rule>)
    requires forall r :: r in rules ==> r.pattern != [] && Lacks(r.pattern, 0, '.')
    ensures Scan(a + "." + b, rules) == Scan(a, rules) + "." + Scan(b, rules)
    decreases |a|
  {
    if a == [] {
      assert a + "." + b == "." + b;
      ScanSkips(".", b, rules);
    } else {
      ScanOneStep(a, b, rules);
      ScanAcrossDot(a[Consumed(a, rules)..], b, rules);
    }
  }

  /** Renaming works on each side of a dot separately. */
  lemma RenamedAcrossDot(a: string, b: string)
    ensures Renamed(a + "." + b) == Renamed(a) + "." + Renamed(b)
  {
    RuleShapes();
    ScanAcrossDot(a, b, RULES);
  }

  lemma ShortTextKept(text: string)
    requires |text| < 7
    ensures Renamed(text) == text
  {
    RuleShapes();
    CleanKept(text);
  }

  lemma OnlyLowerCaseFits(r: Rule)
    requires r in RULES && r.pattern <= LOWER_CASE.pattern
    ensures r == LOWER_CASE
  {
    assert |LANDING_WORKFLOW.pattern| > 7 && |LEGACY_WORKFLOW.pattern| > 7;
    assert |REVIEW.pattern| > 7 && |REVIEW_IDENTIFIER.pattern| > 7;
    assert CAPITALISED.pattern[0] == UPPER_CASE.pattern[0] == 'S' && LOWER_CASE.pattern[0] == 's';
  }

  lemma OldWordRenamed()
    ensures Renamed(LOWER_CASE.pattern) == LOWER_CASE.replacement
  {
    hide Scan, FirstMatch;
    var word := LOWER_CASE.pattern;
    RuleShapes();
    assert RULES[6] == LOWER_CASE && word <= word && LOWER_CASE in RULES;
    var m := FirstMatch(word, RULES);
    OnlyLowerCaseFits(m.value);
    ScanWhole(word, RULES, LOWER_CASE);
  }

  lemma ScanWhole(word: string, rules: seq<Rule>, r: Rule)
    requires forall q :: q in rules ==> q.pattern != []
    requires FirstMatch(word, rules) == Some(r) && r.pattern == word
    ensures Scan(word, rules) == r.replacement
  {
    assert word[|word|..] == [];
  }

  // ----- what becomes of each old name ------------------------------------------------------

  lemma {:induction false} FirstMatchIs(text: string, rules: seq<Rule>, k: nat)
    requires k < |rules| && rules[k].pattern <= text && forall j :: 0 <= j < k ==> !(rules[j].pattern <= text)
    ensures FirstMatch(text, rules) == Some(rules[k])
    decreases k
  {
    if k > 0 {
      assert !(rules[0].pattern <= text);
      assert forall j :: 0 <= j < k - 1 ==> rules[1..][j] == rules[j + 1];
      FirstMatchIs(text, rules[1..], k - 1);
    }
  }

  lemma RuleApplies(k: nat, u: string)
    requires k < |RULES| && forall j :: 0 <= j < k ==> !(RULES[j].pattern <= RULES[k].pattern + u)
    ensures Renamed(RULES[k].pattern + u) == RULES[k].replacement + Renamed(u)
  {
    hide FirstMatch;
    RuleShapes();
    var text := RULES[k].pattern + u;
    FirstMatchIs(text, RULES, k);
    assert RULES[k].pattern != [] by { assert Shape(RULES[k]); }
    assert text[|RULES[k].pattern|..] == u;
  }

  lemma NotPrefixAt(word: string, text: string, k: nat)
    requires k < |word| && (k < |text| ==> word[k] != text[k])
    ensures !(word <= text)
  {
  }

  /** The two workflows, wherever they stand in a text. */
  lemma WorkflowsRenamed(u: string)
    ensures Renamed("steward-landing-on-completion" + u) == "landing-on-completion" + Renamed(u)
    ensures Renamed("steward-on-completion" + u) == "legacy-landing-on-completion" + Renamed(u)
  {
    hide Renamed;
    RuleApplies(0, u);
    assert "steward-on-completion"[8] == 'o' && LANDING_WORKFLOW.pattern[8] == 'l';
    NotPrefixAt(LANDING_WORKFLOW.pattern, "steward-on-completion" + u, 8);
    RuleApplies(1, u);
  }

  /** The review, as a name and as an identifier. */
  lemma ReviewsRenamed(u: string)
    ensures Renamed("steward-review" + u) == "candidate-review" + Renamed(u)
    ensures Renamed("steward_review" + u) == "candidate_review" + Renamed(u)
  {
    hide Renamed;
    assert "steward-review"[8] == 'r' && LANDING_WORKFLOW.pattern[8] == 'l' && LEGACY_WORKFLOW.pattern[8] == 'o';
    NotPrefixAt(LANDING_WORKFLOW.pattern, "steward-review" + u, 8);
    NotPrefixAt(LEGACY_WORKFLOW.pattern, "steward-review" + u, 8);
    RuleApplies(2, u);
    assert "steward_review"[7] == '_';
    assert LANDING_WORKFLOW.pattern[7] == LEGACY_WORKFLOW.pattern[7] == REVIEW.pattern[7] == '-';
    NotPrefixAt(LANDING_WORKFLOW.pattern, "steward_review" + u, 7);
    NotPrefixAt(LEGACY_WORKFLOW.pattern, "steward_review" + u, 7);
    NotPrefixAt(REVIEW.pattern, "steward_review" + u, 7);
    RuleApplies(3, u);
  }

  lemma LowerCaseRulesMiss(text: string)
    requires text != [] && text[0] != 's'
    ensures forall j :: 0 <= j < 4 ==> !(RULES[j].pattern <= text)
  {
    assert forall j :: 0 <= j < 4 ==> RULES[j].pattern[0] == 's';
  }

  /** The word itself keeps its case. */
  lemma WordRenamed(u: string)
    ensures Renamed("Steward" + u) == "Landing" + Renamed(u)
    ensures Renamed("STEWARD" + u) == "LANDING" + Renamed(u)
    ensures !("-landing-on-completion" <= u) && !("-on-completion" <= u) && !("-review" <= u) && !("_review" <= u) ==>
              Renamed("steward" + u) == "landing" + Renamed(u)
  {
    hide Renamed;
    LowerCaseRulesMiss("Steward" + u);
    RuleApplies(4, u);
    LowerCaseRulesMiss("STEWARD" + u);
    NotPrefixAt(CAPITALISED.pattern, "STEWARD" + u, 1);
    RuleApplies(5, u);
    if !("-landing-on-completion" <= u) && !("-on-completion" <= u) && !("-review" <= u) && !("_review" <= u) {
      LowerCaseAlone(u);
      RuleApplies(6, u);
    }
  }

  lemma PrefixAfter(word: string, tail: string, u: string)
    ensures word + tail <= word + u <==> tail <= u
  {
    var n := |word|;
    assert forall k :: 0 <= k < |tail| ==> (word + tail)[n + k] == tail[k];
    assert forall k :: 0 <= k < |u| ==> (word + u)[n + k] == u[k];
    if word + tail <= word + u {
      forall k | 0 <= k < |tail|
        ensures tail[k] == u[k]
      {
        assert (word + tail)[n + k] == (word + u)[n + k];
      }
    }
  }

  lemma LandingPattern()
    ensures LANDING_WORKFLOW.pattern == "steward" + "-landing-on-completion"
  {
  }

  lemma LegacyPattern()
    ensures LEGACY_WORKFLOW.pattern == "steward" + "-on-completion"
  {
  }

  lemma ReviewPatterns()
    ensures REVIEW.pattern == "steward" + "-review" && REVIEW_IDENTIFIER.pattern == "steward" + "_review"
  {
  }

  lemma UpperPatternsMiss(u: string)
    ensures !(CAPITALISED.pattern <= "steward" + u) && !(UPPER_CASE.pattern <= "steward" + u)
  {
    NotPrefixAt(CAPITALISED.pattern, "steward" + u, 0);
    NotPrefixAt(UPPER_CASE.pattern, "steward" + u, 0);
  }

  lemma LowerCaseAlone(u: string)
    requires !("-landing-on-completion" <= u) && !("-on-completion" <= u) && !("-review" <= u) && !("_review" <= u)
    ensures forall j :: 0 <= j < 6 ==> !(RULES[j].pattern <= "steward" + u)
  {
    var word := "steward";
    LandingPattern();
    LegacyPattern();
    ReviewPatterns();
    PrefixAfter(word, "-landing-on-completion", u);
    PrefixAfter(word, "-on-completion", u);
    PrefixAfter(word, "-review", u);
    PrefixAfter(word, "_review", u);
    UpperPatternsMiss(u);
    SixRules(word + u);
  }

  lemma SixRules(text: string)
    requires !(LANDING_WORKFLOW.pattern <= text) && !(LEGACY_WORKFLOW.pattern <= text) && !(REVIEW.pattern <= text)
    requires !(REVIEW_IDENTIFIER.pattern <= text) && !(CAPITALISED.pattern <= text) && !(UPPER_CASE.pattern <= text)
    ensures forall j :: 0 <= j < 6 ==> !(RULES[j].pattern <= text)
  {
  }

  lemma PatternNeedsWord(r: Rule, text: string)
    requires r in RULES
    ensures r.pattern <= text ==> exists word :: word in OLD_WORDS && word <= text
  {
    PatternsBeginOld(r);
    var word :| word in OLD_WORDS && word <= r.pattern;
    if r.pattern <= text {
      assert text[..|word|] == r.pattern[..|word|] == word;
      assert word <= text;
    }
  }

  /** Everything else stays, character by character. */
  lemma OtherCharactersKept(c: char, u: string)
    requires !("Steward" <= [c] + u) && !("STEWARD" <= [c] + u) && !("steward" <= [c] + u)
    ensures Renamed([c] + u) == [c] + Renamed(u)
    ensures Renamed("") == ""
  {
    hide FirstMatch;
    RuleShapes();
    var text := [c] + u;
    forall r | r in RULES
      ensures !(r.pattern <= text)
    {
      PatternNeedsWord(r, text);
    }
    assert FirstMatch(text, RULES).None?;
    assert text[1..] == u;
  }
}
