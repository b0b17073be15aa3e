// Comments in theme style sheets: removing them once may leave some, and then a reader of the scoped
// sheet who drops comments sees other rules than were judged.
module ThemeComments {
  import opened Results
  import opened ThemeCss

  // ---------------------------------------------------------------- removing comments once

  // A comment that ends, from position k on.
  predicate CommentAt(s: string, k: nat) {
    k + 2 <= |s| && s[k..k + 2] == "/*" && CommentEnd(s[k + 2..]).Some?
  }

  predicate CommentFree(s: string) {
    forall k :: 0 <= k <= |s| ==> !CommentAt(s, k)
  }

  predicate OpensAt(s: string, k: nat) {
    k + 2 <= |s| && s[k] == '/' && s[k + 1] == '*'
  }

  predicate NeverOpens(s: string) {
    forall k :: 0 <= k <= |s| ==> !OpensAt(s, k)
  }

  lemma CommentAtTail(s: string, k: nat)
    requires s != ""
    ensures CommentAt(s, k + 1) == CommentAt(s[1..], k)
  {
    if k + 3 <= |s| {
      assert s[k + 1..k + 3] == s[1..][k..k + 2] && s[k + 3..] == s[1..][k + 2..];
    }
  }

  lemma CommentFreeTail(s: string)
    requires s != ""
    ensures CommentFree(s) <==> !CommentAt(s, 0) && CommentFree(s[1..])
  {
    if !CommentAt(s, 0) && CommentFree(s[1..]) {
      forall k | 0 < k <= |s| ensures !CommentAt(s, k) { CommentAtTail(s, k - 1); }
    }
    if CommentFree(s) {
      forall k | 0 <= k <= |s[1..]| ensures !CommentAt(s[1..], k) {
        CommentAtTail(s, k);
        assert !CommentAt(s, k + 1);
      }
    }
  }

  lemma {:induction false} RemovalShortens(s: string)
    ensures |WithoutComments(s)| <= |s|
    decreases |s|
  {
    if s == "" {
    } else if CommentAt(s, 0) {
      CommentEndWithin(s[2..]);
      RemovalShortens(s[2..][CommentEnd(s[2..]).value..]);
    } else {
      RemovalShortens(s[1..]);
    }
  }

  // Removing comments leaves a text alone exactly when no comment in it ends.
  lemma {:induction false} RemovalFixedIff(s: string)
    ensures WithoutComments(s) == s <==> CommentFree(s)
    decreases |s|
  {
    if s != "" {
      CommentFreeTail(s);
      if CommentAt(s, 0) {
        CommentEndWithin(s[2..]);
        RemovalShortens(s[2..][CommentEnd(s[2..]).value..]);
      } else {
        RemovalFixedIff(s[1..]);
        assert WithoutComments(s) == [s[0]] + WithoutComments(s[1..]);
        assert s == [s[0]] + s[1..];
      }
    }
  }

  // ---------------------------------------------------------------- comments as a machine sees them

  datatype Phase = Outside | Slash | Inside | Star | Closed

  function StepPhase(p: Phase, c: char): Phase {
    match p
    case Outside => if c == '/' then Slash else Outside
    case Slash => if c == '*' then Inside else if c == '/' then Slash else Outside
    case Inside => if c == '*' then Star else Inside
    case Star => if c == '/' then Closed else if c == '*' then Star else Inside
    case Closed => Closed
  }

  function PhaseAfter(p: Phase, s: string): Phase
    decreases |s|
  {
    if s == "" then p else PhaseAfter(StepPhase(p, s[0]), s[1..])
  }

  lemma {:induction false} PhaseOver(p: Phase, a: string, b: string)
    ensures PhaseAfter(p, a + b) == PhaseAfter(PhaseAfter(p, a), b)
    decreases |a|
  {
    if a == "" {
      assert a + b == b;
    } else {
      assert (a + b)[1..] == a[1..] + b;
      PhaseOver(StepPhase(p, a[0]), a[1..], b);
    }
  }

  lemma {:induction false} EndSeenLater(s: string, k: nat)
    requires k <= |s| && CommentEnd(s[k..]).Some?
    ensures CommentEnd(s).Some?
    decreases k
  {
    if k > 0 {
      assert s[1..][k - 1..] == s[k..];
      EndSeenLater(s[1..], k - 1);
    } else {
      assert s[0..] == s;
    }
  }

  lemma {:induction false} InsidePhase(p: Phase, s: string)
    requires p in {Inside, Star, Closed}
    ensures PhaseAfter(p, s) in {Inside, Star, Closed}
    ensures PhaseAfter(p, s) == Closed <==>
      p == Closed || (p == Star && s != "" && s[0] == '/') || CommentEnd(s).Some?
    decreases |s|
  {
    if s != "" {
      InsidePhase(StepPhase(p, s[0]), s[1..]);
      if |s| >= 2 { assert s[..2] == [s[0], s[1]]; }
    }
  }

  lemma NeverOpensTail(s: string)
    requires s != ""
    ensures NeverOpens(s) <==> !OpensAt(s, 0) && NeverOpens(s[1..])
  {
    forall k | 0 <= k < |s| ensures OpensAt(s, k + 1) == OpensAt(s[1..], k) { }
    if !OpensAt(s, 0) && NeverOpens(s[1..]) {
      forall k | 0 < k <= |s| ensures !OpensAt(s, k) { assert !OpensAt(s[1..], k - 1); }
    }
    if NeverOpens(s) {
      forall k | 0 <= k <= |s[1..]| ensures !OpensAt(s[1..], k) { assert !OpensAt(s, k + 1); }
    }
  }

  // The machine ends Closed exactly when some comment ends, and inside one when some comment opens.
  lemma {:induction false} OutsidePhase(s: string)
    ensures PhaseAfter(Outside, s) == Closed <==> !CommentFree(s)
    ensures PhaseAfter(Outside, s) in {Outside, Slash} <==> NeverOpens(s)
    ensures PhaseAfter(Slash, s) == Closed <==>
      !CommentFree(s) || (s != "" && s[0] == '*' && CommentEnd(s[1..]).Some?)
    ensures PhaseAfter(Slash, s) in {Outside, Slash} <==> NeverOpens(s) && !(s != "" && s[0] == '*')
    decreases |s|
  {
    if s != "" {
      CommentFreeTail(s);
      NeverOpensTail(s);
      OutsidePhase(s[1..]);
      if |s| >= 2 { assert s[..2] == [s[0], s[1]] && s[1..][1..] == s[2..]; }
      if s[0] == '*' {
        InsidePhase(Inside, s[1..]);
        if !CommentFree(s) {
          var k :| 0 <= k <= |s| && CommentAt(s, k);
          assert k > 0 && s[1..][k + 1..] == s[k + 2..];
          EndSeenLater(s[1..], k + 1);
        }
      }
    }
  }

  // ---------------------------------------------------------------- only bodies have comments

  predicate Plain(s: string) {
    forall k :: 0 <= k < |s| ==> s[k] != '/' && s[k] != '*'
  }

  // A text that neither opens nor ends a comment, and is not empty, takes the machine out of the middle.
  function Reset(p: Phase): Phase {
    match p
    case Slash => Outside
    case Star => Inside
    case _ => p
  }

  lemma {:induction false} PlainResets(p: Phase, s: string)
    requires Plain(s) && s != ""
    ensures PhaseAfter(p, s) == Reset(p)
    decreases |s|
  {
    if |s| > 1 {
      PlainResets(StepPhase(p, s[0]), s[1..]);
    } else {
      assert s[1..] == "";
    }
  }

  lemma {:induction false} PlainTrimStart(s: string)
    requires Plain(TrimStart(s))
    ensures Plain(s)
  {
    if s != "" && IsSpace(s[0]) {
      PlainTrimStart(s[1..]);
      assert forall k :: 0 < k < |s| ==> s[k] == s[1..][k - 1];
    }
  }

  lemma {:induction false} PlainTrimEnd(s: string)
    requires Plain(TrimEnd(s))
    ensures Plain(s)
  {
    if s != "" && IsSpace(s[|s| - 1]) {
      PlainTrimEnd(s[..|s| - 1]);
      assert forall k :: 0 <= k < |s| - 1 ==> s[k] == s[..|s| - 1][k];
    }
  }

  ghost predicate AllPlain(pieces: seq<string>) {
    forall k :: 0 <= k < |pieces| ==> Plain(pieces[k])
  }

  lemma {:induction false} PlainTrimAll(pieces: seq<string>)
    requires AllPlain(TrimAll(pieces))
    ensures AllPlain(pieces)
  {
    if pieces != [] {
      var rest := TrimAll(pieces[1..]);
      assert TrimAll(pieces) == [Trim(pieces[0])] + rest;
      assert TrimAll(pieces)[0] == Trim(pieces[0]);
      assert forall k :: 0 <= k < |rest| ==> rest[k] == TrimAll(pieces)[k + 1];
      PlainTrimEnd(TrimStart(pieces[0]));
      PlainTrimStart(pieces[0]);
      PlainTrimAll(pieces[1..]);
      assert forall k :: 0 < k < |pieces| ==> pieces[k] == pieces[1..][k - 1];
    }
  }

  lemma {:induction false} PlainSplit(s: string)
    requires AllPlain(Split(s))
    ensures Plain(s)
  {
    if s != "" {
      var rest := Split(s[1..]);
      if s[0] == ',' {
        assert forall k :: 0 <= k < |rest| ==> rest[k] == Split(s)[k + 1];
      } else {
        assert Split(s)[0] == [s[0]] + rest[0];
        assert Split(s)[0][0] == s[0];
        assert forall k :: 0 <= k < |rest[0]| ==> rest[0][k] == Split(s)[0][k + 1];
        assert forall k :: 0 < k < |rest| ==> rest[k] == Split(s)[k];
      }
      PlainSplit(s[1..]);
      assert forall k :: 0 < k < |s| ==> s[k] == s[1..][k - 1];
    }
  }

  lemma PlainPrelude(prelude: string)
    requires AllPlain(SelectorsOf(prelude))
    ensures Plain(prelude)
  {
    PlainTrimAll(Split(prelude));
    PlainSplit(prelude);
  }

  ghost predicate PlainRules(rules: seq<Rule>) {
    forall k :: 0 <= k < |rules| ==> Plain(rules[k].prelude)
  }

  // The machine over the bodies alone.
  function BodiesPhase(p: Phase, rules: seq<Rule>): Phase
    decreases |rules|
  {
    if rules == [] then p
    else BodiesPhase(Reset(PhaseAfter(Reset(p), rules[0].body)), rules[1..])
  }

  lemma RulePhase(p: Phase, rule: Rule, tail: string)
    requires Plain(rule.prelude)
    ensures PhaseAfter(p, rule.prelude + "{" + rule.body + "}" + tail) ==
      PhaseAfter(Reset(PhaseAfter(Reset(p), rule.body)), tail)
  {
    var head, mid := rule.prelude + "{", rule.prelude + "{" + rule.body;
    PhaseOver(p, mid + "}", tail);
    PhaseOver(p, mid, "}");
    PhaseOver(p, head, rule.body);
    PlainResets(p, head);
    PlainResets(PhaseAfter(p, mid), "}");
  }

  lemma BlankIsPlain(s: string)
    requires Blank(s)
    ensures Plain(s)
  {
  }

  lemma FirstText(s: string)
    requires FirstRule(s).Some?
    ensures var (rule, n) := FirstRule(s).value;
      0 < n <= |s| && s == rule.prelude + "{" + rule.body + "}" + s[n..]
  {
    FirstRuleIs(s);
    var n := FirstRule(s).value.1;
    assert s == s[..n] + s[n..];
  }

  lemma ParsedFirst(s: string)
    requires Parse(s).Some? && FirstRule(s).Some?
    ensures var (rule, n) := FirstRule(s).value;
      Parse(s[n..]).Some? && Parse(s).value == [rule] + Parse(s[n..]).value
  {
  }

  lemma BodiesPhaseFirst(p: Phase, rule: Rule, rest: seq<Rule>)
    ensures BodiesPhase(p, [rule] + rest) == BodiesPhase(Reset(PhaseAfter(Reset(p), rule.body)), rest)
    ensures PlainRules([rule] + rest) ==> Plain(rule.prelude) && PlainRules(rest)
  {
    var rules := [rule] + rest;
    assert rules[1..] == rest && rules[0] == rule;
    if PlainRules(rules) {
      forall k | 0 <= k < |rest| ensures Plain(rest[k].prelude) { assert rest[k] == rules[k + 1]; }
    }
  }

  // What parses has the phase of its bodies, up to the blanks at its end.
  lemma {:induction false} ParsedPhase(p: Phase, s: string)
    requires Parse(s).Some? && PlainRules(Parse(s).value)
    ensures PhaseAfter(p, s) in {BodiesPhase(p, Parse(s).value), Reset(BodiesPhase(p, Parse(s).value))}
    decreases |s|
  {
    match FirstRule(s)
    case None =>
      BlankIsPlain(s);
      if s != "" { PlainResets(p, s); }
    case Some((rule, n)) =>
      FirstText(s);
      ParsedFirst(s);
      BodiesPhaseFirst(p, rule, Parse(s[n..]).value);
      RulePhase(p, rule, s[n..]);
      ParsedPhase(Reset(PhaseAfter(Reset(p), rule.body)), s[n..]);
  }

  lemma SameRulesTail(rules: seq<Rule>, out: seq<Rule>)
    requires SameRules(rules, out) && rules != []
    ensures SameRules(rules[1..], out[1..])
  {
    forall k | 0 <= k < |out| - 1 ensures SameRule(rules[1..][k], out[1..][k]) {
      assert SameRule(rules[k + 1], out[k + 1]);
    }
  }

  lemma {:induction false} SameBodiesPhase(p: Phase, rules: seq<Rule>, out: seq<Rule>)
    requires SameRules(rules, out)
    ensures BodiesPhase(p, rules) == BodiesPhase(p, out)
    decreases |rules|
  {
    if rules != [] {
      assert SameRule(rules[0], out[0]);
      SameRulesTail(rules, out);
      SameBodiesPhase(Reset(PhaseAfter(Reset(p), rules[0].body)), rules[1..], out[1..]);
    }
  }

  // ---------------------------------------------------------------- accepted sheets

  lemma ApprovedIsPlain(selector: string)
    requires IsApproved(selector)
    ensures Plain(selector)
  {
    if selector in [":root", "body", ".dark body", ".card"] {
    } else if selector in [".stat-card", ".dark .card", ".dark .stat-card", ".btn-primary"] {
      PlainCards(selector);
    } else if selector in [".btn-primary:hover", ".btn-outline", ".btn-outline:hover", ".page-shell"] {
      PlainButtons(selector);
    } else {
      assert selector in [".page-content", ".page-header", ".page-body", ".sidebar"];
      PlainPages(selector);
    }
  }

  lemma PlainCards(selector: string)
    requires selector in [".stat-card", ".dark .card", ".dark .stat-card", ".btn-primary"]
    ensures Plain(selector)
  {
  }

  lemma PlainButtons(selector: string)
    requires selector in [".btn-primary:hover", ".btn-outline", ".btn-outline:hover", ".page-shell"]
    ensures Plain(selector)
  {
  }

  lemma PlainPages(selector: string)
    requires selector in [".page-content", ".page-header", ".page-body", ".sidebar"]
    ensures Plain(selector)
  {
  }

  lemma ScopeIsPlain(selector: string)
    requires Plain(selector)
    ensures Plain(Scope(selector))
  {
    if |selector| >= 6 && selector[..6] == ".dark " {
      assert Plain(selector[6..]);
      assert Plain(THEME + ".dark " + selector[6..]);
    } else {
      assert Plain(THEME + " " + selector);
    }
  }

  lemma AcceptedPlain(rules: seq<Rule>, out: seq<Rule>)
    requires SameRules(rules, out) && forall k :: 0 <= k < |rules| ==> AllApproved(Selectors(rules[k]))
    ensures PlainRules(rules) && PlainRules(out)
  {
    forall k | 0 <= k < |rules| ensures Plain(rules[k].prelude) && Plain(out[k].prelude) {
      assert SameRule(rules[k], out[k]);
      var cs := Selectors(rules[k]);
      ScopeAllAt(cs);
      forall j | 0 <= j < |cs| ensures Plain(cs[j]) && Plain(ScopeAll(cs)[j]) {
        ApprovedIsPlain(cs[j]);
        ScopeIsPlain(cs[j]);
      }
      PlainPrelude(rules[k].prelude);
      PlainPrelude(out[k].prelude);
    }
  }

  lemma {:induction false} EachApproved(rules: seq<Rule>)
    requires AllAcceptable(rules)
    ensures forall k :: 0 <= k < |rules| ==> AllApproved(Selectors(rules[k]))
  {
    if rules != [] {
      EachApproved(rules[1..]);
      assert forall k :: 0 < k < |rules| ==> rules[k] == rules[1..][k - 1];
    }
  }

  lemma AcceptedOutput(css: string)
    requires ScopedCss(css).Ok?
    ensures var (text, out) := (WithoutComments(css), ScopedCss(css).value);
      && Parse(text).Some? && Parse(out).Some? && SameRules(Parse(text).value, Parse(out).value)
      && PlainRules(Parse(text).value) && PlainRules(Parse(out).value)
  {
    ScopingPreservesRules(css);
    var text := WithoutComments(css);
    AcceptedRules(text);
    EachApproved(Parse(text).value);
    AcceptedPlain(Parse(text).value, Parse(ScopedCss(css).value).value);
  }

  // An accepted sheet comes out with comments exactly when removing them once has left some.
  lemma OutputCommentsIff(css: string)
    requires ScopedCss(css).Ok?
    ensures var (text, out) := (WithoutComments(css), ScopedCss(css).value);
      && (WithoutComments(out) == out <==> WithoutComments(text) == text)
      && (NeverOpens(out) <==> NeverOpens(text))
  {
    var (text, out) := (WithoutComments(css), ScopedCss(css).value);
    AcceptedOutput(css);
    ParsedPhase(Outside, text);
    ParsedPhase(Outside, out);
    SameBodiesPhase(Outside, Parse(text).value, Parse(out).value);
    OutsidePhase(text);
    OutsidePhase(out);
    RemovalFixedIff(text);
    RemovalFixedIff(out);
  }

  // ---------------------------------------------------------------- a reader who drops comments

  // Each comment is dropped up to its end or, when it has none, up to the end of the text.
  function ReadCss(s: string): string
    decreases |s|
  {
    if s == "" then ""
    else if OpensAt(s, 0) then
      CommentEndWithin(s[2..]);
      match CommentEnd(s[2..])
      case None => ""
      case Some(n) => ReadCss(s[2..][n..])
    else [s[0]] + ReadCss(s[1..])
  }

  function Slashes(s: string): nat {
    if s == "" then 0 else (if s[0] == '/' then 1 else 0) + Slashes(s[1..])
  }

  lemma {:induction false} SlashesOver(a: string, b: string)
    ensures Slashes(a + b) == Slashes(a) + Slashes(b)
  {
    if a == "" {
      assert a + b == b;
    } else {
      assert (a + b)[1..] == a[1..] + b;
      SlashesOver(a[1..], b);
    }
  }

  lemma SlashesTail(s: string, k: nat)
    requires k <= |s|
    ensures Slashes(s[k..]) <= Slashes(s)
  {
    SlashesOver(s[..k], s[k..]);
    assert s == s[..k] + s[k..];
  }

  lemma {:induction false} PlainHasNone(s: string)
    requires Plain(s)
    ensures Slashes(s) == 0
  {
    if s != "" { PlainHasNone(s[1..]); }
  }

  // What the reader drops takes a slash with it.
  lemma {:induction false} ReadingDrops(s: string)
    ensures Slashes(ReadCss(s)) <= Slashes(s)
    ensures if NeverOpens(s) then ReadCss(s) == s else Slashes(ReadCss(s)) < Slashes(s)
    decreases |s|
  {
    if s != "" {
      NeverOpensTail(s);
      if OpensAt(s, 0) {
        SlashesTail(s[1..], 1);
        assert s[1..][1..] == s[2..];
        CommentEndWithin(s[2..]);
        if CommentEnd(s[2..]).Some? {
          var n := CommentEnd(s[2..]).value;
          SlashesTail(s[2..], n);
          ReadingDrops(s[2..][n..]);
        }
      } else {
        ReadingDrops(s[1..]);
        assert ([s[0]] + ReadCss(s[1..]))[1..] == ReadCss(s[1..]);
      }
    }
  }

  function BodySlashes(rules: seq<Rule>): nat {
    if rules == [] then 0 else Slashes(rules[0].body) + BodySlashes(rules[1..])
  }

  lemma RuleSlashes(rule: Rule, tail: string)
    ensures Slashes(rule.prelude + "{" + rule.body + "}" + tail) ==
      Slashes(rule.prelude) + Slashes(rule.body) + Slashes(tail)
  {
    SlashesOver(rule.prelude + "{" + rule.body + "}", tail);
    SlashesOver(rule.prelude + "{" + rule.body, "}");
    SlashesOver(rule.prelude + "{", rule.body);
    SlashesOver(rule.prelude, "{");
    PlainHasNone("{");
    PlainHasNone("}");
  }

  // The slashes of what parses are in the bodies, but for those of its preludes.
  lemma {:induction false} ParsedSlashes(s: string)
    requires Parse(s).Some?
    ensures BodySlashes(Parse(s).value) <= Slashes(s)
    ensures PlainRules(Parse(s).value) ==> BodySlashes(Parse(s).value) == Slashes(s)
    decreases |s|
  {
    match FirstRule(s)
    case None =>
      BlankIsPlain(s);
      PlainHasNone(s);
    case Some((rule, n)) =>
      FirstText(s);
      ParsedFirst(s);
      var rest := Parse(s[n..]).value;
      assert ([rule] + rest)[1..] == rest;
      BodiesPhaseFirst(Outside, rule, rest);
      RuleSlashes(rule, s[n..]);
      ParsedSlashes(s[n..]);
      if PlainRules([rule] + rest) { PlainHasNone(rule.prelude); }
  }

  lemma {:induction false} SameBodySlashes(rules: seq<Rule>, out: seq<Rule>)
    requires SameRules(rules, out)
    ensures BodySlashes(rules) == BodySlashes(out)
    decreases |rules|
  {
    if rules != [] {
      assert SameRule(rules[0], out[0]);
      SameRulesTail(rules, out);
      SameBodySlashes(rules[1..], out[1..]);
    }
  }

  // A reader who drops comments sees the rules that were judged, scoped, exactly when removing comments
  // once has left nothing that opens another.
  lemma ReaderSeesRulesIff(css: string)
    requires ScopedCss(css).Ok?
    ensures Parse(WithoutComments(css)).Some?
    ensures Sees(Parse(WithoutComments(css)).value, ReadCss(ScopedCss(css).value)) <==> NeverOpens(WithoutComments(css))
  {
    AcceptedOutput(css);
    OutputCommentsIff(css);
    SeesIff(Parse(WithoutComments(css)).value, ScopedCss(css).value);
  }

  // The text has the rules, scoped.
  ghost predicate Sees(rules: seq<Rule>, s: string) {
    Parse(s).Some? && SameRules(rules, Parse(s).value)
  }

  lemma SeesIff(rules: seq<Rule>, out: string)
    requires Sees(rules, out) && PlainRules(Parse(out).value)
    ensures Sees(rules, ReadCss(out)) <==> NeverOpens(out)
  {
    ReadingDrops(out);
    ParsedSlashes(out);
    SameBodySlashes(rules, Parse(out).value);
    if Sees(rules, ReadCss(out)) {
      ParsedSlashes(ReadCss(out));
      SameBodySlashes(rules, Parse(ReadCss(out)).value);
    }
  }

  // ---------------------------------------------------------------- a sheet that keeps a comment

  lemma KeepsFirst(s: string)
    requires s != "" && s[0] != '/'
    ensures WithoutComments(s) == [s[0]] + WithoutComments(s[1..])
    ensures ReadCss(s) == [s[0]] + ReadCss(s[1..])
  {
    assert |s| >= 2 ==> s[..2][0] == s[0];
  }

  lemma FirstMoves(a: string, b: string, c: string)
    requires a != ""
    ensures (a + b)[1..] == a[1..] + b && (a + b)[0] == a[0] && [a[0]] + (a[1..] + c) == a + c
  {
  }

  lemma {:induction false} RemovalKeepsPlain(a: string, b: string)
    requires Plain(a)
    ensures WithoutComments(a + b) == a + WithoutComments(b)
    decreases |a|
  {
    if a == "" {
      assert a + b == b;
    } else {
      FirstMoves(a, b, WithoutComments(b));
      KeepsFirst(a + b);
      RemovalKeepsPlain(a[1..], b);
    }
  }

  lemma {:induction false} ReadingKeepsPlain(a: string, b: string)
    requires Plain(a)
    ensures ReadCss(a + b) == a + ReadCss(b)
    decreases |a|
  {
    if a == "" {
      assert a + b == b;
    } else {
      FirstMoves(a, b, ReadCss(b));
      KeepsFirst(a + b);
      ReadingKeepsPlain(a[1..], b);
    }
  }

  // Removing the comment in the middle makes another, which is there when comments are removed again.
  lemma CommentMade(a: string, b: string)
    requires Plain(a) && Plain(b)
    ensures WithoutComments(a + "//**/**/" + b) == a + "/**/" + b
  {
    var tail := "**/" + b;
    var s := "//**/" + tail;
    StarSlashStays(b);
    MiddleGone(s, tail);
    RemovalKeepsPlain(a, s);
    MadeText(a, b);
  }

  lemma MadeText(a: string, b: string)
    ensures a + "//**/**/" + b == a + ("//**/" + ("**/" + b))
    ensures a + ("/" + ("**/" + b)) == a + "/**/" + b
  {
  }

  lemma MiddleGone(s: string, tail: string)
    requires s == "//**/" + tail
    ensures WithoutComments(s) == "/" + WithoutComments(tail)
  {
    var rest := "/**/" + tail;
    assert s[..2] == "//" && s[1..] == rest && s[0] == '/';
    FirstGone(rest, tail);
  }

  lemma FirstGone(s: string, tail: string)
    requires s == "/**/" + tail
    ensures WithoutComments(s) == WithoutComments(tail)
  {
    var rest := s[2..];
    assert s[..2] == "/*" && rest[..2] == "*/" && rest[2..] == tail;
    assert CommentEnd(rest) == Some(2);
  }

  lemma {:induction false} PlainStays(b: string)
    requires Plain(b)
    ensures WithoutComments(b) == b && ReadCss(b) == b
  {
    RemovalKeepsPlain(b, "");
    ReadingKeepsPlain(b, "");
    assert b + "" == b;
  }

  lemma StarSlashStays(b: string)
    requires Plain(b)
    ensures WithoutComments("**/" + b) == "**/" + b
  {
    PlainStays(b);
    StarSlash("/" + b, b);
    var s := "**/" + b;
    assert s[..2] == "**" && s[1..] == "*/" + b && s[1..][..2] == "*/" && s[1..][1..] == "/" + b;
    assert s == ['*'] + (['*'] + ("/" + b));
  }

  lemma StarSlash(s: string, b: string)
    requires Plain(b) && s == "/" + b
    ensures WithoutComments(s) == s
  {
    PlainStays(b);
    assert s[1..] == b;
    assert |s| >= 2 ==> s[..2][1] == b[0];
  }

  lemma ReadOnce(a: string, b: string)
    requires Plain(a) && Plain(b)
    ensures ReadCss(a + "/**/" + b) == a + b
  {
    var s := "/**/" + b;
    assert a + "/**/" + b == a + s;
    ReadingKeepsPlain(a, s);
    assert s[2..] == "*/" + b && s[2..][..2] == "*/" && s[2..][2..] == b;
    PlainStays(b);
  }

  ghost predicate NoAt(s: string) {
    forall k :: 0 <= k < |s| ==> s[k] != '@'
  }

  lemma CleanSelector(c: string)
    requires Clean(c)
    ensures SelectorsOf(c) == [c]
  {
    SplitOver(c, "");
    TrimPadded("", c, "");
    assert "" + c + "" == c;
    TrimFirst(c, []);
    assert [c] + [] == [c];
  }

  lemma SingleRule(prelude: string, body: string)
    requires prelude != "" && Flat(prelude) && Flat(body)
    ensures Parse(prelude + "{" + body + "}") == Some([Rule(prelude, body)])
  {
    ParseStep(prelude, body, "");
    NothingParses();
    assert prelude + "{" + body + "}" + "" == prelude + "{" + body + "}";
    assert [Rule(prelude, body)] + [] == [Rule(prelude, body)];
  }

  lemma SingleJudged(p: string, body: string)
    requires IsApproved(p) && !Restricted(body)
    ensures Judge(Rule(p, body)) == None && Selectors(Rule(p, body)) == [p]
  {
    ApprovedIsClean(p);
    CleanSelector(p);
  }

  lemma SingleBlock(p: string, body: string)
    requires Selectors(Rule(p, body)) == [p]
    ensures Blocks([Rule(p, body)]) == [Scope(p) + " {" + body + "}"]
  {
    assert ScopeAll([p]) == [Scope(p)];
    assert [Rule(p, body)][1..] == [];
  }

  lemma SingleUnobjected(rule: Rule)
    requires Judge(rule).None?
    ensures NoObjections([rule])
  {
    assert [rule][1..] == [];
  }

  lemma SingleAccepted(p: string, body: string)
    requires IsApproved(p) && Flat(body) && !Restricted(body)
    ensures Scan(p + "{" + body + "}") == Ok([Scope(p) + " {" + body + "}"])
  {
    ApprovedIsClean(p);
    SingleJudged(p, body);
    SingleUnobjected(Rule(p, body));
    SingleBlock(p, body);
    SingleRule(p, body);
    AcceptedAs(p + "{" + body + "}", [Rule(p, body)]);
  }

  lemma AcceptedAs(s: string, rules: seq<Rule>)
    requires Parse(s) == Some(rules) && NoObjections(rules)
    ensures Scan(s) == Ok(Blocks(rules))
  {
    AcceptedIff(s);
  }

  lemma Regroup(head: string, a: string, middle: string, b: string, tail: string)
    ensures head + (a + middle + b) + tail == (head + a) + middle + (b + tail)
    ensures head + (a + b) + tail == (head + a) + (b + tail)
  {
  }

  lemma PlainAround(p: string, a: string, b: string)
    requires Plain(p) && Plain(a) && Plain(b)
    ensures Plain(p + "{" + a) && Plain(p + " {" + a) && Plain(b + "}")
  {
  }

  lemma CommentJudged(p: string, a: string, b: string)
    requires IsApproved(p) && NoAt(p) && Plain(a) && Plain(b) && Flat(a + b) && NoAt(a + b)
    requires !Restricted(a + "/**/" + b)
    ensures ScopedCss(p + "{" + (a + "//**/**/" + b) + "}") == Ok(Scope(p) + " {" + (a + "/**/" + b) + "}")
  {
    ApprovedIsPlain(p);
    PlainAround(p, a, b);
    Regroup(p + "{", a, "//**/**/", b, "}");
    Regroup(p + "{", a, "/**/", b, "}");
    CommentMade(p + "{" + a, b + "}");
    FlatParts(a, b);
    NoAtParts(p, a, b);
    SingleAccepted(p, a + "/**/" + b);
    JoinOne(Scope(p) + " {" + (a + "/**/" + b) + "}");
    NoAtRule(p + "{" + (a + "/**/" + b) + "}");
  }

  lemma NoAtRule(s: string)
    requires NoAt(s)
    ensures !HasAtRule(s)
  {
  }

  lemma JoinOne(s: string)
    ensures Join([s], "\n\n") == s
  {
  }

  lemma CommentRead(p: string, a: string, b: string)
    requires IsApproved(p) && Plain(a) && Plain(b) && Flat(a + b)
    ensures Parse(ReadCss(Scope(p) + " {" + (a + "/**/" + b) + "}")) == Some([Rule(Scope(p) + " ", a + b)])
  {
    ApprovedIsPlain(p);
    ApprovedIsClean(p);
    ScopeIsPlain(p);
    ScopeConfines(p);
    PlainAround(Scope(p), a, b);
    Regroup(Scope(p) + " {", a, "/**/", b, "}");
    ReadOnce(Scope(p) + " {" + a, b + "}");
    Spaced(Scope(p), a + b);
    SingleRule(Scope(p) + " ", a + b);
  }

  lemma Spaced(p: string, body: string)
    ensures p + " {" + body + "}" == (p + " ") + "{" + body + "}"
  {
  }

  // A body that such a comment parts in two is judged with the comment and read without it.
  lemma CommentParts(p: string, a: string, b: string)
    requires IsApproved(p) && NoAt(p) && Plain(a) && Plain(b) && Flat(a + b) && NoAt(a + b)
    requires !Restricted(a + "/**/" + b)
    ensures var r := ScopedCss(p + "{" + (a + "//**/**/" + b) + "}");
      r.Ok? && Parse(ReadCss(r.value)) == Some([Rule(Scope(p) + " ", a + b)])
  {
    CommentJudged(p, a, b);
    CommentRead(p, a, b);
  }

  lemma FlatParts(a: string, b: string)
    requires Flat(a + b)
    ensures Flat(a + "/**/" + b)
  {
    assert forall k :: 0 <= k < |a| ==> a[k] == (a + b)[k];
    assert forall k :: 0 <= k < |b| ==> b[k] == (a + b)[|a| + k];
  }

  lemma NoAtParts(p: string, a: string, b: string)
    requires NoAt(p) && NoAt(a + b)
    ensures NoAt(p + "{" + (a + "/**/" + b) + "}")
  {
    assert forall k :: 0 <= k < |a| ==> a[k] == (a + b)[k];
    assert forall k :: 0 <= k < |b| ==> b[k] == (a + b)[|a| + k];
  }

  // A fixed position, in two parts.
  lemma FixedPosition() returns (a: string, b: string)
    ensures |a| == 9 && a[..8] == "position" && a[8] == ':' && b == "fixed"
  {
    a, b := "position:", "fixed";
  }

  lemma RootSelector() returns (p: string)
    ensures IsApproved(p) && NoAt(p)
  {
    p := APPROVED[0];
  }

  predicate StartsOther(c: char) {
    Lower(c) !in {'b', 'p', '-'}
  }

  lemma NotRestrictedAt(s: string, k: nat)
    requires k <= |s| && (k < |s| ==> StartsOther(s[k]))
    ensures !RestrictedAt(s, k)
  {
    var t := s[k..];
    assert t != "" ==> t[0] == s[k];
    assert AfterWord(t, "behavior").None? && AfterWord(t, "-moz-binding").None? && AfterWord(t, "position").None?;
  }

  lemma PartedAtStart(s: string)
    requires |s| >= 10 && s[0] == 'p' && s[8] == ':' && s[9] == '/'
    ensures !RestrictedAt(s, 0)
  {
    assert s[0..] == s;
    assert AfterWord(s, "behavior").None? && AfterWord(s, "-moz-binding").None?;
    assert s[8..][0] == ':' && TrimStart(s[8..]) == s[8..];
    assert s[8..][1..] == s[9..] && s[9..][0] == '/' && TrimStart(s[9..]) == s[9..];
    assert AfterWord(s[8..], ":") == Some(s[9..]) && AfterWord(s[9..], "fixed").None?;
  }

  lemma PartedUnrestricted(s: string)
    requires |s| >= 10 && s[0] == 'p' && s[8] == ':' && s[9] == '/'
    requires forall k :: 0 < k < |s| ==> StartsOther(s[k])
    ensures !Restricted(s)
  {
    forall k | 0 <= k <= |s| ensures !RestrictedAt(s, k) {
      if k > 0 { NotRestrictedAt(s, k); } else { PartedAtStart(s); }
    }
  }

  lemma JoinedRestricted(s: string)
    requires |s| >= 14 && s[..8] == "position" && s[8] == ':' && s[9..14] == "fixed"
    ensures Restricted(s)
  {
    assert s[0..] == s && forall k :: 0 <= k < 8 ==> s[k] == s[..8][k];
    assert AfterWord(s, "position") == Some(TrimStart(s[8..]));
    assert s[8..][0] == ':' && TrimStart(s[8..]) == s[8..];
    assert s[8..][1..] == s[9..] && s[9..][0] == s[9..14][0] == 'f' && TrimStart(s[9..]) == s[9..];
    assert AfterWord(s[8..], ":") == Some(s[9..]);
    assert forall k :: 0 <= k < 5 ==> s[9..][k] == s[9..14][k];
    assert AfterWord(s[9..], "fixed").Some?;
    assert RestrictedAt(s, 0);
  }

  // Accepted, although the judge refuses a declaration that a reader who drops comments sees.
  ghost predicate Hides(css: string) {
    && ScopedCss(css).Ok? && Parse(ReadCss(ScopedCss(css).value)).Some?
    && !NoObjections(Parse(ReadCss(ScopedCss(css).value)).value)
  }

  // Parts of a body that the judge refuses, but not with a comment between them.
  ghost predicate Parted(a: string, b: string) {
    Plain(a) && Plain(b) && Flat(a + b) && NoAt(a + b) && !Restricted(a + "/**/" + b) && Restricted(a + b)
  }

  lemma PartsHide(p: string, a: string, b: string) returns (css: string)
    requires IsApproved(p) && NoAt(p) && Parted(a, b)
    ensures Hides(css)
  {
    css := p + "{" + (a + "//**/**/" + b) + "}";
    CommentParts(p, a, b);
    Objected(Rule(Scope(p) + " ", a + b));
  }

  lemma Objected(rule: Rule)
    requires Restricted(rule.body)
    ensures !NoObjections([rule])
  {
  }

  lemma FixedParts() returns (a: string, b: string)
    ensures Parted(a, b)
  {
    a, b := FixedPosition();
    PartsAreSimple(a, b);
    PartedUnrestricted(a + "/**/" + b);
    JoinedRestricted(a + b);
  }

  lemma CommentMayHideRestriction()
    ensures exists css :: Hides(css)
  {
    var a, b := FixedParts();
    var p := RootSelector();
    var css := PartsHide(p, a, b);
  }

  lemma PartsAreSimple(a: string, b: string)
    requires |a| == 9 && a[..8] == "position" && a[8] == ':' && b == "fixed"
    ensures Plain(a) && Plain(b) && Flat(a + b) && NoAt(a + b)
    ensures forall k :: 0 < k < |a + "/**/" + b| ==> StartsOther((a + "/**/" + b)[k])
    ensures a[0] == 'p' && (a + b)[..8] == "position" && (a + b)[9..14] == "fixed"
  {
    assert forall k :: 0 <= k < 8 ==> a[k] == a[..8][k];
  }
}
