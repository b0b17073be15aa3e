// What the parts of the style sheet check mean: which text has an at-rule or a restricted declaration,
// what the selectors of a rule are, which are approved, and what scoping makes of each.
module ThemeCssLaws {
  import opened Results
  import opened ThemeCss

  // ---------------------------------------------------------------- letters

  // Capital letters are taken as small ones, and nothing else is changed.
  lemma LowerLaw(c: char)
    ensures if 'A' <= c <= 'Z' then Lower(c) as int == c as int + 32 else Lower(c) == c
  {
  }

  // The letters and the hyphen.
  predicate Letter(c: char) {
    'a' <= c <= 'z' || 'A' <= c <= 'Z' || c == '-'
  }

  // ---------------------------------------------------------------- at-rules

  // An at-sign that a letter or a hyphen follows.
  lemma AtRuleLaw(s: string)
    ensures HasAtRule(s) <==>
      exists k :: 0 <= k < |s| - 1 && s[k] == '@' && Letter(s[k + 1])
  {
    forall c: char ensures (Lower(c) == '-' || 'a' <= Lower(c) <= 'z') <==> Letter(c) { }
  }

  // ---------------------------------------------------------------- selectors

  lemma {:induction false} SplitLaw(s: string)
    ensures Join(Split(s), ",") == s
    ensures forall k :: 0 <= k < |Split(s)| ==> NoComma(Split(s)[k])
  {
    if s != "" {
      var rest := Split(s[1..]);
      SplitLaw(s[1..]);
      if s[0] == ',' {
        assert ([""] + rest)[1..] == rest;
        assert s == "," + s[1..];
      } else {
        var pieces := [[s[0]] + rest[0]] + rest[1..];
        assert Split(s) == pieces && pieces[1..] == rest[1..];
        assert s == [s[0]] + s[1..];
        if |rest| > 1 {
          assert Join(pieces, ",") == [s[0]] + rest[0] + "," + Join(rest[1..], ",");
          assert [s[0]] + (rest[0] + "," + Join(rest[1..], ",")) == [s[0]] + rest[0] + "," + Join(rest[1..], ",");
        }
      }
    }
  }

  lemma {:induction false} TrimStartLaw(s: string) returns (before: string)
    ensures Blank(before) && s == before + TrimStart(s)
    ensures TrimStart(s) == "" || !IsSpace(TrimStart(s)[0])
  {
    before := "";
    if s != "" && IsSpace(s[0]) {
      var rest := TrimStartLaw(s[1..]);
      before := [s[0]] + rest;
      assert s == [s[0]] + s[1..];
    } else {
      assert s == "" + s;
    }
  }

  lemma {:induction false} TrimEndLaw(s: string) returns (after: string)
    ensures Blank(after) && s == TrimEnd(s) + after
    ensures TrimEnd(s) == "" || !IsSpace(TrimEnd(s)[|TrimEnd(s)| - 1])
  {
    after := "";
    if s != "" && IsSpace(s[|s| - 1]) {
      var n := |s| - 1;
      var rest := TrimEndLaw(s[..n]);
      after := rest + [s[n]];
      assert s == s[..n] + [s[n]];
    } else {
      assert s == s + "";
    }
  }

  // Trimming takes the blanks off both ends, all of them and nothing else.
  lemma TrimLaw(s: string)
    ensures exists before, after :: Blank(before) && Blank(after) && s == before + Trim(s) + after
    ensures Trim(s) == "" || (!IsSpace(Trim(s)[0]) && !IsSpace(Trim(s)[|Trim(s)| - 1]))
  {
    var before := TrimStartLaw(s);
    var after := TrimEndLaw(TrimStart(s));
    assert s == before + Trim(s) + after;
  }

  // The selectors of a rule are what stands between the commas before its brace, trimmed.
  lemma {:induction false} SelectorsLaw(pieces: seq<string>)
    ensures |TrimAll(pieces)| == |pieces| && forall k :: 0 <= k < |pieces| ==> TrimAll(pieces)[k] == Trim(pieces[k])
  {
    if pieces != [] {
      SelectorsLaw(pieces[1..]);
      assert forall k :: 0 < k < |pieces| ==> TrimAll(pieces)[k] == TrimAll(pieces[1..])[k - 1];
    }
  }

  // The selectors that are approved.
  lemma ApprovedLaw(s: string)
    ensures IsApproved(s) <==>
      || s in [":root", "body", ".dark body", ".card"]
      || s in [".stat-card", ".dark .card", ".dark .stat-card", ".btn-primary"]
      || s in [".btn-primary:hover", ".btn-outline", ".btn-outline:hover", ".page-shell"]
      || s in [".page-content", ".page-header", ".page-body", ".sidebar"]
  {
    assert APPROVED == [":root", "body", ".dark body", ".card"]
      + [".stat-card", ".dark .card", ".dark .stat-card", ".btn-primary"]
      + [".btn-primary:hover", ".btn-outline", ".btn-outline:hover", ".page-shell"]
      + [".page-content", ".page-header", ".page-body", ".sidebar"];
  }

  // ---------------------------------------------------------------- scoping

  // The root and the body become the theme's own element, the dark body the same in dark, whatever is
  // under dark goes under the dark theme, and everything else under the theme.
  lemma ScopeLaw(s: string, rest: string)
    ensures Scope(":root") == ".wattaman-theme" && Scope("body") == ".wattaman-theme"
    ensures Scope(".dark body") == ".wattaman-theme.dark"
    ensures rest != "body" ==> Scope(".dark " + rest) == ".wattaman-theme.dark " + rest
    ensures s != ":root" && s != "body" && !(".dark " <= s) ==> Scope(s) == ".wattaman-theme " + s
  {
    assert (".dark " + rest)[..6] == ".dark " && (".dark " + rest)[6..] == rest;
    assert ".dark body"[..6] == ".dark ";
    assert ".dark body"[6..] == "body";
    assert ".dark " + rest == ".dark body" ==> rest == "body";
    assert (".dark " + rest)[0] == '.' && ":root"[0] == ':' && "body"[0] == 'b';
  }

  // ---------------------------------------------------------------- restricted declarations

  // A word at a place, in any case.
  predicate WordAt(s: string, i: nat, word: string) {
    i + |word| <= |s| && forall k :: 0 <= k < |word| ==> Lower(s[i + k]) == word[k]
  }

  // After the word, past any blanks, another.
  predicate Then(s: string, i: nat, word: string, j: nat, next: string) {
    i + |word| <= j <= |s| && WordAt(s, i, word) && Blank(s[i + |word|..j]) && WordAt(s, j, next)
  }

  lemma SkipsBlanks(s: string, i: nat, j: nat)
    requires i <= j <= |s| && Blank(s[i..j]) && (j < |s| ==> !IsSpace(s[j]))
    ensures TrimStart(s[i..]) == s[j..]
  {
    assert s[i..] == s[i..j] + s[j..];
    TrimStartOver(s[i..j], s[j..]);
  }

  lemma {:induction false} BlanksEnd(s: string, i: nat) returns (j: nat)
    requires i <= |s|
    ensures i <= j <= |s| && Blank(s[i..j]) && TrimStart(s[i..]) == s[j..] && (j < |s| ==> !IsSpace(s[j]))
    decreases |s| - i
  {
    if i < |s| && IsSpace(s[i]) {
      j := BlanksEnd(s, i + 1);
      assert s[i..j] == [s[i]] + s[i + 1..j] && s[i..][1..] == s[i + 1..];
    } else {
      j := i;
      assert i < |s| ==> s[i..][0] == s[i];
    }
  }

  lemma WordHere(s: string, i: nat, word: string)
    requires i <= |s|
    ensures AfterWord(s[i..], word).Some? <==> WordAt(s, i, word)
    ensures WordAt(s, i, word) ==> AfterWord(s[i..], word).value == TrimStart(s[i + |word|..])
  {
    if i + |word| <= |s| {
      assert s[i..][|word|..] == s[i + |word|..];
      assert forall k :: 0 <= k < |word| ==> s[i..][k] == s[i + k];
    }
  }

  ghost predicate Follows(s: string, i: nat, word: string, next: string) {
    exists j: nat :: Then(s, i, word, j, next)
  }

  lemma FollowsOnce(s: string, i: nat, word: string, j: nat, next: string)
    requires i + |word| <= j <= |s| && WordAt(s, i, word) && next in [":", "fixed"]
    requires Blank(s[i + |word|..j]) && TrimStart(s[i + |word|..]) == s[j..] && (j < |s| ==> !IsSpace(s[j]))
    ensures forall k: nat :: Then(s, i, word, k, next) ==> k == j
  {
    forall k: nat | Then(s, i, word, k, next) ensures k == j {
      NoBlankFirst(s, k, next);
      SkipsBlanks(s, i + |word|, k);
      assert |s[k..]| == |s[j..]|;
    }
  }

  lemma FollowsIff(s: string, i: nat, word: string, next: string)
    requires i <= |s| && next in [":", "fixed"]
    ensures Follows(s, i, word, next) <==>
      AfterWord(s[i..], word).Some? && AfterWord(AfterWord(s[i..], word).value, next).Some?
  {
    WordHere(s, i, word);
    if WordAt(s, i, word) {
      var j := BlanksEnd(s, i + |word|);
      WordHere(s, j, next);
      FollowsOnce(s, i, word, j, next);
      assert WordAt(s, j, next) ==> Then(s, i, word, j, next);
    }
  }

  lemma NoBlankFirst(s: string, j: nat, next: string)
    requires WordAt(s, j, next) && next in [":", "fixed"]
    ensures j < |s| && !IsSpace(s[j])
  {
    assert Lower(s[j + 0]) == next[0];
  }

  // Declarations of behavior, of -moz-binding, and of a fixed position, in any case and with any blanks
  // around the colon.
  lemma RestrictedLaw(s: string)
    ensures Restricted(s) <==> exists i :: 0 <= i <= |s| && RestrictedDeclarationAt(s, i)
  {
    forall i | 0 <= i <= |s| ensures RestrictedAt(s, i) <==> RestrictedDeclarationAt(s, i) {
      RestrictedAtIff(s, i);
    }
  }

  ghost predicate RestrictedDeclarationAt(s: string, i: nat) {
    || Follows(s, i, "behavior", ":")
    || Follows(s, i, "-moz-binding", ":")
    || exists j: nat :: Then(s, i, "position", j, ":") && Follows(s, j, ":", "fixed")
  }

  lemma RestrictedAtIff(s: string, i: nat)
    requires i <= |s|
    ensures RestrictedAt(s, i) <==> RestrictedDeclarationAt(s, i)
  {
    FollowsIff(s, i, "behavior", ":");
    FollowsIff(s, i, "-moz-binding", ":");
    FollowsIff(s, i, "position", ":");
    WordHere(s, i, "position");
    if WordAt(s, i, "position") {
      var j := BlanksEnd(s, i + 8);
      FollowsOnce(s, i, "position", j, ":");
      FollowsIff(s, j, ":", "fixed");
      WordHere(s, j, ":");
      assert WordAt(s, j, ":") ==> Then(s, i, "position", j, ":");
    }
  }

  // ---------------------------------------------------------------- the judge

  // A rule is objected to for a selector that is not approved, and then for a restricted declaration.
  lemma JudgeLaw(rule: Rule)
    ensures var odd := exists k :: 0 <= k < |SelectorsOf(rule.prelude)| && SelectorsOf(rule.prelude)[k] !in APPROVED;
      Judge(rule) ==
        if odd then Some(UnapprovedSelector) else if Restricted(rule.body) then Some(RestrictedDeclaration) else None
  {
  }

  // An at-rule anywhere outside comments refuses the sheet before anything else.
  lemma AtRuleFirst(css: string)
    ensures ScopedCss(css) == Err(AtRule) <==> HasAtRule(WithoutComments(css))
  {
    ScanNeverAtRule(WithoutComments(css));
  }

  lemma {:induction false} ScanNeverAtRule(s: string)
    ensures Scan(s) != Err(AtRule)
    decreases |s|
  {
    if FirstRule(s).Some? {
      var (rule, n) := FirstRule(s).value;
      ScanNeverAtRule(s[n..]);
    }
  }
}
