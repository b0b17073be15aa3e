// Theme style sheets: which ones are accepted, and how their selectors are confined to the theme.
module ThemeCss {
  import opened Results

  const APPROVED: seq<string> := [
    ":root", "body", ".dark body", ".card", ".stat-card", ".dark .card", ".dark .stat-card",
    ".btn-primary", ".btn-primary:hover", ".btn-outline", ".btn-outline:hover", ".page-shell",
    ".page-content", ".page-header", ".page-body", ".sidebar"]

  datatype Rejection = AtRule | Malformed | UnapprovedSelector | RestrictedDeclaration

  // A rule without nesting, as written.
  datatype Rule = Rule(prelude: string, body: string)

  // ---------------------------------------------------------------- text

  predicate IsBrace(c: char) {
    c == '{' || c == '}'
  }

  predicate IsSpace(c: char) {
    c in " \t\n\r\U{000B}\U{000C}\U{00A0}\U{1680}\U{2028}\U{2029}\U{202F}\U{205F}\U{3000}\U{FEFF}" ||
      '\U{2000}' <= c <= '\U{200A}'
  }

  predicate Blank(s: string) {
    forall k :: 0 <= k < |s| ==> IsSpace(s[k])
  }

  predicate Flat(s: string) {
    forall k :: 0 <= k < |s| ==> !IsBrace(s[k])
  }

  function TrimStart(s: string): string {
    if s != "" && IsSpace(s[0]) then TrimStart(s[1..]) else s
  }

  function TrimEnd(s: string): string {
    if s != "" && IsSpace(s[|s| - 1]) then TrimEnd(s[..|s| - 1]) else s
  }

  function Trim(s: string): string {
    TrimEnd(TrimStart(s))
  }

  // How far the text goes without a brace.
  function RunLength(s: string): (n: nat)
    ensures n <= |s| && Flat(s[..n]) && (n < |s| ==> IsBrace(s[n]))
  {
    if s == "" || IsBrace(s[0]) then 0
    else
      var n := RunLength(s[1..]);
      assert s[..n + 1] == [s[0]] + s[1..][..n];
      n + 1
  }

  // The pieces between commas.
  function Split(s: string): (pieces: seq<string>)
    ensures |pieces| >= 1
  {
    if s == "" then [""]
    else if s[0] == ',' then [""] + Split(s[1..])
    else
      var pieces := Split(s[1..]);
      [[s[0]] + pieces[0]] + pieces[1..]
  }

  function TrimAll(pieces: seq<string>): seq<string> {
    if pieces == [] then [] else [Trim(pieces[0])] + TrimAll(pieces[1..])
  }

  function SelectorsOf(prelude: string): seq<string> {
    TrimAll(Split(prelude))
  }

  // ---------------------------------------------------------------- before the rules

  function CommentEnd(s: string): Option<nat> {
    if |s| < 2 then None
    else if s[..2] == "*/" then Some(2)
    else
      match CommentEnd(s[1..])
      case None => None
      case Some(n) => Some(n + 1)
  }

  lemma CommentEndWithin(s: string)
    ensures CommentEnd(s).Some? ==> CommentEnd(s).value <= |s|
  {
  }

  function WithoutComments(s: string): string
    decreases |s|
  {
    if s == "" then ""
    else if |s| >= 2 && s[..2] == "/*" && CommentEnd(s[2..]).Some? then
      CommentEndWithin(s[2..]);
      WithoutComments(s[2..][CommentEnd(s[2..]).value..])
    else [s[0]] + WithoutComments(s[1..])
  }

  predicate HasAtRule(s: string) {
    exists k :: 0 <= k < |s| - 1 && s[k] == '@' && (Lower(s[k + 1]) == '-' || 'a' <= Lower(s[k + 1]) <= 'z')
  }

  function Lower(c: char): char {
    if 'A' <= c <= 'Z' then c - 'A' + 'a' else c
  }

  // The word, in any case, then spaces, then the rest of the text.
  function AfterWord(s: string, word: string): Option<string> {
    if |s| >= |word| && forall k :: 0 <= k < |word| ==> Lower(s[k]) == word[k]
    then Some(TrimStart(s[|word|..])) else None
  }

  predicate RestrictedAt(text: string, k: nat)
    requires k <= |text|
  {
    var s := text[k..];
    || (AfterWord(s, "behavior").Some? && AfterWord(AfterWord(s, "behavior").value, ":").Some?)
    || (AfterWord(s, "-moz-binding").Some? && AfterWord(AfterWord(s, "-moz-binding").value, ":").Some?)
    || (AfterWord(s, "position").Some? && AfterWord(AfterWord(s, "position").value, ":").Some?
        && AfterWord(AfterWord(AfterWord(s, "position").value, ":").value, "fixed").Some?)
  }

  predicate Restricted(s: string) {
    exists k :: 0 <= k <= |s| && RestrictedAt(s, k)
  }

  // ---------------------------------------------------------------- scoping

  const THEME: string := ".wattaman-theme"

  function Scope(selector: string): string {
    if selector == ":root" || selector == "body" then THEME
    else if |selector| >= 6 && selector[..6] == ".dark " then
      if selector == ".dark body" then THEME + ".dark" else THEME + ".dark " + selector[6..]
    else THEME + " " + selector
  }

  function ScopeAll(selectors: seq<string>): seq<string> {
    if selectors == [] then [] else [Scope(selectors[0])] + ScopeAll(selectors[1..])
  }

  function Join(pieces: seq<string>, separator: string): string {
    if pieces == [] then ""
    else if |pieces| == 1 then pieces[0]
    else pieces[0] + separator + Join(pieces[1..], separator)
  }

  function Block(rule: Rule): string {
    Join(ScopeAll(SelectorsOf(rule.prelude)), ",\n") + " {" + rule.body + "}"
  }

  predicate IsApproved(selector: string) {
    selector in APPROVED
  }

  predicate AllApproved(selectors: seq<string>) {
    forall k :: 0 <= k < |selectors| ==> IsApproved(selectors[k])
  }

  function Judge(rule: Rule): Option<Rejection> {
    if !AllApproved(SelectorsOf(rule.prelude)) then Some(UnapprovedSelector)
    else if Restricted(rule.body) then Some(RestrictedDeclaration)
    else None
  }

  // ---------------------------------------------------------------- a deterministic scanner

  // The rule that the text starts with, if it starts with one.
  function FirstRule(s: string): (r: Option<(Rule, nat)>)
    ensures r.Some? ==> 0 < r.value.1 <= |s|
  {
    var n := RunLength(s);
    if n == 0 || n == |s| || s[n] != '{' then None
    else
      var m := RunLength(s[n + 1..]);
      if n + 1 + m == |s| || s[n + 1 + m] != '}' then None
      else Some((Rule(s[..n], s[n + 1..n + 1 + m]), n + m + 2))
  }

  // What it finds is the text up to there: a run, a brace, a run and a brace.
  lemma FirstRuleIs(s: string)
    requires FirstRule(s).Some?
    ensures var (rule, n) := FirstRule(s).value;
      && rule.prelude != "" && Flat(rule.prelude) && Flat(rule.body)
      && s[..n] == rule.prelude + "{" + rule.body + "}"
  {
    var n := RunLength(s);
    var m := RunLength(s[n + 1..]);
    assert Flat(s[n + 1..][..m]) && s[n + 1..][..m] == s[n + 1..n + 1 + m];
    assert s[..n + m + 2] == s[..n] + "{" + s[n + 1..n + 1 + m] + "}";
  }

  // Text is a sequence of flat rules with nothing but blanks after them.
  function Parse(s: string): Option<seq<Rule>>
    decreases |s|
  {
    match FirstRule(s)
    case None => if Blank(s) then Some([]) else None
    case Some((rule, n)) =>
      match Parse(s[n..])
      case None => None
      case Some(rules) => Some([rule] + rules)
  }

  // The blocks for all rules, or the first objection.
  function Scan(s: string): Result<seq<string>, Rejection>
    decreases |s|
  {
    match FirstRule(s)
    case None => if Blank(s) then Ok([]) else Err(Malformed)
    case Some((rule, n)) =>
      if Judge(rule).Some? then Err(Judge(rule).value)
      else
        match Scan(s[n..])
        case Err(e) => Err(e)
        case Ok(blocks) => Ok([Block(rule)] + blocks)
  }

  function ScopedCss(css: string): Result<string, Rejection> {
    var text := WithoutComments(css);
    if HasAtRule(text) then Err(AtRule)
    else
      match Scan(text)
      case Err(e) => Err(e)
      case Ok(blocks) => Ok(Join(blocks, "\n\n"))
  }

  // ---------------------------------------------------------------- the leftmost match

  // What the rule pattern matches from position i: a run of other characters, a brace, a run, a brace.
  predicate MatchAt(s: string, i: nat) {
    i <= |s| && FirstRule(s[i..]).Some?
  }

  predicate NoMatchBefore(s: string, i: nat) {
    forall k :: 0 <= k < i ==> !MatchAt(s, k)
  }

  method LeftmostMatch(s: string) returns (found: bool, index: nat)
    ensures index <= |s| && NoMatchBefore(s, index)
    ensures if found then MatchAt(s, index) else NoMatchBefore(s, |s| + 1)
  {
    index := 0;
    while index < |s|
      invariant index <= |s| && NoMatchBefore(s, index)
    {
      if FirstRule(s[index..]).Some? {
        return true, index;
      }
      index := index + 1;
    }
    assert s[|s|..] == "";
    return false, |s|;
  }

  lemma BlankIsFlat(s: string)
    requires Blank(s)
    ensures Flat(s)
  {
  }

  lemma {:induction false} RunOver(a: string, b: string)
    requires Flat(a)
    ensures RunLength(a + b) == |a| + RunLength(b)
  {
    if a == "" {
      assert a + b == b;
    } else {
      assert (a + b)[1..] == a[1..] + b;
      RunOver(a[1..], b);
    }
  }

  // A match goes back to the start of its run.
  lemma EarlierMatch(s: string, i: nat)
    requires MatchAt(s, i) && Flat(s[..i])
    ensures MatchAt(s, 0)
  {
    LongerRun(s[..i], s[i..]);
    assert s[..i] + s[i..] == s[0..];
  }

  lemma LongerRun(a: string, b: string)
    requires Flat(a) && FirstRule(b).Some?
    ensures FirstRule(a + b).Some?
  {
    var n := RunLength(b);
    RunOver(a, b);
    assert (a + b)[|a| + n + 1..] == b[n + 1..];
    StartsWithRule(a + b);
  }

  lemma StartsWithRule(s: string)
    requires var n := RunLength(s);
      0 < n < |s| && s[n] == '{' && var m := RunLength(s[n + 1..]); n + 1 + m < |s| && s[n + 1 + m] == '}'
    ensures FirstRule(s).Some?
  {
  }

  // What the leftmost match skips is never blank: it has a brace.
  lemma SkippedTextHasBrace(s: string, i: nat)
    requires MatchAt(s, i) && NoMatchBefore(s, i) && i > 0
    ensures !Blank(s[..i])
  {
    if Blank(s[..i]) {
      BlankIsFlat(s[..i]);
      EarlierMatch(s, i);
    }
  }

  function Prepend(blocks: seq<string>, rest: Result<seq<string>, Rejection>): Result<seq<string>, Rejection> {
    match rest
    case Err(e) => Err(e)
    case Ok(more) => Ok(blocks + more)
  }

  lemma PrependBoth(a: seq<string>, b: seq<string>, rest: Result<seq<string>, Rejection>)
    ensures Prepend(a, Prepend(b, rest)) == Prepend(a + b, rest) && Prepend([], rest) == rest
  {
    if rest.Ok? {
      assert a + (b + rest.value) == a + b + rest.value && [] + rest.value == rest.value;
    }
  }

  lemma NoMatchNoRule(s: string)
    requires NoMatchBefore(s, |s| + 1)
    ensures FirstRule(s).None?
  {
    assert s[0..] == s;
    assert !MatchAt(s, 0);
  }

  // The text starts with a rule exactly when the leftmost match skips nothing.
  lemma FirstMatchDecides(s: string, index: nat)
    requires MatchAt(s, index) && NoMatchBefore(s, index)
    ensures FirstRule(s).Some? <==> index == 0
    ensures index > 0 ==> !Blank(s[..index]) && !Blank(s)
  {
    assert s[0..] == s;
    if index > 0 {
      assert !MatchAt(s, 0);
      SkippedTextHasBrace(s, index);
      BlankPrefix(s, index);
    }
  }

  // The next match, unless it skips something.
  method NextRule(rest: string) returns (r: Result<Option<(Rule, nat)>, Rejection>)
    ensures match r {
              case Err(e) => FirstRule(rest).None? && !Blank(rest) && e == Malformed
              case Ok(next) => FirstRule(rest) == next
            }
  {
    var found, index := LeftmostMatch(rest);
    if !found {
      NoMatchNoRule(rest);
      return Ok(None);
    }
    FirstMatchDecides(rest, index);
    if index != 0 && !Blank(rest[..index]) {
      return Err(Malformed);
    }
    assert rest[0..] == rest;
    return Ok(FirstRule(rest));
  }

  lemma ScanStep(s: string, rule: Rule, n: nat)
    requires FirstRule(s) == Some((rule, n))
    ensures n <= |s|
    ensures Judge(rule).None? ==>
      Scan(s) == match Scan(s[n..]) { case Err(e) => Err(e) case Ok(blocks) => Ok([Block(rule)] + blocks) }
    ensures Judge(rule).Some? ==> Scan(s) == Err(Judge(rule).value)
  {
  }

  lemma ScanEnd(s: string)
    requires FirstRule(s).None?
    ensures Scan(s) == if Blank(s) then Ok([]) else Err(Malformed)
  {
  }

  lemma SliceTwice(s: string, a: nat, b: nat)
    requires a <= |s| && b <= |s| - a
    ensures s[a..][b..] == s[a + b..] && s[0..] == s
  {
  }

  // The loop over leftmost matches computes what the scanner computes, errors included.
  method ScopeThemeCss(css: string) returns (r: Result<string, Rejection>)
    ensures r == ScopedCss(css)
  {
    var text := WithoutComments(css);
    if HasAtRule(text) {
      return Err(AtRule);
    }
    var scan := ScanLoop(text);
    match scan
    case Err(e) => r := Err(e);
    case Ok(blocks) => r := Ok(Join(blocks, "\n\n"));
  }

  // What the loop has still to do: the rest of the text, behind the blocks so far.
  ghost predicate Pending(text: string, blocks: seq<string>, rest: string) {
    Scan(text) == Prepend(blocks, Scan(rest))
  }

  lemma PendingStart(text: string)
    ensures Pending(text, [], text)
  {
    PrependBoth([], [], Scan(text));
  }

  lemma PendingStep(text: string, blocks: seq<string>, rest: string, rule: Rule, n: nat)
    requires Pending(text, blocks, rest) && FirstRule(rest) == Some((rule, n))
    ensures 0 < n <= |rest|
    ensures match Judge(rule)
      case Some(objection) => Scan(text) == Err(objection)
      case None => Pending(text, blocks + [Block(rule)], rest[n..])
  {
    ScanStep(rest, rule, n);
    PrependBoth(blocks, [Block(rule)], Scan(rest[n..]));
  }

  lemma PendingEnd(text: string, blocks: seq<string>, rest: string)
    requires Pending(text, blocks, rest) && FirstRule(rest).None?
    ensures Scan(text) == if Blank(rest) then Ok(blocks) else Err(Malformed)
  {
    ScanEnd(rest);
    assert blocks + [] == blocks;
  }

  // The rule at the start of the rest, its block and the rest behind it; or the objection to it.
  method ScanOne(rest: string) returns (r: Result<Option<(string, nat)>, Rejection>)
    ensures match r
      case Err(e) =>
        if FirstRule(rest).Some? then Judge(FirstRule(rest).value.0) == Some(e) else !Blank(rest) && e == Malformed
      case Ok(None) => FirstRule(rest).None? && Blank(rest)
      case Ok(Some((block, n))) =>
        FirstRule(rest).Some? && n == FirstRule(rest).value.1 && Judge(FirstRule(rest).value.0).None? &&
        block == Block(FirstRule(rest).value.0)
  {
    var next := NextRule(rest);
    if next.Err? {
      return Err(next.error);
    }
    if next.value.None? {
      return if Blank(rest) then Ok(None) else Err(Malformed);
    }
    var (rule, n) := next.value.value;
    var objection := Judge(rule);
    if objection.Some? {
      return Err(objection.value);
    }
    return Ok(Some((Block(rule), n)));
  }

  method ScanLoop(text: string) returns (r: Result<seq<string>, Rejection>)
    ensures r == Scan(text)
  {
    var blocks: seq<string>, cursor := [], 0;
    ghost var rest := text;
    PendingStart(text);
    while true
      invariant cursor <= |text| && rest == text[cursor..] && Pending(text, blocks, rest)
      decreases |text| - cursor
    {
      var next := ScanOne(text[cursor..]);
      if FirstRule(rest).None? {
        PendingEnd(text, blocks, rest);
      } else {
        var (rule, n) := FirstRule(rest).value;
        PendingStep(text, blocks, rest, rule, n);
      }
      if next.Err? {
        return Err(next.error);
      }
      if next.value.None? {
        return Ok(blocks);
      }
      SliceTwice(text, cursor, next.value.value.1);
      blocks := blocks + [next.value.value.0];
      cursor := cursor + next.value.value.1;
      rest := rest[next.value.value.1..];
    }
  }

  lemma BlankPrefix(s: string, i: nat)
    requires i <= |s|
    ensures Blank(s) ==> Blank(s[..i])
  {
  }

  // ---------------------------------------------------------------- what is accepted

  predicate NoObjections(rules: seq<Rule>) {
    rules == [] || (Judge(rules[0]).None? && NoObjections(rules[1..]))
  }

  // A style sheet is accepted exactly when, without comments, it is a sequence of flat rules that are
  // each unobjectionable; the blocks are then those of its rules, in order.
  lemma {:induction false} AcceptedIff(s: string)
    ensures Scan(s).Ok? <==> Parse(s).Some? && NoObjections(Parse(s).value)
    ensures Scan(s).Ok? ==> Scan(s).value == Blocks(Parse(s).value)
    decreases |s|
  {
    if FirstRule(s).Some? {
      var (rule, n) := FirstRule(s).value;
      AcceptedIff(s[n..]);
      if Parse(s[n..]).Some? {
        var rest := Parse(s[n..]).value;
        assert ([rule] + rest)[1..] == rest;
        assert Parse(s) == Some([rule] + rest);
      }
    }
  }

  function Blocks(rules: seq<Rule>): seq<string> {
    if rules == [] then [] else [Block(rules[0])] + Blocks(rules[1..])
  }

  // ---------------------------------------------------------------- selectors

  predicate NoComma(s: string) {
    forall k :: 0 <= k < |s| ==> s[k] != ','
  }

  // A selector that printing and parsing leave alone.
  predicate Clean(c: string) {
    c != "" && !IsSpace(c[0]) && !IsSpace(c[|c| - 1]) && NoComma(c) && Flat(c)
  }

  // Selects nothing outside the theme's own element.
  predicate Confined(c: string) {
    || c == THEME || c == THEME + ".dark"
    || (|c| >= |THEME| + 1 && c[..|THEME| + 1] == THEME + " ")
    || (|c| >= |THEME| + 6 && c[..|THEME| + 6] == THEME + ".dark ")
  }

  lemma ApprovedIsClean(selector: string)
    requires selector in APPROVED
    ensures Clean(selector)
  {
    if selector in [":root", "body", ".dark body", ".card"] {
    } else if selector in [".stat-card", ".dark .card", ".dark .stat-card", ".btn-primary"] {
      CleanCards(selector);
    } else if selector in [".btn-primary:hover", ".btn-outline", ".btn-outline:hover", ".page-shell"] {
      CleanButtons(selector);
    } else {
      assert selector in [".page-content", ".page-header", ".page-body", ".sidebar"];
      CleanPages(selector);
    }
  }

  lemma CleanCards(selector: string)
    requires selector in [".stat-card", ".dark .card", ".dark .stat-card", ".btn-primary"]
    ensures Clean(selector)
  {
  }

  lemma CleanButtons(selector: string)
    requires selector in [".btn-primary:hover", ".btn-outline", ".btn-outline:hover", ".page-shell"]
    ensures Clean(selector)
  {
  }

  lemma CleanPages(selector: string)
    requires selector in [".page-content", ".page-header", ".page-body", ".sidebar"]
    ensures Clean(selector)
  {
  }

  lemma ScopeConfines(selector: string)
    requires Clean(selector)
    ensures Clean(Scope(selector)) && Confined(Scope(selector))
  {
    if |selector| >= 6 && selector[..6] == ".dark " {
      DarkConfines(selector);
    } else {
      PlainConfines(selector);
    }
  }

  lemma DarkConfines(selector: string)
    requires Clean(selector) && |selector| >= 6 && selector[..6] == ".dark "
    ensures Clean(Scope(selector)) && Confined(Scope(selector))
  {
  }

  lemma PlainConfines(selector: string)
    requires Clean(selector) && !(|selector| >= 6 && selector[..6] == ".dark ")
    ensures Clean(Scope(selector)) && Confined(Scope(selector))
  {
  }

  // ---------------------------------------------------------------- printing and parsing selectors

  lemma {:induction false} TrimStartOver(blank: string, s: string)
    requires Blank(blank) && (s == "" || !IsSpace(s[0]))
    ensures TrimStart(blank + s) == s
  {
    if blank == "" {
      assert blank + s == s;
    } else {
      assert (blank + s)[1..] == blank[1..] + s;
      TrimStartOver(blank[1..], s);
    }
  }

  lemma {:induction false} TrimEndOver(s: string, blank: string)
    requires Blank(blank) && (s == "" || !IsSpace(s[|s| - 1]))
    ensures TrimEnd(s + blank) == s
  {
    if blank == "" {
      assert s + blank == s;
    } else {
      var n := |blank| - 1;
      assert (s + blank)[..|s + blank| - 1] == s + blank[..n];
      TrimEndOver(s, blank[..n]);
    }
  }

  lemma TrimPadded(before: string, c: string, after: string)
    requires Blank(before) && Blank(after) && Clean(c)
    ensures Trim(before + c + after) == c
  {
    assert before + c + after == before + (c + after);
    TrimStartOver(before, c + after);
    TrimEndOver(c, after);
  }

  lemma {:induction false} SplitOver(a: string, b: string)
    requires NoComma(a)
    ensures Split(a) == [a] && Split(a + "," + b) == [a] + Split(b)
  {
    if a == "" {
      assert a + "," + b == "," + b;
      assert ("," + b)[1..] == b;
    } else {
      assert (a + "," + b)[1..] == a[1..] + "," + b;
      SplitOver(a[1..], b);
      assert [a[0]] + a[1..] == a;
    }
  }

  lemma BlankNoComma(s: string)
    requires Blank(s)
    ensures NoComma(s)
  {
  }

  ghost predicate AllClean(cs: seq<string>) {
    forall k :: 0 <= k < |cs| ==> Clean(cs[k])
  }

  lemma TrimFirst(piece: string, rest: seq<string>)
    ensures TrimAll([piece] + rest) == [Trim(piece)] + TrimAll(rest)
  {
    assert ([piece] + rest)[1..] == rest;
  }

  // Printed selectors read back as they were.
  lemma {:induction false} SelectorsPrinted(cs: seq<string>, before: string)
    requires cs != [] && AllClean(cs) && Blank(before)
    ensures SelectorsOf(before + Join(cs, ",\n") + " ") == cs
  {
    var c := cs[0];
    assert Clean(c);
    BlankNoComma(before);
    BlankNoComma(" ");
    if |cs| == 1 {
      SplitOver(before + c + " ", "");
      TrimPadded(before, c, " ");
      TrimFirst(before + c + " ", []);
      assert [before + c + " "] + [] == [before + c + " "];
    } else {
      var rest := "\n" + Join(cs[1..], ",\n") + " ";
      assert before + Join(cs, ",\n") + " " == (before + c) + "," + rest;
      SplitOver(before + c, rest);
      assert before + c == before + c + "";
      TrimPadded(before, c, "");
      SelectorsPrinted(cs[1..], "\n");
      TrimFirst(before + c, Split(rest));
    }
  }

  lemma {:induction false} JoinFlat(cs: seq<string>)
    requires AllClean(cs)
    ensures Flat(Join(cs, ",\n"))
  {
    if |cs| > 1 {
      assert Clean(cs[0]);
      JoinFlat(cs[1..]);
    } else if |cs| == 1 {
      assert Clean(cs[0]);
    }
  }

  // ---------------------------------------------------------------- parsing the output

  lemma RuleThere(prelude: string, body: string, tail: string)
    requires prelude != "" && Flat(prelude) && Flat(body)
    ensures FirstRule(prelude + "{" + body + "}" + tail) == Some((Rule(prelude, body), |prelude| + |body| + 2))
  {
    RuleRuns(prelude, body, tail);
    RuleSlices(prelude, body, tail);
  }

  lemma RuleSlices(prelude: string, body: string, tail: string)
    ensures var s := prelude + "{" + body + "}" + tail;
      && s[..|prelude|] == prelude && s[|prelude|] == '{'
      && s[|prelude| + 1..|prelude| + 1 + |body|] == body && s[|prelude| + 1 + |body|] == '}'
  {
  }

  lemma RuleRuns(prelude: string, body: string, tail: string)
    requires Flat(prelude) && Flat(body)
    ensures var s := prelude + "{" + body + "}" + tail;
      RunLength(s) == |prelude| && RunLength(s[|prelude| + 1..]) == |body|
  {
    var s := prelude + "{" + body + "}" + tail;
    assert s == prelude + ("{" + body + "}" + tail);
    RunOver(prelude, "{" + body + "}" + tail);
    assert s[|prelude| + 1..] == body + ("}" + tail);
    RunOver(body, "}" + tail);
  }

  lemma AfterRule(prelude: string, body: string, tail: string)
    ensures (prelude + "{" + body + "}" + tail)[|prelude| + |body| + 2..] == tail
  {
  }

  function Selectors(rule: Rule): seq<string> {
    SelectorsOf(rule.prelude)
  }

  // The rule that a block reads back as, after some blanks.
  function Printed(rule: Rule, before: string): Rule {
    Rule(before + Join(ScopeAll(Selectors(rule)), ",\n") + " ", rule.body)
  }

  function AllPrinted(rules: seq<Rule>, before: string): seq<Rule> {
    if rules == [] then [] else [Printed(rules[0], before)] + AllPrinted(rules[1..], "\n\n")
  }

  // A flat rule with approved selectors.
  ghost predicate Acceptable(rule: Rule) {
    Flat(rule.body) && AllApproved(Selectors(rule))
  }

  ghost predicate AllAcceptable(rules: seq<Rule>) {
    rules == [] || (Acceptable(rules[0]) && AllAcceptable(rules[1..]))
  }

  lemma ParseStep(prelude: string, body: string, tail: string)
    requires prelude != "" && Flat(prelude) && Flat(body)
    ensures Parse(prelude + "{" + body + "}" + tail) ==
      match Parse(tail) { case None => None case Some(rules) => Some([Rule(prelude, body)] + rules) }
  {
    RuleThere(prelude, body, tail);
    AfterRule(prelude, body, tail);
  }

  // The output from some rule on: its block, and the output from the next rule on.
  function Tail(rules: seq<Rule>): string {
    if |rules| <= 1 then "" else "\n\n" + Join(Blocks(rules[1..]), "\n\n")
  }

  lemma JoinFirst(pieces: seq<string>, separator: string)
    requires pieces != []
    ensures Join(pieces, separator) ==
      pieces[0] + (if |pieces| == 1 then "" else separator + Join(pieces[1..], separator))
  {
  }

  lemma OutputText(rules: seq<Rule>, before: string)
    requires rules != []
    ensures before + Join(Blocks(rules), "\n\n") ==
      Printed(rules[0], before).prelude + "{" + rules[0].body + "}" + Tail(rules)
  {
    JoinFirst(Blocks(rules), "\n\n");
    BlocksFirst(rules);
    BlockText(rules[0], before);
    Associates(before, Block(rules[0]), Tail(rules));
  }

  lemma BlocksFirst(rules: seq<Rule>)
    requires rules != []
    ensures Blocks(rules) != [] && Blocks(rules)[0] == Block(rules[0]) && Blocks(rules)[1..] == Blocks(rules[1..])
    ensures |Blocks(rules)| == 1 <==> |rules| == 1
  {
  }

  lemma Associates(a: string, b: string, c: string)
    ensures a + (b + c) == a + b + c
  {
  }

  lemma BlockText(rule: Rule, before: string)
    ensures before + Block(rule) == Printed(rule, before).prelude + "{" + rule.body + "}"
  {
    var selectors := Join(ScopeAll(Selectors(rule)), ",\n");
    TextMoves(before, selectors, rule.body);
  }

  lemma TextMoves(before: string, selectors: string, body: string)
    ensures before + (selectors + " {" + body + "}") == before + selectors + " " + "{" + body + "}"
  {
  }

  lemma PrintedIsFlat(rule: Rule, before: string)
    requires Acceptable(rule) && Blank(before)
    ensures Printed(rule, before).prelude != "" && Flat(Printed(rule, before).prelude)
  {
    ApprovedScopes(Selectors(rule));
    JoinFlat(ScopeAll(Selectors(rule)));
    BlankIsFlat(before);
  }

  lemma {:induction false} OutputParses(rules: seq<Rule>, before: string)
    requires rules != [] && AllAcceptable(rules) && Blank(before)
    ensures Parse(before + Join(Blocks(rules), "\n\n")) == Some(AllPrinted(rules, before))
  {
    var printed := Printed(rules[0], before);
    PrintedIsFlat(rules[0], before);
    OutputText(rules, before);
    ParseStep(printed.prelude, printed.body, Tail(rules));
    if |rules| == 1 {
      NothingParses();
    } else {
      OutputParses(rules[1..], "\n\n");
    }
  }

  lemma NothingParses()
    ensures Parse("") == Some([])
  {
    assert FirstRule("").None?;
  }

  // ---------------------------------------------------------------- the whole of it

  lemma {:induction false} ScopeAllAt(cs: seq<string>)
    ensures |ScopeAll(cs)| == |cs| && forall k :: 0 <= k < |cs| ==> ScopeAll(cs)[k] == Scope(cs[k])
  {
    if cs != [] { ScopeAllAt(cs[1..]); }
  }

  lemma ApprovedScopes(cs: seq<string>)
    requires AllApproved(cs)
    ensures AllClean(ScopeAll(cs)) && forall c :: c in ScopeAll(cs) ==> Confined(c)
  {
    ScopeAllAt(cs);
    forall k | 0 <= k < |cs| ensures Clean(ScopeAll(cs)[k]) && Confined(ScopeAll(cs)[k]) {
      ApprovedIsClean(cs[k]);
      ScopeConfines(cs[k]);
    }
  }

  lemma SelectorsNonempty(prelude: string)
    ensures SelectorsOf(prelude) != []
  {
    assert |Split(prelude)| >= 1;
  }

  lemma {:induction false} AcceptedRules(s: string)
    requires Parse(s).Some? && NoObjections(Parse(s).value)
    ensures AllAcceptable(Parse(s).value)
    decreases |s|
  {
    if FirstRule(s).Some? {
      var (rule, n) := FirstRule(s).value;
      var rest := Parse(s[n..]).value;
      FirstRuleIs(s);
      assert ([rule] + rest)[1..] == rest;
      AcceptedRules(s[n..]);
    }
  }

  // The same declarations, and every selector scoped and so confined to the theme.
  ghost predicate SameRule(rule: Rule, out: Rule) {
    && out.body == rule.body
    && Selectors(out) == ScopeAll(Selectors(rule))
    && forall c :: c in Selectors(out) ==> Confined(c)
  }

  // What comes out is the same rules in the same order.
  ghost predicate SameRules(rules: seq<Rule>, out: seq<Rule>) {
    |out| == |rules| && forall k :: 0 <= k < |out| ==> SameRule(rules[k], out[k])
  }

  lemma PrintedIsSame(rule: Rule, before: string)
    requires Acceptable(rule) && Blank(before)
    ensures SameRule(rule, Printed(rule, before))
  {
    var cs := ScopeAll(Selectors(rule));
    SelectorsNonempty(rule.prelude);
    ScopeAllAt(Selectors(rule));
    ApprovedScopes(Selectors(rule));
    SelectorsPrinted(cs, before);
  }

  lemma SameRulesJoin(rule: Rule, out: Rule, rules: seq<Rule>, outs: seq<Rule>)
    requires SameRule(rule, out) && SameRules(rules, outs)
    ensures SameRules([rule] + rules, [out] + outs)
  {
  }

  lemma {:induction false} AllPrintedSame(rules: seq<Rule>, before: string)
    requires AllAcceptable(rules) && Blank(before)
    ensures SameRules(rules, AllPrinted(rules, before))
  {
    if rules != [] {
      PrintedIsSame(rules[0], before);
      AllPrintedSame(rules[1..], "\n\n");
      SameRulesJoin(rules[0], Printed(rules[0], before), rules[1..], AllPrinted(rules[1..], "\n\n"));
      assert [rules[0]] + rules[1..] == rules;
    }
  }

  lemma ScopingPreservesRules(css: string)
    ensures var text := WithoutComments(css);
      ScopedCss(css).Ok? <==> !HasAtRule(text) && Parse(text).Some? && NoObjections(Parse(text).value)
    ensures ScopedCss(css).Ok? ==>
      && Parse(ScopedCss(css).value).Some?
      && SameRules(Parse(WithoutComments(css)).value, Parse(ScopedCss(css).value).value)
  {
    var text := WithoutComments(css);
    AcceptedIff(text);
    if ScopedCss(css).Ok? {
      AcceptedRules(text);
      OutputHasRules(Parse(text).value);
    }
  }

  lemma OutputHasRules(rules: seq<Rule>)
    requires AllAcceptable(rules)
    ensures var out := Parse(Join(Blocks(rules), "\n\n")); out.Some? && SameRules(rules, out.value)
  {
    if rules == [] {
      NothingParses();
    } else {
      EmptyPrefix(Join(Blocks(rules), "\n\n"));
      OutputParses(rules, "");
      AllPrintedSame(rules, "");
    }
  }

  lemma EmptyPrefix(s: string)
    ensures "" + s == s
  {
  }

  // The characters that count as blank, one by one.
  lemma SpaceLaw(c: char)
    ensures IsSpace(c) <==>
      || c in ['\t', '\n', '\U{000B}', '\U{000C}', '\r', ' ', '\U{00A0}', '\U{1680}']
      || c in ['\U{2000}', '\U{2001}', '\U{2002}', '\U{2003}', '\U{2004}', '\U{2005}', '\U{2006}', '\U{2007}']
      || c in ['\U{2008}', '\U{2009}', '\U{200A}', '\U{2028}', '\U{2029}', '\U{202F}', '\U{205F}', '\U{3000}']
      || c == '\U{FEFF}'
  {
  }
}
