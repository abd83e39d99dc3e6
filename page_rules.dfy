/**
 * Page targeting: Loop_Product_Selector::matches_page_rules.
 *
 * A rules text holds one rule per line. Each rule becomes a PCRE pattern by
 * replacing `*` with `.*` and `/` with `\/`, anchored with `^` and `$` and
 * matched caselessly against the request path and the full URL; an exact
 * string comparison is the fallback. Nothing else is escaped, so a `.` in a
 * rule matches any one character.
 */
module PageRules {
  import opened Wrappers
  import opened Text

  /** The request fields the matcher reads from $_SERVER. */
  datatype Request = Request(https: Option<string>, host: string, uri: string)

  /** REQUEST_URI: the path form of the current location. */
  function CurrentPath(req: Request): string {
    req.uri
  }

  /** "http(s)://HOST/URI": https only when $_SERVER['HTTPS'] is the string "on". */
  function FullUrl(req: Request): (u: string)
    ensures req.https == Some("on") ==> u == "https://" + req.host + req.uri
    ensures req.https != Some("on") ==> u == "http://" + req.host + req.uri
  {
    (if req.https == Some("on") then "https" else "http") + "://" + req.host + req.uri
  }

  // ---------------------------------------------------------------- patterns

  /**
   * The PCRE metacharacters the conversion leaves unescaped and this model does
   * not interpret, plus NUL: a rule containing one of them is outside the model.
   */
  predicate IsUnsupported(c: char) {
    c == '?' || c == '+' || c == '(' || c == ')' || c == '[' || c == ']' || c == '{'
    || c == '}' || c == '\\' || c == '^' || c == '$' || c == '|' || c == '\0'
  }

  predicate Supported(s: string) {
    forall i :: 0 <= i < |s| ==> !IsUnsupported(s[i])
  }

  /** str_replace($search, $replace, $s) for one search character. */
  function ReplaceAll(s: string, c: char, repl: string): string {
    if s == [] then [] else (if s[0] == c then repl else [s[0]]) + ReplaceAll(s[1..], c, repl)
  }

  /**
   * str_replace(array('*', '/'), array('.*', '\/'), $rule): the two replacements
   * are applied one after the other to the whole string.
   */
  function Substitute(rule: string): string {
    ReplaceAll(ReplaceAll(rule, '*', ".*"), '/', "\\/")
  }

  /** The pieces of the supported pattern language. */
  datatype Atom =
    | Lit(c: char)   // one character, compared caselessly
    | AnyChar        // `.`: any character except a newline
    | AnyRun         // `.*`: any run of non-newline characters

  /** Reads a pattern body written with escaped characters, `.` and `.*`. */
  function Parse(src: string): seq<Atom> {
    if src == [] then []
    else if src[0] == '\\' && |src| >= 2 then [Lit(src[1])] + Parse(src[2..])
    else if src[0] == '.' && |src| >= 2 && src[1] == '*' then [AnyRun] + Parse(src[2..])
    else if src[0] == '.' then [AnyChar] + Parse(src[1..])
    else [Lit(src[0])] + Parse(src[1..])
  }

  /** The pattern of one rule character. */
  function AtomOf(c: char): Atom {
    if c == '*' then AnyRun else if c == '.' then AnyChar else Lit(c)
  }

  /** The pattern a rule denotes, character by character. */
  function Atoms(rule: string): (p: seq<Atom>)
    ensures |p| == |rule| && forall i :: 0 <= i < |rule| ==> p[i] == AtomOf(rule[i])
  {
    if rule == [] then [] else [AtomOf(rule[0])] + Atoms(rule[1..])
  }

  /** The compiled pattern of a rule: the substituted text, read as a pattern. */
  function Compile(rule: string): seq<Atom> {
    Parse(Substitute(rule))
  }

  lemma {:induction false} ReplaceAllAppend(a: string, b: string, c: char, repl: string)
    ensures ReplaceAll(a + b, c, repl) == ReplaceAll(a, c, repl) + ReplaceAll(b, c, repl)
  {
    if a == [] {
      assert a + b == b;
    } else {
      var head := if a[0] == c then repl else [a[0]];
      assert (a + b)[0] == a[0];
      assert (a + b)[1..] == a[1..] + b;
      ReplaceAllAppend(a[1..], b, c, repl);
      calc {
        ReplaceAll(a + b, c, repl);
        head + ReplaceAll(a[1..] + b, c, repl);
        head + (ReplaceAll(a[1..], c, repl) + ReplaceAll(b, c, repl));
        (head + ReplaceAll(a[1..], c, repl)) + ReplaceAll(b, c, repl);
      }
    }
  }

  lemma SubstituteCons(ch: char, rest: string)
    ensures Substitute([ch] + rest)
         == (if ch == '*' then ".*" else if ch == '/' then "\\/" else [ch]) + Substitute(rest)
  {
    var first := ReplaceAll([ch] + rest, '*', ".*");
    assert ([ch] + rest)[1..] == rest;
    var head := if ch == '*' then ".*" else [ch];
    assert first == head + ReplaceAll(rest, '*', ".*");
    ReplaceAllAppend(head, ReplaceAll(rest, '*', ".*"), '/', "\\/");
    if ch == '*' {
      assert ReplaceAll(".*", '/', "\\/") == ".*" by {
        assert ".*"[1..] == "*";
        assert ReplaceAll("*", '/', "\\/") == "*" by { assert "*"[1..] == ""; }
      }
    } else {
      assert [ch][1..] == [];
    }
  }

  /** The substituted text of a rule never starts with `*`: every `*` follows the `.` put before it. */
  lemma SubstituteHead(rule: string)
    ensures Substitute(rule) == [] || Substitute(rule)[0] != '*'
  {
    if rule != [] {
      assert rule == [rule[0]] + rule[1..];
      SubstituteCons(rule[0], rule[1..]);
    }
  }

  /**
   * The conversion is faithful on supported rules: `*` becomes a run of any
   * characters, `.` any single character and every other character, `/`
   * included, stands for itself.
   */
  lemma {:induction false} CompileIsAtoms(rule: string)
    requires Supported(rule)
    ensures Compile(rule) == Atoms(rule)
  {
    if rule != [] {
      var ch, rest := rule[0], rule[1..];
      assert rule == [ch] + rest;
      assert Supported(rest) by {
        forall i | 0 <= i < |rest| ensures !IsUnsupported(rest[i]) { assert rest[i] == rule[i + 1]; }
      }
      CompileIsAtoms(rest);
      SubstituteCons(ch, rest);
      SubstituteHead(rest);
      var tail := Substitute(rest);
      if ch == '*' {
        assert Substitute(rule) == ['.', '*'] + tail;
        assert (['.', '*'] + tail)[2..] == tail;
      } else if ch == '/' {
        assert Substitute(rule) == ['\\', '/'] + tail;
        assert (['\\', '/'] + tail)[2..] == tail;
      } else {
        assert Substitute(rule) == [ch] + tail;
        assert ([ch] + tail)[1..] == tail;
      }
    }
  }

  // ---------------------------------------------------------------- matching

  /**
   * Whether pattern `p` matches the whole of `s`. Literals compare after ASCII
   * lower-casing (the /i flag); `.` and `.*` never consume a newline.
   */
  function Match(p: seq<Atom>, s: string): bool
    decreases |p|, |s|
  {
    if p == [] then s == []
    else match p[0]
      case Lit(c) => s != [] && Lower(s[0]) == Lower(c) && Match(p[1..], s[1..])
      case AnyChar => s != [] && s[0] != '\n' && Match(p[1..], s[1..])
      case AnyRun => Match(p[1..], s) || (s != [] && s[0] != '\n' && Match(p, s[1..]))
  }

  /** preg_match('/^...$/i', $s): `$` also matches just before a final newline. */
  predicate PregMatch(p: seq<Atom>, s: string) {
    Match(p, s) || (s != [] && s[|s| - 1] == '\n' && Match(p, s[..|s| - 1]))
  }

  /** One rule matches when its pattern matches the path or the full URL, or it equals either exactly. */
  predicate RuleMatches(rule: string, req: Request)
    requires Supported(rule)
  {
    var p := Compile(rule);
    PregMatch(p, CurrentPath(req)) || PregMatch(p, FullUrl(req))
    || rule == CurrentPath(req) || rule == FullUrl(req)
  }

  /**
   * array_filter(array_map('trim', explode("\n", $rules))): the trimmed lines, in
   * order, without the falsy ones ("" and "0").
   */
  function RuleLines(lines: seq<string>): (r: seq<string>)
    ensures |r| <= |lines|
    ensures forall i :: 0 <= i < |r| ==> IsRuleLine(r[i])
  {
    if lines == [] then []
    else
      var t := PhpTrim(lines[0]);
      PhpTrimIdempotent(lines[0]);
      var rest := RuleLines(lines[1..]);
      if PhpFalsy(t) then rest else [t] + rest
  }

  /** Trimming keeps a slice of the text, so it introduces no new character. */
  lemma SupportedTrim(s: string)
    ensures Supported(s) ==> Supported(PhpTrim(s))
  {
    var u := TrimLeft(s, IsPhpTrimChar);
    var t := TrimRight(u, IsPhpTrimChar);
    assert forall i :: 0 <= i < |t| ==> t[i] == s[|s| - |u| + i];
  }

  /** The lines the rule loop visits: the trimmed, non-falsy lines of the text, in order. */
  function RulesOf(rules: string): (r: seq<string>)
    ensures forall i :: 0 <= i < |r| ==> IsRuleLine(r[i])
    ensures Supported(rules) ==> forall i :: 0 <= i < |r| ==> Supported(r[i])
  {
    var lines := Split(rules, '\n');
    assert Supported(rules) ==> forall i :: 0 <= i < |lines| ==> Supported(lines[i]) by {
      if Supported(rules) {
        SplitChars(rules, '\n');
        forall i, j | 0 <= i < |lines| && 0 <= j < |lines[i]| ensures !IsUnsupported(lines[i][j]) {
          assert lines[i][j] in rules;
        }
      }
    }
    assert Supported(rules) ==> forall i :: 0 <= i < |RuleLines(lines)| ==> Supported(RuleLines(lines)[i]) by {
      if Supported(rules) {
        RuleLinesSupported(lines);
      }
    }
    RuleLines(lines)
  }

  lemma {:induction false} RuleLinesSupported(lines: seq<string>)
    requires forall i :: 0 <= i < |lines| ==> Supported(lines[i])
    ensures forall i :: 0 <= i < |RuleLines(lines)| ==> Supported(RuleLines(lines)[i])
  {
    if lines != [] {
      RuleLinesSupported(lines[1..]);
      SupportedTrim(lines[0]);
    }
  }

  lemma PhpTrimIdempotent(s: string)
    ensures PhpTrim(PhpTrim(s)) == PhpTrim(s)
  {
    TrimIdempotent(s, IsPhpTrimChar);
  }

  /** A line the rule loop looks at: already trimmed and not falsy. */
  predicate IsRuleLine(line: string) {
    !PhpFalsy(line) && line == PhpTrim(line)
  }

  /** A line survives the filter exactly when its trimmed form is not falsy. */
  lemma {:induction false} RuleLinesMembers(lines: seq<string>, x: string)
    ensures x in RuleLines(lines)
        <==> !PhpFalsy(x) && exists i :: 0 <= i < |lines| && PhpTrim(lines[i]) == x
  {
    if lines != [] {
      RuleLinesMembers(lines[1..], x);
      if exists i :: 0 <= i < |lines| && PhpTrim(lines[i]) == x {
        var i :| 0 <= i < |lines| && PhpTrim(lines[i]) == x;
        if i > 0 { assert PhpTrim(lines[1..][i - 1]) == x; }
      }
      if exists i :: 0 <= i < |lines[1..]| && PhpTrim(lines[1..][i]) == x {
        var i :| 0 <= i < |lines[1..]| && PhpTrim(lines[1..][i]) == x;
        assert PhpTrim(lines[i + 1]) == x;
      }
    }
  }

  /**
   * The foreach over the filtered lines: each is trimmed again, skipped when
   * empty, and the loop returns true at the first rule that matches.
   */
  function AnyRuleMatches(rules: seq<string>, req: Request): (r: bool)
    requires forall i :: 0 <= i < |rules| ==> Supported(rules[i])
    ensures r <==> SomeLineMatches(rules, req)
  {
    if rules == [] then false
    else
      var rule := PhpTrim(rules[0]);
      SupportedTrim(rules[0]);
      if PhpFalsy(rule) then AnyRuleMatches(rules[1..], req)
      else if RuleMatches(rule, req) then true
      else AnyRuleMatches(rules[1..], req)
  }

  /** matches_page_rules($rules) for the given request. */
  predicate MatchesPageRules(rules: string, req: Request)
    requires Supported(rules)
  {
    if PhpFalsy(PhpTrim(rules)) then true
    else AnyRuleMatches(RulesOf(rules), req)
  }

  /** The condition of the match-all branch: the trimmed rules text is falsy ("" or "0"). */
  predicate RulesBlank(rules: string) {
    PhpFalsy(PhpTrim(rules))
  }

  // ---------------------------------------------------------------- properties

  /** A rules text made only of whitespace (or nothing at all) matches every page. */
  lemma BlankRulesMatchEverything(rules: string, req: Request)
    requires forall i :: 0 <= i < |rules| ==> IsPhpTrimChar(rules[i]) && rules[i] != '\0'
    ensures RulesBlank(rules) && Supported(rules) && MatchesPageRules(rules, req)
  {
    TrimEmptyIff(rules, IsPhpTrimChar);
  }

  /**
   * Outside the match-all case, the page matches exactly when one of the
   * non-blank trimmed lines matches; the second trim and emptiness check in the
   * loop change nothing.
   */
  lemma MatchesIffSomeLine(rules: string, req: Request)
    requires Supported(rules) && !RulesBlank(rules)
    ensures MatchesPageRules(rules, req) <==> SomeLineMatches(Split(rules, '\n'), req)
  {
    var raw := Split(rules, '\n');
    assert RulesOf(rules) == RuleLines(raw);
    SomeRuleLineIffSomeRawLine(raw, req);
  }

  /** Filtering out the falsy lines does not change whether some line matches. */
  lemma SomeRuleLineIffSomeRawLine(raw: seq<string>, req: Request)
    ensures SomeLineMatches(RuleLines(raw), req) <==> SomeLineMatches(raw, req)
  {
    var lines := RuleLines(raw);
    if SomeLineMatches(lines, req) {
      var j :| 0 <= j < |lines| && LineMatches(lines[j], req);
      RuleLinesMembers(raw, lines[j]);
      var i :| 0 <= i < |raw| && PhpTrim(raw[i]) == lines[j];
      assert IsRuleLine(lines[j]);
      assert LineMatches(raw[i], req);
    }
    if SomeLineMatches(raw, req) {
      var i :| 0 <= i < |raw| && LineMatches(raw[i], req);
      var line := PhpTrim(raw[i]);
      RuleLinesMembers(raw, line);
      var j :| 0 <= j < |lines| && lines[j] == line;
      PhpTrimIdempotent(raw[i]);
      assert LineMatches(lines[j], req);
    }
  }

  /** Some line of `lines`, trimmed, is a rule that matches the request. */
  predicate SomeLineMatches(lines: seq<string>, req: Request) {
    exists i :: 0 <= i < |lines| && LineMatches(lines[i], req)
  }

  /** One raw line of the rules text, trimmed, is a rule that matches the request. */
  predicate LineMatches(raw: string, req: Request) {
    var line := PhpTrim(raw);
    !PhpFalsy(line) && Supported(line) && RuleMatches(line, req)
  }



  /** A run of atoms that are all literals, as a supported rule without `*` and `.` yields. */
  predicate IsLiteral(w: string) {
    forall i :: 0 <= i < |w| ==> w[i] != '*' && w[i] != '.'
  }

  lemma {:induction false} MatchLiteralPrefix(w: string, q: seq<Atom>, s: string)
    requires IsLiteral(w)
    ensures Match(Atoms(w) + q, s)
        <==> |w| <= |s| && LowerAll(s[..|w|]) == LowerAll(w) && Match(q, s[|w|..])
  {
    if w != [] {
      var p := Atoms(w) + q;
      assert p[0] == Lit(w[0]);
      assert p[1..] == Atoms(w[1..]) + q;
      assert IsLiteral(w[1..]) by {
        forall i | 0 <= i < |w| - 1 ensures w[1..][i] != '*' && w[1..][i] != '.' { assert w[1..][i] == w[i + 1]; }
      }
      if s != [] {
        MatchLiteralPrefix(w[1..], q, s[1..]);
        if |w| <= |s| {
          assert s[1..][..|w| - 1] == s[..|w|][1..];
          assert s[1..][|w| - 1..] == s[|w|..];
          assert LowerAll(s[..|w|]) == LowerAll(w)
             <==> Lower(s[0]) == Lower(w[0]) && LowerAll(s[1..][..|w| - 1]) == LowerAll(w[1..]) by {
            if LowerAll(s[..|w|]) == LowerAll(w) {
              assert LowerAll(s[..|w|])[0] == LowerAll(w)[0];
              assert LowerAll(s[1..][..|w| - 1]) == LowerAll(s[..|w|])[1..];
              assert LowerAll(w[1..]) == LowerAll(w)[1..];
            }
          }
        }
      }
    } else {
      assert Atoms(w) + q == q;
    }
  }

  /** A literal rule matches a string exactly when the two agree up to ASCII case. */
  lemma MatchLiteral(w: string, s: string)
    requires IsLiteral(w)
    ensures Match(Atoms(w), s) <==> LowerAll(s) == LowerAll(w)
  {
    MatchLiteralPrefix(w, [], s);
    assert Atoms(w) + [] == Atoms(w);
    if LowerAll(s) == LowerAll(w) {
      assert s[..|w|] == s;
    }
  }

  /** `.*` followed by q matches s when some newline-free prefix of s can be skipped. */
  lemma {:induction false} MatchRun(q: seq<Atom>, s: string)
    ensures Match([AnyRun] + q, s)
        <==> exists k :: 0 <= k <= |s| && '\n' !in s[..k] && Match(q, s[k..])
  {
    var p := [AnyRun] + q;
    assert p[1..] == q;
    if s == [] {
      if Match(p, s) { assert '\n' !in s[..0] && Match(q, s[0..]); }
    } else {
      MatchRun(q, s[1..]);
      if Match(p, s) {
        if Match(q, s) {
          assert s[0..] == s && '\n' !in s[..0];
        } else {
          var k :| 0 <= k <= |s[1..]| && '\n' !in s[1..][..k] && Match(q, s[1..][k..]);
          assert s[..k + 1] == [s[0]] + s[1..][..k];
          assert s[k + 1..] == s[1..][k..];
        }
      }
      if exists k :: 0 <= k <= |s| && '\n' !in s[..k] && Match(q, s[k..]) {
        var k :| 0 <= k <= |s| && '\n' !in s[..k] && Match(q, s[k..]);
        if k > 0 {
          assert s[0] in s[..k];
          assert s[1..][..k - 1] == s[1..k];
          assert forall c :: c in s[1..k] ==> c in s[..k];
          assert s[1..][k - 1..] == s[k..];
        }
      }
    }
  }

  /** `w` occurs in `s` up to ASCII case. */
  ghost predicate ContainsFolded(s: string, w: string) {
    exists k :: OccursAt(s, w, k)
  }

  /** `w` occurs in `s` at position k, up to ASCII case. */
  predicate OccursAt(s: string, w: string, k: int) {
    0 <= k && k + |w| <= |s| && LowerAll(s[k..k + |w|]) == LowerAll(w)
  }

  /** After skipping k characters, "w*" matches the rest exactly when w occurs at k. */
  lemma RestAfterSkip(w: string, s: string, k: nat)
    requires IsLiteral(w) && '\n' !in s && k <= |s|
    ensures Match(Atoms(w) + [AnyRun], s[k..]) <==> OccursAt(s, w, k)
  {
    MatchLiteralPrefix(w, [AnyRun], s[k..]);
    if k + |w| <= |s| {
      assert s[k..][..|w|] == s[k..k + |w|];
      var rest := s[k..][|w|..];
      MatchRun([], rest);
      assert '\n' !in rest by {
        forall c | c in rest ensures c != '\n' { assert c in s; }
      }
      assert [AnyRun] + [] == [AnyRun];
      assert rest[..|rest|] == rest && Match([], rest[|rest|..]);
    }
  }

  /**
   * The rule "*w*" (w without `*` and `.`) matches a newline-free string exactly
   * when w occurs in it, ignoring ASCII case.
   */
  lemma ContainsRule(w: string, s: string)
    requires IsLiteral(w) && '\n' !in s
    ensures Match(Atoms("*" + w + "*"), s) <==> ContainsFolded(s, w)
  {
    var tail := Atoms(w) + [AnyRun];
    assert Atoms("*" + w + "*") == [AnyRun] + tail;
    MatchRun(tail, s);
    if Match([AnyRun] + tail, s) {
      var k :| 0 <= k <= |s| && '\n' !in s[..k] && Match(tail, s[k..]);
      RestAfterSkip(w, s, k);
    }
    if ContainsFolded(s, w) {
      var k :| OccursAt(s, w, k);
      RestAfterSkip(w, s, k);
      assert '\n' !in s[..k] by {
        forall c | c in s[..k] ensures c != '\n' { assert c in s; }
      }
    }
  }

  /**
   * A rule without `*` and `.` matches a newline-free request exactly when it
   * equals the path or the full URL up to ASCII case.
   */
  lemma ExactRule(rule: string, req: Request)
    requires Supported(rule) && IsLiteral(rule)
    requires '\n' !in CurrentPath(req) && '\n' !in FullUrl(req)
    ensures RuleMatches(rule, req)
        <==> LowerAll(rule) == LowerAll(CurrentPath(req)) || LowerAll(rule) == LowerAll(FullUrl(req))
  {
    CompileIsAtoms(rule);
    MatchLiteral(rule, CurrentPath(req));
    MatchLiteral(rule, FullUrl(req));
    var path, url := CurrentPath(req), FullUrl(req);
    if path != [] { assert path[|path| - 1] in path; }
    if url != [] { assert url[|url| - 1] in url; }
  }

  /**
   * Nothing is escaped besides `/`: a `.` in a rule stands for any one
   * character (other than a newline), so "a.b" also matches "axb".
   */
  lemma DotMatchesAnyChar(a: string, b: string, x: char)
    requires IsLiteral(a) && IsLiteral(b) && x != '\n'
    ensures Match(Atoms(a + "." + b), a + [x] + b)
  {
    var q := [AnyChar] + Atoms(b);
    AtomsAppend(a, "." + b);
    AtomsAppend(".", b);
    assert Atoms(".") == [AnyChar];
    assert a + "." + b == a + ("." + b);
    DotThenLiteral(b, x);
    var s := a + ([x] + b);
    MatchLiteralPrefix(a, q, s);
    assert s[..|a|] == a;
    assert s[|a|..] == [x] + b;
    assert a + [x] + b == s;
  }

  lemma DotThenLiteral(b: string, x: char)
    requires IsLiteral(b) && x != '\n'
    ensures Match([AnyChar] + Atoms(b), [x] + b)
  {
    var q := [AnyChar] + Atoms(b);
    assert q[1..] == Atoms(b);
    assert ([x] + b)[1..] == b;
    MatchLiteral(b, b);
  }

  lemma AtomsAppend(a: string, b: string)
    ensures Atoms(a + b) == Atoms(a) + Atoms(b)
  {
  }

  /** A word starting with 'f' does not occur in a text with no 'f' or 'F'. */
  lemma NoOccurrenceWithoutF(s: string, w: string)
    requires w != [] && w[0] == 'f' && 'f' !in s && 'F' !in s
    ensures !ContainsFolded(s, w)
  {
  }

  /** The example rule "*furever*" matches the furever product page... */
  lemma FureverMatches(rule: string, req: Request)
    requires rule == "*furever*"
    requires req == Request(Some("on"), "loop-biotech.com", "/nl/product/furever/")
    ensures Supported(rule) && RuleMatches(rule, req)
  {
    var w := "furever";
    FureverRuleFacts(rule, w);
    CompileIsAtoms(rule);
    var path := CurrentPath(req);
    FureverPathFacts(path, w);
    ContainsRule(w, path);
  }

  lemma FureverRuleFacts(rule: string, w: string)
    requires rule == "*furever*" && w == "furever"
    ensures rule == "*" + w + "*" && Supported(rule) && IsLiteral(w)
  {
  }

  lemma FureverPathFacts(path: string, w: string)
    requires path == "/nl/product/furever/" && w == "furever"
    ensures '\n' !in path && ContainsFolded(path, w)
  {
    assert path[12..19] == w;
    assert OccursAt(path, w, 12);
  }

  lemma EarthriseUrlFacts(path: string, url: string)
    requires path == "/nl/product/earthrise/"
    requires url == "https://" + "loop-biotech.com" + path
    ensures '\n' !in path && 'f' !in path && 'F' !in path
    ensures '\n' !in url && 'f' !in url && 'F' !in url
    ensures path[|path| - 1] == '/' && url[|url| - 1] == '/'
  {
    assert '\n' !in "https://" && 'f' !in "https://" && 'F' !in "https://";
    assert '\n' !in "loop-biotech.com" && 'f' !in "loop-biotech.com" && 'F' !in "loop-biotech.com";
  }

  /** ...and does not match the earthrise one, by path or by full URL. */
  lemma EarthriseDoesNotMatch(rule: string, req: Request)
    requires rule == "*furever*"
    requires req == Request(Some("on"), "loop-biotech.com", "/nl/product/earthrise/")
    ensures Supported(rule) && !RuleMatches(rule, req)
  {
    var w := "furever";
    FureverRuleFacts(rule, w);
    CompileIsAtoms(rule);
    var path, url := CurrentPath(req), FullUrl(req);
    EarthriseUrlFacts(path, url);
    NoOccurrenceWithoutF(path, w);
    NoOccurrenceWithoutF(url, w);
    ContainsRule(w, path);
    ContainsRule(w, url);
  }
}
