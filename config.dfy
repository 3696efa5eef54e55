/**
 * Directory configurations (config.cs): include/exclude rules built from
 * glob-like patterns, the configuration value that keys the matcher cache,
 * its structural equality and hash, and the line syntax of a config file.
 */
module Config {
  import opened Text
  import opened Results

  /** A C# `int`. */
  type Int32 = x: int | -0x8000_0000 <= x < 0x8000_0000

  /** `x` reduced to an `int` the way unchecked C# arithmetic wraps it. */
  function Wrap32(x: int): (r: Int32)
    ensures (r - x) % 0x1_0000_0000 == 0
  {
    var m := x % 0x1_0000_0000;
    if m >= 0x8000_0000 then m - 0x1_0000_0000 else m
  }

  /**
   * A rule: `Starts` means "the pattern ended in `*`" (a prefix test),
   * `Ends` means "the pattern began with `*`" (a suffix test).
   */
  datatype MatchRule = MatchRule(isInclude: bool, starts: bool, ends: bool, value: string)

  /** The pattern text a rule prints: `Value` with its stars put back. */
  function Pattern(r: MatchRule): string {
    (if r.ends then "*" else "") + r.value + (if r.starts then "*" else "")
  }

  /**
   * `new MatchRule(isInclude, v)`. A leading star sets Ends, a trailing star sets
   * Starts, and Value is `v` with exactly those stars removed; the lone `*`
   * sets both flags and leaves Value empty, so it prints back as `**`.
   */
  function NewRule(isInclude: bool, v: string): (r: MatchRule)
    requires |v| > 0
    ensures r.isInclude == isInclude
    ensures r.ends <==> v[0] == '*'
    ensures r.starts <==> v[|v| - 1] == '*'
    ensures Pattern(r) == if v == "*" then "**" else v
  {
    var ends := v[0] == '*';
    var starts := v[|v| - 1] == '*';
    var value :=
      if v == "*" then ""
      else if starts && ends then v[1..|v| - 1]
      else if starts then v[..|v| - 1]
      else if ends then v[1..]
      else v;
    assert starts && ends && v != "*" ==> v == "*" + value + "*";
    assert starts && !ends ==> v == value + "*";
    assert ends && !starts ==> v == "*" + value;
    MatchRule(isInclude, starts, ends, value)
  }

  /**
   * `MatchRule.Match(e)`: a prefix test for Starts only, a suffix test for Ends
   * only, equality for neither, and for both an `IndexOf` that succeeds exactly
   * when Value occurs somewhere in `e`.
   */
  function Matches(r: MatchRule, e: string): (b: bool)
    ensures r.starts && r.ends ==> (b <==> Contains(e, r.value))
  {
    if r.starts && !r.ends then StartsWith(e, r.value)
    else if r.ends && !r.starts then EndsWith(e, r.value)
    else if r.ends && r.starts then
      IndexOfFindsContains(e, r.value);
      IndexOf(e, r.value, 0) != -1
    else e == r.value
  }

  /** The rule made from `*` matches every string: the empty Value occurs everywhere. */
  lemma {:induction false} StarMatchesEverything(isInclude: bool, e: string)
    ensures Matches(NewRule(isInclude, "*"), e)
  {
    assert OccursAt(e, "", 0);
  }

  /** `MatchRule.ToString()`: the keyword, a blank, and the pattern. */
  function RuleToString(r: MatchRule): (line: string)
    ensures StartsWith(line, if r.isInclude then "include " else "exclude ")
    ensures EndsWith(line, Pattern(r))
  {
    (if r.isInclude then "include" else "exclude") + " " + Pattern(r)
  }

  /** `MatchRule.Equals`: the four fields compared. */
  function RuleEquals(a: MatchRule, b: MatchRule): (eq: bool)
    ensures eq <==> a == b
  {
    a.isInclude == b.isInclude && a.starts == b.starts && a.ends == b.ends && a.value == b.value
  }

  /** Re-parsing the pattern a rule prints gives back an equal rule. */
  lemma {:induction false} ReparsePattern(isInclude: bool, v: string)
    requires |v| > 0
    ensures |Pattern(NewRule(isInclude, v))| > 0
    ensures RuleEquals(NewRule(isInclude, Pattern(NewRule(isInclude, v))), NewRule(isInclude, v))
  {
  }

  /** `bool.GetHashCode()`. */
  function BoolHash(b: bool): Int32 {
    if b then 1 else 0
  }

  /**
   * `MatchRule.GetHashCode()`. The runtime's string hash is not specified, so
   * it is a parameter.
   */
  function RuleHash(r: MatchRule, stringHash: string -> Int32): Int32 {
    var h0 := Wrap32(0x3D7EF6AB * 31 + BoolHash(r.isInclude));
    var h1 := Wrap32(h0 * 31 + BoolHash(r.starts));
    var h2 := Wrap32(h1 * 31 + BoolHash(r.ends));
    Wrap32(h2 * 31 + stringHash(r.value))
  }

  /** Rules that are `Equals` have the same hash code. */
  lemma {:induction false} EqualRulesHashEqual(a: MatchRule, b: MatchRule, stringHash: string -> Int32)
    requires RuleEquals(a, b)
    ensures RuleHash(a, stringHash) == RuleHash(b, stringHash)
  {
  }

  /** A directory configuration as built by the config loader. */
  datatype DirConfig = DirConfig(configPath: string, scanDir: string, rules: seq<MatchRule>)

  /**
   * What `DirConfig.Equals` and `GetHashCode` look at: the scan directory and
   * the ordered rules. The cache is keyed by this.
   */
  datatype DirKey = DirKey(scanDir: string, rules: seq<MatchRule>)

  function Key(c: DirConfig): DirKey {
    DirKey(c.scanDir, c.rules)
  }

  /**
   * `DirConfig.Equals`: true exactly when the scan directories are equal and
   * the rule lists are pairwise `Equals` in order; the config path is ignored.
   */
  method ConfigEquals(a: DirConfig, b: DirConfig) returns (eq: bool)
    ensures eq <==> Key(a) == Key(b)
  {
    if a.scanDir != b.scanDir {
      return false;
    }
    if |a.rules| != |b.rules| {
      return false;
    }
    var i := 0;
    while i < |a.rules|
      invariant 0 <= i <= |a.rules|
      invariant a.rules[..i] == b.rules[..i]
    {
      var same := RuleEquals(a.rules[i], b.rules[i]);
      if !same {
        return false;
      }
      assert a.rules[..i + 1] == a.rules[..i] + [a.rules[i]];
      assert b.rules[..i + 1] == b.rules[..i] + [b.rules[i]];
      i := i + 1;
    }
    assert a.rules == a.rules[..i] && b.rules == b.rules[..i];
    return true;
  }

  /** The hash accumulated over `rules`, starting from `seed`, one rule at a time. */
  function HashRules(seed: Int32, rules: seq<MatchRule>, stringHash: string -> Int32): Int32 {
    if rules == [] then seed
    else Wrap32(HashRules(seed, rules[..|rules| - 1], stringHash) * 31 + RuleHash(rules[|rules| - 1], stringHash))
  }

  /** The hash `DirConfig.GetHashCode` computes: the scan directory, then the rules in order. */
  function ConfigHashOf(k: DirKey, stringHash: string -> Int32): Int32 {
    HashRules(Wrap32(0x1AB43C32 * 31 + stringHash(k.scanDir)), k.rules, stringHash)
  }

  /** `DirConfig.GetHashCode()`. */
  method ConfigHash(c: DirConfig, stringHash: string -> Int32) returns (res: Int32)
    ensures res == ConfigHashOf(Key(c), stringHash)
  {
    res := 0x1AB43C32;
    res := Wrap32(res * 31 + stringHash(c.scanDir));
    ghost var seed := res;
    for i := 0 to |c.rules|
      invariant res == HashRules(seed, c.rules[..i], stringHash)
    {
      assert c.rules[..i + 1][..i] == c.rules[..i];
      res := Wrap32(res * 31 + RuleHash(c.rules[i], stringHash));
    }
    assert c.rules[..|c.rules|] == c.rules;
  }

  /** Configurations that are `Equals` have the same hash code, whatever their config paths. */
  lemma {:induction false} EqualConfigsHashEqual(a: DirConfig, b: DirConfig, stringHash: string -> Int32)
    requires Key(a) == Key(b)
    ensures ConfigHashOf(Key(a), stringHash) == ConfigHashOf(Key(b), stringHash)
  {
  }

  /** What one line of a config file contributes. */
  datatype LineParse = Skip | RuleLine(rule: MatchRule) | Invalid(msg: string)

  lemma {:induction false} TokensOfNonBlank(l: string)
    requires !IsBlank(l)
    ensures |Tokens(l)| > 0
  {
    var i :| 0 <= i < |l| && !IsWhite(l[i]);
    TokensNonEmpty(l, i);
  }

  /**
   * One iteration of the read loop of `ConfigParser.LoadConfig`: comments and
   * blank lines are skipped; a first token other than `include`/`exclude`
   * throws "Invalid config line"; a keyword without a pattern fails on `s[1]`.
   */
  function ParseLine(line: string): LineParse {
    var l := StripComment(line);
    if IsBlank(l) then Skip
    else
      TokensOfNonBlank(l);
      var s := Tokens(l);
      if s[0] != "include" && s[0] != "exclude" then Invalid("Invalid config line: " + l)
      else if |s| < 2 then Invalid("Index was outside the bounds of the array.")
      else RuleLine(NewRule(s[0] == "include", s[1]))
  }

  /** The line a rule prints is read back as that same rule. */
  lemma {:induction false} RuleLineRoundTrip(isInclude: bool, v: string)
    requires IsWord(v)
    ensures ParseLine(RuleToString(NewRule(isInclude, v))) == RuleLine(NewRule(isInclude, v))
  {
    var r := NewRule(isInclude, v);
    var kw := if isInclude then "include" else "exclude";
    var p := Pattern(r);
    assert IsWord(p);
    var line := RuleToString(r);
    RuleLineTokens(kw, p);
    assert line == kw + [' '] + p;
    ReparsePattern(isInclude, v);
  }

  lemma {:induction false} RuleLineTokens(kw: string, p: string)
    requires kw == "include" || kw == "exclude"
    requires IsWord(p)
    ensures !IsBlank(StripComment(kw + [' '] + p))
    ensures Tokens(StripComment(kw + [' '] + p)) == [kw, p]
    ensures ParseLine(kw + [' '] + p) == RuleLine(NewRule(kw == "include", p))
  {
    var line := kw + [' '] + p;
    assert StripComment(line) == line && !IsBlank(line) by {
      assert !IsWhite(line[0]) && line[0] != '#';
      StripCommentKeeps(line);
    }
    assert Tokens(line) == [kw, p] by {
      KeywordIsWord(kw);
      TokensOfWordThen(kw, ' ', p);
      TokensOfWord(p);
    }
    ParseLineOfTokens(line, kw, p);
  }

  lemma {:induction false} KeywordIsWord(kw: string)
    requires kw == "include" || kw == "exclude"
    ensures IsWord(kw)
  {
    assert |kw| == 7;
    forall i | 0 <= i < 7 ensures !IsSep(kw[i]) {
      assert 'a' <= kw[i] <= 'z';
    }
  }

  lemma {:induction false} ParseLineOfTokens(line: string, kw: string, p: string)
    requires kw == "include" || kw == "exclude"
    requires StripComment(line) == line && !IsBlank(line)
    requires Tokens(line) == [kw, p] && |p| > 0
    ensures ParseLine(line) == RuleLine(NewRule(kw == "include", p))
  {
  }

  /** Each line of a config file read on its own. */
  function Classify(lines: seq<string>): (ps: seq<LineParse>)
    ensures |ps| == |lines|
    ensures forall k :: 0 <= k < |lines| ==> ps[k] == ParseLine(lines[k])
  {
    seq(|lines|, k requires 0 <= k < |lines| => ParseLine(lines[k]))
  }

  /** The rules of a sequence of read lines, or the error of the first bad one. */
  function Fold(ps: seq<LineParse>): Result<seq<MatchRule>> {
    if ps == [] then Ok([])
    else
      match Fold(ps[..|ps| - 1])
      case Err(m) => Err(m)
      case Ok(rules) =>
        match ps[|ps| - 1]
        case Skip => Ok(rules)
        case RuleLine(r) => Ok(rules + [r])
        case Invalid(m) => Err(m)
  }

  /** The rules of a config file's lines, or the error the first bad line throws. */
  function ParseRules(lines: seq<string>): Result<seq<MatchRule>> {
    Fold(Classify(lines))
  }

  /** The rules the rule lines give, in order (bad lines ignored). */
  function RulesIn(ps: seq<LineParse>): seq<MatchRule> {
    if ps == [] then []
    else (if ps[0].RuleLine? then [ps[0].rule] else []) + RulesIn(ps[1..])
  }

  lemma {:induction false} RulesInAppend(a: seq<LineParse>, b: seq<LineParse>)
    ensures RulesIn(a + b) == RulesIn(a) + RulesIn(b)
    decreases |a|
  {
    if a == [] {
      assert a + b == b;
    } else {
      var ab := a + b;
      assert ab[0] == a[0] && ab[1..] == a[1..] + b;
      RulesInAppend(a[1..], b);
      assert RulesIn(ab) == (if a[0].RuleLine? then [a[0].rule] else []) + RulesIn(a[1..] + b);
    }
  }

  /**
   * Folding read lines succeeds exactly when no line is bad, and then yields
   * one rule per rule line, in order.
   */
  lemma {:induction false} FoldCharacterised(ps: seq<LineParse>)
    ensures Fold(ps).Ok? <==> forall k :: 0 <= k < |ps| ==> !ps[k].Invalid?
    ensures Fold(ps).Ok? ==> Fold(ps).value == RulesIn(ps)
  {
    if ps != [] {
      var init := ps[..|ps| - 1];
      var last := ps[|ps| - 1];
      FoldCharacterised(init);
      assert ps == init + [last];
      RulesInAppend(init, [last]);
      assert RulesIn([last]) == (if last.RuleLine? then [last.rule] else []) by {
        assert [last][1..] == [];
      }
      if Fold(init).Err? {
        var k :| 0 <= k < |init| && init[k].Invalid?;
        assert ps[k] == init[k];
      }
      forall k | 0 <= k < |init| ensures ps[k] == init[k] {}
    }
  }

  /**
   * Reading a config file succeeds exactly when no line is bad (a first token
   * other than include/exclude, or a keyword without a pattern), and then it
   * yields one rule per rule line, in file order.
   */
  lemma {:induction false} ParseRulesCharacterised(lines: seq<string>)
    ensures ParseRules(lines).Ok? <==> forall k :: 0 <= k < |lines| ==> !ParseLine(lines[k]).Invalid?
    ensures ParseRules(lines).Ok? ==> ParseRules(lines).value == RulesIn(Classify(lines))
  {
    FoldCharacterised(Classify(lines));
  }

  lemma {:induction false} FoldSkip(a: seq<LineParse>, b: seq<LineParse>)
    ensures Fold(a + [Skip] + b) == Fold(a + b)
    decreases |b|
  {
    if b == [] {
      assert a + [Skip] + b == a + [Skip];
      assert (a + [Skip])[..|a|] == a;
      assert a + b == a;
    } else {
      var b' := b[..|b| - 1];
      FoldSkip(a, b');
      assert (a + [Skip] + b)[..|a + [Skip] + b| - 1] == a + [Skip] + b';
      assert (a + b)[..|a + b| - 1] == a + b';
    }
  }

  lemma {:induction false} ClassifyAppend(a: seq<string>, b: seq<string>)
    ensures Classify(a + b) == Classify(a) + Classify(b)
  {
    var x, y := Classify(a + b), Classify(a) + Classify(b);
    assert |x| == |y|;
    forall k | 0 <= k < |x| ensures x[k] == y[k] {
      if k < |a| {
        assert (a + b)[k] == a[k];
      } else {
        assert (a + b)[k] == b[k - |a|];
      }
    }
  }

  /** Inserting a comment or blank line anywhere in a config file changes nothing. */
  lemma {:induction false} SkippedLineChangesNothing(a: seq<string>, c: string, b: seq<string>)
    requires ParseLine(c) == Skip
    ensures ParseRules(a + [c] + b) == ParseRules(a + b)
  {
    ClassifyAppend(a + [c], b);
    ClassifyAppend(a, [c]);
    ClassifyAppend(a, b);
    assert Classify([c]) == [Skip];
    FoldSkip(Classify(a), Classify(b));
  }

  /**
   * The line-parsing part of `ConfigParser.LoadConfig`: the file's lines are
   * read one at a time, each rule line appends one rule, the first bad line
   * throws, and the scan directory is the config file's directory.
   */
  method LoadConfig(configPath: string, lines: seq<string>) returns (r: Result<DirConfig>)
    ensures r.Ok? <==> ParseRules(lines).Ok?
    ensures r.Ok? ==> r.value == DirConfig(configPath, DirName(configPath), ParseRules(lines).value)
    ensures r.Err? ==> r == Err(ParseRules(lines).msg)
  {
    ghost var ps := Classify(lines);
    var rules: seq<MatchRule> := [];
    var i := 0;
    while i < |lines|
      invariant 0 <= i <= |lines|
      invariant Fold(ps[..i]) == Ok(rules)
    {
      var parsed := ParseLine(lines[i]);
      assert parsed == ps[i];
      FoldStep(ps, i);
      match parsed {
        case Skip =>
        case RuleLine(rule) =>
          rules := rules + [rule];
        case Invalid(m) =>
          FirstErrorPersists(ps, i + 1);
          return Err(m);
      }
      i := i + 1;
    }
    assert ps[..i] == ps;
    r := Ok(DirConfig(configPath, DirName(configPath), rules));
  }

  /** Folding one more read line onto a prefix that succeeded. */
  lemma {:induction false} FoldStep(ps: seq<LineParse>, i: nat)
    requires i < |ps| && Fold(ps[..i]).Ok?
    ensures Fold(ps[..i + 1]) ==
      match ps[i]
      case Skip => Fold(ps[..i])
      case RuleLine(r) => Ok(Fold(ps[..i]).value + [r])
      case Invalid(m) => Err(m)
  {
    assert ps[..i + 1][..i] == ps[..i];
  }

  /** Once a prefix of the lines fails, the whole file fails with the same error. */
  lemma {:induction false} FirstErrorPersists(ps: seq<LineParse>, n: nat)
    requires n <= |ps| && Fold(ps[..n]).Err?
    ensures Fold(ps) == Fold(ps[..n])
    decreases |ps| - n
  {
    if n < |ps| {
      assert ps[..n + 1][..n] == ps[..n];
      FirstErrorPersists(ps, n + 1);
    } else {
      assert ps[..n] == ps;
    }
  }
}
