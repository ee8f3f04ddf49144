/**
 The agent's argument string: printed by the plugin from its configuration and parsed again
 by the agent.
 */
module Arguments {
  import opened Wrappers

  // ---------------------------------------------------------------- joining and splitting

  function Join(parts: seq<string>, sep: char): string {
    if parts == [] then [] else if |parts| == 1 then parts[0] else parts[0] + [sep] + Join(parts[1..], sep)
  }

  // What precedes the first separator.
  function Head(s: string, sep: char): (r: string)
    ensures |r| <= |s| && r == s[..|r|] && sep !in r
    ensures |r| < |s| ==> s[|r|] == sep
    ensures sep !in s ==> r == s
  {
    if s == [] || s[0] == sep then [] else [s[0]] + Head(s[1..], sep)
  }

  // All the pieces between separators, empty ones included.
  function Pieces(s: string, sep: char): seq<string> {
    var h := Head(s, sep);
    if |h| == |s| then [s] else [h] + Pieces(s[|h| + 1..], sep)
  }

  function DropTrailingEmpty(parts: seq<string>): seq<string> {
    if parts != [] && parts[|parts| - 1] == [] then DropTrailingEmpty(parts[..|parts| - 1]) else parts
  }

  // String.split with one character: without a match the string itself, and otherwise no
  // empty pieces at the end.
  function Split(s: string, sep: char): seq<string> {
    if sep !in s then [s] else DropTrailingEmpty(Pieces(s, sep))
  }

  lemma {:induction false} PiecesOfJoin(parts: seq<string>, sep: char)
    requires parts != [] && forall i :: 0 <= i < |parts| ==> sep !in parts[i]
    ensures Pieces(Join(parts, sep), sep) == parts
    ensures |parts| == 1 <==> sep !in Join(parts, sep)
    decreases |parts|
  {
    hide Pieces;
    hide Head;
    var first := parts[0];
    if |parts| > 1 {
      PiecesOfJoin(parts[1..], sep);
      JoinStep(parts, sep);
      PiecesStep(first, Join(parts[1..], sep), sep);
      hide Join;
      assert [first] + parts[1..] == parts;
    } else {
      assert parts == [first];
      OnePiece(first, sep);
    }
  }

  lemma OnePiece(s: string, sep: char)
    requires sep !in s
    ensures Pieces(s, sep) == [s]
  {
  }

  lemma JoinStep(parts: seq<string>, sep: char)
    requires |parts| > 1
    ensures Join(parts, sep) == parts[0] + [sep] + Join(parts[1..], sep)
    ensures sep in Join(parts, sep)
  {
    assert (parts[0] + [sep] + Join(parts[1..], sep))[|parts[0]|] == sep;
  }

  lemma PiecesStep(first: string, rest: string, sep: char)
    requires sep !in first
    ensures Pieces(first + [sep] + rest, sep) == [first] + Pieces(rest, sep)
  {
    HeadOf(first, rest, sep);
    assert (first + [sep] + rest)[|first| + 1..] == rest;
  }

  lemma {:induction false} HeadOf(first: string, rest: string, sep: char)
    requires sep !in first
    ensures Head(first + [sep] + rest, sep) == first
    decreases |first|
  {
    if first != [] {
      assert (first + [sep] + rest)[1..] == first[1..] + [sep] + rest;
      HeadOf(first[1..], rest, sep);
    }
  }

  /** Splitting a joined list gives it back exactly when it is not empty and does not end
      with an empty string, except that a single string always comes back. */
  lemma SplitOfJoin(parts: seq<string>, sep: char)
    requires parts != [] && forall i :: 0 <= i < |parts| ==> sep !in parts[i]
    ensures Split(Join(parts, sep), sep) == parts <==> |parts| == 1 || parts[|parts| - 1] != []
  {
    PiecesOfJoin(parts, sep);
    DropsSomething(parts);
  }

  lemma {:induction false} DropsSomething(parts: seq<string>)
    ensures |DropTrailingEmpty(parts)| <= |parts|
    ensures DropTrailingEmpty(parts) == parts <==> parts == [] || parts[|parts| - 1] != []
    decreases |parts|
  {
    if parts != [] && parts[|parts| - 1] == [] {
      DropsSomething(parts[..|parts| - 1]);
    }
  }

  // ---------------------------------------------------------------- the plugin

  datatype Configuration = Configuration(
    includePattern: seq<string>, excludePattern: seq<string>, debug: bool, experimentalCollections: bool,
    port: string, sessionsDir: string)

  function ToJavaAgentPattern(pattern: string): string {
    if |pattern| >= 2 && pattern[|pattern| - 2..] == ".*" then pattern[..|pattern| - 2] else pattern
  }

  function BytecodePackageFormat(pattern: string): (r: string)
    ensures |r| == |pattern|
    ensures forall i :: 0 <= i < |r| ==> r[i] == if pattern[i] == '.' then '/' else pattern[i]
  {
    seq(|pattern|, i requires 0 <= i < |pattern| => if pattern[i] == '.' then '/' else pattern[i])
  }

  // `a.b.*` and `a.b` both stand for what starts with `a/b`.
  function AgentPattern(pattern: string): string {
    BytecodePackageFormat(ToJavaAgentPattern(pattern))
  }

  function AgentPatterns(patterns: seq<string>): (r: seq<string>)
    ensures |r| == |patterns|
  {
    seq(|patterns|, i requires 0 <= i < |patterns| => AgentPattern(patterns[i]))
  }

  function OfBool(b: bool): string {
    if b then "true" else "false"
  }

  function Pairs(c: Configuration): seq<string> {
    ["include:" + Join(AgentPatterns(c.includePattern), '|'),
     "exclude:" + Join(AgentPatterns(c.excludePattern), '|'),
     "debug:" + OfBool(c.debug),
     "experimentalCollections:" + OfBool(c.experimentalCollections),
     "browserUrl:localhost:" + c.port,
     "sessionsDir:\"" + c.sessionsDir + "\""]
  }

  function JavaagentArguments(c: Configuration): string {
    var p := Pairs(c);
    p[0] + "," + (p[1] + "," + (p[2] + "," + (p[3] + "," + (p[4] + "," + p[5]))))
  }

  // ---------------------------------------------------------------- the agent

  // The key is what precedes the first colon; without a colon there is no value.
  function KeyOf(pair: string): string {
    Head(pair, ':')
  }

  function ValueOf(pair: string): Option<string> {
    if ':' in pair then Some(pair[|Head(pair, ':')| + 1..]) else None
  }

  function ArgumentsOf(pairs: seq<string>): map<string, Option<string>> {
    if pairs == [] then map[]
    else ArgumentsOf(pairs[..|pairs| - 1])[KeyOf(pairs[|pairs| - 1]) := ValueOf(pairs[|pairs| - 1])]
  }

  // Pair by pair, a later one replacing an earlier one of the same key.
  method ParseArguments(argumentString: Option<string>) returns (parsedArguments: map<string, Option<string>>)
    ensures parsedArguments == if argumentString.None? then map[] else ArgumentsOf(Split(argumentString.value, ','))
  {
    parsedArguments := map[];
    if argumentString.Some? {
      var args := Split(argumentString.value, ',');
      for k := 0 to |args|
        invariant parsedArguments == ArgumentsOf(args[..k])
      {
        assert args[..k + 1][..k] == args[..k];
        parsedArguments := parsedArguments[KeyOf(args[k]) := ValueOf(args[k])];
      }
      assert args[..|args|] == args;
    }
  }

  function ParseFilters(filters: string): seq<string> {
    if filters == [] then [] else Split(filters, '|')
  }

  datatype Options = Options(
    includes: seq<string>, excludes: seq<string>, debug: bool, captureCollections: bool,
    host: Option<string>, sessionsDirectory: Option<string>, testMode: bool)

  function Given(args: map<string, Option<string>>, key: string): Option<string> {
    if key in args then args[key] else None
  }

  // Boolean.valueOf: true in any case of letters.
  predicate IsTrue(s: string) {
    |s| == 4 && s[0] in "tT" && s[1] in "rR" && s[2] in "uU" && s[3] in "eE"
  }

  function OptionsOf(args: map<string, Option<string>>): Options {
    Options(
      if Given(args, "include").Some? then ParseFilters(Given(args, "include").value) else [],
      if Given(args, "exclude").Some? then ParseFilters(Given(args, "exclude").value) else [],
      Given(args, "debug").Some? && IsTrue(Given(args, "debug").value),
      Given(args, "experimentalCollections").Some? && IsTrue(Given(args, "experimentalCollections").value),
      Given(args, "browserUrl"), Given(args, "sessionsDir"),
      Given(args, "testMode").Some? && IsTrue(Given(args, "testMode").value))
  }

  // ---------------------------------------------------------------- the round trip

  predicate FreeOf(s: string, seps: string) {
    forall c :: c in seps ==> c !in s
  }

  predicate Separable(c: Configuration) {
    && (forall i :: 0 <= i < |c.includePattern| ==> FreeOf(c.includePattern[i], ",|"))
    && (forall i :: 0 <= i < |c.excludePattern| ==> FreeOf(c.excludePattern[i], ",|"))
    && FreeOf(c.port, ",") && FreeOf(c.sessionsDir, ",")
  }

  lemma AgentPatternsFree(patterns: seq<string>)
    requires forall i :: 0 <= i < |patterns| ==> FreeOf(patterns[i], ",|")
    ensures forall i :: 0 <= i < |patterns| ==> ',' !in AgentPatterns(patterns)[i] && '|' !in AgentPatterns(patterns)[i]
  {
    forall i | 0 <= i < |patterns|
      ensures ',' !in AgentPatterns(patterns)[i] && '|' !in AgentPatterns(patterns)[i]
    {
      var p := patterns[i];
      assert ',' in ",|" && '|' in ",|";
      var q := ToJavaAgentPattern(p);
      assert forall k :: 0 <= k < |q| ==> q[k] in p;
    }
  }

  lemma {:induction false} JoinFree(parts: seq<string>, sep: char, c: char)
    requires c != sep && forall i :: 0 <= i < |parts| ==> c !in parts[i]
    ensures c !in Join(parts, sep)
    decreases |parts|
  {
    if |parts| > 1 {
      JoinFree(parts[1..], sep, c);
    }
  }

  lemma SixJoined(p: seq<string>)
    requires |p| == 6
    ensures Join(p, ',') == p[0] + "," + (p[1] + "," + (p[2] + "," + (p[3] + "," + (p[4] + "," + p[5]))))
  {
    assert p[0..] == p && p[5..] == [p[5]];
    assert Join(p[5..], ',') == p[5];
    hide Join;
    forall k | 0 <= k < 5 ensures Join(p[k..], ',') == p[k] + "," + Join(p[k + 1..], ',') {
      assert p[k..][1..] == p[k + 1..];
      JoinStep(p[k..], ',');
    }
    assert Join(p[4..], ',') == p[4] + "," + p[5];
  }

  lemma FreeConcat(a: string, b: string, c: char)
    requires c !in a && c !in b
    ensures c !in a + b
  {
  }

  lemma PairsFree(c: Configuration)
    requires Separable(c)
    ensures forall i :: 0 <= i < 6 ==> ',' !in Pairs(c)[i]
  {
    var inc, exc := Join(AgentPatterns(c.includePattern), '|'), Join(AgentPatterns(c.excludePattern), '|');
    AgentPatternsFree(c.includePattern);
    AgentPatternsFree(c.excludePattern);
    JoinFree(AgentPatterns(c.includePattern), '|', ',');
    JoinFree(AgentPatterns(c.excludePattern), '|', ',');
    assert ',' in ",";
    var p := Pairs(c);
    hide *;
    FreeConcat("include:", inc, ',');
    FreeConcat("exclude:", exc, ',');
    FreeConcat("debug:", OfBool(c.debug), ',') by { BoolFree(c.debug); }
    FreeConcat("experimentalCollections:", OfBool(c.experimentalCollections), ',') by { BoolFree(c.experimentalCollections); }
    FreeConcat("browserUrl:localhost:", c.port, ',');
    FreeConcat("sessionsDir:\"", c.sessionsDir, ',');
    FreeConcat("sessionsDir:\"" + c.sessionsDir, "\"", ',');
  }

  lemma BoolFree(b: bool)
    ensures ',' !in OfBool(b)
  {
  }

  lemma PairsSplit(c: Configuration)
    requires Separable(c)
    ensures Split(JavaagentArguments(c), ',') == Pairs(c)
  {
    PairsFree(c);
    var p := Pairs(c);
    assert |p| == 6 && p[5] != [];
    assert JavaagentArguments(c) == p[0] + "," + (p[1] + "," + (p[2] + "," + (p[3] + "," + (p[4] + "," + p[5]))));
    hide *;
    SixJoined(p);
    SplitOfJoin(p, ',');
  }

  lemma KeyAndValue(key: string, value: string)
    requires ':' !in key
    ensures KeyOf(key + ":" + value) == key && ValueOf(key + ":" + value) == Some(value)
  {
    HeadOf(key, value, ':');
    assert (key + ":" + value)[|key|] == ':';
    assert (key + ":" + value)[|key| + 1..] == value;
  }

  // The options under which the agent starts.
  function Parsed(s: string): Options {
    OptionsOf(ArgumentsOf(Split(s, ',')))
  }

  function Values(c: Configuration): seq<string> {
    [Join(AgentPatterns(c.includePattern), '|'), Join(AgentPatterns(c.excludePattern), '|'), OfBool(c.debug),
     OfBool(c.experimentalCollections), "localhost:" + c.port, "\"" + c.sessionsDir + "\""]
  }

  const KEYS := ["include", "exclude", "debug", "experimentalCollections", "browserUrl", "sessionsDir"]

  lemma PairsRead(c: Configuration)
    ensures |Pairs(c)| == |KEYS| == |Values(c)| == 6
    ensures forall i :: 0 <= i < 6 ==> KeyOf(Pairs(c)[i]) == KEYS[i] && ValueOf(Pairs(c)[i]) == Some(Values(c)[i])
  {
    hide Join;
    hide OfBool;
    hide AgentPatterns;
    hide KeyOf;
    hide ValueOf;
    var p, v := Pairs(c), Values(c);
    forall i | 0 <= i < 6 ensures p[i] == KEYS[i] + ":" + v[i] && ':' !in KEYS[i] {}
    hide Pairs;
    hide Values;
    forall i | 0 <= i < 6 ensures KeyOf(p[i]) == KEYS[i] && ValueOf(p[i]) == Some(v[i]) {
      KeyAndValue(KEYS[i], v[i]);
    }
  }

  lemma ParsedValues(c: Configuration)
    requires Separable(c)
    ensures var args := ArgumentsOf(Pairs(c));
            && |Values(c)| == 6
            && (forall i :: 0 <= i < 6 ==> Given(args, KEYS[i]) == Some(Values(c)[i]))
            && Given(args, "testMode") == None
  {
    PairsRead(c);
    KeysDiffer(KEYS);
    hide *;
    AllGiven(Pairs(c), KEYS, Values(c));
  }

  lemma KeysDiffer(keys: seq<string>)
    requires keys == ["include", "exclude", "debug", "experimentalCollections", "browserUrl", "sessionsDir"]
    ensures forall i, j :: 0 <= i < j < 6 ==> keys[i] != keys[j]
    ensures "testMode" !in keys
  {
    assert keys[0][0] != keys[1][0];
  }

  // Every key is read with its value, and no other key.
  lemma {:induction false} AllGiven(pairs: seq<string>, keys: seq<string>, values: seq<string>)
    requires |pairs| == |keys| == |values|
    requires forall i :: 0 <= i < |pairs| ==> KeyOf(pairs[i]) == keys[i] && ValueOf(pairs[i]) == Some(values[i])
    requires forall i, j :: 0 <= i < j < |keys| ==> keys[i] != keys[j]
    ensures forall i :: 0 <= i < |keys| ==> Given(ArgumentsOf(pairs), keys[i]) == Some(values[i])
    ensures forall key :: key !in keys ==> Given(ArgumentsOf(pairs), key) == None
    decreases |pairs|
  {
    hide KeyOf;
    hide ValueOf;
    if pairs != [] {
      var n := |pairs| - 1;
      AllGiven(pairs[..n], keys[..n], values[..n]);
      assert forall key :: key in keys <==> key in keys[..n] || key == keys[n];
    }
  }

  // The last pattern is lost when nothing of it is left.
  predicate KeepsItsLast(patterns: seq<string>) {
    patterns == [] || (patterns[|patterns| - 1] != ".*" && patterns[|patterns| - 1] != [])
  }

  /** A list of patterns comes back, an empty list as empty, exactly when it does not end with
      the pattern `.*` or an empty one. */
  lemma FiltersExactly(patterns: seq<string>)
    requires forall i :: 0 <= i < |patterns| ==> FreeOf(patterns[i], ",|")
    ensures ParseFilters(Join(AgentPatterns(patterns), '|')) == AgentPatterns(patterns) <==> KeepsItsLast(patterns)
  {
    var mapped := AgentPatterns(patterns);
    AgentPatternsFree(patterns);
    if patterns != [] {
      PatternGone(patterns[|patterns| - 1]);
      assert mapped[|mapped| - 1] == AgentPattern(patterns[|patterns| - 1]);
      hide AgentPattern;
      hide AgentPatterns;
      if |mapped| > 1 {
        JoinStep(mapped, '|');
      } else {
        assert Join(mapped, '|') == mapped[0];
      }
      hide Join;
      hide Split;
      SplitOfJoin(mapped, '|');
    }
  }

  lemma PatternGone(pattern: string)
    ensures AgentPattern(pattern) == [] <==> pattern == [] || pattern == ".*"
  {
    if |pattern| == 2 {
      assert pattern[0..] == pattern;
    }
  }

  // What the agent makes of six given keys.
  lemma OptionsGiven(args: map<string, Option<string>>, v: seq<string>)
    requires |v| == 6 && (forall i :: 0 <= i < 6 ==> Given(args, KEYS[i]) == Some(v[i])) && Given(args, "testMode") == None
    ensures OptionsOf(args) == Options(ParseFilters(v[0]), ParseFilters(v[1]), IsTrue(v[2]), IsTrue(v[3]), Some(v[4]), Some(v[5]), false)
  {
    assert Given(args, KEYS[0]) == Some(v[0]) && Given(args, KEYS[1]) == Some(v[1]) && Given(args, KEYS[2]) == Some(v[2]);
    assert Given(args, KEYS[3]) == Some(v[3]) && Given(args, KEYS[4]) == Some(v[4]) && Given(args, KEYS[5]) == Some(v[5]);
    hide Given;
    hide ParseFilters;
    hide IsTrue;
  }

  lemma FlagRead(b: bool)
    ensures IsTrue(OfBool(b)) == b
  {
  }

  /** Every option printed by the plugin is read back by the agent: the flags, the host with
      its colon, the directory in its quotes, and the pattern lists under the condition above. */
  lemma ArgumentsRoundTrip(c: Configuration)
    requires Separable(c)
    ensures var o := Parsed(JavaagentArguments(c));
            && o.debug == c.debug && o.captureCollections == c.experimentalCollections && !o.testMode
            && o.host == Some("localhost:" + c.port) && o.sessionsDirectory == Some("\"" + c.sessionsDir + "\"")
            && (o.includes == AgentPatterns(c.includePattern) <==> KeepsItsLast(c.includePattern))
            && (o.excludes == AgentPatterns(c.excludePattern) <==> KeepsItsLast(c.excludePattern))
  {
    var v := Values(c);
    assert v == [Join(AgentPatterns(c.includePattern), '|'), Join(AgentPatterns(c.excludePattern), '|'), OfBool(c.debug),
                 OfBool(c.experimentalCollections), "localhost:" + c.port, "\"" + c.sessionsDir + "\""];
    assert Parsed(JavaagentArguments(c)) == OptionsOf(ArgumentsOf(Split(JavaagentArguments(c), ',')));
    FiltersExactly(c.includePattern);
    FiltersExactly(c.excludePattern);
    hide *;
    PairsSplit(c);
    ParsedValues(c);
    OptionsGiven(ArgumentsOf(Pairs(c)), v);
    FlagRead(c.debug);
    FlagRead(c.experimentalCollections);
  }

  // ---------------------------------------------------------------- what each pattern becomes

  // The pattern as the agent gets it: the prefix of a trailing `.*`, or all of it, with slashes
  // for dots.
  ghost predicate Reaches(pattern: string, given: string) {
    && (forall p: string :: pattern == p + ".*" ==> Slashed(p, given))
    && ((forall p: string :: pattern != p + ".*") ==> Slashed(pattern, given))
  }

  predicate Slashed(p: string, given: string) {
    |given| == |p| && forall i :: 0 <= i < |p| ==> given[i] == (if p[i] == '.' then '/' else p[i])
  }

  lemma PatternReaches(pattern: string)
    ensures Reaches(pattern, AgentPattern(pattern))
  {
    forall p: string | pattern == p + ".*" ensures Slashed(p, AgentPattern(pattern)) {
      assert pattern[|pattern| - 2..] == ".*" && pattern[..|pattern| - 2] == p;
    }
    if |pattern| >= 2 && pattern[|pattern| - 2..] == ".*" {
      assert pattern == pattern[..|pattern| - 2] + ".*";
    }
  }

  /** The agent filters by what the user configured: for each pattern that ends in `.*` by what
      precedes it, for every other by the whole pattern, with slashes for dots. */
  lemma PatternsReachTheAgent(c: Configuration)
    requires Separable(c)
    ensures var o := Parsed(JavaagentArguments(c));
            && (KeepsItsLast(c.includePattern) ==>
                  |o.includes| == |c.includePattern| && forall k :: 0 <= k < |o.includes| ==> Reaches(c.includePattern[k], o.includes[k]))
            && (KeepsItsLast(c.excludePattern) ==>
                  |o.excludes| == |c.excludePattern| && forall k :: 0 <= k < |o.excludes| ==> Reaches(c.excludePattern[k], o.excludes[k]))
  {
    ArgumentsRoundTrip(c);
    forall p: string ensures Reaches(p, AgentPattern(p)) {
      PatternReaches(p);
    }
    hide Parsed;
    hide JavaagentArguments;
    hide AgentPattern;
    hide Reaches;
  }

  /** What the plugin prints are six pairs with commas between them. */
  lemma PrintedExactly(c: Configuration)
    ensures exists i: seq<string>, e: seq<string> ::
              && |i| == |c.includePattern| && (forall k :: 0 <= k < |i| ==> Reaches(c.includePattern[k], i[k]))
              && |e| == |c.excludePattern| && (forall k :: 0 <= k < |e| ==> Reaches(c.excludePattern[k], e[k]))
              && JavaagentArguments(c) ==
                 Join(["include:" + Join(i, '|'), "exclude:" + Join(e, '|'),
                       "debug:" + (if c.debug then "true" else "false"),
                       "experimentalCollections:" + (if c.experimentalCollections then "true" else "false"),
                       "browserUrl:localhost:" + c.port, "sessionsDir:\"" + c.sessionsDir + "\""], ',')
  {
    var i, e := AgentPatterns(c.includePattern), AgentPatterns(c.excludePattern);
    forall p: string ensures Reaches(p, AgentPattern(p)) {
      PatternReaches(p);
    }
    assert forall k :: 0 <= k < |i| ==> i[k] == AgentPattern(c.includePattern[k]);
    assert forall k :: 0 <= k < |e| ==> e[k] == AgentPattern(c.excludePattern[k]);
    assert Pairs(c) == ["include:" + Join(i, '|'), "exclude:" + Join(e, '|'),
                        "debug:" + (if c.debug then "true" else "false"),
                        "experimentalCollections:" + (if c.experimentalCollections then "true" else "false"),
                        "browserUrl:localhost:" + c.port, "sessionsDir:\"" + c.sessionsDir + "\""];
    PrintedJoined(c);
    hide *;
  }

  lemma PrintedJoined(c: Configuration)
    ensures JavaagentArguments(c) == Join(Pairs(c), ',')
  {
    var p := Pairs(c);
    assert |p| == 6;
    assert JavaagentArguments(c) == p[0] + "," + (p[1] + "," + (p[2] + "," + (p[3] + "," + (p[4] + "," + p[5]))));
    hide *;
    SixJoined(p);
  }

  // ---------------------------------------------------------------- what the agent makes of any string

  /** A joined list is its strings with one separator between each two. */
  lemma {:induction false} JoinedExactly(parts: seq<string>, sep: char)
    ensures Join([], sep) == [] && (|parts| == 1 ==> Join(parts, sep) == parts[0])
    ensures |parts| > 1 ==> Join(parts, sep) == Join(parts[..|parts| - 1], sep) + [sep] + parts[|parts| - 1]
    decreases |parts|
  {
    if |parts| > 1 {
      var n := |parts| - 1;
      JoinStep(parts, sep);
      if n > 1 {
        JoinedExactly(parts[1..], sep);
        JoinStep(parts[..n], sep);
        assert parts[1..][..n - 1] == parts[..n][1..];
        hide Join;
        var a, m, z := parts[0], Join(parts[..n][1..], sep), parts[n];
        assert a + [sep] + (m + [sep] + z) == a + [sep] + m + [sep] + z;
      } else {
        assert parts[1..] == [parts[1]] && parts[..1] == [parts[0]];
      }
    }
  }

  // So many empty strings.
  function Empties(n: nat): (r: seq<string>)
    ensures |r| == n && forall s :: s in r ==> s == []
  {
    seq(n, _ => [])
  }

  lemma {:induction false} PiecesJoin(s: string, sep: char)
    ensures Pieces(s, sep) != [] && Join(Pieces(s, sep), sep) == s
    ensures forall i :: 0 <= i < |Pieces(s, sep)| ==> sep !in Pieces(s, sep)[i]
    decreases |s|
  {
    hide Head;
    var h := Head(s, sep);
    if |h| < |s| {
      var rest := s[|h| + 1..];
      PiecesJoin(rest, sep);
      JoinStep([h] + Pieces(rest, sep), sep);
      assert ([h] + Pieces(rest, sep))[1..] == Pieces(rest, sep);
      assert s == h + [sep] + rest;
    }
  }

  lemma {:induction false} DroppedExactly(parts: seq<string>)
    ensures var kept := DropTrailingEmpty(parts);
            && |kept| <= |parts| && parts == kept + Empties(|parts| - |kept|)
            && (kept == [] || kept[|kept| - 1] != [])
    decreases |parts|
  {
    if parts != [] && parts[|parts| - 1] == [] {
      var n := |parts| - 1;
      DroppedExactly(parts[..n]);
      var kept := DropTrailingEmpty(parts[..n]);
      assert Empties(n + 1 - |kept|) == Empties(n - |kept|) + [[]];
    }
  }

  // The pieces and so many empty ones join to the string.
  ghost predicate JoinsTo(parts: seq<string>, sep: char, s: string) {
    exists n: nat :: Join(parts + Empties(n), sep) == s
  }

  /** Splitting keeps every piece but the empty ones at the end: with these the pieces join to
      the string again, none of them holds the separator, and the last one is not empty. */
  lemma SplitExactly(s: string, sep: char)
    ensures sep !in s ==> Split(s, sep) == [s]
    ensures forall i :: 0 <= i < |Split(s, sep)| ==> sep !in Split(s, sep)[i]
    ensures sep in s ==>
              JoinsTo(Split(s, sep), sep, s) && (Split(s, sep) == [] || Split(s, sep)[|Split(s, sep)| - 1] != [])
  {
    if sep in s {
      var parts := Pieces(s, sep);
      hide *;
      PiecesJoin(s, sep);
      DroppedExactly(parts);
      SplitDrops(s, sep);
      var kept := Split(s, sep);
      FreePrefix(parts, kept, |parts| - |kept|, sep);
      JoinsWith(kept, |parts| - |kept|, sep, s);
    }
  }

  lemma SplitDrops(s: string, sep: char)
    requires sep in s
    ensures Split(s, sep) == DropTrailingEmpty(Pieces(s, sep))
  {
    hide DropTrailingEmpty;
    hide Pieces;
  }

  lemma FreePrefix(parts: seq<string>, kept: seq<string>, n: nat, sep: char)
    requires parts == kept + Empties(n) && forall i :: 0 <= i < |parts| ==> sep !in parts[i]
    ensures forall i :: 0 <= i < |kept| ==> sep !in kept[i]
  {
    hide Empties;
    assert forall i :: 0 <= i < |kept| ==> kept[i] == parts[i];
  }

  lemma JoinsWith(parts: seq<string>, n: nat, sep: char, s: string)
    requires Join(parts + Empties(n), sep) == s
    ensures JoinsTo(parts, sep, s)
  {
    hide Join;
  }

  // The pair gives the key this value: what follows the first colon, or nothing without one.
  ghost predicate Gives(pair: string, key: string, value: Option<string>) {
    ':' !in key && if value == None then pair == key else pair == key + ":" + value.value
  }

  lemma PairGives(pair: string, key: string, value: Option<string>)
    ensures Gives(pair, key, value) <==> KeyOf(pair) == key && ValueOf(pair) == value
  {
    var k := Head(pair, ':');
    hide Head;
    assert ':' in pair ==> pair == k + ":" + pair[|k| + 1..] && |k| < |pair|;
    assert ':' !in pair ==> pair == k;
    if Gives(pair, key, value) {
      if value.Some? { KeyAndValue(key, value.value); }
    }
  }

  // Pair k gives the key this value, and no pair behind it gives it any.
  ghost predicate LastGives(pairs: seq<string>, k: nat, key: string, value: Option<string>) {
    k < |pairs| && Gives(pairs[k], key, value) && forall j :: k < j < |pairs| ==> !GivesAny(pairs[j], key)
  }

  ghost predicate GivesAny(pair: string, key: string) {
    exists v :: Gives(pair, key, v)
  }

  /** A key stands for what the last pair with this key gives. */
  lemma {:induction false} LastPairCounts(pairs: seq<string>, key: string, value: Option<string>)
    ensures (key in ArgumentsOf(pairs) && ArgumentsOf(pairs)[key] == value) <==> exists k: nat :: LastGives(pairs, k, key, value)
    decreases |pairs|
  {
    if pairs != [] {
      var last := |pairs| - 1;
      var before := pairs[..last];
      LastPairCounts(before, key, value);
      LastPair(pairs[last], key, value);
      hide Gives;
      hide GivesAny;
      hide KeyOf;
      hide ValueOf;
      assert forall k :: 0 <= k < last ==> pairs[k] == before[k];
      assert Gives(pairs[last], key, value) ==> LastGives(pairs, last, key, value);
      assert forall k: nat :: k < last ==> (LastGives(pairs, k, key, value) <==> LastGives(before, k, key, value) && !GivesAny(pairs[last], key));
      assert LastGives(pairs, last, key, value) ==> Gives(pairs[last], key, value);
      hide LastGives;
      assert forall k: nat :: LastGives(before, k, key, value) ==> k < last by { OnlyPairs(before, key, value); }
      assert forall k: nat :: LastGives(pairs, k, key, value) ==> k <= last by { OnlyPairs(pairs, key, value); }
    }
  }

  lemma OnlyPairs(pairs: seq<string>, key: string, value: Option<string>)
    ensures forall k: nat :: LastGives(pairs, k, key, value) ==> k < |pairs|
  {
  }

  lemma LastPair(pair: string, key: string, value: Option<string>)
    ensures GivesAny(pair, key) <==> KeyOf(pair) == key
    ensures Gives(pair, key, value) <==> KeyOf(pair) == key && ValueOf(pair) == value
  {
    PairGives(pair, key, value);
    PairGives(pair, key, ValueOf(pair));
    if v :| Gives(pair, key, v) { PairGives(pair, key, v); }
    hide Gives;
    hide KeyOf;
    hide ValueOf;
  }

  function Lower(c: char): char {
    if 'A' <= c <= 'Z' then c + 32 as char else c
  }

  // In any case of letters.
  predicate SaysTrue(s: string) {
    |s| == 4 && [Lower(s[0]), Lower(s[1]), Lower(s[2]), Lower(s[3])] == "true"
  }

  lemma TrueExactly(s: string)
    ensures IsTrue(s) <==> SaysTrue(s)
  {
    if |s| == 4 {
      var l := [Lower(s[0]), Lower(s[1]), Lower(s[2]), Lower(s[3])];
      assert l == "true" <==> l[0] == 't' && l[1] == 'r' && l[2] == 'u' && l[3] == 'e';
    }
  }

  /** A flag is on exactly when its key has a value that says true, the lists are what their
      values split into, and a key without a value counts as missing. */
  lemma OptionsExactly(args: map<string, Option<string>>)
    ensures var o := OptionsOf(args);
            && (o.debug <==> "debug" in args && args["debug"].Some? && SaysTrue(args["debug"].value))
            && (o.captureCollections <==>
                  "experimentalCollections" in args && args["experimentalCollections"].Some? && SaysTrue(args["experimentalCollections"].value))
            && (o.testMode <==> "testMode" in args && args["testMode"].Some? && SaysTrue(args["testMode"].value))
            && o.host == (if "browserUrl" in args then args["browserUrl"] else None)
            && o.sessionsDirectory == (if "sessionsDir" in args then args["sessionsDir"] else None)
            && (if "include" in args && args["include"].Some? && args["include"] != Some("")
                then o.includes == Split(args["include"].value, '|') else o.includes == [])
            && (if "exclude" in args && args["exclude"].Some? && args["exclude"] != Some("")
                then o.excludes == Split(args["exclude"].value, '|') else o.excludes == [])
  {
    forall s ensures IsTrue(s) <==> SaysTrue(s) {
      TrueExactly(s);
    }
    hide IsTrue;
    hide SaysTrue;
    hide Split;
  }
}
