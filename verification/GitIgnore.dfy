/** Ignore rules of file_scanner.cpp: the glob table, rule matching, and the cached verdict. */
module GitIgnore {
  import opened Base
  import LexicalPath
  import TextChunker

  // ---------------------------------------------------------------- what a glob means

  predicate TokenMatches(token: char, segment: string) {
    if token == '*' then true
    else if token == '?' then |segment| == 1
    else segment == [token]
  }

  function Joined(segments: seq<string>): string {
    if segments == [] then "" else Joined(segments[..|segments| - 1]) + segments[|segments| - 1]
  }

  /** The value cut into one segment for each token. */
  predicate Segments(pattern: string, value: string, segments: seq<string>) {
    && |segments| == |pattern|
    && Joined(segments) == value
    && forall i :: 0 <= i < |pattern| ==> TokenMatches(pattern[i], segments[i])
  }

  ghost predicate Matches(pattern: string, value: string) {
    exists segments :: Segments(pattern, value, segments)
  }

  lemma {:induction false} AddSegment(pattern: string, value: string, segments: seq<string>, token: char,
                                      segment: string)
    requires Segments(pattern, value, segments) && TokenMatches(token, segment)
    ensures Segments(pattern + [token], value + segment, segments + [segment])
  {
    var more := segments + [segment];
    assert more[..|more| - 1] == segments;
  }

  lemma {:induction false} DropSegment(pattern: string, value: string, segments: seq<string>)
    requires pattern != [] && Segments(pattern, value, segments)
    ensures var n := |pattern| - 1;
            && TokenMatches(pattern[n], segments[n])
            && Segments(pattern[..n], Joined(segments[..n]), segments[..n])
            && value == Joined(segments[..n]) + segments[n]
  {
  }

  // ---------------------------------------------------------------- the table

  /** Row p, column v: the first p tokens match the first v characters. */
  predicate Table(pattern: string, value: string, p: nat, v: nat)
    requires p <= |pattern| && v <= |value|
    decreases p, v
  {
    if p == 0 then v == 0
    else if pattern[p - 1] == '*' then Table(pattern, value, p - 1, v) || (v > 0 && Table(pattern, value, p, v - 1))
    else v > 0 && Table(pattern, value, p - 1, v - 1) && (pattern[p - 1] == '?' || pattern[p - 1] == value[v - 1])
  }

  lemma {:induction false} TableFindsSegments(pattern: string, value: string, p: nat, v: nat)
      returns (segments: seq<string>)
    requires p <= |pattern| && v <= |value| && Table(pattern, value, p, v)
    ensures Segments(pattern[..p], value[..v], segments)
    decreases p, v
  {
    if p == 0 {
      segments := [];
    } else {
      var token := pattern[p - 1];
      assert pattern[..p] == pattern[..p - 1] + [token];
      if token == '*' && Table(pattern, value, p - 1, v) {
        var before := TableFindsSegments(pattern, value, p - 1, v);
        AddSegment(pattern[..p - 1], value[..v], before, token, "");
        assert value[..v] + "" == value[..v];
        segments := before + [""];
      } else if token == '*' {
        var before := TableFindsSegments(pattern, value, p, v - 1);
        DropSegment(pattern[..p], value[..v - 1], before);
        var longer := before[p - 1] + [value[v - 1]];
        AddSegment(pattern[..p - 1], Joined(before[..p - 1]), before[..p - 1], token, longer);
        assert pattern[..p][..p - 1] == pattern[..p - 1];
        assert Joined(before[..p - 1]) + longer == value[..v - 1] + [value[v - 1]] == value[..v];
        segments := before[..p - 1] + [longer];
      } else {
        var before := TableFindsSegments(pattern, value, p - 1, v - 1);
        AddSegment(pattern[..p - 1], value[..v - 1], before, token, [value[v - 1]]);
        assert value[..v - 1] + [value[v - 1]] == value[..v];
        segments := before + [[value[v - 1]]];
      }
    }
  }

  lemma {:induction false} SegmentsFillTable(pattern: string, value: string, p: nat, v: nat, segments: seq<string>)
    requires p <= |pattern| && v <= |value| && Segments(pattern[..p], value[..v], segments)
    ensures Table(pattern, value, p, v)
    decreases p, v
  {
    if p > 0 {
      var init, last, token := segments[..p - 1], segments[p - 1], pattern[p - 1];
      DropSegment(pattern[..p], value[..v], segments);
      assert pattern[..p][..p - 1] == pattern[..p - 1] && pattern[..p][p - 1] == token;
      var cut := |Joined(init)|;
      assert value[..v][..cut] == Joined(init) && value[..v][..cut] == value[..cut];
      if last == "" {
        SegmentsFillTable(pattern, value, p - 1, v, init);
      } else if token == '*' {
        var shorter := last[..|last| - 1];
        AddSegment(pattern[..p - 1], Joined(init), init, token, shorter);
        assert pattern[..p] == pattern[..p - 1] + [token];
        assert Joined(init) + shorter == value[..v][..v - 1] == value[..v - 1];
        SegmentsFillTable(pattern, value, p, v - 1, init + [shorter]);
      } else {
        assert cut == v - 1 && value[..v][v - 1] == last[0];
        SegmentsFillTable(pattern, value, p - 1, v - 1, init);
      }
    }
  }

  /** The table decides the declarative meaning, for every pattern and value. */
  lemma {:induction false} TableIsMeaning(pattern: string, value: string)
    ensures Table(pattern, value, |pattern|, |value|) <==> Matches(pattern, value)
  {
    assert pattern[..|pattern|] == pattern && value[..|value|] == value;
    if Table(pattern, value, |pattern|, |value|) {
      var segments := TableFindsSegments(pattern, value, |pattern|, |value|);
    }
    if Matches(pattern, value) {
      var segments :| Segments(pattern, value, segments);
      SegmentsFillTable(pattern, value, |pattern|, |value|, segments);
    }
  }

  /** Row p of the table, as far as column v. */
  predicate RowIs(row: seq<bool>, pattern: string, value: string, p: nat, columns: nat)
    requires p <= |pattern| && columns <= |value| + 1 && |row| == |value| + 1
  {
    forall v :: 0 <= v < columns ==> row[v] == Table(pattern, value, p, v)
  }

  /** One turn of the outer loop: row p from row p - 1. */
  method NextRow(pattern: string, value: string, p: nat, previous: array<bool>, current: array<bool>)
    requires 0 < p <= |pattern| && previous != current
    requires previous.Length == |value| + 1 && current.Length == |value| + 1
    requires RowIs(previous[..], pattern, value, p - 1, |value| + 1)
    modifies current
    ensures RowIs(current[..], pattern, value, p, |value| + 1)
  {
    var token := pattern[p - 1];
    current[0] := token == '*' && previous[0];
    var index := 1;
    while index <= |value|
      invariant 1 <= index <= |value| + 1
      invariant RowIs(previous[..], pattern, value, p - 1, |value| + 1)
      invariant RowIs(current[..], pattern, value, p, index)
    {
      if token == '*' {
        current[index] := previous[index] || current[index - 1];
      } else if token == '?' {
        current[index] := previous[index - 1];
      } else {
        current[index] := previous[index - 1] && token == value[index - 1];
      }
      index := index + 1;
    }
  }

  /** glob_matches: two rows, swapped after every token. */
  method GlobMatches(pattern: string, value: string) returns (r: bool)
    ensures r <==> Matches(pattern, value)
  {
    var previous, current := new bool[|value| + 1](i => false), new bool[|value| + 1](i => false);
    previous[0] := true;
    var p := 0;
    while p < |pattern|
      invariant 0 <= p <= |pattern| && previous != current && fresh(previous) && fresh(current)
      invariant previous.Length == |value| + 1 && current.Length == |value| + 1
      invariant RowIs(previous[..], pattern, value, p, |value| + 1)
    {
      NextRow(pattern, value, p + 1, previous, current);
      previous, current := current, previous;
      p := p + 1;
    }
    r := previous[|value|];
    assert r == Table(pattern, value, |pattern|, |value|);
    TableIsMeaning(pattern, value);
  }

  // ---------------------------------------------------------------- rules

  /** The components of a normalized path. */
  type Path = seq<string>

  datatype Rule = Rule(pattern: string, negated: bool, directoryOnly: bool, containsSlash: bool)

  /** The components with slashes between them. */
  function PathText(path: Path): string {
    if path == [] then "" else LexicalPath.Joined(path)
  }

  /** The text of a path reads back as its components. */
  lemma {:induction false} PathTextReadsBack(path: Path)
    requires path != [] && LexicalPath.NoSlashes(path)
    ensures LexicalPath.Parts(PathText(path)) == path
  {
    LexicalPath.PartsOfJoined(path);
  }

  ghost predicate RuleMatches(rule: Rule, relative: Path) {
    if rule.directoryOnly then PathText(relative) == rule.pattern || rule.pattern + "/" <= PathText(relative)
    else if rule.containsSlash then Matches(rule.pattern, PathText(relative))
    else exists i :: 0 <= i < |relative| && Matches(rule.pattern, relative[i])
  }

  lemma {:induction false} TextOfMore(path: Path, rest: Path)
    requires path != [] && rest != []
    ensures PathText(path + rest) == PathText(path) + "/" + PathText(rest)
    decreases |path|
  {
    if |path| > 1 {
      TextOfMore(path[1..], rest);
      assert (path + rest)[1..] == path[1..] + rest;
      var head, middle, tail := path[0], PathText(path[1..]), PathText(rest);
      assert head + "/" + (middle + "/" + tail) == (head + "/" + middle) + "/" + tail;
    } else {
      assert (path + rest)[1..] == rest;
    }
  }

  lemma {:induction false} PartsOfMore(path: Path, tail: string)
    requires path != [] && LexicalPath.NoSlashes(path)
    ensures LexicalPath.Parts(PathText(path) + "/" + tail) == path + LexicalPath.Parts(tail)
    decreases |path|
  {
    assert path[0] in path;
    if |path| > 1 {
      assert forall part :: part in path[1..] ==> part in path;
      PartsOfMore(path[1..], tail);
      FirstOfText(path, tail);
      LexicalPath.PartsOfFirst(path[0], PathText(path[1..]) + "/" + tail);
      FirstBack(path, LexicalPath.Parts(tail));
    } else {
      LexicalPath.PartsOfFirst(path[0], tail);
      assert path == [path[0]];
    }
  }

  lemma {:induction false} FirstOfText(path: Path, tail: string)
    requires |path| > 1
    ensures PathText(path) + "/" + tail == path[0] + "/" + (PathText(path[1..]) + "/" + tail)
  {
  }

  lemma {:induction false} FirstBack<T>(s: seq<T>, rest: seq<T>)
    requires s != []
    ensures [s[0]] + (s[1..] + rest) == s + rest
  {
  }

  /** Text that begins with a path and a slash is that of a path below it. */
  lemma {:induction false} TextBelow(directory: Path, relative: Path)
    requires directory != [] && relative != [] && LexicalPath.NoSlashes(directory) && LexicalPath.NoSlashes(relative)
    requires PathText(directory) + "/" <= PathText(relative)
    ensures directory <= relative
  {
    var text, front := PathText(relative), PathText(directory) + "/";
    var tail := text[|front|..];
    assert text == front + tail;
    PartsOfMore(directory, tail);
    PathTextReadsBack(relative);
  }

  lemma {:induction false} BelowInText(directory: Path, relative: Path)
    requires directory != [] && directory < relative
    ensures PathText(directory) + "/" <= PathText(relative)
  {
    var rest := relative[|directory|..];
    TextOfMore(directory, rest);
    assert directory + rest == relative;
  }

  /** A directory rule matches what it names and everything below it: the paths that begin with its
      components. */
  lemma {:induction false} DirectoryRuleMeans(rule: Rule, directory: Path, relative: Path)
    requires rule.directoryOnly && rule.pattern == PathText(directory)
    requires directory != [] && relative != [] && LexicalPath.NoSlashes(directory) && LexicalPath.NoSlashes(relative)
    ensures RuleMatches(rule, relative) <==> directory <= relative
  {
    var text := PathText(relative);
    assert directory <= relative ==> directory < relative || directory == relative;
    if text == rule.pattern {
      PathTextReadsBack(directory);
      PathTextReadsBack(relative);
    } else if rule.pattern + "/" <= text {
      TextBelow(directory, relative);
    } else if directory < relative {
      BelowInText(directory, relative);
    }
  }

  method MatchesRule(rule: Rule, relative: Path) returns (r: bool)
    ensures r <==> RuleMatches(rule, relative)
  {
    var path := PathText(relative);
    if rule.directoryOnly {
      return path == rule.pattern || rule.pattern + "/" <= path;
    }
    if rule.containsSlash {
      r := GlobMatches(rule.pattern, path);
      return;
    }
    var i := 0;
    while i < |relative|
      invariant 0 <= i <= |relative| && forall j :: 0 <= j < i ==> !Matches(rule.pattern, relative[j])
    {
      var hit := GlobMatches(rule.pattern, relative[i]);
      if hit {
        return true;
      }
      i := i + 1;
    }
    r := false;
  }

  /** One line of an ignore file, its carriage return already dropped; None: the line is skipped. */
  function ParseLine(line: string): Option<Rule> {
    if line == "" || line[0] == '#' then None
    else
      var negated := line[0] == '!';
      var body := if negated then line[1..] else line;
      if body == "" then None
      else
        var rooted := if body[0] == '/' then body[1..] else body;
        if rooted == "" then None
        else
          var directoryOnly := rooted[|rooted| - 1] == '/';
          var pattern := if directoryOnly then rooted[..|rooted| - 1] else rooted;
          if pattern == "" then None else Some(Rule(pattern, negated, directoryOnly, '/' in pattern))
  }

  /** The rules a line can state. */
  predicate Expressible(rule: Rule) {
    && rule.pattern != "" && rule.containsSlash == ('/' in rule.pattern)
    && (rule.directoryOnly || rule.pattern[|rule.pattern| - 1] != '/')
  }

  /** A rule's pattern, with the closing slash of a directory rule. */
  function Body(rule: Rule): string {
    rule.pattern + if rule.directoryOnly then "/" else ""
  }

  /** The line that states the rule with a leading slash, and the one that does without. */
  function RootedLine(rule: Rule): string {
    (if rule.negated then "!" else "") + "/" + Body(rule)
  }

  function BareLine(rule: Rule): string {
    (if rule.negated then "!" else "") + Body(rule)
  }

  /** Without the leading slash the pattern must not begin with a character that is read otherwise. */
  predicate Plain(rule: Rule) {
    rule.pattern != "" && rule.pattern[0] != '/' && (rule.negated || (rule.pattern[0] != '#' && rule.pattern[0] != '!'))
  }

  lemma {:induction false} RootedIsRead(rule: Rule)
    requires Expressible(rule)
    ensures ParseLine(RootedLine(rule)) == Some(rule)
  {
    var line, text := RootedLine(rule), Body(rule);
    var body := if rule.negated then line[1..] else line;
    assert body == "/" + text && body[1..] == text;
    BodySplits(rule);
  }

  lemma {:induction false} BareIsRead(rule: Rule)
    requires Expressible(rule) && Plain(rule)
    ensures ParseLine(BareLine(rule)) == Some(rule)
  {
    var line, text := BareLine(rule), Body(rule);
    var body := if rule.negated then line[1..] else line;
    assert body == text && body[0] == rule.pattern[0];
    BodySplits(rule);
  }

  lemma {:induction false} BodySplits(rule: Rule)
    requires Expressible(rule)
    ensures var text := Body(rule);
            && text != "" && (text[|text| - 1] == '/' <==> rule.directoryOnly)
            && rule.pattern == if rule.directoryOnly then text[..|text| - 1] else text
  {
    if rule.directoryOnly { assert Body(rule)[..|Body(rule)| - 1] == rule.pattern; }
    else { assert Body(rule) == rule.pattern; }
  }

  /** What a line means: it states a rule exactly when it is one of that rule's two spellings. */
  lemma {:induction false} LineStatesRule(line: string, rule: Rule)
    ensures ParseLine(line) == Some(rule) <==>
            Expressible(rule) && (line == RootedLine(rule) || (line == BareLine(rule) && Plain(rule)))
  {
    if Expressible(rule) { RootedIsRead(rule); }
    if Expressible(rule) && Plain(rule) { BareIsRead(rule); }
    if ParseLine(line) == Some(rule) {
      ReadIsSpelling(line, rule);
    }
  }

  lemma {:induction false} ReadIsSpelling(line: string, rule: Rule)
    requires ParseLine(line) == Some(rule)
    ensures Expressible(rule) && (line == RootedLine(rule) || (line == BareLine(rule) && Plain(rule)))
  {
    var body := if rule.negated then line[1..] else line;
    var rooted := if body[0] == '/' then body[1..] else body;
    FirstAndRest(line);
    FirstAndRest(body);
    IsBody(rule, rooted);
    Spelled(rule, line, body, rooted);
  }

  lemma {:induction false} IsBody(rule: Rule, rooted: string)
    requires rooted != "" && rule.directoryOnly == (rooted[|rooted| - 1] == '/')
    requires rule.pattern == if rule.directoryOnly then rooted[..|rooted| - 1] else rooted
    ensures rooted == Body(rule) && (rule.pattern != "" ==> rooted[0] == rule.pattern[0])
  {
    LastAndRest(rooted);
    assert rule.pattern + "" == rule.pattern;
  }

  lemma {:induction false} FirstAndRest(s: string)
    requires s != ""
    ensures s == [s[0]] + s[1..]
  {
  }

  lemma {:induction false} LastAndRest(s: string)
    requires s != ""
    ensures s == s[..|s| - 1] + [s[|s| - 1]]
  {
  }

  lemma {:induction false} Spelled(rule: Rule, line: string, body: string, rooted: string)
    requires rooted == Body(rule)
    requires line == (if rule.negated then "!" + body else body)
    ensures body == "/" + rooted ==> line == RootedLine(rule)
    ensures body == rooted ==> line == BareLine(rule)
  {
    assert "" + "/" + rooted == "/" + rooted && "" + rooted == rooted;
    assert "!" + "/" + rooted == "!" + ("/" + rooted);
  }

  function ParseLines(lines: seq<string>): seq<Rule> {
    if lines == [] then []
    else
      var rest := ParseLines(lines[..|lines| - 1]);
      match ParseLine(lines[|lines| - 1])
      case None => rest
      case Some(rule) => rest + [rule]
  }

  /** The rules of an ignore file; a missing one reads as empty. */
  function Rules(text: string): seq<Rule> {
    ParseLines(TextChunker.Lines(text))
  }

  /** The rules are those the lines state, in the order of the lines; every other line states none. */
  lemma {:induction false} RulesInFileOrder(lines: seq<string>) returns (places: seq<nat>)
    ensures |places| == |ParseLines(lines)|
    ensures forall i, j :: 0 <= i < j < |places| ==> places[i] < places[j]
    ensures forall i :: 0 <= i < |places| ==>
              places[i] < |lines| && ParseLine(lines[places[i]]) == Some(ParseLines(lines)[i])
    ensures forall n :: 0 <= n < |lines| && n !in places ==> ParseLine(lines[n]) == None
    decreases |lines|
  {
    if lines == [] {
      places := [];
    } else {
      var init, n := lines[..|lines| - 1], |lines| - 1;
      var before := RulesInFileOrder(init);
      assert forall k :: 0 <= k < n ==> init[k] == lines[k];
      places := before + if ParseLine(lines[n]).None? then [] else [n];
      LineInOrder(lines, before, places);
      forall k | 0 <= k < |lines| && k !in places ensures ParseLine(lines[k]) == None {
        if k < n {
          assert k !in before && ParseLine(init[k]) == None;
        }
      }
    }
  }

  lemma {:induction false} LineInOrder(lines: seq<string>, before: seq<nat>, places: seq<nat>)
    requires lines != []
    requires var n := |lines| - 1;
             && |before| == |ParseLines(lines[..n])|
             && (forall i :: 0 <= i < |before| ==>
                   before[i] < n && ParseLine(lines[before[i]]) == Some(ParseLines(lines[..n])[i]))
             && places == before + if ParseLine(lines[n]).None? then [] else [n]
    ensures |places| == |ParseLines(lines)|
    ensures forall i :: 0 <= i < |places| ==>
              places[i] < |lines| && ParseLine(lines[places[i]]) == Some(ParseLines(lines)[i])
    ensures forall k :: k in before ==> k in places
    ensures ParseLine(lines[|lines| - 1]).Some? ==> |lines| - 1 in places
  {
    assert forall i :: 0 <= i < |before| ==> places[i] == before[i];
  }

  method ReadIgnoreFile(text: string) returns (rules: seq<Rule>)
    ensures rules == Rules(text)
  {
    var lines := TextChunker.SplitLines(text);
    rules := [];
    var i := 0;
    while i < |lines|
      invariant 0 <= i <= |lines| && rules == ParseLines(lines[..i])
    {
      var rule := EditLine(lines[i]);
      assert lines[..i + 1][..i] == lines[..i];
      if rule.Some? {
        rules := rules + [rule.value];
      }
      i := i + 1;
    }
    assert lines[..i] == lines;
  }

  /** The loop body: marks are erased from the line one after the other. */
  method EditLine(text: string) returns (r: Option<Rule>)
    ensures r == ParseLine(text)
  {
    var line := text;
    if line == "" || line[0] == '#' {
      return None;
    }
    var rule := Rule("", false, false, false);
    if line[0] == '!' {
      rule := rule.(negated := true);
      line := line[1..];
    }
    if line == "" {
      return None;
    }
    if line[0] == '/' {
      line := line[1..];
    }
    // The source looks at the last character here even if none is left.
    rule := rule.(directoryOnly := line != "" && line[|line| - 1] == '/');
    if rule.directoryOnly {
      line := line[..|line| - 1];
    }
    if line == "" {
      return None;
    }
    rule := rule.(containsSlash := '/' in line);
    rule := rule.(pattern := line);
    r := Some(rule);
  }

  // ---------------------------------------------------------------- the verdict

  /** A rule together with the path it is tried on. */
  datatype Trial = Trial(rule: Rule, relative: Path)

  function TrialsOf(rules: seq<Rule>, relative: Path): seq<Trial> {
    seq(|rules|, i requires 0 <= i < |rules| => Trial(rules[i], relative))
  }

  /** All rules that apply to root + rest, read from the root down to directory n, in file order. */
  function Trials(disk: Path -> string, root: Path, rest: Path, n: nat): seq<Trial>
    requires n <= |rest|
  {
    if n == 0 then []
    else Trials(disk, root, rest, n - 1) + TrialsOf(Rules(disk(root + rest[..n - 1])), rest[n - 1..])
  }

  /** The last matching rule decides, and no match means not ignored. */
  ghost predicate LastMatchIgnores(trials: seq<Trial>) {
    exists i :: 0 <= i < |trials| && RuleMatches(trials[i].rule, trials[i].relative) && !trials[i].rule.negated
                && forall j :: i < j < |trials| ==> !RuleMatches(trials[j].rule, trials[j].relative)
  }

  /** What the ignore files say about a candidate: nothing outside the root. */
  ghost predicate Ignored(disk: Path -> string, root: Path, candidate: Path) {
    root < candidate && LastMatchIgnores(Trials(disk, root, candidate[|root|..], |candidate| - |root|))
  }

  /** Rule r of the ignore file in the directory d components below the root matches the candidate, given by its
      components below the root, on what follows that directory. */
  ghost predicate MatchAt(disk: Path -> string, root: Path, rest: Path, d: nat, r: nat) {
    && d < |rest| && r < |Rules(disk(root + rest[..d]))|
    && RuleMatches(Rules(disk(root + rest[..d]))[r], rest[d..])
  }

  /** The same as a function value, so that proofs carry it as one fact. */
  ghost function Matching(disk: Path -> string, root: Path, rest: Path): (nat, nat) -> bool {
    (d: nat, r: nat) => MatchAt(disk, root, rest, d, r)
  }

  /** No rule matches that stands later in the same file or in one of the first n files further down. */
  ghost predicate LastMatch(matches: (nat, nat) -> bool, n: nat, d: nat, r: nat) {
    && d < n && matches(d, r)
    && (forall q: nat :: q > r ==> !matches(d, q))
    && (forall e: nat, q: nat :: d < e < n ==> !matches(e, q))
  }

  ghost predicate NegatedAt(disk: Path -> string, root: Path, rest: Path, d: nat, r: nat) {
    d < |rest| && r < |Rules(disk(root + rest[..d]))| && Rules(disk(root + rest[..d]))[r].negated
  }

  /** The verdict after the first n directories is that of a rule that matches last. */
  ghost predicate DecidedBelow(disk: Path -> string, root: Path, rest: Path, n: nat) {
    exists d: nat, r: nat :: LastMatch(Matching(disk, root, rest), n, d, r) && !NegatedAt(disk, root, rest, d, r)
  }

  /** Rules that do not match leave the verdict. */
  lemma {:induction false} AfterNone(rules: seq<Rule>, relative: Path, before: bool)
    requires forall r :: 0 <= r < |rules| ==> !RuleMatches(rules[r], relative)
    ensures After(rules, relative, before) == before
    decreases |rules|
  {
    if rules != [] { AfterNone(rules[..|rules| - 1], relative, before); }
  }

  /** The last one that matches decides. */
  lemma {:induction false} AfterLast(rules: seq<Rule>, relative: Path, before: bool, r: nat)
    requires r < |rules| && RuleMatches(rules[r], relative)
    requires forall q :: r < q < |rules| ==> !RuleMatches(rules[q], relative)
    ensures After(rules, relative, before) == !rules[r].negated
    decreases |rules|
  {
    if r < |rules| - 1 { AfterLast(rules[..|rules| - 1], relative, before, r); }
  }

  lemma {:induction false} LastOfMatching(rules: seq<Rule>, relative: Path, k: nat) returns (r: nat)
    requires k < |rules| && RuleMatches(rules[k], relative)
    ensures r < |rules| && RuleMatches(rules[r], relative)
    ensures forall q :: r < q < |rules| ==> !RuleMatches(rules[q], relative)
    decreases |rules| - k
  {
    if q :| k < q < |rules| && RuleMatches(rules[q], relative) {
      r := LastOfMatching(rules, relative, q);
    } else {
      r := k;
    }
  }

  lemma {:induction false} VerdictMeans(disk: Path -> string, root: Path, rest: Path, n: nat)
    requires n <= |rest|
    ensures VerdictAt(disk, root, rest, n) <==> DecidedBelow(disk, root, rest, n)
    decreases n
  {
    if n > 0 {
      var last: nat := n - 1;
      var rules, relative := Rules(disk(root + rest[..last])), rest[last..];
      VerdictMeans(disk, root, rest, last);
      if k :| 0 <= k < |rules| && RuleMatches(rules[k], relative) {
        var r := LastOfMatching(rules, relative, k);
        AfterLast(rules, relative, VerdictAt(disk, root, rest, last), r);
        DeepestDecides(disk, root, rest, last, r);
      } else {
        AfterNone(rules, relative, VerdictAt(disk, root, rest, last));
        NothingNew(disk, root, rest, last);
      }
    }
  }

  lemma {:induction false} DeepestDecides(disk: Path -> string, root: Path, rest: Path, last: nat, r: nat)
    requires last < |rest| && MatchAt(disk, root, rest, last, r)
    requires forall q: nat :: q > r ==> !MatchAt(disk, root, rest, last, q)
    ensures DecidedBelow(disk, root, rest, last + 1) <==> !NegatedAt(disk, root, rest, last, r)
  {
    var matches := Matching(disk, root, rest);
    assert matches(last, r) && forall q: nat :: q > r ==> !matches(last, q);
    OnlyLastMatch(matches, last, last + 1, r);
  }

  lemma {:induction false} OnlyLastMatch(matches: (nat, nat) -> bool, last: nat, n: nat, r: nat)
    requires n == last + 1 && matches(last, r) && forall q: nat :: q > r ==> !matches(last, q)
    ensures LastMatch(matches, n, last, r)
    ensures forall d: nat, q: nat :: LastMatch(matches, n, d, q) ==> d == last && q == r
  {
  }

  lemma {:induction false} NothingNew(disk: Path -> string, root: Path, rest: Path, last: nat)
    requires last < |rest| && forall q: nat :: !MatchAt(disk, root, rest, last, q)
    ensures DecidedBelow(disk, root, rest, last + 1) <==> DecidedBelow(disk, root, rest, last)
  {
    var matches := Matching(disk, root, rest);
    assert forall q: nat :: !matches(last, q);
    SameLastMatch(matches, last, last + 1);
  }

  lemma {:induction false} SameLastMatch(matches: (nat, nat) -> bool, last: nat, n: nat)
    requires n == last + 1 && forall q: nat :: !matches(last, q)
    ensures forall d: nat, q: nat :: LastMatch(matches, n, d, q) <==> LastMatch(matches, last, d, q)
  {
  }

  /** What being ignored means, rule by rule: some rule of some directory from the root down to the candidate's
      parent matches and is not negated, and no rule matches that stands later in its file or in a file
      further down. */
  lemma {:induction false} IgnoredMeans(disk: Path -> string, root: Path, candidate: Path)
    ensures Ignored(disk, root, candidate) <==>
            root < candidate && DecidedBelow(disk, root, candidate[|root|..], |candidate| - |root|)
  {
    if root < candidate {
      VerdictIsLastMatch(disk, root, candidate[|root|..], |candidate| - |root|);
      VerdictMeans(disk, root, candidate[|root|..], |candidate| - |root|);
    }
  }

  lemma {:induction false} OneMoreTrial(trials: seq<Trial>, trial: Trial)
    ensures LastMatchIgnores(trials + [trial]) <==>
            if RuleMatches(trial.rule, trial.relative) then !trial.rule.negated else LastMatchIgnores(trials)
  {
    var more := trials + [trial];
    assert forall i :: 0 <= i < |trials| ==> more[i] == trials[i];
    if RuleMatches(trial.rule, trial.relative) {
      assert more[|trials|] == trial;
    } else if LastMatchIgnores(trials) {
      var i :| 0 <= i < |trials| && RuleMatches(trials[i].rule, trials[i].relative) && !trials[i].rule.negated
               && forall j :: i < j < |trials| ==> !RuleMatches(trials[j].rule, trials[j].relative);
      assert more[i] == trials[i];
    }
  }

  /** The verdict after the rules of one directory, tried in file order. */
  ghost predicate After(rules: seq<Rule>, relative: Path, before: bool) {
    if rules == [] then before
    else
      var last := rules[|rules| - 1];
      if RuleMatches(last, relative) then !last.negated else After(rules[..|rules| - 1], relative, before)
  }

  /** The verdict after the first n directories. */
  ghost predicate VerdictAt(disk: Path -> string, root: Path, rest: Path, n: nat)
    requires n <= |rest|
  {
    n > 0 && After(Rules(disk(root + rest[..n - 1])), rest[n - 1..], VerdictAt(disk, root, rest, n - 1))
  }

  lemma {:induction false} AfterIsLastMatch(trials: seq<Trial>, rules: seq<Rule>, relative: Path)
    ensures After(rules, relative, LastMatchIgnores(trials))
            <==> LastMatchIgnores(trials + TrialsOf(rules, relative))
    decreases |rules|
  {
    if rules == [] {
      assert trials + TrialsOf(rules, relative) == trials;
    } else {
      var init, last := rules[..|rules| - 1], rules[|rules| - 1];
      AfterIsLastMatch(trials, init, relative);
      OneMoreTrial(trials + TrialsOf(init, relative), Trial(last, relative));
      assert trials + TrialsOf(rules, relative) == trials + TrialsOf(init, relative) + [Trial(last, relative)];
    }
  }

  lemma {:induction false} VerdictIsLastMatch(disk: Path -> string, root: Path, rest: Path, n: nat)
    requires n <= |rest|
    ensures VerdictAt(disk, root, rest, n) <==> LastMatchIgnores(Trials(disk, root, rest, n))
    decreases n
  {
    if n > 0 {
      VerdictIsLastMatch(disk, root, rest, n - 1);
      AfterIsLastMatch(Trials(disk, root, rest, n - 1), Rules(disk(root + rest[..n - 1])), rest[n - 1..]);
    }
  }

  class Matcher {
    const root: Path
    ghost const disk: Path -> string
    var cache: map<Path, seq<Rule>>

    /** Every cached list is what its file says. */
    ghost predicate Valid()
      reads this
    {
      forall directory :: directory in cache ==> cache[directory] == Rules(disk(directory))
    }

    constructor (root: Path, ghost disk: Path -> string)
      ensures Valid() && this.root == root && this.disk == disk && cache == map[]
    {
      this.root, this.disk, cache := root, disk, map[];
    }

    /** `text` is what reading the directory's ignore file gives at this moment. */
    method RulesFor(directory: Path, text: string) returns (rules: seq<Rule>)
      requires Valid() && text == disk(directory)
      modifies this
      ensures Valid() && rules == Rules(disk(directory))
      ensures cache == old(cache)[directory := rules]
    {
      if directory !in cache {
        rules := ReadIgnoreFile(text);
        cache := cache[directory := rules];
      } else {
        rules := cache[directory];
      }
    }

    /** The directories from the root to the candidate's parent. */
    method Directories(candidate: Path) returns (directories: seq<Path>)
      ensures |directories| == if root < candidate then |candidate| - |root| else 0
      ensures forall n :: 0 <= n < |directories| ==> directories[n] == candidate[..|root| + n]
    {
      directories := [];
      if candidate == [] {
        return;
      }
      var length := |candidate| - 1;
      while root <= candidate[..length]
        invariant 0 <= length < |candidate|
        invariant |directories| == |candidate| - 1 - length
        invariant forall n :: 0 <= n < |directories| ==> directories[n] == candidate[..length + 1 + n]
        invariant directories != [] ==> root <= candidate[..length]
        decreases length
      {
        directories := [candidate[..length]] + directories;
        if length == |root| {
          break;
        }
        length := length - 1;
      }
      assert candidate == candidate[..|candidate| - 1] + [candidate[|candidate| - 1]];
    }

    method Ignores(candidate: Path, read: Path -> string) returns (ignored: bool)
      requires Valid() && read == disk
      modifies this
      ensures Valid()
      ensures ignored <==> Ignored(disk, root, candidate)
    {
      var directories := Directories(candidate);
      ignored := false;
      if directories == [] {
        return;
      }
      ghost var rest := candidate[|root|..];
      var n := 0;
      while n < |directories|
        invariant 0 <= n <= |directories| && Valid()
        invariant ignored == VerdictAt(disk, root, rest, n)
      {
        var current := directories[n];
        var relative := candidate[|current|..];
        assert current == root + rest[..n] && relative == rest[n..];
        var rules := RulesFor(current, read(current));
        ignored := TryRules(rules, relative, ignored);
        n := n + 1;
      }
      VerdictIsLastMatch(disk, root, rest, n);
    }

    /** The inner loop over one directory's rules. */
    static method TryRules(rules: seq<Rule>, relative: Path, before: bool) returns (ignored: bool)
      ensures ignored == After(rules, relative, before)
    {
      ignored := before;
      var i := 0;
      while i < |rules|
        invariant 0 <= i <= |rules| && ignored == After(rules[..i], relative, before)
      {
        assert rules[..i + 1][..i] == rules[..i];
        var hit := MatchesRule(rules[i], relative);
        if hit {
          ignored := !rules[i].negated;
        }
        i := i + 1;
      }
      assert rules[..i] == rules;
    }
  }
}
