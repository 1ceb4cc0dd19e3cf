/** text_chunker.cpp: line splitting, the window loop and the chunk keys.

    `Windows` is the plan in unbounded integers; `Plan` is the loop of the source, with its 64-bit
    addition and its 32-bit line numbers, and equals it except where those limits bite. */
module TextChunker {
  import opened Base
  import Decimal
  import LexicalPath

  const LINE_LIMIT := 0x1_0000_0000

  datatype Options = Options(maxLines: u64, overlapLines: u64, maxBytes: u64, version: string)

  predicate ValidOptions(o: Options) {
    o.maxLines > 0 && o.overlapLines < o.maxLines && o.maxBytes > 0 && o.version != ""
  }

  // ---------------------------------------------------------------- sequences

  lemma {:induction false} Concatenated<T>(s: seq<T>, from: nat, mid: nat)
    requires from <= mid <= |s|
    ensures s[from..] == s[from..mid] + s[mid..]
  {
  }

  lemma {:induction false} ConsSlice<T>(s: seq<T>, from: nat, to: nat)
    requires from < to <= |s|
    ensures s[from..to] == [s[from]] + s[from + 1..to]
  {
  }

  lemma {:induction false} Regroup<T>(a: seq<T>, x: T, b: seq<T>)
    ensures a + ([x] + b) == (a + [x]) + b
    ensures a + [] == a && [] + b == b
  {
  }

  // ---------------------------------------------------------------- lines

  predicate OneLine(s: string) {
    '\n' !in s
  }

  /** text.find('\n', start), or the length when there is none. */
  function NewlineFrom(text: string, start: nat): (n: nat)
    requires start <= |text|
    ensures start <= n <= |text|
    decreases |text| - start
  {
    if start == |text| || text[start] == '\n' then start else NewlineFrom(text, start + 1)
  }

  /** The lines from a place on, before carriage returns are dropped. */
  function RawFrom(text: string, start: nat): seq<string>
    requires start <= |text|
    decreases |text| - start
  {
    if start == |text| then []
    else
      var n := NewlineFrom(text, start);
      if n == |text| then [text[start..n]] else [text[start..n]] + RawFrom(text, n + 1)
  }

  function Raw(text: string): seq<string> {
    RawFrom(text, 0)
  }

  function StripCr(line: string): string {
    if line != "" && line[|line| - 1] == '\r' then line[..|line| - 1] else line
  }

  function Stripped(raw: seq<string>): (lines: seq<string>)
    ensures |lines| == |raw|
  {
    seq(|raw|, i requires 0 <= i < |raw| => StripCr(raw[i]))
  }

  function Lines(text: string): seq<string> {
    Stripped(Raw(text))
  }

  /** Lines with their newlines put back; `closed` says whether the last one has one. */
  function Unsplit(raw: seq<string>, closed: bool): string {
    if raw == [] then ""
    else if |raw| == 1 then raw[0] + if closed then "\n" else ""
    else raw[0] + "\n" + Unsplit(raw[1..], closed)
  }

  predicate EndsWithNewline(text: string) {
    text != "" && text[|text| - 1] == '\n'
  }

  lemma {:induction false} LineFrom(text: string, start: nat)
    requires start <= |text|
    ensures var n := NewlineFrom(text, start); OneLine(text[start..n]) && (n < |text| ==> text[n] == '\n')
    decreases |text| - start
  {
    if start < |text| && text[start] != '\n' {
      LineFrom(text, start + 1);
      var n := NewlineFrom(text, start);
      assert text[start..n] == [text[start]] + text[start + 1..n];
    }
  }

  /** The search finds a given newline. */
  lemma {:induction false} NewlineIs(text: string, start: nat, n: nat)
    requires start <= n <= |text| && OneLine(text[start..n]) && (n < |text| ==> text[n] == '\n')
    ensures NewlineFrom(text, start) == n
    decreases n - start
  {
    if start < n {
      assert text[start..n] == [text[start]] + text[start + 1..n];
      NewlineIs(text, start + 1, n);
    }
  }

  /** Before the carriage returns are dropped, the lines are the text: putting the newlines back gives
      every byte again. */
  lemma {:induction false} RawRejoins(text: string)
    ensures Unsplit(Raw(text), EndsWithNewline(text)) == text
    ensures text != "" ==> Raw(text) != []
    ensures forall l :: l in Raw(text) ==> OneLine(l)
  {
    RejoinsFrom(text, 0);
    OneLinesFrom(text, 0);
    assert text[0..] == text;
  }

  lemma {:induction false} OneLinesFrom(text: string, start: nat)
    requires start <= |text|
    ensures forall l :: l in RawFrom(text, start) ==> OneLine(l)
    decreases |text| - start
  {
    if start < |text| {
      LineFrom(text, start);
      if NewlineFrom(text, start) < |text| { OneLinesFrom(text, NewlineFrom(text, start) + 1); }
    }
  }

  /** The lines, with their newlines put back, are the text from a place on; a function value, so that the
      induction carries it as one fact. */
  ghost function Rejoining(text: string): (nat, seq<string>) -> bool {
    (start: nat, raw: seq<string>) =>
      if start < |text| then raw != [] && Unsplit(raw, EndsWithNewline(text)) == text[start..]
      else raw == [] && start == |text|
  }

  lemma {:induction false} RejoinsFrom(text: string, start: nat)
    requires start <= |text|
    ensures Rejoining(text)(start, RawFrom(text, start))
    decreases |text| - start
  {
    if start < |text| {
      var n := NewlineFrom(text, start);
      LineFrom(text, start);
      if n == |text| {
        RejoinLast(text, start);
      } else {
        RejoinsFrom(text, n + 1);
        RejoinMore(text, start, n, RawFrom(text, n + 1));
      }
    }
  }

  lemma {:induction false} RejoinLast(text: string, start: nat)
    requires start < |text| && OneLine(text[start..|text|])
    ensures Rejoining(text)(start, [text[start..|text|]])
  {
    var line := text[start..|text|];
    assert !EndsWithNewline(text) by {
      assert line[|line| - 1] == text[|text| - 1] && line[|line| - 1] in line;
    }
    assert Unsplit([line], false) == line by { assert line + "" == line; }
    assert line == text[start..];
  }

  lemma {:induction false} RejoinMore(text: string, start: nat, n: nat, raw: seq<string>)
    requires start <= n < |text| && text[n] == '\n' && Rejoining(text)(n + 1, raw)
    ensures Rejoining(text)(start, [text[start..n]] + raw)
  {
    RejoinStep(text[start..n], raw, text[n + 1..], EndsWithNewline(text));
    CutAtNewline(text, start, n);
  }

  lemma {:induction false} CutAtNewline(text: string, start: nat, n: nat)
    requires start <= n < |text| && text[n] == '\n'
    ensures text[start..] == text[start..n] + "\n" + text[n + 1..]
  {
  }

  lemma {:induction false} RejoinStep(head: string, raw: seq<string>, rest: string, closed: bool)
    requires raw == [] ==> closed && rest == ""
    requires raw != [] ==> Unsplit(raw, closed) == rest
    ensures Unsplit([head] + raw, closed) == head + "\n" + rest
  {
    var all := [head] + raw;
    assert all[0] == head && all[1..] == raw;
    assert head + "\n" + "" == head + "\n";
  }

  /** Any list of lines comes back from its text, unless its last line is empty and unclosed. */
  lemma {:induction false} RawOfUnsplit(raw: seq<string>, closed: bool)
    requires raw != [] && (forall l :: l in raw ==> OneLine(l)) && (closed || raw[|raw| - 1] != "")
    ensures Raw(Unsplit(raw, closed)) == raw
  {
    assert "" + Unsplit(raw, closed) == Unsplit(raw, closed);
    FromUnsplit("", raw, closed, Unsplit(raw, closed));
  }

  lemma {:induction false} FromUnsplit(before: string, raw: seq<string>, closed: bool, text: string)
    requires raw != [] && (forall l :: l in raw ==> OneLine(l)) && (closed || raw[|raw| - 1] != "")
    requires text == before + Unsplit(raw, closed)
    ensures RawFrom(text, |before|) == raw
    decreases |raw|
  {
    var head, rest := raw[0], raw[1..];
    assert head in raw && forall l :: l in rest ==> l in raw;
    assert raw == [head] + rest;
    if rest != [] {
      LineInFront(before, head, Unsplit(rest, closed), text);
      FromUnsplit(before + head + "\n", rest, closed, text);
    } else if closed {
      assert head + "\n" + "" == head + "\n";
      LineInFront(before, head, "", text);
    } else {
      assert head + "" == head;
      LastLine(before, head);
    }
  }

  lemma {:induction false} LineInFront(before: string, head: string, tail: string, text: string)
    requires OneLine(head) && text == before + (head + "\n" + tail)
    ensures text == (before + head + "\n") + tail
    ensures RawFrom(text, |before|) == [head] + RawFrom(text, |before + head + "\n"|)
  {
    assert text[|before|..|before| + |head|] == head && text[|before| + |head|] == '\n';
    FirstLine(text, |before|, |before| + |head|);
  }

  lemma {:induction false} FirstLine(text: string, start: nat, n: nat)
    requires start <= n < |text| && OneLine(text[start..n]) && text[n] == '\n'
    ensures RawFrom(text, start) == [text[start..n]] + RawFrom(text, n + 1)
  {
    NewlineIs(text, start, n);
  }

  lemma {:induction false} LastLine(before: string, head: string)
    requires OneLine(head) && head != ""
    ensures RawFrom(before + head, |before|) == [head]
  {
    var text := before + head;
    assert text[|before|..|text|] == head;
    NewlineIs(text, |before|, |text|);
  }

  /** A line is what stands between the newlines, without one carriage return at its end if there is one. */
  lemma {:induction false} LinesMean(text: string, i: nat)
    requires i < |Lines(text)|
    ensures |Lines(text)| == |Raw(text)|
    ensures var raw, line := Raw(text)[i], Lines(text)[i];
            if raw != "" && raw[|raw| - 1] == '\r' then raw == line + "\r" else raw == line
  {
    var raw := Raw(text)[i];
    if raw != "" { assert raw == raw[..|raw| - 1] + [raw[|raw| - 1]]; }
  }

  lemma {:induction false} LinesAreOneLine(text: string)
    ensures forall i :: 0 <= i < |Lines(text)| ==> OneLine(Lines(text)[i])
  {
    RawRejoins(text);
    forall i | 0 <= i < |Lines(text)| ensures OneLine(Lines(text)[i]) {
      assert Raw(text)[i] in Raw(text);
      assert forall c :: c in StripCr(Raw(text)[i]) ==> c in Raw(text)[i];
    }
  }

  // ---------------------------------------------------------------- contents

  /** Lines start..end joined by newlines. */
  function Join(lines: seq<string>, start: nat, end: nat): string
    requires end <= |lines|
  {
    if end <= start then ""
    else if end == start + 1 then lines[start]
    else Join(lines, start, end - 1) + "\n" + lines[end - 1]
  }

  lemma {:induction false} Regrouped(a: string, b: string, c: string)
    ensures (a + "\n" + b) + "\n" + c == a + "\n" + (b + "\n" + c)
  {
  }

  lemma {:induction false} JoinFront(lines: seq<string>, start: nat, end: nat)
    requires start + 1 < end <= |lines|
    ensures Join(lines, start, end) == lines[start] + "\n" + Join(lines, start + 1, end)
    ensures |Join(lines, start, end)| > |Join(lines, start + 1, end)|
    decreases end
  {
    if end > start + 2 {
      JoinFront(lines, start, end - 1);
      Regrouped(lines[start], Join(lines, start + 1, end - 1), lines[end - 1]);
    }
  }

  /** Dropping leading lines does not make a content longer. */
  lemma {:induction false} JoinShrinks(lines: seq<string>, start: nat, later: nat, end: nat)
    requires start <= later < end <= |lines|
    ensures |Join(lines, later, end)| <= |Join(lines, start, end)|
    decreases later - start
  {
    if start < later {
      assert |Join(lines, start, end)| > |Join(lines, start + 1, end)| by { JoinFront(lines, start, end); }
      JoinShrinks(lines, start + 1, later, end);
    }
  }

  /** Splitting at every newline; the empty string is one empty line. */
  function SplitContent(content: string): (r: seq<string>)
    ensures r != []
    decreases |content|
  {
    var n := NewlineFrom(content, 0);
    if n == |content| then [content] else [content[..n]] + SplitContent(content[n + 1..])
  }

  lemma {:induction false} SplitStep(head: string, rest: string)
    requires OneLine(head)
    ensures SplitContent(head + "\n" + rest) == [head] + SplitContent(rest)
  {
    var content := head + "\n" + rest;
    assert content[0..|head|] == content[..|head|] == head && content[|head| + 1..] == rest;
    NewlineIs(content, 0, |head|);
  }

  lemma {:induction false} SplitOfJoin(lines: seq<string>, start: nat, end: nat)
    requires start < end <= |lines| && forall i :: 0 <= i < |lines| ==> OneLine(lines[i])
    ensures SplitContent(Join(lines, start, end)) == lines[start..end]
    decreases end - start
  {
    var head := lines[start];
    if end == start + 1 {
      assert head[0..|head|] == head;
      NewlineIs(head, 0, |head|);
      assert lines[start..end] == [head];
    } else {
      JoinFront(lines, start, end);
      SplitStep(head, Join(lines, start + 1, end));
      SplitOfJoin(lines, start + 1, end);
      ConsSlice(lines, start, end);
    }
  }

  // ---------------------------------------------------------------- windows

  datatype Window = Window(start: nat, end: nat)

  predicate Fits(lines: seq<string>, start: nat, end: nat, maxBytes: nat)
    requires end <= |lines|
  {
    |Join(lines, start, end)| <= maxBytes
  }

  /** The inner loop: give up lines at the end until the content fits or one line is left. */
  function Fit(lines: seq<string>, start: nat, end: nat, maxBytes: nat): (e: nat)
    requires end <= |lines|
    ensures e <= end && (start < end ==> start < e) && (end <= start ==> e == end)
    ensures start < e ==> e == start + 1 || Fits(lines, start, e, maxBytes)
    ensures forall m :: e < m <= end ==> !Fits(lines, start, m, maxBytes)
    decreases end
  {
    if end > start + 1 && !Fits(lines, start, end, maxBytes) then Fit(lines, start, end - 1, maxBytes) else end
  }

  function NextStart(start: nat, end: nat, overlap: nat): nat {
    var next := if end > overlap then end - overlap else end;
    if start + 1 >= next then start + 1 else next
  }

  function FirstWindow(lines: seq<string>, start: nat, o: Options): (w: Window)
    requires start < |lines| && ValidOptions(o)
    ensures w.start == start < w.end <= |lines|
  {
    Window(start, Fit(lines, start, Min(start + o.maxLines, |lines|), o.maxBytes))
  }

  function Windows(lines: seq<string>, start: nat, o: Options): (ws: seq<Window>)
    requires start < |lines| && ValidOptions(o)
    ensures ws != [] && ws[0] == FirstWindow(lines, start, o)
    decreases |lines| - start
  {
    var w := FirstWindow(lines, start, o);
    if w.end == |lines| then [w] else [w] + Windows(lines, NextStart(start, w.end, o.overlapLines), o)
  }

  /** A window within both limits, unless it is one line, and the longest such from its start. */
  predicate GoodWindow(w: Window, lines: seq<string>, o: Options) {
    && w.start < w.end <= |lines|
    && w.end - w.start <= o.maxLines
    && (|Join(lines, w.start, w.end)| <= o.maxBytes || w.end == w.start + 1)
    && (forall m :: w.end < m <= |lines| && m - w.start <= o.maxLines ==> |Join(lines, w.start, m)| > o.maxBytes)
  }

  /** Starts strictly increase, ends never decrease, and there is no gap. The overlap is overlap_lines when
      the window is longer than that, and all but its first line otherwise; but a window that ends within
      the first overlap_lines lines of the file is not overlapped at all. */
  predicate GoodStep(v: Window, w: Window, o: Options) {
    && v.start < w.start <= v.end <= w.end
    && (v.end - v.start > o.overlapLines ==> v.end - w.start == o.overlapLines)
    && (v.end <= o.overlapLines ==> w.start == v.end)
    && (v.end - v.start <= o.overlapLines < v.end ==> w.start == v.start + 1)
  }

  predicate GoodWindows(ws: seq<Window>, lines: seq<string>, start: nat, o: Options) {
    && ws != [] && ws[0].start == start && ws[|ws| - 1].end == |lines|
    && (forall i :: 0 <= i < |ws| ==> GoodWindow(ws[i], lines, o))
    && (forall i :: 0 <= i < |ws| - 1 ==> GoodStep(ws[i], ws[i + 1], o) && ws[i].end < |lines|)
  }

  lemma {:induction false} NextWindow(lines: seq<string>, start: nat, o: Options)
    requires start < |lines| && ValidOptions(o) && FirstWindow(lines, start, o).end < |lines|
    ensures var v := FirstWindow(lines, start, o);
            var next := NextStart(start, v.end, o.overlapLines);
            next < |lines| && GoodStep(v, FirstWindow(lines, next, o), o)
  {
    var v := FirstWindow(lines, start, o);
    var next := NextStart(start, v.end, o.overlapLines);
    if next < v.end {
      JoinShrinks(lines, start, next, v.end);
      assert Fits(lines, next, v.end, o.maxBytes);
    }
  }

  lemma {:induction false} FirstIsGood(lines: seq<string>, start: nat, o: Options)
    requires start < |lines| && ValidOptions(o)
    ensures GoodWindow(FirstWindow(lines, start, o), lines, o)
  {
    var w := FirstWindow(lines, start, o);
    forall m | w.end < m <= |lines| && m - start <= o.maxLines ensures |Join(lines, start, m)| > o.maxBytes {
      assert !Fits(lines, start, m, o.maxBytes);
    }
  }

  lemma {:induction false} FirstInFront(v: Window, rest: seq<Window>, lines: seq<string>, o: Options)
    requires rest != [] && GoodWindows(rest, lines, rest[0].start, o)
    requires GoodWindow(v, lines, o) && GoodStep(v, rest[0], o) && v.end < |lines|
    ensures GoodWindows([v] + rest, lines, v.start, o)
  {
    var ws := [v] + rest;
    assert forall i :: 0 < i < |ws| ==> ws[i] == rest[i - 1];
    forall i | 0 <= i < |ws| - 1 ensures GoodStep(ws[i], ws[i + 1], o) && ws[i].end < |lines| {
      if i > 0 { assert GoodStep(rest[i - 1], rest[i - 1 + 1], o); }
    }
  }

  /** For every text and valid options the windows are good. */
  lemma {:induction false} WindowsAreGood(lines: seq<string>, start: nat, o: Options)
    requires start < |lines| && ValidOptions(o)
    ensures GoodWindows(Windows(lines, start, o), lines, start, o)
    decreases |lines| - start
  {
    var v := FirstWindow(lines, start, o);
    FirstIsGood(lines, start, o);
    if v.end < |lines| {
      NextWindow(lines, start, o);
      var next := NextStart(start, v.end, o.overlapLines);
      WindowsAreGood(lines, next, o);
      FirstInFront(v, Windows(lines, next, o), lines, o);
    }
  }

  /** Nothing else is good: lines, options and start determine the windows. */
  lemma {:induction false} GoodWindowsAreUnique(ws: seq<Window>, others: seq<Window>, lines: seq<string>, start: nat,
                                                o: Options)
    requires GoodWindows(ws, lines, start, o) && GoodWindows(others, lines, start, o)
    ensures ws == others
    decreases |ws|
  {
    assert GoodWindow(ws[0], lines, o) && GoodWindow(others[0], lines, o);
    SameWindow(ws[0], others[0], lines, o);
    if |ws| > 1 && |others| > 1 {
      TailIsGood(ws, lines, start, o);
      TailIsGood(others, lines, start, o);
      GoodWindowsAreUnique(ws[1..], others[1..], lines, ws[1].start, o);
      assert ws == [ws[0]] + ws[1..] && others == [others[0]] + others[1..];
    }
  }

  /** From one start there is one longest window. */
  lemma {:induction false} SameWindow(v: Window, w: Window, lines: seq<string>, o: Options)
    requires GoodWindow(v, lines, o) && GoodWindow(w, lines, o) && v.start == w.start
    ensures v == w
  {
  }

  /** The overlap is not always there: a first window of two lines, cut short by the byte limit, is followed
      without overlap although two lines of overlap are asked for. */
  lemma {:induction false} NoOverlapExample()
    ensures var o := Options(3, 2, 3, "v1");
            ValidOptions(o) && Windows(["a", "b", "c", "d"], 0, o) == [Window(0, 2), Window(2, 4)]
  {
    var o, lines := Options(3, 2, 3, "v1"), ["a", "b", "c", "d"];
    var ws := [Window(0, 2), Window(2, 4)];
    assert Join(lines, 0, 2) == "a" + "\n" + "b";
    assert Join(lines, 0, 3) == "a" + "\n" + "b" + "\n" + "c";
    assert Join(lines, 2, 4) == "c" + "\n" + "d";
    assert GoodWindow(ws[0], lines, o) && GoodWindow(ws[1], lines, o) && GoodStep(ws[0], ws[1], o);
    WindowsAreGood(lines, 0, o);
    GoodWindowsAreUnique(Windows(lines, 0, o), ws, lines, 0, o);
  }

  lemma {:induction false} TailIsGood(ws: seq<Window>, lines: seq<string>, start: nat, o: Options)
    requires GoodWindows(ws, lines, start, o) && |ws| > 1
    ensures GoodWindows(ws[1..], lines, ws[1].start, o) && GoodStep(ws[0], ws[1], o) && ws[0].end < |lines|
  {
    assert forall i :: 0 <= i < |ws| - 1 ==> ws[1..][i] == ws[i + 1];
  }

  // ---------------------------------------------------------------- the source's integers

  /** line_number: one-based, or an exception. */
  predicate Numbered(zeroBased: int) {
    0 <= zeroBased < LINE_LIMIT - 1
  }

  /** 64-bit `end - 1`. */
  function Before64(end: nat): nat {
    if end == 0 then U64_MODULUS - 1 else end - 1
  }

  function Plan(lines: seq<string>, start: nat, o: Options): (r: Outcome<seq<Window>>)
    requires ValidOptions(o) && |lines| < U64_MODULUS
    decreases |lines| - start
  {
    if start >= |lines| then Returned([])
    else
      var end := Fit(lines, start, Min(Add64(start, o.maxLines), |lines|), o.maxBytes);
      if !Numbered(start) || !Numbered(Before64(end)) then Threw(InvalidArgument)
      else if end == |lines| then Returned([Window(start, end)])
      else
        Prepend(Window(start, end), Plan(lines, NextStart(start, end, o.overlapLines), o))
  }

  function Prepend(w: Window, r: Outcome<seq<Window>>): Outcome<seq<Window>> {
    match r
    case Threw(e) => Threw(e)
    case Returned(ws) => Returned([w] + ws)
  }

  predicate Wraps(w: Window, o: Options) {
    w.start + o.maxLines >= U64_MODULUS
  }

  predicate WithinLimits(lines: seq<string>, start: nat, o: Options)
    requires start < |lines| && ValidOptions(o)
  {
    |lines| < LINE_LIMIT && forall i :: 0 <= i < |Windows(lines, start, o)| ==> !Wraps(Windows(lines, start, o)[i], o)
  }

  ghost predicate Broken(r: Outcome<seq<Window>>) {
    r.Threw? || exists i :: 0 <= i < |r.value| && r.value[i].end < r.value[i].start
  }

  lemma {:induction false} StaysBroken(w: Window, r: Outcome<seq<Window>>)
    requires Broken(r)
    ensures Broken(Prepend(w, r))
  {
    if r.Returned? {
      var i :| 0 <= i < |r.value| && r.value[i].end < r.value[i].start;
      assert Prepend(w, r).value[i + 1] == r.value[i];
    }
  }

  /** One turn of the loop where the addition does not wrap. */
  lemma {:induction false} PlanStep(lines: seq<string>, start: nat, o: Options)
    requires ValidOptions(o) && start < |lines| < U64_MODULUS && start + o.maxLines < U64_MODULUS
    ensures var v := FirstWindow(lines, start, o);
            Plan(lines, start, o) ==
              if !Numbered(start) || !Numbered(v.end - 1) then Threw(InvalidArgument)
              else if v.end == |lines| then Returned([v])
              else Prepend(v, Plan(lines, NextStart(start, v.end, o.overlapLines), o))
  {
    assert Add64(start, o.maxLines) == start + o.maxLines;
    assert Before64(FirstWindow(lines, start, o).end) == FirstWindow(lines, start, o).end - 1;
  }

  lemma {:induction false} WrappedStart(lines: seq<string>, start: nat, o: Options)
    requires ValidOptions(o) && start < |lines| < U64_MODULUS && start + o.maxLines >= U64_MODULUS
    ensures Broken(Plan(lines, start, o))
  {
    var end := Fit(lines, start, Min(Add64(start, o.maxLines), |lines|), o.maxBytes);
    assert end < start;
    var r := Plan(lines, start, o);
    assert r.Returned? ==> r.value[0] == Window(start, end);
  }

  /** The source's loop makes the good windows exactly when the file has fewer than 2^32 lines and no
      window's start plus max_lines reaches 2^64; otherwise it throws or emits a window that ends
      before it starts. */
  lemma {:induction false} PlanExact(lines: seq<string>, start: nat, o: Options)
    requires ValidOptions(o) && start < |lines| < U64_MODULUS
    ensures if WithinLimits(lines, start, o) then Plan(lines, start, o) == Returned(Windows(lines, start, o))
            else Broken(Plan(lines, start, o))
    decreases |lines| - start
  {
    var v := FirstWindow(lines, start, o);
    if start + o.maxLines >= U64_MODULUS {
      assert Wraps(Windows(lines, start, o)[0], o);
      WrappedStart(lines, start, o);
    } else {
      PlanStep(lines, start, o);
      if v.end < |lines| {
        NextWindow(lines, start, o);
        var next := NextStart(start, v.end, o.overlapLines);
        PlanExact(lines, next, o);
        SameLimits(lines, start, o);
        if !WithinLimits(lines, next, o) { StaysBroken(v, Plan(lines, next, o)); }
      }
    }
  }

  /** The overlaps of whatever the loop with its 64-bit integers makes, within the limits or not. */
  lemma {:induction false} PlanOverlaps(lines: seq<string>, start: nat, o: Options, i: nat)
    requires ValidOptions(o) && |lines| < U64_MODULUS && Plan(lines, start, o).Returned?
    requires i + 1 < |Plan(lines, start, o).value|
    ensures var v, w := Plan(lines, start, o).value[i], Plan(lines, start, o).value[i + 1];
            && (v.end - v.start > o.overlapLines ==> v.end - w.start == o.overlapLines)
            && (v.start < v.end <= o.overlapLines ==> w.start == v.end)
            && (v.end <= v.start || v.end - v.start <= o.overlapLines < v.end ==> w.start == v.start + 1)
    decreases |lines| - start
  {
    var end := Fit(lines, start, Min(Add64(start, o.maxLines), |lines|), o.maxBytes);
    var next := NextStart(start, end, o.overlapLines);
    if i > 0 {
      PlanOverlaps(lines, next, o, i - 1);
    } else {
      PlanStartsAt(lines, next, o);
    }
  }

  lemma {:induction false} PlanStartsAt(lines: seq<string>, start: nat, o: Options)
    requires ValidOptions(o) && |lines| < U64_MODULUS && Plan(lines, start, o).Returned?
    requires Plan(lines, start, o).value != []
    ensures Plan(lines, start, o).value[0].start == start
  {
  }

  lemma {:induction false} SameLimits(lines: seq<string>, start: nat, o: Options)
    requires ValidOptions(o) && start < |lines| && start + o.maxLines < U64_MODULUS
    requires FirstWindow(lines, start, o).end < |lines|
    requires NextStart(start, FirstWindow(lines, start, o).end, o.overlapLines) < |lines|
    ensures WithinLimits(lines, start, o) <==>
            WithinLimits(lines, NextStart(start, FirstWindow(lines, start, o).end, o.overlapLines), o)
  {
    var v := FirstWindow(lines, start, o);
    var ws, rest := Windows(lines, start, o), Windows(lines, NextStart(start, v.end, o.overlapLines), o);
    assert ws == [v] + rest;
    assert forall i :: 0 <= i < |rest| ==> ws[i + 1] == rest[i];
    assert !Wraps(ws[0], o);
  }

  /** What a caller can look at beforehand: with max_lines up to 2^64 - 2^32, the limits are the 2^32 lines. */
  lemma {:induction false} LimitsInPractice(lines: seq<string>, start: nat, o: Options)
    requires ValidOptions(o) && start < |lines| && o.maxLines <= U64_MODULUS - LINE_LIMIT
    ensures WithinLimits(lines, start, o) <==> |lines| < LINE_LIMIT
  {
    WindowsAreGood(lines, start, o);
    var ws := Windows(lines, start, o);
    forall i | 0 <= i < |ws| && |lines| < LINE_LIMIT ensures !Wraps(ws[i], o) {
      assert GoodWindow(ws[i], lines, o);
    }
  }

  /** Valid options whose second window wraps: two one-byte lines, one byte a chunk, no line limit. */
  lemma {:induction false} WrapExample()
    ensures var o := Options(0xFFFF_FFFF_FFFF_FFFF, 0, 1, "v1");
            ValidOptions(o) && Plan(["a", "b"], 0, o) == Threw(InvalidArgument)
  {
    var o, lines := Options(0xFFFF_FFFF_FFFF_FFFF, 0, 1, "v1"), ["a", "b"];
    assert Join(lines, 0, 2) == "a" + "\n" + "b";
    assert Fit(lines, 0, 2, 1) == 1;
    assert Fit(lines, 1, 0, 1) == 0;
    assert Plan(lines, 1, o) == Threw(InvalidArgument);
  }

  // ---------------------------------------------------------------- chunks

  /** The key a chunk id is the hash of; contents enter by their hash. */
  function Key(path: string, w: Window, contentHash: string, version: string): string {
    Sep(path, Sep(Decimal.ToString(w.start + 1), Sep(Decimal.ToString(w.end), Sep(contentHash, version))))
  }

  function Sep(part: string, rest: string): string {
    part + "\0" + rest
  }

  /** Hash functions and language detection, all arbitrary. */
  datatype Host = Host(hash64: string -> u64, hashHex: string -> string, language: string -> string)

  function KeyOf(h: Host, path: string, lines: seq<string>, w: Window, o: Options): string
    requires w.end <= |lines|
  {
    Key(path, w, h.hashHex(Join(lines, w.start, w.end)), o.version)
  }

  function ChunkOf(h: Host, path: string, lines: seq<string>, w: Window, o: Options): (c: Chunk)
    requires w.end <= |lines|
  {
    var content := Join(lines, w.start, w.end);
    Chunk(h.hash64(KeyOf(h, path, lines, w, o)), w.start + 1, w.end, h.language(path), content, h.hashHex(content))
  }

  function ChunksOf(h: Host, path: string, lines: seq<string>, ws: seq<Window>, o: Options): (cs: seq<Chunk>)
    requires forall i :: 0 <= i < |ws| ==> ws[i].end <= |lines|
    ensures |cs| == |ws|
  {
    seq(|ws|, i requires 0 <= i < |ws| => ChunkOf(h, path, lines, ws[i], o))
  }

  /** What the fields of a chunk are, down to the text its id is the hash of. */
  lemma {:induction false} ChunkMeans(h: Host, path: string, lines: seq<string>, ws: seq<Window>, o: Options, i: nat)
    requires i < |ws| && forall j :: 0 <= j < |ws| ==> ws[j].start < ws[j].end <= |lines|
    requires forall j :: 0 <= j < |lines| ==> OneLine(lines[j])
    ensures var c, w := ChunksOf(h, path, lines, ws, o)[i], ws[i];
            && c.startLine == w.start + 1 && c.endLine == w.end && c.language == h.language(path)
            && SplitContent(c.content) == lines[w.start..w.end] && c.contentHash == h.hashHex(c.content)
            && c.id == h.hash64(path + "\0" + Decimal.ToString(c.startLine) + "\0" + Decimal.ToString(c.endLine)
                                + "\0" + c.contentHash + "\0" + o.version)
  {
    var w := ws[i];
    SplitOfJoin(lines, w.start, w.end);
    KeySpelled(path, Decimal.ToString(w.start + 1), Decimal.ToString(w.end),
               h.hashHex(Join(lines, w.start, w.end)), o.version);
  }

  lemma {:induction false} KeySpelled(path: string, start: string, end: string, contentHash: string, version: string)
    ensures Sep(path, Sep(start, Sep(end, Sep(contentHash, version))))
            == path + "\0" + start + "\0" + end + "\0" + contentHash + "\0" + version
  {
    var tail := contentHash + "\0" + version;
    assert path + "\0" + (start + "\0" + (end + "\0" + tail)) == path + "\0" + start + "\0" + end + "\0" + tail;
    assert path + "\0" + start + "\0" + end + "\0" + tail
           == path + "\0" + start + "\0" + end + "\0" + contentHash + "\0" + version;
  }

  /** The lines a list of chunks holds, read back from their contents and line numbers alone. */
  function Recovered(chunks: seq<Chunk>, from: nat): seq<string> {
    if chunks == [] then []
    else
      var c, own := chunks[0], SplitContent(chunks[0].content);
      var skip := from + 1 - c.startLine;
      if 0 <= skip <= |own| then own[skip..] + Recovered(chunks[1..], c.endLine) else []
  }

  lemma {:induction false} RecoveredFrom(h: Host, path: string, lines: seq<string>, ws: seq<Window>, start: nat,
                                         from: nat, o: Options)
    requires GoodWindows(ws, lines, start, o) && start <= from <= ws[0].end
    requires forall i :: 0 <= i < |lines| ==> OneLine(lines[i])
    ensures Recovered(ChunksOf(h, path, lines, ws, o), from) == lines[from..]
    decreases |ws|
  {
    var chunks, w := ChunksOf(h, path, lines, ws, o), ws[0];
    OwnLines(h, path, lines, w, from, o);
    ChunksOfTail(h, path, lines, ws, o);
    Concatenated(lines, from, w.end);
    if |ws| > 1 {
      TailIsGood(ws, lines, start, o);
      RecoveredFrom(h, path, lines, ws[1..], ws[1].start, w.end, o);
    }
    RecoveredSplit(chunks, from, lines[from..w.end], lines[w.end..]);
  }

  lemma {:induction false} RecoveredSplit(chunks: seq<Chunk>, from: nat, head: seq<string>, rest: seq<string>)
    requires chunks != [] && Recovered(chunks[1..], chunks[0].endLine) == rest
    requires var own, skip := SplitContent(chunks[0].content), from + 1 - chunks[0].startLine;
             0 <= skip <= |own| && own[skip..] == head
    ensures Recovered(chunks, from) == head + rest
  {
  }

  lemma {:induction false} OwnLines(h: Host, path: string, lines: seq<string>, w: Window, from: nat, o: Options)
    requires w.start <= from <= w.end <= |lines| && w.start < w.end
    requires forall i :: 0 <= i < |lines| ==> OneLine(lines[i])
    ensures var own := SplitContent(ChunkOf(h, path, lines, w, o).content);
            |own| == w.end - w.start && own[from - w.start..] == lines[from..w.end]
  {
    SplitOfJoin(lines, w.start, w.end);
    assert lines[w.start..w.end][from - w.start..] == lines[from..w.end];
  }

  lemma {:induction false} ChunksOfTail(h: Host, path: string, lines: seq<string>, ws: seq<Window>, o: Options)
    requires ws != [] && forall i :: 0 <= i < |ws| ==> ws[i].end <= |lines|
    ensures ChunksOf(h, path, lines, ws, o)[1..] == ChunksOf(h, path, lines, ws[1..], o)
  {
  }

  /** The chunks of a text, dropping the overlaps their line numbers show, are its lines again. */
  lemma {:induction false} ChunksRecoverLines(h: Host, path: string, text: string, o: Options)
    requires ValidOptions(o) && Lines(text) != []
    ensures var lines := Lines(text);
            var ws := Windows(lines, 0, o);
            && GoodWindows(ws, lines, 0, o)
            && Recovered(ChunksOf(h, path, lines, ws, o), 0) == lines
  {
    var lines := Lines(text);
    WindowsAreGood(lines, 0, o);
    LinesAreOneLine(text);
    RecoveredFrom(h, path, lines, Windows(lines, 0, o), 0, 0, o);
    assert lines[0..] == lines;
  }

  // ---------------------------------------------------------------- chunk keys

  predicate NulFree(s: string) {
    '\0' !in s
  }

  /** NUL-free parts can be cut off the front of a NUL-separated list. */
  lemma {:induction false} CutAtNul(a: string, x: string, b: string, y: string)
    requires NulFree(a) && NulFree(b) && Sep(a, x) == Sep(b, y)
    ensures a == b && x == y
    decreases |a|
  {
    var s := a + "\0" + x;
    assert s[|a|] == '\0' && s[|b|] == '\0';
    assert forall i :: 0 <= i < |a| ==> s[i] == a[i] && a[i] != '\0';
    assert forall i :: 0 <= i < |b| ==> s[i] == b[i] && b[i] != '\0';
    assert s[..|a|] == a && s[..|b|] == b;
    assert s[|a| + 1..] == x && s[|b| + 1..] == y;
  }

  lemma {:induction false} SameEnd(a: string, b: string, end: string)
    requires Sep(a, end) == Sep(b, end)
    ensures a == b
  {
    assert Sep(a, end)[..|a|] == a && Sep(b, end)[..|b|] == b;
  }

  /** A key determines the path, the line range and the content hash it was made from. */
  lemma {:induction false} KeyInjective(p: string, v: Window, hp: string, q: string, w: Window, hq: string,
                                        version: string)
    requires NulFree(p) && NulFree(q) && Key(p, v, hp, version) == Key(q, w, hq, version)
    ensures p == q && v == w && hp == hq
  {
    var ps, pe := Decimal.ToString(v.start + 1), Decimal.ToString(v.end);
    var qs, qe := Decimal.ToString(w.start + 1), Decimal.ToString(w.end);
    var p3, q3 := Sep(hp, version), Sep(hq, version);
    CutAtNul(p, Sep(ps, Sep(pe, p3)), q, Sep(qs, Sep(qe, q3)));
    CutAtNul(ps, Sep(pe, p3), qs, Sep(qe, q3));
    CutAtNul(pe, p3, qe, q3);
    SameEnd(hp, hq, version);
    Decimal.ToStringInjective(v.start + 1, w.start + 1);
    Decimal.ToStringInjective(v.end, w.end);
  }

  /** Distinct windows of one file, and windows of different files, have different keys; so chunk ids
      repeat only if the 64-bit hash collides on two keys that occur. */
  lemma {:induction false} KeysApart(h: Host, p: string, lines: seq<string>, v: Window,
                                     q: string, others: seq<string>, w: Window, o: Options)
    requires NulFree(p) && NulFree(q) && v.end <= |lines| && w.end <= |others| && (p != q || v != w)
    ensures KeyOf(h, p, lines, v, o) != KeyOf(h, q, others, w, o)
  {
    if KeyOf(h, p, lines, v, o) == KeyOf(h, q, others, w, o) {
      KeyInjective(p, v, h.hashHex(Join(lines, v.start, v.end)), q, w, h.hashHex(Join(others, w.start, w.end)),
          o.version);
    }
  }

  // ---------------------------------------------------------------- the loops

  /** What chunk_text returns for a path in normal form. */
  function Chunked(h: Host, path: string, text: string, o: Options): (r: Outcome<seq<Chunk>>)
    requires |text| < U64_MODULUS
  {
    var lines := Lines(text);
    if !ValidOptions(o) then Threw(InvalidArgument)
    else if lines == [] then Returned([])
    else if LexicalPath.Refused(path) then Threw(InvalidArgument)
    else
      RawIsShort(text);
      PlanEnds(lines, 0, o);
      Cut(h, path, lines, Plan(lines, 0, o), o)
  }

  /** The chunks of a plan. */
  function Cut(h: Host, path: string, lines: seq<string>, r: Outcome<seq<Window>>, o: Options): Outcome<seq<Chunk>>
    requires r.Returned? ==> forall i :: 0 <= i < |r.value| ==> r.value[i].end <= |lines|
  {
    match r
    case Threw(e) => Threw(e)
    case Returned(ws) => Returned(ChunksOf(h, path, lines, ws, o))
  }

  lemma {:induction false} RawIsShort(text: string)
    ensures |Raw(text)| <= |text|
  {
    RawFromIsShort(text, 0);
  }

  lemma {:induction false} RawFromIsShort(text: string, start: nat)
    requires start <= |text|
    ensures |RawFrom(text, start)| <= |text| - start
    decreases |text| - start
  {
    if start < |text| && NewlineFrom(text, start) < |text| {
      RawFromIsShort(text, NewlineFrom(text, start) + 1);
    }
  }

  lemma {:induction false} PlanEnds(lines: seq<string>, start: nat, o: Options)
    requires ValidOptions(o) && |lines| < U64_MODULUS
    ensures Plan(lines, start, o).Returned? ==>
              forall i :: 0 <= i < |Plan(lines, start, o).value| ==> Plan(lines, start, o).value[i].end <= |lines|
    decreases |lines| - start
  {
    if start < |lines| {
      var end := Fit(lines, start, Min(Add64(start, o.maxLines), |lines|), o.maxBytes);
      PlanEnds(lines, NextStart(start, end, o.overlapLines), o);
    }
  }

  /** Within the integer limits every text is cut into good windows, and nothing of it is lost: the
      chunks alone give its lines back. */
  lemma {:induction false} ChunkedRecovers(h: Host, path: string, text: string, o: Options)
    requires |text| < U64_MODULUS && ValidOptions(o) && !LexicalPath.Refused(path)
    requires Lines(text) != [] && WithinLimits(Lines(text), 0, o)
    ensures var lines, r := Lines(text), Chunked(h, path, text, o);
            var ws := Windows(lines, 0, o);
            && GoodWindows(ws, lines, 0, o)
            && r == Returned(ChunksOf(h, path, lines, ws, o))
            && Recovered(r.value, 0) == lines
  {
    RawIsShort(text);
    PlanExact(Lines(text), 0, o);
    ChunksRecoverLines(h, path, text, o);
  }

  method FindNewline(text: string, start: nat) returns (newline: nat)
    requires start <= |text|
    ensures newline == NewlineFrom(text, start)
  {
    newline := start;
    while newline < |text| && text[newline] != '\n'
      invariant start <= newline <= |text| && NewlineFrom(text, newline) == NewlineFrom(text, start)
    {
      newline := newline + 1;
    }
  }

  method SplitLines(text: string) returns (lines: seq<string>)
    ensures lines == Lines(text)
  {
    lines := [];
    var start := 0;
    ghost var done: seq<string> := [];
    while start < |text|
      invariant 0 <= start <= |text| && lines == Stripped(done)
      invariant done + RawFrom(text, start) == Raw(text)
    {
      var newline := FindNewline(text, start);
      var line := text[start..newline];
      StrippedOneMore(done, line);
      if newline < |text| { Regroup(done, line, RawFrom(text, newline + 1)); }
      done := done + [line];
      if line != "" && line[|line| - 1] == '\r' {
        line := line[..|line| - 1];
      }
      lines := lines + [line];
      if newline == |text| {
        return;
      }
      start := newline + 1;
    }
    assert done + [] == done;
  }

  lemma {:induction false} StrippedOneMore(raw: seq<string>, line: string)
    ensures Stripped(raw + [line]) == Stripped(raw) + [StripCr(line)]
  {
  }

  /** The size computed without building the content is the content's size. */
  method ContentSize(lines: seq<string>, start: nat, end: nat) returns (size: nat)
    requires end <= |lines|
    ensures size == |Join(lines, start, end)|
  {
    size := 0;
    var index := start;
    while index < end
      invariant start <= index && (start <= end ==> index <= end)
      invariant size == |Join(lines, start, Min(index, end))| + if start < index < end then 1 else 0
    {
      size := size + |lines[index]|;
      if index + 1 < end {
        size := size + 1;
      }
      index := index + 1;
    }
  }

  method JoinLines(lines: seq<string>, start: nat, end: nat) returns (content: string)
    requires end <= |lines|
    ensures content == Join(lines, start, end)
  {
    content := "";
    var index := start;
    while index < end
      invariant start <= index && (start <= end ==> index <= end)
      invariant content == Join(lines, start, Min(index, end))
    {
      if index != start {
        content := content + "\n";
      }
      content := content + lines[index];
      index := index + 1;
    }
  }

  method FitWindow(lines: seq<string>, start: nat, top: nat, maxBytes: nat) returns (end: nat)
    requires top <= |lines|
    ensures end == Fit(lines, start, top, maxBytes)
  {
    end := top;
    while end > start + 1
      invariant end <= top && Fit(lines, start, end, maxBytes) == Fit(lines, start, top, maxBytes)
      decreases end
    {
      var size := ContentSize(lines, start, end);
      if size <= maxBytes {
        break;
      }
      end := end - 1;
    }
  }

  method ChunkText(h: Host, path: string, text: string, o: Options) returns (r: Outcome<seq<Chunk>>)
    requires |text| < U64_MODULUS
    ensures r == Chunked(h, LexicalPath.Placed(path), text, o)
    ensures o.maxLines == 0 || o.overlapLines >= o.maxLines || o.maxBytes == 0 || o.version == "" ==>
              r == Threw(InvalidArgument)
    ensures 0 < o.maxLines && o.overlapLines < o.maxLines && 0 < o.maxBytes && o.version != "" ==>
              if text == "" then r == Returned([])
              else LexicalPath.Refused(LexicalPath.Placed(path)) ==> r == Threw(InvalidArgument)
  {
    if !ValidOptions(o) {
      return Threw(InvalidArgument);
    }
    var lines := SplitLines(text);
    RawRejoins(text);
    if lines == [] {
      return Returned([]);
    }
    var placed := LexicalPath.Placed(path);
    if LexicalPath.Refused(placed) {
      return Threw(InvalidArgument);
    }
    RawIsShort(text);
    r := ChunkLines(h, placed, lines, o);
  }

  method ChunkLines(h: Host, path: string, lines: seq<string>, o: Options) returns (r: Outcome<seq<Chunk>>)
    requires ValidOptions(o) && |lines| < U64_MODULUS
    ensures Plan(lines, 0, o).Returned? ==>
              forall i :: 0 <= i < |Plan(lines, 0, o).value| ==> Plan(lines, 0, o).value[i].end <= |lines|
    ensures r == Cut(h, path, lines, Plan(lines, 0, o), o)
  {
    PlanEnds(lines, 0, o);
    ghost var plan := Plan(lines, 0, o);
    ghost var windows: seq<Window> := [];
    ContinuedNothing(windows, plan);
    var chunks: seq<Chunk> := [];
    var start := 0;
    while start < |lines|
      invariant forall i :: 0 <= i < |windows| ==> windows[i].end <= |lines|
      invariant chunks == ChunksOf(h, path, lines, windows, o)
      invariant Continued(windows, Plan(lines, start, o)) == plan
      decreases |lines| - start
    {
      var end := FitWindow(lines, start, Min(Add64(start, o.maxLines), |lines|), o.maxBytes);
      if !Numbered(start) || !Numbered(Before64(end)) {
        return Threw(InvalidArgument);
      }
      var content := JoinLines(lines, start, end);
      var w := Window(start, end);
      var contentHash := h.hashHex(content);
      var id := h.hash64(Key(path, w, contentHash, o.version));
      var chunk := Chunk(id, start + 1, end, h.language(path), content, contentHash);
      assert chunk == ChunkOf(h, path, lines, w, o);
      ChunksOfMore(h, path, lines, windows, w, chunk, o);
      chunks := chunks + [chunk];
      ContinuedStep(windows, w, Plan(lines, NextStart(start, end, o.overlapLines), o));
      windows := windows + [w];
      if end == |lines| {
        return Returned(chunks);
      }
      start := NextStart(start, end, o.overlapLines);
    }
    ContinuedNothing(windows, plan);
    r := Returned(chunks);
  }

  lemma {:induction false} ChunksOfMore(h: Host, path: string, lines: seq<string>, ws: seq<Window>, w: Window,
                                        chunk: Chunk, o: Options)
    requires w.end <= |lines| && forall i :: 0 <= i < |ws| ==> ws[i].end <= |lines|
    requires chunk == ChunkOf(h, path, lines, w, o)
    ensures ChunksOf(h, path, lines, ws, o) + [chunk] == ChunksOf(h, path, lines, ws + [w], o)
  {
  }

  function Continued(done: seq<Window>, r: Outcome<seq<Window>>): Outcome<seq<Window>> {
    match r
    case Threw(e) => Threw(e)
    case Returned(ws) => Returned(done + ws)
  }

  lemma {:induction false} ContinuedStep(done: seq<Window>, w: Window, r: Outcome<seq<Window>>)
    ensures Continued(done, Prepend(w, r)) == Continued(done + [w], r)
  {
    if r.Returned? { Regroup(done, w, r.value); }
  }

  lemma {:induction false} ContinuedNothing(done: seq<Window>, r: Outcome<seq<Window>>)
    ensures Continued([], r) == r && Continued(done, Returned([])) == Returned(done)
  {
    assert done + [] == done;
    if r.Returned? { assert [] + r.value == r.value; }
  }
}
