/** The lines a transaction log actually consists of, and how the keyword tests of `GetLogs`
    (internal/solana/utils.go) classify them.  From a forest of parsed invocations the log can be
    printed again, and parsing it returns the same forest. */
module RuntimeLog {
  import opened LogForest

  function InvokeLine(program: string, depth: string): string {
    "Program" + [' '] + (program + [' '] + ("invoke" + [' '] + depth))
  }

  function SuccessLine(program: string): string {
    "Program" + [' '] + (program + [' '] + "success")
  }

  function LogLine(text: string): string {
    "Program log:" + [' '] + text
  }

  function DataLine(text: string): string {
    "Program data:" + [' '] + text
  }

  /** Names that do not collide with the keywords; base58 program ids never hold a colon or a
      space. */
  predicate NameOk(program: string) {
    && program != ""
    && (forall c <- program :: !IsSpace(c) && c != ':')
    && !Contains(program, "invoke")
  }

  // ---------- occurrences of words ----------

  lemma ContainsAt(a: string, word: string, b: string)
    ensures Contains(a + (word + b), word)
  {
    assert StartsAt(a + (word + b), word, |a|);
  }

  /** An occurrence of a word without spaces lies on one side of any space. */
  lemma ContainsAroundSpace(a: string, b: string, word: string)
    requires word != [] && ' ' !in word
    ensures Contains(a + [' '] + b, word) <==> Contains(a, word) || Contains(b, word)
  {
    var line := a + [' '] + b;
    if Contains(line, word) {
      var i :| 0 <= i <= |line| - |word| && StartsAt(line, word, i);
      SideOfSpace(a, b, word, i);
    }
    if Contains(a, word) {
      ContainsLonger([], a, [' '] + b, word);
      assert [] + a + ([' '] + b) == line;
    }
    if Contains(b, word) {
      ContainsLonger(a + [' '], b, [], word);
      assert a + [' '] + b + [] == line;
    }
  }

  lemma ContainsLonger(before: string, line: string, after: string, word: string)
    requires Contains(line, word)
    ensures Contains(before + line + after, word)
  {
    var longer := before + line + after;
    var i :| 0 <= i <= |line| - |word| && StartsAt(line, word, i);
    var at := |before| + i;
    forall k | 0 <= k < |word| ensures longer[at + k] == word[k] {
      assert line[i..i + |word|][k] == word[k] && longer[at + k] == line[i + k];
    }
    assert longer[at..at + |word|] == word;
    assert StartsAt(longer, word, at);
  }

  lemma SideOfSpace(a: string, b: string, word: string, i: nat)
    requires word != [] && ' ' !in word
    requires i <= |a| + 1 + |b| - |word| && StartsAt(a + [' '] + b, word, i)
    ensures Contains(a, word) || Contains(b, word)
  {
    var line := a + [' '] + b;
    assert forall m :: i <= m < i + |word| ==> line[m] == word[m - i];
    assert line[|a|] == ' ';
    if i + |word| <= |a| {
      assert a[i..i + |word|] == word;
      assert StartsAt(a, word, i);
    } else {
      assert b[i - |a| - 1..i - |a| - 1 + |word|] == word;
      assert StartsAt(b, word, i - |a| - 1);
    }
  }

  lemma ContainedCharacters(line: string, word: string, c: char)
    requires Contains(line, word) && c in word
    ensures c in line
  {
    var i :| 0 <= i <= |line| - |word| && StartsAt(line, word, i);
    var k :| 0 <= k < |word| && word[k] == c;
    assert line[i..i + |word|][k] == c;
  }

  lemma LongerWord(line: string, word: string)
    requires |line| < |word|
    ensures !Contains(line, word)
  {
  }

  lemma OneLonger(line: string, word: string)
    requires |line| == |word| + 1 && |word| > 0 && line[0] != word[0] && line[1] != word[0]
    ensures !Contains(line, word)
  {
    forall i | 0 <= i <= 1 ensures !StartsAt(line, word, i) {
      assert line[i..i + |word|][0] == line[i];
    }
  }

  // ---------- fields ----------

  lemma {:induction false} FirstField(word: string, rest: string, read: string)
    requires forall c <- word :: !IsSpace(c)
    requires read + word != []
    ensures FieldsFrom(word + [' '] + rest, read) == [read + word] + FieldsFrom(rest, [])
    decreases |word|
  {
    var line := word + [' '] + rest;
    if word == [] {
      assert line[0] == ' ' && line[1..] == rest && read + word == read;
    } else {
      assert line[0] == word[0] && line[1..] == word[1..] + [' '] + rest;
      assert read + word == read + [word[0]] + word[1..];
      FirstField(word[1..], rest, read + [word[0]]);
    }
  }

  // ---------- how the lines are classified ----------

  /** An opening line is recognised whatever else it contains, and names its program. */
  lemma InvokeLineOpens(program: string, depth: string)
    requires program != "" && forall c <- program :: !IsSpace(c)
    ensures Opens(InvokeLine(program, depth)) && ProgramOf(InvokeLine(program, depth)) == program
  {
    var line, tail := InvokeLine(program, depth), "invoke" + [' '] + depth;
    ContainsAt("Program" + [' '] + program + [' '], "invoke", [' '] + depth);
    assert line == "Program" + [' '] + program + [' '] + ("invoke" + ([' '] + depth));
    FirstField("Program", program + [' '] + tail, []);
    FirstField(program, tail, []);
    assert [] + "Program" == "Program" && [] + program == program;
  }

  lemma SuccessLineCloses(program: string)
    requires NameOk(program)
    ensures Classify(SuccessLine(program)).Succeed?
  {
    var line := SuccessLine(program);
    ContainsAroundSpace("Program", program + [' '] + "success", "invoke");
    ContainsAroundSpace(program, "success", "invoke");
    OneLonger("Program", "invoke");
    OneLonger("success", "invoke");
    assert ':' !in line;
    if Contains(line, "Program log:") {
      assert "Program log:"[11] == ':';
      ContainedCharacters(line, "Program log:", ':');
    }
    if Contains(line, "Program data:") {
      assert "Program data:"[12] == ':';
      ContainedCharacters(line, "Program data:", ':');
    }
    ContainsAt("Program" + [' '] + program + [' '], "success", []);
    assert line == "Program" + [' '] + program + [' '] + ("success" + []);
  }

  /** A log line is attached unless its text collides with the keyword for an invocation. */
  lemma LogLineAttaches(text: string)
    ensures Classify(LogLine(text)).Attach? <==> !Contains(text, "invoke")
  {
    var line := LogLine(text);
    ContainsAroundSpace("Program log:", text, "invoke");
    ContainsAroundSpace("Program", "log:", "invoke");
    assert "Program log:" == "Program" + [' '] + "log:";
    OneLonger("Program", "invoke");
    LongerWord("log:", "invoke");
    ContainsAt([], "Program log:", [' '] + text);
    assert [] + ("Program log:" + ([' '] + text)) == line;
  }

  /** So is a line of emitted data. */
  lemma DataLineAttaches(text: string)
    ensures Classify(DataLine(text)).Attach? <==> !Contains(text, "invoke")
  {
    var line := DataLine(text);
    ContainsAroundSpace("Program data:", text, "invoke");
    ContainsAroundSpace("Program", "data:", "invoke");
    assert "Program data:" == "Program" + [' '] + "data:";
    OneLonger("Program", "invoke");
    LongerWord("data:", "invoke");
    ContainsAt([], "Program data:", [' '] + text);
    assert [] + ("Program data:" + ([' '] + text)) == line;
  }

  // ---------- printing a parsed forest ----------

  predicate Printable(details: seq<LogDetails>) {
    forall d <- details :: PrintableNode(d)
  }

  predicate PrintableNode(d: LogDetails) {
    && NameOk(d.program)
    && (forall line <- d.logs :: Classify(line).Attach?)
    && (forall s <- d.subLogs :: PrintableNode(s))
  }

  function Lines(logs: seq<string>): seq<Item> {
    if logs == [] then [] else [Line(logs[0])] + Lines(logs[1..])
  }

  function Level(depth: nat): string { "[" + Decimal(depth) + "]" }

  function Decimal(n: nat): string {
    (if n < 10 then [] else Decimal(n / 10)) + ["0123456789"[n % 10]]
  }

  /** The calls of a forest at a nesting depth, each printing its own lines first and then its sub-invocations. */
  function Calls(details: seq<LogDetails>, depth: nat): seq<Item> {
    if details == [] then [] else [CallOf(details[0], depth)] + Calls(details[1..], depth)
  }

  function CallOf(d: LogDetails, depth: nat): Item {
    Call(InvokeLine(d.program, Level(depth)), Lines(d.logs) + Calls(d.subLogs, depth + 1), SuccessLine(d.program))
  }

  lemma {:induction false} LinesFacts(logs: seq<string>, calls: seq<Item>)
    requires forall line <- logs :: Classify(line).Attach?
    requires WellFormed(calls) && Attached(calls) == []
    ensures WellFormed(Lines(logs) + calls)
    ensures Attached(Lines(logs) + calls) == logs && Tree(Lines(logs) + calls) == Tree(calls)
    decreases |logs|
  {
    if logs == [] {
      assert Lines(logs) + calls == calls;
    } else {
      var rest := Lines(logs[1..]) + calls;
      LinesFacts(logs[1..], calls);
      assert Lines(logs) + calls == [Line(logs[0])] + rest;
      LineFirst(logs[0], rest);
      assert [logs[0]] + logs[1..] == logs;
    }
  }

  lemma LineFirst(text: string, rest: seq<Item>)
    requires Classify(text).Attach? && WellFormed(rest)
    ensures WellFormed([Line(text)] + rest)
    ensures Attached([Line(text)] + rest) == [text] + Attached(rest) && Tree([Line(text)] + rest) == Tree(rest)
  {
    assert ([Line(text)] + rest)[1..] == rest;
    assert WellFormedItem(Line(text));
  }

  lemma {:induction false} CallsFacts(details: seq<LogDetails>, depth: nat)
    requires Printable(details)
    ensures WellFormed(Calls(details, depth)) && Attached(Calls(details, depth)) == []
    ensures Tree(Calls(details, depth)) == details
    decreases details
  {
    if details != [] {
      var d, calls := details[0], Calls(details, depth);
      assert PrintableNode(d) && Printable(details[1..]);
      CallOfFacts(d, depth);
      CallsFacts(details[1..], depth);
      assert calls[0] == CallOf(d, depth) && calls[1..] == Calls(details[1..], depth);
      assert WellFormed(calls);
      assert Attached(calls) == Attached(calls[1..]);
      assert Tree(calls) == [d] + details[1..] == details;
    }
  }

  lemma {:induction false} CallOfFacts(d: LogDetails, depth: nat)
    requires PrintableNode(d)
    ensures WellFormedItem(CallOf(d, depth)) && Node(CallOf(d, depth)) == d
    decreases d
  {
    assert Printable(d.subLogs);
    InvokeLineOpens(d.program, Level(depth));
    SuccessLineCloses(d.program);
    CallsFacts(d.subLogs, depth + 1);
    LinesFacts(d.logs, Calls(d.subLogs, depth + 1));
  }

  /** The round trip: parsing the printed log of a forest returns that forest. */
  lemma ParseInvertsPrint(details: seq<LogDetails>, depth: nat)
    requires Printable(details)
    ensures Finish(Run(START, Print(Calls(details, depth)))) == Forest(details)
  {
    CallsFacts(details, depth);
    ParsePrint(Calls(details, depth));
  }
}
