/** The invocation-log parser `GetLogs` of internal/solana/utils.go and the two walkers over the
    forest it builds.

    A transaction log is a flat list of lines: a program is invoked, writes lines, invokes other
    programs and succeeds.  The parser is a stack machine over these lines.  A log is *balanced*
    when it is the printed form of a list of invocations; the printer is the parser's inverse. */
module LogForest {

  datatype LogDetails = LogDetails(program: string, logs: seq<string>, subLogs: seq<LogDetails>)

  /** Slicing an empty list of fields is a run-time panic in the original. */
  datatype Parsed = Panic | Forest(details: seq<LogDetails>)

  // ---------- lines ----------

  predicate Contains(line: string, word: string) {
    exists i :: 0 <= i <= |line| - |word| && StartsAt(line, word, i)
  }

  predicate StartsAt(line: string, word: string, i: nat)
    requires i <= |line| - |word|
  {
    line[i..i + |word|] == word
  }

  /** The white space of Unicode, which separates fields. */
  predicate IsSpace(c: char) {
    || '\U{0009}' <= c <= '\U{000D}' || c == ' ' || c == '\U{0085}' || c == '\U{00A0}' || c == '\U{1680}'
    || '\U{2000}' <= c <= '\U{200A}' || c == '\U{2028}' || c == '\U{2029}' || c == '\U{202F}'
    || c == '\U{205F}' || c == '\U{3000}'
  }

  /** Maximal runs of non-space characters; `word` is the run being read. */
  function FieldsFrom(line: string, word: string): seq<string>
    decreases |line|
  {
    if line == [] then (if word == [] then [] else [word])
    else if IsSpace(line[0]) then
      (if word == [] then [] else [word]) + FieldsFrom(line[1..], [])
    else FieldsFrom(line[1..], word + [line[0]])
  }

  function Fields(line: string): seq<string> { FieldsFrom(line, []) }

  datatype Event = Invoke(fields: seq<string>) | Attach | Succeed | Ignore

  /** The tests in the order the parser makes them. */
  function Classify(line: string): Event {
    if Contains(line, "invoke") then Invoke(Fields(line))
    else if Contains(line, "Program log:") || Contains(line, "Program data:") then Attach
    else if Contains(line, "success") then Succeed
    else Ignore
  }

  // ---------- the machine ----------

  datatype Machine = Machine(details: seq<LogDetails>, current: LogDetails, stack: seq<LogDetails>, ok: bool)

  const NO_FRAME := LogDetails("", [], [])

  const START := Machine([], NO_FRAME, [], true)

  function Step(m: Machine, line: string): Machine {
    if !m.ok then m else
    match Classify(line)
    case Invoke(fields) =>
      if |fields| < 2 then m.(ok := false)
      else m.(stack := if m.current.program != "" then m.stack + [m.current] else m.stack,
              current := LogDetails(fields[1], [], []))
    case Attach => m.(current := m.current.(logs := m.current.logs + [line]))
    case Succeed =>
      if m.stack != [] then
        var parent := m.stack[|m.stack| - 1];
        m.(stack := m.stack[..|m.stack| - 1],
           current := parent.(subLogs := parent.subLogs + [m.current]))
      else m.(details := m.details + [m.current], current := NO_FRAME)
    case Ignore => m
  }

  function Run(m: Machine, lines: seq<string>): Machine
    decreases |lines|
  {
    if lines == [] then m else Run(Step(m, lines[0]), lines[1..])
  }

  function Finish(m: Machine): Parsed {
    if !m.ok then Panic
    else Forest(m.details + if m.current.program != "" then [m.current] else [])
  }

  /** The parser itself. */
  method GetLogs(logs: seq<string>) returns (result: Parsed)
    ensures result == Finish(Run(START, logs))
  {
    var details: seq<LogDetails> := [];
    var current := NO_FRAME;
    var stack: seq<LogDetails> := [];
    for n := 0 to |logs|
      invariant Run(Machine(details, current, stack, true), logs[n..]) == Run(START, logs)
    {
      var l := logs[n];
      assert logs[n..][0] == l && logs[n..][1..] == logs[n + 1..];
      if Contains(l, "invoke") {
        var fields := Fields(l);
        if |fields| < 2 {
          RunStopped(Step(Machine(details, current, stack, true), l), logs[n + 1..]);
          return Panic;
        }
        if current.program != "" {
          stack := stack + [current];
        }
        current := LogDetails(fields[1], [], []);
      } else if Contains(l, "Program log:") || Contains(l, "Program data:") {
        current := current.(logs := current.logs + [l]);
      } else if Contains(l, "success") {
        if |stack| > 0 {
          var parent := stack[|stack| - 1];
          stack := stack[..|stack| - 1];
          current := parent.(subLogs := parent.subLogs + [current]);
        } else {
          details := details + [current];
          current := NO_FRAME;
        }
      }
    }
    if current.program != "" {
      details := details + [current];
    }
    result := Forest(details);
  }

  lemma {:induction false} RunStopped(m: Machine, lines: seq<string>)
    requires !m.ok
    ensures Run(m, lines) == m
    decreases |lines|
  {
    if lines != [] {
      RunStopped(m, lines[1..]);
    }
  }

  lemma {:induction false} RunConcat(m: Machine, a: seq<string>, b: seq<string>)
    ensures Run(m, a + b) == Run(Run(m, a), b)
    decreases |a|
  {
    if a == [] {
      assert a + b == b;
    } else {
      assert (a + b)[0] == a[0] && (a + b)[1..] == a[1..] + b;
      RunConcat(Step(m, a[0]), a[1..], b);
    }
  }

  // ---------- invocations and their printed form ----------

  /** What happens inside an invocation, in order: a line is written, or a program is called.
      A call keeps the very lines that open and close it. */
  datatype Item = Line(text: string) | Call(open: string, body: seq<Item>, close: string)

  /** Lines that neither open nor close an invocation, and calls that do, by a named program. */
  predicate WellFormed(items: seq<Item>) {
    forall item <- items :: WellFormedItem(item)
  }

  predicate WellFormedItem(item: Item) {
    match item
    case Line(text) => Classify(text).Attach? || Classify(text).Ignore?
    case Call(open, body, close) =>
      && Opens(open)
      && Classify(close).Succeed?
      && forall inner <- body :: WellFormedItem(inner)
  }

  /** An opening line names a non-empty program. */
  predicate Opens(line: string) {
    Classify(line).Invoke? && |Classify(line).fields| >= 2 && Classify(line).fields[1] != ""
  }

  function ProgramOf(line: string): string
    requires Opens(line)
  {
    Classify(line).fields[1]
  }

  function Print(items: seq<Item>): seq<string> {
    if items == [] then [] else PrintItem(items[0]) + Print(items[1..])
  }

  function PrintItem(item: Item): seq<string> {
    match item
    case Line(text) => [text]
    case Call(open, body, close) => [open] + Print(body) + [close]
  }

  /** The attached lines of a body, and the calls made from it, each in order. */
  function Attached(items: seq<Item>): seq<string> {
    if items == [] then []
    else LinesOf(items[0]) + Attached(items[1..])
  }

  function Tree(items: seq<Item>): seq<LogDetails>
    requires WellFormed(items)
  {
    if items == [] then []
    else CallsOf(items[0]) + Tree(items[1..])
  }

  function Node(call: Item): LogDetails
    requires call.Call? && WellFormedItem(call)
    decreases call, 0
  {
    LogDetails(ProgramOf(call.open), Attached(call.body), Tree(call.body))
  }

  /** The open frame grows by lines and finished calls. */
  function Extend(m: Machine, lines: seq<string>, calls: seq<LogDetails>): Machine {
    m.(current := m.current.(logs := m.current.logs + lines, subLogs := m.current.subLogs + calls))
  }

  lemma ExtendTwice(m: Machine, l: seq<string>, c: seq<LogDetails>, l': seq<string>, c': seq<LogDetails>)
    ensures Extend(Extend(m, l, c), l', c') == Extend(m, l + l', c + c')
  {
    assert m.current.logs + l + l' == m.current.logs + (l + l');
    assert m.current.subLogs + c + c' == m.current.subLogs + (c + c');
  }

  lemma ExtendNothing(m: Machine)
    ensures Extend(m, [], []) == m
  {
    assert m.current.logs + [] == m.current.logs && m.current.subLogs + [] == m.current.subLogs;
  }

  function LinesOf(item: Item): seq<string> {
    if item.Line? && Classify(item.text).Attach? then [item.text] else []
  }

  function CallsOf(item: Item): seq<LogDetails>
    requires WellFormedItem(item)
    decreases item, 1
  {
    if item.Call? then [Node(item)] else []
  }

  /** Running over a printed body adds its attached lines and its calls to the open frame. */
  lemma {:induction false} RunBody(m: Machine, items: seq<Item>)
    requires m.ok && m.current.program != "" && WellFormed(items)
    ensures Run(m, Print(items)) == Extend(m, Attached(items), Tree(items))
    decreases items
  {
    if items == [] {
      ExtendNothing(m);
    } else {
      var head, rest := items[0], items[1..];
      assert WellFormedItem(head) && WellFormed(rest);
      RunConcat(m, PrintItem(head), Print(rest));
      RunItem(m, head);
      RunBody(Extend(m, LinesOf(head), CallsOf(head)), rest);
      ExtendTwice(m, LinesOf(head), CallsOf(head), Attached(rest), Tree(rest));
    }
  }

  lemma {:induction false} RunItem(m: Machine, item: Item)
    requires m.ok && m.current.program != "" && WellFormedItem(item)
    ensures Run(m, PrintItem(item)) == Extend(m, LinesOf(item), CallsOf(item))
    decreases item
  {
    match item
    case Line(text) =>
      RunOne(m, text);
      ExtendNothing(m);
      assert m.current.subLogs + [] == m.current.subLogs;
    case Call(open, body, close) =>
      assert WellFormed(body);
      var pushed := m.(stack := m.stack + [m.current], current := LogDetails(ProgramOf(open), [], []));
      RunOne(m, open);
      RunCall(m, pushed, item);
      RunOne(pushed.(current := Node(item)), close);
      assert (m.stack + [m.current])[..|m.stack|] == m.stack && m.current.logs + [] == m.current.logs;
  }

  /** From the opening line of a call to just before its closing line. */
  lemma {:induction false} RunCall(m: Machine, inside: Machine, call: Item)
    requires call.Call? && WellFormedItem(call) && inside.ok
    requires Run(m, [call.open]) == inside && inside.current == LogDetails(ProgramOf(call.open), [], [])
    ensures Run(m, PrintItem(call)) == Run(inside.(current := Node(call)), [call.close])
    decreases call, 0
  {
    assert WellFormed(call.body);
    RunBody(inside, call.body);
    assert [] + Attached(call.body) == Attached(call.body) && [] + Tree(call.body) == Tree(call.body);
    RunConcat(m, [call.open], Print(call.body));
    RunConcat(m, [call.open] + Print(call.body), [call.close]);
  }

  lemma RunOne(m: Machine, line: string)
    ensures Run(m, [line]) == Step(m, line)
  {
    assert [line][1..] == [];
  }

  /** Between invocations nothing is open; lines written there are collected and then lost. */
  predicate AtTop(m: Machine) {
    m.ok && m.current.program == "" && m.stack == []
  }

  lemma {:induction false} RunTop(m: Machine, items: seq<Item>)
    requires AtTop(m) && WellFormed(items)
    ensures AtTop(Run(m, Print(items))) && Run(m, Print(items)).details == m.details + Tree(items)
    decreases items
  {
    if items == [] {
      assert m.details + [] == m.details;
    } else {
      var head, rest := items[0], items[1..];
      assert WellFormedItem(head) && WellFormed(rest);
      RunConcat(m, PrintItem(head), Print(rest));
      RunTopItem(m, head);
      RunTop(Run(m, PrintItem(head)), rest);
      assert m.details + CallsOf(head) + Tree(rest) == m.details + (CallsOf(head) + Tree(rest));
    }
  }

  lemma RunTopItem(m: Machine, item: Item)
    requires AtTop(m) && WellFormedItem(item)
    ensures AtTop(Run(m, PrintItem(item)))
    ensures Run(m, PrintItem(item)).details == m.details + CallsOf(item)
  {
    match item
    case Line(text) =>
      RunOne(m, text);
    case Call(open, body, close) =>
      var inside := m.(current := LogDetails(ProgramOf(open), [], []));
      RunOne(m, open);
      RunCall(m, inside, item);
      RunOne(inside.(current := Node(item)), close);
  }

  /** Parsing inverts printing: on every balanced log the parser returns the invocations of the
      log, each with its attached lines and its calls. */
  lemma ParsePrint(items: seq<Item>)
    requires WellFormed(items)
    ensures Finish(Run(START, Print(items))) == Forest(Tree(items))
  {
    RunTop(START, items);
  }

  // ---------- truncated logs ----------

  /** An invocation that was opened and not closed. */
  datatype Frame = Frame(open: string, body: seq<Item>)

  /** `roots` and `frames` describe a prefix of the printed `items`: the items wholly printed,
      then the invocations still open, outermost first, each with what was printed of its body. */
  predicate IsCut(items: seq<Item>, roots: seq<Item>, frames: seq<Frame>)
    decreases |frames|
  {
    && roots <= items
    && (frames != [] ==>
          && |roots| < |items|
          && items[|roots|].Call?
          && frames[0].open == items[|roots|].open
          && IsCut(items[|roots|].body, frames[0].body, frames[1..]))
  }

  function PrintCut(roots: seq<Item>, frames: seq<Frame>): seq<string>
    decreases |frames|
  {
    Print(roots) + if frames == [] then [] else [frames[0].open] + PrintCut(frames[0].body, frames[1..])
  }

  /** Every prefix of a printed log is such a cut. */
  lemma {:induction false} PrefixIsCut(items: seq<Item>, n: nat) returns (roots: seq<Item>, frames: seq<Frame>)
    requires n <= |Print(items)|
    ensures IsCut(items, roots, frames) && PrintCut(roots, frames) == Print(items)[..n]
    decreases items
  {
    if items == [] || n == 0 {
      roots, frames := [], [];
    } else {
      var head, rest := items[0], items[1..];
      var size := |PrintItem(head)|;
      if size <= n {
        roots, frames := PrefixIsCut(rest, n - size);
        roots := [head] + roots;
        assert roots[1..] + rest[|roots| - 1..] == rest;
        assert Print(roots) == PrintItem(head) + Print(roots[1..]);
        assert Print(items)[..n] == PrintItem(head) + Print(rest)[..n - size];
        if frames != [] {
          assert items[|roots|] == rest[|roots| - 1];
        }
      } else {
        var body, inner := PrefixIsCut(head.body, if n - 1 <= |Print(head.body)| then n - 1 else 0);
        roots, frames := [], [Frame(head.open, body)] + inner;
        assert frames[1..] == inner;
        assert Print(items)[..n] == [head.open] + Print(head.body)[..n - 1];
      }
    }
  }

  predicate OpenFrames(frames: seq<Frame>) {
    forall f <- frames :: Opens(f.open) && WellFormed(f.body)
  }

  /** What the parser makes of a cut: the completed invocations, plus only the innermost open
      one.  The open invocations around it stay on the stack and are lost. */
  function CutForest(roots: seq<Item>, frames: seq<Frame>): seq<LogDetails>
    requires WellFormed(roots) && OpenFrames(frames)
  {
    Tree(roots) + if frames == [] then [] else [Open(frames[|frames| - 1])]
  }

  function Open(frame: Frame): LogDetails
    requires Opens(frame.open) && WellFormed(frame.body)
  {
    LogDetails(ProgramOf(frame.open), Attached(frame.body), Tree(frame.body))
  }

  lemma {:induction false} CutIsWellFormed(items: seq<Item>, roots: seq<Item>, frames: seq<Frame>)
    requires WellFormed(items) && IsCut(items, roots, frames)
    ensures WellFormed(roots) && OpenFrames(frames)
    decreases |frames|
  {
    if frames != [] {
      var call := items[|roots|];
      assert WellFormedItem(call) && WellFormed(call.body);
      CutIsWellFormed(call.body, frames[0].body, frames[1..]);
    }
  }

  /** Below an open frame the details collected so far do not change, and at the end the current
      frame is the innermost one of the cut. */
  lemma {:induction false} RunFrames(m: Machine, body: seq<Item>, frames: seq<Frame>)
    requires m.ok && m.current.program != "" && m.current.logs == [] && m.current.subLogs == []
    requires WellFormed(body) && OpenFrames(frames)
    ensures var r := Run(m, PrintCut(body, frames));
            && r.ok && r.details == m.details
            && r.current == if frames == [] then LogDetails(m.current.program, Attached(body), Tree(body))
                            else Open(frames[|frames| - 1])
    decreases |frames|
  {
    RunBody(m, body);
    if frames == [] {
      assert PrintCut(body, frames) == Print(body);
      assert [] + Attached(body) == Attached(body) && [] + Tree(body) == Tree(body);
    } else {
      RunToFrame(m, body, frames);
      var next := Step(Run(m, Print(body)), frames[0].open);
      RunFrames(next, frames[0].body, frames[1..]);
    }
  }

  lemma RunToFrame(m: Machine, body: seq<Item>, frames: seq<Frame>)
    requires frames != []
    ensures Run(m, PrintCut(body, frames)) ==
            Run(Step(Run(m, Print(body)), frames[0].open), PrintCut(frames[0].body, frames[1..]))
  {
    var inner := PrintCut(frames[0].body, frames[1..]);
    RunConcat(m, Print(body), [frames[0].open] + inner);
    RunConcat(Run(m, Print(body)), [frames[0].open], inner);
    RunOne(Run(m, Print(body)), frames[0].open);
  }

  lemma ParseCut(roots: seq<Item>, frames: seq<Frame>)
    requires WellFormed(roots) && OpenFrames(frames)
    ensures Finish(Run(START, PrintCut(roots, frames))) == Forest(CutForest(roots, frames))
  {
    RunTop(START, roots);
    if frames == [] {
      assert PrintCut(roots, frames) == Print(roots);
    } else {
      RunToFrame(START, roots, frames);
      var next := Step(Run(START, Print(roots)), frames[0].open);
      RunFrames(next, frames[0].body, frames[1..]);
      assert next.details == Tree(roots);
    }
  }

  /** On every prefix of a balanced log the parser returns the completed invocations and the
      innermost open one, and never panics. */
  lemma ParsePrefix(items: seq<Item>, n: nat) returns (roots: seq<Item>, frames: seq<Frame>)
    requires WellFormed(items) && n <= |Print(items)|
    ensures IsCut(items, roots, frames) && PrintCut(roots, frames) == Print(items)[..n]
    ensures WellFormed(roots) && OpenFrames(frames)
    ensures Finish(Run(START, Print(items)[..n])) == Forest(CutForest(roots, frames))
  {
    roots, frames := PrefixIsCut(items, n);
    CutIsWellFormed(items, roots, frames);
    ParseCut(roots, frames);
  }

  // ---------- panics ----------

  /** A line that opens an invocation and names no program. */
  predicate NamesNothing(line: string) {
    Contains(line, "invoke") && |Fields(line)| < 2
  }

  lemma {:induction false} RunFails(m: Machine, lines: seq<string>)
    ensures Run(m, lines).ok <==> m.ok && forall i :: 0 <= i < |lines| ==> !NamesNothing(lines[i])
    decreases |lines|
  {
    if lines != [] {
      RunFails(Step(m, lines[0]), lines[1..]);
      assert forall i :: 1 <= i < |lines| ==> lines[i] == lines[1..][i - 1];
    }
  }

  /** The parser panics if and only if some line opens an invocation and names no program. */
  lemma PanicsIffNameless(lines: seq<string>)
    ensures Finish(Run(START, lines)).Panic? <==> exists i :: 0 <= i < |lines| && NamesNothing(lines[i])
  {
    RunFails(START, lines);
  }
}
