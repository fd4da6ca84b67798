/** The two recursive consumers of the parsed log: `HandlePumpFunNewToken` of
    internal/solana/dex/pumpfun.go gathers the data lines of one program, `isTokenCreation` of
    cmd/api/routes/CheckBundled.go looks for two keywords.

    Both visit every attached line of the forest together with the program it is attached to.
    On balanced logs they see exactly what one linear pass over the flat log sees when it keeps
    the stack of open programs. */
module LogWalks {
  import opened LogForest

  /** A line and the program it is attached to. */
  datatype Entry = Entry(program: string, line: string)

  function Own(program: string, lines: seq<string>): seq<Entry> {
    if lines == [] then [] else [Entry(program, lines[0])] + Own(program, lines[1..])
  }

  /** The order of a recursive walk: a node's lines, then its sub-logs, then its siblings. */
  function Entries(details: seq<LogDetails>): seq<Entry> {
    if details == [] then [] else NodeEntries(details[0]) + Entries(details[1..])
  }

  function NodeEntries(d: LogDetails): seq<Entry> {
    Own(d.program, d.logs) + Entries(d.subLogs)
  }

  // ---------- the walkers ----------

  function DataLines(entries: seq<Entry>, program: string): seq<string> {
    if entries == [] then []
    else (if Contains(entries[0].line, "Program data:") && entries[0].program == program
          then [entries[0].line] else []) + DataLines(entries[1..], program)
  }

  predicate Mentions(entries: seq<Entry>, word: string) {
    exists e <- entries :: Contains(e.line, word)
  }

  lemma NextDataLines(logs: seq<LogDetails>, n: nat, program: string)
    requires n < |logs|
    ensures DataLines(Entries(logs[..n + 1]), program) ==
            DataLines(Entries(logs[..n]), program) + DataLines(NodeEntries(logs[n]), program)
  {
    EntriesSnoc(logs[..n], logs[n]);
    DataLinesAppend(Entries(logs[..n]), NodeEntries(logs[n]), program);
    assert logs[..n] + [logs[n]] == logs[..n + 1];
  }

  /** The recursive closure that gathers the data lines of a program. */
  method GatherData(logs: seq<LogDetails>, program: string, pfLogs0: seq<string>) returns (pfLogs: seq<string>)
    ensures pfLogs == pfLogs0 + DataLines(Entries(logs), program)
    decreases logs
  {
    pfLogs := pfLogs0;
    for n := 0 to |logs|
      invariant pfLogs == pfLogs0 + DataLines(Entries(logs[..n]), program)
    {
      NextDataLines(logs, n, program);
      pfLogs := GatherNode(logs[n], program, pfLogs);
    }
    assert logs[..|logs|] == logs;
  }

  method GatherNode(logDetail: LogDetails, program: string, pfLogs0: seq<string>) returns (pfLogs: seq<string>)
    ensures pfLogs == pfLogs0 + DataLines(NodeEntries(logDetail), program)
    decreases logDetail
  {
    DataLinesAppend(Own(logDetail.program, logDetail.logs), Entries(logDetail.subLogs), program);
    pfLogs := GatherOwn(logDetail.logs, logDetail.program, program, pfLogs0);
    pfLogs := GatherData(logDetail.subLogs, program, pfLogs);
  }

  /** The inner loop: the lines of one node. */
  method GatherOwn(lines: seq<string>, owner: string, program: string, pfLogs0: seq<string>)
    returns (pfLogs: seq<string>)
    ensures pfLogs == pfLogs0 + DataLines(Own(owner, lines), program)
  {
    pfLogs := pfLogs0;
    assert lines[0..] == lines;
    for k := 0 to |lines|
      invariant pfLogs + DataLines(Own(owner, lines[k..]), program) ==
                pfLogs0 + DataLines(Own(owner, lines), program)
    {
      assert lines[k..][0] == lines[k] && lines[k..][1..] == lines[k + 1..];
      var tail := Own(owner, lines[k + 1..]);
      assert Own(owner, lines[k..]) == [Entry(owner, lines[k])] + tail;
      assert ([Entry(owner, lines[k])] + tail)[1..] == tail;
      if Contains(lines[k], "Program data:") && owner == program {
        pfLogs := pfLogs + [lines[k]];
      }
    }
  }

  lemma {:induction false} DataLinesAppend(a: seq<Entry>, b: seq<Entry>, program: string)
    ensures DataLines(a + b, program) == DataLines(a, program) + DataLines(b, program)
    decreases |a|
  {
    if a == [] {
      assert a + b == b;
    } else {
      assert (a + b)[0] == a[0] && (a + b)[1..] == a[1..] + b;
      DataLinesAppend(a[1..], b, program);
    }
  }

  /** The recursive closure that sets the two flags. */
  method FindKeywords(logs: seq<LogDetails>, init0: bool, mint0: bool) returns (init: bool, mint: bool)
    ensures init == (init0 || Mentions(Entries(logs), "InitializeMint"))
    ensures mint == (mint0 || Mentions(Entries(logs), "MintTo"))
    decreases logs
  {
    init, mint := init0, mint0;
    for n := 0 to |logs|
      invariant init == (init0 || Mentions(Entries(logs[..n]), "InitializeMint"))
      invariant mint == (mint0 || Mentions(Entries(logs[..n]), "MintTo"))
    {
      var logDetail := logs[n];
      MentionsSnoc(logs[..n], logDetail, "InitializeMint");
      MentionsSnoc(logs[..n], logDetail, "MintTo");
      assert logs[..n] + [logDetail] == logs[..n + 1];
      init, mint := FindOwnKeywords(logDetail.logs, logDetail.program, init, mint);
      init, mint := FindKeywords(logDetail.subLogs, init, mint);
    }
    assert logs[..|logs|] == logs;
  }

  lemma MentionsSnoc(details: seq<LogDetails>, d: LogDetails, word: string)
    ensures Mentions(Entries(details + [d]), word) <==>
            Mentions(Entries(details), word) || Mentions(Own(d.program, d.logs), word) ||
            Mentions(Entries(d.subLogs), word)
  {
    EntriesSnoc(details, d);
  }

  /** The inner loops: the lines of one node against the two keywords. */
  method FindOwnKeywords(lines: seq<string>, ghost owner: string, init0: bool, mint0: bool)
    returns (init: bool, mint: bool)
    ensures init == (init0 || Mentions(Own(owner, lines), "InitializeMint"))
    ensures mint == (mint0 || Mentions(Own(owner, lines), "MintTo"))
  {
    init, mint := init0, mint0;
    for k := 0 to |lines|
      invariant init == (init0 || Mentions(Own(owner, lines[..k]), "InitializeMint"))
      invariant mint == (mint0 || Mentions(Own(owner, lines[..k]), "MintTo"))
    {
      OwnSnoc(owner, lines[..k], lines[k]);
      assert lines[..k] + [lines[k]] == lines[..k + 1];
      if Contains(lines[k], "InitializeMint") {
        init := true;
      }
      if Contains(lines[k], "MintTo") {
        mint := true;
      }
    }
    assert lines[..|lines|] == lines;
  }

  lemma {:induction false} OwnSnoc(program: string, lines: seq<string>, line: string)
    ensures Own(program, lines + [line]) == Own(program, lines) + [Entry(program, line)]
    decreases |lines|
  {
    if lines != [] {
      assert (lines + [line])[0] == lines[0] && (lines + [line])[1..] == lines[1..] + [line];
      OwnSnoc(program, lines[1..], line);
    }
  }

  lemma {:induction false} EntriesSnoc(details: seq<LogDetails>, d: LogDetails)
    ensures Entries(details + [d]) == Entries(details) + NodeEntries(d)
    decreases |details|
  {
    if details == [] {
      assert ([] + [d])[1..] == [];
    } else {
      assert (details + [d])[0] == details[0] && (details + [d])[1..] == details[1..] + [d];
      EntriesSnoc(details[1..], d);
    }
  }

  method IsTokenCreation(parsedLogs: seq<LogDetails>) returns (yes: bool)
    ensures yes == (Mentions(Entries(parsedLogs), "InitializeMint") && Mentions(Entries(parsedLogs), "MintTo"))
  {
    var init, mint := FindKeywords(parsedLogs, false, false);
    yes := init && mint;
  }

  // ---------- the linear scan ----------

  /** One pass over the flat log with the stack of open programs: every attached line with the
      innermost open one. */
  function Scan(lines: seq<string>, open: seq<string>): seq<Entry>
    decreases |lines|
  {
    if lines == [] then [] else
    match Classify(lines[0])
    case Invoke(fields) => Scan(lines[1..], if |fields| >= 2 then open + [fields[1]] else open)
    case Attach =>
      (if open != [] then [Entry(open[|open| - 1], lines[0])] else []) + Scan(lines[1..], open)
    case Succeed => Scan(lines[1..], if open != [] then open[..|open| - 1] else open)
    case Ignore => Scan(lines[1..], open)
  }

  function Count(entries: seq<Entry>, e: Entry): nat {
    if entries == [] then 0 else (if entries[0] == e then 1 else 0) + Count(entries[1..], e)
  }

  lemma {:induction false} CountAppend(a: seq<Entry>, b: seq<Entry>, e: Entry)
    ensures Count(a + b, e) == Count(a, e) + Count(b, e)
    decreases |a|
  {
    if a == [] {
      assert a + b == b;
    } else {
      assert (a + b)[0] == a[0] && (a + b)[1..] == a[1..] + b;
      CountAppend(a[1..], b, e);
    }
  }

  lemma {:induction false} CountIsMultiplicity(entries: seq<Entry>, e: Entry)
    ensures multiset(entries)[e] == Count(entries, e)
    decreases |entries|
  {
    if entries != [] {
      CountIsMultiplicity(entries[1..], e);
      assert entries == [entries[0]] + entries[1..];
    }
  }

  /** The lines of `items` themselves that match `e` when the innermost open program is `top`. */
  function OwnCount(open: seq<string>, items: seq<Item>, e: Entry): nat {
    if open == [] then 0 else Count(Own(open[|open| - 1], Attached(items)), e)
  }

  /** The scan of a printed body: the body's own lines go to the innermost open program, the rest
      is what the walk of its calls sees. */
  lemma {:induction false} ScanItems(items: seq<Item>, open: seq<string>, rest: seq<string>, e: Entry)
    requires WellFormed(items)
    ensures Count(Scan(Print(items) + rest, open), e) ==
            OwnCount(open, items, e) + Count(Entries(Tree(items)), e) + Count(Scan(rest, open), e)
    decreases items
  {
    if items == [] {
      assert Print(items) + rest == rest;
    } else {
      var head, tail := items[0], items[1..];
      assert WellFormedItem(head) && WellFormed(tail);
      assert Print(items) + rest == PrintItem(head) + (Print(tail) + rest);
      ScanItems(tail, open, rest, e);
      match head
      case Line(text) => ScanLine(items, open, Print(tail) + rest, e);
      case Call(_, _, _) =>
        ScanCall(head, open, Print(tail) + rest, e);
        EntriesOfCall(items, e);
    }
  }

  lemma ScanLine(items: seq<Item>, open: seq<string>, rest: seq<string>, e: Entry)
    requires items != [] && items[0].Line? && WellFormed(items)
    ensures WellFormed(items[1..])
    ensures OwnCount(open, items, e) + Count(Scan(rest, open), e) ==
            OwnCount(open, items[1..], e) + Count(Scan([items[0].text] + rest, open), e)
    ensures Entries(Tree(items)) == Entries(Tree(items[1..]))
  {
    var text := items[0].text;
    assert WellFormedItem(items[0]);
    assert ([text] + rest)[1..] == rest;
    assert Tree(items) == Tree(items[1..]);
    if !Classify(text).Attach? {
      assert Attached(items) == Attached(items[1..]);
    } else if open == [] {
      assert Scan([text] + rest, open) == Scan(rest, open);
    } else {
      var top := open[|open| - 1];
      assert Attached(items)[1..] == Attached(items[1..]);
      CountAppend([Entry(top, text)], Own(top, Attached(items[1..])), e);
      CountAppend([Entry(top, text)], Scan(rest, open), e);
    }
  }

  lemma {:induction false} ScanCall(call: Item, open: seq<string>, rest: seq<string>, e: Entry)
    requires call.Call? && WellFormedItem(call)
    ensures Count(Scan(PrintItem(call) + rest, open), e) ==
            Count(Own(ProgramOf(call.open), Attached(call.body)), e) + Count(Entries(Tree(call.body)), e) +
            Count(Scan(rest, open), e)
    decreases call, 0
  {
    assert WellFormed(call.body);
    var inner, after := open + [ProgramOf(call.open)], [call.close] + rest;
    assert PrintItem(call) + rest == [call.open] + (Print(call.body) + after);
    assert ([call.open] + (Print(call.body) + after))[1..] == Print(call.body) + after;
    ScanItems(call.body, inner, after, e);
    assert inner[..|inner| - 1] == open && after[1..] == rest;
  }

  lemma EntriesOfCall(items: seq<Item>, e: Entry)
    requires items != [] && items[0].Call? && WellFormed(items)
    ensures WellFormedItem(items[0]) && WellFormed(items[1..])
    ensures Count(Entries(Tree(items)), e) ==
            Count(Own(ProgramOf(items[0].open), Attached(items[0].body)), e) +
            Count(Entries(Tree(items[0].body)), e) + Count(Entries(Tree(items[1..])), e)
    ensures Attached(items) == Attached(items[1..])
  {
    assert WellFormedItem(items[0]);
    var node, others := Node(items[0]), Tree(items[1..]);
    assert CallsOf(items[0]) == [node] && Tree(items) == [node] + others;
    assert ([node] + others)[1..] == others;
    CountAppend(Own(node.program, node.logs), Entries(node.subLogs), e);
    CountAppend(NodeEntries(node), Entries(others), e);
  }

  /** Walking the parsed forest and scanning the flat log see the same entries. */
  lemma WalkIsScan(items: seq<Item>)
    requires WellFormed(items)
    ensures Finish(Run(START, Print(items))).Forest?
    ensures multiset(Entries(Finish(Run(START, Print(items))).details)) == multiset(Scan(Print(items), []))
  {
    ParsePrint(items);
    assert Print(items) + [] == Print(items);
    forall e: Entry
      ensures multiset(Entries(Tree(items)))[e] == multiset(Scan(Print(items), []))[e]
    {
      ScanItems(items, [], [], e);
      CountIsMultiplicity(Entries(Tree(items)), e);
      CountIsMultiplicity(Scan(Print(items), []), e);
    }
  }

  lemma {:induction false} CountDataLines(entries: seq<Entry>, program: string, line: string)
    ensures multiset(DataLines(entries, program))[line] ==
            if Contains(line, "Program data:") then multiset(entries)[Entry(program, line)] else 0
    decreases |entries|
  {
    if entries != [] {
      CountDataLines(entries[1..], program, line);
      assert entries == [entries[0]] + entries[1..];
    }
  }

  /** `HandlePumpFunNewToken` gathers exactly the data lines whose innermost open invocation is
      the given program, each as often as it occurs. */
  lemma NewTokenLinesAreScanned(items: seq<Item>, program: string)
    requires WellFormed(items)
    ensures Finish(Run(START, Print(items))).Forest?
    ensures multiset(DataLines(Entries(Finish(Run(START, Print(items))).details), program)) ==
            multiset(DataLines(Scan(Print(items), []), program))
  {
    WalkIsScan(items);
    var walked, scanned := Entries(Finish(Run(START, Print(items))).details), Scan(Print(items), []);
    forall line
      ensures multiset(DataLines(walked, program))[line] == multiset(DataLines(scanned, program))[line]
    {
      CountDataLines(walked, program, line);
      CountDataLines(scanned, program, line);
    }
  }

  /** `isTokenCreation` finds a keyword iff some attached line of the log mentions it. */
  lemma KeywordsAreScanned(items: seq<Item>, word: string)
    requires WellFormed(items)
    ensures Finish(Run(START, Print(items))).Forest?
    ensures Mentions(Entries(Finish(Run(START, Print(items))).details), word) <==>
            Mentions(Scan(Print(items), []), word)
  {
    WalkIsScan(items);
    var walked, scanned := Entries(Finish(Run(START, Print(items))).details), Scan(Print(items), []);
    forall e: Entry ensures e in walked <==> e in scanned {
      assert e in multiset(walked) <==> e in multiset(scanned);
    }
  }
}
