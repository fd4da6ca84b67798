/** Logs as the runtime prints them, and what the two walkers of `LogWalks` find in them once they are
    parsed.  What a program wrote is stated by the text it wrote, and not by how a line is classified. */
module PrintedLogs {
  import opened LogForest
  import opened LogWalks
  import opened RuntimeLog

  /** What happens while programs run: a message, emitted data, another line of the runtime, or an
      invocation and what happens inside it. */
  datatype Action = Says(text: string) | Emits(text: string) | Notes(line: string)
                  | Invokes(program: string, depth: string, actions: seq<Action>)

  /** A line with none of the words the parser looks for. */
  predicate Wordless(line: string) {
    && !Contains(line, "invoke") && !Contains(line, "success")
    && !Contains(line, "Program log:") && !Contains(line, "Program data:")
  }

  predicate Ordinary(actions: seq<Action>) {
    forall a <- actions :: OrdinaryAction(a)
  }

  predicate OrdinaryAction(a: Action) {
    match a
    case Says(text) => !Contains(text, "invoke")
    case Emits(text) => !Contains(text, "invoke")
    case Notes(line) => Wordless(line)
    case Invokes(program, _, inner) => NameOk(program) && forall b <- inner :: OrdinaryAction(b)
  }

  /** The log. */
  function Printed(actions: seq<Action>): seq<string> {
    if actions == [] then [] else PrintedAction(actions[0]) + Printed(actions[1..])
  }

  function PrintedAction(a: Action): seq<string> {
    match a
    case Says(text) => [LogLine(text)]
    case Emits(text) => [DataLine(text)]
    case Notes(line) => [line]
    case Invokes(program, depth, inner) => [InvokeLine(program, depth)] + Printed(inner) + [SuccessLine(program)]
  }

  // ---------- what was written ----------

  /** What a program wrote itself, in order. */
  function Written(program: string, actions: seq<Action>): seq<Entry> {
    if actions == [] then [] else
    (match actions[0]
     case Says(text) => [Entry(program, LogLine(text))]
     case Emits(text) => [Entry(program, DataLine(text))]
     case _ => []) + Written(program, actions[1..])
  }

  /** What the invoked programs wrote: each invocation's own lines before those of the programs it invoked. */
  function WrittenInside(actions: seq<Action>): seq<Entry> {
    if actions == [] then [] else
    (match actions[0]
     case Invokes(program, _, inner) => Written(program, inner) + WrittenInside(inner)
     case _ => []) + WrittenInside(actions[1..])
  }

  /** The data lines among what a program wrote itself; a message counts as one if its text says so. */
  function OwnData(actions: seq<Action>): seq<string> {
    if actions == [] then [] else
    (match actions[0]
     case Emits(text) => [DataLine(text)]
     case Says(text) => if Contains(text, "Program data:") then [LogLine(text)] else []
     case _ => []) + OwnData(actions[1..])
  }

  function DataOf(program: string, actions: seq<Action>): seq<string> {
    if actions == [] then [] else
    (match actions[0]
     case Invokes(invoked, _, inner) =>
       (if invoked == program then OwnData(inner) else []) + DataOf(program, inner)
     case _ => []) + DataOf(program, actions[1..])
  }

  // ---------- the log as items ----------

  function Items(actions: seq<Action>): seq<Item> {
    if actions == [] then [] else [ItemOf(actions[0])] + Items(actions[1..])
  }

  function ItemOf(a: Action): Item {
    match a
    case Says(text) => Line(LogLine(text))
    case Emits(text) => Line(DataLine(text))
    case Notes(line) => Line(line)
    case Invokes(program, depth, inner) => Call(InvokeLine(program, depth), Items(inner), SuccessLine(program))
  }

  lemma ItemsNext(actions: seq<Action>)
    requires actions != []
    ensures Items(actions)[0] == ItemOf(actions[0]) && Items(actions)[1..] == Items(actions[1..])
  {
  }

  lemma {:induction false} ItemsPrint(actions: seq<Action>)
    ensures Print(Items(actions)) == Printed(actions)
    decreases actions
  {
    if actions != [] {
      ItemsNext(actions);
      ItemsPrint(actions[1..]);
      if actions[0].Invokes? {
        ItemsPrint(actions[0].actions);
      }
    }
  }

  lemma {:induction false} ItemsWellFormed(actions: seq<Action>)
    requires Ordinary(actions)
    ensures WellFormed(Items(actions))
    decreases actions
  {
    if actions != [] {
      ItemsNext(actions);
      assert OrdinaryAction(actions[0]) && Ordinary(actions[1..]);
      ItemWellFormed(actions[0]);
      ItemsWellFormed(actions[1..]);
      assert Items(actions) == [ItemOf(actions[0])] + Items(actions[1..]);
    }
  }

  lemma {:induction false} ItemWellFormed(a: Action)
    requires OrdinaryAction(a)
    ensures WellFormedItem(ItemOf(a))
    decreases a
  {
    match a
    case Says(text) => LogLineAttaches(text);
    case Emits(text) => DataLineAttaches(text);
    case Notes(line) =>
    case Invokes(program, depth, inner) =>
      InvokeLineOpens(program, depth);
      SuccessLineCloses(program);
      assert Ordinary(inner);
      ItemsWellFormed(inner);
  }

  lemma {:induction false} WrittenIsAttached(program: string, actions: seq<Action>)
    requires Ordinary(actions)
    ensures Own(program, Attached(Items(actions))) == Written(program, actions)
    decreases actions
  {
    if actions != [] {
      ItemsNext(actions);
      var a := actions[0];
      assert OrdinaryAction(a) && Ordinary(actions[1..]);
      WrittenIsAttached(program, actions[1..]);
      var rest := Attached(Items(actions[1..]));
      assert Attached(Items(actions)) == LinesOf(ItemOf(a)) + rest;
      if a.Says? {
        LogLineAttaches(a.text);
        assert LinesOf(ItemOf(a)) == [LogLine(a.text)] && ([LogLine(a.text)] + rest)[1..] == rest;
      } else if a.Emits? {
        DataLineAttaches(a.text);
        assert LinesOf(ItemOf(a)) == [DataLine(a.text)] && ([DataLine(a.text)] + rest)[1..] == rest;
      } else {
        assert LinesOf(ItemOf(a)) == [] && [] + rest == rest;
      }
    }
  }

  lemma {:induction false} EntriesAreWritten(actions: seq<Action>)
    requires Ordinary(actions)
    ensures WellFormed(Items(actions)) && Entries(Tree(Items(actions))) == WrittenInside(actions)
    decreases actions
  {
    ItemsWellFormed(actions);
    if actions != [] {
      ItemsNext(actions);
      var a := actions[0];
      assert OrdinaryAction(a) && Ordinary(actions[1..]);
      EntriesAreWritten(actions[1..]);
      if a.Invokes? {
        assert Ordinary(a.actions);
        EntriesAreWritten(a.actions);
        WrittenIsAttached(a.program, a.actions);
        InvokeLineOpens(a.program, a.depth);
        EntriesOfFirst(Items(actions));
      } else {
        assert Tree(Items(actions)) == Tree(Items(actions[1..]));
      }
    }
  }

  lemma EntriesOfFirst(items: seq<Item>)
    requires items != [] && items[0].Call? && WellFormed(items)
    ensures WellFormedItem(items[0]) && WellFormed(items[1..])
    ensures Entries(Tree(items)) == NodeEntries(Node(items[0])) + Entries(Tree(items[1..]))
  {
    assert WellFormedItem(items[0]);
    assert ([Node(items[0])] + Tree(items[1..]))[1..] == Tree(items[1..]);
  }

  // ---------- what the walkers find ----------

  /** The walk over the parsed log visits exactly what the invoked programs wrote. */
  lemma WalkIsWritten(actions: seq<Action>)
    requires Ordinary(actions)
    ensures var parsed := Finish(Run(START, Printed(actions)));
            parsed.Forest? && Entries(parsed.details) == WrittenInside(actions)
  {
    EntriesAreWritten(actions);
    ItemsPrint(actions);
    ParsePrint(Items(actions));
  }

  /** A message contains the words for data only if its text does. */
  lemma MessageData(text: string)
    ensures Contains(LogLine(text), "Program data:") <==> Contains(text, "Program data:")
  {
    var line, word := LogLine(text), "Program data:";
    if Contains(line, word) {
      var i :| 0 <= i <= |line| - |word| && StartsAt(line, word, i);
      assert line[i..i + |word|][0] == 'P' && line[i..i + |word|][8] == 'd';
      assert i >= 13;
      assert text[i - 13..i - 13 + |word|] == line[i..i + |word|];
      assert StartsAt(text, word, i - 13);
    }
    if Contains(text, word) {
      var i :| 0 <= i <= |text| - |word| && StartsAt(text, word, i);
      assert line[i + 13..i + 13 + |word|] == text[i..i + |word|];
      assert StartsAt(line, word, i + 13);
    }
  }

  lemma DataLineData(text: string)
    ensures Contains(DataLine(text), "Program data:")
  {
    assert StartsAt(DataLine(text), "Program data:", 0);
  }

  lemma {:induction false} OwnDataLines(owner: string, actions: seq<Action>, program: string)
    ensures DataLines(Written(owner, actions), program) == if owner == program then OwnData(actions) else []
    decreases actions
  {
    if actions != [] {
      OwnDataLines(owner, actions[1..], program);
      var rest := Written(owner, actions[1..]);
      match actions[0]
      case Says(text) =>
        MessageData(text);
        assert ([Entry(owner, LogLine(text))] + rest)[1..] == rest;
      case Emits(text) =>
        DataLineData(text);
        assert ([Entry(owner, DataLine(text))] + rest)[1..] == rest;
      case _ => assert Written(owner, actions) == rest;
    }
  }

  lemma {:induction false} DataLinesInside(actions: seq<Action>, program: string)
    ensures DataLines(WrittenInside(actions), program) == DataOf(program, actions)
    decreases actions
  {
    if actions != [] {
      DataLinesInside(actions[1..], program);
      match actions[0]
      case Invokes(invoked, _, inner) =>
        OwnDataLines(invoked, inner, program);
        DataLinesInside(inner, program);
        DataLinesAppend(Written(invoked, inner), WrittenInside(inner), program);
        DataLinesAppend(Written(invoked, inner) + WrittenInside(inner), WrittenInside(actions[1..]), program);
      case _ => assert WrittenInside(actions) == WrittenInside(actions[1..]);
    }
  }

  /** From the printed log to what `HandlePumpFunNewToken` gathers: exactly the data that invocations of the
      program emitted, and messages that pass for data, in the order of the walk. */
  lemma DataIsGathered(actions: seq<Action>, program: string)
    requires Ordinary(actions)
    ensures var parsed := Finish(Run(START, Printed(actions)));
            parsed.Forest? && DataLines(Entries(parsed.details), program) == DataOf(program, actions)
  {
    WalkIsWritten(actions);
    DataLinesInside(actions, program);
  }
}
