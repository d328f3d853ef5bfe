/**
 * The interactive loop of `main`: one input line is a command; `search` reads one
 * more line as its query. Filesystem checks are the `Dirs` state; indexing and
 * searching themselves are effects carried out by `IndexFiles` and `SearchIndex`.
 */
module Commands {
  import opened Optional

  const UnknownMessage := "Unknown command. Use 'index', 'search' or 'exit'."
  const CreatedMessage := "Created 'test_data' directory. Put your files there and run 'index' again."
  const NoIndexMessage := "Index not found. Run 'index' first."
  const QueryPrompt := "Enter search query: "

  /** What `printHelp` writes. */
  const HelpText := "Usage:\n"
    + "  index <directory> - Index files in directory\n"
    + "  search <query>    - Search for files containing query\n"
    + "  help              - Show this help\n"
    + "  exit              - Exit program\n"

  /** What one command does, in order. */
  datatype Effect =
    | Show(text: string)        // console output
    | CreateDataDir             // fs::create_directory("test_data")
    | IndexDataDir              // indexFiles("test_data", "index")
    | SearchFor(query: string)  // searchIndex("index", query)

  /** Whether the data directory and the index directory exist. */
  datatype Dirs = Dirs(dataDirExists: bool, indexDirExists: bool)

  /** The outcome of one command. */
  datatype Step = Step(effects: seq<Effect>, dirs: Dirs, stop: bool, readsQuery: bool)

  /**
   * One pass of the loop body for `command`; `next` is the line that follows it, which
   * `search` reads as its query (an exhausted input leaves the query empty). The `help`
   * test stands alone, so `help` also reaches the final `else` of the index/search/exit chain.
   */
  function Dispatch(command: string, dirs: Dirs, next: Option<string>): (s: Step)
    ensures s.stop <==> command == "exit"
    ensures (Show(HelpText) in s.effects) <==> command == "help"
    ensures (Show(UnknownMessage) in s.effects) <==> command !in {"index", "search", "exit"}
    ensures (CreateDataDir in s.effects) <==> command == "index" && !dirs.dataDirExists
    ensures (IndexDataDir in s.effects) <==> command == "index" && dirs.dataDirExists
    ensures (Show(NoIndexMessage) in s.effects) <==> command == "search" && !dirs.indexDirExists
    ensures s.readsQuery <==> command == "search" && dirs.indexDirExists
    ensures s.readsQuery ==> SearchFor(next.GetOr("")) in s.effects
    ensures forall q :: SearchFor(q) in s.effects ==> s.readsQuery && q == next.GetOr("")
    ensures (Show(CreatedMessage) in s.effects) <==> command == "index" && !dirs.dataDirExists
    ensures command !in {"help", "index", "search", "exit"} ==> s.effects == [Show(UnknownMessage)]
    ensures s.dirs.dataDirExists == (dirs.dataDirExists || command == "index")
    ensures s.dirs.indexDirExists == (dirs.indexDirExists || (command == "index" && dirs.dataDirExists))
  {
    var help := if command == "help" then [Show(HelpText)] else [];
    if command == "index" then
      if !dirs.dataDirExists then
        Step(help + [CreateDataDir, Show(CreatedMessage)], dirs.(dataDirExists := true), false, false)
      else
        Step(help + [IndexDataDir], dirs.(indexDirExists := true), false, false)
    else if command == "search" then
      if !dirs.indexDirExists then
        Step(help + [Show(NoIndexMessage)], dirs, false, false)
      else
        Step(help + [Show(QueryPrompt), SearchFor(next.GetOr(""))], dirs, false, true)
    else if command == "exit" then
      Step(help, dirs, true, false)
    else
      Step(help + [Show(UnknownMessage)], dirs, false, false)
  }

  /** What the loop does with the remaining input: its effects, and whether `exit` ended it. */
  datatype Run = Run(effects: seq<Effect>, stopped: bool)

  /** The input left after a step has taken its command and, for `search`, its query. */
  function Rest(lines: seq<string>, s: Step): seq<string>
    requires |lines| >= 1
  {
    if s.readsQuery && |lines| >= 2 then lines[2..] else lines[1..]
  }

  function Next(lines: seq<string>): Option<string>
  {
    if |lines| >= 2 then Some(lines[1]) else None
  }

  /** The loop over all input lines, until `exit` or until the input runs out. */
  function Loop(lines: seq<string>, dirs: Dirs): Run
    decreases |lines|
  {
    if lines == [] then Run([], false)
    else
      var s := Dispatch(lines[0], dirs, Next(lines));
      if s.stop then Run(s.effects, true)
      else
        var r := Loop(Rest(lines, s), s.dirs);
        Run(s.effects + r.effects, r.stopped)
  }

  /** The effects `e`, followed by what the run `r` does. */
  function Then(e: seq<Effect>, r: Run): Run
  {
    Run(e + r.effects, r.stopped)
  }

  /** `main`'s `while (true)` loop over the input lines. */
  method CommandLoop(lines: seq<string>, dirs: Dirs) returns (effects: seq<Effect>, stopped: bool)
    ensures Run(effects, stopped) == Loop(lines, dirs)
  {
    var pos, current := 0, dirs;
    effects, stopped := [], false;
    while pos < |lines|
      invariant 0 <= pos <= |lines|
      invariant Loop(lines, dirs) == Then(effects, Loop(lines[pos..], current))
      decreases |lines| - pos
    {
      var s := Dispatch(lines[pos], current, Next(lines[pos..]));
      var taken := if s.readsQuery && pos + 1 < |lines| then 2 else 1;
      LoopStep(lines, pos, current, effects);
      if s.stop {
        effects, stopped := effects + s.effects, true;
        return;
      }
      effects := effects + s.effects;
      pos, current := pos + taken, s.dirs;
    }
  }

  /** One pass of the loop body at position `pos`, after the effects `e` of the earlier passes. */
  lemma LoopStep(lines: seq<string>, pos: nat, dirs: Dirs, e: seq<Effect>)
    requires pos < |lines|
    ensures var s := Dispatch(lines[pos], dirs, Next(lines[pos..]));
      var taken := if s.readsQuery && pos + 1 < |lines| then 2 else 1;
      Then(e, Loop(lines[pos..], dirs)) ==
        if s.stop then Run(e + s.effects, true)
        else Then(e + s.effects, Loop(lines[pos + taken..], s.dirs))
  {
    var s := Dispatch(lines[pos], dirs, Next(lines[pos..]));
    var taken := if s.readsQuery && pos + 1 < |lines| then 2 else 1;
    assert Rest(lines[pos..], s) == lines[pos + taken..];
    var later := Loop(lines[pos + taken..], s.dirs);
    assert e + (s.effects + later.effects) == (e + s.effects) + later.effects;
  }

  /** `help` prints the help text and then the unknown-command message, whatever the state. */
  lemma HelpAlsoUnknown(dirs: Dirs, next: Option<string>)
    ensures Dispatch("help", dirs, next).effects == [Show(HelpText), Show(UnknownMessage)]
    ensures !Dispatch("help", dirs, next).stop
  {
  }

  /** `exit` ends the loop, and none of the following lines is read. */
  lemma ExitStops(rest: seq<string>, dirs: Dirs)
    ensures Loop(["exit"] + rest, dirs) == Run([], true)
  {
  }

  /** The loop is only ever ended by an `exit` line. */
  lemma {:induction false} OnlyExitStops(lines: seq<string>, dirs: Dirs)
    requires forall k :: 0 <= k < |lines| ==> lines[k] != "exit"
    ensures !Loop(lines, dirs).stopped
    decreases |lines|
  {
    if lines != [] {
      var s := Dispatch(lines[0], dirs, Next(lines));
      var rest := Rest(lines, s);
      assert forall k :: 0 <= k < |rest| ==> rest[k] == lines[k + (|lines| - |rest|)];
      OnlyExitStops(rest, s.dirs);
    }
  }

  /** A line read as a query is not a command: "exit" typed after "search" does not stop the loop. */
  lemma QueryIsNotCommand(dirs: Dirs)
    requires dirs.indexDirExists
    ensures Loop(["search", "exit"], dirs) ==
      Run([Show(QueryPrompt), SearchFor("exit")], false)
  {
    assert ["search", "exit"][2..] == [];
  }

  /** A first `index` only creates the data directory; the second indexes, after which `search` runs. */
  lemma IndexThenSearch()
    ensures Loop(["index", "index", "search", "report"], Dirs(false, false)) ==
      Run([CreateDataDir, Show(CreatedMessage), IndexDataDir, Show(QueryPrompt), SearchFor("report")], false)
  {
    var lines := ["index", "index", "search", "report"];
    assert lines[1..] == ["index", "search", "report"];
    assert lines[1..][1..] == ["search", "report"];
    assert ["search", "report"][2..] == [];
  }
}
