/** The interactive audio player: each input line is stripped and lowered,
    then dispatched as `quit`/`exit`, `list`, `stop`, `play <name>` or,
    failing all of those, a help message. The player is in one of two
    states, idle or holding the process playing the last file started.
    Launching a player process is outside the model: the caller supplies
    its outcome, a process token or a launch error, and the model records
    which processes were started and which were terminated. */
module AudioPlayer {
  import opened Wrappers
  import opened Text

  /** An opaque handle on a launched player process. */
  type Proc = nat

  /** The outcome of launching the external player for one file. */
  datatype Launch = Launched(p: Proc) | LaunchError

  /** What the player does to processes. */
  datatype Effect = Started(p: Proc, file: string) | Terminated(p: Proc)

  /** The player's state: the process it holds, if any, and the audio
      files it found at start-up. */
  datatype Player = Player(current: Option<Proc>, files: seq<string>)

  /** A command after normalisation. */
  datatype Command = Quit | List | Stop | Play(file: string) | Help

  /** One read from the terminal: a line, or an operator interrupt. */
  datatype Input = Line(text: string) | Interrupt

  /** The state, the effects and whether the loop ends, after one input. */
  datatype StepResult = StepResult(player: Player, effects: seq<Effect>, done: bool)

  /** The state after a play attempt, whether it succeeded, and the
      processes it started. */
  datatype PlayResult = PlayResult(player: Player, ok: bool, effects: seq<Effect>)

  /** The state after stopping playback and the processes it terminated. */
  datatype StopResult = StopResult(player: Player, effects: seq<Effect>)

  /** The player as constructed: idle. */
  function NewPlayer(files: seq<string>): (pl: Player)
    ensures pl.current == None && pl.files == files
  {
    Player(None, files)
  }

  /** Every command line is stripped first and lowered second. */
  function Normalize(line: string): string {
    Lower(Strip(line))
  }

  /** The command is the lowered slice of the line left once the
      whitespace at both ends is cut off: it has no whitespace at either
      end and no capital letter. */
  lemma NormalizeSpec(line: string)
    ensures var c := Normalize(line);
            && (exists i, j :: 0 <= i <= j <= |line| && c == Lower(line[i..j])
                  && AllSpace(line[..i]) && AllSpace(line[j..]))
            && Trimmed(c)
            && (forall i :: 0 <= i < |c| ==> !IsUpper(c[i]))
            && |c| <= |line|
  {
    StripSpec(line);
    LowerKeepsSpace(Strip(line));
  }

  /** Recognises a normalised command: quit and exit are the same command,
      list and stop are themselves, anything starting with "play " plays the
      rest of the line, and everything else asks for help. */
  function Recognise(c: string): (cmd: Command)
    ensures cmd == Quit <==> c == "quit" || c == "exit"
    ensures cmd == List <==> c == "list"
    ensures cmd == Stop <==> c == "stop"
    ensures cmd.Play? <==> StartsWith(c, "play ")
    ensures cmd.Play? ==> c == "play " + cmd.file
    ensures cmd == Help <==> c != "quit" && c != "exit" && c != "list" && c != "stop" && !StartsWith(c, "play ")
  {
    if c == "quit" || c == "exit" then Quit
    else if c == "list" then List
    else if c == "stop" then Stop
    else if StartsWith(c, "play ") then
      assert c == c[..5] + c[5..];
      Play(c[5..])
    else Help
  }

  function Parse(line: string): Command {
    Recognise(Normalize(line))
  }

  /** Plays a file: a name the player does not know, or a failed launch,
      reports false and changes nothing; otherwise the new process becomes
      the current one. Any process already playing is not terminated. */
  function PlayFile(pl: Player, file: string, launch: Launch): (res: PlayResult)
    ensures res.player.files == pl.files
    ensures res.ok <==> file in pl.files && launch.Launched?
    ensures res.ok ==> res.player.current == Some(launch.p) && res.effects == [Started(launch.p, file)]
    ensures !res.ok ==> res.player == pl && res.effects == []
  {
    if file !in pl.files then PlayResult(pl, false, [])
    else match launch
      case Launched(p) => PlayResult(pl.(current := Some(p)), true, [Started(p, file)])
      case LaunchError => PlayResult(pl, false, [])
  }

  /** Stops playback: the current process, if any, is terminated, and the
      player is left idle in every case. */
  function StopPlayback(pl: Player): (res: StopResult)
    ensures res.player == pl.(current := None)
    ensures res.effects == match pl.current case Some(p) => [Terminated(p)] case None => []
  {
    match pl.current
    case Some(p) => StopResult(pl.(current := None), [Terminated(p)])
    case None => StopResult(pl, [])
  }

  /** Handles one input. An interrupt behaves like quit. */
  function Step(pl: Player, input: Input, launch: Launch): (res: StepResult)
    ensures res.player.files == pl.files
    ensures res.done <==> input.Interrupt? || Parse(input.text) == Quit
    ensures res.done ==> res.player.current == None
  {
    if input.Interrupt? then
      var stop := StopPlayback(pl);
      StepResult(stop.player, stop.effects, true)
    else match Parse(input.text)
      case Quit =>
        var stop := StopPlayback(pl);
        StepResult(stop.player, stop.effects, true)
      case List => StepResult(pl, [], false)
      case Stop =>
        var stop := StopPlayback(pl);
        StepResult(stop.player, stop.effects, false)
      case Play(f) =>
        var play := PlayFile(pl, f, launch);
        StepResult(play.player, play.effects, false)
      case Help => StepResult(pl, [], false)
  }

  /** The state and effects after the interactive loop has read some
      inputs, and how many it read before stopping. */
  datatype RunResult = RunResult(player: Player, effects: seq<Effect>, consumed: nat, done: bool)

  /** Runs the loop over the inputs, pairing input i with launch outcome i,
      until quit, exit or an interrupt, or until the inputs run out. */
  function RunLoop(pl: Player, inputs: seq<Input>, launches: seq<Launch>): (res: RunResult)
    requires |launches| == |inputs|
    ensures res.consumed <= |inputs|
    ensures res.player.files == pl.files
    ensures res.done ==> res.player.current == None
    decreases |inputs|
  {
    if inputs == [] then RunResult(pl, [], 0, false)
    else
      var s := Step(pl, inputs[0], launches[0]);
      if s.done then RunResult(s.player, s.effects, 1, true)
      else
        var rest := RunLoop(s.player, inputs[1..], launches[1..]);
        RunResult(rest.player, s.effects + rest.effects, rest.consumed + 1, rest.done)
  }

  /** An input that ends the loop. */
  predicate Ends(input: Input) {
    input.Interrupt? || Parse(input.text) == Quit
  }

  /** The loop stops on an ending input, or reads every input. */
  lemma {:induction false} LoopStopsOnEnd(pl: Player, inputs: seq<Input>, launches: seq<Launch>)
    requires |launches| == |inputs|
    ensures var res := RunLoop(pl, inputs, launches);
            && (res.done ==> res.consumed > 0 && Ends(inputs[res.consumed - 1]))
            && (!res.done ==> res.consumed == |inputs|)
    decreases |inputs|
  {
    if inputs != [] {
      var s := Step(pl, inputs[0], launches[0]);
      if !s.done {
        LoopStopsOnEnd(s.player, inputs[1..], launches[1..]);
        var rest := RunLoop(s.player, inputs[1..], launches[1..]);
        assert RunLoop(pl, inputs, launches).consumed == rest.consumed + 1;
        if rest.done {
          assert inputs[rest.consumed] == inputs[1..][rest.consumed - 1];
        }
      }
    }
  }

  /** Every input the loop read before its last one is not an ending
      input, and neither is the last one when the loop did not end. */
  lemma {:induction false} LoopSkipsNoEnd(pl: Player, inputs: seq<Input>, launches: seq<Launch>)
    requires |launches| == |inputs|
    ensures var res := RunLoop(pl, inputs, launches);
            forall k :: 0 <= k < res.consumed && (k < res.consumed - 1 || !res.done) ==> !Ends(inputs[k])
    decreases |inputs|
  {
    if inputs != [] {
      var s := Step(pl, inputs[0], launches[0]);
      if !s.done {
        LoopSkipsNoEnd(s.player, inputs[1..], launches[1..]);
        var res := RunLoop(pl, inputs, launches);
        var rest := RunLoop(s.player, inputs[1..], launches[1..]);
        assert res.consumed == rest.consumed + 1 && res.done == rest.done;
        forall k | 0 < k < res.consumed
          ensures inputs[k] == inputs[1..][k - 1]
        {
        }
      }
    }
  }

  /** The loop reads up to and including the first ending input and no
      further; it ends exactly when there is one. */
  lemma LoopStopsAtFirstEnd(pl: Player, inputs: seq<Input>, launches: seq<Launch>)
    requires |launches| == |inputs|
    ensures var res := RunLoop(pl, inputs, launches);
            && (res.done <==> exists k :: 0 <= k < |inputs| && Ends(inputs[k]))
            && (res.done ==> res.consumed > 0 && Ends(inputs[res.consumed - 1]))
            && (forall k :: 0 <= k < res.consumed - 1 ==> !Ends(inputs[k]))
            && (!res.done ==> res.consumed == |inputs|)
  {
    var res := RunLoop(pl, inputs, launches);
    LoopStopsOnEnd(pl, inputs, launches);
    LoopSkipsNoEnd(pl, inputs, launches);
    if res.done {
      assert 0 <= res.consumed - 1 < |inputs| && Ends(inputs[res.consumed - 1]);
    } else {
      assert forall k :: 0 <= k < |inputs| ==> !Ends(inputs[k]);
    }
  }

  /** Normalisation is idempotent: a normalised line normalises to itself,
      so the dispatcher sees the same command either way. */
  lemma NormalizeIdempotent(line: string)
    ensures Normalize(Normalize(line)) == Normalize(line)
    ensures Parse(Normalize(line)) == Parse(line)
  {
    var c := Normalize(line);
    NormalizeSpec(line);
    StripTrimmed(c);
    LowerIdempotent(Strip(line));
  }

  /** Case and surrounding whitespace do not matter: every line parses
      as its lower-cased self, and as itself with whitespace added at
      either end. */
  lemma ParseIgnoresCaseAndSpace(line: string, front: string, back: string)
    requires AllSpace(front) && AllSpace(back)
    ensures Parse(Lower(line)) == Parse(line)
    ensures Parse(front + line + back) == Parse(line)
  {
    StripLower(line);
    LowerIdempotent(Strip(line));
    StripPadding(front, line, back);
  }

  /** "play" alone, or followed only by whitespace, is not a play command:
      stripping removes the space the prefix test needs. */
  lemma BarePlayIsHelp(line: string)
    requires Normalize(line) == "play"
    ensures Parse(line) == Help
  {
  }

  /** "play " with its trailing space is stripped to "play" before the
      prefix test, so it is not a play command either. */
  lemma PlaySpaceIsHelp(line: string)
    requires line == "play "
    ensures Normalize(line) == "play"
    ensures Parse(line) == Help
  {
    assert line[0..4] == "play";
    StripSlice(line, 0, 4);
    assert Lower("play") == "play";
  }

  /** A play command's file name has been lowered with the rest of the
      line, so a file whose name has a capital letter can never be played
      from the prompt, even when it was found at start-up. */
  lemma CapitalisedFilesUnplayable(pl: Player, line: string, launch: Launch, name: string)
    requires Parse(line).Play?
    requires exists i :: 0 <= i < |name| && IsUpper(name[i])
    ensures Parse(line).file != name
    ensures name in pl.files && Parse(line).file !in pl.files ==>
              !PlayFile(pl, Parse(line).file, launch).ok
  {
    var c := Normalize(line);
    NormalizeSpec(line);
    var f := Parse(line).file;
    assert c == "play " + f;
    var i :| 0 <= i < |name| && IsUpper(name[i]);
  }

  /** quit and exit stop playback: a process that was playing is
      terminated, the player ends idle and the loop ends. */
  lemma QuitStopsPlayback(pl: Player, line: string, launch: Launch, p: Proc)
    requires Parse(line) == Quit && pl.current == Some(p)
    ensures var res := Step(pl, Line(line), launch);
            res.done && res.player.current == None && res.effects == [Terminated(p)]
  {
  }

  /** Stopping twice is stopping once, and stopping an idle player does
      nothing at all. */
  lemma StopIdempotent(pl: Player)
    ensures StopPlayback(StopPlayback(pl).player).player == StopPlayback(pl).player
    ensures StopPlayback(StopPlayback(pl).player).effects == []
    ensures pl.current == None ==> StopPlayback(pl) == StopResult(pl, [])
  {
  }

  /** list and unrecognised commands leave the player as it was. */
  lemma ListAndHelpKeepState(pl: Player, line: string, launch: Launch)
    requires Parse(line) == List || Parse(line) == Help
    ensures Step(pl, Line(line), launch) == StepResult(pl, [], false)
  {
  }

  /** A play command for a known file whose launch succeeds makes the new
      process the current one, whatever was playing before. */
  lemma PlayStep(pl: Player, line: string, p: Proc)
    requires Parse(line).Play? && Parse(line).file in pl.files
    ensures Step(pl, Line(line), Launched(p)) ==
              StepResult(Player(Some(p), pl.files), [Started(p, Parse(line).file)], false)
  {
  }

  /** A stop command terminates the current process, if any, and leaves
      the player idle without ending the loop. */
  lemma StopStep(pl: Player, line: string, launch: Launch)
    requires Parse(line) == Stop
    ensures Step(pl, Line(line), launch) == StepResult(pl.(current := None), StopPlayback(pl).effects, false)
  {
  }

  /** An input that does not end the loop puts its step's effects in
      front of the rest of the run. */
  lemma RunLoopCons(pl: Player, i: Input, l: Launch, inputs: seq<Input>, launches: seq<Launch>)
    requires |launches| == |inputs|
    requires !Step(pl, i, l).done
    ensures var s := Step(pl, i, l);
            var rest := RunLoop(s.player, inputs, launches);
            RunLoop(pl, [i] + inputs, [l] + launches)
              == RunResult(rest.player, s.effects + rest.effects, rest.consumed + 1, rest.done)
  {
    assert ([i] + inputs)[1..] == inputs;
    assert ([l] + launches)[1..] == launches;
  }

  /** Playing while something plays does not terminate the old process:
      after playing a and then b, stopping terminates only b's process, and
      a's process, still playing, is never terminated. */
  lemma OldProcessOrphaned(files: seq<string>, la: string, lb: string, ls: string, p: Proc, q: Proc)
    requires Parse(la).Play? && Parse(la).file in files
    requires Parse(lb).Play? && Parse(lb).file in files
    requires Parse(ls) == Stop && p != q
    ensures var inputs := [Line(la), Line(lb), Line(ls)];
            var res := RunLoop(NewPlayer(files), inputs, [Launched(p), Launched(q), LaunchError]);
            && res.effects == [Started(p, Parse(la).file), Started(q, Parse(lb).file), Terminated(q)]
            && Terminated(p) !in res.effects
            && res.player.current == None && !res.done
  {
    var pl0 := NewPlayer(files);
    var pl1 := Player(Some(p), files);
    var pl2 := Player(Some(q), files);
    PlayStep(pl0, la, p);
    PlayStep(pl1, lb, q);
    StopStep(pl2, ls, LaunchError);
    RunLoopCons(pl2, Line(ls), LaunchError, [], []);
    RunLoopCons(pl1, Line(lb), Launched(q), [Line(ls)], [LaunchError]);
    RunLoopCons(pl0, Line(la), Launched(p), [Line(lb), Line(ls)], [Launched(q), LaunchError]);
    assert [Line(ls)] + [] == [Line(ls)] && [LaunchError] + [] == [LaunchError];
    assert [Line(lb)] + [Line(ls)] == [Line(lb), Line(ls)];
    assert [Launched(q)] + [LaunchError] == [Launched(q), LaunchError];
    assert [Line(la)] + [Line(lb), Line(ls)] == [Line(la), Line(lb), Line(ls)];
    assert [Launched(p)] + [Launched(q), LaunchError] == [Launched(p), Launched(q), LaunchError];
    var eff := [Started(p, Parse(la).file), Started(q, Parse(lb).file), Terminated(q)];
    assert [Started(p, Parse(la).file)] + [Started(q, Parse(lb).file)] + [Terminated(q)] == eff;
    assert eff[0] != Terminated(p) && eff[1] != Terminated(p) && eff[2] != Terminated(p);
  }
}
