/**
 * One run of the script: the option checks of `__main__`, then `main`, which
 * opens the output file and writes the start line, loads both candidate
 * lists, runs the credential loop and writes the two trailer lines.
 */
module Session {
  import opened Wrappers
  import opened WordList
  import opened Options
  import opened Prober

  /**
   * The formatted clock readings of a run, taken as given: the start and end
   * timestamps (`%F %T`) and the elapsed seconds with three decimals.
   */
  datatype Clock = Clock(start: string, elapsed: string, finish: string)

  function StartLine(clock: Clock): string
  {
    "Start time: " + clock.start
  }

  /** The elapsed-time and end-time lines, written the same way on every exit. */
  function Trailer(clock: Clock): seq<string>
  {
    ["Elapsed time: " + clock.elapsed + " s", "End time: " + clock.finish]
  }

  /** What the output file holds after a completed run. */
  function SinkLog(attempts: seq<Credential>, connect: Oracle, clock: Clock): seq<string>
  {
    [StartLine(clock)] + FoundLines(Successes(attempts, connect)) + Trailer(clock)
  }

  /** How a run ends. */
  datatype Outcome =
    | Rejected(reason: ConfigError, message: string)  // an option check fails before `main`;
                                                    // `message` is the intended text, the script
                                                    // itself dies with a `NameError`
    | SinkFailed                         // the output file cannot be opened
    | LoadFailed(error: LoadError)       // a list file cannot be read or has no lines,
                                         // or the loop reads a list that was never bound
    | Completed(attempts: seq<Credential>)

  /**
   * How `main` ends for the given files, output permission and oracle. Both
   * lists are loaded first (lines 68-82), so a file error on either comes
   * first. A list with no source is only noticed when the loop reads it: the
   * usernames when the outer loop starts, the passwords when the inner loop
   * first starts, which never happens when the usernames are empty.
   */
  function MainOutcome(args: Args, files: map<string, seq<string>>, sinkOpens: bool, connect: Oracle): Outcome
  {
    if Given(args.output) && !sinkOpens then SinkFailed
    else
      var users := Candidates(args.username, args.userlist, files);
      var passwords := Candidates(args.password, args.passlist, files);
      if users.Err? && users.error != Unbound then LoadFailed(users.error)
      else if passwords.Err? && passwords.error != Unbound then LoadFailed(passwords.error)
      else if users.Err? then LoadFailed(Unbound)
      else if passwords.Err? && users.value != [] then LoadFailed(Unbound)
      else Completed(Attempted(users.value, if passwords.Ok? then passwords.value else [], connect, args.forcequit))
  }

  /**
   * What the output file holds once `main` has ended: nothing when no file
   * is written, the start line alone when a list fails to load, and the full
   * log after a completed loop.
   */
  function OutputFile(args: Args, files: map<string, seq<string>>, sinkOpens: bool, connect: Oracle, clock: Clock)
    : Option<seq<string>>
  {
    if !Given(args.output) || !sinkOpens then None
    else
      match MainOutcome(args, files, sinkOpens, connect)
      case Completed(attempts) => Some(SinkLog(attempts, connect, clock))
      case _ => Some([StartLine(clock)])
  }

  /** The returned sink is the output file `OutputFile` describes. */
  ghost predicate SinkAsExpected(sink: Sink?, args: Args, files: map<string, seq<string>>, sinkOpens: bool,
                                 connect: Oracle, clock: Clock)
    reads sink
  {
    match OutputFile(args, files, sinkOpens, connect, clock)
    case None => sink == null
    case Some(lines) => sink != null && sink.lines == lines
  }

  /**
   * `main`: opens the output file and writes the start line, loads both
   * candidate lists, runs the credential loop and writes the trailer. `files`
   * maps each readable path to its lines, `sinkOpens` says whether the output
   * path can be opened for writing, and `connect` is the FTP login oracle.
   */
  method Execute(args: Args, files: map<string, seq<string>>, sinkOpens: bool, connect: Oracle, clock: Clock)
    returns (outcome: Outcome, sink: Sink?)
    ensures outcome == MainOutcome(args, files, sinkOpens, connect)
    ensures SinkAsExpected(sink, args, files, sinkOpens, connect, clock)
    ensures sink != null ==> fresh(sink) && (outcome.Completed? <==> !sink.isOpen)
  {
    sink := null;
    if Given(args.output) {
      if !sinkOpens {
        outcome := SinkFailed;
        return;
      }
      sink := new Sink();
      sink.Write(StartLine(clock));
    }
    var users := Candidates(args.username, args.userlist, files);
    if users.Err? && users.error != Unbound {
      outcome := LoadFailed(users.error);
      return;
    }
    var passwords := Candidates(args.password, args.passlist, files);
    if passwords.Err? && passwords.error != Unbound {
      outcome := LoadFailed(passwords.error);
      return;
    }
    if users.Err? {
      outcome := LoadFailed(Unbound);  // `for username in usernames` reads an unbound name
      return;
    }
    if passwords.Err? && users.value != [] {
      outcome := LoadFailed(Unbound);  // `for password in passwords` reads an unbound name
      return;
    }
    var candidates := if passwords.Ok? then passwords.value else [];
    var attempts := Probe(users.value, candidates, connect, args.forcequit, sink);
    if sink != null {
      var trailer := Trailer(clock);
      sink.Write(trailer[0]);
      sink.Write(trailer[1]);
      sink.Close();
      assert sink.lines == [StartLine(clock)] + FoundLines(Successes(attempts, connect)) + trailer;
    }
    outcome := Completed(attempts);
  }

  /** The `__main__` block: the option checks, then `main` when they pass. */
  method Script(args: Args, files: map<string, seq<string>>, sinkOpens: bool, connect: Oracle, clock: Clock)
    returns (outcome: Outcome, sink: Sink?)
    ensures Validate(args).Some? ==> outcome == Rejected(Validate(args).value, Message(Validate(args).value)) && sink == null
    ensures Validate(args) == None ==>
      outcome == MainOutcome(args, files, sinkOpens, connect) &&
      SinkAsExpected(sink, args, files, sinkOpens, connect, clock)
    ensures sink != null ==> fresh(sink) && (outcome.Completed? <==> !sink.isOpen)
  {
    var rejection := Validate(args);
    if rejection.Some? {
      outcome, sink := Rejected(rejection.value, Message(rejection.value)), null;
      return;
    }
    outcome, sink := Execute(args, files, sinkOpens, connect, clock);
  }

  /**
   * After the option checks pass, a run ends in one of three ways only: the
   * output file does not open, a list file is missing or has no lines, or
   * the loop completes over the loaded lists.
   */
  lemma {:induction false} AcceptedOutcomes(args: Args, files: map<string, seq<string>>, sinkOpens: bool, connect: Oracle)
    requires Validate(args) == None
    ensures var o := MainOutcome(args, files, sinkOpens, connect);
      && (o == SinkFailed <==> Given(args.output) && !sinkOpens)
      && (o.LoadFailed? ==> o.error.NoSuchFile? || o.error.EmptyFile?)
      && !o.Rejected?
  {
    ValidatedBindsBoth(args, files);
  }

  /**
   * A list with no source fails only where the loop reads it: with usernames
   * that load empty the inner loop never starts, so an unbound password list
   * goes unnoticed and the run completes with no attempts.
   */
  lemma UnboundPasswordsUnread(args: Args, files: map<string, seq<string>>, sinkOpens: bool, connect: Oracle)
    requires !Given(args.output) || sinkOpens
    requires Candidates(args.username, args.userlist, files) == Ok([])
    requires Candidates(args.password, args.passlist, files) == Err(Unbound)
    ensures MainOutcome(args, files, sinkOpens, connect) == Completed([])
  {
  }

  /** Both list files are opened before the loop reads either list. */
  lemma FileErrorsComeFirst(args: Args, files: map<string, seq<string>>, sinkOpens: bool, connect: Oracle)
    requires !Given(args.output) || sinkOpens
    requires Candidates(args.username, args.userlist, files) == Err(Unbound)
    requires Candidates(args.password, args.passlist, files).Err?
    ensures MainOutcome(args, files, sinkOpens, connect) ==
      LoadFailed(Candidates(args.password, args.passlist, files).error)
  {
  }

  /**
   * The output file only ever holds the start line, `Found:` lines for pairs
   * that logged in, in the order they were tried, and the trailer: a failed
   * attempt never reaches it, whatever the verbosity.
   */
  lemma SinkLogShape(attempts: seq<Credential>, connect: Oracle, clock: Clock)
    ensures |SinkLog(attempts, connect, clock)| == |Successes(attempts, connect)| + 3
    ensures SinkLog(attempts, connect, clock)[0] == StartLine(clock)
    ensures SinkLog(attempts, connect, clock)[|Successes(attempts, connect)| + 1..] == Trailer(clock)
    ensures forall k :: 1 <= k <= |Successes(attempts, connect)| ==>
      exists c :: c in attempts && Succeeds(connect, c) && SinkLog(attempts, connect, clock)[k] == FoundLine(c)
  {
    var found := Successes(attempts, connect);
    var log := SinkLog(attempts, connect, clock);
    SuccessesSound(attempts, connect);
    forall k | 1 <= k <= |found|
      ensures exists c :: c in attempts && Succeeds(connect, c) && log[k] == FoundLine(c)
    {
      var c := found[k - 1];
      assert log[k] == FoundLine(c);
      SuccessesIn(attempts, connect, k - 1);
    }
  }

  /** With `-f` at most one `Found:` line is written, and one exactly when some pair logs in. */
  lemma ForceQuitFindsAtMostOne(us: seq<string>, ps: seq<string>, connect: Oracle)
    ensures var found := Successes(Attempted(us, ps, connect, true), connect);
      && |found| <= 1
      && (|found| == 1 <==> !NoneSucceed(Product(us, ps), connect))
  {
    var xs := Product(us, ps);
    var r := UntilFirst(xs, connect);
    if NoneSucceed(xs, connect) {
      SuccessesEmpty(r, connect);
    } else {
      var front := r[..|r| - 1];
      assert r == front + [r[|r| - 1]];
      SuccessesEmpty(front, connect);
      SuccessesSnoc(front, r[|r| - 1], connect);
    }
  }
}
