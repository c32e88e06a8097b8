/**
 * The shell's command dispatcher (`Shell::execute_command`).
 *
 * The builtins are `cd`, `alias` (accepted and ignored) and `exit`; any
 * other command is spawned as a child process and waited for. The
 * operating system is reached only through two calls, changing the working
 * directory and spawning a process, and both are parameters here (`Os`),
 * together with the home directory `dirs::home_dir()` would report. What
 * the shell prints is recorded as a `Report` instead of being written out.
 */
module Josh {
  import opened Wrappers
  import opened Paths

  /** An `std::io::Error`, seen only through its `raw_os_error()`. */
  datatype IoError = IoError(rawOsError: Option<int>)

  /** The one message a command prints, or none. */
  datatype Report =
    | Silent
      // josh: cd: too many arguments
    | TooManyArguments
      // josh: cd: <dir>: No such file or directory
    | NoSuchDirectory(dir: string)
      // josh: cd: other error: <error>, on standard error
    | OtherCdError(error: IoError)
      // josh: <name>: command not found
    | CommandNotFound(name: string)

  /**
   * How a command ends: it returns whether the shell should keep reading
   * commands, or it panics (an `unwrap` on `None`), which ends the shell.
   */
  datatype Outcome = Returned(keepRunning: bool, report: Report) | Panicked

  /**
   * The two system calls a command makes: `env::set_current_dir`, which
   * fails with an error or succeeds (`None`), and `Command::spawn`, which
   * starts the program or fails to.
   */
  datatype Os = Os(setCurrentDir: Path -> Option<IoError>, spawn: (string, seq<string>) -> bool)

  /** The POSIX error number for "no such file or directory". */
  const ENOENT: int := 2

  /** The report of a failed change of directory into the typed `dir`. */
  function CdErrorReport(dir: string, e: IoError): (r: Report)
    ensures r == NoSuchDirectory(dir) <==> e.rawOsError == Some(ENOENT)
    ensures r == Silent <==> e.rawOsError == None
    ensures r.OtherCdError? ==> r.error == e
    ensures e.rawOsError.Some? && e.rawOsError.value != ENOENT ==> r == OtherCdError(e)
  {
    match e.rawOsError
    case None => Silent
    case Some(code) => if code == ENOENT then NoSuchDirectory(dir) else OtherCdError(e)
  }

  /**
   * The second half of `cd`, once the working directory field holds `wDir`:
   * expand a leading `~`, change into the result and report a failure. An
   * unknown home directory makes the expansion `None`, and unwrapping it
   * panics.
   */
  function ChangeDirectory(wDir: string, home: Option<Path>, os: Os): (o: Outcome)
    ensures o == Panicked <==> home == None && StartsWith(Parse(wDir), Tilde)
    ensures o.Returned? ==> o.keepRunning
    ensures o.Returned? && o.report.NoSuchDirectory? ==> o.report.dir == wDir
    ensures o.Returned? ==> !o.report.TooManyArguments? && !o.report.CommandNotFound?
    ensures o.Returned? ==>
      ExpandTilde(home, Parse(wDir)).Some? &&
      o.report == (match os.setCurrentDir(ExpandTilde(home, Parse(wDir)).value)
                   case None => Silent
                   case Some(e) => CdErrorReport(wDir, e))
  {
    match ExpandTilde(home, Parse(wDir))
    case None => Panicked
    case Some(target) =>
      Returned(true, match os.setCurrentDir(target)
                     case None => Silent
                     case Some(e) => CdErrorReport(wDir, e))
  }

  /** The working directory and the outcome after one command. */
  datatype Response = Response(wDir: string, outcome: Outcome)

  /**
   * One command, run in working directory `wDir`. Only `cd` with at most one
   * argument changes the working directory, and it keeps the new value even
   * when changing into it fails; only `exit` stops the shell; only `cd` can
   * panic, and only when home is unknown and the directory starts with `~`.
   */
  function Respond(wDir: string, command: string, argv: seq<string>, home: Option<Path>, os: Os): (r: Response)
    ensures r.outcome.Returned? && !r.outcome.keepRunning <==> command == "exit"
    ensures r.wDir != wDir ==> command == "cd" && |argv| <= 1
    ensures command == "cd" && |argv| <= 1 ==> r.wDir == (if argv == [] then "~" else argv[0])
    ensures r.outcome == Panicked <==>
      command == "cd" && |argv| <= 1 && home == None && StartsWith(Parse(r.wDir), Tilde)
    ensures r.outcome == Returned(true, TooManyArguments) <==> command == "cd" && |argv| >= 2
    ensures r.outcome.Returned? && r.outcome.report.NoSuchDirectory? ==>
      command == "cd" && r.outcome.report.dir == r.wDir
    ensures r.outcome.Returned? && r.outcome.report.CommandNotFound? <==>
      command != "cd" && command != "alias" && command != "exit" && !os.spawn(command, argv)
    ensures r.outcome.Returned? && r.outcome.report.CommandNotFound? ==> r.outcome.report.name == command
    ensures command == "cd" && |argv| <= 1 ==> r.outcome == ChangeDirectory(r.wDir, home, os)
    ensures command != "cd" ==>
      r.wDir == wDir && r.outcome.Returned? &&
      (r.outcome.report == Silent || r.outcome.report == CommandNotFound(command))
    ensures command == "alias" ==> r == Response(wDir, Returned(true, Silent))
  {
    if command == "cd" then
      if |argv| >= 2 then Response(wDir, Returned(true, TooManyArguments))
      else
        var dir := if |argv| == 1 then argv[0] else "~";
        Response(dir, ChangeDirectory(dir, home, os))
    else if command == "alias" then Response(wDir, Returned(true, Silent))
    else if command == "exit" then Response(wDir, Returned(false, Silent))
    else Response(wDir, Returned(true, if os.spawn(command, argv) then Silent else CommandNotFound(command)))
  }

  /** `cd` alone changes into the home directory, whatever it is. */
  lemma {:induction false} CdHome(wDir: string, h: Path, os: Os)
    ensures Respond(wDir, "cd", [], Some(h), os) ==
      Response("~", Returned(true, match os.setCurrentDir(h)
                                   case None => Silent
                                   case Some(e) => CdErrorReport("~", e)))
  {
    TildeAndRootLiterals();
  }

  /**
   * `cd d`, for any `d` other than `~` and not starting with `~/` (`/d`,
   * `foo`, `..`, `~user`), never panics, home or no home, and changes into
   * `d` exactly as parsed.
   */
  lemma {:induction false} CdWithoutTilde(wDir: string, d: string, home: Option<Path>, os: Os)
    requires d != "~" && !(|d| >= 2 && d[0] == '~' && d[1] == '/')
    ensures Respond(wDir, "cd", [d], home, os) ==
      Response(d, Returned(true, match os.setCurrentDir(Parse(d))
                                 case None => Silent
                                 case Some(e) => CdErrorReport(d, e)))
  {
    ParseStartsWithTilde(d);
  }

  /** `cd ~` typed out is the same as `cd` alone, except for the name reported. */
  lemma {:induction false} CdTildeArgument(wDir: string, home: Option<Path>, os: Os)
    ensures Respond(wDir, "cd", ["~"], home, os) == Respond(wDir, "cd", [], home, os)
    ensures home == None ==> Respond(wDir, "cd", ["~"], home, os).outcome == Panicked
  {
    TildeAndRootLiterals();
  }

  /**
   * `cd ~/r` with a known home other than the root changes into home joined
   * with `r`.
   */
  lemma {:induction false} CdUnderHome(wDir: string, r: string, h: Path, os: Os)
    requires h != Root && Body(r) != []
    ensures Respond(wDir, "cd", [['~', '/'] + r], Some(h), os).outcome ==
      Returned(true, match os.setCurrentDir(h + Body(r))
                     case None => Silent
                     case Some(e) => CdErrorReport(['~', '/'] + r, e))
  {
    ExpandTildeSlash(h, r);
  }

  /**
   * `cd ~/r` when home is the root changes into `r` alone, which is relative:
   * it names `r` under the current directory of the process, not under `/`.
   */
  lemma {:induction false} CdUnderRootHome(wDir: string, r: string, os: Os)
    requires Body(r) != []
    ensures Respond(wDir, "cd", [['~', '/'] + r], Some(Root), os).outcome ==
      Returned(true, match os.setCurrentDir(Body(r))
                     case None => Silent
                     case Some(e) => CdErrorReport(['~', '/'] + r, e))
    ensures !IsAbsolute(Body(r))
  {
    ExpandTildeSlash(Root, r);
  }

  /** The shell's state; `new` fills it in from the environment. */
  class Shell {
    var wDir: string
    var rcPath: string
    var histPath: string

    constructor (wDir: string, rcPath: string, histPath: string)
      ensures this.wDir == wDir && this.rcPath == rcPath && this.histPath == histPath
    {
      this.wDir := wDir;
      this.rcPath := rcPath;
      this.histPath := histPath;
    }

    /**
     * Runs one command and says whether to keep running. The working
     * directory is set before changing into it, so a failed `cd` still
     * changes it; the two other paths never change.
     */
    method ExecuteCommand(command: string, argv: seq<string>, home: Option<Path>, os: Os)
      returns (outcome: Outcome)
      modifies this
      ensures Response(wDir, outcome) == Respond(old(wDir), command, argv, home, os)
      ensures rcPath == old(rcPath) && histPath == old(histPath)
      ensures outcome.Returned? && !outcome.keepRunning <==> command == "exit"
      ensures wDir != old(wDir) ==> command == "cd" && |argv| <= 1
    {
      if command == "cd" {
        if |argv| == 1 {
          wDir := argv[0];
        } else if |argv| == 0 {
          wDir := "~";
        } else {
          return Returned(true, TooManyArguments);
        }
        var target := ExpandTilde(home, Parse(wDir));
        if target.None? {
          return Panicked;
        }
        var report := Silent;
        var err := os.setCurrentDir(target.value);
        if err.Some? {
          var e := err.value;
          if e.rawOsError.Some? {
            if e.rawOsError.value == ENOENT {
              report := NoSuchDirectory(wDir);
            } else {
              report := OtherCdError(e);
            }
          }
        }
        outcome := Returned(true, report);
      } else if command == "alias" {
        outcome := Returned(true, Silent);
      } else if command == "exit" {
        return Returned(false, Silent);
      } else {
        var spawned := os.spawn(command, argv);
        if spawned {
          outcome := Returned(true, Silent);
        } else {
          outcome := Returned(true, CommandNotFound(command));
        }
      }
    }
  }
}
