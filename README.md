# josh: a verified model of the shell's core

josh is a small interactive shell written in Rust. Its core has three parts, all in `src/main.rs`:

- **`parse_argv`** splits an input line into an argument vector.
  - Outside double quotes, a space starts a new field. A newline is dropped. Every other character is added to the last field.
  - A `"` copies everything up to the next `"` (or to the end of the line) into the last field, unchanged.
  - The `$` arm of the loop is empty and does not advance, so a `$` outside quotes keeps the loop running forever.
- **`expand_tilde`** rewrites a leading `~` or `~/…` in a path using the home directory.
- **`Shell::execute_command`** runs one command:
  - the builtins `cd`, `alias` (accepted and ignored) and `exit`;
  - any other command is spawned as a child process, and the shell waits for it.

The project is one Dafny module per part, plus a small `Wrappers` module for `Option`.

- **`Tokenizer`** (`tokenizer.dfy`)
  - `Fields(s)` specifies the field vector of a line. It is defined one character at a time. A character lies inside quotes exactly when an odd number of `"` precede it (`Quoted`).
  - `ParseArgv` is the loop itself, with its inner loop for quoted spans. Its loop invariants prove that it returns `Fields(total)`.
  - `Step` and `Iterate` describe one round, and several rounds, of the outer loop. They are used to prove that the loop finishes exactly when no `$` lies outside quotes, and never finishes otherwise.
- **`Paths`** (`paths.dfy`) models paths the way Rust's standard library sees them on Unix: as a sequence of components.
  - `Parse` models `Path::components`. `Render` is its inverse.
  - `starts_with`, `strip_prefix`, `push` and path equality all work on components. That is why `~user` does not start with `~`.
  - `ExpandTilde` is `expand_tilde`. The home directory, which `dirs::home_dir()` reads from the environment, is an `Option` parameter.
- **`Josh`** (`shell.dfy`) models the dispatcher.
  - The class `Shell` holds the three path fields of the Rust struct.
  - `ExecuteCommand` updates `wDir` the way the Rust method does, and returns an `Outcome`:
    - `Returned(keepRunning, report)`: the `bool` of the Rust method, plus the message it prints;
    - `Panicked`: what `expand_tilde(..).unwrap()` does when home is unknown.
  - The two system calls, `env::set_current_dir` and `Command::spawn`, are the fields of an `Os` value passed in.
  - `Respond` is the function that specifies `ExecuteCommand`.

The model follows the code. Where the code does less than a full shell would, the model does the same:

- runs of spaces are not collapsed, so `a  b` has an empty middle field;
- an empty line gives one empty field;
- an unterminated quote is not an error; it captures the rest of the line;
- there is no `$` expansion, no variable assignment and no alias table;
- `alias` does nothing;
- `cd` keeps the attempted directory in `w_dir` even when changing into it fails.

Joining the fields with single spaces and splitting again gives the same fields, but only when the fields are plain words (`SplitIdempotent`).

## Model

| member | source | states |
|---|---|---|
| Tokenizer.Fields | src/main.rs:34-64 | the field vector of any line without a `$` outside quotes has at least one field, because the vector starts as one empty field |
| Tokenizer.ParseArgv | src/main.rs:34-64 | the loop, with its inner quoted-span loop, returns exactly `Fields(total)` for every line with no `$` outside quotes |
| Tokenizer.FieldCount | src/main.rs:41-44 | the number of fields is one more than the number of spaces outside quotes, so runs of spaces are not collapsed |
| Tokenizer.FieldsHaveNoQuote | src/main.rs:48-55 | no field ever contains a `"` |
| Tokenizer.ConcatFields | src/main.rs:39-62 | joining the fields with nothing between them gives the line with every `"`, every unquoted space and every unquoted newline removed |
| Tokenizer.QuotedSpan | src/main.rs:48-55 | after an opening `"` outside quotes, everything up to the next `"` is added verbatim to the current field, spaces, newlines and `$` included; with no closing quote this covers the whole rest of the line, which stays inside quotes |
| Tokenizer.ClosedQuotedSpan | src/main.rs:48-55 | a closed quoted span `"b"` adds `b` to the current field and leaves the scanner outside quotes |
| Tokenizer.FieldsConcat | src/main.rs:39-62 | splitting a line at a point outside quotes: its fields are those of the two parts, with the last field of the first glued to the first field of the second |
| Tokenizer.SpaceSeparates | src/main.rs:41-44 | a space outside quotes separates the fields of its two sides and nothing more: the fields of `a␠b` are the fields of `a` followed by the fields of `b` |
| Tokenizer.PlainIsOneField | src/main.rs:57-60 | a word of ordinary characters (no space, `"`, newline or `$`) is one field, itself |
| Tokenizer.QuotedTextJoinsNeighbours | src/main.rs:48-60 | quoted text glues the words around it into one field: `a"b"d` with plain `a` and `d` is the single field `abd`, whatever spaces `b` holds |
| Tokenizer.FieldsUnsplit | src/main.rs:39-62 | plain words joined with single spaces split back into the same words |
| Tokenizer.SplitIdempotent | src/main.rs:34-64 | for a line whose fields are plain words, re-joining the fields with single spaces and splitting again gives the same fields |
| Tokenizer.UnquotedStep | src/main.rs:41-60 | one unquoted character keeps the outer-loop invariant: a space adds an empty field, a newline changes nothing, any other character except `"` and `$` is added to the last field |
| Tokenizer.OpenQuoteStep | src/main.rs:48-49 | an opening `"` outside quotes leaves the fields unchanged and moves the scanner into a quoted span |
| Tokenizer.QuotedCharStep | src/main.rs:50-53 | each character copied by the inner loop keeps the quoted-span invariant |
| Tokenizer.QuotedSpanEnd | src/main.rs:54 | leaving the inner loop and stepping over the closing quote (or one past the end of the line) restores the outer-loop invariant |
| Tokenizer.NextQuote | src/main.rs:50-53 | the inner loop stops at the first `"` at or after its start, or at the end of the line, and sees no `"` before that |
| Tokenizer.Step | src/main.rs:40-61 | one round of the outer loop advances exactly when the current character is not `$` |
| Tokenizer.Iterate | src/main.rs:39-62 | running the outer loop for up to `n` rounds never moves the position backwards or drops a field, stays within one past the end, and moves forward at least once unless it starts on a `$` |
| Tokenizer.DollarStalls | src/main.rs:45-47 | on a `$` the loop state is a fixed point, whatever the number of rounds |
| Tokenizer.StepKeepsOutside | src/main.rs:40-61 | on a line with no `$` outside quotes, every round starting outside quotes moves forward and ends outside quotes, with the fields of the longer prefix |
| Tokenizer.IterateComputesFields | src/main.rs:39-62 | enough rounds reach the end of the line, with the fields of the whole line |
| Tokenizer.UnquotedDollarHangs | src/main.rs:39-47 | with a `$` outside quotes, the loop condition `pos < len` holds after every number of rounds: the loop never exits |
| Tokenizer.LoopFinishesIff | src/main.rs:39-62 | the loop, run one round per character, finishes exactly when no `$` lies outside quotes, and then holds `Fields` of the line |
| Tokenizer.DollarExampleHangs | src/main.rs:45-47 | `echo $HOME` never finishes tokenizing |
| Paths.Parse | src/main.rs:8-9 | the components of a path: the path is absolute exactly when its text starts with `/`, and every component after the first is `..` or a name |
| Paths.StartsWith | src/main.rs:9 | `starts_with` holds exactly when the path is the prefix followed by further whole components |
| Paths.StripPrefix | src/main.rs:19-21 | `strip_prefix` gives what follows the prefix: the prefix followed by the result is the path |
| Paths.Push | src/main.rs:21 | `push` of an absolute path replaces the base; a relative path is appended, so the base is a prefix of the result and stripping it gives back what was pushed |
| Paths.ParseWellFormed | src/main.rs:8-9 | a parsed path has the root or `.` only as its first component, and every other component is `..` or a name that is not empty, `.` or `..` and contains no `/` |
| Paths.ParseRender | src/main.rs:8-9 | writing a well-formed path out as text and parsing it back gives the same path |
| Paths.ParseStartsWithTilde | src/main.rs:9-11 | a path starts with the `~` component exactly when its text is `~` or begins with `~/`; `~user` and `~~` are returned unchanged |
| Paths.TildeAndRootLiterals | src/main.rs:12-21 | the literals `~` and `~/` are the one-component path `~`, and `/` is the root |
| Paths.ExpandTilde | src/main.rs:7-25 | the expansion fails exactly when home is unknown and the path starts with `~`; a path not starting with `~` is returned unchanged; `~` alone is home |
| Paths.ParseTildeSlash | src/main.rs:21 | `~/r` is the `~` component followed by the components of `r` |
| Paths.ExpandTildeSlash | src/main.rs:15-24 | with home known, `~/r` is home when `r` names nothing; `r` alone, a relative path, when home is the root; otherwise home followed by the components of `r` |
| Paths.ExpandTildeUnderHome | src/main.rs:20-23 | with an absolute home other than the root, every path starting with `~` expands to an absolute path that starts with home |
| Josh.CdErrorReport | src/main.rs:96-104 | a failed change of directory reports "No such file or directory" exactly for error number 2, nothing when the error has no OS code, and the error itself for any other code |
| Josh.ChangeDirectory | src/main.rs:95-105 | `cd` panics exactly when home is unknown and the directory starts with `~`; otherwise the shell keeps running, it changes into the tilde expansion of the directory, success reports nothing, a failure is reported as `CdErrorReport` says, and a missing directory is reported under the name that was typed |
| Josh.Respond | src/main.rs:83-126 | only `exit` stops the shell; only `cd` with at most one argument changes the working directory, to `~` or to that argument, and then does what `ChangeDirectory` says; two or more arguments report "too many arguments"; only such a `cd` can panic; `alias` changes nothing and reports nothing; every other command leaves the working directory alone and reports nothing when it spawns and "command not found" when it cannot be spawned |
| Josh.CdHome | src/main.rs:86-95 | `cd` with no argument sets the working directory to `~` and changes into home |
| Josh.CdWithoutTilde | src/main.rs:86-95 | `cd d` with `d` neither `~` nor starting with `~/` (so `/d`, `foo`, `..`, `~user`) never panics, home or no home, and changes into `d` as parsed |
| Josh.CdTildeArgument | src/main.rs:86-95 | `cd ~` typed out behaves exactly like `cd` alone, and panics when home is unknown |
| Josh.CdUnderHome | src/main.rs:86-95 | `cd ~/r`, with a home other than the root, changes into home joined with `r` |
| Josh.CdUnderRootHome | src/main.rs:16-19 | `cd ~/r` when home is the root changes into `r` alone, a relative path |
| Josh.Shell.constructor | src/main.rs:27-32 | a shell holds its working directory, rc-file path and history-file path |
| Josh.Shell.ExecuteCommand | src/main.rs:83-126 | the new working directory and the outcome are those `Respond` gives for the old working directory; the rc-file and history-file paths never change; only `exit` returns false |

## Left out

- `Shell::run` (src/main.rs:128-145) is not modelled. It is the read loop: it prints the prompt, reads standard input, and stops on an empty read.
- `Shell::new` (src/main.rs:67-77) is not modelled. It reads the environment and the current directory; the constructor takes those values as parameters instead.
- `Shell::get_ps1` (src/main.rs:79-81) is not modelled. It only reads the `PS1` environment variable.
- `main` is not modelled.
- Terminal output is not written. What a command would print is recorded as a `Report`.
- Whether a message goes to standard output or standard error is not kept.
- `child.wait()` and the child's exit status are not modelled. The shell ignores them.
- `dirs::home_dir()` is a parameter. Each call of `expand_tilde` reads it at most once (src/main.rs:13 and :15 lie on separate paths), so one value per call is exact.
- Only Unix paths are modelled. Windows prefixes and non-UTF-8 path bytes are left out.
- Paths.Push: models `PathBuf::push` only for a pushed path with no leading `.` component. That is the only kind `expand_tilde` ever pushes.
- Tokenizer.ParseArgv: requires that no `$` lie outside quotes, because the Rust loop never returns on such a line. `Step` and `Iterate` model that case, and `UnquotedDollarHangs` proves the hang.
- The `usize` overflow of `pos` is not modelled. It would take a line as long as the address space.
- The panic inside `to_str().unwrap()` (src/main.rs:98) is not modelled. The working directory always comes from a `String`, so it cannot happen.
- Alias registration, command history, variable and `$` expansion, and assignment detection are not modelled. The code does not implement them.
