# bf-ftp in Dafny

A model of `bf-ftp.py`, a script that tries FTP logins for every pair drawn
from a username candidate list and a password candidate list. The model
covers the parts of the script that are logic rather than I/O:

- **Option checks** (`Options`): the `__main__` block accepts a command line
  only when exactly one of `-u`/`-U` and exactly one of `-p`/`-P` is given.
  "Given" is Python truthiness, so an empty string counts as absent.
- **Candidate lists** (`WordList`): a list file is read as its raw lines.
  Each line goes through `str.strip()`. The last entry is dropped when it is
  empty after stripping. A file with no lines raises `IndexError` at
  `lines[-1]`. A literal `-u`/`-p` value becomes a one-element list.
- **The credential loop** (`Prober`): the nested loop of `main` calls
  `connect` once per pair, usernames outer and passwords inner. Each success
  appends a `Found: <user> - <password>` line to the output file. With `-f`
  the loop stops after the first success. `connect` is a parameter of type
  `(string, string) -> bool`: whether the FTP connection and login succeed
  for a fixed target, port and verbosity. The output file is a `Sink` object
  whose line sequence the loop appends to.
- **One run** (`Session`): `main` opens the output file and writes the start
  line, loads both lists, runs the loop, writes the elapsed-time and
  end-time lines and closes the file. `Script` runs the option checks first.
  The file system is a map from readable paths to their lines. Whether the
  output path opens is a boolean parameter. The clock readings are
  pre-formatted strings.

The option checks raise `ArgumentTypeError`, a name the script never
imports, so each rejection actually ends in a `NameError`. Either way the run
aborts before `main`. The model records which check failed (`ConfigError`)
and, beside it, the message that check was meant to carry (`Options.Message`).

Only one blank entry is ever removed from a list file. `readlines()` on
`"a\n\n"` gives `["a\n", "\n"]`, which strips to `["a", ""]`, and the pop
leaves `["a"]`. A trailing empty entry survives exactly when the file's
last two lines both strip to the empty string, as in `"a\n\n\n"` or
`"a\n \n\n"`. Empty entries between other lines always stay
(`WordList.TrailingBlankLineDropped`, `WordList.OnlyOneBlankLineDropped`,
`WordList.MiddleBlankEntryKept`).

`main` itself does not check its options. When neither option of a pair is
given, the list variable is never bound, and Python raises
`UnboundLocalError` only where the loop first reads it. The model keeps that
order: file errors on either list come first, and an unbound password list
is never noticed when the usernames load empty.

## Model

| member | source | states |
|---|---|---|
| `WordList.IsSpace` | bf-ftp.py:70 | the characters `str.strip()` removes: exactly those Python's `str.isspace` accepts |
| `WordList.Given` | bf-ftp.py:129-141 | an option counts as given when it is present and non-empty, Python truthiness of a string |
| `WordList.LeadLength` | bf-ftp.py:70 | the leading run that `strip()` removes is all whitespace and stops at the first non-whitespace character |
| `WordList.CoreEnd` | bf-ftp.py:70 | the trailing run that `strip()` removes is all whitespace and starts after the last non-whitespace character |
| `WordList.Strip` | bf-ftp.py:70 | the result is a contiguous part of the line with only whitespace before and after it; it has no whitespace at either end; it is empty exactly when the line is all whitespace |
| `WordList.StripUnique` | bf-ftp.py:70 | any split of a line into whitespace, a core without whitespace at its ends, and whitespace strips to that core, so `strip()` removes exactly the surrounding whitespace |
| `WordList.StripIdempotent` | bf-ftp.py:70 | stripping a stripped line changes nothing |
| `WordList.LoadLines` | bf-ftp.py:69-72 | error exactly for a file with no lines; otherwise each entry is its line stripped, in the same position; at most one entry is dropped, and the last one is dropped exactly when it strips to the empty string, so empty entries elsewhere stay |
| `WordList.TrailingBlankLineDropped` | bf-ftp.py:77-80 | the lines of `"a\n\n"` load as `["a"]` |
| `WordList.OnlyOneBlankLineDropped` | bf-ftp.py:77-80 | the lines of `"a\n\n\n"` load as `["a", ""]`: only one blank entry goes |
| `WordList.WhitespaceLineKeepsBlankEntry` | bf-ftp.py:70-80 | the lines of `"a\n \n\n"` load as `["a", ""]`: a whitespace-only line strips to an empty entry that the single pop does not reach |
| `WordList.MiddleBlankEntryKept` | bf-ftp.py:69-72 | the lines of `"a\n\nb"` load as `["a", "", "b"]`: an empty entry that is not last stays |
| `WordList.Candidates` | bf-ftp.py:68-74 | a given list file wins: a missing path is an open error and a file with no lines an index error, otherwise the loaded list; else a given literal becomes exactly the one-element list of that value; with neither, no list is bound |
| `Options.Validate` | bf-ftp.py:129-141 | accepts exactly when each pair has exactly one member given (truthy); the first failing check in source order decides the reason: the username conflict exactly when both `-u` and `-U` are given, the password conflict exactly when that does not hold and both `-p` and `-P` are, a missing username exactly when neither conflict holds and neither `-u` nor `-U` is given, and a missing password otherwise |
| `Options.Message` | bf-ftp.py:130-140 | the text each check assigns to `error_message`; it is never shown, because the `NameError` is raised first |
| `Options.ValidatedBindsBoth` | bf-ftp.py:135-141 | after an accepted command line, neither candidate list is left unbound |
| `Options.EmptyUsernameIsAbsent` | bf-ftp.py:136-138 | `-u ""` counts as not given, so without `-U` the run is rejected as missing a username |
| `Prober.Row` | bf-ftp.py:87 | the inner loop's pairs: one username with every password, in password order |
| `Prober.Product` | bf-ftp.py:86-88 | the pairs the two loops visit, usernames outer and passwords inner |
| `Prober.Attempted` | bf-ftp.py:85-97 | the `connect` calls made: the whole product without `-f`, its prefix through the first success with `-f` |
| `Prober.ProductLength` | bf-ftp.py:86-87 | the loops make one attempt per (username, password) pair |
| `Prober.ProductAt` | bf-ftp.py:86-88 | without `-f`, pair (i, j) is attempt number `i * len(passwords) + j`: the attempts are the cartesian product, usernames outer |
| `Prober.ProductPrefix` | bf-ftp.py:86-88 | the attempts for the first i usernames come first, in order |
| `Prober.UntilFirst` | bf-ftp.py:89-97 | with `-f` the attempts are a prefix of the product in which no attempt before the last succeeds; they are the whole product when nothing succeeds, and otherwise end at a pair that succeeds |
| `Prober.UntilFirstUnique` | bf-ftp.py:89-97 | any prefix that ends at a success with no success before it is the `-f` attempt sequence, so no attempt follows the first success |
| `Prober.ExhaustiveExample` | bf-ftp.py:86-88 | users `[a, b]`, passwords `[x, y]` and no valid pair give the attempts `(a,x), (a,y), (b,x), (b,y)` |
| `Prober.EarlyStopExample` | bf-ftp.py:89-97 | with `-f` and `(a, y)` the only valid pair, the attempts are `(a,x), (a,y)` |
| `Prober.Successes` | bf-ftp.py:89-93 | the attempts whose `connect` returned true, in attempt order |
| `Prober.FoundLine` | bf-ftp.py:90 | the logged line for a successful pair is `Found: <username> - <password>` |
| `Prober.SuccessesAppend` | bf-ftp.py:89-93 | successes are recorded in discovery order: those of a concatenation are those of each part in turn |
| `Prober.SuccessesSound` | bf-ftp.py:89-93 | only pairs that log in are recorded, no more of them than were tried |
| `Prober.SuccessesIn` | bf-ftp.py:89-93 | each recorded success is one of the pairs tried |
| `Prober.SuccessesComplete` | bf-ftp.py:89-93 | every successful attempt is recorded |
| `Prober.SuccessesEmpty` | bf-ftp.py:89-93 | with no successful attempt nothing is recorded |
| `Prober.Sink.constructor` | bf-ftp.py:62 | opening the output file gives an empty, open file |
| `Prober.Sink.Write` | bf-ftp.py:63-64 | a write appends exactly one line and keeps the file open |
| `Prober.Sink.Close` | bf-ftp.py:110-111 | closing keeps the lines and leaves the file closed |
| `Prober.Probe` | bf-ftp.py:85-97 | the pairs passed to `connect` are exactly the product, or with `-f` its prefix through the first success; the output file gains one `Found:` line per successful attempt, in attempt order, and nothing else |
| `Prober.TryPasswords` | bf-ftp.py:87-95 | the inner loop tries one username with every password, or with `-f` through the first success, reports with `-f` whether it stopped on one, and writes one `Found:` line per success |
| `Session.SinkLog` | bf-ftp.py:62-107 | the whole output file after a completed run: the start line, the `Found:` lines of the successes in order, then the trailer |
| `Session.StartLine` | bf-ftp.py:56 | the first line of the output file is `Start time: <timestamp>` |
| `Session.Trailer` | bf-ftp.py:100-101 | the closing lines are `Elapsed time: <seconds> s` and `End time: <timestamp>`, the same as the interrupt handler builds at lines 20-21 |
| `Session.MainOutcome` | bf-ftp.py:56-97 | how `main` ends: output open failure, then a list file error on either list, then an unbound list where the loop reads it, otherwise completion with `Attempted` over the loaded lists |
| `Session.OutputFile` | bf-ftp.py:59-111 | what the output file holds at the end: nothing without `-o`, the start line alone after a failure, the full log after completion |
| `Session.UnboundPasswordsUnread` | bf-ftp.py:86-87 | with usernames that load empty, an unbound password list is never read and the run completes with no attempts |
| `Session.FileErrorsComeFirst` | bf-ftp.py:68-86 | with both lists failing, the password file error is reported rather than the unbound username list, because both files are opened before the loop |
| `Session.Execute` | bf-ftp.py:56-111 | `main` ends as `MainOutcome` says; the output file, when `-o` is given and opens, is fresh, holds what `OutputFile` says (the start line, the `Found:` lines and the two trailer lines after completion, the start line alone after a failure) and is closed exactly when the run completed |
| `Session.Script` | bf-ftp.py:128-143 | a command line rejected by the option checks aborts with that reason, and the intended message beside it, before any file is opened or any attempt made; otherwise the run is `main`'s, and a returned output file is closed exactly when the run completed |
| `Session.AcceptedOutcomes` | bf-ftp.py:59-82 | once the checks pass, a run fails only because the output file does not open or a list file is missing or empty, never for lack of a list |
| `Session.SinkLogShape` | bf-ftp.py:62-107 | the output file after a run is the start line, then one `Found:` line for a pair that was tried and logged in per success, then the elapsed-time and end-time lines; no failure line is ever written |
| `Session.ForceQuitFindsAtMostOne` | bf-ftp.py:89-97 | with `-f` at most one `Found:` line is written, and exactly one when some pair logs in |

## Left out

- `connect` (bf-ftp.py:31-50): the `ftplib` connection and login, the 0.1 s timeout and the debug levels are network I/O through a foreign library. The oracle parameter replaces them. Its console `Found:`/`Failed:` prints are not modelled.
- The SIGINT handler `ctrl_c` (bf-ftp.py:16-29) is an asynchronous signal path that exits the process. Its trailer lines are the ones `Session.Trailer` builds, but the interrupted run is not modelled.
- Clocks: `time.perf_counter`, the elapsed-time float with three decimals and `datetime.now().strftime('%F %T')` are taken as pre-formatted strings (`Session.Clock`).
- Console output, `colorama` colours and `-q` only affect the terminal. They never reach the output file. `flush()` has no effect on the line sequence and is folded into `Sink.Write`.
- `argparse` parsing (bf-ftp.py:115-127) is not modelled. `Options.Args` is its result. The positional `port` default is not modelled.
- File opening and reading: a list file is its `readlines()` result, given through the `files` map. Universal-newline translation of `\r\n` and `\r` is not modelled. Whether the output path opens is a boolean. After a list fails to load, the output file is left holding the start line, which the script flushed before the error. Closing it at interpreter exit is not modelled.
- `WordList.IsSpace`: the whitespace set is the fixed list of characters Python's `str.isspace` accepts. It is written out, not derived from the Unicode database.
- Prober.TryPasswords: without `-f`, the contract does not say what `success` holds after the inner loop. The outer loop only reads it together with `-f`.
- Prober.Probe: the inner loop is a separate method (`TryPasswords`) rather than a loop nested in the same body. Its loop, flag and `break` are the source's.
- `connect` is treated as a pure function of the pair, so a pair that occurs twice always gets the same answer. A real login with a 0.1 s timeout need not.
- An `-o` path equal to a `-U`/`-P` path is not modelled. `open(..., 'w+')` truncates that file, and it is then read back holding only the start line; the model treats the output file and the list files as unrelated.
- Session.Script: `Rejected.message` is the text the check meant to raise; the script itself aborts with a `NameError` that does not carry it.
