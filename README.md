# WebsiteAndAppBlocker, modelled in Dafny

WebsiteAndAppBlocker is a Windows desktop program that blocks websites and applications during a daily study period from 08:00 to 18:00.

- **Websites** are blocked by entries in the system hosts file. Each blocked website gets two loopback lines, both tagged with the marker `# Blocked by WebsiteAndAppBlocker`.
- **Applications** are blocked by killing every process whose name is on the block list. A sweep runs every two seconds while the period is active.
- **Unblocking** is deliberately hard. Inside the period the user must enter the session password. Unblock attempts are limited to two per clock hour. Each unblock also requires passing a challenge window: retype a random 20-character text from memory and solve an arithmetic problem, all before a countdown from 60 seconds runs out.
- **Start-up** is guarded by a login window that checks a password file.

The project models these parts:

| File | Module | What it models |
|---|---|---|
| `Schedule.dfy` | `Schedule` | the blocking-period test on a time of day in seconds |
| `Hosts.dfy` | `Hosts` | the hosts-file line rewrite: a specification function plus the two-loop method that builds the lines |
| `RateLimit.dfy` | `RateLimit` | the hour-bucket attempt limiter, as a function on its ledger |
| `HexFormat.dfy` | `HexFormat` | the lower-case hex text of the in-memory password hash |
| `MainWindow.dfy` | `Blocker` | the main window as a class: the two block lists, the hosts-file lines, the two list files, the attempt ledger, the password hash, the window and tray visibility, and every handler that changes them |
| `Challenge.dfy` | `Challenge` | the challenge window as a class: random text, arithmetic problem, countdown loop, submit check |
| `Login.dfy` | `Login` | the start-up login decision and the `IsAuthenticated` flag |
| `Framework.dfy` | `Framework` | the .NET operations the code relies on: `Trim`, substring `Contains`, `OrdinalIgnoreCase` list membership, `List.Remove` |

Inputs from the outside world are parameters of the methods:

- the time of day and the day number read from the clock, from which the limiter's hour bucket is computed;
- whether the process has administrator rights;
- the text typed into the password prompt;
- whether the challenge dialog was completed;
- the text boxes and the list-box selections;
- the names of the running processes;
- the parser behind `int.TryParse`.

SHA-256 (hex in the main window, Base64 in the login window) is a function parameter. In the main window its only property is the 32-byte digest length; in the login window it has none. Random choices are nondeterministic picks within the bounds `Random.Next` guarantees. A failed process kill is a nondeterministic outcome.

## Model

| member | source | states |
|---|---|---|
| Schedule.InWindow | WebsiteAndAppBlocker/MainWindow.xaml.cs:414 | the code's range test `start <= now && now <= end`, both ends inclusive; its properties are the three lemmas on inverted and wrapping windows below |
| Schedule.IsWithinBlockingPeriod | WebsiteAndAppBlocker/MainWindow.xaml.cs:411-415 | the period test `start <= now <= end` with the configured constants; no wrap-around branch |
| Schedule.Hms | WebsiteAndAppBlocker/MainWindow.xaml.cs:39-40 | the time of day built from hours, minutes and seconds decomposes back into the same three fields |
| Schedule.BlockingPeriodBoundaries | WebsiteAndAppBlocker/MainWindow.xaml.cs:39-40 | the period is active at exactly 08:00:00 and 18:00:00 and inactive one second outside either end |
| Schedule.NightIsOutsidePeriod | WebsiteAndAppBlocker/MainWindow.xaml.cs:411-415 | the period is inactive at midnight and in the last second of the day |
| Schedule.BlockingPeriodByHour | WebsiteAndAppBlocker/MainWindow.xaml.cs:411-415 | a time is in the period iff its hour is 8 to 17, or it is exactly 18:00:00 |
| Schedule.InvertedWindowNeverActive | WebsiteAndAppBlocker/MainWindow.xaml.cs:411-415 | with a start later than the end the test is false at every time of day |
| Schedule.AgreesWithWrappingWhenOrdered | WebsiteAndAppBlocker/MainWindow.xaml.cs:411-415 | for a window that does not cross midnight the test agrees, both ways, with a reference definition of a daily window that may wrap |
| Schedule.DiffersFromWrappingWhenInverted | WebsiteAndAppBlocker/MainWindow.xaml.cs:411-415 | for a window that crosses midnight the wrapping definition is active at its start and end times and the code's test is not |
| Hosts.BareLine | WebsiteAndAppBlocker/MainWindow.xaml.cs:144 | the first interpolated loopback line for a website; its marker is stated by GeneratedLinesAreManaged and its position by ManagedLinesAt |
| Hosts.WwwLine | WebsiteAndAppBlocker/MainWindow.xaml.cs:145 | the second interpolated loopback line, for the `www.` name; stated by the same two lemmas |
| Hosts.IsManaged | WebsiteAndAppBlocker/MainWindow.xaml.cs:135 | the marker test, the ordinal substring search of `Framework.ContainsSubstring` |
| Hosts.GeneratedLinesAreManaged | WebsiteAndAppBlocker/MainWindow.xaml.cs:135-146 | both lines generated for a website contain the marker the rewrite filters on |
| Hosts.Select | WebsiteAndAppBlocker/MainWindow.xaml.cs:133-140 | filtering by marker yields no more lines than the input, every kept line has the requested marker status, and every kept line comes from the input |
| Hosts.ForeignLines | WebsiteAndAppBlocker/MainWindow.xaml.cs:133-139 | the lines the first loop keeps: no more than the input, none carrying the marker, each one taken from the input; SelectCount states that every unmarked line is kept as often as it occurs |
| Hosts.RewriteHosts | WebsiteAndAppBlocker/MainWindow.xaml.cs:133-146 | the specification of the rewrite: foreign lines, then the generated lines; UpdateHostsLines is proved equal to it and RewriteShape, RewriteLayout, RewritePartition, RewriteIdempotent and RewriteCounts state its properties |
| Hosts.ManagedLines | WebsiteAndAppBlocker/MainWindow.xaml.cs:142-146 | two generated lines per website |
| Hosts.UpdateHostsLines | WebsiteAndAppBlocker/MainWindow.xaml.cs:126-146 | the two loops of `UpdateHostsFile` build exactly the foreign lines of the original file followed by the generated lines of the website list |
| Hosts.SelectAppend | WebsiteAndAppBlocker/MainWindow.xaml.cs:135-140 | filtering distributes over concatenation |
| Hosts.SelectUniform | WebsiteAndAppBlocker/MainWindow.xaml.cs:135-140 | filtering lines that all share one marker status keeps all of them, and the opposite filter keeps none |
| Hosts.SelectKeepsUniform | WebsiteAndAppBlocker/MainWindow.xaml.cs:135-140 | filtering lines that all have the requested marker status keeps all of them |
| Hosts.SelectDropsUniform | WebsiteAndAppBlocker/MainWindow.xaml.cs:135-140 | filtering lines that all have the opposite marker status keeps none |
| Hosts.ManagedLinesAt | WebsiteAndAppBlocker/MainWindow.xaml.cs:142-146 | the generated lines at positions 2k and 2k+1 are `127.0.0.1 w # Blocked by WebsiteAndAppBlocker` and `127.0.0.1 www.w # Blocked by WebsiteAndAppBlocker` for the k-th website w |
| Hosts.ManagedLinesAllManaged | WebsiteAndAppBlocker/MainWindow.xaml.cs:142-146 | every generated line carries the marker |
| Hosts.RewriteLayout | WebsiteAndAppBlocker/MainWindow.xaml.cs:141-146 | after the foreign lines, the two lines of the k-th website sit at offsets 2k and 2k+1: bare name, then `www.` name |
| Hosts.RewriteShape | WebsiteAndAppBlocker/MainWindow.xaml.cs:133-146 | for every website list, the empty one included, the output is the foreign lines in their original order followed by exactly two lines per website |
| Hosts.RewritePartition | WebsiteAndAppBlocker/MainWindow.xaml.cs:133-146 | the foreign lines of the output are those of the input, and the marked lines of the output are exactly the generated lines of the website list |
| Hosts.RewriteIdempotent | WebsiteAndAppBlocker/MainWindow.xaml.cs:133-146 | rewriting the rewritten file with the same website list changes nothing |
| Hosts.SelectCount | WebsiteAndAppBlocker/MainWindow.xaml.cs:135-140 | every unmarked line occurs as often after the filter as before it |
| Hosts.RewriteCounts | WebsiteAndAppBlocker/MainWindow.xaml.cs:133-146 | no foreign line is lost or duplicated by the rewrite, and a marked line occurs as often as among the generated lines |
| RateLimit.HourBucket | WebsiteAndAppBlocker/MainWindow.xaml.cs:289 | the bucket is the hour that contains the current moment |
| RateLimit.TryConsume | WebsiteAndAppBlocker/MainWindow.xaml.cs:287-311 | after a call the ledger holds exactly the buckets not older than the current hour plus the current one, the other buckets keep their counts, the call is allowed iff the current count is below the maximum, and the count rises by one exactly when allowed |
| RateLimit.NoStaleBuckets | WebsiteAndAppBlocker/MainWindow.xaml.cs:291-296 | no bucket earlier than the current hour remains after a call |
| RateLimit.ThreeAttemptsInOneHour | WebsiteAndAppBlocker/MainWindow.xaml.cs:287-311 | with the maximum of two, three calls in a fresh hour are allowed, allowed, refused, and the refusal leaves the ledger unchanged |
| RateLimit.FirstAttemptInLaterHour | WebsiteAndAppBlocker/MainWindow.xaml.cs:287-311 | the first call in an hour later than every recorded bucket is allowed, and the ledger then holds that hour alone with count one |
| RateLimit.CountsStayBounded | WebsiteAndAppBlocker/MainWindow.xaml.cs:303-310 | a ledger whose counts are within the maximum stays so |
| RateLimit.AllowedInHourExact | WebsiteAndAppBlocker/MainWindow.xaml.cs:287-311 | of n consecutive calls within one hour exactly min(n, max(0, maximum - recorded count)) are allowed |
| HexFormat.HexDigit | WebsiteAndAppBlocker/MainWindow.xaml.cs:618 | the digit of a value below sixteen is a lower-case hexadecimal digit |
| HexFormat.HexDigitInTable | WebsiteAndAppBlocker/MainWindow.xaml.cs:618 | that digit is the value's position in `0123456789abcdef` |
| HexFormat.ByteHex | WebsiteAndAppBlocker/MainWindow.xaml.cs:618 | `x2` formatting of a byte yields two hexadecimal digits |
| HexFormat.Hex | WebsiteAndAppBlocker/MainWindow.xaml.cs:615-621 | the text has two hexadecimal digits per byte |
| HexFormat.ToHexString | WebsiteAndAppBlocker/MainWindow.xaml.cs:615-621 | the string-builder loop produces the concatenation of the bytes' two-digit forms |
| HexFormat.ParseHex | WebsiteAndAppBlocker/MainWindow.xaml.cs:615-621 | the inverse reading, two characters per byte; its properties are ParseHexLength and HexRoundTrip |
| HexFormat.ParseHexLength | WebsiteAndAppBlocker/MainWindow.xaml.cs:615-621 | the inverse reading produces one byte per two characters |
| HexFormat.ByteRoundTrip | WebsiteAndAppBlocker/MainWindow.xaml.cs:618 | the two digits of a byte read back give the byte |
| HexFormat.ParseLastByte | WebsiteAndAppBlocker/MainWindow.xaml.cs:615-621 | reading the text of one more byte gives one more byte at the end |
| HexFormat.HexRoundTrip | WebsiteAndAppBlocker/MainWindow.xaml.cs:615-621 | reading the hex text back gives the digest bytes |
| HexFormat.HexInjective | WebsiteAndAppBlocker/MainWindow.xaml.cs:589 | equal hex texts come from equal digests, so the password check compares digests |
| Blocker.AddIfAbsent | WebsiteAndAppBlocker/MainWindow.xaml.cs:104-108 | the checked add of `BlockWebsite`: append unless a case-insensitive match exists; its properties are AddIfAbsentSpec and AddIfAbsentKeepsDistinct |
| Blocker.RemoveIfPresent | WebsiteAndAppBlocker/MainWindow.xaml.cs:117-119 | the case-insensitive guard followed by the ordinal `List.Remove`; its properties are RemoveIfPresentExact, RemoveIfPresentCaseQuirk and RemoveExactFromDistinct |
| Blocker.AddIfAbsentSpec | WebsiteAndAppBlocker/MainWindow.xaml.cs:104-113 | adding keeps the earlier entries in place, leaves the name on the list ignoring case, and appends it exactly when no entry matched it ignoring case |
| Blocker.AddIfAbsentKeepsDistinct | WebsiteAndAppBlocker/MainWindow.xaml.cs:104-113 | a list without case-insensitive duplicates keeps that property under the checked add |
| Blocker.AppendAlwaysCanDuplicate | WebsiteAndAppBlocker/MainWindow.xaml.cs:339-352 | the unchecked append of `BlockAppButton_Click` creates a case-insensitive duplicate whenever the name is already present |
| Blocker.RemoveIfPresentExact | WebsiteAndAppBlocker/MainWindow.xaml.cs:115-124 | unblocking a name present with the same case removes its first occurrence and keeps the rest in order |
| Blocker.RemoveIfPresentCaseQuirk | WebsiteAndAppBlocker/MainWindow.xaml.cs:115-124 | unblocking a name that is absent ordinally leaves the list unchanged, even when the case-insensitive guard passes |
| Blocker.CaseQuirkExample | WebsiteAndAppBlocker/MainWindow.xaml.cs:117-119 | `example.com` passes the guard against `["Example.com"]` but leaves that list unchanged |
| Blocker.RemoveFirstKeepsDistinct | WebsiteAndAppBlocker/MainWindow.xaml.cs:119 | removal keeps a list free of case-insensitive duplicates |
| Blocker.DropKeepsDistinct | WebsiteAndAppBlocker/MainWindow.xaml.cs:119 | dropping one position keeps a list free of case-insensitive duplicates |
| Blocker.RemoveExactFromDistinct | WebsiteAndAppBlocker/MainWindow.xaml.cs:115-124 | in a list without case-insensitive duplicates, unblocking an entry by its exact text leaves nothing that matches it in any case |
| Blocker.MatchingProcesses | WebsiteAndAppBlocker/MainWindow.xaml.cs:179-186 | every selected index is a process whose name is on the application list ignoring case, in increasing order |
| Blocker.MatchingProcessesComplete | WebsiteAndAppBlocker/MainWindow.xaml.cs:179-186 | every matching process is selected |
| Blocker.KillTargets | WebsiteAndAppBlocker/MainWindow.xaml.cs:174-188 | no targets outside the period, the matching processes inside it; characterised by KillTargetsIff |
| Blocker.KillTargetsIff | WebsiteAndAppBlocker/MainWindow.xaml.cs:172-196 | a process is a kill target iff the period is active and its name matches ignoring case |
| Blocker.MainWindow.constructor | WebsiteAndAppBlocker/MainWindow.xaml.cs:45-81 | both lists are loaded when their files exist; the hosts file is rewritten only when the website file exists; the ledger starts empty with maximum two; no password is set; inside the period the constructor leaves the window hidden behind the tray icon (the `Show()` that follows at start-up is outside this member) |
| Blocker.MainWindow.UpdateHostsFile | WebsiteAndAppBlocker/MainWindow.xaml.cs:126-152 | the hosts lines become the rewrite of the old lines for the current website list, whose marked lines are then exactly the website list's generated lines |
| Blocker.MainWindow.SaveBlockedWebsitesToFile | WebsiteAndAppBlocker/MainWindow.xaml.cs:484-493 | the website file then holds the website list |
| Blocker.MainWindow.SaveBlockedAppsToFile | WebsiteAndAppBlocker/MainWindow.xaml.cs:505-514 | the application file then holds the application list |
| Blocker.MainWindow.BlockWebsite | WebsiteAndAppBlocker/MainWindow.xaml.cs:104-113 | with a case-insensitive match present nothing changes; otherwise the name is appended, the hosts lines are rewritten for the new list, and the list is saved |
| Blocker.MainWindow.UnblockWebsite | WebsiteAndAppBlocker/MainWindow.xaml.cs:115-124 | without a case-insensitive match nothing changes; otherwise the first ordinal occurrence is removed, the hosts lines are rewritten for the new list, and the list is saved |
| Blocker.MainWindow.CanAttemptUnblock | WebsiteAndAppBlocker/MainWindow.xaml.cs:287-311 | the purge loop, bucket creation and increment leave the ledger and the verdict that the limiter function prescribes |
| Blocker.MainWindow.Authenticates | WebsiteAndAppBlocker/MainWindow.xaml.cs:586-603 | the decision of `AuthenticateUser`: no stored hash, or the hash of the prompt's text equals the stored one; AuthenticateUser is proved to return it |
| Blocker.MainWindow.ComputeSha256Hash | WebsiteAndAppBlocker/MainWindow.xaml.cs:607-623 | the hash string is the hex text of the 32-byte digest: 64 lower-case hex digits, two per byte |
| Blocker.MainWindow.AuthenticateUser | WebsiteAndAppBlocker/MainWindow.xaml.cs:584-604 | with no password set access is granted without a prompt; otherwise iff the typed text hashes to the stored hex string |
| Blocker.MainWindow.SetPasswordButtonClick | WebsiteAndAppBlocker/MainWindow.xaml.cs:400-408 | an empty password changes nothing; otherwise the stored hash is that password's hex digest, which is never empty, and from then on exactly the inputs with the same digest pass the prompt |
| Blocker.MainWindow.BlockWebsiteButtonClick | WebsiteAndAppBlocker/MainWindow.xaml.cs:199-217 | the outcome follows the order administrator check, password inside the period, non-empty trimmed text; only a block outcome changes the list, hosts lines and file, by the checked add |
| Blocker.MainWindow.UnblockWebsiteButtonClick | WebsiteAndAppBlocker/MainWindow.xaml.cs:219-248 | the outcome follows the order administrator, password inside the period, limiter, challenge, non-empty trimmed text; the attempt is charged once the first two pass, before the challenge and the text check; only an unblock outcome changes the list, hosts lines and file |
| Blocker.MainWindow.UnblockSelectedWebsiteButtonClick | WebsiteAndAppBlocker/MainWindow.xaml.cs:252-284 | the same, with the selection checked after the limiter and before the challenge; the attempt is charged before both |
| Blocker.MainWindow.BlockSelectedAppButtonClick | WebsiteAndAppBlocker/MainWindow.xaml.cs:313-337 | no administrator check; the outcome follows the order password, selection, case-insensitive duplicate; only a block outcome appends the name and saves |
| Blocker.MainWindow.BlockAppButtonClick | WebsiteAndAppBlocker/MainWindow.xaml.cs:339-352 | no administrator check and no duplicate check; a non-empty trimmed name after the password check is appended and saved |
| Blocker.MainWindow.UnblockSelectedAppButtonClick | WebsiteAndAppBlocker/MainWindow.xaml.cs:354-382 | no administrator check; password, limiter, selection, challenge in that order, the attempt charged once the password passes; only an unblock outcome removes the first ordinal occurrence and saves |
| Blocker.MainWindow.ProcessMonitorTimerElapsed | WebsiteAndAppBlocker/MainWindow.xaml.cs:172-196 | kills are attempted on exactly the kill targets, in process order, none outside the period; a failed kill does not stop the loop, and only attempted processes are killed |
| Blocker.MainWindow.UiUpdateTimerTick | WebsiteAndAppBlocker/MainWindow.xaml.cs:555-574 | inside the period the window ends up hidden, with the tray icon shown if the window had been visible; outside it the window ends up shown, with the tray icon hidden if the window had been hidden |
| Challenge.CharsAreVisible | WebsiteAndAppBlocker/ChallengeWindow.xaml.cs:54 | the alphabet has 90 characters, all visible ASCII and none white space |
| Challenge.UpperAndLowerVisible | WebsiteAndAppBlocker/ChallengeWindow.xaml.cs:54 | the letter runs of the alphabet are visible ASCII |
| Challenge.DigitsAndSymbolsVisible | WebsiteAndAppBlocker/ChallengeWindow.xaml.cs:54 | the digit and symbol runs of the alphabet are visible ASCII |
| Challenge.GetRandomString | WebsiteAndAppBlocker/ChallengeWindow.xaml.cs:52-62 | the string has exactly the requested length and every character is in the alphabet |
| Challenge.FillRandom | WebsiteAndAppBlocker/ChallengeWindow.xaml.cs:56-61 | the filling loop yields a string of the requested length drawn from the given non-empty alphabet |
| Challenge.ChallengeTextTrimsToItself | WebsiteAndAppBlocker/ChallengeWindow.xaml.cs:94-95 | a text over the alphabet is its own trim, so typing it exactly passes the text comparison |
| Challenge.Answer | WebsiteAndAppBlocker/ChallengeWindow.xaml.cs:48 | the correct answer `(num1 * num2) - num3` of a problem; its range is stated by AnswerBounds and AnswerBoundsTight, and GenerateMathProblem stores it |
| Challenge.AnswerBounds | WebsiteAndAppBlocker/ChallengeWindow.xaml.cs:44-48 | with operands in [10, 98] the answer `num1 * num2 - num3` lies in [2, 9594] |
| Challenge.AnswerBoundsTight | WebsiteAndAppBlocker/ChallengeWindow.xaml.cs:44-48 | both ends of that range are reached by operands in range |
| Challenge.Countdown | WebsiteAndAppBlocker/ChallengeWindow.xaml.cs:70-87 | the displayed values count down from the time limit, stopping at the first poll that sees cancellation; the time-out action runs iff cancellation is never seen, including at the check after the loop |
| Challenge.ChallengeWindow.constructor | WebsiteAndAppBlocker/ChallengeWindow.xaml.cs:15-26 | the challenge text has 20 characters of the alphabet; the window starts not completed, without a problem and without a countdown |
| Challenge.ChallengeWindow.GenerateMathProblem | WebsiteAndAppBlocker/ChallengeWindow.xaml.cs:42-50 | the operands are in [10, 98] and the correct answer is `num1 * num2 - num3`, within [2, 9594] |
| Challenge.ChallengeWindow.ShowMathProblem | WebsiteAndAppBlocker/ChallengeWindow.xaml.cs:33-39 | after the memorising wait a problem is on display and the countdown has started |
| Challenge.ChallengeWindow.Close | WebsiteAndAppBlocker/ChallengeWindow.xaml.cs:115-119 | the window is closed and, once the countdown exists, its cancellation is requested |
| Challenge.ChallengeWindow.CountdownTask | WebsiteAndAppBlocker/ChallengeWindow.xaml.cs:64-89 | the window closes on time-out, which happens iff cancellation is never seen, and closing then requests the countdown's cancellation; the completion flag is not touched |
| Challenge.ChallengeWindow.SubmitButtonClick | WebsiteAndAppBlocker/ChallengeWindow.xaml.cs:91-113 | a wrong trimmed text clears only the text box; a right text with a wrong or unparsable answer clears only the answer box; the completion flag is set iff both match, never reset; on success after the countdown has started, the countdown is cancelled and the window closes; before that, the outcome is `NoTokenSource` with only the flag changed |
| Login.AuthenticateUser | WebsiteAndAppBlocker/LoginWindow.xaml.cs:35-67 | the three-way access decision on file existence, empty password and equality of the stored text with the hash |
| Login.NoPasswordFileGrantsAccess | WebsiteAndAppBlocker/LoginWindow.xaml.cs:39-44 | without a password file every password is accepted, the empty one included |
| Login.EmptyPasswordDenied | WebsiteAndAppBlocker/LoginWindow.xaml.cs:48-52 | with a password file the empty password is refused whatever the file holds |
| Login.GrantedIffHashMatches | WebsiteAndAppBlocker/LoginWindow.xaml.cs:54-66 | with a password file access is granted iff the password is non-empty and the file text equals its hash exactly |
| Login.LoginWindow.constructor | WebsiteAndAppBlocker/LoginWindow.xaml.cs:11-15 | the window starts open and not authenticated |
| Login.LoginWindow.LoginButtonClick | WebsiteAndAppBlocker/LoginWindow.xaml.cs:18-33 | the flag and the closing follow the decision; a refusal changes neither |
| Framework.Trim | WebsiteAndAppBlocker/MainWindow.xaml.cs:210 | `Trim` yields no longer a string, starting and ending with a character that is not white space; TrimIsInfix adds that it is the input with only white space cut from the ends |
| Framework.TrimStart | WebsiteAndAppBlocker/MainWindow.xaml.cs:210 | the leading white space is removed: the result is a suffix of the input, preceded only by white space and not starting with it |
| Framework.TrimEnd | WebsiteAndAppBlocker/MainWindow.xaml.cs:210 | the trailing white space is removed: the result is a prefix of the input, followed only by white space and not ending with it |
| Framework.TrimIsInfix | WebsiteAndAppBlocker/MainWindow.xaml.cs:210 | the trim is a slice of the input with only white space before and after it; with Trim's ensures this fixes the result |
| Framework.TrimEmptyIff | WebsiteAndAppBlocker/MainWindow.xaml.cs:210-211 | the trimmed text is empty iff the input is all white space |
| Framework.ContainsSubstring | WebsiteAndAppBlocker/MainWindow.xaml.cs:135 | `string.Contains`, tried from each start position in turn; characterised by ContainsSubstringIff |
| Framework.ContainsSubstringIff | WebsiteAndAppBlocker/MainWindow.xaml.cs:135 | the substring search finds the marker exactly when it occurs at some position of the line |
| Framework.EndsWithContains | WebsiteAndAppBlocker/MainWindow.xaml.cs:135 | a line that ends with the marker contains it |
| Framework.FoldChar | WebsiteAndAppBlocker/MainWindow.xaml.cs:106 | the per-character fold of `OrdinalIgnoreCase`: a lower-case ASCII letter maps to an upper-case one, every other character to itself |
| Framework.EqualsIgnoreCase | WebsiteAndAppBlocker/MainWindow.xaml.cs:106 | `OrdinalIgnoreCase` equality: same length and equal characters after ASCII upper-casing |
| Framework.ContainsIgnoreCase | WebsiteAndAppBlocker/MainWindow.xaml.cs:106 | `Contains` with that comparer, scanning the entries in turn; characterised by ContainsIgnoreCaseIff |
| Framework.ContainsIgnoreCaseIff | WebsiteAndAppBlocker/MainWindow.xaml.cs:106 | the `OrdinalIgnoreCase` membership test holds exactly when some element equals the name ignoring case |
| Framework.ContainsIgnoreCaseAt | WebsiteAndAppBlocker/MainWindow.xaml.cs:106 | an element equal to the name ignoring case makes the membership test hold |
| Framework.FirstIndex | WebsiteAndAppBlocker/MainWindow.xaml.cs:119 | the position `List.Remove` acts on is the first occurrence |
| Framework.RemoveFirst | WebsiteAndAppBlocker/MainWindow.xaml.cs:119 | `List.Remove` leaves the list unchanged when the element is absent and otherwise drops its first occurrence |
| Framework.RemoveFirstShrinks | WebsiteAndAppBlocker/MainWindow.xaml.cs:119 | removal shortens the list by one exactly when the element is present and takes away one copy of it |

## Left out

- File I/O is left out. Reading and writing the hosts file and the two list files, `Directory.CreateDirectory` and the password-file path are not modelled. The contents are class fields, and the password file is a parameter.
- `FlushDnsCache` is not modelled. It starts `ipconfig /flushdns`, an external process.
- `IsAdministrator` is a boolean parameter of the handlers. `RestartAsAdmin` is the outcome `RestartedAsAdmin`, after which nothing changes.
- SHA-256, UTF-8 encoding and Base64 are function parameters; beyond the main window's 32-byte digest length they have no properties. The `int.TryParse` of the challenge window and the `InputBox` prompt are parameters too.
- Process enumeration is an input sequence of names. `Process.Kill` is a nondeterministic success or failure.
- Timers, `Task.Delay`, `Task.Run`, `Dispatcher.Invoke` and the cancellation token are not modelled, nor are the thread interleavings between the countdown task, the process timer and the UI. The countdown is modelled as its loop over an index that numbers the poll which first sees cancellation.
- WPF presentation is not modelled: message boxes, text-block contents, list-box binding and refreshing, `RefreshAppListButton_Click`, `MainWindow_StateChanged`, `Window_Closing`, `OnClosing`, the tray menu and the tray double-click. Only `UIUpdateTimer_Tick` is modelled, as two booleans.
- The challenge inside the unblock handlers is a boolean parameter, the dialog's `IsChallengeCompleted` on return. The challenge window itself is modelled separately in `Challenge`.
- `App.xaml.cs`, which wires the login window to the main window at start-up, is not part of this model. Neither is `AboutWindow.xaml.cs`. `App.OnStartup` calls `Show()` right after constructing the main window, which undoes the constructor's `Hide()`: inside the period the window is visible at start-up until the first tick of the UI timer.
- Framework.Trim: its own ensures give only the ends of the result. That the result is the input with only leading and trailing white space removed is stated by `Framework.TrimIsInfix`.
- Schedule.IsWithinBlockingPeriod: the time of day is a whole number of seconds. The source compares `DateTime.Now.TimeOfDay` at 100-nanosecond resolution, so only the single instant 18:00:00.0000000 of hour 18 is inside its period. A reading such as 18:00:00.4, truncated to 64800, is inside the model's period and outside the source's. `Schedule.BlockingPeriodBoundaries` and `Schedule.BlockingPeriodByHour` are stated on that whole-second clock.
- Blocker.MainWindow.constructor: I/O failures are not modelled. In the source, `LoadBlockedWebsitesFromFile` calls `UpdateHostsFile` with no administrator check, so without elevation `File.WriteAllLines` on the hosts file throws and construction fails. The model always ensures the rewritten lines.
- Blocker.MainWindow.constructor: `trayVisible` outside the period is false, which takes the tray icon to be collapsed by default. That default is set in the window's XAML, which is not part of this model.
- The source reads the clock separately for the period test and for the limiter's hour bucket. The model uses one reading, a day number and a time of day, for both. Even the bucket alone reads the clock twice: `DateTime.Now.Date.AddHours(DateTime.Now.Hour)` at WebsiteAndAppBlocker/MainWindow.xaml.cs:289. The date is read first, so a pair straddling midnight combines the old day's date with the new day's hour 0. The bucket is 00:00 of the old day, 23 hours behind the first reading. It is usually absent, so the call is judged against an empty bucket while the 23:00 bucket is skipped. The model's `RateLimit.HourBucket` is computed from one reading and does not capture this.
- Framework.IsWhiteSpace: covers the ASCII and Latin-1 white-space characters only, not every Unicode space separator.
- Framework.FoldChar: case-insensitive comparison folds ASCII letters only, not full Unicode upper-casing.
- Round trips through the list files are not modelled. A `File.WriteAllLines` / `File.ReadAllLines` pair splits a name that contains a line break. The same holds for the hosts file: `UpdateHostsFile` writes its lines with `File.WriteAllLines`, and the next rewrite reads them back with `File.ReadAllLines` (WebsiteAndAppBlocker/MainWindow.xaml.cs:126-146). For a website name with an interior line break the file written is not the sequence of lines that `Hosts.RewriteHosts` returns, so `Hosts.RewriteIdempotent`, which is stated on sequences of lines, does not describe the file in that case.
- Challenge.ChallengeWindow.SubmitButtonClick: before the countdown starts, during the 10-second wait while the text is shown, the correct answer is still 0, so the right text with the answer "0" sets the completion flag. The source then calls `cts.Cancel()` on a null token source, which throws a `NullReferenceException` that nothing catches, and the application ends. The model returns `NoTokenSource` with only the flag changed and does not model the exception or the end of the application. Whether Submit can be pressed while the text is on screen depends on the window's XAML, which is not part of this model.
- Challenge.GetRandomString: the length is a natural number. A negative length, which throws in the source, is not representable.
- A blocking window that wraps past midnight, or case-insensitive removal, would be a natural reading. The code has neither: its test has no wrap-around branch, and `List.Remove` is ordinal. The model follows the code. `Schedule.DiffersFromWrappingWhenInverted` and `Blocker.CaseQuirkExample` state the differences.
