# Verification model of the ESP32 SSH bridge

The firmware lets a browser drive several computers over one SSH connection. Two long-running
tasks share a handful of globals without a lock: the control task (`ex_main`) owns the SSH
session and polls four mailboxes and a flag in a fixed order, and the web-server task runs the
request handlers that post into them. This project models that protocol, the hand-managed
lifecycle of the SSH handles, the transfer of files through the SD card, the table of websocket
clients, the Wi-Fi start-up machine and the text logic around them, and proves what they promise.

## How the files fit together

| file | content |
|---|---|
| `LibSsh.dfy` | the SSH library's handles as a heap with a `fault` flag for any use of a dead handle or double free |
| `Authentication.dfy`, `Lifecycle.dfy` | `authenticate_console`, `connect_ssh`, `connect`, `brutal_exception`, `exec_cmd` and the opening of SCP transfers as functions of the library's answers, and the ownership lemmas about them |
| `SshConn.dfy` | class `ssh_conn`: the imperative methods, proved equal to those functions |
| `Mailbox.dfy` | a String that one task overwrites and another polls, acts on and clears, with the history of its posts |
| `Firmware.dfy` | both tasks as one interleaved transition system, one step per access to a variable that the other task may be using; an action carries every answer of the network, the card and the browser |
| `FirmwareInvariant.dfy` | what every step of either task keeps |
| `FirmwareTheorems.dfy` | what follows for every run from power-on: ownership, files, switches, commands |
| `FirmwareWaiting.dfy` | how long requests wait: bounds for those that are served, and the waits that never end |
| `FirmwareRuns.dfy` | runs from power-on that show the limits to be real |
| `FirmwareService.dfy` | runs from power-on on which any upload and any download is served in full |
| `Transfers.dfy` | the four chunk loops (256, 512, 1024 and 256 bytes) as methods over buffers, an SD card and a remote end, tied to the handles and records of the transition system |
| `Options.dfy` | a value that may be missing |
| `PathSplit.dfy` | how `scp_write` splits a path |
| `Clients.dfy` | the client table under `clientsMutex`: the three array loops, and their steps interleaved |
| `Wifi.dfy` | `wait_for_wifi_exec` against `event_cb`, one shared access per step |
| `Clock.dfy` | the 32-bit `millis()` tests over true time |
| `ServerList.dfy`, `TemplatePage.dfy`, `SessionGate.dfy`, `ArduinoString.dfy` | loading the server list, filling page templates, the session cookie, and the Arduino String operations they use |

The statements quantify over all lists of legal actions, so over every schedule, every failure
and every answer from outside. `Control` actions also record what a library call left behind;
`Truthful` ties that record to the functions of `Lifecycle.dfy`.

## Assumptions

- One assignment of an Arduino String, and one access to a flag or an index, is atomic.
- Library calls return. The one loop that may not, `authenticate_console`, is modelled by a list
  of server answers; a list that ends before the loop does gives no result.
- The constructor of `ssh_conn` leaves `session` and `channel` uninitialised (src/main.cpp:181-185);
  they are taken to be null.
- `ssh_free` reclaims the channels that remain in the session and ignores null; a null session
  gives a null channel or transfer, and opening a null channel reports an error.
- Creating, writing and removing a file on the SD card succeed, except that the download file may
  not open for writing; FILE_WRITE truncates. `/downloads/file` is absent at power-on.
- The size a server announces for a download is that of the file it then sends; `ssh_scp_read`
  returns an error or at most what was asked for. That a read returns at least one byte is assumed
  only where termination is claimed (`PassesEnd`, `WaitsAreBounded` and the methods of
  `Transfers.dfy`).
- The server list has at least two entries, which `switchSsh0` and `switchSsh1` presuppose.
- `String::replace` of the Arduino core, which is not part of the repository, replaces the
  occurrences found from left to right when the value is not longer than the key, and from right
  to left with `lastIndexOf` when it is longer; both directions are modelled. Templates and values
  hold no NUL. `indexOf` and `lastIndexOf` find nothing after a NUL, and `==` compares lengths and
  the texts up to a NUL.
- The server deletes a websocket handler only between the handler's own calls, and an address is
  not given out while its object exists.
- The hash is a parameter, and the session store is a map whose missing keys read as empty. The
  store is kept on the SD card, so a list of log-ins may span several boots.
- No text reaches 2^32 characters, the range of `unsigned int` on the target.

## Findings

- A terminal command or a switch that is posted between the act and the clearing of an earlier one
  is lost, and otherwise served unless a later one overwrites it (`CommandFate`, `SwitchFate`);
  `CommandIsLost` is such a run from power-on.
- The status page reads the index and then `conn`, with no lock. What it reports of the server it
  has read is wrong exactly while a switch has freed its handles and not yet cleared `conn`, or has
  connected it and not yet set `conn`; and if a switch comes between its two reads, it is wrong
  about the server selected then exactly from the moment that one is connected
  (`ReportedStatusIsTrue`; `StatusIsMisreported`, `ConnectionIsDenied` and `StaleIndexIsReported`
  are runs from power-on).
- Once the boot connection has been tried, a waiting terminal request, upload or download is served
  within three loop heads and a bounded number of steps if `conn` is true and every connect of a
  switch that comes first succeeds in all its calls. It hangs its handler, and so the whole web
  server, for ever if such a connect fails, or if `conn` is false and no switch is already past the
  drop: a switch that is only posted is never taken then, and the status page, whose probe would
  reconnect, can no longer be asked for (`ServiceIsDecided`; `HangIsReachable`).
- `scp_read` returns early at src/main.cpp:453-456 and 471-475 without freeing its handle. A
  connected session owns one channel more than the early returns since it was connected, so
  exactly its shell channel if and only if there were none (`OwnershipAtLoopHead`,
  `StrayIsLeft`); the transfer handles themselves are lost until the next power-on.
- `memset(password, 0, sizeof(password))` clears the first four bytes of the stored password, so
  after one refused attempt every later attempt sends the empty password, in later calls too.
- From an address state a step takes devState back below GOT_IPADDR exactly if it is the fall-back
  that the `STATE_WAIT_IPADDR` case has decided on, or a write that the callback has decided on
  earlier (`FallsBackExactly`). The case decides so exactly when it looks after the timeout and
  finds no address (`WaitCaseOutcome`); atomic callbacks exclude the other (`AtomicRunsSettle`),
  which `StaleDisconnect` exhibits.
- The numbers of the two event bases overlap and the callback looks at the number only, so the
  safety result speaks of "an event with the number of STA_CONNECTED".
- A handler object is freed by the server even when `onClose` missed the mutex or never ran. Every
  send goes to a live object exactly on the runs that delete a handler only after a close that got
  the mutex, unless it was never registered (`SendsReachLiveHandlers`,
  `MissedCloseSendsToTheDead`). "No handler has two slots" fails when such an address is used
  again; it holds exactly if each registration that got the mutex found its address gone or no slot
  free (`TwinsExactly`, `ReusedAddressMakesTwins`, `TwinsHearTwice`).
- A path without '/' makes `scp_write` push the file's own name as a directory, and one whose
  directory part has 256 characters or more a directory that is cut short, exactly unless only
  separators are cut off (`PathRoundTrip`); a CSV line without
  a comma becomes host, user and password at once, and one with a single comma has the whole line
  as its password; an empty password opens the gate to any unknown cookie, and a password with '='
  opens it to nobody.
- A template replacement goes wrong exactly when the text between two neighbouring placeholders
  spells the name to be filled and the placeholder that the scan meets first (the left one, or the
  right one for a value longer than the key) has another name (`ReplaceFills`).

## Model

| member | source | states |
|---|---|---|
| FirmwareTheorems.NoHandleIsMisused | src/main.cpp:534-597 | in every interleaving no dead or null handle is used and none is freed twice, and the server index stays in range |
| FirmwareTheorems.OwnershipAtLoopHead | src/main.cpp:187-246 | at every loop head: at most one live session, held by the selected server; `conn` exactly when both its handles are set; begin and finalize calls balance; a connected session owns one channel more than the scp_read calls that returned early since it was connected, so exactly its shell channel if and only if there were none |
| FirmwareTheorems.ReportedStatusIsTrue | src/main.cpp:1167-1174 | the reported `conn` is the truth about the server whose index was read exactly unless that one is selected and its flag lags, between its drop and `conn = false` or between its connect and `conn = true`; if another is selected by then, it is the truth about that one exactly as long as it is not connected |
| FirmwareTheorems.ConnIsUnseen | src/main.cpp:536-589 | while a `conn` that is set at boot or in the status branch can change, no handler is between asking for and reading it |
| FirmwareTheorems.ReportsTheTruth | src/main.cpp:1173 | a report adds one entry to what has been reported, and that entry is the truth about the server whose index was read, and about the one selected, exactly under those conditions |
| FirmwareTheorems.StatusAnsweredExactlyOnce | src/main.cpp:1167-1174 | reports and status requests match one to one, but for the request whose handler is still at it |
| FirmwareTheorems.ConnectOutcome | src/main.cpp:536-588 | wherever the control task connects, the server is marked connected exactly if every call succeeds |
| FirmwareTheorems.ProbeDecides | src/main.cpp:577-579 | a probe whose output is read in full leaves the server marked connected exactly if the output is "alive" between blanks, with its handles and channels unchanged |
| FirmwareTheorems.UploadStarts | src/main.cpp:361-403 | an upload starts exactly if the library grants it, and then announces its path and the size of its body |
| FirmwareTheorems.DownloadStarts | src/main.cpp:435-475 | a download starts exactly if the library grants it, and then receives the offered file into an empty one |
| FirmwareService.UploadSucceeds | src/main.cpp:1099-1127 | for every path and body there is a run from power-on on which exactly that upload is announced, pushed in full and returned from |
| FirmwareService.DownloadSucceeds | src/main.cpp:1052-1097 | for every path and remote file there is a run from power-on on which exactly that download is received in full and answered with the file |
| FirmwareTheorems.FilesAreNeverShared | src/main.cpp:570-575 | the two tasks never have /downloads/upload, or /downloads/file, in use at the same time, though no lock protects them |
| FirmwareTheorems.UploadsServedExactlyOnce | src/main.cpp:1099-1127 | every nonempty upload is served by exactly one scp_write, in order, before its wait ends; it pushes a prefix of that request's body, all of it under its true size if its chunk loop ends normally |
| FirmwareTheorems.DownloadsServedExactlyOnce | src/main.cpp:1052-1097 | every nonempty download is served by exactly one scp_read, in order, and answered with exactly the bytes that call received: a prefix of the remote file, the whole of it on success |
| FirmwareTheorems.NeverAnEarlierDownload | src/main.cpp:1076-1096 | while a response is being sent it is a prefix of the file requested by that same request, never of an earlier one; an empty path is answered with nothing |
| FirmwareTheorems.StatusProbedExactlyOnce | src/main.cpp:576-590 | every status request causes exactly one probe, and its handler's wait ends only after it |
| FirmwareTheorems.IndexFollowsSwitches | src/main.cpp:554-557 | in every run the selected server is the one named by the last delivered post of switch_ssh, the first one before any |
| FirmwareTheorems.InputInOrder | src/main.cpp:566-569 | the commands written to the shell, and the switches acted on, are a subsequence of those posted |
| FirmwareTheorems.TerminalRequestFate | src/main.cpp:1028-1031 | a terminal request returns with its command written, except exactly when it was posted between the write and the clearing of an earlier one |
| FirmwareTheorems.CommandFate | src/main.cpp:566-569 | a nonempty command from websocket or terminal that no later one overwrites has been written once the box is empty, except exactly when it was posted between the write and the clearing of an earlier one; then it is lost |
| FirmwareTheorems.SwitchFate | src/main.cpp:1176-1184 | a switch that no later one overwrites has been acted on once the box is empty, except exactly when it was posted after an earlier one was read and before the clearing; then it is lost |
| FirmwareRuns.CommandIsLost | src/main.cpp:1028-1031 | a run from power-on in which a terminal request returns with its command lost |
| FirmwareRuns.StrayIsLeft | src/main.cpp:453-456 | a run from power-on to a loop head where the live session owns two channels |
| FirmwareRuns.HangIsReachable | src/main.cpp:536-538 | a boot connection that fails in any call, followed by an upload, hangs it in every continuation |
| FirmwareRuns.StatusIsMisreported | src/main.cpp:550-552 | a run from power-on in which the status page is about to report a connection whose session and channel are already freed |
| FirmwareRuns.ConnectionIsDenied | src/main.cpp:557-558 | a run in which it is about to report no connection for a server that is connected |
| FirmwareRuns.StaleIndexIsReported | src/main.cpp:1173 | a run in which it is about to report the server selected before while the other one is connected |
| FirmwareWaiting.ServedWithinThreeHeads | src/main.cpp:548-597 | a status request waits for at most three loop heads whatever `conn` is; a terminal request, upload or download does while its own poll finds `conn` true |
| FirmwareWaiting.ControlNeverBlocks | src/main.cpp:531-598 | in every reachable state the control task has a legal step |
| FirmwareWaiting.PassesEnd | src/main.cpp:541-598 | a run that passes no loop head has a bounded number of control steps, whatever the handlers do meanwhile, given that reads make progress |
| FirmwareWaiting.WaitsAreBounded | src/main.cpp:541-598 | a run in which a request waits and its poll finds `conn` true has a length bounded by the passes left and the bytes to move, given that reads make progress |
| FirmwareWaiting.ServiceIsDecided | src/main.cpp:548-575 | after the boot connection, a waiting terminal request, upload or download is served within three loop heads and a bounded number of steps when the connection is up or a switch past its drop, on the runs where every connect of a switch succeeds call by call; it hangs on the runs where one fails, and on all runs otherwise |
| FirmwareWaiting.FailedSwitchHangs | src/main.cpp:557-562 | a switch whose connect fails in any call leaves a waiting request hanging for ever |
| FirmwareWaiting.StuckForever | src/main.cpp:566-575 | a handler waiting on a set box with the connection down stays where it is in every continuation |
| FirmwareWaiting.HangsWhileDisconnected | src/main.cpp:548-575 | with `conn` false and no switch past its drop, a terminal request, upload or download is never served and no handler can move again, even if a switch has been posted |
| FirmwareInvariant.RunKeepsInv | src/main.cpp:531-598 | ownership, mailbox discipline and the upload and download accounts survive every run |
| FirmwareInvariant.OwnershipKept | src/main.cpp:548-589 | every control step keeps the ownership invariant, whatever the library answers |
| FirmwareInvariant.RunKeepsChannels | src/main.cpp:453-475 | in every run the channels of a connected session are its shell channel, those of early returns since its connect, and that of a running transfer |
| FirmwareInvariant.MailKept | src/main.cpp:986-1004 | a step of either task keeps: only the newest post can be pending, and a request box is set only while its handler waits |
| FirmwareInvariant.UploadingKeptByControl | src/main.cpp:570-572 | control steps keep the one-to-one, prefix-wise match of pushes with uploads |
| FirmwareInvariant.UploadingKeptByServer | src/main.cpp:1107-1122 | so do the handler's steps; the card holds exactly the stored part of the body |
| FirmwareInvariant.DownloadingKeptByControl | src/main.cpp:573-575 | control steps keep the match of pulls with downloads and what the card holds of the last one |
| FirmwareInvariant.DownloadingKeptByServer | src/main.cpp:1067-1096 | so do the handler's steps; between requests no download file exists |
| Mailbox.DeliveredInOrder | src/main.cpp:566-569 | what was acted on is a subsequence of what was posted |
| Mailbox.TakeDelivers | src/main.cpp:568 | acting on a waiting box delivers its newest post once |
| Mailbox.PutKeeps | src/main.cpp:1003 | overwriting adds a pending post, loses exactly a pending one, keeps every other fate and delivers nothing |
| Mailbox.ClearKeeps | src/main.cpp:569 | clearing loses exactly a pending post, keeps every other fate and delivers nothing |
| Lifecycle.ConnectOwns | src/main.cpp:205-246 | from no session, connect ends with a fresh session that owns exactly its shell channel if and only if every call succeeds, and otherwise with nothing allocated |
| Lifecycle.ConnectSucceeds | src/main.cpp:205-246 | connect returns a channel exactly if every call succeeds, the authentication judged by the server's answers |
| Lifecycle.ConnectLeavesPassword | src/main.cpp:210 | the stored password is what the authentication leaves of it, and untouched if there was none |
| Lifecycle.BrutalExceptionFrees | src/main.cpp:187-203 | brutal_exception leaves no session and no channel, a failed probe's channel included, and balances the counters |
| Lifecycle.ExecCmdTidies | src/main.cpp:288-344 | a one-off channel stays allocated only when "-1" is returned; other errors and "-1" never read as alive; output that is not an error is a prefix of what the command printed |
| Lifecycle.ExecCmdLosesNothing | src/main.cpp:314-343 | with polls that go on until the channel closes the result is all the output that they and the last read report, byte for byte |
| Lifecycle.ReadLoopStops | src/main.cpp:314-329 | the read loop stops at the first poll that finds the channel closed, is idle too long or fails, with exactly the bytes reported up to there |
| Lifecycle.ProbeVerdict | src/main.cpp:577-579 | a probe whose output is read in full finds the server alive exactly if the output is "alive" between blanks, and leaves session and channels as they were |
| Lifecycle.AliveExactly | src/main.cpp:578-579 | an output counts as alive exactly if it is "alive" with blanks before and after, stated over the six blank characters |
| Lifecycle.DecimalValue | src/main.cpp:302 | String(rc) is the decimal notation of the number |
| Lifecycle.ErrorCodesAreNotAlive | src/main.cpp:578-579 | no decimal error code trims to "alive" |
| Lifecycle.OpenPushOwns | src/main.cpp:357-403 | scp_write before its chunk loop holds one new handle or has given everything back |
| Lifecycle.OpenPullOwns | src/main.cpp:427-475 | scp_read before its chunk loop leaks one handle exactly on its two early returns |
| Lifecycle.ScpRoundTrip | src/main.cpp:361-372 | making a transfer and releasing it restores handles, channels and ownership |
| Lifecycle.FreeScpReleases | src/main.cpp:420-421 | releasing a transfer removes that handle and no other |
| Lifecycle.PushesAreTried | src/main.cpp:361-403 | whichever way a push starts, releasing it leaves the heap of a transfer tried, with or without its channel, and released |
| Lifecycle.PullsAreTried | src/main.cpp:435-475 | so it is with a pull, except that the early returns release nothing |
| Lifecycle.TriedOwns | src/main.cpp:435-446 | a tried transfer once released has given back everything; unreleased it leaves one handle and one channel |
| SshConn.Connection.constructor | src/main.cpp:181-185 | a new connection is down and, by assumption, holds no handle |
| SshConn.Connection.BrutalException | src/main.cpp:187-203 | the method on the fields does what the model's brutal_exception does |
| SshConn.Connection.ConnectSsh | src/ssh_functions.cpp:379-417 | the method returns the session, and leaves the heap and the password buffer, of the model |
| SshConn.Connection.Connect | src/main.cpp:205-246 | likewise for connect |
| SshConn.Connection.ExecCmd | src/main.cpp:288-344 | the read loops return the model's output, error flag and heap |
| Authentication.AuthenticateConsole | src/ssh_functions.cpp:269-377 | the C loop over the password array equals the model: result, passwords sent and what is left in the buffer |
| Authentication.ClearStart | src/ssh_functions.cpp:367 | memset with the size of a pointer clears bytes 0 to 3 and nothing else |
| Authentication.ReturnsSettledResults | src/ssh_functions.cpp:283-368 | authenticate_console returns exactly when some answer settles it, with success or an error, never a denial |
| Authentication.ResultIsSettled | src/ssh_functions.cpp:276-376 | the result is success, or error, exactly as the "none" answer says if it is final, otherwise the answer that counts in the first final round: gssapi's if offered and final, else the password's |
| Authentication.PasswordsSent | src/ssh_functions.cpp:357-367 | one password is sent in every round up to the final one, and in that one unless gssapi ends it |
| Authentication.OnlyTheFirstAttemptIsReal | src/ssh_functions.cpp:357-368 | only the first attempt of a call sends the stored password, all later ones the empty one |
| Authentication.RetriesSendTheEmptyPassword | src/main.cpp:210 | after one round without success or error, all passwords sent by any list of later calls on the same buffer are empty |
| Transfers.ScpWrite | src/main.cpp:357-423 | pushing begins exactly if transfer, directories and file are granted, and breaks exactly if there is not room for the file; the heap is that of the transition system's start of a push, released, so the handle is given back on every path; directories are those of the path in order; the bytes are a prefix of the card's file, all of it unless a chunk write failed; and the loop's steps and record are legal ones of the transition system |
| Transfers.Send | src/main.cpp:374-422 | the three ways to end after the handle is open: a refused directory leaves a prefix of the directories, a refused file all of them, and exactly otherwise the chunk loop has run |
| Transfers.PushTokens | src/main.cpp:378-393 | the strtok loop pushes the components in order and ends; it stops exactly at the one that is refused |
| Transfers.PushFile | src/main.cpp:405-417 | the 512-byte loop sends a prefix, and the whole file exactly if there is room for it |
| Transfers.ScpRead | src/main.cpp:427-512 | the call succeeds exactly if the transfer, the request, the card, every read and the closing end of file are granted; the heap is that of the transition system's start of a pull, released, and handles and channels are as before exactly unless the request was refused or the card would not open, which leave one of each; the card holds a prefix of the offered file, the whole on success; the loop's steps and record are legal ones of the transition system |
| Transfers.OpenScp | src/main.cpp:435-446 | opening succeeds exactly if the transfer is made and initialised; the heap is that of a tried transfer, released otherwise |
| Transfers.PullFile | src/main.cpp:466-491 | the 1024-byte loop stores a prefix, and the whole file exactly if no read fails before its end |
| Transfers.StoreUpload | src/main.cpp:1107-1120 | the 256-byte loop stores exactly the request body |
| Transfers.SendDownload | src/main.cpp:1076-1096 | the response is exactly the card's file under its true length, and the file is gone afterwards |
| Transfers.UploadEndToEnd | src/main.cpp:1107-1126 | through both loops what reaches the server is a prefix of the request body; if everything is granted and there is room it is the whole body under its size |
| Transfers.DownloadEndToEnd | src/main.cpp:467-511 | through both loops the response is a prefix of the remote file, all of it when scp_read succeeds, as it does exactly if everything is granted, and the card is as before |
| PathSplit.Tokenizer.Next | src/main.cpp:378-392 | one strtok call returns the next component or reports the end |
| PathSplit.PathRoundTrip | src/main.cpp:374-396 | directory part, '/' and file name give the path back; the directories are plain names that join to the normalised directory part exactly if it is shorter than 256 characters or only separators are cut off after 255 |
| PathSplit.CutMatters | src/main.cpp:374-376 | cutting a text changes its normal form exactly if more than separators is cut off |
| PathSplit.ComponentsRejoin | src/main.cpp:378-393 | components are nonempty, separator-free and join to the text with its separators normalised |
| PathSplit.SeparatorsSplit | src/main.cpp:378 | a slash and a backslash each separate components |
| PathSplit.OthersDoNotSplit | src/main.cpp:378 | a text without either is one component |
| PathSplit.JoinIsInjective | src/main.cpp:378-393 | only one list of plain names joins to a given text, so rejoining determines the components |
| PathSplit.PathWithoutSlash | src/main.cpp:375-396 | without '/' the whole path is both file name and pushed directory |
| Clock.TimersAreExact | src/main.cpp:324 | across the rollover the keep-alive test is never early and always fires in [10000, 2^32) ms, the idle test in (10000, 2^32) |
| Clock.KeepAlives | src/main.cpp:592-596 | over a run of checks, a keep-alive is sent only while connected and when due since the last stamp, and then always |
| Clock.KeepAlivesAreSpaced | src/main.cpp:534 | any two keep-alives of a run are at least ten real seconds apart |
| Clients.Register | src/main.cpp:959-964 | the create loop on the array stores the handler in the first free slot, if any |
| Clients.Unregister | src/main.cpp:975-979 | the close loop empties exactly the slots of its handler |
| Clients.Broadcast | src/main.cpp:261-265 | the broadcast loop sends to the occupants in table order |
| Clients.RegisteredFacts | src/main.cpp:955-970 | registering uses a free slot whenever there is one and disturbs nobody; it makes a twin exactly when the address is still present and a slot is free |
| Clients.OccupantsOnce | src/main.cpp:261-265 | a broadcast reaches every registered handler exactly once and nobody else |
| Clients.OccupantsInOrder | src/main.cpp:261-265 | the recipients of two parts of the table are those of the first followed by those of the second |
| Clients.TableIsSound | src/main.cpp:163-167 | on every run the mutex is owned by exactly the task inside its section, and no handler has two slots if each registration that got the mutex found its address gone from the table or no slot free |
| Clients.TwinsExactly | src/main.cpp:955-970 | on every run that ends outside a section, no handler ever has two slots exactly if each registration that got the mutex found its address gone from the table or no slot free |
| Clients.SectionsAreAtomic | src/main.cpp:955-984 | on every run the step-by-step sections end where the atomic table functions would |
| Clients.EveryClientHearsItsInterval | src/main.cpp:255-271 | on the runs without twins every client is sent exactly the chunks read in its interval for which the lock was obtained, once each and in order |
| Clients.SameIntervalSameFeed | src/main.cpp:259-266 | two clients registered over the same interval are sent the identical sequence |
| Clients.ReusedAddressMakesTwins | src/main.cpp:973-984 | a close that misses the mutex, then a handler at the same address, gives two slots to one handler |
| Clients.TwinsHearTwice | src/main.cpp:261-265 | a handler with two slots is sent a chunk twice |
| Clients.SendsReachLiveHandlers | src/main.cpp:955-984 | without address reuse, every registered handler, and so the target of every send, is a live object exactly on the runs that delete no handler registered under the mutex before a close of it under the mutex |
| Clients.MissedCloseSendsToTheDead | src/main.cpp:973-984 | a run in which a close misses the mutex, the object is freed and a broadcast is about to send to it |
| Wifi.StartUpIsSafe | src/ssh_functions.cpp:40-107 | in every interleaving exec_func is started at most once, only after a STA_CONNECTED number was handled, and the last two states are never reached |
| Wifi.FallsBackExactly | src/ssh_functions.cpp:51-127 | in every run, a step takes devState from an address state below GOT_IPADDR exactly if it is the waiting case's decided fall-back or a pending write of the callback |
| Wifi.SettledRunsOn | src/ssh_functions.cpp:69-87 | from a settled state, in every interleaving, the state never moves back and exec_func starts with the counted step, at most the sixth |
| Wifi.NeverBackExactly | src/ssh_functions.cpp:116-127 | at the top of the loop in GOT_IPADDR every continuation stays at or after it exactly unless the callback has a devState write pending |
| Wifi.AtomicRunsSettle | src/ssh_functions.cpp:40-107 | on runs from start-up with atomic callbacks, GOT_IPADDR at the top of the loop is never left backwards, and exec_func starts with the sixth further step |
| Wifi.WaitCaseOutcome | src/ssh_functions.cpp:51-68 | whatever events come between its steps, the waiting case is about to write NEW exactly when it has looked after the timeout and found no address, and GOT_IPADDR exactly when it has found one |
| Wifi.WaitCaseEnds | src/ssh_functions.cpp:51-68 | a pass through the waiting case in which the time is over ends by writing NEW exactly if no routable IPv6 or IPv4 address was there or arrived before the look, and GOT_IPADDR otherwise |
| Wifi.StaleDisconnect | src/ssh_functions.cpp:125-127 | a run from start-up in which the callback's late write puts GOT_IPADDR back to NEW |
| ServerList.LoadServers | src/main.cpp:783-805 | the loading loop returns the entries of all nonblank lines in order |
| ServerList.LoadPrinted | src/main.cpp:783-805 | loading a printed list restores it, in order, with blanks around the fields, blank lines, CRLF and a missing last newline; passwords may contain commas |
| ServerList.PaddedStored | src/main.cpp:796-802 | a field is kept without the blanks around it |
| ServerList.LineWithoutComma | src/main.cpp:789-794 | a line in which no comma is found becomes all three fields |
| ServerList.LineWithOneComma | src/main.cpp:789-794 | with one comma the user is the rest of the line and the password the whole line |
| ServerList.EveryLineParses | src/main.cpp:789-794 | the three fields are the parts around the first two commas exactly when there are at least two before any NUL; otherwise the password is the whole line, and without a comma all fields are |
| TemplatePage.FuncReadTemplate | src/main.cpp:519-527 | the loop performs the replacements one after the other |
| TemplatePage.ReplaceFills | src/main.cpp:522-524 | one replacement on the flat text, in the direction that the lengths call for, equals filling that placeholder exactly when no text between two placeholders spells the name next to one that the scan meets first and leaves |
| TemplatePage.ForwardFills | src/main.cpp:523 | the scan from the left fills the placeholder exactly when no remaining placeholder is followed by the bare name and another placeholder |
| TemplatePage.BackwardFills | src/main.cpp:523 | the scan from the right, for values longer than the key, does exactly when no remaining placeholder is preceded by the bare name and another placeholder |
| TemplatePage.TemplateRenders | src/main.cpp:519-527 | without such clashes the sequence of replacements is one simultaneous substitution |
| TemplatePage.OrderDoesNotMatter | src/main.cpp:1188 | then the order of the arguments does not matter |
| SessionGate.Gate.LogIn | src/main.cpp:1207-1232 | a log-in stores what the form has after its ninth character under the hex digest and sets the cookie to that key |
| SessionGate.Gate.Middleware | src/main.cpp:849-888 | the handler's substring arithmetic takes the model's decision |
| SessionGate.LogInAndVisit | src/main.cpp:1215-1232 | after logging in with "password=" and x, exactly x is stored, and a request with the cookie that was set gets every page that is not exempt exactly if x ends with the password |
| SessionGate.Run | src/main.cpp:1196-1225 | the store after a run of log-in requests is that of what their forms have after the ninth character |
| SessionGate.KeyIsRecovered | src/main.cpp:1222-1231 | the key has 64 characters and no '=', is injective in the digest, and is read back from any Cookie header that ends with the session cookie |
| SessionGate.KeyIsHex | src/main.cpp:1223 | the key spells every byte with two lower-case hexadecimal digits |
| SessionGate.StoreHolds | src/main.cpp:1225 | a key is stored exactly when some log-in has it, with the text of the latest one |
| SessionGate.GateOpensExactly | src/main.cpp:871-888 | after any log-ins a request is turned away exactly when its page is not exempt and its key is not that of a stored log-in whose text after the last '=' is the password (with an empty password an unknown key passes too); the log-out page is served exactly for /admin with such a key |
| SessionGate.OwnCookieOpens | src/main.cpp:855-888 | the cookie set by a log-in opens the gate exactly if that log-in's text ends with the password |
| SessionGate.PasswordWithEquals | src/main.cpp:871-876 | a password with '=' before any NUL shuts everybody out |
| ArduinoString.SubstringAfterLast | src/main.cpp:857 | substring from lastIndexOf + 1 is the text after the last such character before any NUL, or everything |

## Left out

- GPIO toggles, fan PWM and tachometer, Serial logging, static pages and `handle404`: device and page code without a property across functions.
- The fan client table: it repeats the SSH table, and its unmatched give at src/main.cpp:842 breaks the lock discipline, so only `clientsMutex` is modelled.
- The insides of libssh, HTTPSServer, FreeRTOS, the SD driver, mbedtls and the key-value store: parameters and abstract state with the assumptions above.
- `authenticate_kbdint` and `auth_keyfile`: nothing calls them.
- Wi-Fi credentials, certificates, `getPassword` and the entry point: no logic to model.
- Reading and URL-decoding request bodies: a handler's action carries the text it posts, the path or the body.
- `ssh_conn::disconnect`: it follows an endless loop and is never reached.
- The two tasks' endless loops are steps of a transition system and not methods, because every statement about them is about interleavings; the loops inside a step are methods in `SshConn.dfy` and `Transfers.dfy`.
- Shell output is modelled in `Clients.dfy`, apart from the mailboxes, since the two share no variable.
- A command counts as written when it is handed to `ssh_channel_write`, whose result the firmware ignores.
- FirmwareWaiting.PassesEnd: a card or network read that returns no byte makes no progress, so reads that do are assumed, and a bound on the files moved, which enters the count.
- FirmwareWaiting.WaitsAreBounded: assumes the same, and a bound on the size of the file a server offers, which enters the length.
- FirmwareWaiting.ServiceIsDecided: says nothing while the first connect is under way, because its answers decide then.
- Clients.SendsReachLiveHandlers: address reuse is excluded, because a new object at the address of a freed one makes its stale entry point to a live object again.
- Clients.EveryClientHearsItsInterval: runs with twins are excluded, because a twin is sent every chunk twice (`TwinsHearTwice`); which runs these are is exact (`TwinsExactly`).
- Authentication.AuthenticateConsole: for a stored password shorter than three characters the bytes that the memset writes beyond the allocation are not modelled.
