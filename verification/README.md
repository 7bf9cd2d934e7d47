# A verified model of the Google guest agent

The guest agent runs inside a virtual machine and keeps the host in step with
what the metadata server says: it rewrites configuration files of other
programs, creates users and installs their SSH keys, sets up VLAN interfaces
and forwarded addresses, rotates workload certificates, and delivers metadata
events to its parts. This project models those of its components whose
correctness spans many steps, and proves what they are relied on for.

| file | what it models |
|---|---|
| `TextLines.dfy` | Go's `Split`, `Join`, `Contains` and friends on lines of text |
| `OsLoginFilter.dfy`, `OsLoginConfig.dfy` | taking the agent's lines out of sshd, PAM and group configuration, and putting them in |
| `NSSwitch.dfy` | the in-place edit of nsswitch.conf |
| `SshKeys.dfy` | the two selectors of SSH keys from metadata |
| `AuthorizedKeys.dfy`, `Accounts.dfy` | authorized_keys files, and the accounts manager with its cache, over all histories |
| `EventProtocol.dfy` | the goroutines of the event manager as a step system, over all interleavings |
| `EventManager.dfy` | subscriber lists and the dispatch of one event |
| `CertRefresh.dfy` | certificate rotation: every step may fail or be the last one |
| `Addresses.dfy` | forwarded addresses and routes of one interface |
| `Netplan.dfy`, `NetplanManager.dfy`, `VlanMetadata.dfy` | VLAN interfaces under netplan, keyed by printed names |
| `Runes.dfy`, `RequestFraming.dfy` | how the command socket reads runes, and where a request ends |
| `Options.dfy` | a value that may be missing |

Code that works by updating variables, maps and files is modelled by methods
and classes proved against specification functions; the theorems are about
those functions. The environment (failing commands, answers of the metadata
server, the order in which a map is walked, when the machine stops) appears as
parameters, and results hold for all of them.

Choices that matter when reading the results:

- Strings are sequences of characters, and a file is its text; only the command
  socket is read byte by byte. Writing a file is taken to be complete or not to
  happen, except where what is left half done matters: the certificate
  directory, the networkd overrides, and the temporary authorized_keys file,
  which is opened without truncation.
- Reading a YAML or INI file gives back the values that were written.
- VLAN ids are non-negative. Timestamps of certificate runs are distinct.
- Event types are distinct, and a receive followed by a write to a shared flag
  is two steps. Reads and writes of flags are sequentially consistent.
- Whether an SSH key parses and has not expired is an arbitrary predicate,
  fixed during a run.
- The repository's own README says that the authorized_keys file of a user
  whose keys are all removed is deleted. The code rewrites it without keys and
  keeps the user's own lines; the model follows the code.

Some properties one would expect do not hold of the code. For those there is a
witness, and a theorem with the exact condition:

| expected | witness | exact condition |
|---|---|---|
| a rewrite after a disabling rewrite forgets it | `EmptyFileRemembersDisabling` | `LastWriterWinsOverDisabled` |
| disabling undoes enabling | `NotUndone` (both modules) | `DisableUndoesEnable` (both modules) |
| a removal signal bounds further events | `SignalledButUnwritten` | `StoppingIsExact` |
| a successful update writes the intended text | `LeftoverKeepsDroppedKeys` | `UpdateExact` |
| a user in the cache has exactly its keys in the file | `LeftoverKeepsDroppedKeys`, `NologinDisagrees` | `SetKeepsAgreement`, `AgreementIsExact` |
| a Set changes no line of the user's own | `LeftoverAddsLine` | `SetKeepsUserLines` |
| a user that is no longer wanted has no keys | `FailedRemovalOrphans`, `OrphanStays` | `UnwantedKeysGone` |
| the Windows registry records the agent's addresses | `UnreadIsForgotten` | `NetworkInterface.Set` |
| a successful setup is in force | `ReloadIsLost` | `SetupVlanInterface` |
| directories are those of the wanted VLANs | `DirectoryLeaks`, `LeakStays` | `SetUpConverges` |
| a successful rotation leaves as many directories | `SuccessKeepsCount` | `SuccessKeepsCount` |
| a request ends at the end of its object | `BraceInStringCuts` | `FramingIsExact` |
| the handler is given the bytes that were sent | `AccentIsCut` | `BytesAreExact` |

## Model

| member | source | states |
|---|---|---|
| `TextLines.JoinSplit` | google_guest_agent/oslogin.go:257-284 | splitting a text at newlines and joining it again gives the text back |
| `TextLines.SplitTerminated` | google_guest_agent/oslogin.go:257-284 | newline-terminated lines re-read as themselves and one final blank |
| `TextLines.ContainsByLine` | google_guest_agent/oslogin.go:257-284 | a text without newlines occurs in a file exactly when it occurs in one of its lines |
| `OsLoginFilter.FilterGoogleLines` | google_guest_agent/oslogin.go:257-284 | the two-flag loop keeps exactly the lines outside blocks, without marker text and not announced by a comment outside a block, less one final blank |
| `OsLoginFilter.InBlockStep` | google_guest_agent/oslogin.go:264-277 | "some earlier line opened a block that no line since has closed" changes from line to line as the block flag does |
| `OsLoginFilter.ClosedAppend` | google_guest_agent/oslogin.go:257-284 | a part with nothing left open does not influence how what follows it is filtered |
| `OsLoginFilter.BlockErased` | google_guest_agent/oslogin.go:257-284 | a block of hash-free directives between its markers is filtered out whole and leaves nothing open |
| `OsLoginFilter.CommentedErased` | google_guest_agent/oslogin.go:257-284 | a comment marker and the directive under it are filtered out and leave nothing open |
| `OsLoginFilter.SurvivorsClean` | google_guest_agent/oslogin.go:257-284 | no surviving line has marker text or a newline |
| `OsLoginFilter.SurvivorsSubsequence` | google_guest_agent/oslogin.go:257-284 | survivors are found at increasing positions of the file: nothing is reordered or invented |
| `OsLoginFilter.KeptSurvives` | google_guest_agent/oslogin.go:257-284 | a non-blank line of the user's outside all blocks is never lost |
| `OsLoginConfig.AddedLinesErased` | google_guest_agent/oslogin.go:297-358 | whatever header and footer the agent adds to sshd_config, PAM or group.conf, for every platform and flags, the filter takes out again |
| `OsLoginConfig.EnabledLayout` | google_guest_agent/oslogin.go:297-358 | an enabled file is the agent's header, the user's lines in order, and the agent's footer last |
| `OsLoginConfig.SshHeaderPolicy` | google_guest_agent/oslogin.go:326-342 | what the first block of sshd_config holds, switch by switch: certificates, key command and user, two-factor methods |
| `OsLoginConfig.SshLayout` | google_guest_agent/oslogin.go:326-358 | an enabled sshd_config line by line: that block, the user's lines, and a last block with the Include line and, exactly for two factors, the exception for service accounts |
| `OsLoginConfig.SshDirectives` | google_guest_agent/oslogin.go:297-321 | the key command is that for security keys exactly when they are on, and the FreeBSD and RHEL 6 forms are used exactly there |
| `OsLoginConfig.PamLayout` | google_guest_agent/oslogin.go:415-438 | an enabled PAM file line by line: the OS Login line exactly for two factors, the group line either way, the user's lines, and the home directory line alone in the last block |
| `OsLoginConfig.PamDirectives` | google_guest_agent/oslogin.go:416-424 | the three lines name their modules, differ, and are optional exactly on FreeBSD |
| `OsLoginConfig.GroupLayout` | google_guest_agent/oslogin.go:456-465 | an enabled group.conf is the user's lines, the comment marker and the group directive |
| `OsLoginConfig.SshPolicy` | google_guest_agent/oslogin.go:313-342 | certificates are trusted iff security keys are off and metadata or configuration asks; the key command is set unless certificates alone are required; two factors iff asked |
| `OsLoginConfig.LastWriterWinsOverEnabled` | google_guest_agent/oslogin.go:297-358 | rewriting an enabled rewrite of any file equals rewriting the file itself, for all three files and all flags |
| `OsLoginConfig.LastWriterWinsOverDisabled` | google_guest_agent/oslogin.go:297-358 | the same over a disabling rewrite, if and only if some line survives the filter or the last writer disables |
| `OsLoginConfig.EmptyFileRemembersDisabling` | google_guest_agent/oslogin.go:297-358 | on the empty file a disabling rewrite does leave a trace |
| `OsLoginConfig.DisabledIdentity` | google_guest_agent/oslogin.go:297-358 | disabling is the identity exactly on newline-terminated files without marker text |
| `OsLoginConfig.DisableUndoesEnable` | google_guest_agent/oslogin.go:415-438 | disable after enable returns the file byte for byte, for all three files and all flags, if and only if it is newline-terminated and has no marker text |
| `OsLoginConfig.NotUndone` | google_guest_agent/oslogin.go:415-438 | it does not on a file without final newline, nor on one that quotes a marker |
| `OsLoginConfig.DisableIdempotent` | google_guest_agent/oslogin.go:456-465 | disabling twice is disabling once, for every text |
| `OsLoginConfig.DisabledUnmarked` | google_guest_agent/oslogin.go:456-465 | a disabled file has no marker text and ends in a newline, whatever it was before |
| `OsLoginConfig.EnableIdempotent` | google_guest_agent/oslogin.go:297-370 | enabling again with the same flags changes nothing, so the file is written once |
| `NSSwitch.UpdateNSSwitchConfig` | google_guest_agent/oslogin.go:372-393 | the loop edits each line by itself and joins the lines again |
| `NSSwitch.AppendedSuffixIsFirst` | google_guest_agent/oslogin.go:372-393 | in a line that did not mention oslogin, the first occurrence of the suffix is the appended one |
| `NSSwitch.EnableIdempotent` | google_guest_agent/oslogin.go:372-393 | enabling twice is enabling once, on every file |
| `NSSwitch.DisableUndoesEnable` | google_guest_agent/oslogin.go:372-393 | disable after enable is the identity if and only if no passwd: or group: line contained the suffix |
| `NSSwitch.NotUndone` | google_guest_agent/oslogin.go:372-393 | it is not on a passwd: line that carried the suffix |
| `NSSwitch.DisableUndoesEnableUnmentioned` | google_guest_agent/oslogin.go:372-393 | in particular when none of these lines mentions oslogin |
| `NSSwitch.EnabledNamesOsLogin` | google_guest_agent/oslogin.go:372-393 | enabling makes every passwd: and group: line name oslogin, leaves those that did as they were, and leaves all other lines alone |
| `NSSwitch.FreebsdReadsFiles` | google_guest_agent/oslogin.go:384-386 | on FreeBSD the first compat of such a line, and nothing else, becomes files |
| `SshKeys.GetUserKeys` | google_guest_agent/non_windows_accounts.go:207-232 | the loop groups the accepted keys by user, in order |
| `SshKeys.ParseSshKeys` | google_authorized_keys/main.go:55-77 | the loop selects the accepted keys of one user, in order |
| `SshKeys.TrimMeans` | utils/ssh.go:102-104 | trimming finds exactly what stands between the blanks |
| `SshKeys.GetUserKeyMeans` | utils/ssh.go:102-120 | a user and a key are given exactly for an entry that is that user, a colon and that key, with blanks around it at most |
| `SshKeys.GetUserKeyFails` | utils/ssh.go:102-120 | it fails exactly for entries that have no such form |
| `SshKeys.AgentEntryMeans` | utils/ssh.go:124-133 | an entry counts exactly when besides the user has no white space and the key is good |
| `SshKeys.SelectedPositions` | google_authorized_keys/main.go:55-77 | the keys selected for a user stand at increasing positions of the list, in entries that count for that user, and no such entry is passed over |
| `SshKeys.OneEntry` | google_authorized_keys/main.go:79-93 | a single entry that counts yields that user with that key in both programs, unless it is a blocked project entry |
| `SshKeys.EntriesAgree` | utils/ssh.go:102-133 | both programs make the same of every metadata entry, although one trims first and the other looks for a colon first |
| `SshKeys.GroupingSelects` | google_guest_agent/non_windows_accounts.go:207-232 | a user's entry in the grouping is what selecting for that user yields |
| `SshKeys.SelectorsAgree` | google_authorized_keys/main.go:79-93 | on-demand keys over instance and unblocked project lists equal the user's entry in the agent's grouping of the concatenated list |
| `SshKeys.GroupingUsersValid` | utils/ssh.go:87-98 | every user in the grouping has a valid name and at least one key |
| `SshKeys.GroupingKeysWritable` | utils/ssh.go:124-133 | keys from metadata split at newlines are non-empty single lines |
| `AuthorizedKeys.NewContents` | google_guest_agent/non_windows_accounts.go:451-479 | reading loop and writing loops produce the user's lines and then each key under its marker |
| `AuthorizedKeys.RewriteThenTail` | google_guest_agent/non_windows_accounts.go:451-479 | what a longer left-over leaves behind a rewritten text is read by itself: its lines and keys come after those written |
| `AuthorizedKeys.RewriteReadsBack` | google_guest_agent/non_windows_accounts.go:451-479 | re-reading a rewritten file gives the same user lines and exactly the keys written |
| `AuthorizedKeys.KeysReadBackExactly` | google_guest_agent/non_windows_accounts.go:451-479 | the keys come back if and only if each is a non-empty single line |
| `AuthorizedKeys.RewritesCollapse` | google_guest_agent/non_windows_accounts.go:451-479 | successive rewrites collapse to the last |
| `AuthorizedKeys.RewriteWithoutKeys` | google_guest_agent/non_windows_accounts.go:451-479 | rewriting with no keys leaves exactly the user's lines and no key |
| `AuthorizedKeys.UntouchedLines` | google_guest_agent/non_windows_accounts.go:451-479 | a file without marker keeps every non-blank line |
| `Accounts.CompareStringSlice` | google_guest_agent/non_windows_accounts.go:46-61 | it is equality of the lists, order included, because the sorted copies are never used |
| `Accounts.AccountsManager.ReadGoogleUsersFile` | google_guest_agent/non_windows_accounts.go:319-331 | the set read is that of the non-blank lines |
| `Accounts.AccountsManager.WriteGoogleUsersFile` | google_guest_agent/non_windows_accounts.go:301-317 | the file then names exactly the users in the cache, in the reading of ReadGoogleUsersFile |
| `Accounts.AccountsManager.UpdateAuthorizedKeysFile` | google_guest_agent/non_windows_accounts.go:416-497 | file, temporary file and success in each failure case, and nobody else's account touched |
| `Accounts.AccountsManager.RemoveGoogleUser` | google_guest_agent/non_windows_accounts.go:366-378 | the user is deprovisioned and leaves the cache whether or not the commands succeed; nobody else is touched |
| `Accounts.AccountsManager.ProvisionUser` | google_guest_agent/non_windows_accounts.go:145-168 | one user is provisioned; it panics exactly when google_users was unreadable and the user was created |
| `Accounts.AccountsManager.ReconcileUsers` | google_guest_agent/non_windows_accounts.go:137-180 | both loops act on every user by itself, whatever the order of the maps |
| `Accounts.AccountsManager.Set` | google_guest_agent/non_windows_accounts.go:113-186 | one Set is the per-user step applied to every user; it panics if and only if google_users was unreadable and some wanted user is created |
| `Accounts.AccountsManager.SetAll` | google_guest_agent/non_windows_accounts.go:113-186 | a history of Sets is, for every user, the fold of the per-user steps |
| `Accounts.UpdateExact` | google_guest_agent/non_windows_accounts.go:466-497 | a successful update writes the intended text if and only if no longer left-over temporary file is in the way |
| `Accounts.FileAfter` | google_guest_agent/non_windows_accounts.go:113-186 | the file of every user after one Set: rewritten with the rest of a left-over behind it, deleted with the account, or untouched |
| `Accounts.UserAfter` | google_guest_agent/non_windows_accounts.go:145-186 | the rest of every user after one Set: a failed update keeps the cache and the name in google_users, a dropped user leaves both, a deleted account is gone, and the temporary file stays exactly after a late failure |
| `Accounts.SetKeepsAgreement` | google_guest_agent/non_windows_accounts.go:145-180 | for every user and Set, with any mixture of failures, any left-over and any shell, the cache stays equal to the keys in the file if and only if an update that succeeds meets a left-over without keys, or, without login shell, a file that already holds them |
| `Accounts.AgreementIsExact` | google_guest_agent/non_windows_accounts.go:145-180 | over every history the cache is right all the time if and only if each Set meets that condition |
| `Accounts.CacheAlwaysAgrees` | google_guest_agent/non_windows_accounts.go:113-186 | in particular over every history without late failures and with login shells, so that skipping unchanged users is sound; and no user line is then ever changed unless accounts are deleted |
| `Accounts.LeftoverKeepsDroppedKeys` | google_guest_agent/non_windows_accounts.go:466-497 | after a late failure with more keys, a successful update leaves dropped keys in the file and the cache wrong |
| `Accounts.LeftoverAddsLine` | google_guest_agent/non_windows_accounts.go:466-497 | after a late failure with a longer key, a successful update turns the rest of that key into a line of the user's own |
| `Accounts.NologinIsNotWritten` | google_guest_agent/non_windows_accounts.go:427-429 | a user without login shell, cached or not, is not written; the cache is right if and only if the file already held the keys |
| `Accounts.NologinDisagrees` | google_guest_agent/non_windows_accounts.go:427-429 | with an empty file the cache is wrong about every key |
| `Accounts.SetKeepsUserLines` | google_guest_agent/non_windows_accounts.go:416-497 | one Set leaves the user's own lines as they were if and only if a left-over adds none and none goes with a deleted account |
| `Accounts.LinesOverHistory` | google_guest_agent/non_windows_accounts.go:113-186 | over a history that deletes no account the user's own lines only grow, and are the same in the end if and only if no Set met a left-over with lines |
| `Accounts.HistoryRecorded` | google_guest_agent/non_windows_accounts.go:113-186 | over a history with usable google_users every cached user is listed there |
| `Accounts.SuccessfulSetRepairs` | google_guest_agent/non_windows_accounts.go:113-186 | after any history that kept the cache right, a Set whose commands succeed leaves the user listed exactly when it has accepted keys, its file holding exactly those keys, a dropped listed user with none, and user lines unchanged, if and only if its update, when due, meets no left-over with keys or lines (or, without login shell, a file that holds the keys) |
| `Accounts.UnwantedKeysGone` | google_guest_agent/non_windows_accounts.go:170-184 | a user that a successful Set does not want has no key of the agent's if and only if its update was due and met no left-over with keys, or its file had none |
| `Accounts.FailedRemovalOrphans` | google_guest_agent/non_windows_accounts.go:170-184 | when the update of a dropped user fails, it leaves the cache and google_users with its keys still in the file |
| `Accounts.OrphanStays` | google_guest_agent/non_windows_accounts.go:113-186 | such a user stays as it is through every history that does not want it |
| `Accounts.RepairAll` | google_guest_agent/non_windows_accounts.go:113-186 | the same for the whole host at once: after any calls of Set and a successful one, the text of google_users names exactly the users with accepted keys, their files hold exactly these, and other users have none exactly when no earlier Set orphaned them |
| `Accounts.InstalledKeysMatchOnDemand` | google_authorized_keys/main.go:79-93 | the keys then in the file are those google_authorized_keys prints for the user, under the same condition |
| `Accounts.TurnsAreWritable` | google_guest_agent/non_windows_accounts.go:207-232 | metadata split at newlines only asks for keys that can be written as lines |
| `EventProtocol.FollowsKeepsInv` | google_guest_agent/events/events.go:326-479 | every step of every goroutine keeps the invariants on watchers, queue, completion handler and leaving flag |
| `EventProtocol.ReachableInv` | google_guest_agent/events/events.go:326-479 | so they hold in every reachable state, and so does why the context handler is where it is |
| `EventProtocol.ReceivedIsPrefix` | google_guest_agent/events/events.go:326-366 | events received of a type are an ordered prefix of those its watcher produced, at most one behind |
| `EventProtocol.StepReceived` | google_guest_agent/events/events.go:326-366 | only a delivery on the bus changes what is received, by one event of that watcher |
| `EventProtocol.QueueIsPending` | google_guest_agent/events/events.go:156-175 | the queue holds exactly the event types launched and not yet acknowledged |
| `EventProtocol.ReturnedMeansDone` | google_guest_agent/events/events.go:389-479 | Run returns only after every watcher registered at its start has sent watcherDone, and with leaving set |
| `EventProtocol.LeavesForAReason` | google_guest_agent/events/events.go:389-402 | leaving is set only when the context is done or every watcher registered at the start has ended |
| `EventProtocol.ContextOutlivedByNobody` | google_guest_agent/events/events.go:389-402 | the context handler is gone only when the callback handler is, or is about to be told to go |
| `EventProtocol.EndedMeansServed` | google_guest_agent/events/events.go:359-366 | a watcher has reported its end only after its abort goroutine was served |
| `EventProtocol.RunReturnsWhenDone` | google_guest_agent/events/events.go:372-479 | a whole run: the event of a watcher that does not renew reaches its subscriber, and Run returns |
| `EventProtocol.RunReturnsWhenCancelled` | google_guest_agent/events/events.go:372-479 | a whole run: an event produced after cancelling reaches nobody, and Run returns |
| `EventProtocol.RunWithoutWatchers` | google_guest_agent/events/events.go:372-479 | a whole run: without watchers Run returns when its context is done |
| `EventProtocol.RemovedWatcherEnds` | google_guest_agent/events/events.go:256-282 | a removed watcher ends, its next event reaches nobody, and nothing of the removal is left over |
| `EventProtocol.RemovedOnce` | google_guest_agent/events/events.go:256-282 | RemoveWatcher gets through once for a type until the completion handler has deleted a watcher |
| `EventProtocol.NoCallbackAfterFinish` | google_guest_agent/events/events.go:410-448 | once the callback handler takes its finish signal, from either sender, no callback starts and nothing is received, in every continuation |
| `EventProtocol.CallsAreReceived` | google_guest_agent/events/events.go:410-448 | the callbacks started for a type are its received events in order, each once for every subscriber it found, less those still to be started for the event under dispatch |
| `EventProtocol.AtMostOneMore` | google_guest_agent/events/events.go:331-358 | once a watcher's abort flag or leaving is set, at most one more of its events is ever received |
| `EventProtocol.UnstoppedDelivers` | google_guest_agent/events/events.go:331-358 | with neither flag set any number of further events can be received |
| `EventProtocol.LeavingBound` | google_guest_agent/events/events.go:331-366 | a watcher past its loop, or with an event it will not renew after, hands over at most the event in hand |
| `EventProtocol.Unbounded` | google_guest_agent/events/events.go:326-366 | from every other state, a dispatch under way included, any number of further events can be received |
| `EventProtocol.StoppingIsExact` | google_guest_agent/events/events.go:331-358 | in every state the bound of one more event holds if and only if a flag is set, the callback handler has left, or the watcher is leaving its loop of its own accord |
| `EventProtocol.SignalledButUnwritten` | google_guest_agent/events/events.go:256-282 | a reachable state in which RemoveWatcher has handed over its signal and still any number of events can arrive |
| `EventManager.Manager.Subscribe` | google_guest_agent/events/events.go:219-228 | the subscriber is appended to its own list only |
| `EventManager.Manager.Unsubscribe` | google_guest_agent/events/events.go:230-244 | exactly the subscriber stored under that address leaves; other lists are untouched |
| `EventManager.Manager.CallAll` | google_guest_agent/events/events.go:418-434 | those subscribed at the start are each called once, in order, and those that refused are remembered, while every list grows by what is subscribed meanwhile |
| `EventManager.Manager.UnsubscribeAll` | google_guest_agent/events/events.go:436-441 | all remembered subscribers leave, and nobody else |
| `EventManager.Manager.Dispatch` | google_guest_agent/events/events.go:410-448 | afterwards the list is those that asked to renew, in order, followed by those subscribed during the dispatch |
| `EventManager.RefusersLeave` | google_guest_agent/events/events.go:424-441 | deleting refusers by address, one after the other, removes them and nobody else |
| `CertRefresh.FindDomain` | gce_workload_cert_refresh/main.go:194-206 | it finds the only anchor or one named in the identity, and fails only if there is none |
| `CertRefresh.Secrets.WriteFile` | gce_workload_cert_refresh/main.go:210-245 | a failed write leaves the file created and empty, and no write touches the published link |
| `CertRefresh.Secrets.GatherContents` | gce_workload_cert_refresh/main.go:210-245 | credentials, key and anchor are written in this order, then the temporary link; an anchor is found exactly when the identity was written and there is one anchor or one named in it |
| `CertRefresh.Secrets.RefreshCreds` | gce_workload_cert_refresh/main.go:251-335 | the program performs exactly the planned operations, wherever it stops, reports success exactly as planned, and finds an anchor whenever there is one |
| `CertRefresh.RefreshServes` | gce_workload_cert_refresh/main.go:251-335 | when metadata is complete, there is an anchor and no step fails, the run succeeds and readers then find its complete bundle |
| `CertRefresh.PrepareEffect` | gce_workload_cert_refresh/main.go:251-309 | a finished preparation has written the complete bundle to the new directory, made the temporary link, and changed nothing else but a link that led nowhere |
| `CertRefresh.TempIsNoContent` | gce_workload_cert_refresh/main.go:251-254 | a temporary link is never in the place of a content directory |
| `CertRefresh.NeverIncomplete` | gce_workload_cert_refresh/main.go:251-335 | after every prefix of the operations the link leads to the old directory, unchanged, or to the complete new bundle |
| `CertRefresh.SuccessPublishes` | gce_workload_cert_refresh/main.go:251-335 | a run that succeeds publishes its complete bundle |
| `CertRefresh.StatusAlwaysSurfaced` | gce_workload_cert_refresh/main.go:251-290 | whenever the link exists, after every prefix, it leads to a directory with a status file |
| `CertRefresh.OneRefreshForever` | gce_workload_cert_refresh/main.go:251-335 | over every history, once readers find the complete files of one run of it, in its own directory, they always do |
| `CertRefresh.RotationDecides` | gce_workload_cert_refresh/main.go:251-335 | an attempt that gets to the rename serves its own complete bundle; any other leaves what readers find as it was |
| `CertRefresh.ServesLastRotated` | gce_workload_cert_refresh/main.go:251-335 | over every history readers find exactly the complete files of the last run that renamed its link, never those of two runs side by side |
| `CertRefresh.BoundedLeftovers` | gce_workload_cert_refresh/main.go:311-335 | over every history, cut short anywhere, directories number at most the runs that were not clean, and one |
| `CertRefresh.SuccessKeepsCount` | gce_workload_cert_refresh/main.go:311-335 | a successful run leaves as many directories as before if it could read the old link, and one more otherwise |
| `Addresses.CompareRoutes` | google_guest_agent/addresses.go:84-97 | both results are the differences of the two lists, in order |
| `Addresses.MissingMembers` | google_guest_agent/addresses.go:84-97 | they have exactly the members of one list that are not in the other, without new duplicates |
| `Addresses.TrimmedFull` | google_guest_agent/addresses.go:150-177 | trimming the argument of ip route gives the address back |
| `Addresses.FullNamesPrefix` | google_guest_agent/addresses.go:150-177 | the argument always has a prefix length, and differs from the address only by that of a single host |
| `Addresses.NetworkInterface.ReadState` | google_guest_agent/addresses.go:302-329 | what is taken as the agent's own: recorded and installed addresses on Windows, local routes elsewhere; and when the interface is skipped |
| `Addresses.NetworkInterface.AddMissing` | google_guest_agent/addresses.go:360-387 | only missing wanted addresses are added, and the entries to record are the wanted ones now installed |
| `Addresses.NetworkInterface.RemoveExtra` | google_guest_agent/addresses.go:389-411 | only addresses to be removed are removed, and those that stay because removal failed are recorded |
| `Addresses.NetworkInterface.Set` | google_guest_agent/addresses.go:292-417 | under arbitrary failures nothing unrecorded is removed and nothing unwanted added; on Windows the record is, as a set, the installed addresses that are wanted or were recorded, if and only if the interface could be read or there was nothing to forget; without failures exactly the difference is applied; the commands issued are exactly to add what is wanted and not seen and to remove what is the agent's own and not wanted |
| `Addresses.SetTwice` | google_guest_agent/addresses.go:292-417 | after a Set without failures the agent's addresses are the wanted ones and a second Set issues no command |
| `Addresses.UnreadIsForgotten` | google_guest_agent/addresses.go:302-329 | on Windows, a recorded address that is no longer wanted stays installed and leaves the record when the interface could not be read, and no number of later Sets that do not want it removes it |
| `Netplan.ItoaInjective` | google_guest_agent/network/manager/netplan_linux.go:472-474 | different VLAN ids print differently |
| `Netplan.ItoaValue` | google_guest_agent/network/manager/netplan_linux.go:472-474 | printed ids read back as themselves |
| `Netplan.NamesExample` | google_guest_agent/network/manager/netplan_linux.go:421-427 | what the names of a VLAN look like |
| `Netplan.KeyInjective` | google_guest_agent/network/manager/netplan_linux.go:421-427 | different VLANs have different drop-in keys and link names, for every prefix and whatever the parents are called |
| `Netplan.RemovalIdInjective` | google_guest_agent/network/manager/netplan_linux.go:553-565 | no two VLANs share a place in the list of those to remove |
| `Netplan.LinkRoundTrip` | google_guest_agent/network/manager/netplan_linux.go:515-521 | reading the interface from a link undoes writing it |
| `Netplan.DirsAgree` | google_guest_agent/network/manager/netplan_linux.go:307-316 | writer and removal name the same networkd directory |
| `Netplan.DirOfInjective` | google_guest_agent/network/manager/netplan_linux.go:307-316 | different VLANs have different networkd directories |
| `Netplan.NamesSound` | google_guest_agent/network/manager/netplan_linux.go:421-427 | all of this together, for every interface prefix |
| `Netplan.StaleIsDropped` | google_guest_agent/network/manager/netplan_linux.go:525-568 | over the agent's own drop-in, exactly the listed VLANs no longer wanted are found stale |
| `Netplan.RolledBackDropin` | google_guest_agent/network/manager/netplan_linux.go:571-636 | rolling back takes exactly those interfaces out of the drop-in, and the file away when none is left |
| `Netplan.DropinConverges` | google_guest_agent/network/manager/netplan_linux.go:638-680 | after a setup the drop-in lists exactly the wanted interfaces, whatever the directories were |
| `Netplan.DirectoriesConverge` | google_guest_agent/network/manager/netplan_linux.go:682-731 | the directories are then exactly the wanted ones if and only if every directory there was belongs to a wanted or a listed VLAN |
| `Netplan.HistoryKeepsDropin` | google_guest_agent/network/manager/netplan_linux.go:477-510 | over every history of setups, wherever they fail, the drop-in stays one of the agent's own |
| `Netplan.LeakStays` | google_guest_agent/network/manager/netplan_linux.go:571-636 | a directory that outlived its entry stays, unchanged, through every history that does not want its VLAN again |
| `Netplan.SetUpConverges` | google_guest_agent/network/manager/netplan_linux.go:477-510 | after any history of failing and succeeding setups, a setup leaves the drop-in equal to what is wanted, absent when that is empty, and is settled; it leaves exactly the wanted directories if and only if none had leaked |
| `Netplan.SetUpSettles` | google_guest_agent/network/manager/netplan_linux.go:477-510 | after a setup over the agent's own drop-in nothing is stale and nothing remains to be written |
| `Netplan.DropinTells` | google_guest_agent/network/manager/netplan_linux.go:638-680 | the agent's drop-in has, for each interface and no other, its id, link, MAC address and MTU, and DHCPv6 exactly when it has IPv6 addresses |
| `Netplan.OverrideHeld` | google_guest_agent/network/manager/netplan_linux.go:694-722 | an override names its own link, with DHCP for both families exactly when a refresh is asked for, and for IPv4 otherwise |
| `NetplanManager.Manager.FindVlanDiff` | google_guest_agent/network/manager/netplan_linux.go:525-568 | the VLANs to remove are those listed under a key that is not to be kept |
| `NetplanManager.Manager.RollbackVlanNics` | google_guest_agent/network/manager/netplan_linux.go:571-636 | exactly those links are deleted, their entries and directories go, and the file when it becomes empty; a failure changes nothing else and leaves every directory that could not be removed |
| `NetplanManager.Manager.WriteNetplanVlanDropin` | google_guest_agent/network/manager/netplan_linux.go:638-680 | the drop-in lists exactly the wanted interfaces, and is written only if it differs |
| `NetplanManager.Manager.WriteOverride` | google_guest_agent/network/manager/netplan_linux.go:332-352 | one override is written only if it differs; a failure may leave its directory without a usable override |
| `NetplanManager.Manager.WriteNetworkdVlanDropin` | google_guest_agent/network/manager/netplan_linux.go:682-731 | each wanted interface has its override; a reload is asked for only if one was written |
| `NetplanManager.Manager.SetupVlanInterface` | google_guest_agent/network/manager/netplan_linux.go:477-510 | on success the files are those of SetUp, exactly the stale links were deleted, and one reload happened unless everything was settled; if it was, nothing is touched; a failure leaves the drop-in as it was, rolled back or written, and changes only directories of VLANs that go or come; a success means the configuration in force is that of the files if and only if something was to be done or it was so before |
| `NetplanManager.SetupEach` | google_guest_agent/network/manager/netplan_linux.go:477-510 | calls of the program, whatever fails, form a history in the sense of the theorems |
| `NetplanManager.SetupAll` | google_guest_agent/network/manager/netplan_linux.go:477-510 | so they keep the drop-in one of the agent's own |
| `NetplanManager.SetupOverOwn` | google_guest_agent/network/manager/netplan_linux.go:477-510 | a success deletes exactly the links of listed VLANs that are gone, besides what SetupTwice says of the files |
| `NetplanManager.SetupTwice` | google_guest_agent/network/manager/netplan_linux.go:477-510 | from the agent's own drop-in, a success leaves the drop-in as wanted, and the directories if and only if none had leaked; repeating it deletes, writes and reloads nothing |
| `NetplanManager.DirectoryLeaks` | google_guest_agent/network/manager/netplan_linux.go:603-633 | the leak is real: a directory whose removal fails after the drop-in was removed is still there after a later setup in which nothing fails, and which finds nothing to do |
| `NetplanManager.ReloadIsLost` | google_guest_agent/network/manager/netplan_linux.go:502-507 | when only the reload fails, every later setup for the same interfaces finds everything settled, and the configuration in force stays what it was |
| `VlanMetadata.MapIdInjective` | google_guest_agent/network/manager/manager.go:165-168 | no two records share a place in the descriptor map |
| `VlanMetadata.ReformatVlanNics` | google_guest_agent/network/manager/manager.go:159-171 | it fails exactly when a parent index is out of range, and otherwise holds every record and nothing else |
| `VlanMetadata.ReformattedDistinct` | google_guest_agent/network/manager/manager.go:159-171 | with distinct interfaces, no two resulting descriptors claim the same parent and id, as setting up requires |
| `VlanMetadata.SetupFromMetadata` | google_guest_agent/network/manager/netplan_linux.go:477-510 | from metadata to the files: after a success every record is configured under its parent's name with its own MAC address, MTU and DHCP settings, and nothing else is; an unknown parent fails without touching a file |
| `RequestFraming.ReadRequest` | google_guest_agent/command/command_monitor.go:144-191 | over any bytes, the loop stops at the shortest non-empty prefix of runes with equal numbers of opening and closing braces, hands over their low bytes, and fails only if there is none |
| `RequestFraming.StopsAtUnique` | google_guest_agent/command/command_monitor.go:144-191 | there is one such place at most |
| `RequestFraming.TextNeutral` | google_guest_agent/command/command_monitor.go:144-191 | the text of a JSON value without braces in strings is balanced and never closes more than it opened |
| `RequestFraming.TextExample` | google_guest_agent/command/command_monitor.go:144-191 | the texts are those of JSON, at an object with an array in it |
| `RequestFraming.TextCounts` | google_guest_agent/command/command_monitor.go:144-191 | the count over the text of a JSON value is decided by its strings alone |
| `RequestFraming.FramingIsExact` | google_guest_agent/command/command_monitor.go:144-191 | for every JSON object, followed by anything, the loop stops exactly at its end if and only if the braces in its strings cancel out and never take the count to zero on the way |
| `RequestFraming.SentObjectIsFramed` | google_guest_agent/command/command_monitor.go:144-191 | the same for the object sent in UTF-8 with any bytes after it |
| `RequestFraming.ObjectIsFramed` | google_guest_agent/command/command_monitor.go:144-191 | for every JSON object without braces in strings, followed by anything, the loop stops exactly at its end |
| `RequestFraming.BraceInStringCuts` | google_guest_agent/command/command_monitor.go:144-191 | a closing brace in a string does cut the request short |
| `Runes.DecodeEncode` | google_guest_agent/command/command_monitor.go:162-180 | reading runes undoes UTF-8, whatever bytes follow |
| `Runes.BytesAreExact` | google_guest_agent/command/command_monitor.go:162-180 | the handler is given the bytes that were sent if and only if each is ASCII or 0xFD, for every sequence of bytes |
| `Runes.AccentIsCut` | google_guest_agent/command/command_monitor.go:162-180 | the two bytes of an accented letter arrive as one byte that is not UTF-8 |
| `Runes.TextIsExact` | google_guest_agent/command/command_monitor.go:162-180 | so of well-formed UTF-8 exactly ASCII text arrives as it was sent |

## Left out

- The metadata HTTP client, GCS downloads, the gRPC snapshot listener, the serial port and logging: plumbing around calls that are not visible here.
- Windows system calls, TPM, UEFI, X.509 and certificate stores: foreign calls whose behaviour is not part of the repository.
- YAML and INI serialisation and the regular expression engine: read and write are taken as inverse on the values.
- Liveness and freedom from deadlock of the event manager: a sender on the bus can be stranded once the callback loop has left.
- The public Unsubscribe of the event manager, and RemoveWatcher for a watcher that has already finished: the code guarantees nothing useful for them.
- `EventProtocol.AtMostOneMore`: counted from the moment a flag is set and not from the receipt of the removal signal, because for the latter it is false (`SignalledButUnwritten`).
- `EventManager.Manager.Dispatch`: callbacks may subscribe during a dispatch but do not start or stop watchers, which the step system covers.
- `Accounts.CacheAlwaysAgrees`: without edits of the files by others, and without late failures; the latter are covered by `AgreementIsExact` and `LeftoverKeepsDroppedKeys`.
- `Accounts.AccountsManager.Set`: membership of the google-sudoers group, and the log of bad keys, are not part of the user's state.
- `Netplan.SetUpConverges`: over a drop-in that only the agent writes; foreign entries in it are not considered.
- `NetplanManager.Manager.WriteNetplanVlanDropin`: a failed write is taken to leave the drop-in as it was; a half-written YAML file is not modelled.
- `NetplanManager.Manager.SetupVlanInterface`: for descriptors with distinct parents and ids (`VlanMetadata.ReformattedDistinct`); with a clash the result depends on the order in which a Go map is walked.
- `NSSwitch.DisableUndoesEnable`: not for FreeBSD, where the compat rewrite loses what it replaced.
- `RequestFraming.FramingIsExact`: the grammar accepts a superset of the texts of section 4 of RFC 8259, since literal names, numbers and escapes are not checked further.
- The Ethernet side of netplan, and the wicked, systemd-networkd, NetworkManager and dhclient back ends: the same kind of reconciliation, mostly as command invocations.
- The removal of deprecated directives, the WSFC address filter, the clean-up of the old registry name, precedence of configuration settings, password generation, retry and version parsing: these would only add easy members.
- Deduplication of snapshot requests and the cron scheduler: they rest on libraries that are not part of the repository.
