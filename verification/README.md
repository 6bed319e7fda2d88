# A verified model of the sk_lookup loader

The loader attaches an `sk_lookup` program to a network namespace and steers chosen TCP
ports to one of two listening sockets. This project models the parts of it that keep state,
and proves what every run of them keeps. A file system rename, a pin in bpffs, a kernel map
update and a journal write are steps that may fail; a crash may follow any step.

Five parts:

* **Upgrade and rollback** (`Pins`, `Transaction`, `ActivateRuns`, `RollbackRuns`, `Histories`,
  `PinDirectory`). `activate`, `rollback` and the loader's attach sequence are step machines,
  one site per call of the source, with a set of failing sites and a cut after any number of
  steps. The class `PinDir` has the three operations in the form of the source; each is proved
  to finish where the step machine finishes. The theorems are about every crash point of every
  run, and about histories of runs.
* **Ports, policy, `ports.conf`, `open_ports`** (`Text`, `TextForms`, `Ports`, `PortForms`,
  `PortPolicy`, `PolicyForms`, `DesiredFile`, `FileForms`, `FileMeaning`, `FileRoundTrip`,
  `OpenPorts`, `DeleteCounts`, `Reconcile`, `Central`, `NginxImport`, `Control`, `ControlRuns`,
  `Recovery`, `Steering`). The readers work on text and the writer produces text. The modules named
  `Forms` say what a text written by hand means, from its letters on: port lists, `ports.conf`
  rows, policy settings, with blanks, remarks and line ends anywhere. The class `PortTable` is the
  pinned map with its batch calls, the class `ControlPlane` is one machine's file and map. The run
  theorems range over every sequence of add, remove, reconcile, SIGHUP reload, apply-central,
  import, close-all, freeze and unfreeze, with any call failing.
* **nginx configuration** (`Globs`, `GlobPlaces`, `NginxIncludes`, `NginxListens`, `NginxForms`,
  `NginxGlobs`). The include walk over a possibly cyclic graph of files, the glob matcher, the
  expansion of globs over directory listings, the listens found, and what a written `listen` or
  `include` line means.
* **Object patcher** (`BtfStrings`, `MapsSections`). The in-place string rewrite and the merge
  of duplicate `.maps` sections.
* **Listen descriptors** (`Rescan`). The loader's held descriptors against the SOCKMAP: in step
  after any rounds, and live again after a round that can find the listeners.

Where the code and its documentation differ, the model follows the code:

* `docs/specs/SDD-003-atomic-upgrade-and-rollback.md` reads `rolled_back` as the previous
  generation being in place. The code writes it after a failed pin rename whatever the undo calls
  did, and after a failed health check if the link update worked, whatever the renames did
  (`ActivateRuns.RolledBackIsWritten`). The old program is back on link and `prog` only if those
  calls went well (`ActivateRuns.RolledBackRestoresIff`, for every set of failing calls). After a
  failed first rename an older `prog_previous` is renamed over `prog`
  (`ActivateRuns.FailedSwapExample`); after a failed second one a failed link update leaves the
  candidate on the link (`ActivateRuns.FailedUndoExample`); after a failed health check a failed
  rename leaves no `prog` (`ActivateRuns.FailedRevertExample`).
* The same document says a rollback without `prog_previous` only clears a transaction that
  never reached activate. After a crash between the link update and the first rename it clears
  one that did, and leaves the candidate on the link (`RollbackRuns.CrashThenRollback`; every
  undisturbed first upgrade passes through that point, `RollbackRuns.WindowIsReached`; all such
  points, for every set of failing calls, are those of `ActivateRuns.CrashPointIsRecoverableIff`).
* `docs/binding.md` asks identities only to be non-empty and without white space. One with `#`
  in it is accepted and written, and then read as a comment. `FileRoundTrip.PrintedReadsAs` says
  what every written file reads as: nothing, or the same ports with cut bindings. Hence a file that
  no longer reads (`ControlRuns.MarkedTenantExample`), and a TLS port that the next reconcile
  moves to the plain listener (`Recovery.ReconcileMovesTlsPort`).
* `docs/control-plane.md` says opening mutations are rejected while the machine is frozen. Two
  paths have no gate. The loader's `open-port` mode opens what the gated add refuses
  (`Recovery.OpenPortOnFrozen`, `Recovery.UngatedAddOpensFrozen`; `Recovery.FrozenOpenExample`
  is such a machine). And a SIGHUP to the loader carries the whole file into the map
  (`Recovery.ReloadOpensFrozenIff`): after `freeze --close-all` it steers every port of the file
  again (`Recovery.ReloadUndoesCloseAll`). `Recovery.FrozenRunOnlyShrinks` is about all the
  other operations.
* Nor does a SIGHUP look at the ports nginx listens on, as every other operation that opens ports
  does. `ControlRuns.MapStaysClear` holds exactly up to the reloads whose file names such a port
  (`ControlRuns.ReloadClearIff`), and an import can put one there
  (`Recovery.ReloadSteersRealListen`).
* `docs/control-plane.md` calls a refused apply-central fail-closed: nothing changes. The code
  replaces the file once its first checks pass, and reconciles after that. With working calls from
  then on it still refuses, the file replaced, exactly when the new file does not read, or the map
  meets a real listen and could not be read at the first look (`ControlRuns.CentralReplacesIff`;
  `Recovery.MarkedCentralExample` and `Recovery.BlindCentralExample` are such cases).
* The note of a removal, "N port(s) were already absent from the map"
  (`rust/loader/src/ctl.rs:765-770`), counts too many when a refused batch delete has removed some
  of its ports before it stopped, and when a port is listed twice, as the `close-port` mode lets it
  be (`DeleteCounts.MissingIsAbsentIff`, `DeleteCounts.OvercountExample`,
  `DeleteCounts.RepeatExample`).

## Model

| member | source | states |
|---|---|---|
| `PinDirectory.PinDir.Activate` | rust/loader/src/upgrade.rs:296-431 | the method as written ends in the state and with the result of the `activate` step machine, for every set of failing calls; in its body every call is matched with one step that leaves the same pins |
| `PinDirectory.PinDir.Rollback` | rust/loader/src/upgrade.rs:434-492 | the same for `rollback` |
| `PinDirectory.PinDir.LoadAndAttach` | rust/loader/src/load.rs:187-266 | the same for the loader's start: backup link, primary link, `prog`, maps |
| `ActivateRuns.GateHolds` | rust/loader/src/upgrade.rs:297-304 | from a non-terminal journal no crash point of any run differs from the start |
| `ActivateRuns.PhasesAdvance` | rust/loader/src/upgrade.rs:328-431 | between two successive states the journal is unchanged or moves along one edge of a fixed relation, and always forward |
| `ActivateRuns.OkIff` | rust/loader/src/upgrade.rs:296-431 | success exactly when the gate is open, the pins are there, the link is attached and the mandatory calls work; then link and `prog` are the candidate, `prog_previous` the old program, journal committed, nothing else changed |
| `ActivateRuns.HealthFailureRestores` | rust/loader/src/upgrade.rs:396-422 | after a failed health check whose link update and pin restore work, link and `prog` are the old program again, whatever else fails |
| `ActivateRuns.RolledBackIsWritten` | rust/loader/src/upgrade.rs:375-422 | a run ends with a `rolled_back` it wrote exactly when the pin swap failed, or the health check did and the link went back; for every set of failing calls |
| `ActivateRuns.FailedIsWritten` | rust/loader/src/upgrade.rs:307-422 | the runs that write `failed`, named by their failing calls, end at exactly `failed`, and no other run that did not start there does; for every set of failing calls |
| `ActivateRuns.GateReopensIff` | rust/loader/src/upgrade.rs:297-431 | a run that got in lets the next one in unless, with `prepared` written, the link could not be opened or a later journal write failed; both directions, for every set of failing calls |
| `ActivateRuns.RefusedUpdateEnds` | rust/loader/src/upgrade.rs:364-373 | after a refused link update everything is as before but the journal, which says `failed` unless that write fails too, and the candidate pin, which is gone unless its removal fails |
| `ActivateRuns.UnswappedKeepsPins` | rust/loader/src/upgrade.rs:296-373 | an upgrade that never moved the link fails and leaves links, `prog`, `prog_previous` and maps as they were |
| `ActivateRuns.RolledBackRestoresIff` | rust/loader/src/upgrade.rs:375-422 | after such a run the old program is on the link and in `prog` if and only if the calls of the failing path named in `PutsBack` worked, and after a failed first rename there was no other `prog_previous`; for every set of failing calls |
| `ActivateRuns.FailedSwapMovesOlderPin` | rust/loader/src/upgrade.rs:375-388 | after a failed first rename whose undo rename works, `prog` is the older `prog_previous` if there was one; if the link went back too, link and `prog` agree if and only if there was none or it was the same program |
| `ActivateRuns.FailedSwapExample` | rust/loader/src/upgrade.rs:375-388 | a concrete upgrade that ends rolled back with the link on one program and `prog` on an older one |
| `ActivateRuns.FailedUndoExample` | rust/loader/src/upgrade.rs:375-388 | a concrete upgrade that ends rolled back with the candidate still on the link |
| `ActivateRuns.FailedRevertExample` | rust/loader/src/upgrade.rs:396-422 | a concrete upgrade that ends rolled back with no `prog` |
| `ActivateRuns.ActivateLeavesNoGap` | rust/loader/src/upgrade.rs:296-431 | at every crash point the backup link and both maps are untouched and the primary link carries the program it had, the candidate, or the one `prog` held |
| `ActivateRuns.CrashPointIsRecoverableIff` | rust/loader/src/upgrade.rs:364-422 | from a recoverable state, for every set of failing calls: a crash point or end of an upgrade is recoverable if and only if it is not one of the lost points, which are named by the site the run was at and the calls that fail |
| `ActivateRuns.OnlyTheWindowIsLost` | rust/loader/src/upgrade.rs:364-388 | if the first rename and the link updates of undo and revert work, the only crash points lost are those between the link update and the first rename without `prog_previous`; both directions |
| `RollbackRuns.RollbackOkIff` | rust/loader/src/upgrade.rs:434-492 | when a rollback succeeds, for every state and every set of failing calls |
| `RollbackRuns.RollbackJournal` | rust/loader/src/upgrade.rs:434-492 | where the journal ends after a rollback, for every state and every set of failing calls; one whose link update is refused leaves every pin as it was and writes `failed` |
| `RollbackRuns.RollbackClears` | rust/loader/src/upgrade.rs:446-455 | a completed rollback without `prog_previous` leaves the link alone and drops the candidate pin |
| `RollbackRuns.RollbackRestores` | rust/loader/src/upgrade.rs:456-492 | a completed rollback with `prog_previous` puts it on the link and in `prog` |
| `RollbackRuns.RollbackLeavesNoGap` | rust/loader/src/upgrade.rs:434-492 | at every crash point the backup link and both maps are untouched and the primary link carries what it had or `prog_previous` |
| `RollbackRuns.CutKeepsConverging` | rust/loader/src/upgrade.rs:434-492 | a rollback cut anywhere leaves either `prog_previous` still there or link and `prog` both on it |
| `RollbackRuns.RollbackConverges` | rust/loader/src/upgrade.rs:434-492 | after any number of rollbacks, each with any failures and cut anywhere, one undisturbed rollback ends with link and `prog` on the target, no other pins, journal rolled back |
| `RollbackRuns.RollbackAgreesIff` | rust/loader/src/upgrade.rs:434-492 | a successful rollback makes link and `prog` agree if and only if it saw a `prog_previous` or they agreed already; for every state and every set of failing calls |
| `RollbackRuns.CrashThenRollback` | rust/loader/src/upgrade.rs:364-492 | any upgrade from a recoverable state, cut anywhere with any calls failing, followed by a completed rollback that sees `prog_previous` where it exists: link and `prog` agree if and only if the crash point is not lost; from the window the candidate stays on the link |
| `RollbackRuns.WindowIsReached` | rust/loader/src/upgrade.rs:364-388 | every undisturbed first upgrade is in the window after eleven steps |
| `RollbackRuns.RollbackKeepsRecoverable` | rust/loader/src/upgrade.rs:434-492 | no rollback, however it fails or is cut, leaves the recoverable states |
| `Histories.RestartOkIff` | rust/loader/src/load.rs:187-266 | when a restart succeeds, for every state and every set of failing calls; then both links are attached, the backup link to the loaded program if it was unpinned and as before if not, and `prog` and both maps are pinned |
| `Histories.BackupComesFirst` | rust/loader/src/load.rs:187-208 | at every crash point: a restart that has moved the primary link, or succeeded, has the backup link pinned, and an existing one is kept |
| `Histories.RestartAgreesIff` | rust/loader/src/load.rs:209-266 | a completed restart moves the link but keeps an existing `prog`; they agree exactly when there was none or it held the loaded program |
| `Histories.RestartIsRecoverableIff` | rust/loader/src/load.rs:209-266 | a restart cut anywhere, or carried to its end, keeps a recoverable state recoverable if and only if there is a `prog_previous`, `prog` holds the loaded program, or the link has not moved, which is told from the site it was at and the calls that fail |
| `Histories.CompletedRestartIsRecoverableIff` | rust/loader/src/load.rs:209-266 | a completed restart does if and only if there is a `prog_previous` or `prog` holds the loaded program |
| `Histories.EventLeavesNoGap` | rust/loader/src/upgrade.rs:296-492 | one upgrade, rollback or restart, cut anywhere, removes no link and no map pin, and names which programs the link can carry |
| `Histories.HistoryLeavesNoGap` | rust/loader/src/load.rs:187-266 | over any history of such events the primary link stays attached, the backup link stays as it is, and no map is unpinned |
| `Histories.HistoryBringsOnly` | rust/loader/src/upgrade.rs:296-492 | over any history, teardowns too, every program on a link or in a pin was there at the start, was loaded by an event, or was left by a teardown |
| `Histories.EventIsRecoverableIff` | rust/loader/src/upgrade.rs:296-492 | the events that keep a recoverable state recoverable are exactly: upgrades not cut at or ending in a lost point, all rollbacks, restarts under the condition above, teardowns that leave a recoverable state |
| `Histories.HistoryIsRecoverable` | rust/loader/src/upgrade.rs:296-492 | after any history of exactly those events, restarts among them, one undisturbed rollback makes link and `prog` agree and opens the gate |
| `Ports.PortSetFits` | rust/loader/src/policy.rs:128-134 | a set of ports has at most 65536 members, half the capacity of the map |
| `Ports.ExpandRange` | rust/loader/src/ports.rs:51-75 | the range loop gives every port of the interval, in order, without stepping past the last |
| `Ports.PortListOfDecimal` | rust/loader/src/ports.rs:77-95 | a printed port reads back as itself, port 0 is refused |
| `Ports.RangeOfDecimals` | rust/loader/src/ports.rs:51-75 | a printed range reads back as exactly its ports; an empty one or one from 0 is refused |
| `Ports.ListInParts` | rust/loader/src/ports.rs:89-95 | a comma-separated list is its first token followed by the rest, and fails if either fails |
| `PortForms.ListReads` | rust/loader/src/ports.rs:51-95 | a written list of ports, ranges and empty places, with blanks around commas and dashes, is accepted exactly when every item is usable, and then names exactly the ports of its items |
| `PortForms.NumberIs` | rust/loader/src/ports.rs:11-21 | a written number is a port exactly from 1 to 65535 |
| `TextForms.NumbersAreDecimal` | rust/loader/src/ports.rs:11-21 | digits count ten each, a plus sign in front is allowed, no digits is no number |
| `TextForms.NotANumber` | rust/loader/src/ports.rs:11-21 | any other character makes it no number |
| `Ports.UniquePorts` | rust/loader/src/ports.rs:121-130 | first occurrences, in order |
| `Ports.FirstsPrefix` | rust/loader/src/ports.rs:121-130 | each is kept where it was first seen: more ports add only at the end |
| `Ports.PortSetOverlap` | rust/loader/src/ports.rs:174-187 | exactly the common ports, each once, in the order of the second list |
| `Ports.SharedInOrder` | rust/loader/src/ports.rs:174-187 | the overlap follows the second list piece by piece |
| `Ports.GenerateFillPorts` | rust/loader/src/ports.rs:143-172 | exactly the smallest available ports, increasing; fails if and only if an argument is out of range or too few are available |
| `PortPolicy.ParsePolicy` | rust/loader/src/policy.rs:54-85 | the reader is the fold over the lines; no policy from text allows port 0 or drops a default denial |
| `PolicyForms.LaidSetting` | rust/loader/src/policy.rs:57-66 | a key and a value with any blanks around them and a remark behind read as that setting |
| `PolicyForms.ListSettings` | rust/loader/src/policy.rs:67-78 | each list setting is refused if an item is not usable, and else adds exactly the named ports to its own set and changes nothing else; the first `allow_privileged` starts from nothing |
| `PolicyForms.QuotaSettings` | rust/loader/src/policy.rs:79-80 | each quota key sets its own quota to the number written |
| `PolicyForms.OtherSettings` | rust/loader/src/policy.rs:81 | any other key is refused |
| `PolicyForms.PolicyTextIs` | rust/loader/src/policy.rs:54-85 | what a whole text decides: a port is denied exactly if it is by default or some line says so, reserved or allowed exactly if some line says so, and the last line on a quota holds |
| `PolicyForms.AllowedByText` | rust/loader/src/policy.rs:87-112 | which bindings a text allows: every name a word, the port not denied by default and on no deny or reserve line, and up to 1023 on some `allow_privileged` line; both directions |
| `PortPolicy.NamedPortIsRefused` | rust/loader/src/policy.rs:63-68 | a port on any deny or reserve line is refused to every binding, whatever the other lines say |
| `PortPolicy.PrivilegedNeedsNaming` | rust/loader/src/policy.rs:69-74 | a privileged port that no line allows by name is refused to every binding |
| `PortPolicy.Validate` | rust/loader/src/policy.rs:128-148 | the running counters accept exactly the states whose bindings are allowed and whose machine and tenant port sets are within quota |
| `PortPolicy.QuotaIff` | rust/loader/src/policy.rs:135-146 | allowed bindings of one tenant are admissible exactly up to the smaller of the two quotas, itself included |
| `PortPolicy.RemovalStaysAdmissible` | rust/loader/src/ctl.rs:748-754 | removing ports from an admissible state leaves an admissible one |
| `PortPolicy.PortZeroIsNotAdmissible` | rust/loader/src/policy.rs:94-112 | port 0 is in no admissible state under a policy read from text |
| `DesiredFile.ReadDesired` | rust/loader/src/desired.rs:44-81 | the reader, line by line and port by port, is the fold that the theorems are about; `FileForms.WrittenFileLoads` and `FileMeaning.LoadIff` say what it returns |
| `FileForms.WrittenFileLoads` | rust/loader/src/desired.rs:44-81 | a file written row by row, with lists and ranges of ports, extra fields, blanks, remarks and either line end, loads as a state exactly when its rows bind exactly that state and the policy admits it |
| `FileForms.RowLoads` | rust/loader/src/desired.rs:52-76 | one row with any list of ports binds exactly the ports of the list, each with the slot, tenant, site, cert and policy written, or is refused if the policy does not admit that |
| `FileForms.RangeRow` | rust/loader/src/desired.rs:71-76 | a row for a range binds every port of the range |
| `TextForms.LinesEitherEnd` | rust/loader/src/desired.rs:46 | a line ends at a newline, with or without a carriage return before it |
| `TextForms.LastLine` | rust/loader/src/desired.rs:46 | the last line needs no newline |
| `TextForms.WordsLaid` | rust/loader/src/desired.rs:52 | words laid out with any white space between them are read back |
| `TextForms.SpacesNamed` | rust/loader/src/policy.rs:87-92 | which characters are white space: the ASCII blanks, no visible ASCII character, and the blanks of Unicode |
| `DesiredFile.WriteDesired` | rust/loader/src/desired.rs:83-113 | the writer produces the header and one line per binding, in port order |
| `FileForms.PrintedIs` | rust/loader/src/desired.rs:98-106 | what is written, letter by letter: the two comment lines, then for each port in order its number, tenant, site, `tls` for slot 1, `cert=` and `policy=` where there is one |
| `TextForms.NoLeadingZero` | rust/loader/src/desired.rs:101 | numbers are printed as digits without zeros in front |
| `FileMeaning.LoadIff` | rust/loader/src/desired.rs:44-81 | the reader returns a state exactly when every line reads, the state has the bindings the lines give and no others, and the policy admits it; a port bound in two ways is refused |
| `FileMeaning.ExtrasIff` | rust/loader/src/desired.rs:58-69 | the extra fields of a line are accepted exactly when each is known and none repeats, and the result records what they say |
| `FileMeaning.PutAllIff` | rust/loader/src/desired.rs:71-76 | the ports of one line go in together or not at all |
| `FileRoundTrip.ReloadsIff` | rust/loader/src/desired.rs:44-113 | an admissible state reads back as itself if and only if every port is usable, every slot is 0 or 1 and no identity holds `#` |
| `FileRoundTrip.PrintedReadsAs` | rust/loader/src/desired.rs:44-113 | what any admissible state reads as once written: an error if and only if some tenant holds `#`, or in some line the first field with `#` starts with it, or port 0 is used; else the same ports, each with its binding cut at the first `#` |
| `FileRoundTrip.LineReadsAs` | rust/loader/src/desired.rs:48-70 | the same for one printed line, for every binding with valid names |
| `FileRoundTrip.LineWithoutMark` | rust/loader/src/desired.rs:100-106 | a line printed without a comment mark reads back as its own port and binding |
| `FileRoundTrip.LineDiffers` | rust/loader/src/desired.rs:48-60 | a line printed for any other binding reads back as an error or as something else |
| `FileRoundTrip.LoadedIsPrintable` | rust/loader/src/desired.rs:44-81 | whatever a file reads as can be written and read again |
| `OpenPorts.PortTable.Update` | rust/loader/src/desired.rs:147-155 | a put fails only when the kernel call does: the table never fills up |
| `OpenPorts.BulkPut` | rust/loader/src/bulk.rs:73-142 | Ok writes exactly the listed ports and says which method did it; Err changes only listed ports, has written every one before the offset it names, and names the offset of a call that failed; terminates for every batch size |
| `OpenPorts.BulkDelete` | rust/loader/src/bulk.rs:144-197 | Ok removes exactly the listed ports and its counters are the totals defined chunk by chunk from the kernel's replies; Err removes only listed ports and every one before the offset of the failing call |
| `DeleteCounts.MissingIsAbsentIff` | rust/loader/src/bulk.rs:144-197 | for every list of ports and every behaviour of the kernel: at least the ports not in the map are reported absent, and exactly those if and only if no refused batch had removed a port and no port is listed twice |
| `DeleteCounts.OvercountExample` | rust/loader/src/bulk.rs:144-197 | one port there and one absent, with calls that work: two reported absent |
| `DeleteCounts.RepeatExample` | rust/loader/src/main.rs:96-104 | one port listed twice and there, the batch refused without touching it: one reported absent |
| `Reconcile.MakePlan` | rust/loader/src/desired.rs:126-135 | the plan lists exactly the wrong ports, each in its place, in increasing order |
| `Reconcile.PlanFixes` | rust/loader/src/desired.rs:126-135 | a port that is already right is in no operation, every wrong port is in exactly one, and that one gives its desired value |
| `Reconcile.InterruptedIsBetween` | rust/loader/src/desired.rs:147-158 | after any prefix of the operations each port has its old or its desired value; after all of them the map is the desired one |
| `Reconcile.ReplanIsContained` | rust/loader/src/ctl.rs:872-901 | planning again from any map in between asks only for operations of the first plan and reaches the same map |
| `Reconcile.ReplanIsTheRest` | rust/loader/src/desired.rs:126-158 | planning again after n key operations gives exactly the operations that were left, in order |
| `Reconcile.ReconcileMap` | rust/loader/src/desired.rs:147-158 | the key-by-key executor stops at the first failing call with exactly the operations before it carried out |
| `Reconcile.CarryOut` | rust/loader/src/ctl.rs:872-901 | the batched executor reaches the map the key-by-key one reaches, and failing half way leaves every port old or desired |
| `Central.LoadCentral` | rust/loader/src/central.rs:33-54 | accepts exactly the version-1 lists that describe some state, and returns that state |
| `Central.SaysIsUnique` | rust/loader/src/central.rs:33-54 | a list describes at most one state |
| `Central.SaysFields` | rust/loader/src/central.rs:33-54 | the binding of an entry has its tenant, site, cert and policy, and slot 1 exactly for TLS |
| `Central.WriteCentral` | rust/loader/src/central.rs:69-76 | what is written describes the state exactly when its ports are usable and its slots are 0 or 1 |
| `NginxImport.ImportablePorts` | rust/loader/src/nginx_listen.rs:237-257 | every listen is kept or skipped with its reason, both lists in discovery order |
| `NginxImport.ReasonsAre` | rust/loader/src/nginx_listen.rs:237-257 | the reason given is the first that applies |
| `NginxImport.ImportableInOrder` | rust/loader/src/nginx_listen.rs:237-257 | the kept ports follow the listens piece by piece |
| `NginxImport.SkippedInOrder` | rust/loader/src/nginx_listen.rs:237-257 | so do the skipped ones |
| `NginxImport.ImportedPortIsPermitted` | rust/loader/src/nginx_listen.rs:237-244 | a kept port can be refused by the policy only for its names |
| `NginxImport.KeptIff` | rust/loader/src/nginx_listen.rs:237-257 | a listen is kept exactly when it is none of 80, 443 and the ports to skip, and the policy allows a binding with valid names on it |
| `Control.ReadsBack` | rust/loader/src/ctl.rs:716-718 | a file holding an admissible state reads as that state exactly when the format can hold it |
| `Control.ControlPlane.Add` | rust/loader/src/ctl.rs:437-476 | refused with nothing changed, or in order and the file and map follow; success leaves every port in slot 1 for TLS and in slot 0 otherwise, and neither the ports nor the old map meet a real listen; in order with working calls it succeeds |
| `Control.ControlPlane.ApplyAdd` | rust/loader/src/ctl.rs:691-735 | the same without the gate, which is up to the caller: checks, then file, then map |
| `Control.ControlPlane.OpenPinned` | rust/loader/src/ctl.rs:812-853 | refuses overlapping lists with nothing changed; else the two adds one after the other, the second only if the first succeeded, neither behind the freeze gate; on success the first list is in slot 0 and the second in slot 1; each succeeds when in order with working calls |
| `Control.ControlPlane.Remove` | rust/loader/src/ctl.rs:737-772 | the file loses exactly the ports and is not validated again; the map loses only listed ports, and on success all of them; more than 10000 at once need the long ladder |
| `Control.ControlPlane.ReconcileNow` | rust/loader/src/ctl.rs:859-910 | refused, or the map goes from old towards what the file reads as, and is that on success; success means the gate was open and neither file nor map met a real listen |
| `Control.ControlPlane.Reload` | rust/loader/src/main.rs:294-309 | refused with nothing changed, or the map goes from old towards what the file reads as, and is that on success; no gate, no look at real listens; with working calls and a file that reads it succeeds |
| `Control.ControlPlane.ImportListens` | rust/loader/src/ctl.rs:216-245 | writes only the file and the central file asked for beside it; success means the gate was open and, unless it is a dry run, the file read, the policy admitted the result and the file holds it; the central file describes it; a dry run changes nothing; in order with working calls it succeeds |
| `Control.ControlPlane.ApplyCentral` | rust/loader/src/ctl.rs:912-931 | nothing changes unless the central state is admissible and clear of real listens; once the first checks pass and the file can be written it is replaced, then reconciled by what it reads as: with working calls and a clear map that succeeds if it reads, and fails with the map unchanged if it does not; with a map that meets a real listen it fails, and replaces the file if and only if the first look failed |
| `Control.ControlPlane.CloseAll` | rust/loader/src/ctl.rs:933-944 | empties the map, leaves the file alone |
| `Control.ControlPlane.SetFrozen` | rust/loader/src/freeze.rs:12-26 | sets or clears the gate and nothing else |
| `ControlRuns.MapStaysClear` | rust/loader/src/ctl.rs:405-414 | over every run in which no reload meets a file that names a real listen, the map and the real listens are disjoint and the map holds only slots 0 and 1, even with batches failing half way |
| `ControlRuns.ReloadClearIff` | rust/loader/src/main.rs:294-309 | a reload that gets through leaves the map clear of real listens if and only if the file is |
| `ControlRuns.SlotsStayInRange` | rust/loader/src/ctl.rs:859-910 | over every run, reloads included, the map holds only slots 0 and 1 |
| `ControlRuns.RefusalChangesNothing` | rust/loader/src/ctl.rs:691-931 | an operation that is not in order leaves file and map unchanged and reports failure |
| `ControlRuns.OverlappingMapRefusesCentral` | rust/loader/src/ctl.rs:912-931 | when the map meets a real listen apply-central fails and leaves the map; it leaves the file too if the map could be read at the first look, and otherwise may have replaced it |
| `ControlRuns.CentralReplacesIff` | rust/loader/src/ctl.rs:912-931 | with the first checks passed and working calls after them, apply-central replaces the file and reports failure if and only if the new file does not read, or the map meets a real listen and the first look failed |
| `ControlRuns.ReplacedThenRefused` | rust/loader/src/ctl.rs:912-931 | run on a map that meets a real listen with a first look that fails, apply-central replaces the file and reports failure |
| `ControlRuns.FrozenOnlyShrinks` | rust/loader/src/freeze.rs:28-39 | one operation while frozen, other than an ungated add or a reload, adds and moves no port, and changes the file only by a single removal |
| `ControlRuns.AddReadsBackIff` | rust/loader/src/ctl.rs:704-718 | an accepted add reads back as what was written if and only if its names hold no `#` |
| `ControlRuns.AddedReadsBack` | rust/loader/src/ctl.rs:704-724 | after a successful add for plain names the file reads with each port bound to the tenant, site, cert and policy asked for, in slot 1 for TLS and 0 otherwise, and every other port as before |
| `ControlRuns.CentralReadsBackIff` | rust/loader/src/ctl.rs:912-931 | the file written from a central state reads back as it if and only if no entry holds `#` |
| `ControlRuns.ImportReadsBackIff` | rust/loader/src/ctl.rs:216-245 | an admissible import with something to import reads back if and only if its names hold no `#` |
| `ControlRuns.ImportedReadsBack` | rust/loader/src/ctl.rs:216-245 | the same for an import: exactly the importable listens change |
| `ControlRuns.FileTracks` | rust/loader/src/ctl.rs:691-772 | over every run without `#` in names the file always reads, and each operation moves what it reads as to itself or to exactly the state asked for, to the latter if it reports success |
| `ControlRuns.MarkedTenantExample` | rust/loader/src/policy.rs:87-92 | adding one port for tenant `a#b` is in order and leaves a file that does not read |
| `ControlRuns.UnreadableFileStays` | rust/loader/src/ctl.rs:855-866 | one operation: a file that does not read is changed by apply-central only |
| `Recovery.FrozenRunOnlyShrinks` | rust/loader/src/ctl.rs:420-422 | from a freeze to the next unfreeze, over any run without ungated adds and reloads, the map never gains a port and no port changes slot |
| `Recovery.UngatedAddOpensFrozen` | rust/loader/src/ctl.rs:812-853 | on a frozen machine only an ungated add succeeds, and it opens or moves a port if and only if one of its ports is not already steered to its slot |
| `Recovery.OpenPortOnFrozen` | rust/loader/src/ctl.rs:420-476 | on every frozen machine where the add is otherwise in order, with working calls, the gated add is refused and the `open-port` mode opens the port |
| `Recovery.FrozenOpenExample` | rust/loader/src/ctl.rs:812-853 | a concrete frozen machine on which that holds |
| `Recovery.ReloadOpensFrozenIff` | rust/loader/src/main.rs:294-309 | on a frozen machine a reload that gets through keeps the gate closed, and opens or moves a port if and only if the map does not already have what the file says |
| `Recovery.ReloadUndoesCloseAll` | rust/loader/src/main.rs:294-309 | freeze, close all, reload: with working calls the machine is frozen and the map is what the file says |
| `Recovery.ReloadSteersRealListen` | rust/loader/src/main.rs:294-309 | import a port nginx listens on and reload: with working calls both succeed and the port is steered |
| `Recovery.BlindCentralExample` | rust/loader/src/ctl.rs:912-931 | a concrete policy, central state and map that meet the conditions of `ControlRuns.ReplacedThenRefused` |
| `Recovery.MarkedCentralExample` | rust/loader/src/ctl.rs:912-931 | a concrete central state with tenant `a#b` that is acceptable and whose file does not read |
| `Recovery.ReconcileMovesTlsPort` | rust/loader/src/desired.rs:44-60 | a TLS port added for a site with `#` behind its first character is accepted, and the next reconcile is accepted and moves it to slot 0 |
| `Recovery.UnreadableFileBlocks` | rust/loader/src/ctl.rs:855-866 | once the file does not read, no run without apply-central changes it or adds to the map |
| `Recovery.EveryRunCanBeReconciled` | rust/loader/src/ctl.rs:859-910 | after any run of operations without `#` in names and without imports of real listens, whatever fails, the file, where there is one, reads and is clear of real listens, so only a freeze makes a reconcile refuse it |
| `Recovery.ImportOfRealListenBlocks` | rust/loader/src/ctl.rs:237-245 | importing a port nginx listens on, with working calls, succeeds and writes the file; in the state after it every reconcile and every add is out of order |
| `Recovery.RealListenInFileBlocks` | rust/loader/src/ctl.rs:691-910 | over every run that neither removes that port nor applies a central state, the file goes on naming it and every add and reconcile fails and changes nothing |
| `Steering.PassesIff` | dispatch.bpf.c:40-56 | a connection passes through untouched exactly when it is not TCP or its port is not in the map |
| `Steering.SteeredIff` | dispatch.bpf.c:53-69 | it is steered to a socket exactly when the slot of its port is 0 or 1 and holds that socket and the kernel takes it |
| `Steering.DropsOnlyForTheSocket` | dispatch.bpf.c:54-68 | over every run a connection is dropped only for an empty slot or a failed assignment |
| `Steering.RealListensPassThrough` | dispatch.bpf.c:54-56 | over every run in which no reload meets a file that names a real listen, a port nginx listens on is never steered and never dropped |
| `Steering.FileDecides` | dispatch.bpf.c:40-69 | after a successful reconcile, reload or apply-central the outcome for every port is the one the file names |
| `Steering.FileSteersToHeldListener` | rust/loader/src/openresty.rs:55-81 | with the loader in step, that outcome is the socket it holds for the slot |
| `Steering.OldOrNewDecision` | dispatch.bpf.c:53-68 | during a change a connection meets the old decision for its port or the new one |
| `Globs.GlobMatches` | rust/loader/src/nginx_listen.rs:71-104 | the loop terminates and decides the scanning relation |
| `Globs.AcceptsRule` | rust/loader/src/nginx_listen.rs:76-88 | for every pattern with `*`: the part before it fits a prefix, the part after it, if any, is accepted on some non-empty suffix of the whole name |
| `Globs.PlainIsExact` | rust/loader/src/nginx_listen.rs:89-101 | without `*` the matcher is the reference relation |
| `Globs.LeadingStarIsExact` | rust/loader/src/nginx_listen.rs:76-88 | with a single leading `*` too |
| `Globs.TrailingStarIsExact` | rust/loader/src/nginx_listen.rs:76-80 | with a single trailing `*` too |
| `Globs.InnerStarDiffersIff` | rust/loader/src/nginx_listen.rs:81-87 | with one inner `*` the matcher differs from the reference exactly on accepted names too short for both parts |
| `Globs.OverlapExample` | rust/loader/src/nginx_listen.rs:81-87 | `ab*bc` accepts `abc` |
| `Globs.AcceptsAllTheReferenceAccepts` | rust/loader/src/nginx_listen.rs:71-104 | every non-empty name the reference accepts is accepted, for every pattern |
| `Globs.EmptyNameExample` | rust/loader/src/nginx_listen.rs:82-87 | the empty name is the exception |
| `GlobPlaces.PartsOf` | rust/loader/src/nginx_listen.rs:71-104 | every pattern is glued together from star-free parts |
| `GlobPlaces.EveryPattern` | rust/loader/src/nginx_listen.rs:71-104 | for any number of `*`: the reference accepts exactly when the parts fit one after the other without overlap; the matcher accepts a non-empty name exactly when each part fits no earlier than the one before begins, overlapping or not |
| `NginxIncludes.WalkIncludes` | rust/loader/src/nginx_listen.rs:142-160 | a walk adds new, good, reachable, closed files in order, or fails on a reachable bad file; terminates on cycles |
| `NginxIncludes.ReadExpandedFiles` | rust/loader/src/nginx_listen.rs:135-140 | succeeds if and only if every reachable file is good, and returns exactly the reachable files, each once, in preorder of first visit |
| `NginxIncludes.PreorderIsUnique` | rust/loader/src/nginx_listen.rs:142-160 | the order is fully determined: two such lists agree as far as both go |
| `NginxForms.NoInclude` | rust/loader/src/nginx_listen.rs:49-54 | a line whose first word is not `include` includes nothing |
| `NginxForms.LaidInclude` | rust/loader/src/nginx_listen.rs:49-60 | an `include` line, laid out in any way and with any remark, includes exactly the words behind it, without the semicolons at the end |
| `NginxForms.SpecsOfLine` | rust/loader/src/nginx_listen.rs:142-160 | a file of one line includes what the line does |
| `NginxForms.SpecsInOrder` | rust/loader/src/nginx_listen.rs:142-160 | a file includes what its lines do, in their order |
| `NginxForms.FollowedOne` | rust/loader/src/nginx_listen.rs:142-160 | a spec leads to the files it expands to |
| `NginxForms.FollowedInOrder` | rust/loader/src/nginx_listen.rs:142-160 | specs lead to their files in order |
| `NginxListens.ParseListenPorts` | rust/loader/src/nginx_listen.rs:14-32 | each listen port once, in order of first mention |
| `NginxForms.ListensAre` | rust/loader/src/nginx_listen.rs:14-32 | a text listens on a port exactly when some line has `listen` as its first word and that port as its address |
| `NginxForms.LaidListen` | rust/loader/src/nginx_listen.rs:17-21 | a `listen` line, laid out in any way and with any words and remark behind the address, is such a line |
| `NginxForms.BareAddress` | rust/loader/src/nginx_listen.rs:22-28 | a written number is an address with that port exactly from 1 to 65535 |
| `NginxForms.HostAddress` | rust/loader/src/nginx_listen.rs:24-25 | so is any host with a colon and a port behind it, semicolons or not |
| `NginxForms.OtherAddress` | rust/loader/src/nginx_listen.rs:26-27 | what is not a number there is no port |
| `NginxForms.HostListenIsFound` | rust/loader/src/nginx_listen.rs:14-32 | hence a text with a line `listen host:port;` listens on the port |
| `NginxListens.ListensInOrder` | rust/loader/src/nginx_listen.rs:14-32 | a text listens on the ports of its lines, in their order |
| `NginxListens.FilesInOrder` | rust/loader/src/nginx_listen.rs:162-173 | files listen on the ports of each, in their order |
| `NginxListens.ListenPortsOfConf` | rust/loader/src/nginx_listen.rs:162-173 | the same over the expanded files in their order |
| `NginxListens.RealListens` | rust/loader/src/nginx_listen.rs:183-187 | 80, 443, 8080, 8443 and every listen of every reachable file, and nothing else |
| `NginxGlobs.ExpandGlob` | rust/loader/src/nginx_listen.rs:106-129 | a plain path stands for itself; a glob gives the entries of its directory that the matcher accepts, in order; no directory gives none |
| `NginxGlobs.ExpandIs` | rust/loader/src/nginx_listen.rs:106-129 | what an expansion is: a plain path itself, an error without a directory or for one that cannot be read, nothing for a missing one, else one file for each entry the rule accepts, in ascending order of their names |
| `NginxGlobs.AscendingIsOne` | rust/loader/src/nginx_listen.rs:127 | the order in which a directory is read makes no difference: one ascending list holds the same names |
| `NginxGlobs.GlobPicks` | rust/loader/src/nginx_listen.rs:106-129 | for any number of `*`: the names picked are ascending and are exactly the entries in which the parts of the pattern fit, each no earlier than the one before begins |
| `NginxGlobs.RealListensOnDisk` | rust/loader/src/nginx_listen.rs:183-187 | over directory listings and the real matcher: every listen of a file that the reference reading of the globs reaches is found, and with globs that have no `*` or one at an end there are no others |
| `BtfStrings.RewriteMarks` | scripts/patch-rust-btf-map-type.py:85-94 | the loop leaves exactly the patched table, nothing outside it changed, and counts the entries it rewrote, one for each terminated `type_` |
| `BtfStrings.EntriesAfter` | scripts/patch-rust-btf-map-type.py:85-94 | every entry keeps its offset; a terminated `type_` reads `type`, every other entry reads as before |
| `BtfStrings.NewStart` | scripts/patch-rust-btf-map-type.py:91-92 | the only new entries are empty ones behind a rewritten one |
| `BtfStrings.MarkLeftIff` | scripts/patch-rust-btf-map-type.py:96-98 | a `type_` entry is left exactly when the table ends inside it |
| `BtfStrings.VerifiedIff` | scripts/patch-rust-btf-map-type.py:96-98 | when the final check passes, in terms of the table before the patch |
| `BtfStrings.NamesSpelled` | scripts/patch-rust-btf-map-type.py:85-98 | the bytes looked for spell `type` and `type_` |
| `MapsSections.MoveSymbols` | scripts/patch-rust-btf-map-type.py:146-162 | exactly the symbols of the extra section move, or some value does not fit |
| `MapsSections.MergeMaps` | scripts/patch-rust-btf-map-type.py:100-199 | goes through exactly when the sections are adjacent program data, the symbol table is sound and the values fit; then every header and symbol is the merged one |
| `MapsSections.MergeableIs` | scripts/patch-rust-btf-map-type.py:100-199 | that condition in numbers: kind 1, each section starting where the one before ends, records of 24 bytes, every moved value and the merged size below 2^64 |
| `MapsSections.MergedSpan` | scripts/patch-rust-btf-map-type.py:163-199 | the merged section reaches from the start of the first to the end of the last, the others of that name lose it and nothing else, all other sections stay |
| `MapsSections.PositionsKept` | scripts/patch-rust-btf-map-type.py:151-162 | every symbol keeps its position in the file; symbols of other sections are untouched |
| `MapsSections.SymbolsStayInside` | scripts/patch-rust-btf-map-type.py:166-167 | a symbol inside its section is inside the merged one |
| `MapsSections.OneMapsLeft` | scripts/patch-rust-btf-map-type.py:202-209 | one `.maps` section is left if and only if the name table does not itself start with that name |
| `MapsSections.FindSections` | scripts/patch-rust-btf-map-type.py:57-67 | the scan finds all `.maps` sections in order and the last `.symtab`, and fails exactly on a name outside the table |
| `MapsSections.LastOfIs` | scripts/patch-rust-btf-map-type.py:57-67 | a symbol table is found exactly when there is one, and then it is the last |
| `MapsSections.SectionNamesSpelled` | scripts/patch-rust-btf-map-type.py:57-67 | the section names looked for spell `.maps`, `.symtab` and `.BTF` |
| `MapsSections.PatchObject` | scripts/patch-rust-btf-map-type.py:85-211 | the script succeeds exactly on the patchable images and then writes exactly the patched one |
| `Rescan.DiscoverableIff` | rust/loader/src/listen_fd.rs:32-47 | a listener can be found exactly when both listings read and another process has a descriptor, one that can be captured, of a socket at the target address, or at the wildcard address if nothing listens at the target |
| `Rescan.OpenByInode` | rust/loader/src/listen_fd.rs:138-186 | finds a descriptor of another process whenever one can be captured |
| `Rescan.FindListener` | rust/loader/src/listen_fd.rs:32-47 | fails only when no listening inode can be captured from another process |
| `Rescan.Loader.RescanSlot` | rust/loader/src/openresty.rs:22-53 | success means the slot has a listener another process holds at the target; failure changes nothing |
| `Rescan.Loader.RescanHeld` | rust/loader/src/openresty.rs:55-81 | keeps descriptors and SOCKMAP in step even when one slot's rescan fails; success means every slot is live, and comes when every listener can be found and registered; what is held after it, descriptor by descriptor |
| `Rescan.Loader.StartUp` | rust/loader/src/openresty.rs:83-122 | ends in step whatever the SOCKMAP held before; succeeds exactly when each listener shows up in some poll and can be registered and its ports opened, and then holds live listeners |
| `Rescan.Loader.Serve` | rust/loader/src/main.rs:294-326 | any number of rounds keeps them in step, drops no descriptor, and ends with what the rounds make of the descriptors one after the other |
| `Rescan.KeptIff` | rust/loader/src/openresty.rs:22-53 | a held listener is left alone exactly when its owner runs and holds the socket and the socket accepts and listens at the target, or a fresh search finds it again |
| `Rescan.RoundRevives` | rust/loader/src/openresty.rs:55-81 | a round that can find and register a slot's listener leaves a live one there, whatever was held; a healthy one stays |
| `Rescan.LastRoundRevives` | rust/loader/src/main.rs:311-326 | after any rounds, a last one that can find and register the listeners leaves every slot live |

## Left out

- Control.ControlPlane.ImportListens: returns what `--central-out` writes beside `ports.conf`; how that file is put in place is not modelled.
- NginxIncludes.ReadExpandedFiles: an include spec expands to whatever list or error the tree gives for it; `NginxGlobs` gives it the expansion over directory listings. Joining and splitting paths and resolving symbolic links are functions of the disk.
- The kernel is taken to stop a batch delete at the first missing key, with the keys before it gone; a batch refused for another reason may have handled any of its keys.
- Runs follow one another. Two upgrade processes at the same time, or an upgrade during a control-plane operation, are not modelled; the source takes no lock across them.
- Startup (rust/loader/src/main.rs:156-188, 262): it reserves the listen targets in its policy, seeds a missing `ports.conf` from flags, and then runs the executor of a reload, with no gate and no look at the real listens; the run theorems start after it.
- `rescan-listen` from a second process writes the SOCKMAP without the loader's descriptors; the agreement theorem is about the loader's own start and loop.
- Detach and unpin (rust/loader/src/pin.rs:117-152) appear in histories as an event that may leave any pins; their own steps are not modelled.
- An upgrade loads its candidate anew, so the theorems on what is recoverable assume that `prog` does not hold it already.
- One set of failing calls stands for a whole run, since no call site is reached twice in a run.
- In the control plane a test whether a file exists answers truly; in the upgrade part such a probe may fail and then reads as missing, as in the source.
- Writing `ports.conf` is one step that replaces the text or changes nothing; the temporary file, its permissions and its removal are not modelled.
- Loading and verifying BPF objects, map layout checks, namespaces, pidfds and reading `/proc` are calls that work or fail.
- The ELF and BTF headers, byte order and record packing: the patcher starts from decoded section headers, symbols and the string table.
- Command-line flags, the control socket, JSON text, metrics, audit lines, progress output and error texts.
- The nft fallback, shell scripts, systemd units and the demo server.
- `rust/bpf/src/lib.rs` makes the same decision as `dispatch.bpf.c` and is not modelled again.
