# Nova Server Manager: verified models of the reconcilers

The Python back end of Nova Server Manager drives external tables — iptables rules, nginx site files, directories,
database rows — to a wanted state through commands that may fail. This project models those services in Dafny and
proves what holds over every run. `dafny verify dfyconfig.toml` checks everything.

| file | what it models |
|---|---|
| `Text.dfy` | split, join, decimal numerals, white space and case |
| `Cidr.dfy` | IPv4 ranges as text (section 3.1 of RFC 4632) and the list normalisation |
| `Firewall.dfy` | the rule table, the iptables commands, and clear / configure / start-up pass as methods on it |
| `FirewallRuns.dfy` | packet verdicts, and what any sequence of those calls leaves in force |
| `DatabaseDeploy.dfy` | the database branch of a deploy and the access route, for one database |
| `DatabaseRuns.dfy` | runs of deploys, access changes, start-up passes and deletions over all databases |
| `Domains.dfy` | domain validation and the nginx file names |
| `Sites.dfy` | the site reconciler with its rollback |
| `Ownership.dfy` | the domain routes over all applications and the shared directories |
| `Builds.dfy` | the source check of a deploy, its branch, and the generated build files |
| `Lifecycle.dfy` | deployments, uploads, the background worker and the restart step as one state machine |
| `SourceSwap.dfy` | replacing a source directory by renames, for uploads and restores |
| `Trees.dfy` | directory trees, their statistics, and flattening |
| `Archives.dfy` | path resolution, ZIP compress / extract, backup / restore of a tree |
| `Upload.dfy` | the upload route from archive to live tree |
| `Backups.dfy` | backup rows, backup files and retention |

Services that change things step by step are classes or methods with loops, and each `ensures` ties the new state to a
specification function of the old one; the theorems are lemmas about those functions. What the system answers to the
commands that may fail is a parameter (`fault`, `CommandOutcomes`, `Faults`, `Answers`), so a method must do what it can
with the answers it gets, and every theorem quantifies over all failures.

Assumptions, all of them stated as preconditions or visible in the definitions:

- Each section of a route up to a commit is one atomic step; the code has no lock.
- `iptables -C`, `-D`, `-L`, `-F` and `-X` work as documented; `-N`, `-A` and `-I` may fail at any time. `-X` refuses a
  chain that is still referenced.
- Rules this program did not write are an arbitrary function from rule and packet to verdict; they do not jump into
  its chains. Verdicts are about original-direction packets.
- Application ids, host ports and names are unique, as the database columns demand. The id of a deleted record may be
  given out again, but not while a background task or a running call still holds it (for deployments
  `Lifecycle.StepExact` says what holds otherwise).
- An enabled site is a link to the available file of the same name. File operations of the site reconciler succeed;
  `nginx -t`, the reload and certbot may fail. Certbot changes only the file of its domain.
- Trees have no links, the root of a file operation is already resolved, and paths to compress do not contain the
  destination ZIP. Where it is said, two backups of one application start in different seconds; `Backups.StepAgrees`
  and `Backups.RunAgrees` do without that.
- A stored address list or domain list is a list of texts: its JSON form is not modelled.

Where the code and its documentation differ, the model follows the code. The project's feature list (README.md, line 38)
promises that an upload or restore that fails keeps the former version. That is not so after the second rename, when the
new version is live even if the call then fails, nor when the move back fails: see the second and third row below.

Properties that are false of the code in general are stated with the exact condition under which they hold, and with an
input on which they fail:

| property | exact condition | fails on |
|---|---|---|
| a failing `nginx -t` restores the files | `Sites.RollbackExact` | `Sites.RollbackLoses` |
| a failing upload keeps the former version | `SourceSwap.UploadKeepsFormer` | `SourceSwap.FailureKeepsNew`, `SourceSwap.FailureKeepsNone` |
| a failing restore keeps the former version | `SourceSwap.RestoreKeepsFormer` | `SourceSwap.FailureKeepsNew` |
| no application's glob reaches another's files | `Domains.GlobClash` | `Domains.ValidNamesClash` |
| every set_domain call keeps one owner for each domain | `Ownership.StepExact` | `Ownership.ReloadFailureShares` |
| an application in deployment shows `deploying` | `Lifecycle.RunShows` | `Lifecycle.ActiveMayShowRunning` |
| a deployment task writes only its own record | `Lifecycle.StepExact` | `Lifecycle.ReissuedId` |
| a public container has its filter in force | `DatabaseRuns.RunCovered` | `DatabaseDeploy.FailedRedeployUncovers` |
| a listed path opens its entry | `Archives.ListedPathOpens` | `Archives.BackslashOpensOther` |
| a ZIP member is written where it was checked | `Archives.WrittenWhereChecked` | `Archives.UpwardMember` |
| an archive with one top-level directory can be flattened | `Trees.Staging.Flatten` | `Trees.OwnNameInside` |
| a completed backup has its file | `Backups.RunAgrees` | `Backups.SameSecondLosesFile`, `Backups.DeletionLosesFile` |

## Model

| member | source | states |
|---|---|---|
| Cidr.NormalizeCidrs | app/services/database_access_service.py:11-25 | the loop computes the specified list or the error of the first bad item |
| Cidr.NormalizedAccepts | app/services/database_access_service.py:14-21 | a list is accepted iff every item is an IPv4 range other than prefix length 0 |
| Cidr.NormalizedAdmits | app/services/database_access_service.py:11-25 | the stored list admits exactly the addresses the submitted items admit |
| Cidr.NormalizedOrder | app/services/database_access_service.py:22-25 | the stored items are canonical (host bits clear, prefix 1 to 32) and in order of first occurrence |
| Cidr.NormalizedComplete | app/services/database_access_service.py:22-25 | no item is stored twice and every submitted item's canonical form is stored |
| Cidr.NormalizedIdempotent | app/services/database_access_service.py:28-33 | a stored list is re-read unchanged and never raises |
| Cidr.RangeRoundTrip | app/services/database_access_service.py:15-22 | printing a range and parsing the text gives the range back |
| Cidr.CanonicalMeaning | app/services/database_access_service.py:15-22 | one item's canonical text re-normalises to itself and admits the same addresses |
| Cidr.NetmaskMeaning | app/services/database_access_service.py:15 | a dotted mask counts as prefix length p iff it is p ones followed by zeros |
| Cidr.OctetMeaning | app/services/database_access_service.py:15 | an octet is exactly a decimal numeral up to 255 without leading zeros |
| Cidr.AddressMeaning | app/services/database_access_service.py:15 | four such octets are the address with the first one most significant |
| Cidr.AddressForm | app/services/database_access_service.py:15 | no other text is an address |
| Cidr.BareMeaning | app/services/database_access_service.py:15 | a text without a slash admits exactly the one address it is |
| Cidr.SlashMeaning | app/services/database_access_service.py:15 | a text with one slash admits exactly the addresses that share the first bits with its address |
| Cidr.SlashesRefused | app/services/database_access_service.py:15-17 | a text with two slashes is refused |
| Cidr.PrefixMeaning | app/services/database_access_service.py:15 | after the slash stands a number up to 32, a netmask, or a hostmask |
| Cidr.SpanMeaning | app/services/database_access_service.py:15 | a /32 is one address, each bit less doubles the range, and a /0 is everything |
| Cidr.NormalizedError | app/services/database_access_service.py:14-21 | a list is refused with the error of its first bad item |
| Cidr.ItemError | app/services/database_access_service.py:14-21 | an item is invalid iff it is no range, and refused as the whole Internet iff its prefix length is 0 |
| Cidr.BareStored | app/services/database_access_service.py:15-22 | a single address is stored as itself with `/32` |
| Cidr.NetworkStored | app/services/database_access_service.py:15-22 | of a /24 range the last octet is stored as 0 |
| Text.StripMeaning | app/services/database_access_service.py:15 | stripping takes away the white space at both ends and nothing else |
| Firewall.ChainInjective | app/services/database_access_service.py:36-37 | two applications never share a chain name |
| Firewall.Iptables.Clear | app/services/database_access_service.py:40-50 | the delete loop ends, and removes all jumps of the application and its chain unless something else refers to it |
| Firewall.Iptables.Configure | app/services/database_access_service.py:53-79 | command by command, with a failure at any of them, the table and the result are the specified ones |
| Firewall.Iptables.SyncAll | app/services/database_access_service.py:82-90 | the start-up pass is the fold of configure over the applications, ended by an exception |
| FirewallRuns.ConfigureExact | app/services/database_access_service.py:53-79 | after a successful call a TCP packet to the port is accepted iff its source is in a submitted range, dropped otherwise; all other verdicts are as before |
| FirewallRuns.ClearIdempotent | app/services/database_access_service.py:40-50 | clearing twice is clearing once, for every table |
| FirewallRuns.ClearStep | app/services/database_access_service.py:40-50 | clearing takes one application's filter out of force and leaves the rest |
| FirewallRuns.ConfigureStep | app/services/database_access_service.py:53-79 | the filter is in force afterwards iff the list is good and no command failed; the result says so |
| FirewallRuns.FailureLeavesNothing | app/services/database_access_service.py:66-79 | a call that does not succeed leaves no rule and no chain of its application |
| FirewallRuns.SyncStops | app/services/database_access_service.py:82-90 | the start-up pass is ended early iff some public application's stored list is unusable |
| FirewallRuns.StoredListsNeverStop | app/services/database_access_service.py:28-33 | lists that the access route stored never end the pass |
| FirewallRuns.SyncInstalls | app/services/database_access_service.py:82-90 | each application with no unusable list before it has a filter afterwards iff its own call succeeded, and then for its own list; the others keep what they had |
| FirewallRuns.FreshTable | app/services/database_access_service.py:36-37 | a table without this program's rules has no filter in force: where runs start |
| FirewallRuns.RunRefines | app/services/database_access_service.py:40-90 | over every run of configure, clear and start-up calls the table implements the filters put in force |
| FirewallRuns.VerdictIsMembership | app/services/database_access_service.py:73-76 | first-match evaluation equals membership in the filtered list, else the foreign rules' verdict |
| FirewallRuns.RunVerdict | app/services/database_access_service.py:40-90 | after any run the verdict on every packet is the intended one |
| FirewallRuns.OtherAppsKeepVerdict | app/services/database_access_service.py:40-90 | calls about other applications never change the verdict on this application's port |
| FirewallRuns.RemoteDatabase | tests/test_database_access.py:34-52 | the whole table after one successful call for a database with two ranges |
| DatabaseDeploy.DatabaseHost.Deploy | app/services/docker_service.py:191-228 | filter first, then remove, network, run and verify, clear last; state and result for every failure |
| DatabaseDeploy.DatabaseHost.ChangeAccess | app/routers/apps.py:417-460 | the route with its redeploy on failure; the row changes only on success |
| DatabaseDeploy.DeployGuards | app/services/docker_service.py:199-223 | a database is published on all interfaces only in a state where its filter for its present list is installed |
| DatabaseDeploy.InstalledDecides | app/services/docker_service.py:199-203 | what an installed filter means for packets |
| DatabaseDeploy.DeployAgrees | app/services/docker_service.py:210-228 | a successful deploy ends with address and filter as the row says; a private one on 127.0.0.1 with no chain |
| DatabaseDeploy.AccessStep | app/routers/apps.py:435-458 | the rule table implements the filters in force after every access change, whatever fails |
| DatabaseDeploy.FailedChangeRestores | app/routers/apps.py:440-444 | a failed change whose redeploy succeeds restores flags, address and filter |
| DatabaseDeploy.AccessAgrees | app/routers/apps.py:435-460 | a change on a running container that succeeds, or is undone by a redeploy that succeeds, ends with row, address and filter in agreement |
| DatabaseDeploy.DeployCovered | app/services/docker_service.py:199-228 | a deploy leaves a container on all interfaces with its filter in force exactly when: public, the filter's commands succeed or no such container was there; private, it was so before or the old container was removed |
| DatabaseDeploy.DeployResult | app/services/docker_service.py:199-228 | a deploy succeeds iff a public one's filter does, the network is there, the name is free, and the container starts and stays up; which address is published afterwards; and which `docker run` was issued |
| DatabaseDeploy.AccessResult | app/routers/apps.py:417-460 | the route is refused iff the list is unusable, or empty when enabling, and then touches nothing; it succeeds iff the commands work, and the row is then what was asked, on a stopped container too; otherwise the row stays |
| DatabaseDeploy.AccessFilter | app/routers/apps.py:435-460 | after a success a filter is in force iff access is enabled, for the asked list; a failure on a stopped container leaves none |
| DatabaseDeploy.AccessUndone | app/routers/apps.py:440-444 | a failed change on a running container is followed by a deploy of the stored row, whose result is told |
| DatabaseDeploy.AccessCovered | app/routers/apps.py:435-460 | the same exact condition for an access change with its redeploy, in the results of its commands |
| DatabaseDeploy.FailedRedeployUncovers | app/services/docker_service.py:199-204 | from a table that holds the filter, a redeploy whose `iptables -N` fails leaves the old container on all interfaces without one |
| DatabaseRuns.CallKeepsOthers | app/routers/apps.py:417-460 | a call about other databases, or about one without a row, changes no row, address or filter of this one, whether it succeeds or fails |
| DatabaseRuns.RunGuards | app/services/docker_service.py:191-228 | over every run of deploys, access changes, start-up passes and deletions each public `docker run` was guarded and the table implements the filters |
| DatabaseRuns.RunAgrees | app/routers/apps.py:417-460 | after the last call about a database, if it was effective, flag, address and filter agree at the end of the run, whatever became of all other calls |
| DatabaseRuns.RunDecides | app/services/database_access_service.py:53-79 | what that means for packets: a public database's port accepts exactly the sources its row admits and drops all others; a private one's is left to the other rules |
| DatabaseRuns.RunRow | app/routers/apps.py:417-460 | over every run the last call about a database decides its row: what a successful change asked for, nothing after a deletion, else what was there |
| DatabaseRuns.DeletionEffect | app/routers/apps.py:559-566 | deleting takes row, filter and chain, and the container if it can be removed |
| DatabaseRuns.CallCovered | app/routers/apps.py:417-460 | the exact condition for a public container to have its filter, for deploy, access change, start-up pass and deletion |
| DatabaseRuns.RunCovered | app/services/docker_service.py:191-228 | over every run the last call about a database settles whether a public container has its filter in force |
| Domains.ValidateIdempotent | app/services/proxy_service.py:13-17 | a validated domain validates to itself |
| Domains.ValidateExact | app/services/proxy_service.py:13-17 | a text is accepted iff in lower case it is a domain with white space around it and dots after it, and that domain is the result |
| Domains.LabelsAreDomain | app/services/proxy_service.py:15 | labels joined by dots and followed by a top-level name are a domain |
| Domains.DomainCharacters | app/services/proxy_service.py:13-17 | a validated domain is lower-case letters, digits, hyphens and inner dots |
| Domains.DecodeConfigName | app/services/proxy_service.py:24-25 | for names without `--` and without a final hyphen the file name decodes to application and domain |
| Domains.GlobClash | app/services/proxy_service.py:62-86 | exactly when one application's prefix glob can reach another's file |
| Domains.ValidNamesClash | app/schemas.py:18 | `ab--c` and `ab` are both accepted as names, and the first reaches the second's files |
| Domains.SafeNamesNeverClash | app/services/proxy_service.py:62-86 | names without `--` and without a final hyphen never clash |
| Domains.LegacyNotManaged | app/services/proxy_service.py:63-64 | a legacy file name is never a managed file name |
| Sites.NginxSites.ConfigureDomains | app/services/proxy_service.py:56-126 | the create, remove, check, rollback, reload and certificate steps give the specified files and result |
| Sites.NginxSites.RemoveDomains | app/services/proxy_service.py:134-141 | the loop removes the specified files |
| Sites.AppliedExact | app/services/proxy_service.py:61-86 | exactly the wanted files stand below the prefix, pairing and old content kept, legacy gone, nothing else touched |
| Sites.AppliedTwice | app/services/proxy_service.py:70-86 | a second call with the same domains creates and removes nothing |
| Sites.RollbackSurvivors | app/services/proxy_service.py:87-96 | after a failing check the surviving managed files are the old ones that are also wanted |
| Sites.RollbackExact | app/services/proxy_service.py:87-96 | a failing check restores the files iff nothing was stale and the legacy file was enabled iff present |
| Sites.RollbackLoses | app/services/proxy_service.py:82-96 | a stale file is gone after a failing check |
| Sites.CertificateMeaning | app/services/proxy_service.py:103-109 | a certificate is requested exactly for new domains and those without one |
| Sites.TlsExact | app/services/proxy_service.py:99-126 | a wanted file has TLS afterwards iff it had it before or its certificate was due and obtained, in the order of the domains; the outcome warns iff one that was due was not obtained |
| Sites.OutcomeExact | app/services/proxy_service.py:56-126 | which step the outcome names, and that nothing is written before the check when the list is bad or nginx is missing |
| Sites.DedupOrder | app/services/proxy_service.py:57 | repeated domains keep their first places |
| Sites.WithTlsKeeps | app/services/proxy_service.py:110-125 | certbot changes neither which files there are nor what they serve |
| Sites.RemovedExact | app/services/proxy_service.py:134-141 | remove_domain takes away all of the application's files and no other |
| Ownership.Panel.AddDomain | app/routers/apps.py:513-537 | the set_domain route is the specified step |
| Ownership.Panel.DropDomain | app/routers/apps.py:540-552 | the delete_domain route is the specified step |
| Ownership.Panel.RemoveApp | app/routers/apps.py:555-566 | the delete_app route, on rows and site files, is the specified step |
| Ownership.EffectiveMeaning | app/routers/apps.py:36-43 | for any row the effective list has no repeats and holds the primary and listed domains in lower case, a primary domain the list lacked at its head |
| Ownership.EffectiveIsStored | app/routers/apps.py:36-43 | for a row the routes have written it is the stored list |
| Ownership.SetEffect | app/routers/apps.py:513-537 | set_domain succeeds iff the application is no database, the domain is valid and not taken, and the commands work; it is then last in the list unless it was there, the primary domain stays first, and a file serves it; otherwise no row changes |
| Ownership.DeleteEffect | app/routers/apps.py:540-552 | delete_domain succeeds iff the domain is valid and the commands work; the row then has the other domains in their order, and no file of the application serves that one; otherwise no row changes |
| Ownership.CreateEffect | app/routers/apps.py:114-151 | create_app adds exactly the row asked for iff the name is well formed and new |
| Ownership.RemoveEffect | app/routers/apps.py:555-566 | delete_app takes the row and all of the application's site files, and nothing else |
| Ownership.OwnedMeaning | app/routers/apps.py:518-523 | a domain is taken iff another application's row lists it |
| Ownership.StepGood | app/routers/apps.py:513-573 | every admissible route keeps the invariant; a successful set or delete leaves exactly the row's files on disk, other applications' stay |
| Ownership.StepExact | app/routers/apps.py:513-573 | a route keeps the invariant iff it is admissible: it is lost only by an accepted new name that clashes, and by a set_domain of a domain the row lacks whose reload fails; never by a refusal or a deletion |
| Ownership.FreshPanel | app/services/proxy_service.py:62-64 | a panel without applications and managed files satisfies the invariant: where runs start |
| Ownership.RunGood | app/routers/apps.py:513-573 | the invariant holds after every admissible run |
| Ownership.RunExact | app/routers/apps.py:513-573 | a run is admissible iff every state on the way satisfies the invariant |
| Ownership.GoodMeaning | app/routers/apps.py:513-573 | lists without repeats, pairwise disjoint, primary first; no two enabled managed files serve the same name |
| Ownership.ReloadFailureShares | app/routers/apps.py:525-529 | how the invariant is lost: after a failed reload a second application is given the same name, and both files are enabled |
| Builds.GeneratedNeutral | app/services/docker_service.py:74-155 | the generated files never change the verdict of the source check |
| Builds.GeneratedTwice | app/services/docker_service.py:64-122 | generating again changes nothing |
| Builds.BuildHasFile | app/services/docker_service.py:74-155 | a source that passed the check and is built has a build file, its own or the generated text, and the file its template copies; user files stay |
| Builds.OnlySourcesAreBuilt | app/services/docker_service.py:125-155 | of applications that pass the check exactly those with a required file are built, exactly those of type docker run a ready image, and databases and sites have their branches |
| Builds.RequiredExact | app/services/docker_service.py:144-150 | which file each runtime needs |
| Builds.ValidateExact | app/services/docker_service.py:125-155 | each of the three refusals happens exactly in its case |
| Lifecycle.DeploymentRecord.Deploy | app/services/docker_service.py:191-284 | it succeeds iff the source passes and the calls it needs work; for every answer of the system, exactly which reports are made and what the source holds afterwards |
| Lifecycle.DeploymentRecord.RunToEnd | app/routers/apps.py:46-95 | a background deployment ends closed at 100 percent with the full history, completed iff the deploy succeeds |
| Lifecycle.HistoryIncreases | app/services/docker_service.py:193-278 | progress strictly increases along every branch, early returns included |
| Lifecycle.Panel.RequestNewDeploy | app/routers/apps.py:278-302 | a deploy is accepted iff none is queued or running for the application |
| Lifecycle.Panel.CloseDeployment | app/routers/apps.py:80-95 | closing a deployment is the specified step on the record and its application's row |
| Lifecycle.Panel.Reconcile | app/services/deployment_state_service.py:9-38 | the three restart loops compute the specified rows |
| Lifecycle.Panel.Refresh | app/routers/apps.py:98-106 | the listing loop computes the specified statuses |
| Lifecycle.RestartSettles | app/services/deployment_state_service.py:9-38 | after a restart no deployment is active, no upload is processing, no application is deploying |
| Lifecycle.StepGood | app/routers/apps.py:46-358 | every admissible step of routes, worker and restart keeps the invariant |
| Lifecycle.StepExact | app/routers/apps.py:294-298 | a step loses the invariant iff it accepts a deployment whose record gets the id that a task still holds for a deleted record |
| Lifecycle.ReissuedId | app/routers/apps.py:65-68 | how it is lost: the task of a deleted application reports on the record of another one |
| Lifecycle.RunGood | app/routers/apps.py:46-358 | the invariant holds after every admissible run |
| Lifecycle.RunExact | app/routers/apps.py:46-358 | a run is admissible iff every state on the way satisfies the invariant |
| Lifecycle.ReachableMeaning | app/routers/apps.py:283-302 | after every admissible run from an empty panel: at most one active deployment for each application, each with a task; `deploying` implies one; finished iff closed; completed implies 100 percent |
| Lifecycle.ActiveMayShowRunning | app/routers/apps.py:103-105 | an application whose second deployment is queued can show `running`: a run |
| Lifecycle.StepShows | app/routers/apps.py:46-358 | an application in deployment shows `deploying` after a step iff the step marks it, or it did so before and the step does not hide it |
| Lifecycle.RunShows | app/routers/apps.py:46-358 | over every admissible run: it shows `deploying` iff no hiding step followed its last marking step |
| Lifecycle.CloseAgrees | app/routers/apps.py:80-95 | when a task closes its deployment the application is `running` iff the record is completed and `failed` iff it is aborted; nothing else changes |
| Lifecycle.StepStatus | app/routers/apps.py:46-416 | the status of any application after any step |
| Lifecycle.RunStatus | app/routers/apps.py:46-416 | over every run the status is what the last step that writes it gives |
| Lifecycle.RestartExact | app/services/deployment_state_service.py:9-38 | a restart changes exactly the open records, the applications that were deploying and the uploads in progress |
| Lifecycle.UploadExact | app/routers/apps.py:188-262 | an upload begins iff the application has none in progress, and ends stored or rejected |
| Lifecycle.DeletionExact | app/routers/apps.py:555-566 | deleting an application takes its row, deployments and uploads, and no other |
| Lifecycle.StepEvolves | app/routers/apps.py:46-95 | one step moves a record forward only, and only a restart closes one that never ran |
| Lifecycle.RunEvolves | app/routers/apps.py:46-95 | as long as a record exists: queued, running, closed; progress never decreases; a closed record never changes |
| SourceSwap.Directories.ReplaceSource | app/routers/apps.py:228-275 | the renames and deletes with the finally block pass through the specified states |
| SourceSwap.Directories.RestoreSource | app/services/backup_service.py:132-148 | the copy and swap with the except block pass through the specified states |
| SourceSwap.UploadSafe | app/routers/apps.py:228-275 | every state holds a whole old or whole new tree; how the call ends, for every failure |
| SourceSwap.RestoreSafe | app/services/backup_service.py:132-148 | the same for a restore |
| SourceSwap.UploadKeepsFormer | app/routers/apps.py:228-275 | a failing upload leaves the former version live iff the new tree was not ready, the first rename failed, or the second failed and the move back worked |
| SourceSwap.RestoreKeepsFormer | app/services/backup_service.py:132-148 | the same for a failing restore |
| SourceSwap.FailureKeepsNew | app/routers/apps.py:232-275 | when the delete of the old tree stops half-way, upload and restore fail with the new tree live |
| SourceSwap.FailureKeepsNone | app/routers/apps.py:229-275 | when the second rename and the move back fail, no version is live and the old one is whole beside |
| SourceSwap.SwapSucceeds | app/routers/apps.py:228-275 | upload and restore return normally iff the new tree is ready, both renames work, and the old tree is deleted |
| SourceSwap.CleanedUp | app/routers/apps.py:264-275 | when the clean-up calls work no staging directory is left, and no old tree beside a live one |
| Trees.DirectoryStats | app/services/file_service.py:166-178 | the walk counts every file and its bytes once, in any order |
| Trees.StatsMeaning | app/services/file_service.py:166-178 | one file more counts once and with its length, a directory does not count |
| Trees.Staging.Flatten | app/routers/apps.py:220-226 | flattening succeeds iff no call fails and no child carries the directory's name, and gives the nested tree |
| Trees.SingleTopMeaning | app/routers/apps.py:220-222 | there is a single top-level directory iff the tree is not empty and everything is in it |
| Trees.NestedMeaning | app/routers/apps.py:222-226 | the nested tree has exactly the entries below it |
| Trees.OwnNameInside | app/routers/apps.py:220-226 | a directory that holds a file of its own name cannot be flattened |
| Trees.SingleTopConserves | app/routers/apps.py:220-227 | flattening keeps file count and total size |
| Archives.ResolvePlain | app/services/file_service.py:14-19 | a path of plain names resolves to itself below the root |
| Archives.UpExact | app/services/file_service.py:14-19 | a path that goes up is accepted iff its names lead back into the root; leading slashes do not matter |
| Archives.SafeStaysInside | app/services/file_service.py:14-19 | an accepted path lies in the root |
| Archives.ListedPathOpens | app/services/file_service.py:22-39 | the listed path of an entry opens that entry iff no name on it holds a backslash |
| Archives.BackslashOpensOther | app/services/file_service.py:33 | the path listed for a file named `a\b` opens `b` in the directory `a` |
| Archives.Extraction.ExtractZip | app/services/file_service.py:145-163 | validate, then write, over whatever is there: each refusal in its case and before any write; a write error leaves the entries before it; success means all limits and paths were good |
| Archives.ExtractOverlays | app/services/file_service.py:163 | extracting over a tree adds exactly the entries and the directories leading to them, the last entry for a path decides, all else stays |
| Archives.ExtractsExactly | app/services/file_service.py:163 | consistent entries can be extracted over a tree iff each finds no file where it needs a directory and its own kind at its path |
| Archives.DirectoryMember | app/services/file_service.py:163 | a member whose name ends with a slash is a directory |
| Archives.ListingExtracts | app/services/file_service.py:163 | an archive that lists all files and directories of a tree, in any order, extracts to exactly that tree, empty directories included |
| Archives.TotalMeaning | app/services/file_service.py:153 | the total size counts every member once |
| Archives.WrittenWhereChecked | app/services/file_service.py:159-163 | a member is written at the checked place iff its name is relative and has no `..` |
| Archives.UpwardMember | app/services/file_service.py:159-163 | `a/../b` passes the check as `b` and is written at `a/b` |
| Archives.CreateArchive | app/services/file_service.py:108-132 | it is refused exactly for a name without `.zip`, a destination that exists or is below a file, or a missing source; otherwise the loops write exactly the chosen files, repeats for overlapping sources |
| Archives.ChosenMeaning | app/services/file_service.py:118-126 | a file among the sources stands for itself, a directory for every file below it |
| Archives.PutAllDescribes | app/services/file_service.py:163 | extracting consistent entries in any order gives exactly the described tree |
| Archives.ZipRoundTrip | app/services/file_service.py:108-163 | compress, then extract: exactly the chosen files with their contents, and the directories that lead to them |
| Archives.CreateBackup | app/services/backup_service.py:73-93 | the archive holds the source, the manifest and a given dump, and nothing else |
| Archives.ExtrasExtracted | app/services/backup_service.py:87-93 | manifest and dump are there again when the backup is extracted |
| Archives.BackupPassesCheck | app/services/backup_service.py:111-119 | every path of a backup passes the safety check |
| Archives.BackupRoundTrip | app/services/backup_service.py:87-133 | the tree below "source" in an extracted backup is the source; there is none iff the source was empty |
| Archives.BackupThenRestore | app/services/backup_service.py:87-148 | backup, then restore: the same source, whatever was there between; a failed restore leaves a whole tree |
| Upload.PutOverWellFormed | app/services/file_service.py:163 | whatever the members, extracting into a well-formed tree gives a well-formed tree |
| Upload.FlattenedConserves | app/routers/apps.py:220-227 | the live tree has the files and bytes of the archive |
| Upload.UploadSource | app/routers/apps.py:211-275 | it returns normally iff the archive is acceptable and the calls it needs work, and then leaves exactly the flattened archive with its statistics; an archive that does not unpack leaves the old source; all states between are safe |
| Backups.BackupStore.EnforceRetention | app/services/backup_service.py:174-183 | the loop removes exactly the outranked rows and their files |
| Backups.RankIsPosition | app/services/backup_service.py:175-180 | in the sorted query result, position k has k newer backups |
| Backups.RetentionKeepsNewest | app/services/backup_service.py:174-183 | the newest `retention` completed backups stay, or all; every kept one is newer than every removed one; no other row changes |
| Backups.BackupStore.FinishBackup | app/services/backup_service.py:94-108 | the archive stays iff the row is completed |
| Backups.BackupStore.BeginBackup | app/services/backup_service.py:59-71 | the row is there, in creation, before the archive is written |
| Backups.BackupStore.DeleteOne | app/routers/backups.py:94-102 | deleting one backup takes away its row and its file |
| Backups.BackupLife | app/services/backup_service.py:59-108 | a backup's row is in creation, then completed or failed, and its file is there or not; no other row changes |
| Backups.RowsAfter | app/routers/backups.py:94-102 | deleting takes one row, deleting an application all of its rows |
| Backups.StepGood | app/services/backup_service.py:59-108 | every step keeps rows and files in agreement when new file names are new |
| Backups.StepAgrees | app/services/backup_service.py:59-183 | with whatever file names, a step keeps rows and files in agreement iff it is harmless: a finishing call has no row of its name that ended the other way, and a deletion or retention pass removes no path of a completed row that stays |
| Backups.RunAgrees | app/services/backup_service.py:59-183 | rows and files agree in every state of a run iff every step is harmless where it is taken |
| Backups.RowsMatchFiles | app/services/backup_service.py:59-183 | over every run: a completed row has its file, a failed one has none, no two rows share a path |
| Backups.SameSecondLosesFile | app/services/backup_service.py:60-105 | two backups within a second, the second failing: the first is completed without a file |
| Backups.DeletionLosesFile | app/services/backup_service.py:60-183 | two backups within a second, both completed: deleting one, or a retention pass for one, leaves the other completed without a file |

## Left out

- Firewall.Iptables.Clear: `iptables -D` always deletes a rule that `-C` found; with a delete that keeps failing the loop does not end.
- DatabaseRuns.RunAgrees: an access change on a stopped container keeps the address fixed when the container was made, as does a later `start`; such a call is not effective, and `DatabaseRuns.RunCovered` says what it leaves.
- Sites.NginxSites.ConfigureDomains: I/O errors in the site directories, the transient `.conf.tmp` file, and certificate names (truncated, not injective) are not modelled; which domains already have a certificate is a parameter.
- Ownership.Panel.RemoveApp: container, admin container, packet filter, volume and source removal of delete_app are outside this step.
- Archives.Extraction.ExtractZip: damaged archives and a full disk while writing; a member half written by such an error is not described.
- Archives.CreateArchive: a source that contains the destination, whose archive would take in itself while it is written; I/O errors while writing, after which the destination is removed; and links among the sources.
- SourceSwap.UploadSafe: a deploy that re-creates an empty source directory between the two renames is an interleaving and outside the model.
- Lifecycle.DeploymentRecord.Deploy: command lines, environment variables and the texts of the generated files are parameters or reduced to a result.
- Schedules and their job table (`scheduler_service.py`): a scheduled run is a backup followed by a retention pass; that jobs follow the `enabled` flag adds only easy members.
- Database dumps, Telegram delivery and the restore of dumps: results of outside commands.
- Connection URIs, runtime statistics and other display dictionaries of `helpers.py` and `docker_service.py`.
- Authentication, settings, migrations, random ports and passwords, the front end, and reply-direction packets.
