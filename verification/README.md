# OSDU SPI Stack, verified

`spi` provisions an OSDU environment on Azure and connects service repositories to it. Most
of its code calls `az`, `kubectl` and `gh`; what makes it more than a script are the small
reconcilers and state machines between those calls, which have to keep a promise across
retries, crashes, dry runs and whole histories of runs. This project models them and proves
what they keep, and, where a promise does not hold, exactly when it does.

Azure, the cluster and GitHub are abstract state: a map, a tag set, a list. Every command that
writes is one step, and a run carries the number of writes that go through before it is cut
off (`writes`), so one statement covers a failing command, a killed process and a finished
run. A query that may fail has its own flag. Code that changes state step by step is a class
whose methods are proved equal to a function of the old state; the promises are lemmas about
that function, over all inputs and all histories.

| files | subject |
|---|---|
| `Credentials`, `Reconciler`, `ReconcilerProperties`, `CredentialHistory`, `OwnIdentity` | federated credentials of the identities that repositories share or have of their own |
| `ResourceGroup`, `UpRun`, `EnvironmentHistory`, `SuffixHistory` | mode and name suffix of an environment, kept in resource-group tags |
| `Registry`, `ImageSelection`, `ImageOptions`, `ImageLock`, `ImageLockProperties`, `ImageLockContents`, `ImageLockHistory` | which images run, and the lock that remembers the choice |
| `Naming` | Azure resource names and the validator that bounds them |
| `Handoff`, `HandoffProperties`, `HandoffVariables` | repository secrets and variables, and moving a repository to another identity |
| `Rollout` | restarting deployments when their configuration changed |
| `SeedSecrets`, `KeyVault`, `Bootstrap` | generated passwords in the cluster and in the Key Vault |
| `Claims` | who a token names, for the CLI and for the gateway |
| `PartitionList`, `BicepOutputs`, `RoleScopes` | partition list round trip, output keys, role scopes |
| `Text` | string facts the others use |

What the proofs found about the code:

- A hand-made credential list can lose a subject that the stale snapshot shows as present; generated lists cannot (`StaleSnapshotLosesSubject`, `GeneratedRunCompletes`).
- Two services onboarded under one repository prefix share one set of credentials, and removing the first strands the second (`SecondSurvivesExactly`).
- A credential listing that fails is read as an empty one, and the limit of 20 is then not enforced (`BlindRunKeepsLimitExactly`, `LimitIsKeptExactly`).
- A role listing that fails makes the run create a second role; the earlier clusters keep their scope only if Azure refuses it (`ScopesAreKeptExactly`).
- A dry run whose second `az group exists` query fails on an existing group rewrites its tags: it drops the mode and everyone else's tags (`ModeIsKeptExactly`, `ForeignTagsKeptExactly`).
- When the first of these queries fails on an untagged group, a run deploys under a suffix it never records (`RunEndsTaggedExactly`, `UntaggedRunDeploys`).
- When the suffix tag cannot be read but the group is found, any run, also a dry one or one cut off later, writes a fresh suffix over it (`SuffixTagIsKeptExactly`).
- The empty suffix marker written for a legacy environment reads back as no tag; what keeps such an environment unsuffixed is that its vault is detected anew each time. The docstring of `_resolve_name_suffix` says otherwise; the model follows the code. One unanswered vault listing, also in a dry run, gives the environment a suffix for good (`LegacyIsKeptExactly`, `LegacyRunExactly`).
- `spi up` does not read the image lock: without options it goes back to the default images (`UpKeepsChoiceExactly`).
- A first handoff stopped between its first and third secret is not repaired by running it again, nor one stopped later by handing over another identity, and a re-home cut off on the way is not undone by handing over the old identity, unless forced (`FirstHandoffHealsExactly`, `RehomeHealsExactly`).
- A rollout stopped between restart and record is not repaired by going back to the recorded configuration (`RepairedExactly`).
- A seed read that fails replaces the seed (`SeedIsKeptExactly`), and when it is the second read of a deployment the Key Vault and the cluster end with different passwords (`VaultMatchesExactly`).
- A partition called `common`, or what clipping leaves of that word, takes the common storage account's name (`CommonCollidesExactly`).
- A storage name that fits does not make the Cosmos name fit once the environment name has more than ten separators, against the comment in `src/spi/config.py:36` (`StorageImpliesTheOthersExactly`); with more than 17, two partitions can share one Cosmos name (`CosmosNamesAreDistinctExactly`, `ClippedAccountsCollide`).

## Model

| member | source | states |
|---|---|---|
| `Credentials.NameIsInjective` | src/spi/onboard.py:558-583 | a generated credential name determines service and kind, whatever the service is called |
| `Credentials.SubjectIsInjective` | src/spi/onboard.py:558-583 | a generated subject determines repository prefix and kind |
| `Credentials.OneSubjectEnding` | src/spi/onboard.py:571-582 | no subject carries the endings of two kinds |
| `Credentials.GeneratedIsDistinct` | src/spi/onboard.py:558-583 | the four names and the four subjects of a repository are pairwise distinct |
| `Credentials.Entries` | src/spi/onboard.py:558-583 | without a resolved prefix generation fails; otherwise it yields pull request and three branches, in order |
| `Reconciler.ManagedIdentity.Reconcile` | src/spi/onboard.py:586-678 | the loop over the real store, with stale snapshot, shadow counter, dry run, limit and cut-off, is the step function folded over the entries |
| `Reconciler.ManagedIdentity.ReconcileEntry` | src/spi/onboard.py:611-676 | one turn keeps, updates, creates or refuses as the snapshot and counter say |
| `Reconciler.ManagedIdentity.Remove` | src/spi/onboard.py:693-753 | removal deletes exactly the present names, and only them; a missing identity is nothing to do; a failing listing stops the run |
| `ReconcilerProperties.LoopState` | src/spi/onboard.py:606-678 | in every loop state the store is the overwritten snapshot, the counter is the store's size, and the limit is never passed |
| `ReconcilerProperties.ReconcileFrame` | src/spi/onboard.py:606-678 | names outside the desired list keep their subject wherever the run stops |
| `ReconcilerProperties.SubjectsStayDistinct` | src/spi/onboard.py:606-678 | pairwise distinct subjects stay so in every loop state |
| `ReconcilerProperties.RefusedExactly` | src/spi/onboard.py:63 | an uninterrupted run is refused if and only if the store it aims for is over the limit and larger than the one it found |
| `ReconcilerProperties.CompleteExactly` | src/spi/onboard.py:586-678 | a finished run leaves every desired subject in the store if and only if none sat only under names due for update |
| `ReconcilerProperties.StaleSnapshotLosesSubject` | src/spi/onboard.py:606-650 | a concrete store and list for which a finished run loses a desired subject |
| `ReconcilerProperties.GeneratedStrandsNothing` | src/spi/onboard.py:558-678 | for generated lists no subject can be stranded: each name holds its own kind's ending |
| `ReconcilerProperties.KindedIsKept` | src/spi/onboard.py:558-678 | every prefix of every run keeps lane names on subjects of their own kind |
| `ReconcilerProperties.GeneratedRunCompletes` | src/spi/onboard.py:558-678 | a finished run for a generated list leaves all four subjects in the store despite the stale snapshot |
| `ReconcilerProperties.SecondRunIsNoOp` | src/spi/onboard.py:586-678 | running it again performs no write, on any budget |
| `ReconcilerProperties.DryRunAgrees` | src/spi/onboard.py:610-653 | whatever snapshot was seen, a dry run changes nothing, plans exactly the real run's writes and is refused at the same entry |
| `ReconcilerProperties.LogAccountsForStore` | src/spi/onboard.py:610-678 | whatever snapshot was seen, replaying a run's log gives exactly the store it left |
| `ReconcilerProperties.LogIsWhatWasMissing` | src/spi/onboard.py:610-676 | the log, written or planned, is exactly the missing subjects dealt with, in the list's order, each an update if its name was listed and a create if not |
| `ReconcilerProperties.BlindRun` | src/spi/onboard.py:591-678 | after a failed listing a run writes every entry of the list in order, as far as its budget goes, and is never refused |
| `ReconcilerProperties.BlindRunKeepsLimitExactly` | src/spi/onboard.py:63 | such a run finishes if and only if its budget covers the list, and keeps the limit if and only if the store's names and those it reaches fit into it together |
| `ReconcilerProperties.RemovedShape` | src/spi/onboard.py:722-751 | removal leaves the store without the names when it finishes, and a part of the store in between |
| `ReconcilerProperties.PresentAreFound` | src/spi/onboard.py:724-751 | a removal reports exactly the entries whose names were there |
| `ReconcilerProperties.PresentInOrder` | src/spi/onboard.py:724-751 | in the list's order |
| `ReconcilerProperties.ReconcileThenRemove` | src/spi/onboard.py:586-753 | reconcile, stopped anywhere, and then remove gives the starting store without that service's names |
| `CredentialHistory.AnyHistoryHeals` | src/spi/onboard.py:1491-1518 | after any sequence of runs cut off anywhere and with any listings failed, the next run that sees its listing and finishes is complete, and its repetition writes nothing |
| `CredentialHistory.LimitIsKeptExactly` | src/spi/onboard.py:591-678 | from a store within the limit a run, wherever it is cut off, keeps it there if and only if it saw its listing or finds room for the names it reaches |
| `CredentialHistory.LimitHolds` | src/spi/onboard.py:63 | over any history, cut off anywhere, in which the runs with a failed listing have room, the limit of 20 holds |
| `CredentialHistory.BlindRunAgrees` | src/spi/onboard.py:591-678 | where fewer than five services are active or this one is, a run with a failed listing ends like one without |
| `CredentialHistory.ExactHistory` | src/spi/onboard.py:571-753 | over services with distinct prefixes the store holds exactly four credentials per active service and at most five are active |
| `CredentialHistory.NextOnboard` | src/spi/onboard.py:63 | in such a history an onboard is refused if and only if the service is new and five are active, before any write; re-onboarding or renaming always finishes |
| `CredentialHistory.SecondSurvivesExactly` | src/spi/onboard.py:612-620 | of two services onboarded in turn, the second keeps its credentials when the first is removed if and only if their prefixes differ |
| `OwnIdentity.OwnHistory` | src/spi/onboard.py:681-682 | on a service's own identity, over any runs with any prefixes, cut-offs and failed listings, only its four names appear and no run is refused |
| `OwnIdentity.FinishedRunIsExact` | src/spi/onboard.py:681-682 | the next run that sees its listing and finishes leaves exactly the four credentials of its prefix |
| `RoleScopes.RoleDefinition.Ensure` | src/spi/onboard.py:840-938 | role lookup, merge and write, listed or not: the new definition, and what makes the run fail without a change |
| `RoleScopes.Merge` | src/spi/onboard.py:860-866 | the loop over scopes and seen set equals the merge |
| `RoleScopes.MergedIsFirstAppearances` | src/spi/onboard.py:860-866 | the merge keeps exactly the first appearance of each scope, ignoring case, in order |
| `RoleScopes.ScopesAreFirstSeen` | src/spi/onboard.py:849-892 | after any sequence of clusters the role lists each once, in first-seen order, under its first id |
| `RoleScopes.NeverDropsAScope` | src/spi/onboard.py:849-892 | for any role there is, an onboard makes its scopes the first appearances of the earlier ones and the cluster; a list without repeats stays in place |
| `RoleScopes.RepeatChangesNothing` | src/spi/onboard.py:849-892 | from any role or none, onboarding again a cluster that is covered by then, in any spelling, changes nothing |
| `RoleScopes.ScopesAreKeptExactly` | src/spi/onboard.py:849-892 | an onboard keeps every scope of an existing role if and only if it sees the role, Azure refuses a second one of that name, or there was no other scope |
| `Handoff.Repository.WriteHandoff` | src/spi/onboard.py:1311-1398 | decision and writes, cut off anywhere, equal the planned list applied to the repository; a dry run lists that plan and changes nothing |
| `Handoff.Repository.SendBoth` | src/spi/onboard.py:1331-1345 | no variable is written before every secret went through |
| `Handoff.CutConcat` | src/spi/onboard.py:1331-1398 | a cut-off run over two lists is the cut first list, then what the rest of the budget allows of the second |
| `HandoffProperties.AttemptEffect` | src/spi/onboard.py:1311-1398 | which secrets and which client variable a run leaves, for every cut-off point |
| `HandoffProperties.LockStepExactly` | src/spi/onboard.py:1301-1352 | a completed handoff ends in lock-step if and only if it rewrote the secrets or they matched already |
| `HandoffProperties.CompletedHandoff` | src/spi/onboard.py:1301-1352 | from a linked repository every completed handoff ends with secrets and variable equal to the target, also after the client secret was lost |
| `HandoffProperties.FirstHandoffHealsExactly` | src/spi/onboard.py:1301-1352 | after a cut-off first handoff the next completed one, to any identity, is in lock-step if and only if nothing was written, it repeats a target whose three secrets were, the variable was written, or it is forced or sees no secret |
| `HandoffProperties.RehomeHealsExactly` | src/spi/onboard.py:1301-1352 | after a cut-off re-home the next completed handoff, to any identity, is in lock-step if and only if nothing was written, the variable had moved, it leaves the old identity, or it is forced or sees no secret |
| `HandoffProperties.RehomeMovesAtOnce` | src/spi/onboard.py:1311-1352 | in a re-home the variable moves only with all secrets in place |
| `HandoffProperties.HistoryStaysInStep` | src/spi/onboard.py:1301-1352 | over any history of handoffs cut off anywhere and lost secrets, in which what follows a cut-off meets that condition, each completed handoff ends in lock-step |
| `HandoffVariables.CompletedVariables` | src/spi/onboard.py:1344-1398 | after a completed handoff every variable shows this handoff's value, those of an identity no longer used are gone, all others are as before |
| `HandoffVariables.FixedByName` | src/spi/onboard.py:1347-1366 | after a completed handoff each of the eight fixed variables, by name, holds its own input |
| `HandoffVariables.NoDataByName` | src/spi/onboard.py:1367-1394 | the four of the no-data identity hold its fields, or are gone when the profile does not use it |
| `HandoffVariables.OptionalByName` | src/spi/onboard.py:1395-1398 | vault and gateway hold what is given and are left alone when nothing is |
| `HandoffProperties.LinkReads` | src/spi/onboard.py:1266-1283 | the linked client is the variable without surrounding white space, and nothing without the variable |
| `ResourceGroup.Environment.ResolveNameSuffix` | src/spi/cli.py:339-387 | tag, legacy vault, fresh suffix: what is returned, what is written, and where a failing write stops it |
| `ResourceGroup.Environment.ResolveApplicationInsights` | src/spi/cli.py:390-461 | tag, contradiction, empty group, inference: what is returned, what is refused, and what is written |
| `ResourceGroup.Environment.CreateResourceGroup` | src/spi/azure_infra.py:115-151 | an existing group is left alone; otherwise the tag set is replaced by the run's own |
| `ResourceGroup.Environment.Deploy` | src/spi/azure_infra.py:987-1024 | cluster, vault recovery and main template in order, stopping at the first failure; a template that fails may leave resources and its record |
| `ResourceGroup.Environment.RunUp` | src/spi/cli.py:512-690 | a whole `up`, real or dry, refused or cut off anywhere, equals its stages in order |
| `UpRun.ArrivalAtCreate` | src/spi/cli.py:614-660 | when a run arrives at the create step, what it brings there, and what it has changed on the way, from the group, the options and the answers alone |
| `UpRun.DeploysExactly` | src/spi/azure_infra.py:987-1024 | a run adds one deployment, under the suffix it resolved first, if and only if it is real, arrives and has the writes for it, or leaves the record of a failed one |
| `EnvironmentHistory.RunKeepsModeExactly` | src/spi/cli.py:390-461 | a run keeps "resources imply a mode tag, every main deployment used it, a set mode stays" if and only if it is not a dry run that replaces the tags |
| `EnvironmentHistory.ModeIsImmutable` | src/spi/cli.py:390-461 | over any history from a blank environment the mode some run set is the mode of every later tag and deployment |
| `EnvironmentHistory.ContradictionDeploysNothing` | src/spi/cli.py:405-415 | a request against the tagged mode does not finish, deploys nothing and leaves the mode |
| `EnvironmentHistory.DryHistoryStaysBlank` | src/spi/azure_infra.py:126-135 | dry runs alone create no resource and set no mode |
| `EnvironmentHistory.DryRunsLeaveModeOpen` | src/spi/cli.py:418-461 | after dry runs only, a real run deploys once in the mode it asks for, off by default |
| `EnvironmentHistory.ModeIsKeptExactly` | src/spi/azure_infra.py:115-151 | a run on any group with a mode loses it if and only if it is a dry run that gets to the create step with a suffix and a write left, and whose `exists` query there is unanswered |
| `EnvironmentHistory.AdoptedExactly` | src/spi/cli.py:418-461 | a real run on resources without a mode adopts for good the mode they show if and only if it does not ask for the other; then it is refused and deploys nothing |
| `EnvironmentHistory.OffStaysQuiet` | src/spi/azure_infra.py:987-1024 | from any group whose mode is off no history creates a telemetry resource |
| `EnvironmentHistory.UntaggedModeExactly` | src/spi/cli.py:418-461 | the mode of a group without the tag is what its resources and last record show, or the request when it is empty; there is none if and only if a needed query fails or the request contradicts them |
| `EnvironmentHistory.RecordedModeReadsBack` | src/spi/azure_infra.py:358-377 | a recorded switch reads back as it was written; an older record reads as whether its name is not blank |
| `EnvironmentHistory.ModeTagReads` | src/spi/azure_infra.py:228-239 | white space and case of the mode tag do not matter; blank or none is no mode, and anything else is refused |
| `EnvironmentHistory.TaggedModeGoverns` | src/spi/azure_infra.py:987-1024 | from any group that carries a mode no history changes it, deployments are only added, and every added one uses it |
| `SuffixHistory.SuffixIsStable` | src/spi/cli.py:339-387 | over any history the suffix some run tagged is what every later run resolves and every main deployment used |
| `SuffixHistory.SuffixTagReads` | src/spi/azure_infra.py:178-184 | white space around the suffix tag does not matter; blank or None is no suffix |
| `SuffixHistory.SuffixTagIsKeptExactly` | src/spi/cli.py:350-386 | any run, real or dry and stopped anywhere, keeps a set suffix tag if and only if it reads it, or fails to and gets to no write over it |
| `SuffixHistory.SuffixIsSparedExactly` | src/spi/cli.py:350-386 | any run on a tagged group keeps the tag and deploys under nothing else if and only if it reads the tag, or neither writes over it nor deploys |
| `SuffixHistory.TaggedSuffixGoverns` | src/spi/cli.py:339-387 | from any group that carries a suffix, over any history of such runs the tag stays and every added deployment uses it |
| `SuffixHistory.SuffixIsKeptExactly` | src/spi/cli.py:339-387 | any run keeps tag and contents on one suffix if and only if it asks for the suffix with answered queries, or does nothing that depends on it |
| `SuffixHistory.RunEndsTaggedExactly` | src/spi/cli.py:374-387 | a run that deploys, or fails to half-way, ends with that suffix as the tag if and only if the group is new, one of the two `exists` queries leads to a tag, or the tag was read |
| `SuffixHistory.UntaggedRunDeploys` | src/spi/cli.py:378-386 | a resumed group whose first `exists` query fails: the run finishes and deploys without any tag |
| `SuffixHistory.LegacyIsKeptExactly` | src/spi/cli.py:357-386 | any run, real or dry and stopped anywhere, leaves a legacy group one if and only if it sees the vault, or gets to no write of a fresh suffix |
| `SuffixHistory.LegacyRunExactly` | src/spi/cli.py:357-387 | a run that deploys on a legacy group, marked or not, does so unsuffixed if and only if the listing that shows its vault is answered |
| `SuffixHistory.LegacyIsSparedExactly` | src/spi/cli.py:357-387 | any run leaves a legacy group one and deploys nothing suffixed if and only if it sees the vault, or neither tags nor deploys |
| `SuffixHistory.LegacyStaysUnsuffixed` | src/spi/azure_infra.py:407-433 | over any history of such runs a legacy group stays one and is only deployed to unsuffixed |
| `SuffixHistory.ForeignTagsKeptExactly` | src/spi/azure_infra.py:126-151 | on any existing group a run keeps everyone else's tags if and only if it finds the group at the create step, does not get to write there, or has no tag to send |
| `Registry.FetchAll` | src/spi/images.py:223-261 | the pagination loop returns the whole list in order after n/100 + 1 requests |
| `Registry.NewestIsFirstNewest` | src/spi/images.py:284 | the maximum picked is the first of the newest |
| `Registry.HashesAreCommits` | src/spi/images.py:280 | a name counts as immutable if and only if it is forty lower-case hexadecimal digits, with at most a newline after them |
| `Registry.KeptInOrder` | src/spi/images.py:279-280 | each filter keeps exactly the tags with a name, or with a hash for a name, at their places in the order |
| `Registry.NewestImmutableIsPicked` | src/spi/images.py:278-284 | of the list as the registry gave it the pick is the first newest hash, or the first newest named tag when there is no hash; nothing is picked if and only if no tag has a name |
| `Registry.ResolveImage` | src/spi/images.py:287-307 | over both paged lists: the first repository of the exact name, and in it that tag; fails exactly when either is missing |
| `ImageSelection.ResolvedIsWellFormed` | src/spi/cli.py:221-303 | what the resolver returns from a well-formed selection is well-formed, and the configuration accepts it unchanged |
| `ImageOptions.GivenOptionsComeOut` | src/spi/cli.py:236-303 | every option that is given comes out, stripped, and takes the source it belongs to |
| `ImageOptions.MissingOptionsKeep` | src/spi/cli.py:252-301 | one that is not keeps what is used, or takes the default of a source that is new |
| `ImageOptions.RefusedExactly` | src/spi/cli.py:231-300 | the resolver refuses if and only if a value is blank, selectors are combined, or an option does not belong to the source asked for, whatever the deployment uses |
| `ImageOptions.RefusedWith` | src/spi/cli.py:231-300 | the refusal is the first that applies |
| `ImageOptions.AcceptedExactly` | src/spi/config.py:163-174 | of trimmed selections the configuration accepts exactly the well-formed ones |
| `ImageOptions.ConfiguredIsComplete` | src/spi/cli.py:136-159 | built from a source alone, or from a source and a ref, a configuration is complete |
| `ImageSelection.AcceptedUnchanged` | src/spi/config.py:163-174 | the configuration builder and validator leave every well-formed selection as it is |
| `ImageSelection.NoOptionsIsIdentity` | src/spi/cli.py:221-303 | without options a well-formed selection resolves to itself |
| `ImageSelection.ResolveIsIdempotent` | src/spi/cli.py:221-303 | giving the same options again changes nothing |
| `ImageLock.ResolveImages` | src/spi/images.py:350-394 | all services are tried; any failure gives the list of all failures, otherwise every image |
| `ImageLock.EveryFailureIsNamed` | src/spi/images.py:370-394 | each failed service has its line in the error |
| `ImageLockContents.OnlyFailuresAreNamed` | src/spi/images.py:370-394 | the error has no line but those of failed services |
| `ImageLockContents.ErrorLineNamesService` | src/spi/images.py:389-391 | a line names its service once, first, and ends with the message |
| `ImageLock.ResolvedAreTheImages` | src/spi/images.py:350-394 | each resolved service maps to its own image |
| `ImageLock.Render` | src/spi/images.py:412-451 | the data map of the lock equals header plus five keys a service; tag and ref together are refused |
| `ImageLock.LiveLock.RefreshImages` | src/spi/cli.py:875-930 | read, resolve, fetch, render, apply: the live lock becomes the refreshed one or stays as it was |
| `ImageLock.LiveLock.DeployImages` | src/spi/deploy.py:465-497 | the image part of `up`: options through resolver and configuration to the lock, without reading the live one |
| `ImageLockProperties.HeaderIsNoServiceKey` | src/spi/images.py:425-451 | no service, whatever its name, overwrites a selection key |
| `ImageLockProperties.ServiceKeyIsInjective` | src/spi/images.py:118-127 | a key determines service and field |
| `ImageLockProperties.RenderedImagesAreTheirOwn` | src/spi/images.py:412-451 | every key of every service holds that service's own image |
| `ImageLockContents.RenderedHeader` | src/spi/images.py:434-442 | a rendered lock records source, organization, tag, ref and branch of its selection, the time and the count, by name |
| `ImageLockContents.RenderedService` | src/spi/images.py:443-451 | every service is pinned by digest, or by tag when there is none, with its details beside it |
| `ImageLockContents.RenderedExactly` | src/spi/images.py:424-432 | rendering is refused if and only if a tag comes with a ref or with the community source |
| `ImageLockContents.LockKeyLooks` | src/spi/images.py:124-127 | a service's key is its name in upper case with underscores |
| `ImageLockContents.OldLockReads` | src/spi/cli.py:317-336 | a lock without a source is read by its ref, its branch or the default branch |
| `ImageLockContents.SparseLockReads` | src/spi/cli.py:317-333 | a GHCR lock that lacks something is completed by the defaults; an unknown source is refused |
| `ImageLockProperties.ReadAfterRender` | src/spi/cli.py:306-336 | reading a rendered lock gives the selection back |
| `ImageLockProperties.RefreshReadsAsWanted` | src/spi/cli.py:875-930 | a refresh leaves the lock alone or writes one that reads as the wanted selection |
| `ImageLockProperties.FailedServiceKeepsLock` | src/spi/images.py:389-394 | one service that fails to resolve leaves the whole lock unchanged |
| `ImageLockHistory.HistoryReadsAsChosen` | src/spi/cli.py:875-930 | over any `reconcile` and `up`, with any options and failures, the lock stays well-formed and reads as the choice the options determine |
| `ImageLockHistory.UpKeepsChoiceExactly` | src/spi/cli.py:624-637 | an `up` without options keeps a choice if and only if it writes no lock or the choice is the default |
| `ImageLockHistory.ChoiceIsPreserved` | src/spi/cli.py:875-930 | the choice outlives any number of option-free runs of `reconcile`, and of `up` under that condition |
| `ImageLockHistory.ExplicitChoiceSticks` | src/spi/cli.py:221-303 | an explicit choice that lands holds through all later runs that spare it |
| `ImageLockHistory.GivenTagSticks` | src/spi/cli.py:221-303 | a tag given to either command is the lock's tag through all later runs of `reconcile` without options |
| `ImageLockHistory.UnreadLockExactly` | src/spi/cli.py:875-889 | a `reconcile` that cannot read the lock goes on if and only if a source, tag, ref or branch is given |
| `Naming.PartitionError` | src/spi/config.py:184-204 | the validator passes if and only if every partition is alphanumeric and fits |
| `Naming.ValidatesExactly` | src/spi/config.py:176-204 | the validator accepts exactly the non-empty lists of distinct alphanumeric names that leave room for the suffix |
| `Naming.SanitizedExactly` | src/spi/azure_infra.py:86-89 | cleaning drops every hyphen and underscore and nothing else |
| `Naming.StorageIsUnclipped` | src/spi/azure_infra.py:73-94 | for validated input no partition storage or vault name is clipped |
| `Naming.StorageNamesAreDistinct` | src/spi/azure_infra.py:73-94 | storage names of a validated list are pairwise distinct |
| `Naming.SuffixesSeparate` | src/spi/azure_infra.py:73-80 | names with different suffixes differ even when the base was clipped |
| `Naming.CommonCollidesExactly` | src/spi/azure_infra.py:843-849 | a partition takes the common storage name if and only if it is what clipping leaves of `common` |
| `Naming.LegacyCommonCollidesExactly` | src/spi/azure_infra.py:843-849 | without a suffix, if and only if it is called `common` |
| `Naming.CosmosFitsExactly` | src/spi/azure_infra.py:92-107 | Cosmos and Service Bus names are unclipped if and only if environment and partition have at most 25 and 34 characters together |
| `Naming.StorageImpliesTheOthersExactly` | src/spi/config.py:31-37 | the storage bound implies the other bounds for every partition if and only if the environment has at most ten separators |
| `Naming.AccountsCollideExactly` | src/spi/azure_infra.py:92-107 | two partitions get one account name if and only if they are equal or look alike up to the cut |
| `Naming.CosmosNamesAreDistinctExactly` | src/spi/azure_infra.py:98-101 | the Cosmos names of every validated list are pairwise distinct if and only if the environment has at most 17 separators |
| `Naming.BusNamesAreDistinctExactly` | src/spi/azure_infra.py:92-95 | the Service Bus names, if and only if it has at most 23 |
| `Naming.ClippedAccountsCollide` | src/spi/azure_infra.py:92-107 | a validated environment and two partitions that share one Cosmos name |
| `Rollout.Namespace.ApplyConfig` | src/spi/deploy.py:103-175 | apply, compare, restart, record: the new cluster state and whether the run finished, for every stop |
| `Rollout.RunDoesExactly` | src/spi/deploy.py:103-175 | what a run applies, restarts and records, and whether it finishes, from its answers and its budget |
| `Rollout.RecordedHashIsTrue` | src/spi/deploy.py:116-175 | over runs that finish or stop before the restart, a recorded hash of the applied configuration means the pods loaded it |
| `Rollout.StopStrands` | src/spi/deploy.py:150-175 | a stop between restart and record leaves pods on a configuration the record does not name |
| `Rollout.RepairedExactly` | src/spi/deploy.py:116-175 | a later finished run repairs that if and only if its configuration is not the recorded one |
| `Rollout.PodStartHonestExactly` | src/spi/deploy.py:116-175 | a pod that starts on its own keeps the record true if and only if nothing is recorded or the applied configuration is |
| `SeedSecrets.ClusterSecrets.GetOrCreateSeed` | src/spi/secrets.py:100-116 | a complete seed is returned without a write; missing keys are generated and written back |
| `SeedSecrets.ClusterSecrets.EnsureSecrets` | src/spi/secrets.py:195-201 | the derived secrets are applied in order from that one seed, up to the cut-off |
| `SeedSecrets.FilledShape` | src/spi/secrets.py:106-113 | filling keeps every existing key and generates only missing ones |
| `SeedSecrets.SeedNeverChanges` | src/spi/secrets.py:100-116 | over any cut-off runs with answered reads no seed key changes, and derived secrets that match the seed go on matching it |
| `SeedSecrets.CompletedEnsure` | src/spi/secrets.py:195-201 | a completed run brings seed and all eight secrets together, whatever was there and also when its own read failed |
| `SeedSecrets.DatabaseSecrets` | src/spi/secrets.py:119-173 | after a completed run each database user has its own password, and the metadata connection logs in with Airflow's |
| `SeedSecrets.ServiceSecrets` | src/spi/secrets.py:119-192 | Airflow, Redis and search secrets hold their own passwords, and search server and clients the same one |
| `SeedSecrets.VaultGetsTheSamePasswords` | src/spi/deploy.py:523-530 | an answered second seed read of a deployment writes nothing and returns the seed the secrets were made of, whatever was there before |
| `SeedSecrets.SeedIsKeptExactly` | src/spi/secrets.py:78-93 | for any seed with a key that a fresh one would not repeat, a run that writes keeps it if and only if the read was answered |
| `KeyVault.Vault.Attempt` | src/spi/deploy.py:355-394 | only a refusal by RBAC, on the first secret, inside the window is retried; at most ten times |
| `KeyVault.Vault.WriteAll` | src/spi/deploy.py:355-396 | the vault always holds a prefix of the list, all of it on success; why a failed run gave up |
| `KeyVault.Vault.WriteBootstrapSecrets` | src/spi/deploy.py:310-396 | the same for the three fixed secrets and three a partition, in at most 3n + 13 attempts |
| `KeyVault.SecretNamesAreDistinct` | src/spi/deploy.py:336-349 | for distinct partitions no secret of the list overwrites another |
| `KeyVault.WrittenHolds` | src/spi/deploy.py:336-394 | after n writes each of the first n secrets holds its own value |
| `KeyVault.VaultHoldsThePasswords` | src/spi/deploy.py:336-349 | a complete write gives every partition the search password, and redis its own |
| `KeyVault.VaultHoldsFixed` | src/spi/deploy.py:336-340 | after a complete write storage endpoint, redis host and redis password stand under their names |
| `KeyVault.VaultHoldsParts` | src/spi/deploy.py:341-349 | and every partition's search endpoint, user and password under the partition's |
| `Bootstrap.VaultMatchesCluster` | src/spi/deploy.py:495-530 | with an answered second seed read the passwords in the vault are those in the cluster's secrets, whatever either held before |
| `Bootstrap.VaultMatchesExactly` | src/spi/deploy.py:523-530 | for fresh passwords unlike those in use, vault and cluster match if and only if that read was answered |
| `Bootstrap.PartitionMatchesExactly` | src/spi/deploy.py:523-530 | the same for one partition's search password |
| `Claims.IssuersAreRead` | src/spi/templates.py:203-214 | both sides take each accepted issuer for the same token version, substring or Lua pattern |
| `Claims.ProjectionAgrees` | src/spi/identity.py:41-56 | for every accepted token the CLI projects what the gateway projects from the non-empty claims |
| `Claims.ProjectionAgreesExactly` | src/spi/templates.py:260-309 | on the raw claims the two agree if and only if no empty claim stands in the way |
| `Claims.ProjectedClaims` | src/spi/identity.py:41-56 | which claim is projected, and when none is, for both token versions |
| `Claims.ProjectedUserIds` | src/spi/identity.py:59-72 | the list with the appended object id equals the specified creator list |
| `Claims.CreatorIds` | src/spi/identity.py:59-72 | the list starts with the projection, names a user's object id and has no two entries equal ignoring case |
| `Claims.SecondEntryExactly` | src/spi/identity.py:59-72 | there is a second entry, the stripped object id, if and only if the token is a user's and that id is there and not named yet |
| `Claims.CreatorIsKnownUnderV2` | src/spi/identity.py:59-72 | the list names what a v2 token of the same user projects if and only if that token repeats the name, or the object id is trimmed or already named |
| `PartitionList.ParsePartitions` | src/spi/info.py:109-128 | the flag-driven loop over the lines equals the recursive reading of the text |
| `PartitionList.RoundTripExactly` | src/spi/templates.py:314-337 | for single-line names the printed list is read back if and only if every name is non-empty and trimmed |
| `PartitionList.ValidatedRoundTrip` | src/spi/info.py:109-128 | every validated list is read back in order, whatever the creator ids |
| `PartitionList.ListIsFramed` | src/spi/info.py:109-128 | the list is read the same whatever lines follow it, and precede it without its key |
| `PartitionList.SplitAtBreak` | src/spi/info.py:118 | every line break ends a line, a carriage return with its line feed only once |
| `BicepOutputs.Reshape` | src/spi/azure_infra.py:899-950 | the dictionary built from shared outputs and zipped arrays equals its specification |
| `BicepOutputs.KeyIsInjective` | src/spi/azure_infra.py:936-948 | no two pairs of partition and kind share a key |
| `BicepOutputs.OwnElement` | src/spi/azure_infra.py:936-948 | for distinct partitions every key holds its own element of its own array, whatever the lengths |
| `BicepOutputs.ElementsByName` | src/spi/azure_infra.py:936-948 | each array's element stands under its own kind's key of its own partition, by name |
| `BicepOutputs.PlatformByName` | src/spi/azure_infra.py:907-916 | identity, vault, registry and graph keys hold the outputs of their names |
| `BicepOutputs.TelemetryByName` | src/spi/azure_infra.py:919-925 | so do DNS and telemetry |
| `BicepOutputs.CommonByName` | src/spi/azure_infra.py:917-918 | so does the common storage account unless a partition is called `common` |
| `BicepOutputs.NoOtherKeys` | src/spi/azure_infra.py:899-950 | there are no other keys |
| `BicepOutputs.SharedKeysExactly` | src/spi/azure_infra.py:907-948 | a shared key keeps its value, the common storage ones if and only if no partition called `common` has another element there |

## Left out

- Subprocesses, HTTP, authentication and output parsing: each command is a step that succeeds, fails or ends the run.
- JSON, YAML, base64, JWT decoding, regular expressions and SHA-256: assumed; a digest is a free constructor, so hashes do not collide.
- Case folding beyond the ASCII letters A to Z, and claims that are not strings.
- Two operators working on one environment at the same time: the code takes no lock.
- `spi down`, its use of `_resolve_name_suffix`, and groups Azure is still deleting.
- A command that stops half-way is modelled for templates only; all others change everything they name or nothing.
- The location check of an existing resource group, role assignments with their retries, and entitlements seeding.
- Azure's own checks: the store accepts what a command sends and keeps tags when a create command names none.
- The contents of GHCR image lookups; `ImageLock` takes each service's outcome as given.
- Bicep templates, Helm charts and Flux: which resources the main template creates is a parameter.
- Gremlin, container registry and DNS names: they follow the patterns of the names that are modelled.
- The `x-app-id` header of the gateway filter, and its removal of headers a caller sent.
- Prompts, tables, status pages, the ingress and update commands.
- EnvironmentHistory.ModeIsImmutable: holds for histories in which no dry run replaces the tags of a group with a mode; `ModeIsKeptExactly` states which runs do.
- EnvironmentHistory.TaggedModeGoverns: holds for the same histories.
- EnvironmentHistory.OffStaysQuiet: holds for the same histories, and for a main template that creates telemetry only when its switch is on.
- SuffixHistory.SuffixIsStable: holds for histories whose runs keep tag and contents on one suffix; `SuffixIsKeptExactly` states for every run whether it does.
- SuffixHistory.TaggedSuffixGoverns: holds for histories whose runs spare the suffix; `SuffixIsSparedExactly` states which do.
- SuffixHistory.LegacyStaysUnsuffixed: holds for histories whose runs spare the legacy group; `LegacyIsSparedExactly` states which do.
- CredentialHistory.LimitHolds: runs with a failed listing need room for their names; `LimitIsKeptExactly` states that they do.
- HandoffProperties.HistoryStaysInStep: what follows a cut-off handoff meets the condition of `FirstHandoffHealsExactly` or `RehomeHealsExactly`, without which it need not heal.
- RoleScopes.RoleDefinition.Ensure: whether Azure refuses to create a role under a name that exists is a parameter, and a second role of one name is seen as the only one.
- Rollout.RecordedHashIsTrue: pods start through the restart command only, because a pod that starts on its own loads what is applied at that moment; `PodStartHonestExactly` states what that does.
- KeyVault.Vault.WriteAll: each sleep advances the clock by exactly 30 seconds and each attempt takes any time at all.
- PartitionList.RoundTripExactly: names with line breaks are outside, because the block they are printed into then is no longer the one modelled.
