# CDS: a verified model of its state, staging and reconciliation logic

CDS is a command line program with a gRPC agent. This project models the parts
of it that keep state consistent, and proves what they promise:

- **The state store** (`Text`, `KeyedMerge`, `StoreModel`, `StoreLaws`,
  `StoreLists`, `StoreNormal`, `StoreRecords`, `StoreOps`, `StoreRuns`,
  `StoreEffects`, `StoreCommands`, `StateStore`): the normaliser that runs on
  every load and save, every mutator between them, and the drain and host
  removal commands. `StateStore.Store` is the object with its loops; the other
  modules give the meaning of each loop and mutator and the theorems about them.
- **Artifact staging** (`Deployment`, `ArtifactPlan`, `ArtifactClient`,
  `ArtifactServer`, `UploadInterleaving`, `UploadHistory`): planning, the
  client's chunk loop, the agent's receive loop with temporary file, checks and
  rename, and many uploads at once.
- **Identifiers and paths** (`PercentEncoding`, `Paths`, `PathLaws`, `Identifiers`,
  `StagingPaths`): percent-encoding (section 2.1 of RFC 3986), lexical path
  cleaning, canonical identifiers and the staging tree of a project.
- **The SSH client configuration** (`SshEntry`, `SshConfig`): the editor of
  managed blocks inside a user's file.
- **Reconciliation** (`Reconcile`, `ReconcileTheorems`): bringing the local
  container list and the SSH blocks into agreement with what the agent lists.
- **The agent registry** (`Addresses`, `AgentRegistry`), and two printer/parser
  pairs (`Shell`, `Inspect`).

## How the model reads the program

- Strings are sequences of characters; trimming and case folding are ASCII.
  Names inside identifiers are byte strings (characters below 256), as Go's are.
- A nil list is the empty list; a nil entry of a list is a record with a blank
  name (the program skips both in the same way).
- JSON and YAML are lossless. `url.Parse` is a function parameter with the laws
  `Addresses.UrlLaws`: a URL does not start with a colon, and parsing what was
  printed with a lowered host gives the same host and the same text.
- The digest is a function parameter; it is injective, and never empty, where a
  statement says so.
- The file system is a map from path to bytes with an atomic rename. Operating
  system failures, the name of the temporary file (creating it fails when the
  name is taken), the agent's listings and its answers to requests are
  parameters, so every statement holds for all of them. The histories kept in
  `UploadInterleaving` (chunks received, renames done) are there for the
  statements.
- In `Reconcile` the host name and identity file of SSH entries are parameters.
- A configuration names a Dockerfile or none; whether its path can be resolved,
  whether default sources exist and what all of them hold are parameters.

## What turned out not to hold

Each of these is stated exactly, next to the condition under which the expected
property does hold.

- A resource identifier is a fixed point of normalisation except for the name
  `.`, where path joining removes the last segment (`Identifiers.ResourceFixedPoint`,
  `Identifiers.ResourceForm`), and the name `..` loses its kind, so that all such
  resources share one identifier (`Identifiers.ResourceInjective`); a plain path
  that cleaning moves into `resource/` is a fixed point only if it is a canonical
  spelling (`Identifiers.ProperFixedPoint`).
- Upserting, under one registered host's name, an agent that runs on another
  registered host loses the new agent when its host stands later in the list
  (`AgentRegistry.UpsertLost`).
- An address such as `[abc]://x` belongs to host `abc` but is stored as
  `abc://x`, which belongs to host `x` (`Addresses.StoredElsewhere`);
  `Addresses.SettlesExactly` says for which addresses normalising settles at
  once and keeps the host, and `Addresses.SettlesTwice` that it always settles
  after two steps with the host fixed from the first.
- The check on SSH tokens trims before it looks, so an alias with a line break
  or a carriage return at its end is accepted; its blocks are then never removed
  (`SshConfig.NeverRemoved`, `SshConfig.BreakAccepted`).
- An identifier such as `a/../resource/x` is accepted and normalised into
  `resource/`, but its normal form is not, so nothing can be uploaded under it
  (`ArtifactServer.Storable`, `ArtifactServer.FirstExactly`).
- The inspect output is unreadable as soon as a port has two bindings, or an
  unbound port stands before a bound one (`Inspect.PortsLegible`).
- Removing only a host's record does not remove a host that projects are mapped
  to: the next save re-creates it, bare (`StoreCommands.RemoveHostTheorem`).
- Draining a project that is not mapped leaves it listed wherever it was
  (`StoreCommands.DrainUnmapped`).
- A reply or a connection lost after the last chunk reports a failed upload
  although the bytes are in place (`ArtifactServer.Server.UploadArtifact`, `ArtifactClient.Upload`).

## Model

| member | source | states |
|---|---|---|
| KeyedMerge.MergedIsGrouped | internal/db/normalize.go:36-58 | the one-pass loop over an index map is grouping by key: one record per key, in order of first occurrence, each the merge of that key's records in order |
| KeyedMerge.NormalFacts | internal/db/normalize.go:179-209 | a repaired list holds clean records, no empty key and no key twice |
| KeyedMerge.NormalConcat | internal/db/normalize.go:179-209 | repairing two lists apart and then together is repairing their concatenation |
| KeyedMerge.LoopStep | internal/db/normalize.go:39-56 | one iteration (skip, merge in place or append) is the next step of the fold and keeps the index map right |
| StoreLaws.ContainersConcat | internal/db/normalize.go:179-209 | containers may be normalised in any parts without losing or reordering anything |
| StoreLaws.FoldContainers | internal/db/normalize.go:281-291 | a merged container holds the last non-empty text of each field and the last non-zero port |
| StoreLaws.FoldProjectTexts | internal/db/normalize.go:266-322 | a merged project holds the last non-empty text of every text field, source repository and flavour included |
| StoreLaws.FoldProjectFlags | internal/db/normalize.go:266-322 | its flags are those that any duplicate sets |
| StoreLaws.FoldProjectContainers | internal/db/normalize.go:277 | its containers are the merge over all duplicates |
| StoreRecords.ProjectsFromRecords | internal/db/normalize.go:36-58 | the normalised project list, from any stored records: the trimmed names at their first places, each with, field by field, the last non-empty text, the flags some record sets and the containers of all its records combined |
| StoreRecords.ContainersFromRecords | internal/db/normalize.go:179-209 | the normalised container list, from any stored records: per trimmed name the last non-empty trimmed id and login, lower-cased state and expected state, and the last non-zero port |
| StoreRecords.RegistriesFromRecords | internal/db/normalize.go:114-138 | the trimmed registry names at their first places |
| StoreRecords.ContextFromRecords | internal/db/normalize.go:23-34 | the context stays, trimmed, iff a project of that name exists |
| StoreRecords.HostsFromRecords | internal/db/normalize.go:60-112 | the normalised hosts, from any stored records: names of records, then of mapped hosts, at their first places; every field from all records of the name; default iff it is the last default record's name; in use iff it lists something |
| StoreRecords.NormalizeFromRecords | internal/db/normalize.go:16-177 | the whole saved store, from its records |
| StoreLists.HostLaws | internal/db/normalize.go:293-305 | merging hosts is associative and keeps records clean |
| StoreLists.FoldHosts | internal/db/normalize.go:293-333 | merged hosts: union of the lists, last non-empty texts, while runtime and ownership come from the last record only |
| StoreLists.FilterListFacts | internal/db/normalize.go:162-177 | filtering keeps exactly the projects not mapped to another host, without repeats |
| StoreNormal.NormalizeEstablishes | internal/db/normalize.go:16-177 | from any contents: unique clean names, a mapped project listed by its host and no other, lists naming existing projects once, `InUse` exact, at most one default, context empty or existing |
| StoreNormal.NormalizeFixed | internal/db/normalize.go:16-138 | a store is left unchanged if and only if it has that form |
| StoreNormal.NormalizeIdempotent | internal/db/normalize.go:16-138 | normalising twice is normalising once, on every store |
| StoreNormal.ListedExactly | internal/db/normalize.go:88-104 | after normalising, a host lists exactly the projects mapped to it and the unmapped existing ones that some record of it listed |
| StoreRuns.ApplyStable | internal/db/host.go:51-234 | every mutator keeps names unique, lists free of repeats, `InUse` exact and at most one default |
| StoreRuns.RunStable | internal/db/project.go:51-143 | so does every run of mutators, with saves anywhere between them, from a normalised store |
| StoreEffects.AddHostEffect | internal/db/host.go:51-74 | what every host lookup finds after adding a host |
| StoreEffects.RegisterEffect | internal/db/host.go:219-234 | what the host lists after registering, and that no other host changes |
| StoreEffects.AddProjectEffect | internal/db/project_management.go:40-86 | what every project lookup finds after adding a project |
| StoreEffects.AddContainerEffect | internal/db/project.go:86-106 | what every container lookup finds after adding a container |
| StoreEffects.SetDefaultEffect | internal/db/host.go:97-109 | which hosts are default after setting one, and that nothing else changes |
| StoreEffects.UnlistEffect | internal/db/host.go:203-217 | what a host lists after removing a project, and that no other host changes |
| StoreEffects.MapEffect | internal/db/project.go:161-169 | what every project lookup finds after mapping one |
| StoreEffects.UnmapEffect | internal/db/project.go:68-77 | what every project lookup finds after unmapping one |
| StoreEffects.RemoveFirstExactly | internal/db/host.go:203-217 | only the first occurrence is removed |
| StoreEffects.DropHostConcat | internal/db/host.go:76-83 | removing hosts keeps the order of the others |
| StoreEffects.DropProjectConcat | internal/db/project.go:51-56 | so does removing projects |
| StoreEffects.DropContainersConcat | internal/db/project.go:126-143 | and removing containers |
| StoreCommands.DrainTheorem | internal/command/project_drain.go:50-79 | draining a mapped project and saving: no host, no containers, no listing; every other project, membership, the context and the registries as before |
| StoreCommands.DrainUnmapped | internal/command/project_drain.go:50-79 | draining an unmapped project empties its containers and changes nothing else |
| StoreCommands.RemoveHostFromConfigTheorem | internal/db/host_scaffold.go:71-81 | removing a host from the configuration and saving: the host is gone, its projects are unmapped, every other listing survives |
| StoreCommands.RemoveHostTheorem | internal/db/host.go:76-83 | removing only the record and saving: the host returns, last and bare and listing its projects, exactly when some project is mapped to it |
| StateStore.NormalizeContainers | internal/db/normalize.go:179-209 | the loop computes the declarative merge, which is given from the stored records |
| StateStore.NormalizeProjectList | internal/db/normalize.go:211-237 | the loop computes the cleaned list |
| StateStore.FilterHostProjectList | internal/db/normalize.go:162-177 | the loop computes the filtered list |
| StateStore.Store.NormalizeProjects | internal/db/normalize.go:36-58 | the loop computes the declarative merge of projects |
| StateStore.Store.MergeHosts | internal/db/normalize.go:60-86 | the first loop computes merged hosts, their index and the last default |
| StateStore.Store.AttachProjects | internal/db/normalize.go:88-98 | the second loop attaches every mapped project, creating missing hosts |
| StateStore.Store.NormalizeHosts | internal/db/normalize.go:60-112 | the three loops together |
| StateStore.Store.NormalizeRegistries | internal/db/normalize.go:114-138 | one record per registry name, the last one |
| StateStore.Store.NormalizeAll | internal/db/normalize.go:16-34 | the whole store becomes its normal form, which is given from its records |
| StateStore.Store.Save | internal/db/instance.go:93-106 | what is written is the normal form of what was there, given from its records, and is also kept |
| StateStore.Store.Load | internal/db/bom.go:28-34 | loading what a save wrote gives it back unchanged |
| StateStore.Store.AddHostRecord | internal/db/host.go:51-74 | the host is found under its name in any spelling, with the user name unless that is blank; no other lookup changes; blank names add nothing |
| StateStore.Store.RemoveHostRecord | internal/db/host.go:76-83 | new state without the host's records |
| StateStore.Store.SetHostToDefault | internal/db/host.go:97-109 | if the host exists, exactly the hosts of that name are default and nothing else changes; if not, nothing changes |
| StateStore.Store.RemoveProjectFromHost | internal/db/host.go:203-217 | success iff the host exists; the first listing of the project is gone, the rest in order, in use iff more is listed; no other host changes |
| StateStore.Store.RegisterProjectInHost | internal/db/host.go:219-234 | success iff project and host exist; the host then lists the project, is in use and keeps its other listings; no other host changes |
| StateStore.Store.AddProjectUsingConfDir | internal/db/project_management.go:40-60 | success iff the name is new and not blank; the project is then found, bare, and every other one as before |
| StateStore.Store.AddProjectUsingFlavour | internal/db/project_management.go:63-86 | the same with a flavour |
| StateStore.Store.RemoveProjectRecord | internal/db/project.go:51-56 | new state without the project's records |
| StateStore.Store.MapProject | internal/db/project.go:161-169 | the project is found with the host in normal spelling, everything else as before |
| StateStore.Store.RemoveHostAndContainersFromProject | internal/db/project.go:68-77 | the project is found without host and containers, everything else as before |
| StateStore.Store.UpsertProjectContainer | internal/db/project.go:108-124 | replaces the container of that trimmed name or appends it |
| StateStore.Store.AddContainerInfo | internal/db/project.go:86-106 | the container is found under its trimmed name unless one was there, which stays; other containers and projects as before |
| StateStore.Store.RemoveProjectContainers | internal/db/project.go:126-143 | drops exactly the named containers |
| StateStore.Store.RemoveHostWithMappings | internal/db/host_scaffold.go:71-81 | unmaps the listed projects in turn, stopping at a missing one, then removes the host |
| StateStore.Store.DrainProject | internal/command/project_drain.go:50-79 | the store steps of drain |
| PercentEncoding.UnescapeEscape | internal/containerconf/identifier.go:13-22 | decoding undoes encoding, for every byte string |
| PercentEncoding.EscapeDots | internal/containerconf/identifier.go:13-22 | encoded segments hold no slash and no space, and are dots only for dots |
| Identifiers.ResourceForm | internal/containerconf/identifier.go:13-22 | exactly which identifier each kind and name gets |
| Identifiers.CanonicalRoundTrip | internal/containerconf/identifier.go:13-111 | the canonical identifier is the resource's identifier, is left alone by normalisation and decodes back to kind and name |
| Identifiers.ResourceFixedPoint | internal/containerconf/identifier.go:73-111 | it is a fixed point of normalisation if and only if the name is not `.` |
| Identifiers.ResourceInjective | internal/containerconf/identifier.go:13-22 | equal identifiers iff trimmed kind and name agree, or both names are `..` |
| Identifiers.NormalizeMeaning | internal/containerconf/identifier.go:79-102 | a `resource/` spelling is accepted iff it has three parts, a valid kind and a decodable name, and then normalises to that resource |
| Identifiers.PlainExactly | internal/containerconf/identifier.go:73-111 | outside `resource/`: absolute identifiers are refused, one that climbs out of the staging directory is refused, one of which nothing survives is blank, any other is accepted as the segments that no `..` takes back |
| Identifiers.KindExactly | internal/containerconf/identifier.go:118-129 | exactly which kinds are valid |
| Identifiers.SpellingsAgree | internal/containerconf/identifier.go:73-129 | two accepted spellings normalise alike iff kind and decoded name agree, or both names are `..` |
| Identifiers.NormalizedProper | internal/containerconf/identifier.go:73-111 | every accepted identifier is a relative path of proper segments |
| Identifiers.ProperFixedPoint | internal/containerconf/identifier.go:73-111 | exactly which such paths normalisation leaves alone |
| Paths.CleanIdempotent | internal/agent/staging_path.go:33-59 | lexical cleaning is idempotent |
| PathLaws.TakenBack | internal/containerconf/identifier.go:99 | a plain segment followed by `..` vanishes with it, anywhere in a path |
| PathLaws.Vanishing | internal/containerconf/identifier.go:99 | empty segments and `.` vanish anywhere |
| PathLaws.Leading | internal/containerconf/identifier.go:99 | a leading `..` vanishes below the root and stays in a relative path |
| PathLaws.CleanExactly | internal/containerconf/identifier.go:99-108 | a relative path climbs out iff some beginning has more `..` than plain segments; otherwise what is left is its survivors, as many as its depth |
| StagingPaths.ResolveTotal | internal/agent/staging_path.go:33-59 | resolution accepts exactly valid names with valid identifiers and gives a path strictly below the project's directory; the escape check never rejects |
| StagingPaths.TreesDisjoint | internal/agent/staging_path.go:25-31 | no path lies in the trees of two projects |
| StagingPaths.DeleteStaging | internal/agent/container_service.go:330-336 | deleting a project's staging removes all of its artifacts and none of another's |
| ArtifactPlan.RunCollectors | internal/containerconf/client_artifacts.go:80-99 | succeeds iff no collector fails and no identifier repeats, with the results in order |
| ArtifactPlan.CollectCandidates | internal/command/project_agent.go:244-317 | the plan in order with the managed key in place of a collected one; it fails iff another artifact or the managed key cannot be read |
| Deployment.DockerfileIssued | internal/containerconf/identifier.go:58-70 | every accepted Dockerfile path gets an identifier in normal form that no other kind has |
| Deployment.DockerfileExactly | internal/containerconf/identifier.go:58-70 | from a path in either slash style: the identifier is that of its last name, and there is one iff that is a file name |
| Deployment.CollectedCanonical | internal/containerconf/client_artifacts.go:62-99 | whatever the configuration says, collected identifiers are distinct and canonical, so none is ever refused as repeated |
| Deployment.PlanDeployment | internal/command/project_agent.go:244-317 | planning succeeds iff a configured Dockerfile has a file name, a place and contents, default sources are usable, the auth file is readable and the managed key is there; the plan has exactly those artifacts and is fit for staging |
| Deployment.Deploy | internal/command/project_agent.go:244-415 | end to end from the fields of a configuration: after success the agent serves the auth file as `resource/auth/auth`, the managed key as `resource/pub_key/pub_key` and the Dockerfile under its escaped last name, and staging again uploads nothing; without faults it succeeds; nothing else is written |
| ArtifactClient.CutIntoChunks | internal/command/project_agent.go:381-405 | for any data and chunk size: the chunks carry exactly the data, offsets continue, only the first has the descriptor, only the last finishes |
| ArtifactClient.ChunksAccepted | internal/agent/artifact_service.go:97-171 | the agent reads such a stream to its end, reassembles the data, and accepts it iff name, identifier, size and digest are right, whatever the connection does after the last chunk |
| ArtifactClient.ChunksLost | internal/agent/artifact_service.go:97-104 | a connection that breaks before the last chunk is never accepted |
| ArtifactClient.Upload | internal/command/project_agent.go:374-415 | success puts exactly the data at the destination; failure, a connection broken after any number of chunks included, changes nothing unless only the reply was lost or all chunks had arrived; without faults it succeeds |
| ArtifactClient.PrepareMissing | internal/agent/artifact_service.go:42-76 | what is reported missing is exactly what does not have the candidate's bytes |
| ArtifactClient.Stage | internal/command/project_agent.go:342-372 | after success every candidate is in place; nothing missing means nothing uploaded; without faults it succeeds; only destinations of the plan are written |
| ArtifactClient.FetchStaged | internal/agent/staging_provider.go:32-47 | what is staged is what the agent serves |
| ArtifactClient.StageThenServe | internal/command/project_agent.go:342-415 | end to end: after staging succeeds, every artifact is served byte for byte and staging again uploads nothing |
| ArtifactServer.Server.PrepareArtifacts | internal/agent/artifact_service.go:42-76 | the loop computes found and missing, or fails as a whole |
| ArtifactServer.PreparedExactly | internal/agent/artifact_service.go:49-68 | a descriptor comes back under its normal identifier, as found iff its place holds bytes of the declared size and digest |
| ArtifactServer.PrepareConcat | internal/agent/artifact_service.go:47-76 | a request goes descriptor by descriptor, in order, and fails as a whole when one does |
| ArtifactServer.Server.FetchFile | internal/agent/staging_provider.go:32-47 | the bytes at the resolved path, if any |
| ArtifactServer.Server.ReceiveChunk | internal/agent/artifact_service.go:97-167 | a chunk is appended iff it passes the checks and nothing fails; a failure removes the temporary file |
| ArtifactServer.Server.Receive | internal/agent/artifact_service.go:97-171 | after the loop the temporary file holds the contents up to the first finish, or there is a failure and no file |
| ArtifactServer.Server.UploadArtifact | internal/agent/artifact_service.go:78-211 | the destination is replaced iff the stream is consecutive and complete, size and digest match and nothing failed before the rename; otherwise the file system is as before, and the status is that of the first problem |
| ArtifactServer.ConsecutiveExactly | internal/agent/artifact_service.go:107-159 | field by field, which chunks make one upload |
| ArtifactServer.AcceptedExactly | internal/agent/artifact_service.go:97-191 | field by field, which streams are accepted |
| ArtifactServer.FirstExactly | internal/agent/artifact_service.go:108-136 | which first chunks are accepted, and where the upload goes |
| ArtifactServer.FetchExactly | internal/agent/staging_provider.go:32-47 | the agent serves some bytes iff the name is valid, the identifier is accepted and they are at its place |
| UploadInterleaving.StepKeeps | internal/agent/artifact_service.go:88-199 | every step of any upload keeps every other upload's file and every committed destination |
| UploadInterleaving.RunKeeps | internal/agent/artifact_service.go:88-199 | so does every interleaving |
| UploadInterleaving.StepAdvances | internal/agent/artifact_service.go:97-199 | what every event achieves when nothing fails: chunks are appended, checks pass iff size and digest match, a rename puts the bytes at the destination |
| UploadInterleaving.DestinationsHold | internal/agent/artifact_service.go:155-199 | at every point a destination holds its old bytes, or the checked bytes of the last upload renamed to it |
| UploadInterleaving.NoLeftovers | internal/agent/artifact_service.go:88-95 | temporary files are those of uploads in progress and those there before, untouched |
| UploadHistory.RunHistory | internal/agent/artifact_service.go:88-199 | over every run, what a session holds is exactly the chunks accepted from it since it began, in order |
| UploadHistory.NeverMixed | internal/agent/artifact_service.go:88-199 | at every point a destination holds its old bytes, or the complete checked contents of one session: all its accepted chunks in order, of which only the last may finish, ended by that finish or by the end of its stream |
| SshEntry.BodyRoundTrip | internal/command/project_ssh_config.go:141-192 | a rendered entry, quoting and fixed options included, reads back field by field |
| SshEntry.ValidTokenMeaning | internal/command/project_ssh_config.go:177-183 | a token passes iff it is one unbroken word between spaces |
| SshConfig.RemoveManagedBlock | internal/command/project_ssh_config.go:157-175 | the loop with its skipping flag computes the kept lines |
| SshConfig.KeptDocument | internal/command/project_ssh_config.go:157-175 | on a file of lines and blocks, removal takes out exactly the alias's block |
| SshConfig.RemoveHolds | internal/command/project_ssh_config.go:93-106 | removing an alias deletes it from the map of blocks and keeps every other block and user line |
| SshConfig.UpsertHolds | internal/command/project_ssh_config.go:66-91 | upserting an entry updates the map and keeps every other block and user line |
| SshConfig.HoldsUnique | internal/command/project_ssh_config.go:157-175 | the blocks and user lines of a file are determined by its text |
| SshConfig.RunHolds | internal/command/project_ssh_config.go:66-175 | over any run of edits the blocks are exactly the map of the same puts and deletes, and user lines keep content and order |
| SshConfig.PutReadsBack | internal/command/project_ssh_config.go:66-155 | an entry put last is read back, whatever was there |
| SshConfig.NeverRemoved | internal/command/project_ssh_config.go:157-183 | blocks of an alias that does not stay on its line are never removed from any file |
| SshConfig.BreakAccepted | internal/command/project_ssh_config.go:66-91 | such an alias is accepted, and put twice it leaves two blocks |
| SshConfig.ConfigFile.UpsertEntry | internal/command/project_ssh_config.go:66-131 | accepted iff tokens and port are valid; new contents, ending in a line break |
| SshConfig.ConfigFile.RemoveEntry | internal/command/project_ssh_config.go:93-106 | accepted iff the alias is blank or valid; new contents |
| Reconcile.UniqueContainerNames | internal/command/project_agent.go:577-592 | trimmed non-empty names, each at its first place |
| Reconcile.SyncContainer | internal/command/project_agent.go:440-465 | one listed container: store first, then SSH block, with the failure of either |
| Reconcile.SyncProjectContainers | internal/command/project_agent.go:421-477 | the loops compute the synchronised store and file, stopping at the first failure |
| Reconcile.SyncStore | internal/command/project_agent.go:421-477 | after success a requested name has the agent's record if listed and is dropped or kept if not; other names and projects are untouched even on failure |
| Reconcile.SyncSsh | internal/command/project_ssh_config.go:30-56 | after success a requested name has the block of its entry iff listed with a published SSH port; other blocks and user lines are untouched even on failure |
| Reconcile.ClearProjectContainers | internal/command/project_agent.go:540-575 | every local container shown by the first listing gets a delete request even after failures, then exactly those are synchronised; success iff all of it succeeded |
| ReconcileTheorems.ClearConverges | internal/command/project_agent.go:540-575 | from the local state and the two listings: exactly the wanted names that the first listing shows get a delete request; after success record, expected state, port, login and SSH block of each agree with its last entry in the second listing, or are gone; nothing else ever changes |
| ReconcileTheorems.ClearSucceeds | internal/command/project_agent.go:540-575 | exactly when the closing synchronisation succeeds |
| Reconcile.ChangeContainersState | internal/command/project_agent.go:516-538 | containers are changed in order up to the first missing or failing one; the local state is touched only when all were changed |
| ReconcileTheorems.ChangeSettles | internal/command/project_agent.go:516-538 | from a saved store and the two listings: which containers are changed, in order; after success each agrees with its last entry in the second listing, expecting the new state, or, vanished, keeps record and block |
| ReconcileTheorems.ChangeSucceeds | internal/command/project_agent.go:516-538 | exactly when starting or stopping succeeds |
| ReconcileTheorems.ByNameExactly | internal/command/project_agent.go:479-492 | a listing by name has exactly the non-empty names listed, each with its last entry |
| Reconcile.SyncSucceeds | internal/command/project_agent.go:421-477 | exactly when a synchronisation succeeds |
| Addresses.SplitJoinHost | internal/config/cli.go:325-330 | splitting undoes joining of host and port, brackets included |
| Addresses.HostPortMeaning | internal/config/cli.go:313-363 | host and port: the host in lower case, the port as it is |
| Addresses.LocalNames | internal/config/cli.go:342-371 | a port alone, a blank name and `localhost` all stand for this machine |
| Addresses.BareHost | internal/config/cli.go:313-363 | a bare host stands for itself in lower case |
| Addresses.SettlesExactly | internal/config/cli.go:313-363 | exactly for which addresses without spaces normalising settles in one step and keeps the host name |
| Addresses.SettlesTwice | internal/config/cli.go:313-363 | every address without spaces settles after two steps, its host name after one |
| Addresses.BracketedScheme | internal/config/cli.go:313-363 | a family of addresses that move: a bracketed host before `//` changes host unless the two hosts happen to be equal |
| Addresses.StoredElsewhere | internal/config/cli.go:313-363 | the address `[abc]://x` changes host when it is stored |
| AgentRegistry.SanitizeAgents | internal/config/cli.go:245-270 | the loop computes the merged registry, or fails on an address it cannot normalise |
| AgentRegistry.SanitizeExactly | internal/config/cli.go:245-270 | a list can be sanitised iff no address is blank |
| AgentRegistry.RewrittenKeeps | internal/config/cli.go:304-311 | normalising an agent changes its address only |
| AgentRegistry.SanitizeTheorem | internal/config/cli.go:245-270 | for all addresses without spaces: hosts become distinct, each finds its last record; sanitising again only rewrites addresses, and then nothing changes |
| AgentRegistry.CreateTheorem | internal/config/cli.go:84-101 | succeeds iff the host is new; adds that host, changes no other lookup |
| AgentRegistry.UpsertTheorem | internal/config/cli.go:104-122 | always succeeds; what every lookup finds after it, under any host name |
| AgentRegistry.UpsertPlain | internal/config/cli.go:104-122 | for its own host, or an unregistered name: that agent is found and no other lookup changes |
| AgentRegistry.UpsertMoves | internal/config/cli.go:104-122 | under a registered host, an agent of a new host takes its place |
| AgentRegistry.UpsertLost | internal/config/cli.go:104-122 | under a registered host, an agent of another registered host is lost iff that host stands later |
| AgentRegistry.UpdateTheorem | internal/config/cli.go:125-153 | succeeds iff the address is registered and the new host is its own or new; the old host is replaced, other lookups stay |
| AgentRegistry.DeleteTheorem | internal/config/cli.go:156-176 | succeeds iff the host of the address is registered; that host is removed, other lookups stay |
| AgentRegistry.RunReadable | internal/config/cli.go:84-270 | after any run of commands with addresses free of spaces the registry reads as distinct hosts, and once written it reads back as itself |
| AgentRegistry.RunRefines | internal/config/cli.go:84-270 | over any run the list answers every lookup as the map built by the same puts and deletes |
| AgentRegistry.ReadAsMap | internal/config/cli.go:207-270 | every stored registry of addresses without spaces answers as some map |
| AgentRegistry.Registry.CreateAgent | internal/config/cli.go:84-101 | success and new contents |
| AgentRegistry.Registry.UpsertAgent | internal/config/cli.go:104-122 | success and new contents |
| AgentRegistry.Registry.UpdateAgent | internal/config/cli.go:125-153 | success and new contents |
| AgentRegistry.Registry.DeleteAgent | internal/config/cli.go:156-176 | success and new contents |
| AgentRegistry.Registry.AgentAddress | internal/config/cli.go:191-205 | the address the lookup finds, or none |
| Shell.QuoteRoundTrip | internal/engine/containersengine.go:1062-1064 | for every string, the shell reads the quoted form as one word equal to it |
| Shell.QuoteWord | internal/command/project_share_key.go:106-108 | the same inside a longer word and line |
| Shell.UserSurvives | internal/engine/containersengine.go:1496-1563 | through both layers: the inner shell is given exactly the script, whose first two commands set its options and assign exactly the user name, whatever follows |
| Shell.UniqueUsersFacts | internal/engine/containersengine.go:1515-1531 | the users are exactly the configured ones other than root, once each |
| Shell.EnsureUsers | internal/engine/containersengine.go:1496-1531 | one command per distinct user other than root, each read back as its script when the container name needs no quotes |
| Inspect.ParseInspectOutput | internal/engine/engine.go:342-365 | the loop computes the parse, or fails |
| Inspect.PortsLegible | internal/engine/engine.go:324-365 | exactly which port lists are read back from the template's output, and as what |
| Inspect.PortsRoundTrip | internal/engine/engine.go:324-365 | with one binding per port the map is read back |

## Left out

- gRPC, TLS, SSH sessions, forwarding, process management and shutdown: their meaning is in libraries and the operating system.
- JSON, YAML and URL parsing, SHA-256 and key generation: taken as described above.
- Real file system details: permissions, symbolic links, Windows separators, case-insensitive names, creation and removal of directories.
- The command formatters of `internal/engine/containersengine.go` other than the user-creation command: text templates.
- Bitbucket and Artifactory clients, tokens, secrets, prompts, command wiring, output and logging.
- Single-field getters and setters of the store, and `identifyProjectHost`: easy members.
- `parsePsFormattedOutput`: an easy member; a status other than `Up` and `Exited` is read as the zero value.
- Unicode trimming and case folding: only the ASCII part is modelled.
- Error messages: only success, failure and, for uploads, the status class are modelled.
- The agent connection around clear, start and stop, and saving between their store steps.
- Shell.UserSurvives: covers quoting and command separation; what follows the assignment is an arbitrary text, and the shell fragment has no expansions.
- Shell.EnsureUsers: the program does not quote the container name; for names that would need it nothing is said of how the command reads.
- Inspect.PortsLegible: port keys hold no comma, colon or double quote, and host ports are below 65536.
- SshConfig.RunHolds: host names, users and identity paths hold no line break, and aliases stay on their line; `SshConfig.NeverRemoved` says what happens to other aliases.
- AgentRegistry.RunRefines: needs addresses without inner spaces, and no upsert under one registered host's name of an agent of another registered host; `AgentRegistry.UpsertLost` says what happens then.
- UploadInterleaving.RunKeeps: needs fresh temporary names and destinations that are not themselves named like temporary files.
