# paus-gitreceive receiver, modelled in Dafny

This project models the core of the paus git-push deploy receiver: the program
that runs after `git push`, turns the pushed repository's `docker-compose.yml`
into built and pushed images, an ECS task definition and service, and registers
the running web container with the vulcand router through etcd. The repository
holds several revisions of the receiver side by side (older files directly in
`receiver/`, newer ones under `receiver/model/`, `receiver/vulcand/` and
`receiver/config/`); each revision is modelled as written, in its own module,
and where two revisions agree a lemma says so. Where the code as written is
evidently wrong (see "## Findings") the model states both the behaviour as
written and a corrected reading with the intended property proved about it;
the frontend records of all three router writers are stored exactly as the
code writes them, and read back only under the condition the finding names.

The modules follow the source files:

- `ImageRef`, `Ecr`, `EcrService`, `Base64`: image references (`ImageFromString`,
  `String`), the ECR registry domain and the authorisation-token splitter.
- `EcsTaskDefinition`, `EcsNames`: the compose-to-ECS task definition converter
  (memory, environment, ports, `volumes_from`, mount points, `extra_hosts`, the
  shared volume-name table) and the service and task definition names.
- `CommitMetadata`, `Application`, `Deployment`: the identity derived from the
  push arguments, and the application settings read from etcd.
- `KeyValueText`, `PortBinding`, `ComposeYaml`, `ComposeFile`,
  `LegacyComposeFile`, `ComposeProject`: the compose-file edits (build
  arguments and environment injected into `web`, host port bindings
  rewritten) on the raw YAML map of both compose-file revisions and on the
  libcompose project, and the order of `Build` and `Push`.
- `KeyValueStore`, `JsonText`, `RouterRecords`, `VulcandRegister`,
  `VulcandRecordFiles`, `LegacyVulcand`: etcd as a value with failing keys, the
  JSON records written for vulcand, and the three revisions of the router
  writer.
- `Container`, `Util`, `ConfigLines`, `Config`, `LegacyConfig`: the web
  container's exposed port and health check, `SortKeys`,
  `RemoveUnpackedFiles`, and the configuration file.
- `DeployStages`, `Deploy`: `deploy` as twenty stages in source order,
  eighteen of which may fail (updating the images and printing the URLs
  cannot), `prepareComposeFile` and `printDeployedURLs`.
- `Wrappers`, `GoStrings`, `GoStrconv`, `StringOrder`, `GoPath`: the Go
  library behaviour the core relies on (`errors.Wrap` texts, `strings.Split`,
  `strings.Replace`, ASCII `strings.ToLower`, `strconv.Atoi`/`ParseInt`/`Itoa`,
  `sort.Strings`, `filepath.Join`).

Go panics (an unchecked type assertion, a nil map written to, an index past
the end) are modelled either as a `Panicked` result, where the panic is part
of the behaviour worth stating, or as a precondition naming the input that
would panic. Go's map iteration order is unspecified; wherever the source
builds a list by ranging over a map the model produces it in ascending key
order, and the contracts speak about the set of entries and what reads back
from them. Network, Docker, AWS and etcd calls are oracles passed in as
values or functions.

In `receiver/vulcand/vulcand.go` the package variable `httpBackendJSON` is
declared but never assigned (the older `receiver/vulcand.go` fills it in
`NewVulcand`, which the newer file no longer has), so the backend record that
file writes is the empty string; `VulcandRegister` models exactly that, while
`VulcandRecordFiles` and `LegacyVulcand` write `{"Type": "http"}` and
`{"Type":"http"}`.

## Model

| member | source | states |
|---|---|---|
| ImageRef.NewImage | receiver/model/image.go:16-22 | the registry, name and tag are stored exactly as given |
| ImageRef.ToString | receiver/model/image.go:60-62 | the printed form always adds exactly the two separators to the parts, with no special case for an empty registry or tag |
| ImageRef.ToStringLayout | receiver/model/image.go:60-62 | the printed form is the registry, `/`, the name, `:` and the tag, each at a fixed place, which is what parsing reads back |
| ImageRef.FromString | receiver/model/image.go:24-58 | an error, with the message naming the input, exactly when the text holds two or more `:`; the tag is the text after the single `:` and empty without one; with no `/` before the tag the whole of it is the name; with one `/` the first segment is the registry only when it ends in `amazonaws.com`, otherwise the whole `a/b` is the name; with two or more the first segment is the registry and the rest, slashes included, the name |
| ImageRef.RoundTrip | receiver/model/image.go:24-62 | parsing the formatted image gives it back when no part holds `:`, the registry is non-empty without `/`, and the registry ends in `amazonaws.com` or the name holds `/` |
| ImageRef.TwoColonsRejected | receiver/model/image.go:27-31 | any text with two colons, a registry with a port among them, is rejected |
| Ecr.RegistryDomain | receiver/aws/ecr/ecr.go:61-64 | the domain starts with the account ID and ends in `amazonaws.com` |
| Ecr.RegistryDomainIsRegistry | receiver/aws/ecr/ecr.go:62-64 | an image `<domain>/name:tag` is parsed with the registry domain as its registry, the name and the tag in their places |
| Ecr.ExtractToken | receiver/aws/ecr/ecr.go:81-90 | a decoding error is returned as it is; otherwise the user name is the decoded text before the first `:` and the password everything after it, `:` included |
| Ecr.ExtractTokenRoundTrip | receiver/aws/ecr/ecr.go:81-90 | encoding `user:password` and extracting it gives both back, whatever colons the password holds |
| Ecr.AuthConfigurationFrom | receiver/aws/ecr/ecr.go:48-58 | success exactly when the token decodes; the e-mail and server address are empty and user name and password rejoin to the decoded text |
| EcrService.RegistryDomain | receiver/service/ecr.go:54-57 | the same domain as the client's helper: account ID first, `.amazonaws.com` last |
| EcrService.ExtractToken | receiver/service/ecr.go:76-85 | a decoding failure is an error; the user name is the decoded text before the first `:`, the password the rest |
| EcrService.AuthConfigurationFrom | receiver/service/ecr.go:41-51 | success exactly when the token decodes; e-mail and server address empty |
| Base64.Decode | receiver/aws/ecr/ecr.go:82-85 | `StdEncoding.DecodeString` accepts only whole groups of the section 4 alphabet of RFC 4648, with `=` padding and line breaks ignored |
| Base64.DecodeEncode | receiver/aws/ecr/ecr.go:82 | decoding the standard encoding of any byte string gives it back |
| EcsNames.TaskDefinitionName | receiver/modules/compose/ecs/utils/name.go:17-20 | the name starts with `paus-` and the rest is the project name |
| EcsNames.ServiceName | receiver/modules/compose/ecs/utils/name.go:12-15 | the name starts with `paus-` and is the project's task-definition name, a `-`, and the suffix |
| EcsNames.TaskDefinitionNameInjective | receiver/modules/compose/ecs/utils/name.go:18-20 | different projects get different task-definition names |
| EcsNames.ServiceNameSuffixInjective | receiver/modules/compose/ecs/utils/name.go:13-15 | within one project, different suffixes give different service names |
| CommitMetadata.RepositoryOfArg | receiver/commit_metadata.go:16 | the repository is the first argument with every `/` turned into `-`, so it holds no `/` |
| CommitMetadata.FromArgs | receiver/commit_metadata.go:15-29 | the repository is the first argument with every `/` made `-`; revision and user name are the second and third arguments unchanged; the app name is the repository with the first `username-` removed wherever it occurs, unchanged if absent; the project name is the repository, `-` and the first eight characters of the revision |
| CommitMetadata.PushByOwner | receiver/commit_metadata.go:15-29 | `user/app` pushed by `user` gives repository `user-app`, app name `app` and project `user-app-` plus the short revision |
| CommitMetadata.ShortRevisionDecides | receiver/commit_metadata.go:20 | two revisions sharing their first eight characters name the same project |
| Application.FromArgs | receiver/model/application.go:21-35 | repository, revision, user name, app name and project name derived as for the commit metadata |
| Application.AgreesWithCommitMetadata | receiver/model/application.go:21-35 | the application and the commit metadata agree field by field on the same arguments |
| Application.Collect | receiver/model/application.go:64-72 | the listed keys are read in order; the first unreadable key aborts with an error naming it; otherwise one entry per setting name, the value of the last key with that name |
| Application.BuildArgs | receiver/model/application.go:37-75 | no user, app or build-args directory, checked in that order, gives no settings and no error; a failed listing is wrapped; a failed read names the key; otherwise each listed key, with the first occurrence of the directory removed, maps to its value |
| Application.EnvironmentVariables | receiver/model/application.go:77-115 | the same reading over the `envs/` directory with its own error texts |
| Application.BuildArgsAsWritten | receiver/model/application.go:37-75 | the code as written: the map is never created, so it panics exactly when the directories exist, the listing succeeds and its first key reads; whenever it returns, it returns what the corrected reading does, and when it panics the corrected reading, if it succeeds, is not empty |
| Application.BuildArgsAsWrittenPanics | receiver/model/application.go:37-75 | one readable build argument under existing directories makes the code as written panic where the corrected reading returns that argument |
| Application.ReadSettingsAsWritten | receiver/model/application.go:77-115 | the loop shared by both readers as written panics exactly when the directories exist, the listing succeeds and its first key reads, and otherwise returns what the corrected reading does |
| Application.EnvironmentVariablesAsWritten | receiver/model/application.go:77-115 | the code as written: the map is never created, so it panics exactly when the directories exist, the listing succeeds and its first key reads; whenever it returns, it returns what the corrected reading does, and when it panics the corrected reading, if it succeeds, is not empty |
| Application.EnvironmentVariablesAsWrittenPanics | receiver/model/application.go:77-115 | one readable environment variable under existing directories makes the code as written panic where the corrected reading returns that variable |
| Application.EnsureDirectories | receiver/model/application.go:118-130 | only the user directory, the app directory and its `envs` and `revisions` children may be created, the app ones only when the app directory is missing; failures are ignored and no value changes |
| Application.RegisterMetadata | receiver/model/application.go:117-137 | the revision key is stamped with the decimal Unix time; its failure, wrapped, is the only error |
| Application.RegisterMetadataFrame | receiver/model/application.go:117-137 | no value other than the revision key's is written or removed |
| Deployment.NewDeployment | receiver/model/deployment.go:37-49 | the project is the repository, `-` and the first eight characters of the revision; branch, revision, timestamp and application are stored unchanged |
| Deployment.ComposeFileIsLast | receiver/model/deployment.go:39 | the compose file's path ends in `docker-compose-<timestamp>.yml` |
| Deployment.ComposeFilePathLayout | receiver/model/deployment.go:39 | the compose file's path is `repositoryDir/username/projectName/docker-compose-<timestamp>.yml` |
| Deployment.ComposeFilePathDistinct | receiver/model/deployment.go:39 | different timestamps give different compose-file paths for the same revision |
| Deployment.FromArgs | receiver/model/deployment.go:26-35 | fewer than five arguments is an error giving the count; otherwise the revision is the second argument and the branch the fifth with a leading `refs/heads/` removed only when it is a prefix |
| EcsTaskDefinition.MapAll | receiver/modules/compose/ecs/utils/convert_task_definition.go:199-240 | the converters' loop: success exactly when every element converts, giving the results in order; otherwise the first failing element's error |
| EcsTaskDefinition.Memory | receiver/modules/compose/ecs/utils/convert_task_definition.go:57-64 | the memory is never 0; a limit smaller than 1 MiB in size, or none, gives 512 |
| EcsTaskDefinition.MemoryIsWholeMiB | receiver/modules/compose/ecs/utils/convert_task_definition.go:58-61 | a limit of at least 1 MiB gives the whole number of MiB it holds, with Go's truncating division; a negative limit mirrors the positive one |
| EcsTaskDefinition.EnvKey | receiver/modules/compose/ecs/utils/convert_task_definition.go:150-151 | the variable name is the text before the first `=`, or the whole entry |
| EcsTaskDefinition.EnvEntry | receiver/modules/compose/ecs/utils/convert_task_definition.go:149-169 | `K=V` with non-empty `V` is kept as it is, `V` possibly holding `=`; a bare `K` or `K=` is resolved through the lookup, taking what follows the first `=` of its first answer, or `""` when it has no answer, and is dropped when no lookup is configured |
| EcsTaskDefinition.EnvEntryResolved | receiver/modules/compose/ecs/utils/convert_task_definition.go:158-168 | a bare name that the lookup answers with `name=v` takes the value `v` |
| EcsTaskDefinition.KeyValuePairs | receiver/modules/compose/ecs/utils/convert_task_definition.go:146-173 | with a lookup, or with only explicit entries, one pair per entry in order, each as the entry's conversion |
| EcsTaskDefinition.KeyValuePairsAppend | receiver/modules/compose/ecs/utils/convert_task_definition.go:149-170 | entries are converted one at a time: one more entry adds exactly what that entry contributes |
| EcsTaskDefinition.DroppedWithoutLookup | receiver/modules/compose/ecs/utils/convert_task_definition.go:158 | without a lookup an entry with no value of its own adds nothing |
| EcsTaskDefinition.SplitProtocol | receiver/modules/compose/ecs/utils/convert_task_definition.go:203-209 | a trailing `/tcp` or `/udp` names the protocol and is cut off; otherwise the protocol is tcp and the text is unchanged |
| EcsTaskDefinition.SplitProtocolSuffixed | receiver/modules/compose/ecs/utils/convert_task_definition.go:204-208 | a text followed by `/tcp` or `/udp` splits back into the text and the protocol |
| EcsTaskDefinition.PortFields | receiver/modules/compose/ecs/utils/convert_task_definition.go:212-236 | four or more segments are a format error; otherwise success exactly when the last segment parses, which is the container port; the host port is 0 for one segment and the parse of the one before the last otherwise, even when that parse failed |
| EcsTaskDefinition.PortMappingOf | receiver/modules/compose/ecs/utils/convert_task_definition.go:202-236 | the protocol is udp exactly for a `/udp` suffix; every error is a format or integer error |
| EcsTaskDefinition.PortSpecRoundTrip | receiver/modules/compose/ecs/utils/convert_task_definition.go:202-236 | parsing `host:container/protocol` gives the mapping back |
| EcsTaskDefinition.ContainerOnlyPort | receiver/modules/compose/ecs/utils/convert_task_definition.go:216-217 | a bare container port maps over tcp with host port 0 |
| EcsTaskDefinition.HostPortErrorIgnored | receiver/modules/compose/ecs/utils/convert_task_definition.go:218-220 | a host port that does not parse is read as 0 with no error: `abc:80` maps container port 80 from host port 0 |
| EcsTaskDefinition.TooManyPortSegments | receiver/modules/compose/ecs/utils/convert_task_definition.go:224-226 | four or more `:`-separated segments are rejected with the format error naming the text |
| EcsTaskDefinition.AccessMode | receiver/modules/compose/ecs/utils/convert_task_definition.go:277-287 | `ro` is read-only, `rw` and the empty mode read-write, any other mode an error naming it |
| EcsTaskDefinition.VolumeFromFields | receiver/modules/compose/ecs/utils/convert_task_definition.go:253-275 | three segments not led by `container`, or more than three, are a format error naming the entry; an accepted entry names one of its segments as the container |
| EcsTaskDefinition.VolumeFromForms | receiver/modules/compose/ecs/utils/convert_task_definition.go:253-291 | `name`, `name:mode`, `container:name` and `container:name:mode` give the container `name` with its access mode; an unknown mode is an error naming it |
| EcsTaskDefinition.VolumeFromBadShape | receiver/modules/compose/ecs/utils/convert_task_definition.go:267-275 | three segments not led by `container`, or four or more, are rejected |
| EcsTaskDefinition.VolumeAccess | receiver/modules/compose/ecs/utils/convert_task_definition.go:306-318 | a mount's access mode is accepted as for `volumes_from`, its error naming the volume |
| EcsTaskDefinition.VolumeName | receiver/modules/compose/ecs/utils/convert_task_definition.go:341-343 | volume names are `volume-` and a number |
| EcsTaskDefinition.VolumeNameInjective | receiver/modules/compose/ecs/utils/convert_task_definition.go:341-343 | different numbers give different volume names |
| EcsTaskDefinition.NumberedAdd | receiver/modules/compose/ecs/utils/convert_task_definition.go:326-329 | a new host path entered under the next number keeps the table's names exactly `volume-0` to `volume-(n-1)`, one per path |
| EcsTaskDefinition.Enter | receiver/modules/compose/ecs/utils/convert_task_definition.go:320-329 | a host path already in the table reuses its name and leaves the table unchanged; a new one gets `volume-<number of paths so far>` and is entered |
| EcsTaskDefinition.EnterNumbered | receiver/modules/compose/ecs/utils/convert_task_definition.go:320-329 | entering any host path keeps the table numbered |
| EcsTaskDefinition.MountPointOf | receiver/modules/compose/ecs/utils/convert_task_definition.go:302-336 | an unknown access mode is the error; otherwise the mount point carries the container path, the mode, and the host path's name in the table |
| EcsTaskDefinition.MountPointsFrom | receiver/modules/compose/ecs/utils/convert_task_definition.go:302-338 | success exactly when every access mode is valid, the first invalid one's error otherwise; the mount points and final table are those of entering each host path in turn |
| EcsTaskDefinition.EnterAllKeys | receiver/modules/compose/ecs/utils/convert_task_definition.go:302-338 | across a service's volumes the table keeps its entries and gains exactly the new host paths |
| EcsTaskDefinition.EnterAllNames | receiver/modules/compose/ecs/utils/convert_task_definition.go:320-335 | each mount point is named after its host path's entry in the final table and carries its container path and mode |
| EcsTaskDefinition.EnterAllConcat | receiver/modules/compose/ecs/utils/convert_task_definition.go:36-45 | entering the volumes of one service and then another is entering them all, the table shared across services |
| EcsTaskDefinition.MountPoints | receiver/modules/compose/ecs/utils/convert_task_definition.go:296-300 | a service without volumes has no mount points and leaves the table alone |
| EcsTaskDefinition.ExtraHostOf | receiver/modules/compose/ecs/utils/convert_task_definition.go:345-361 | an entry is accepted exactly when it holds one `:`; host name and address are the two parts; otherwise an error naming the entry |
| EcsTaskDefinition.ExtraHostRoundTrip | receiver/modules/compose/ecs/utils/convert_task_definition.go:348-357 | a host name and address without `:` come back from their joined text |
| EcsTaskDefinition.LogConfigurationFor | receiver/modules/compose/ecs/utils/convert_task_definition.go:93-100 | every container logs with `awslogs` to the ECS service's log group in the region |
| EcsTaskDefinition.ContainerDefinitionOf | receiver/modules/compose/ecs/utils/convert_task_definition.go:56-144 | the first error of ports, `volumes_from`, volumes and `extra_hosts`, in that order, is returned; otherwise the definition carries the service name, the memory, the environment pairs, each converter's results, the log setup, the copied settings, and host name, user and working directory only when set |
| EcsTaskDefinition.ConvertServices | receiver/modules/compose/ecs/utils/convert_task_definition.go:36-45 | success exactly when every service converts, the first failure's error otherwise; one definition per service |
| EcsTaskDefinition.ConvertServicesNames | receiver/modules/compose/ecs/utils/convert_task_definition.go:36-45 | the definitions carry the service names in key order |
| EcsTaskDefinition.ConvertServicesMounts | receiver/modules/compose/ecs/utils/convert_task_definition.go:34-45 | the mount points of all definitions are those of entering all services' volumes into one shared table |
| EcsTaskDefinition.EcsVolumes | receiver/modules/compose/ecs/utils/convert_task_definition.go:182-197 | one volume per host path of the table, under that path's name |
| EcsTaskDefinition.ConvertToTaskDefinition | receiver/modules/compose/ecs/utils/convert_task_definition.go:31-54 | success exactly when every service converts; the first failing service's error otherwise, with no task definition; the family is the given name and there is one definition per service |
| EcsTaskDefinition.TaskDefinitionContents | receiver/modules/compose/ecs/utils/convert_task_definition.go:31-54 | containers are named after the services in order; mount points and volumes are those of one table started empty |
| EcsTaskDefinition.FreshTable | receiver/modules/compose/ecs/utils/convert_task_definition.go:320-329 | from an empty table each host path is entered once, the names run from `volume-0`, and each mount point's volume is declared with its host path |
| EcsTaskDefinition.TaskDefinitionVolumes | receiver/modules/compose/ecs/utils/convert_task_definition.go:31-54 | one volume per distinct host path, named `volume-0` onwards with no name used twice, and every mount point's volume declared with the mount point's host path |
| KeyValueText.EntrySplitsAtFirst | receiver/model/compose_file.go:58-59 | splitting an entry on every `=`, taking the first piece as key and re-joining the rest with `=`, yields exactly the text before the first `=` and everything after it |
| KeyValueText.EntryHalves | receiver/model/compose_file.go:58-59 | the key never holds `=`; an entry with `=` is key, `=`, value; an entry without is all key and an empty value |
| KeyValueText.Parse | receiver/model/compose_file.go:58-59 | the key read from any entry is free of `=` |
| KeyValueText.Assignments | receiver/model/compose_file.go:54-64 | the map read from the entries holds exactly the keys of the counted entries, each with the value of the LAST entry carrying that key |
| KeyValueText.AssignedKeys | receiver/model/compose_file.go:76-86 | the keys read are the keys of the entries that count; without bare entries counting, an entry with no `=` adds nothing |
| KeyValueText.Entries | receiver/model/compose_file.go:163-168 | a map is written out as one entry per key |
| KeyValueText.EntriesRoundTrip | receiver/model/compose_file.go:54-168 | reading back the entries written for a map whose keys hold no `=` gives exactly that map |
| KeyValueText.EntriesDistinct | receiver/model/compose_file.go:163-168 | the written entries carry pairwise distinct keys |
| KeyValueText.Inject | receiver/model/compose_file.go:157-168 | the merge writes one entry per key of the read map joined with the injected one |
| KeyValueText.InjectReadBack | receiver/model/compose_file.go:157-168 | reading the merged entries back gives the original entries' map overwritten by the injected pairs (injected keys win, other keys keep their last value), and no key is written twice |
| KeyValueText.InjectKeys | receiver/model/compose_file.go:182-193 | the keys after the merge are the keys read plus the injected keys, nothing lost and nothing invented |
| KeyValueText.BareEntryReads | receiver/model/compose_file.go:80-82 | a bare entry `K` with no later entry for `K` reads as key `K` with the empty value |
| KeyValueText.BareEntryWritten | receiver/model/compose_file.go:173-196 | such a bare entry, when not injected, is written back as `K=` |
| PortBinding.PortRewrite | receiver/model/compose_file.go:209-224 | an entry without a `digits:digit` colon is kept as it is; one with it becomes a non-empty run of digits different from the entry |
| PortBinding.MatchIffBinding | receiver/model/compose_file.go:15 | the pattern `"?\d+:(\d+)"?` matches somewhere in the text exactly when the text has a colon with a digit on each side |
| PortBinding.RegexCapture | receiver/model/compose_file.go:217-220 | for the leftmost match, the capture group (the greedy digits after the colon) is exactly what the rewrite returns |
| PortBinding.RewriteLeavesNoBinding | receiver/model/compose_file.go:217-223 | a rewritten entry holds no further `host:container` binding |
| PortBinding.RewriteIdempotent | receiver/model/compose_file.go:217-223 | rewriting a rewritten entry changes nothing |
| ComposeYaml.IsVersion2 | receiver/model/compose_file.go:88-90 | true exactly when the top-level `version` is the string `"2"`; a number 2 or a missing version is not version 2 |
| ComposeYaml.Services | receiver/model/compose_file.go:100-110 | a file that is not version 2 is its own service map; a version 2 file yields its `services` mapping and panics exactly when that entry is absent or not a mapping |
| ComposeYaml.RewritePorts | receiver/model/compose_file.go:209-224 | every port of the list is rewritten in place: a string becomes its rewrite and an integer its decimal text, none keeping a binding |
| ComposeYaml.RewriteServices | receiver/model/compose_file.go:201-227 | the loop over the named services gets through exactly when each is present, a mapping, and has absent, nil or list `ports`; then those services have their ports rewritten and every other service and entry is kept |
| ComposeYaml.RewriteAllReturns | receiver/model/compose_file.go:201-202 | visiting all services in ascending name order gets through exactly when every service is rewritable |
| ComposeYaml.RewritePortBindings | receiver/model/compose_file.go:198-228 | the rewrite panics exactly when the service map is missing or some service is not a mapping with a list of ports; otherwise every port of every service is rewritten, the version and all other top-level entries kept |
| ComposeYaml.RewriteIdempotent | receiver/model/compose_file.go:198-228 | a second rewrite of a rewritten file returns it unchanged |
| ComposeFile.InjectBuildArgs | receiver/model/compose_file.go:141-171 | no change for a file that is not version 2, no arguments, or a `web` without `build`; a panic when `web` cannot be found; when the edit applies, it returns exactly when the build is a mapping or a string and its `args` are nil or a list of strings |
| ComposeFile.InjectBuildArgsEffect | receiver/model/compose_file.go:150-170 | when the edit applies (version 2, some arguments, a `web` with a `build`) and returns, it touches only the `web` build: it becomes a mapping keeping every entry (a string build its `context`) whose `args` are the current ones merged with the injected ones |
| ComposeFile.InjectBuildArgsReadBack | receiver/model/compose_file.go:156-170 | when the edit applies and returns, reading the injected `args` back gives the current arguments overwritten by the injected ones, one entry per key |
| ComposeFile.InjectEnvironmentVariables | receiver/model/compose_file.go:173-196 | no change for an empty map; otherwise it returns exactly when `web` exists and its environment is nil or a list of strings, and then only `web`'s environment is replaced by the merge |
| ComposeFile.InjectEnvironmentReadBack | receiver/model/compose_file.go:181-195 | reading the new environment back gives the current variables overwritten by the injected ones |
| ComposeFile.BareVariableGetsEquals | receiver/model/compose_file.go:180-195 | a bare variable `K` that is not overridden later and not injected reappears as `K=` |
| LegacyComposeFile.EnvironmentList | receiver/compose_file.go:42-44 | the environment is read only when the field exists and is a list; absent or nil panics |
| LegacyComposeFile.InjectEnvironmentVariables | receiver/compose_file.go:89-107 | the edit returns exactly when `web` exists and holds an environment list of strings, even for an empty map |
| LegacyComposeFile.InjectEnvironmentEffect | receiver/compose_file.go:89-107 | the edit touches only the `web` service, whose environment becomes the merge |
| LegacyComposeFile.NoEnvironmentPanics | receiver/compose_file.go:42-44 | a `web` service without an environment makes the edit panic, even with nothing to inject |
| LegacyComposeFile.InjectEnvironmentReadBack | receiver/compose_file.go:89-107 | reading the edited environment back gives the current variables overwritten by the injected ones |
| ComposeProject.WebIndex | receiver/model/compose.go:385-391 | the position found holds the service named `web` and none before it does; none is found exactly when no service is named `web` |
| ComposeProject.InjectBuildArgs | receiver/model/compose.go:251-265 | with no `web` service the project is unchanged; otherwise only `web`'s build arguments change: they become present, hold every current and injected key, take the injected values and keep the rest |
| ComposeProject.ArgsCreated | receiver/model/compose.go:258-264 | a `web` service whose build arguments are nil ends up with exactly the injected arguments |
| ComposeProject.InjectEnvironmentVariables | receiver/model/compose.go:267-293 | with no `web` service the project is unchanged; otherwise only `web`'s environment changes, into entries that each hold `=` |
| ComposeProject.InjectEnvironmentReadBack | receiver/model/compose.go:274-292 | reading the rebuilt environment back gives the old `K=V` entries (last one winning) overwritten by the injected pairs, each key written once |
| ComposeProject.InjectEnvironmentKeys | receiver/model/compose.go:276-282 | the keys after the edit are the injected keys and those of old entries holding `=`: an old bare `K` is dropped |
| ComposeProject.RewritePortBindings | receiver/model/compose.go:306-330 | every service keeps its name and its whole configuration except its ports, and no port is left with a binding; ports without one are kept |
| ComposeProject.RewritePortBindingsIdempotent | receiver/model/compose.go:306-330 | rewriting the rewritten project changes nothing |
| ComposeProject.ImageFor | receiver/model/compose.go:122-132 | the image fails exactly when the declared image holds two or more `:`; a service with no image is named `<user>-<app>-<service>` in the registry, tagged with the revision |
| ComposeProject.Built | receiver/model/compose.go:111-116 | the services built are exactly those with a non-empty build context, in project order |
| ComposeProject.BuildExplained | receiver/model/compose.go:91-152 | the k-th builder call builds the k-th service with a build context, passing the arguments of it and of every built service before it; either every call succeeds and the images come back in order, or the run stops at the first image that does not parse (no call for it) or at the first failed build, reported with its service name |
| ComposeProject.EarlierArgsPassed | receiver/model/compose.go:91-152 | every build argument of an earlier built service reaches each later build |
| ComposeProject.PassedArgsEarlier | receiver/model/compose.go:91-152 | every argument a build receives comes from that service or an earlier built one |
| ComposeProject.PushOne | receiver/model/compose.go:219-233 | the calls made for one image are a prefix of: create its repository if missing, then push; the run succeeds exactly when all planned calls do, and a failure is the outcome of the last call made |
| ComposeProject.PushAll | receiver/model/compose.go:218-236 | the calls for all images follow the joined per-image plans, stopping at the first failure, whose error is returned |
| ComposeProject.Push | receiver/model/compose.go:207-217 | a failure to get the account or the authorisation is returned before any registry call |
| ComposeProject.CreateBeforePush | receiver/model/compose.go:218-233 | in the plan, each image's push comes right after the creation of its repository when that repository is missing |
| KeyValueStore.Get | receiver/store/etcd.go:40-48 | the read succeeds exactly when the key is reachable as a value or directory; a value reads back as stored; a failure's message names the key |
| KeyValueStore.List | receiver/store/etcd.go:56-73 | the listing succeeds exactly when the key is reachable and listed, and yields that listing; a failure's message names the key and `recursive: false` |
| KeyValueStore.Set | receiver/store/etcd.go:85-93 | the write succeeds exactly when the key is writable; then the key reads back the value and every other key keeps its value; a failure leaves the store as it was, with a message naming key and value |
| KeyValueStore.Mkdir | receiver/store/etcd.go:75-83 | creating a directory succeeds exactly when the key is writable, and then the key exists; values are untouched; a failure's message names the key |
| KeyValueStore.SetIdempotent | receiver/store/etcd.go:85-93 | writing the same value twice leaves the store as one write does |
| KeyValueStore.SetOverwrites | receiver/store/etcd.go:85-93 | a later write to the same key wins |
| KeyValueStore.SetRaw | receiver/etcd.go:51-55 | the older client writes the same store as the newer `Set` and succeeds exactly when the key is writable, but returns the bare client error |
| RouterRecords.FrontendKeyInjective | receiver/vulcand/vulcand.go:57-58 | two host names with the same frontend key are the same host name, so each host name gets its own record |
| RouterRecords.KeysApart | receiver/vulcand/vulcand.go:46-105 | the frontend key differs from the project's backend and server keys, and the backend key is not a server key |
| RouterRecords.RouteIgnoresCase | receiver/vulcand/vulcand.go:62 | the routing rule is the same whatever the case of the identifier and of the base domain |
| RouterRecords.FrontendRoundTrip | receiver/vulcand/vulcand.go:59-76 | the stored frontend record, ampersands literal, reads back as exactly its backend ID and route |
| RouterRecords.FrontendAsWrittenAgrees | receiver/vulcand/vulcand.go:68-76 | when neither the project name nor the route holds a backslash, replacing `\u0026` by `&` in the marshalled record gives exactly the record with literal ampersands |
| RouterRecords.FrontendAsWrittenBroken | receiver/vulcand/vulcand.go:68-76 | a route identifier starting with the six characters `\u0026`, under a project name free of `\`, gives a stored record that no JSON reader accepts; this is the `user-app` identifier of a user name starting with `\u0026` |
| RouterRecords.StoredFrontendReads | receiver/vulcand/vulcand.go:57-76 | the record the code stores, with `\u0026` replaced, reads back as its backend and route whenever neither the project name, the identifier nor the base domain holds a backslash |
| RouterRecords.ServerRoundTrip | receiver/vulcand/vulcand.go:88-98 | the stored server record reads back as exactly its URL |
| VulcandRegister.SetBackend | receiver/vulcand/vulcand.go:46-54 | the write succeeds exactly when the backend key is writable, and the key then holds the backend record, empty in this revision; a failure leaves the store alone and wraps the store's error |
| VulcandRegister.SetFrontend | receiver/vulcand/vulcand.go:57-83 | the write succeeds exactly when the frontend key is writable and stores the marshalled record with `\u0026` replaced by `&`; when no field holds a backslash that record reads back as the project's backend and the identifier's host route; a failure leaves the store alone |
| VulcandRegister.IdentifiersPlain | receiver/vulcand/vulcand.go:22-43 | when no name of the application and not the base domain holds a backslash, neither host name does, so both frontend records read back |
| VulcandRegister.SetServer | receiver/vulcand/vulcand.go:86-105 | the write succeeds exactly when the server key is writable, and the record then read back holds the container's host address and port; a failure leaves the store alone |
| VulcandRegister.RegisterInformation | receiver/vulcand/vulcand.go:22-43 | a success returns the lower-cased project name and `user-app` as host names; a failing backend key fails the call before anything is written |
| VulcandRegister.RegisterFollowsPlan | receiver/vulcand/vulcand.go:22-43 | the registration makes the writes of a fixed plan (backend, two frontends, server), in order, and fails exactly as that plan fails, with the same message |
| VulcandRegister.RegisterOutcome | receiver/vulcand/vulcand.go:22-43 | the registration succeeds exactly when no planned key is failing; otherwise the writes before the first failing one are made and none after, and the error wraps that write's error with its own context |
| VulcandRegister.WrittenShape | receiver/vulcand/vulcand.go:46-105 | writes never change the failing keys, the directories or the listings |
| VulcandRegister.WrittenFrame | receiver/vulcand/vulcand.go:46-105 | a key no write touches keeps its value, or its absence |
| VulcandRegister.RegisteredWritten | receiver/vulcand/vulcand.go:22-43 | a successful registration has made every planned write and no other |
| VulcandRegister.PlanRecords | receiver/vulcand/vulcand.go:46-105 | after the planned writes the backend and server read back as their records, and each frontend holds the replaced record, which reads back as backend and route when no field holds a backslash |
| VulcandRegister.RegisteredRecords | receiver/vulcand/vulcand.go:22-105 | after a successful registration each host name's frontend holds the replaced record, routing the host to the project's backend when no field holds a backslash; the server holds the container's address, the backend its record, and every other key reads as before |
| VulcandRecordFiles.SetBackend | receiver/vulcand/backend.go:19-27 | the backend key then holds the fixed `{"Type": "http"}` record and the other keys keep their values; a failure leaves the store alone and returns the store's own error |
| VulcandRecordFiles.SetBackendIdempotent | receiver/vulcand/backend.go:19-27 | registering the backend twice leaves the store as registering it once |
| VulcandRecordFiles.SetFrontend | receiver/vulcand/frontend.go:26-52 | stores the replaced record, which reads back as backend and host route when no field holds a backslash; a failure returns the store's error unwrapped |
| VulcandRecordFiles.SetServer | receiver/vulcand/server.go:17-36 | the record read back holds the container's address, other keys are untouched; a failure returns the store's error unwrapped |
| VulcandRecordFiles.ServersPerContainer | receiver/vulcand/server.go:18 | a second container's server registration keeps the first container's server record |
| LegacyVulcand.NewVulcand | receiver/vulcand.go:43-54 | the writer holds the marshalled `{"Type":"http"}` backend record |
| LegacyVulcand.SetBackend | receiver/vulcand.go:57-65 | the backend key then holds the writer's record; a failure leaves the store alone and is wrapped once |
| LegacyVulcand.NewVulcandBackend | receiver/vulcand.go:43-65 | with a writer from `NewVulcand`, the stored backend record is `{"Type":"http"}` |
| LegacyVulcand.SetFrontend | receiver/vulcand.go:68-94 | stores the replaced record, which reads back as backend and host route when no field holds a backslash; a failure is wrapped once |
| LegacyVulcand.SetServer | receiver/vulcand.go:97-116 | the record read back holds the container's address; a failure is wrapped once |
| LegacyVulcand.SameRecordsAsNewer | receiver/vulcand.go:68-116 | the older writer leaves exactly the same frontend and server records behind as the newer one |
| JsonText.Escape | receiver/vulcand/vulcand.go:68 | every character is written as non-empty text that starts with neither a quote nor a raw control character |
| JsonText.Quote | receiver/vulcand/vulcand.go:68 | an encoded string is wrapped in double quotes |
| JsonText.QuoteRoundTrip | receiver/vulcand/vulcand.go:68 | every encoded string reads back as itself, whether `&` is escaped or not |
| JsonText.RestoreBreaksLiteral | receiver/vulcand/vulcand.go:75 | once the text itself holds the six characters `\u0026`, the replacement turns its encoding into `\&`, which no string literal accepts |
| JsonText.PairRoundTrip | receiver/vulcand/vulcand.go:59-68 | a record with two string fields reads back as those two fields |
| JsonText.RestorePairBroken | receiver/vulcand/vulcand.go:68-76 | when the second field of such a record holds the six characters `\u0026`, the replaced record does not read |
| JsonText.SingleRoundTrip | receiver/vulcand/vulcand.go:88-98 | a record with one string field reads back as that field |
| Container.FirstExposedPort | receiver/model/container.go:21-31 | the binding returned is the first binding of the first port, in iteration order, that has one |
| Container.FirstBound | receiver/model/container.go:21-31 | when some port has a binding, there is a first port in iteration order with one |
| Container.FirstHealthy | receiver/model/container.go:49-58 | the attempt found is healthy, lies within `1..maxTry`, and no earlier attempt is; none is found exactly when no attempt up to `maxTry` is healthy |
| Container.ExecuteHealthCheck | receiver/model/container.go:46-61 | the check reports success exactly when some attempt up to `maxTry` is healthy, and then stops at the first such attempt; every attempt requests the same URL with its attempt number; each unhealthy attempt is followed by one pause of the interval |
| ConfigLines.ReadLinesDescribed | receiver/config/config.go:54-64 | the line loop reads exactly the keys of the lines holding `=`, each with the text after its first `=` on its last line |
| ConfigLines.ReadKeys | receiver/config/config.go:56-60 | the keys read are those of the lines holding `=`, and none holds `=` itself |
| ConfigLines.LastLineWins | receiver/config/config.go:62-63 | a later line `K=V` sets `K` to `V` whatever came before |
| ConfigLines.BareLineSkipped | receiver/config/config.go:58-60 | a line without `=` changes nothing |
| ConfigLines.Lookup | receiver/config/config.go:88-100 | a name the file lacks reads as the empty string, a present one as its value |
| Config.SetField | receiver/config/config.go:98 | setting a string setting by name changes that setting to the value and no other setting |
| ConfigLines.LoadConfigFromFile | receiver/config/config.go:41-67 | an unopenable file gives the open error wrapped with the path; otherwise the map the line loop reads (the older receiver/config.go reads its file the same way) |
| Config.LoadConfig | receiver/config/config.go:69-103 | an environment error is wrapped and returned; without a config file the environment's configuration is returned as it is; a file that cannot be opened gives its open error |
| Config.FileOverridesAll | receiver/config/config.go:82-102 | with the file present the load succeeds exactly when the file's `MaxAppDeploy` parses as a 64-bit integer; then every setting is the file's value (`""` when absent) and `MaxAppDeploy` the parsed number; otherwise the error names the value |
| Config.OverrideAll | receiver/config/config.go:88-100 | the loop over the seven setting names replaces each string setting by the file's value and stops with an error at `MaxAppDeploy` when its value does not parse |
| Config.MissingMaxAppDeployFails | receiver/config/config.go:90-94 | a config file without a `MaxAppDeploy` line makes the load fail, since the empty string does not parse |
| LegacyConfig.LoadConfig | receiver/config.go:63-87 | an environment error is wrapped and returned; without a config file the environment's configuration is returned; a file error is wrapped once more with the path; a readable file always gives a configuration |
| LegacyConfig.FileOverridesAll | receiver/config.go:76-86 | with the file present all four settings are the file's values, `""` for those it lacks |
| Util.SortKeys | receiver/util/util.go:93-103 | the keys come out ascending, each key of the map exactly once, whatever order the map is visited in |
| Util.FirstStuck | receiver/util/util.go:55-62 | the position found is the first entry the clean-up tries to remove but cannot; none exactly when every entry is kept or removable |
| Util.RemoveEntries | receiver/util/util.go:55-63 | without a stuck entry only the entries at the kept path remain; otherwise the kept entries before the first stuck one and every entry from it on remain, and the error names its path |
| Util.RemoveUnpackedFiles | receiver/util/util.go:48-66 | an unlistable directory is an error naming it and changes nothing; otherwise the clean-up succeeds exactly when no entry other than the new compose file is stuck, and then only the new compose file's entry remains; a failure names the first stuck path and leaves every entry from it on |
| Util.AtMostOneSurvivor | receiver/util/util.go:55-63 | with distinct plain entry names, at most one entry survives a successful clean-up |
| Util.RemoveAgain | receiver/util/util.go:48-66 | cleaning up a cleaned-up directory succeeds and removes nothing more |
| GoStrings.Split | receiver/config/config.go:56 | `strings.Split` on a single character: at least one piece, no piece holds the separator, and joining the pieces with it gives the text back |
| GoStrings.ToLower | receiver/vulcand/vulcand.go:62 | lower-casing keeps the length and maps every character on its own (ASCII letters only) |
| GoStrings.ToLowerIdempotent | receiver/deploy.go:198 | lower-casing twice is lower-casing once |
| GoStrconv.ParseInt64 | receiver/config/config.go:90 | a parsed value lies in the 64-bit range; a failed parse leaves 0 for a syntax error or the clamped bound for a range error |
| GoStrconv.ParseItoa | receiver/config/config.go:90 | the decimal text of any 64-bit integer parses back to it |
| GoStrconv.ItoaInjective | receiver/deploy.go:132 | two 64-bit integers with the same decimal text are equal |
| GoPath.JoinPathDistinct | receiver/util/util.go:56-57 | joining one directory with two different plain names gives two different paths |
| StringOrder.SortedSeq | receiver/util/util.go:100 | the ascending listing of a set holds each member exactly once |
| StringOrder.Insert | receiver/util/util.go:96-100 | inserting a new key into a sorted listing keeps it sorted and adds exactly that key |
| DeployStages.Execute | receiver/deploy.go:19-150 | the stages run are a prefix of the list; the run succeeds exactly when no stage that can fail fails, and then every stage ran; a failure is the last stage run, whose error is returned as it is, every stage before it having passed |
| DeployStages.Reaches | receiver/deploy.go:19-150 | a stage is reached exactly when every stage before it passed |
| DeployStages.RegistrationAfterStable | receiver/deploy.go:110-141 | the router registration, handed the service address, runs only after the wait for a stable service, the web container, the running instance and the instance lookup all passed |
| DeployStages.RemovalAfterRegistration | receiver/deploy.go:138-147 | the unpacked files are removed only after a successful router registration |
| DeployStages.OneServiceName | receiver/deploy.go:77-104 | the task definition, the log group and the service created all carry the one service name computed once |
| DeployStages.NoCompensation | receiver/deploy.go:101-150 | a failure after the service was created leaves it created: the run is a prefix of the stages, service creation is among them and passed exactly when a later stage ran, and the error is that of the last stage with nothing undone |
| DeployStages.PrintedAfterRegistration | receiver/deploy.go:138-143 | the URLs printed are the lines for the identifiers, printed only after a successful registration |
| Deploy.PrepareComposeFile | receiver/deploy.go:152-190 | a build-argument error is returned before any edit, an environment error after the build arguments were injected; otherwise the save's outcome is returned for a project whose services keep their names and whose ports hold no bindings |
| Deploy.PreparedWeb | receiver/deploy.go:174-183 | after the preparation `web` is found where it was, has every injected build argument with its injected value, and its environment reads as the old `K=V` entries overwritten by the injected variables |
| Deploy.ServiceAddressParses | receiver/deploy.go:129-132 | the service address is the public IP, a colon, and decimal text without a colon that parses back to the host port |
| Deploy.DeployedUrlLines | receiver/deploy.go:192-201 | the first line is the title text handed to `PrintTitle`, naming the repository; then one indented URL per identifier, in order |
| Deploy.DeployedUrlShape | receiver/deploy.go:198 | each URL is the lower-cased scheme, `://`, the lower-cased identifier, `.` and the lower-cased base domain, and lower-casing it again changes nothing |
| Deploy.DeployedUrlsDistinct | receiver/deploy.go:197-199 | identifiers that differ other than in letter case are printed as different URLs |
| Deploy.Deploy | receiver/deploy.go:19-150 | `deploy` runs its twenty stages in source order, stopping at the first error, which it returns unwrapped; when the instance has no public IP or the web container no host-port binding it panics exactly when every stage up to the instance lookup passed, having run all of them; with the address found it succeeds exactly when no stage fails |
| Deploy.DeploySucceeds | receiver/deploy.go:119-150 | `deploy` returns without error exactly when the public IP and host port are found and no stage fails; a missing address never gets past the instance lookup |
| Deploy.PrintedUrls | receiver/deploy.go:129-143 | a run that got to the printing had found the address, and printed one lower-cased URL per returned identifier, in their order |
| Deploy.RegisteredAddress | receiver/deploy.go:129-138 | the registration runs only when the public IP and host port were both found, and is handed an address that reads back as the two |

## Left out

- Reading and writing files, directories, standard input and the network: `UnpackReceivedFiles`, `GetSubmodules`, `RunCommand`, `Timestamp`, `NewComposeFile`, both `SaveAs`, `NewCompose`, `Up`, `Stop`, `Pull` and `GetContainerID` are not modelled; where the core uses their results they are parameters (the save's outcome, the file's lines, the directory listing, the timestamp).
- YAML and JSON parsing and the libcompose loader: a compose file is modelled as the decoded value `yaml.Unmarshal` leaves, and a libcompose project as the list of its services with the fields the receiver reads or edits.
- Go's map iteration order: lists built by ranging over a map come out in ascending key order (see above); the Go program may emit them in any order.
- The AWS, Docker, etcd and HTTP services: each call is an oracle giving its outcome (`Registry` for ECR, `Store.failing` for etcd, a `healthy` function for `http.Get`, the stage outcome for `deploy`).
- `time.Sleep`, `time.Now` and the health-check callback's output: the health check returns the sleeps and attempts it would make instead of making them.
- The goroutine that copies `docker build` output to the terminal, every message printed by `msg` other than the deployed URLs, and the decoration `msg.PrintTitle` adds to the title (the `======> ` prefix and the bold escapes).
- `envconfig.Process` and its defaults: the configuration read from the environment is an input to `LoadConfig`.
- The `%q` quoting of `strconv` error texts: error messages carry the input text unquoted.
- Go strings are byte sequences; the model's strings are sequences of characters, so `revision[0:8]`, `strings.Split` and the other index-based operations count characters where Go counts bytes. The two agree on ASCII text, such as the hexadecimal revisions; on other text a model index can name a different position than Go's.
- `strings.ToLower` beyond ASCII: only `A`-`Z` are lowered.
- DeployStages.Execute: the stages of `deploy` that call functions whose definitions are not part of this model (`UpdateImages`, `TransformToTaskDefinition`, `RegisterTaskDefinition`, the ECS waits and lookups, and a four-argument `RegisterInformation`) are abstract stages whose outcome an oracle gives; the `prepareComposeFile` stage's outcome is likewise an oracle inside the pipeline, while `Deploy.PrepareComposeFile` models that function on its own.
- `Deployment.Register` (receiver/model/deployment.go), which calls an etcd helper with a signature not part of this model, and `main.go` with its argument handling.
- Deployment.NewDeployment, Deployment.FromArgs: require a revision of eight characters or more, where Go would panic on `revision[0:8]`.
- CommitMetadata.FromArgs, Application.FromArgs: require at least three arguments and a revision of eight characters or more, where Go would panic on `args[i]` or `revision[0:8]`; the tests' expectation of an error for empty arguments is not modelled.
- Ecr.ExtractToken, EcrService.ExtractToken, Ecr.AuthConfigurationFrom, EcrService.AuthConfigurationFrom: require that a decoded token holds a `:`, where Go would panic indexing the second piece; the two `AuthConfigurationFrom` inherit the requirement from `ExtractToken`.
- EcsTaskDefinition.EnvEntry, EcsTaskDefinition.KeyValuePairs, EcsTaskDefinition.KeyValuePairsAppend, EcsTaskDefinition.DroppedWithoutLookup, EcsTaskDefinition.ContainerDefinitionOf, EcsTaskDefinition.ConvertServices, EcsTaskDefinition.ConvertServicesNames, EcsTaskDefinition.ConvertServicesMounts, EcsTaskDefinition.ConvertToTaskDefinition, EcsTaskDefinition.TaskDefinitionContents, EcsTaskDefinition.TaskDefinitionVolumes: require that a lookup answer for an entry without a value is empty or starts with a `K=V` entry, where Go would index past the end of the split; every member after `EnvEntry` inherits the requirement, for every entry of every service it converts.
- Container.FirstExposedPort, Container.FirstBound: require some port to have a binding, where Go would panic on `ary[0]`.
- Base64.Decode: a malformed token gives the error text `illegal base64 data` without Go's ` at input byte N` suffix, and `Ecr.ExtractToken` returns that text unwrapped.
- ComposeProject.Push: whether a repository exists is answered for the registry as it stood before the push, so two images with the same registry and name each get a creation call, where the Go code's second check would find the repository the first one made.
- Deploy.RegisteredAddress, Deploy.ServiceAddressParses: require the host port to lie in the 64-bit range, which the source's `*int64` guarantees.

## Findings

| source | as written | input that shows it | evidently intended | confidence | as-written member | corrected member |
|---|---|---|---|---|---|---|
| receiver/model/application.go:37-75 | `var args map[string]string` is never made, so the first `args[...] = value` writes to a nil map and panics | a user, app and `build-args/` directory in etcd holding one readable key | build the map, return the settings read | not executed | Application.BuildArgsAsWrittenPanics | Application.BuildArgs |
| receiver/model/application.go:77-115 | `var envs map[string]string` is never made either, so the first `envs[...] = value` panics the same way | a user, app and `envs/` directory in etcd holding one readable key | build the map, return the variables read | not executed | Application.EnvironmentVariablesAsWrittenPanics | Application.EnvironmentVariables |
| receiver/vulcand/vulcand.go:74-76 | `bytes.Replace(b, "\u0026", "&", -1)` also rewrites the text `\u0026` when the data itself held it, which `json.Marshal` had encoded as `\\u0026`, leaving the invalid escape `\&` | a user name starting with the six characters `\u0026` (the `user-app` identifier), with a project name free of `\` | undo only the encoder's own escapes of `&` | not executed | RouterRecords.FrontendAsWrittenBroken | RouterRecords.FrontendRoundTrip |
