# A verified model of yage's manifest, pivot, cost and configuration logic

yage bootstraps Kubernetes clusters through Cluster API. Most of it is orchestration, but some parts
carry algorithms or protocols whose correctness is not visible from any one function. This project
models those parts in Dafny and proves what they are for.

`dafny verify dfyconfig.toml` checks everything.

## How the model is built

**Manifest patches** (`Text`, `TemplateRevision`, `TemplateLines`, `TemplateTheorems`,
`TemplateText`, `TemplateReferences`, `TemplateFrame`, `TemplateWitness`, `MachineSizing`,
`SizingLines`, `Labels`, `HelmLabels`, `ClusterLabel`, `LabelEntries`, `ControlPlane`,
`ControlPlaneLines`, `Identity`, `IdentityValues`, `IdentityEdits`, `IdentityOrder`,
`IdentityReading`, `IdentityTrim`, `IdentityRename`). A manifest is the sequence of its
lines, that is, its bytes split at newlines; `Text` proves that this loses nothing
(`LinesOfUnlines`, `UnlinesOfLines`) and that documents can be split off and joined again. Each
regular expression becomes a function on lines. Where `\s` can run over a line end, the function
looks at the following lines too, and where an expression backtracks, so does the function.
SHA-256 is a parameter that yields eight hex digits, Go's `%q` is a parameter, and `sort.Slice` is
any order that the comparison allows.

**Pivot** (`Pivot`, `PivotSteps`, `Parity`, `Orchestrator`, `ManagementCluster`). `Pivot` is a
transition system: a run is the sequence of external calls with their outcomes, which are arbitrary.
`Orchestrator.Bootstrap` is the program: a class whose methods have the source's control flow and
which is proved, method by method, to perform runs of that system whatever the outside world
answers. `Parity` is the polling loop, and `ManagementCluster` the retry that points the
configuration at another manifest and back.

**Cost comparison** (`Fanout`, `Sorting`, `Compare`). `Fanout` interleaves the atomic steps of the
worker goroutines, the watcher that closes the channel and the consumer, for any number of jobs and
any buffer size; a send after the close, a second close and a negative wait group can be stepped
into and panic, and are proved unreachable. `Sorting` says what a sort that breaks ties as it likes
can return.

**Configuration** (`Snapshot`, `AppList`, `Numbers`). The snapshot schema, its codecs, the explicit
guards, and the overlays, which visit a Go map in any order.

**Prices and sizing** (`PriceCache`, `Regions`, `Feasibility`). The read-through cache as steps on
files that other calls can interleave with, and as a class whose `Fetch` performs those steps; the
ranking of regions; the feasibility gate over exact rationals.

Functions that only compute have no contract of their own beyond what callers need: what they mean
is stated by the lemmas about them, and every method is tied to such a function or to a property.
The modules `TemplateFrame`, `SizingLines`, `LabelEntries`, `ControlPlaneLines` and `IdentityValues`
say what the patches do in terms of the lines of the manifest alone: which documents they treat, what
they write, and that nothing else changes.

## What does not hold

The following were found to be false of the code. Each has the exact condition, and each manifest
patch a manifest on which it shows. What a condition presupposes is said with the member under "Left
out".

- A second run of the template patch changes the manifest exactly when one of three things holds
  (`TemplateText.PatchIdempotent`): some template carries a name that does not fit its body any more,
  because the body holds a reference that the first run rewrote (`PatchIdempotentLines`,
  `TemplateWitness.SecondRunRenames`); or a reference was rewritten to a name that is itself a stem,
  as when templates are called `x` and `x-t12345678-t00000000` (`TemplateWitness.SecondRunRewrites`);
  or a document ends in a line `---`.
- The lines that name a template follow its rename, in all documents, exactly when the template was up
  to date, or bare with a new name that is no stem, or when nothing else names it: references to an
  older suffixed name stay behind (`TemplateReferences.DistinctFollowed`, `StaleReferences`,
  `TemplateWitness.ReferenceStays`). That is for one template with its stem; where several share one,
  references take the name of the last, and `RenamingFollowed` has the condition.
- The metadata name pattern also takes the white lines below the name. If a match runs to the end of
  the metadata, the `spec:` header is glued to the new name and lost
  (`TemplateReferences.HeaderSurvives`, `HeaderSwallowed`, `TemplateWitness.HeaderIsLost`).
- The template patch trims the documents, and that can change the identity of the cluster: exactly, for
  a Cluster that names itself, when its name or namespace stands on the last line of the document with
  white space behind it (`IdentityRename.TemplatePatchKeepsIdentity`, `TrailingBlankIsLost`). For all
  other manifests the identity read afterwards is that of the lines which trimming leaves
  (`IdentityRename.TemplatePatchReads`).
- A sizing substitution can be repeated exactly when its value starts with something that is not
  white; with an empty value the second run overwrites the next line of the template
  (`MachineSizing.RepeatableIff`).
- A control-plane template keeps its sizes exactly when its name does not contain `worker` as well, for
  example through the cluster's name, or the worker sizes agree with them on every line
  (`MachineSizing.OverlappingRoles`, `WorkerSizesControlPlane`).
- Removing the kube-proxy phase undoes adding it exactly when no control plane carried the phase in a
  place that the removal reaches (`ControlPlane.RemoveTextUndoesAdd`, `RemovalTakesMore`).
- `DiscoverWorkloadClusterIdentity` is described as reading the metadata block of the Cluster, but
  with `(?s)` its group runs to the end of the text. A Cluster without a namespace gets the
  namespace of some later document (`Identity.NamespaceIsOwnIff`, `NameIsOwnIff`,
  `ForeignNamespace`).
- The comparison result is called "re-sorted deterministically" (internal/cost/compare.go:131-132).
  It is determined exactly when no two priced providers have equal totals
  (`Compare.DeterminedIffTotalsDiffer`).
- Two vendors and regions can share a cache file for some SKUs exactly when one vendor continues the
  other after a dot or is equal to it, and likewise the regions
  (`PriceCache.SharedIffOverlap`); and the cache agrees with the vendors in every run exactly when no
  two queries share a file (`PriceCache.HonestIffInjective`).
- A list of application groups survives the snapshot exactly when it is not empty and every group is
  light, medium or heavy with a positive count: groups with custom sizes and groups with the default
  (empty) template are lost (`AppList.RestoredIff`). What follows a group is read in step exactly when
  its template is an odd number of words (`AppList.PairingKeptIff`).
- Raising the budget can worsen a verdict exactly when there was none before
  (`Feasibility.RaisingTheBudget`).
- The comment at internal/orchestrator/bootstrap.go:896-900 says that kind is torn down when a run
  stops before the workload. The code leaves it alive, and so does the model (`Pivot.KindStays`).

## Model

| member | source | states |
|---|---|---|
| `Text.LinesOfUnlines` | internal/capi/manifest/patches.go:308-312 | splitting the bytes of any list of newline-free lines gives the list back |
| `Text.UnlinesOfLines` | internal/capi/manifest/patches.go:308-312 | joining the lines of any text gives its bytes back, so nothing is lost by working on lines |
| `Text.UnlinesCat` | internal/capi/manifest/patches.go:331-347 | concatenating texts byte by byte is gluing their lists of lines |
| `Text.JoinInBytes` | internal/capi/manifest/patches.go:293 | joining documents is putting the bytes `\n---\n` between them |
| `Text.JoinOfSplit` | internal/capi/manifest/patches.go:264-293 | joining the documents of any text gives the text back |
| `Text.SplitOfJoin` | internal/capi/manifest/patches.go:264-293 | splitting joined documents gives them back, when no separator is inside one |
| `Text.SplitYieldsForm` | internal/capi/manifest/patches.go:264 | what splitting any text yields has no separator inside a document |
| `Text.TrimTextOfTight` | internal/capi/manifest/patches.go:322-330 | trimming a tight document with its final newline leaves it as it is |
| `Text.TrimTextIsTrim` | internal/capi/manifest/patches.go:325 | trimming by lines is trimming the bytes |
| `Text.FieldIs` | internal/capi/manifest/patches.go:313-317 | the value of a field is what stands behind its key without the white space around it, or, where there is nothing, on the next line that is not white |
| `TemplateRevision.MapRefParses` | internal/capi/manifest/patches.go:376-381 | a substituted reference line is again a reference line, with the same indentation and padding and the new value |
| `TemplateRevision.NextPass` | internal/capi/manifest/patches.go:367-381 | on any line, the passes for the longest stems so far followed by one more pass equal one simultaneous substitution: a rewritten line is never rewritten again |
| `TemplateRevision.MapJoined` | internal/capi/manifest/patches.go:361-381 | substituting in the joined text is substituting in every document and leaving the separators alone |
| `TemplateRevision.StemOfNew` | internal/capi/manifest/patches.go:320-349 | stripping the suffix of a new name gives its stem, and new names are suffixed |
| `TemplateRevision.SortLongestFirst` | internal/capi/manifest/patches.go:367-371 | yields every stem once, longest first, in whatever order the stems of one length come |
| `TemplateRevision.TrimmedDocs` | internal/capi/manifest/patches.go:322-330 | the loop yields the trimmed documents, each with one final newline, without the empty ones |
| `TemplateRevision.RenameTemplates` | internal/capi/manifest/patches.go:331-360 | the loop over the documents yields the renamed documents and the map from every stem to its new name |
| `TemplateRevision.RewriteReferences` | internal/capi/manifest/patches.go:367-381 | the loop over the stems equals one simultaneous substitution of all stems, whichever order ties are broken in |
| `TemplateRevision.PatchSpecRevisions` | internal/capi/manifest/patches.go:303-385 | the whole patch, loops included, equals its specification on every text; switched off, it changes nothing |
| `TemplateFrame.EachPart` | internal/capi/manifest/patches.go:323-329 | every part of the text that is not all white is a document, trimmed and with one final newline |
| `TemplateFrame.StemsAreRead` | internal/capi/manifest/patches.go:331-360 | every stem that references are rewritten for is read off a `name:` line above the `spec:` line of a document whose kind is ProxmoxMachineTemplate and whose version is one of the infrastructure group; it stands for the stem, `-t` and the hash of the text from the `spec:` line on |
| `TemplateFrame.OthersKeepTheirLines` | internal/capi/manifest/patches.go:331-336 | a document without that kind, without that version, without a `spec:` line or without a metadata name keeps every line, except that references to stems are redirected |
| `TemplateFrame.ReferencesAreRedirected` | internal/capi/manifest/patches.go:370-381 | and there every reference to a stem is redirected, with its indentation and padding |
| `TemplateFrame.TemplateIsRenamed` | internal/capi/manifest/patches.go:337-360 | a template is called by the stem of its first name with the hash of its text from the `spec:` line on, on every name line of its metadata, unless its new name is itself a stem; no other line changes except for references |
| `TemplateTheorems.ReviseTidy` | internal/capi/manifest/patches.go:331-360 | on metadata whose names have their value on the line, the rename changes the name lines only, and every line keeps its place |
| `TemplateTheorems.SecondRead` | internal/capi/manifest/patches.go:331-360 | what a second run reads off every patched document: the name it carries, that name's stem, and the hash of the rewritten body |
| `TemplateTheorems.SecondRunMoves` | internal/capi/manifest/patches.go:331-385 | a template whose carried name does not fit its body as the patch leaves it is renamed again by the second run |
| `TemplateTheorems.DocsIdempotent` | internal/capi/manifest/patches.go:303-385 | two runs on the documents equal one exactly when every template carries the name that fits its rewritten body, and no reference was rewritten to a name that is a stem for the second run |
| `TemplateTheorems.UnchainedIdempotent` | internal/capi/manifest/patches.go:303-385 | when no new name is a stem, two runs equal one exactly when no body changes its hash by the references inside it being rewritten |
| `TemplateText.PatchIdempotent` | internal/capi/manifest/patches.go:303-385 | two runs equal one byte for byte, separators and trimming included, exactly when no document ends in a separator line, every template carries the name that fits its body, and no reference was rewritten to a stem |
| `TemplateText.BodyUntouched` | internal/capi/manifest/patches.go:376-381 | a spec body stays as it is exactly when it holds no `name: <stem>` line |
| `TemplateText.PatchIdempotentLines` | internal/capi/manifest/patches.go:303-385 | the same in terms of lines, unless a rewritten body collides with its own hash: a name fits its body exactly when the body holds no `name: <stem>` line |
| `TemplateReferences.RenamingFollowed` | internal/capi/manifest/patches.go:331-381 | every line of the manifest that names a template names it after the patch exactly when each such line is renamed with a template of that name that gets the same new name, or the template is current: up to date, or bare, with the new name its stem stands for being its own and no stem |
| `TemplateReferences.DistinctFollowed` | internal/capi/manifest/patches.go:331-381 | with one template for its stem, that is exactly when the template is current or nothing but its own metadata names it |
| `TemplateReferences.StaleReferences` | internal/capi/manifest/patches.go:331-381 | a reference, in any document, to a template that carries an older suffix does not name it afterwards, and its line stays as it was if the old name is no stem |
| `TemplateReferences.StemTakesTheLast` | internal/capi/manifest/patches.go:350-381 | where several templates share a stem, a reference to the stem takes the new name of the last of them |
| `TemplateReferences.AgreementIff` | internal/capi/manifest/patches.go:331-381 | in every manifest, old suffixes and shared stems included, all pairs of names agree after the patch as they did before exactly when renaming and rewriting bring the same names together |
| `TemplateReferences.ReferencesResolve` | internal/capi/manifest/patches.go:331-381 | when all templates are current, that is exactly when no name is already the new name of a template named in the manifest |
| `TemplateReferences.RenameKeepsLines` | internal/capi/manifest/patches.go:317-317 | the rename keeps the number of lines exactly when no matched name is followed by a white line |
| `TemplateReferences.HeaderSurvives` | internal/capi/manifest/patches.go:317-361 | the `spec:` line keeps a line of its own exactly when no replaced match of the name pattern runs to the end of the metadata |
| `TemplateReferences.HeaderSwallowed` | internal/capi/manifest/patches.go:317-361 | a renamed template where a match does run to the end has its header glued to the new name; if that was its only `spec:` line, the patch no longer takes it for a template |
| `TemplateWitness.SecondRunRenames` | internal/capi/manifest/patches.go:303-385 | a template that the second run renames again |
| `TemplateWitness.SecondRunRewrites` | internal/capi/manifest/patches.go:303-385 | a manifest without references in bodies that the second run changes, because a new name is a stem |
| `TemplateWitness.ReferenceStays` | internal/capi/manifest/patches.go:331-381 | a reference in another document that keeps the old suffix |
| `TemplateWitness.HeaderIsLost` | internal/capi/manifest/patches.go:317-361 | a template that is none after the rename |
| `MachineSizing.SubSettles` | internal/capi/manifest/patches.go:118-121 | a substitution whose value starts with something not white can be repeated on any text, also where its value lies on a later line |
| `MachineSizing.RepeatableIff` | internal/capi/manifest/patches.go:101-121 | a substitution can be repeated on every text exactly when its value starts with something that is not white |
| `MachineSizing.SubAllByLine` | internal/capi/manifest/patches.go:101-108 | the substitutions one after the other work line by line |
| `MachineSizing.FirstKeyWins` | internal/capi/manifest/patches.go:101-108 | on a line with several sizing keys the first one gets its value, and what follows it is gone |
| `MachineSizing.LaterSizingWins` | internal/capi/manifest/patches.go:61-62 | sizing a template twice gives what one sizing gives with the later values, and the earlier ones for a key that the later sizing lacks |
| `MachineSizing.RoleKept` | internal/capi/manifest/patches.go:94-109 | a sized template has exactly the roles it had |
| `MachineSizing.SecondSizing` | internal/capi/manifest/patches.go:61-108 | a second sizing changes nothing exactly when, on every line, its value for the first key is the first sizing's, or the one that is there |
| `MachineSizing.OverlappingRoles` | internal/capi/manifest/patches.go:61-113 | a template that is sized for one role and then for another keeps the first sizes exactly when its name does not contain the second role, or the sizings agree on every line |
| `MachineSizing.WorkerSizesControlPlane` | internal/capi/manifest/patches.go:61-113 | a control-plane template with `worker` in its name that ends with the worker disk |
| `MachineSizing.ReplaceFields` | internal/capi/manifest/patches.go:101-108 | the chain of replacements equals the fold of the substitutions |
| `MachineSizing.PatchPMTBlock` | internal/capi/manifest/patches.go:88-116 | the loop sizes exactly the templates that have the role, on every text |
| `SizingLines.SizedLine` | internal/capi/manifest/patches.go:96-112 | on a line of a template that plays the role, behind the first sizing key stands the size for that key and nothing else; a line without a sizing key stays |
| `SizingLines.LinesAbove` | internal/capi/manifest/patches.go:119-122 | a substitution leaves the lines above the first one with the key |
| `SizingLines.ValueOnLine` | internal/capi/manifest/patches.go:119-122 | a substitution replaces a value on the line of its key up to the end of the line |
| `SizingLines.ValueOnLaterLine` | internal/capi/manifest/patches.go:119-122 | and otherwise the text on the next line that is not white |
| `SizingLines.NoValue` | internal/capi/manifest/patches.go:119-122 | where only white space follows the key, the last character of it makes room for the value |
| `SizingLines.OthersKeepTheirSizes` | internal/capi/manifest/patches.go:89-99 | a document without the kind, or whose name does not contain the role, stays as it is |
| `Labels.PatchIsInsertion` | internal/capi/caaph/caaph.go:81-156 | the label loop with its shifting indices is one insertion at one place of the metadata block: a labels line if there was none, and one entry for each wanted key that no line carries |
| `Labels.PatchedHead` | internal/capi/caaph/caaph.go:81-156 | the metadata line stays, the line that ended the block still ends it, and the document is still a Cluster |
| `Labels.PatchedComplete` | internal/capi/caaph/caaph.go:81-156 | afterwards every wanted key is on some line of the metadata block |
| `Labels.PatchTwice` | internal/capi/caaph/caaph.go:81-156 | a second run on a document changes nothing |
| `Labels.PatchSeparable` | internal/capi/caaph/caaph.go:81-160 | a patched document is still one document |
| `Labels.PatchTextTwice` | internal/capi/caaph/caaph.go:57-160 | a second run on the manifest changes no byte |
| `Labels.FindBlockEnd` | internal/capi/caaph/caaph.go:100-106 | the scan finds the first line that is neither empty nor indented |
| `Labels.SkipRun` | internal/capi/caaph/caaph.go:133-148 | the scan stops at the first line outside the run, or at the end of the block |
| `Labels.InsertLabel` | internal/capi/caaph/caaph.go:115-154 | one round of the loop keeps the lines, the block end and the labels index in step |
| `Labels.InsertLabels` | internal/capi/caaph/caaph.go:100-155 | all rounds of the loop |
| `Labels.PatchOne` | internal/capi/caaph/caaph.go:81-156 | one document: untouched unless it is a CAPI Cluster with a metadata line |
| `Labels.PatchClusterLabels` | internal/capi/pivot/manifest.go:151-228 | the loop over the documents, in place, equals the specification for every text |
| `HelmLabels.ClusterLabelsAreKeys` | internal/capi/caaph/caaph.go:66-77 | the four labels, whatever their values, are label names without repetitions, so the theorems above apply to them |
| `LabelEntries.EntryArrives` | internal/capi/caaph/caaph.go:115-154 | every wanted label that no line of the block carried has its entry afterwards: its key and its quoted value, or `caaph: enabled`, on a line of the run below a labels line of the metadata block |
| `LabelEntries.EntriesAre` | internal/capi/caaph/caaph.go:81-156 | exactly what is written: behind the entries below the first labels line of the block, or behind the metadata, the entries of the wanted labels that no line of the block carried, each with its key and quoted value, in their order, below a labels line where there was none; a document that is no Cluster of the CAPI group stays |
| `LabelEntries.HelmEntryArrives` | internal/capi/caaph/caaph.go:66-160 | every Cluster of a manifest says afterwards what the configuration does: `caaph: enabled`, identifier, host and port, each where the block had no such label |
| `ClusterLabel.EnsureFrame` | internal/capi/manifest/generate.go:553-583 | a Cluster document is left alone exactly when its block is labelled; otherwise the old lines stay in order and one entry goes in inside the block, below a new labels line exactly when the block had none |
| `ClusterLabel.EnsuredHead` | internal/capi/manifest/generate.go:543-583 | the metadata block stays where it is and still ends at the same line |
| `ClusterLabel.EnsuredBlock` | internal/capi/manifest/generate.go:553-583 | afterwards the run of labels holds the cluster-name entry |
| `LabelEntries.ClusterNameArrives` | internal/capi/manifest/generate.go:543-583 | a block whose first labels line has the entry below it stays; otherwise the cluster name in quotes goes into the block, with a labels line where there was none, and then it is there |
| `LabelEntries.FirstIsNamed` | internal/capi/manifest/generate.go:521-542 | of all documents only the first Cluster of the CAPI group gets the label |
| `ClusterLabel.EnsureDocTwice` | internal/capi/manifest/generate.go:543-583 | a second run on a document changes nothing, even with another cluster name |
| `ClusterLabel.EnsureTextTwice` | internal/capi/manifest/generate.go:521-593 | a second run on the manifest changes no byte |
| `ClusterLabel.FinalNewlineStays` | internal/capi/manifest/generate.go:587-590 | the branch that restores a lost final newline is never needed |
| `ClusterLabel.FindEntry` | internal/capi/manifest/generate.go:561-568 | the scan finds the entry exactly when some line of the run starts with its key |
| `ClusterLabel.LabelDoc` | internal/capi/manifest/generate.go:543-583 | one document, loops included, equals the specification |
| `ClusterLabel.EnsureWorkloadClusterLabel` | internal/capi/manifest/generate.go:521-593 | only the first CAPI Cluster document is touched, and the text is what the specification says |
| `ControlPlane.RemoveUndoesAdd` | internal/capi/manifest/patches.go:259-294 | on a control-plane document, removing the kube-proxy phase undoes adding it exactly when the document did not carry the phase, or carried it out of the removal's reach |
| `ControlPlane.RemoveTextUndoesAdd` | internal/capi/manifest/patches.go:259-294 | removing the phase from a text undoes adding it, byte for byte, exactly when that holds of every control-plane document |
| `ControlPlane.RemovalTakesMore` | internal/capi/manifest/patches.go:259-294 | a control plane whose own phase is removed |
| `ControlPlane.AddTextTwice` | internal/capi/manifest/patches.go:259-294 | adding the phase to a text a second time changes no byte |
| `ControlPlane.PatchSkipPhases` | internal/capi/manifest/patches.go:259-298 | the loop treats every control-plane document and no other |
| `ControlPlaneLines.CarriedIff` | internal/capi/manifest/patches.go:268 | when a document carries the phase: line for line, what the expression finds |
| `ControlPlaneLines.PhaseIsAdded` | internal/capi/manifest/patches.go:279-285 | a document whose kind is not KubeadmControlPlane, or that carries the phase, stays; in every other one the two lines go behind every init configuration, and every line keeps its order |
| `ControlPlaneLines.PhaseIsRemoved` | internal/capi/manifest/patches.go:270-288 | a document whose kind is not KubeadmControlPlane, or without a skip phase that stands alone under an init configuration, stays; otherwise the first such block goes, and so on behind it |
| `ControlPlane.InjectTextTwice` | internal/capi/manifest/patches.go:160-192 | injecting the memory adjustment into any text a second time changes no byte |
| `ControlPlane.InjectFrame` | internal/capi/manifest/patches.go:160-192 | at most one document changes, and only by the two hint lines behind its spec block and a final newline if it had none |
| `ControlPlane.InjectedStays` | internal/capi/manifest/patches.go:160-192 | the document that got its hints is still the ProxmoxCluster document and has its hints |
| `ControlPlane.InjectMemoryAdjustment` | internal/capi/manifest/patches.go:160-192 | the loop with its break equals the specification on every list of documents |
| `ControlPlaneLines.FirstIsInjected` | internal/capi/manifest/patches.go:160-173 | only the first document whose kind is ProxmoxCluster and whose version is one of the infrastructure group is treated, and none without an adjustment |
| `ControlPlaneLines.HintsAreInjected` | internal/capi/manifest/patches.go:173-190 | the hints and the adjustment go behind the first spec block of complete lines; a document with hints or without such a block stays |
| `Identity.InsertionKeepsIdentity` | internal/capi/manifest/generate.go:489-516 | lines that start none of the expressions, the last of them ending whatever it is in, can go in at a quiet place of any text, or come out, without a change to the name and namespace that are read |
| `Identity.InsertionInDocKeepsIdentity` | internal/capi/manifest/generate.go:489-516 | the same for lines that go into one document of the text |
| `Identity.NamespaceIsOwnIff` | internal/capi/manifest/generate.go:486-516 | the namespace read is the Cluster's own one, or the default, exactly when its block has one, or no later line of any document has, or that line says default |
| `Identity.NameIsOwnIff` | internal/capi/manifest/generate.go:486-511 | likewise for the name: it is the block's, or the function gives up, exactly when the block has one or no later line has |
| `IdentityValues.CaptureGiven` | internal/capi/manifest/generate.go:503-504 | a value is read without its quotes, and as it stands where it has none |
| `IdentityValues.InLineIs` | internal/capi/manifest/generate.go:503-504 | what is read off any line: the value without its quotes, from a single quote the white character in front of it, and nothing from anything else |
| `IdentityValues.CaptureBelow` | internal/capi/manifest/generate.go:503-504 | where the line of the key has no value, it is read off the next line that is not white, or it is the last white character in between |
| `IdentityValues.IdentityIsGiven` | internal/capi/manifest/generate.go:486-516 | the identity of the first Cluster of the CAPI group is what its first `name:` line and its first `namespace:` line with something to read say, in any order, quoted or not |
| `IdentityValues.DefaultIsGiven` | internal/capi/manifest/generate.go:512-516 | without a namespace to read on any line below, the namespace is "default" |
| `IdentityValues.IdentityNeeds` | internal/capi/manifest/generate.go:499-511 | where the function does not give up, there are a version of the CAPI group, a `kind: Cluster`, metadata and a name |
| `Identity.ForeignNamespace` | internal/capi/manifest/generate.go:499-516 | a manifest whose Cluster has no namespace and is given that of a later document |
| `IdentityEdits.LabelKeepsIdentity` | internal/capi/manifest/generate.go:489-593 | adding the cluster-name label, of any name, at a quiet place leaves name and namespace as read |
| `IdentityEdits.HelmKeepsIdentity` | internal/capi/caaph/caaph.go:57-160 | adding the Helm labels leaves name and namespace as read, if the place is quiet in every Cluster document |
| `IdentityEdits.SkipPhasesKeepIdentity` | internal/capi/manifest/patches.go:259-294 | adding the kube-proxy phase to all control-plane documents, and removing it, leaves name and namespace as read |
| `IdentityOrder.EditKeeps` | internal/capi/manifest/generate.go:489-593 | each of these patches keeps the identity of an orderly text, and its order |
| `IdentityOrder.EditsKeepIdentity` | internal/capi/manifest/generate.go:489-593 | these patches, in any order and any number of times, leave name and namespace as read on a text that is orderly to begin with: calm metadata blocks in Clusters, no header line below an init configuration in control planes |
| `IdentityReading.ReadJoined` | internal/capi/manifest/generate.go:489-516 | the reading of a text, header, name and namespace, is put together from the readings of its documents |
| `IdentityTrim.ReadTrimmed` | internal/capi/manifest/patches.go:322-330 | a trimmed document is read like the lines that trimming leaves of it: without those at its white end, the first one unindented, the last one without the white space at its end |
| `IdentityTrim.TrimmedTextReads` | internal/capi/manifest/patches.go:322-330 | the trimmed text is read like that, document by document, the empty ones included |
| `IdentityTrim.OwnIdentityKept` | internal/capi/manifest/patches.go:322-330 | trimming keeps the identity of a Cluster that names itself exactly when neither its name nor its namespace is read off the last line of the document with white space at its end |
| `IdentityRename.RenamingKeepsIdentity` | internal/capi/manifest/generate.go:489-516 | texts that differ in name lines other than the cluster's have the same identity |
| `IdentityRename.TemplatePatchReads` | internal/capi/manifest/patches.go:303-381 | the identity read off the patched text is that of the documents as trimming leaves them, if the cluster's name line is not a template's |
| `IdentityRename.TemplatePatchKeepsIdentity` | internal/capi/manifest/patches.go:303-381 | the patch keeps the identity of a text if the first and last lines of its documents are read alike when trimmed; for a Cluster that names itself exactly when neither name nor namespace stands on the last line with white space behind it |
| `IdentityRename.TrailingBlankIsLost` | internal/capi/manifest/patches.go:322-330 | a manifest without templates whose cluster is named otherwise after the patch |
| `Pivot.TeardownIsSafe` | internal/orchestrator/bootstrap.go:835-1061 | in every run, when kind is gone, the pivot did everything in its order, nothing asked to keep kind, kubectl points at the management cluster and all objects of the listed namespaces are there |
| `Pivot.KindStays` | internal/orchestrator/bootstrap.go:883-908 | in every run, a failure anywhere, a dry run, a stop before the workload, a provider without pivot target and each keep flag leave kind alive |
| `PivotSteps.EveryStepIsTaken` | internal/orchestrator/bootstrap.go:835-1061 | a run that has deleted kind has stood at every step of the pivot, has installed every driver, and its last event is the successful deletion |
| `PivotSteps.FailureEnds` | internal/orchestrator/pivot_sequence.go:45-90 | every failure but that of the pause, the handoff, the deletion and a first try ends the run there and then as a failure |
| `Pivot.NothingIsLost` | internal/capi/pivot/move.go:162-198 | at every point of every run each object is on kind or management; a dry run moves nothing; a move that reported success emptied its namespace; and the namespaces moved are the first ones of the list, at most one more is touched |
| `Pivot.MovedInOrder` | internal/capi/pivot/move.go:162-198 | in every run, also one that failed: for some n the first n namespaces are on management and off kind, and whatever belongs to none of the first n + 1 is where it was; n is known at every program point of the move and after it |
| `Pivot.AtMostTwoTries` | internal/capi/pivot/move.go:162-198 | in every run each namespace is tried at most twice, counted by its name, when the list has no repetitions |
| `Orchestrator.SelectedAtMostTwice` | internal/capi/pivot/move.go:162-284 | so none of the selected namespaces is tried more than twice |
| `Pivot.ParityWitness` | internal/capi/pivot/pivot.go:187-300 | parity is reached by one single polling round whose answers alone pass all six checks |
| `Pivot.HandOffDoesNotAbort` | internal/orchestrator/pivot_sequence.go:53-60 | the outcome of the handoff makes no difference to what a run can do |
| `Parity.CheckRound` | internal/capi/pivot/pivot.go:187-300 | one round succeeds exactly when all six checks hold of the same answers |
| `Parity.VerifyParity` | internal/capi/pivot/pivot.go:159-300 | success is the success of one whole round before the deadline; rounds are never combined |
| `Orchestrator.DistinctNames` | internal/capi/pivot/move.go:273-284 | deduplication keeps every non-empty name once, in order of first occurrence, and invents none |
| `Orchestrator.Dedupe` | internal/capi/pivot/move.go:273-284 | the loop over the names equals deduplication |
| `Orchestrator.SelectNamespaces` | internal/capi/pivot/move.go:253-271 | the provider's list if it has one, else workload and management namespace, deduplicated |
| `Orchestrator.Bootstrap.MoveCAPIState` | internal/capi/pivot/move.go:110-200 | performs a run of the transition system: success means that every object of a listed namespace was moved, or dry-run through; a failure loses nothing; other namespaces and a dry run are untouched |
| `Orchestrator.Bootstrap.MoveNamespace` | internal/capi/pivot/move.go:162-198 | one or two moves of this namespace and nothing else; success is the success of the last one, and then the namespace is empty on kind; a failure means two failed moves |
| `Orchestrator.Bootstrap.VerifyParity` | internal/capi/pivot/pivot.go:159-300 | the polling loop performs a run and ends in rebind or failure |
| `Orchestrator.Bootstrap.RunPostPivotSequence` | internal/orchestrator/pivot_sequence.go:45-90 | performs the steps in order; only a dry run ends early without an error, and success rebinds kubectl |
| `Orchestrator.Bootstrap.TeardownKind` | internal/capi/pivot/pivot.go:358-400 | kind stays with any of the three flags, an empty name among them; without them it is gone exactly when its deletion succeeds, and a failed deletion is not an error |
| `Orchestrator.Bootstrap.PivotSection` | internal/orchestrator/bootstrap.go:835-893 | the pivot section with its downgrade and early exits performs a run |
| `Orchestrator.Bootstrap.RunToEnd` | internal/orchestrator/bootstrap.go:835-1061 | however the world answers, kind is gone at the end only if the run returned zero and everything is on management, and no object is lost; each flag that keeps kind keeps it; where every call succeeds, the run returns zero, and without such a flag kind is gone |
| `ManagementCluster.Installer.EnsureManagementCluster` | internal/capi/pivot/pivot.go:54-138 | however the calls answer, the configuration's manifest path is what it was before, and the result is a kubeconfig exactly when every needed step succeeded |
| `ManagementCluster.Installer.ApplyManifest` | internal/capi/pivot/pivot.go:84-99 | the retry loop succeeds exactly when one of three attempts does, and restores the manifest path on every exit |
| `ManagementCluster.AttemptsAre` | internal/capi/pivot/pivot.go:84-99 | there are one to three attempts, each with the management manifest in place, and only the last can have succeeded |
| `Fanout.StepKeeps` | internal/cost/compare.go:195-219 | every step keeps the invariant and uses up work |
| `Fanout.NoDeadlock` | internal/cost/compare.go:195-219 | as long as the consumer has not ended, somebody can move, for any buffer size |
| `Fanout.EverySchedule` | internal/cost/compare.go:195-219 | in every interleaving nothing panics, the schedule is at most six steps a job and three more, and at its end the consumer holds exactly one row for every job of a registered provider |
| `Fanout.Completes` | internal/cost/compare.go:195-219 | every schedule can be continued to the end of the consumer's loop |
| `Fanout.AnyArrival` | internal/cost/compare.go:318-324 | the rows can arrive in every order |
| `Sorting.SameUpToTies` | internal/cost/compare.go:325-341 | any two sorts of one input tie in every position |
| `Sorting.DeterminedIffNoTies` | internal/cost/compare.go:325-341 | a sort is determined by its input exactly when no two different elements tie |
| `Sorting.SortSlice` | internal/cost/compare.go:325-341 | sorting yields some rearrangement without inversions, and may yield any choice among ties |
| `Compare.ParseProviderList` | internal/cost/compare.go:425-434 | the set holds exactly the names between two commas, trimmed and in lower case, that are not empty |
| `Compare.Filter` | internal/cost/compare.go:438-459 | the loop keeps exactly the names that pass, in their order |
| `Compare.SelectProviders` | internal/cost/compare.go:165-178 | the chain of filters equals one filter by the conjunction of all conditions |
| `Compare.SelectedAre` | internal/cost/compare.go:165-178 | a provider is selected exactly when it is registered, is not docker, fits the air gap and the scope, is the chosen one if one was chosen, and does not stand between two commas of the skip list; none is selected twice |
| `Compare.OnlyIs` | internal/cost/compare.go:436-459 | filtering distinct names keeps exactly the wanted ones and repeats none |
| `Compare.LaunchOrder` | internal/cost/compare.go:273-285 | the nested loops launch the jobs of the specification |
| `Compare.JobsAre` | internal/cost/compare.go:250-285 | every pair of a selected provider and one of its regions is a job as often as both are listed, a provider without regions has one job for the region of the configuration, and there is no other job |
| `Compare.LessIsStrictWeak` | internal/cost/compare.go:325-341 | the comparison is a strict weak order, so sorting by it is meaningful |
| `Compare.StringLessIs` | internal/cost/compare.go:340 | names are compared as in a dictionary |
| `Compare.SortedIsTableOrder` | internal/cost/compare.go:325-341 | having no inversion is having the priced rows first in ascending cost and the others by name |
| `Compare.ComparisonIs` | internal/cost/compare.go:318-343 | the results that runs can give, over all interleavings, are exactly the sorts of one row for every job |
| `Compare.TableIs` | internal/cost/compare.go:250-343 | in every run the table has, for every selected provider that is registered and every one of its regions, the row with the vendor's answer, and no other row |
| `Compare.DeterminedIffTotalsDiffer` | internal/cost/compare.go:127-132 | the result is determined by the vendors' answers exactly when no two priced providers cost the same |
| `Numbers.AtoiOfItoa` | internal/config/snapshot.go:253-270 | a printed number is read back |
| `Numbers.AtoiIs` | internal/config/snapshot.go:308 | a number is digits with at most one sign in front of them whose value fits 64 bits |
| `Numbers.AtoiRejects` | internal/config/snapshot.go:308-311 | and anything else is none |
| `AppList.TokensOfPrint` | internal/config/snapshot.go:288-299 | for any templates at all, the words of the printed list are the counts and the words of the templates |
| `AppList.ReadBack` | internal/config/snapshot.go:286-322 | with one-word templates, the list read back is the surviving groups in order, in lower case, or the old list if none survives |
| `AppList.RestoredIff` | internal/config/snapshot.go:286-322 | a list of documented templates is restored exactly when it is not empty and all groups are light, medium or heavy with positive count and no custom size |
| `AppList.PairingKeptIff` | internal/config/snapshot.go:304-316 | whatever follows a group is read in step exactly when its template is an odd number of words |
| `AppList.PrintApps` | internal/config/snapshot.go:288-299 | the printing loop equals the specification |
| `AppList.SetApps` | internal/config/snapshot.go:300-321 | the parsing loop equals the specification, and keeps the old list when nothing is read |
| `AppList.TokensApart` | internal/config/snapshot.go:304-305 | white space, commas and both ways to write a multiplication stand between words and mean nothing else |
| `AppList.GroupIsRead` | internal/config/snapshot.go:307-316 | a count and a word are read as a group when the count is a positive number and the word is light, medium or heavy in any case, and passed over otherwise; reading goes on behind them |
| `Snapshot.SetOfGet` | internal/config/snapshot.go:46-69 | reading what a codec printed gives the value back, up to the groups that do not survive |
| `Snapshot.PrintsAs` | internal/config/snapshot.go:45-49 | what is printed: text as it is, a flag as true or false, a count as its number, and one that is not positive as nothing |
| `Snapshot.FlagReads` | internal/config/snapshot.go:49-60 | a flag is read off ten words in any case, with white space around them; any other text leaves it |
| `Snapshot.CountReads` | internal/config/snapshot.go:255-285 | a count is read off a positive number; zero leaves it |
| `Snapshot.LinesAreFields` | internal/config/snapshot.go:348-362 | the emitted lines, as a map, hold exactly the non-empty fields of the schema with their values |
| `Snapshot.OverlaySlot` | internal/config/snapshot.go:376-393 | one slot under the overlay: the last row for its key decides whether it stays or takes the value of the map |
| `Snapshot.Restore` | internal/config/snapshot.go:376-393 | applying a snapshot of one configuration to any other leaves every field whose flag is set explicitly, that has no row, or that is empty in the snapshot, and sets every other field to the snapshot's value |
| `Snapshot.OverlayTwice` | internal/config/snapshot.go:376-393 | applying the same map again changes nothing |
| `Snapshot.Config.SnapshotLines` | internal/config/snapshot.go:348-362 | the emitting loop yields the non-empty fields in schema order |
| `Snapshot.Config.BuildIndex` | internal/config/snapshot.go:379-382 | the index finds the last row for each key |
| `Snapshot.Config.ApplySnapshotKV` | internal/config/snapshot.go:376-393 | for every iteration order of the map: a slot whose last row has a guard that is set explicitly, or without a row or a value, stays; every other one is set to its value; and the explicit flags do not change |
| `Snapshot.OneMoreField` | internal/config/snapshot.go:383-392 | setting one more key, at any place of the order, is having one more entry in the map |
| `Snapshot.Config.ApplyExtras` | internal/config/yaml.go:47-54 | for every iteration order the result is the same, the conditional aliases included |
| `Snapshot.Config.ApplyYAMLFile` | internal/config/yaml.go:31-56 | no path changes nothing, a bad file is an error that changes nothing, and a good one is the overlay followed by the extras |
| `Snapshot.AliasRule` | internal/config/yaml.go:78-95 | a credential is the new name if given, else what was there, else the former name |
| `Snapshot.ExtrasAre` | internal/config/yaml.go:78-111 | exactly sixteen keys outside the schema set a slot of their own |
| `Snapshot.FileTwice` | internal/config/yaml.go:31-56 | reading the same file again changes nothing |
| `PriceCache.SharedIffOverlap` | internal/pricing/pricing.go:170-174 | two vendors and regions share a file for some SKUs exactly when vendors and regions both overlap at a dot |
| `PriceCache.DotFreeInjective` | internal/pricing/pricing.go:170-174 | with no dot in vendor and region, the file name determines vendor, SKU and region, dots in the SKU notwithstanding |
| `PriceCache.RunSound` | internal/pricing/pricing.go:112-201 | in every interleaving of calls, every cached and returned item was answered by that vendor for that query |
| `PriceCache.HonestIffInjective` | internal/pricing/pricing.go:112-201 | every item returned in any run is the vendor's answer to the very query, at most a day old, exactly when no two queries share a file |
| `PriceCache.DotFreeHonest` | internal/pricing/pricing.go:112-201 | so it is for all vendors and regions without a dot |
| `PriceCache.MixupReturns` | internal/pricing/pricing.go:176-190 | a run in which one query is answered with the price of another that shares its file |
| `PriceCache.ServedForADay` | internal/pricing/pricing.go:176-201 | a price that was written is served from the cache for exactly a day, whatever else is asked |
| `PriceCache.Cache.Fetch` | internal/pricing/pricing.go:112-137 | one call performs a look-up and, where needed, an ask and a write, fails as the source does, and returns the recorded answer |
| `PriceCache.Cache.KeepItem` | internal/pricing/pricing.go:192-201 | the write may succeed, fail or leave garbage; the call returns the item in any case |
| `Regions.GeoRankedRegions` | internal/pricing/georegion.go:174-199 | the result has min(limit, distinct ids) different ids in order of distance, and no omitted region is closer |
| `Regions.GeoNearestRegion` | internal/pricing/georegion.go:203-211 | the result is at least distance, or empty for a provider without table |
| `Regions.ChosenIsNearest` | internal/pricing/georegion.go:185-198 | first occurrences in a sorted table are a correct choice of the nearest |
| `Regions.DistancesDetermined` | internal/pricing/georegion.go:185-198 | however ties are broken, the distances that come out are the same |
| `Feasibility.AppResources` | internal/feasibility/templates.go:149-159 | the loop sums count times template over the groups with a positive count |
| `Feasibility.OrderIsDisplayOnly` | internal/config/config.go:41-43 | rearranging the groups does not change the total |
| `Feasibility.PodsAdd` | internal/feasibility/templates.go:49-71 | what a group adds to the total, in numbers: its template's values for each pod, with medium for what is not known |
| `Feasibility.ProjectShape` | internal/feasibility/feasibility.go:197-232 | the projection, or none exactly when nothing is asked for |
| `Feasibility.ShapeIs` | internal/feasibility/feasibility.go:207-231 | the projection in numbers: a third more than pods, database and system take, and three control planes for high availability |
| `Feasibility.WorkersAreLeast` | internal/feasibility/feasibility.go:421-433 | the worker count is the least one from 1 up whose cores and memory cover 1.33 times the requirement |
| `Feasibility.Bands` | internal/feasibility/feasibility.go:519-534 | the verdict bands in terms of the stated budget: 0.48 and 0.72 of it |
| `Feasibility.RaisingTheBudget` | internal/feasibility/feasibility.go:519-534 | raising the budget never worsens any verdict, exactly unless it is raised from none to some |
| `Feasibility.AtoiOr` | internal/feasibility/feasibility.go:573-585 | the loop reads a decimal number, or falls back when there is a non-digit or nothing |
| `Feasibility.CollectBlocking` | internal/feasibility/feasibility.go:357-384 | exactly the cross-provider violations |
| `Feasibility.Check` | internal/feasibility/feasibility.go:241-350 | every provider has its row, the floor is the least positive price, the recommendation is the cheapest comfortable provider, first by name, and the blocking reasons are exactly those that apply |
| `Feasibility.PriceAll` | internal/feasibility/feasibility.go:272-305 | the pricing loop fills the table and tracks the least positive price |
| `Feasibility.PricedRowIs` | internal/feasibility/feasibility.go:389-513 | a priced row in numbers: control planes and the least number of workers at the instance's price in the configured region, and storage and egress where they are priced |
| `Feasibility.FreeRowIs` | internal/feasibility/feasibility.go:162-174 | a row of the free tier: one control plane and a database of at most 20 GB fit Oracle's, and nothing fits the others |
| `Feasibility.Recommend` | internal/feasibility/feasibility.go:329-340 | the search loop finds the cheapest comfortable provider with a price |
| `Feasibility.RecommendedIsTheFloor` | internal/feasibility/feasibility.go:325-340 | there is a recommendation exactly when the cheapest price is within 0.48 of the budget, or no budget is stated, and then it is the cheapest price |
| `Feasibility.FloorAboveBudget` | internal/feasibility/feasibility.go:342-348 | a floor above the budget leaves every priced provider infeasible, and is reported |
| `Feasibility.AskingMoreNeverHelps` | internal/feasibility/feasibility.go:415-454 | with the same prices, more pods, a larger database, more egress or a higher tier never lowers a price or improves a verdict, on any row |
## Left out

- Kubernetes, kind, clusterctl, git and OpenTofu calls are replaced by arbitrary outcomes; the live label patches are not modelled.
- A failed `clusterctl move` is taken to leave every object on at least one side; what a crashed run leaves behind for the next one is not modelled.
- Vendor pricing clients and exchange rates: prices are given. Storage prices of the comparison rows are not modelled.
- Floating-point rounding: money is `real`, and 1.33 is 133/100. Overflow of 64-bit sums and products is not modelled.
- Haversine trigonometry: the distances are given.
- SHA-256 collisions: the hash is any function to eight hex digits; where a collision matters, the theorem says so.
- `$` in a replacement text, which Go expands, and text that is not valid UTF-8.
- `scalarCSVToYAMLList` and the CSI topology labels of internal/capi/manifest/patches.go.
- Labels.PatchIsInsertion: looks for a label key on any line of the metadata block, as the source does, so a key under annotations counts as present.
- IdentityRename.TemplatePatchReads: asks the same as IdentityRename.TemplatePatchKeepsIdentity.
- IdentityRename.TemplatePatchKeepsIdentity: asks for regular templates as below, for every name and namespace on the line of its key, also after trimming, for no metadata name of a template that holds `apiVersion:`, and for a cluster that is not named like a template, in which case its name is rewritten like any reference.
- TemplateText.PatchIdempotent: asks that the stem of a template is not empty (its name is not just `-t` and a digest) and that every metadata name has its value on its line and a line behind it that is not white; where that fails, the first run changes more than names (`TemplateReferences.HeaderSurvives`, `HeaderSwallowed`).
- TemplateText.PatchIdempotentLines: asks the same of the templates.
- TemplateTheorems.SecondRead: asks the same of the templates.
- TemplateTheorems.SecondRunMoves: asks the same of the templates.
- TemplateTheorems.DocsIdempotent: asks the same of the templates.
- TemplateTheorems.UnchainedIdempotent: asks the same of the templates, and that no new name is a stem.
- TemplateReferences.ReferencesResolve: is about current templates; for all others there is TemplateReferences.AgreementIff.
- TemplateReferences.RenamingFollowed: asks in addition that the metadata of a template holds one name and that the reference pattern reads it, which it does not at a carriage return.
- IdentityOrder.EditsKeepIdentity: is about the cluster-name label, the Helm labels and the kube-proxy phase added or removed; the template patch, which trims the text, has its own theorem. Of Go's %q it is used that the result ends in a quote.
- Identity.NamespaceIsOwnIff: asks that the last metadata line is not white and not a key without its value.
- MachineSizing.SubAllByLine: asks that every sizing key has its value on its line and that values are not empty and hold no colon; without that, only single substitutions are covered.
- MachineSizing.FirstKeyWins: asks the same of keys and values.
- MachineSizing.LaterSizingWins: asks the same of keys and values.
- MachineSizing.SecondSizing: asks the same of keys and values.
- MachineSizing.OverlappingRoles: asks the same of keys and values, and of the name lines what MachineSizing.RoleKept asks.
- MachineSizing.RoleKept: asks that the metadata names have their value on their line and that neither they nor the kind line hold a sizing key.
- The regular-expression engine: each expression is modelled by hand as a function on lines. For the header expression of DiscoverWorkloadClusterIdentity, the leftmost match is found as the one that ends first.
- YAML and JSON as text: the configuration file and the snapshot are key-value maps. The 150-odd rows of the snapshot schema are a parameter, each with a slot of its own.
- Snapshot.AliasRule: needs that the schema does not hold the credential, as is the case in the source.
- PriceCache.Cache.Fetch: the file name is not cleaned, which makes a difference only for names with a slash; a returned item is dated at the vendor's answer. FetchMany is not modelled.
- Fanout.EverySchedule: has the consumer start after all workers are launched, as in CompareWithFilter; the progress lines are not modelled.
- Compare.LessIsStrictWeak: totals are real numbers; a total that is not a number is not modelled.
- Feasibility.Check: the reason texts are data, not strings; `cfg == nil` is not modelled.
- The on-prem verdict, plan printing, prompts, logging, Helm values and the defaults of the configuration.
