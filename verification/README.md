# iPXE Manager: boot configuration and provisioning, verified

This project models the parts of iPXE Manager in which several pieces of code edit the same
text, directory or disk and have to agree.

* **The ESXi `boot.cfg` pipeline.** Continuation lines, keys and the ordered module list
  (`BootCfg`), the rewriting for HTTP and the round trip through the parser (`ReadBack`,
  `BootCfgLaws`), byte order marks (`MarkLaws`, `PlainMarks`), the normalisation and menu refresh (`Refresh`, `RefreshLaws`, `RefreshText`),
  what the parser takes from each (`ParserMeans`, `RefreshMeans`, `ActivationMeans`),
  kickstart activation (`Kickstart`, `KickstartLaws`), how these two commute (`CommuteOption`,
  `CommuteLine`, `CommuteFile`) and what any sequence of them amounts to (`SettledKs`,
  `EsxiRuns`, `StaleKickstart`). `Kernelopt`, `KerneloptWords`, `KerneloptTwice`, `NetworkLaws` and
  `OptionTokens` hold the kernelopt tokens, `Modules` the module list, `ConfigLine` the recognition of lines, `Url`,
  `Lines` and `Text` what Python's strings do.
* **Publication of an extracted image.** The directory rebuilt in lower case (`LowerTree`), the
  resolution of references (`Resolve`, `ResolveLaws`), the published text (`FinalCfg`), the whole
  step with its end-to-end result (`Publish`, `PublishFiles`, `PublishLaws`), and the address that
  the extraction and the menu refresh both write (`ServerPrefix`).
* **The upload disk guard** (`DiskGuard`): interleaved uploads that each poll free space.
* **Ubuntu cloud-init configurations** (`UbuntuLifecycle`, `UbuntuSaves`): database rows, bundle directories and
  the published seed.
* **Kernel arguments** (`KernelArgs`, `KernelBuild`, `KernelTokens`, `ProxmoxLaws`), with Ubuntu's two modes and
  the patterns each removes (`StripTokens`, `UbuntuModes`, `SettlePatterns`, `NestedTokens`,
  `UbuntuTwice`, `StubTokens`).
* **Smaller agreements**: extraction plan and manual upload (`SlotPlan`, `SlotFills`), reordering of
  system types (`Reorder`), HTTPS in iPXE's `general.h` (`HttpsPatch`, `HttpsLines`), version slugs
  (`Slugs`, `SlugWords`).

Where the source loops or changes state the model has a method or a class, and its contract
equates the new state with a function; the laws are about that function. Texts are sequences of
characters with Python's own white space and line breaks. Files hold the text the program reads,
after decoding and newline translation (except in `UbuntuLifecycle`, which models the
translation). `dafny verify dfyconfig.toml` checks everything.

## Findings

The laws hold with conditions, and where the code does not do what its documentation or its
neighbours suggest the condition is exact or the failing input is given:

* A kickstart path with a space leaves its second word in `kernelopt` after the kickstart is
  cleared (`KickstartLaws.SpaceInUrlStays`).
* The menu refresh lower-cases the path of the kickstart URL, so activation and refresh commute
  only for URLs that are in lower case already (`CommuteFile.ActivationCommutes`,
  `StaleKickstart.CapitalDiffers`), and after a refresh the `ks=` token is the active
  configuration's URL only for those (`EsxiRuns.RunTokens`, `StaleKickstart.StaleRun`).
* Refreshing twice differs from refreshing once on a kernelopt value that hides a URL with an
  empty query, fragment or parameter mark behind a slash (`RefreshText.HiddenUrlFile`,
  `NetworkLaws.NormalizeTwice`), and on paths that do not settle
  (`RefreshLaws.LoosePathDiffers`).
* A kept line that ends in a backslash, or a kernelopt value that ends in one once `cdromBoot` is
  gone, swallows the next line when the rewritten file is read (`MarkLaws.RewriteReadsBack`,
  `MarkLaws.LooseEndDiffers`); the same happens to the prefix a refresh writes
  (`RefreshMeans.SwallowedPrefix`).
* The rewriter drops a byte order mark and the parser does not, so a file with one on an assigning
  line never reads back (`MarkLaws.RewriteReadsBack`, `BootCfgLaws.BomHidesFile`).
* The Ubuntu NFS builder is not idempotent on a token such as `root=root=/dev/ram0/dev/ram0`
  (`UbuntuTwice.NfsTwice`); the HTTP builder always is (`UbuntuTwice.HttpTwice`). The Proxmox
  builder is not when it appends an initrd whose name holds a `url=` or loose white space
  (`ProxmoxLaws.ProxmoxTwice`).
* The pattern for `url=` runs before the one for `cloud-config-url=`, so a build for NFS leaves
  `cloud-config-` among the arguments for good (`StubTokens.StubLeft`, `StubTokens.BuiltStub`).
* A foreign bundle with carriage returns is imported as a row that differs from it
  (`UbuntuLifecycle.ForeignDiffers`).
* A stored plan row with a plain pattern that names no file, which the form itself never stores,
  shifts the extraction against the upload form (`SlotPlan.ShiftedPlan`); Proxmox treats a second
  kernel differently in the two (`SlotPlan.PlanIsManual`, `SlotPlan.SecondKernelDiffers`).
* With two commented-out `#define` lines the HTTPS patch changes the file again each time
  (`HttpsPatch.PatchedTwice`, `HttpsPatch.TwoCommented`).

## Model

| member | source | states |
|---|---|---|
| `BootCfg.MergeContinuations` | app/services/iso_extractor.py:366-379 | the merge loop over the pieces computes the specified text: pieces that end in a backslash are joined without it and without the space before it, a dangling buffer is kept |
| `BootCfg.ParseBootCfg` | app/services/iso_extractor.py:382-405 | the parser's loop returns the last value of every plain key and all module paths in order, as read off the sequence of assignments |
| `ParserMeans.LineAssigns` | app/services/iso_extractor.py:386-395 | a key, the first equals sign and a value, with any white space around them, assign the value to the key in lower case |
| `ParserMeans.LineAssignsNothing` | app/services/iso_extractor.py:386-390 | a line assigns nothing if and only if it is blank, a comment, or has no equals sign |
| `ParserMeans.ContinuedMerges` | app/services/iso_extractor.py:366-379 | a line that ends in a backslash goes on with the next: backslash, the white space before it and the break go |
| `ParserMeans.CrLfGoes` | app/services/iso_extractor.py:366-369 | Windows line ends become line feeds first; a lone carriage return stays |
| `ParserMeans.LastCounts` | app/services/iso_extractor.py:390-405 | the keys found are those assigned, but for the two of the modules, each with the value of its last assignment |
| `ParserMeans.ModulesInOrder` | app/services/iso_extractor.py:396-404 | the modules come line by line: a `module` line gives its value, a `modules` line its parts, no other line any |
| `BootCfg.RewriteBootCfg` | app/services/iso_extractor.py:634-726 | the rewriting loop with its queue index and its prefix flag computes the line-by-line specification, including each of the three errors |
| `ConfigLine.KeyAgrees` | app/services/iso_extractor.py:357-363 | on a line without leading space the anchored case-blind pattern for a key matches exactly when partition, strip and lower give that key |
| `ConfigLine.KeyAgreesIndented` | app/services/menu_generator.py:47-48 | the patterns that allow leading space agree with the partition on every line |
| `BootCfgLaws.PatternsAgree` | app/services/iso_extractor.py:672-713 | the rewriter's five patterns pick exactly the lines the parser gives the five special keys |
| `Modules.SegmentsOfJoin` | app/services/iso_extractor.py:356-357 | joining paths with ` --- ` and splitting again gives the same paths if and only if each is non-empty, trimmed and free of `---` |
| `Modules.SegmentsStrip` | app/services/iso_extractor.py:398-401 | white space around a modules value does not change its segments |
| `MarkLaws.RewriteIsOk` | app/services/iso_extractor.py:634-726 | for every boot.cfg the rewriter raises no error if and only if it is given as many paths as the parser finds modules in the lines without the byte order marks in front of them; without marks on assigning lines these are the modules it found |
| `MarkLaws.RewriteErrors` | app/services/iso_extractor.py:684-724 | paths left over are an error of their own, exactly when there are more than modules; otherwise the error comes from the first line for which too few are left, one kind for a list of modules and another for a single one |
| `ReadBack.ReadBackLines` | app/services/iso_extractor.py:366-379 | a file written line by line is read back assignment for assignment if and only if no line ends in a backslash |
| `MarkLaws.RewriteReadsBack` | app/services/iso_extractor.py:366-405 | for every boot.cfg and as many clean paths as the parser found modules: the rewriter succeeds and the parser reads out of the rewritten file exactly the redirected assignments of the source, in order, if and only if no line that assigns something starts with a byte order mark and no rewritten line ends in a backslash |
| `MarkLaws.LooseEndDiffers` | app/services/iso_extractor.py:366-405 | a file of one line, `x=a\` and a space: stripped of the space it is continued, and another value is read back |
| `BootCfgLaws.RewritePreservesMeaning` | app/services/iso_extractor.py:634-726 | under that condition the re-parsed result has the given paths as its modules in order, the given kernel and prefix, no `prefix-http`, the normalised kernelopt, and the source's last value for every other key |
| `BootCfgLaws.BomHidesKernel` | app/services/iso_extractor.py:388-395 | with a byte order mark in front, a `kernel=` line is another key to the parser and still the kernel line to the rewriter: why the results above ask that no assigning line starts with one |
| `BootCfgLaws.BomHidesFile` | app/services/iso_extractor.py:366-405 | a whole file of that one line: the parser finds no kernel in it, the rewriter writes one |
| `Url.ParseUnparse` | app/services/iso_extractor.py:573-584 | taking apart a URL that was put together from well-formed components gives those components |
| `OptionTokens.UnquoteStep` | app/services/iso_extractor.py:573-584 | percent escapes of ASCII characters are decoded from left to right, in digits of either case; every other character is kept |
| `KerneloptTwice.LowerTokenTwice` | app/services/iso_extractor.py:587-631 | lower-casing a kernelopt token without `%` twice is lower-casing it once if and only if the first pass brings no URL to light behind a slash, or only one without an empty parameter, query or fragment mark |
| `KerneloptTwice.SmoothTwice` | app/services/iso_extractor.py:587-631 | the same for every token that holds no `%` or stays as it is |
| `KerneloptTwice.UnparsedWhole` | app/services/iso_extractor.py:573-584 | a lower-cased URL is written back as it was read if and only if none of its marks is empty |
| `KerneloptTwice.HiddenUrlDiffers` | app/services/iso_extractor.py:587-631 | such a token: `/http://h/p?` becomes `http://h/p?`, which becomes something else |
| `NetworkLaws.NormalizeTwice` | app/services/iso_extractor.py:604-618 | normalising a kernelopt value of such tokens twice is normalising it once if and only if each of its tokens settles in one pass; two passes always settle |
| `OptionTokens.UrlLowered` | app/services/iso_extractor.py:573-584 | of a web address the path is lower-cased; server, parameters, query and fragment stay |
| `OptionTokens.PlainTokenStays` | app/services/iso_extractor.py:587-631 | a token without slashes stays as it is, capitals included |
| `OptionTokens.PathTokenLowered` | app/services/iso_extractor.py:587-631 | a path loses the slashes around it and is lower-cased, a key in front of it stays |
| `OptionTokens.NormalizedTokens` | app/services/iso_extractor.py:604-618 | the network form: `runweasel` in front unless it is there, then every token but `cdromBoot`, treated as above, in order |
| `Kickstart.MergeKernelopt` | app/services/esxi_autoconfig.py:19-33 | the token loop keeps what is neither `cdromBoot` nor `ks=`, puts `runweasel` first when it is missing, and appends the URL |
| `Kickstart.RewriteKernelopt` | app/services/esxi_autoconfig.py:36-49 | the line loop with its flag rewrites every kernelopt line, adds one when there is none, and trims the end of the file |
| `OptionTokens.MergedTokensAre` | app/services/esxi_autoconfig.py:19-33 | the tokens an activation writes: `runweasel` in front unless it is there, the tokens that are neither `cdromBoot` nor start with `ks=`, in order, and the new address last |
| `ActivationMeans.ActivatedReads` | app/services/esxi_autoconfig.py:36-49 | after an activation the parser finds the same assignments in the same order, every kernelopt value with the new address, and one more assignment at the end when there was no kernelopt; it asks that no line of the result ends in a backslash |
| `KickstartLaws.KickstartAbsorption` | app/services/esxi_autoconfig.py:36-49 | rewriting with one URL and then another, or none, is byte for byte rewriting with the second alone, for every text, if and only if the first leaves no token behind |
| `KickstartLaws.PlainUrlLeavesNothing` | app/services/esxi_autoconfig.py:60-78 | every URL without white space leaves nothing behind |
| `KickstartLaws.SpaceInUrlStays` | app/services/esxi_autoconfig.py:60-78 | a path with a space leaves its second word on the line for good |
| `Refresh.NormalizeBootCfgPaths` | app/services/iso_extractor.py:737-777 | the normalising loop computes the line-by-line specification |
| `Refresh.RefreshBootCfg` | app/services/menu_generator.py:596-618 | the refresh of one file: paths normalised, prefix and kernelopt lines rewritten, a prefix inserted after the leading comments when there is none |
| `RefreshMeans.InsertedPlace` | app/services/menu_generator.py:612-616 | an inserted prefix goes directly after the comments at the top |
| `RefreshMeans.RefreshedPrefix` | app/services/menu_generator.py:596-618 | after a refresh the parser finds exactly the prefix it was asked for, and none under the other name; it asks that no line of the file, nor the kernel options written for it, end in a backslash |
| `RefreshMeans.RefreshReads` | app/services/menu_generator.py:596-618 | after a refresh the parser finds the assignments of the file in order, with the new prefix, paths in lower case and options normalised, and the prefix in front when the file had none; it asks besides that no assigning line starts with a byte order mark |
| `RefreshMeans.RefreshMeaning` | app/services/menu_generator.py:596-618 | the same for the keys: prefix, kernel and options as said, every other key as before |
| `RefreshMeans.SwallowedPrefix` | app/services/menu_generator.py:596-618 | where the line before the prefix ends in a backslash the parser finds no prefix after any refresh |
| `RefreshLaws.NormalizeAgain` | app/services/iso_extractor.py:737-777 | normalising the paths of a line twice is doing it once if and only if its paths settle: none keeps outer space, no module turns empty |
| `RefreshLaws.LoosePathDiffers` | app/services/iso_extractor.py:737-777 | a line that does not: `kernel=/ a` |
| `RefreshText.RefreshAbsorption` | app/services/menu_generator.py:566-620 | refreshing for one server and then another is byte for byte refreshing for the second alone, for every file whose kernelopt tokens hold no `%` or stay as they are, if and only if every path and every kernelopt value of the file settles in one pass |
| `RefreshText.HiddenUrlFile` | app/services/menu_generator.py:566-620 | a file on which refreshing twice differs from refreshing once, for any two servers |
| `CommuteOption.OptionCommutes` | app/services/iso_extractor.py:604-618 | merging a URL into a kernelopt value and normalising it commute if and only if lower-casing leaves the `ks=` token as it is |
| `CommuteLine.LineCommutes` | app/services/esxi_autoconfig.py:40-46 | the same for one line of the file |
| `CommuteFile.ActivationCommutes` | app/services/menu_generator.py:596-618 | activating a kickstart and refreshing the menus commute byte for byte, on every non-empty steady file with or without a kernelopt line, if and only if lower-casing leaves the `ks=` token as it is |
| `CommuteFile.ActivationRelates` | app/services/menu_generator.py:596-618 | for every URL: refreshing an activated file is byte for byte activating the refreshed file with the URL in lower case |
| `CommuteFile.EmptyFileDiffers` | app/services/menu_generator.py:596-618 | on the empty file the two orders never agree: refreshing first leaves an empty line |
| `StaleKickstart.CapitalDiffers` | app/services/menu_generator.py:596-618 | a file of one kernelopt line and the URL `http://h/KS.CFG`: the two orders differ, for any server |
| `SettledKs.ActivatedTokens` | app/services/esxi_autoconfig.py:36-49 | the rewritten file has a kernelopt line, and every one carries exactly the given `ks=` token or none |
| `EsxiRuns.EsxiVersion.ActivateKickstart` | app/services/esxi_autoconfig.py:60-78 | the checks in order, the rewritten file and the new active row |
| `EsxiRuns.EsxiVersion.ClearKickstart` | app/services/esxi_autoconfig.py:81-89 | the cleared file and row; nothing on another system |
| `EsxiRuns.EsxiVersion.DeleteConfig` | app/routers/configs.py:376-416 | deleting the active configuration clears, deleting another changes neither file nor row |
| `EsxiRuns.EsxiVersion.RefreshMenus` | app/services/menu_generator.py:586-620 | both files are refreshed for the address of the server and folder; which address that is and what the parser reads then say the five rows below |
| `ServerPrefix.AddressIs` | app/services/menu_generator.py:575-581 | the address is the server without the slashes at its end, `/boot/esxi/`, the folder and a slash |
| `ServerPrefix.WritersAgree` | app/services/iso_extractor.py:978-990 | the extraction, which builds the address from the slug and the version slug, and the refresh write the same one for an ESXi version, for every server and folder |
| `ServerPrefix.AddressStays` | app/services/iso_extractor.py:651 | the rewriter leaves that address as it is if and only if the folder has a name that ends in no slash |
| `ServerPrefix.RefreshedMenus` | app/services/menu_generator.py:586-620 | after a refresh of a version the parser finds that address in both files; the active row is as before |
| `ServerPrefix.PublishedThenRefreshed` | app/services/iso_extractor.py:974-1002 | a freshly published boot.cfg carries the address, and refreshing it for the same server leaves the prefix the parser finds |
| `ServerPrefix.KsUrlIs` | app/services/esxi_autoconfig.py:72 | the address of a kickstart is the server, one slash, and the path without slashes in front |
| `ActivationMeans.ActivationDecides` | app/services/esxi_autoconfig.py:60-78 | why an activation is refused, first reason first, and what one that is not refused changes |
| `ActivationMeans.ClearingDecides` | app/routers/configs.py:376-416 | what a clear and a deletion change, and what they leave |
| `SettledKs.RefreshedSteady` | app/services/menu_generator.py:596-618 | a steady file whose lines settle stays steady when it is refreshed |
| `EsxiRuns.RunWithoutRefresh` | app/services/esxi_autoconfig.py:60-89 | after every run of activations, clears and deletions, on every boot.cfg, the file is the original rewritten once for the last of them, the manual file is untouched and the row is the last active one; it only asks that no activated URL leaves a token behind |
| `EsxiRuns.TokensWithoutRefresh` | app/services/esxi_autoconfig.py:60-89 | after every such run whose URLs hold no white space, each kernelopt line holds exactly the active configuration's `ks=` token, and none once cleared |
| `EsxiRuns.RunIsCanonical` | app/services/esxi_autoconfig.py:60-89 | after every run with refreshes too, the files and the active row depend only on the original files, the last effective activation or clear with the refreshes since, and the last refresh; the manual file sees refreshes only |
| `EsxiRuns.RunTokens` | app/services/esxi_autoconfig.py:60-89 | after every such run with an activation or a clear, each kernelopt line holds one `ks=` token exactly when a configuration is active, and it is that configuration's URL if and only if no refresh came after the activation or the URL was in lower case already |
| `StaleKickstart.StaleRun` | app/services/esxi_autoconfig.py:60-89 | a run that activates that URL and refreshes the menus: the row is still active and no kernelopt line carries its URL |
| `LowerTree.VersionDir.LowerCase` | app/services/iso_extractor.py:832-863 | the copying loop builds the specified lower-cased tree and puts it in place, or leaves the directory as it was |
| `LowerTree.LoweredExactly` | app/services/iso_extractor.py:832-863 | for every order of the files: it fails if and only if a directory is needed where a file was put first; otherwise a path becomes a file exactly when the first source at or below it is at it, and holds that source |
| `LowerTree.LoweredImage` | app/services/iso_extractor.py:832-863 | without file and directory clashes the result is exactly the lower-cased image, each path holding its first source |
| `LowerTree.OnlyCollidingLost` | app/services/iso_extractor.py:850-858 | a file whose lower-cased path is its own keeps its content |
| `LowerTree.LoweredIsLower` | app/services/iso_extractor.py:836-858 | the result is a tree, all in lower case |
| `LowerTree.LoweredTwice` | app/services/iso_extractor.py:832-863 | a second lower-casing changes nothing, in whatever order it lists the files |
| `Resolve.PickPreferred` | app/services/iso_extractor.py:482-494 | the chosen path has the fewest segments of all; among those the shortest text; among those it is the same text or has the smaller code point where the two first differ |
| `Resolve.PickIsLeast` | app/services/iso_extractor.py:482-494 | the choice is one of the paths and no other is preferred to it |
| `Resolve.PickIsFirst` | app/services/iso_extractor.py:482-494 | the same three statements for the function the choice equals, on lengths and texts alone |
| `Resolve.IndexFiles` | app/services/iso_extractor.py:470-479 | the index loop groups the files of the listing by lower-cased name, in order |
| `Resolve.ResolveFile` | app/services/iso_extractor.py:423-467 | the candidate loop with its set of seen files computes the specified resolution |
| `Resolve.FilesAreAll` | app/services/iso_extractor.py:443-462 | no candidate that is a file inside the directory is passed over: it is kept, or the same file was kept before |
| `Resolve.ResolvedIsFile` | app/services/iso_extractor.py:423-467 | whatever a reference resolves to, through any number of `..`, is a file of the version directory |
| `Resolve.ResolvedMissing` | app/services/iso_extractor.py:423-467 | a reference stays unresolved if and only if it is empty or malformed, or no candidate is a file inside the directory and no file at all has its name |
| `ResolveLaws.PlacesAre` | app/services/iso_extractor.py:434-444 | the places a reference is looked for at, one by one: beside boot.cfg, below the prefix unless it leads there already, below the prefix by name, at the root, beside boot.cfg by name, at the root by name |
| `ResolveLaws.ResolvedIsFirst` | app/services/iso_extractor.py:423-467 | when a place holds a file the answer is such a place and every file at one of them is reached by a name that is not shallower; otherwise the answer is a file of that name and none of them is shallower |
| `ResolveLaws.FileOfReference` | app/services/iso_extractor.py:423-467 | for a reference and a prefix without `..`, with the places written out: the first of them that is a path of the tree, otherwise the first file of that name, otherwise none |
| `ResolveLaws.QuotedReference` | app/services/iso_extractor.py:408-420 | white space and then quotes around a reference do not matter, and backslashes are slashes |
| `ResolveLaws.WebReference` | app/services/iso_extractor.py:414-417 | a web address stands for its decoded path |
| `ResolveLaws.FileReference` | app/services/iso_extractor.py:418-420 | so does a `file:` address |
| `PublishLaws.FoundMeans` | app/services/iso_extractor.py:905-928 | the publication finds a file for a reference exactly when resolution does; its check that the file lies in the directory never refuses one |
| `FinalCfg.PublishedAssignments` | app/services/iso_extractor.py:994-1000 | for a boot.cfg without a mark on an assigning line and without a kept trailing backslash, normalising the paths of the rewritten file changes nothing the parser reads |
| `PlainMarks.HarmlessStands` | app/services/iso_extractor.py:650-660 | marks in front of plain keys: the rewriter writes what it would write for the lines without them |
| `Publish.BuildPayload` | app/services/iso_extractor.py:879-971 | the payload: missing kernel, missing modules, unresolved references, the rewritten file and the preload list |
| `Publish.PublishImage` | app/services/iso_extractor.py:974-1012 | the publication of a lower-cased image step by step; which file each new name is, what stays and when it succeeds say the rows on `PublishFiles` |
| `PublishFiles.LoaderIsLinked` | app/services/iso_extractor.py:1003-1010 | after a success `mboot.efi` is the very file, inode and text, of a listed path named bootx64.efi in any case; that path is a file of the tree and no other of that name is shallower |
| `PublishFiles.PublishedFiles` | app/services/iso_extractor.py:974-1012 | after a success no file is lost and at most four names are new; files keep their identity, and their contents unless they share them with an earlier boot file; a new crypto64.efi is the first one listed |
| `PublishFiles.PublishDecides` | app/services/iso_extractor.py:974-1012 | the result, in the order of the checks: no boot.cfg, the payload's own error, no room for a boot file, no EFI loader, no room for its link, success |
| `PublishFiles.CryptoIsFirst` | app/services/iso_extractor.py:938-942 | crypto64 is the first file of that name, if there is any |
| `Publish.ExtractEsxi` | app/services/iso_extractor.py:974-1012 | lower-casing and publication together |
| `PublishLaws.PayloadIsPublished` | app/services/iso_extractor.py:879-971 | for a boot.cfg in which no mark hides a special key and no kept line ends in a backslash, a payload that is built names, for the kernel and each module in order, the file its reference stands for; the preload list is crypto64 when it is a file of its own, the kernel, the modules; every entry is a file of the tree |
| `PublishLaws.NeverRefused` | app/services/iso_extractor.py:934-939 | without a byte order mark in front of a special key the rewriter never refuses what resolution gave it |
| `PublishLaws.PayloadDecides` | app/services/iso_extractor.py:879-939 | without a mark in front of a special key a payload is built if and only if boot.cfg names a kernel and modules and all of them are found; otherwise the first that is missing is reported |
| `PublishLaws.LoweredIsGood` | app/services/iso_extractor.py:832-863 | lower-casing keeps names free of white space, backslash and `---` |
| `PublishLaws.PublishedTree` | app/services/iso_extractor.py:974-1012 | end to end on a tree in lower case, for such a boot.cfg: when a publication succeeds, the boot.cfg it read is the first listed, both boot files hold the same text, its prefix is the address of the version, its kernel, its modules and the whole preload list are files of the published tree, and `mboot.efi` is the first EFI loader |
| `PublishLaws.ExtractedTree` | app/services/iso_extractor.py:832-1012 | the same from the extracted tree, in whatever case its names are, through lower-casing and publication, whenever the boot.cfg that is published is such a one |
| `DiskGuard.Receive` | app/routers/isos.py:1428-1455 | the write loop of one upload: chunks only below the polling threshold, a check as soon as it is reached, nothing after a check that blocks |
| `DiskGuard.BlockedMeans` | app/routers/isos.py:35-62 | admitted exactly when the disk is above the reserve, no announced size is over the limit and each leaves more than the reserve; 413 exactly when the disk is above the reserve and an announced size is over the limit; otherwise 507 |
| `DiskGuard.AdmittedStaysAbove` | app/routers/isos.py:35-62 | whatever part of an admitted upload is written, the disk stays above the reserve |
| `DiskGuard.RunConserves` | app/routers/isos.py:1731-1775 | over every run of interleaved uploads no byte is lost: free space and what uploads under way hold change only by uploads that finish and by space given back |
| `DiskGuard.StepAccounted` | app/routers/isos.py:35-62 | every step of every upload keeps the account: what was written since anyone last passed a check covers all that is missing to the reserve |
| `DiskGuard.GuardBound` | app/routers/isos.py:1731-1775 | over every interleaving of k uploads free space stays above the reserve less k times 65 MiB (or never falls) |
| `DiskGuard.BoundAttained` | app/routers/isos.py:1731-1775 | the bound is the best possible: k uploads admitted just above the reserve can each write a full burst |
| `DiskGuard.ThreeNeverFill` | app/config.py:206 | with the default reserve three simultaneous uploads cannot fill the disk |
| `DiskGuard.FourCanFill` | app/config.py:206 | four can |
| `UbuntuLifecycle.UbuntuVersion.ClearSeed` | app/services/autoconfig_publish.py:53-66 | the seed files and the bundle directories of an older layout go when the boot directory is there |
| `UbuntuLifecycle.UbuntuVersion.PublishBundle` | app/services/autoconfig_publish.py:69-98 | the bundle becomes the seed; without bundle or boot directory nothing changes |
| `UbuntuLifecycle.UbuntuVersion.RepublishIfActive` | app/routers/configs.py:61-72 | republication for the active configuration only, its failure ignored |
| `UbuntuLifecycle.UbuntuVersion.CreateConfig` | app/routers/configs.py:235-270 | unless the slug is taken: the row and the bundle hold the given content and meta, and all else is as it was |
| `UbuntuLifecycle.UbuntuVersion.UpdateConfig` | app/routers/configs.py:348-361 | the row has its old slug and the given content and meta, the bundle `user-data` the content and `meta-data` the meta, the seed the same two when the configuration is active; every other row and bundle and the active id are as they were |
| `UbuntuLifecycle.UbuntuVersion.ActivateConfig` | app/services/autoconfig_publish.py:101-111 | the seed holds the bundle of the configuration, which is active, or nothing changes |
| `UbuntuLifecycle.UbuntuVersion.ClearActive` | app/services/autoconfig_publish.py:114-119 | no active id and no seed; rows and bundles as they were |
| `UbuntuLifecycle.UbuntuVersion.DeleteConfig` | app/routers/configs.py:388-407 | row and bundle go, and the seed when it was theirs; every other row and bundle is as it was |
| `UbuntuLifecycle.UbuntuVersion.ScanAndImport` | app/services/config_scanner.py:231-273 | bundles without a row become rows, one new row each |
| `UbuntuSaves.OperationsSave` | app/routers/configs.py:235-407 | every operation but the scan, field by field: what is saved, published, cleared or deleted, and what is not touched |
| `UbuntuSaves.ScanImports` | app/services/config_scanner.py:231-273 | a scan keeps every row, bundle and seed, and adds exactly one row for each listed bundle that had none, with the translated texts of its two files |
| `UbuntuSaves.TranslatedLine` | app/services/config_scanner.py:245-246 | a carriage return, with or without a line feed after it, is read as a line feed, everything else as it is |
| `UbuntuSaves.RowsHoldLastSave` | app/routers/configs.py:235-407 | over every run from an empty version, foreign bundles included, each row holds the content and meta of the last create, update or import that wrote it, and the seed is the active row's bundle |
| `UbuntuLifecycle.RunAligned` | app/services/autoconfig_publish.py:53-119 | over every run, with foreign bundles appearing at any time, the seed is the bundle of the active configuration with no old bundle directory beside it, or absent when none is active |
| `UbuntuLifecycle.CleanRun` | app/routers/configs.py:235-407 | over every run from an empty version every bundle is its row, the seed is the active row or absent, and a scan imports nothing |
| `UbuntuLifecycle.ForeignRun` | app/services/config_scanner.py:231-273 | rows and bundles stay equal with foreign bundles too, when these hold no carriage return |
| `UbuntuLifecycle.ImportIsFaithful` | app/services/config_scanner.py:245-263 | importing a bundle makes an equal row if and only if it holds no carriage return |
| `UbuntuLifecycle.ForeignDiffers` | app/services/config_scanner.py:245-263 | one carriage return is enough to make a row and its file differ |
| `KernelBuild.BuildKernelArgs` | app/services/menu_generator.py:1166-1250 | the branches of the systems other than Ubuntu in the source's order; the tokens each gives say the rows on `KernelTokens` |
| `KernelTokens.DebianTokens` | app/services/menu_generator.py:1179-1185 | for all arguments: `ip=dhcp` in front, the administrator's tokens, `initrd=`; neither when a token starts so already |
| `KernelTokens.EnterpriseTokens` | app/services/menu_generator.py:1188-1228 | for all arguments: `ip=dhcp` in front, the administrator's tokens, `inst.repo=` and the root, `inst.noverifyssl`, `initrd=`; each unless it is there |
| `KernelTokens.FedoraTokens` | app/services/menu_generator.py:1188-1228 | for all arguments: `ip=dhcp` in front, the administrator's tokens, `inst.stage2=` or the three tokens of a live image, `rd.neednet=1`, `initrd=`; each unless it is there |
| `KernelTokens.AlpineTokens` | app/services/menu_generator.py:1168-1176 | for all arguments: the administrator's tokens, `alpine_repo=`, `modloop=`; each unless it is mentioned |
| `KernelTokens.ProxmoxTokens` | app/services/menu_generator.py:1230-1250 | for all arguments: `ip=dhcp` in front, the administrator's tokens without `url=`, screen, RAM disk, `rw`, `quiet`, `splash=silent`, `initrd=`; each unless it is there |
| `KernelTokens.UrlGoes` | app/services/menu_generator.py:1231 | on Proxmox a `url=` token goes and a token that has none in it stays |
| `KernelTokens.PlainArgs` | app/services/menu_generator.py:1165-1166 | ESXi and every system without rules get their arguments as they are |
| `KernelTokens.FreshEnterprise` | app/services/menu_generator.py:1188-1228 | without arguments: `ip=dhcp inst.repo=<root> inst.noverifyssl initrd=<name>` |
| `KernelTokens.FreshFedora` | app/services/menu_generator.py:1188-1228 | without arguments: `ip=dhcp inst.stage2=<root> rd.neednet=1 initrd=<name>` |
| `KernelTokens.FreshLive` | app/services/menu_generator.py:1188-1228 | without arguments, live: `ip=dhcp root=live:<image> ro rd.live.image rd.neednet=1 initrd=<name>` |
| `KernelTokens.FreshDebian` | app/services/menu_generator.py:1179-1185 | without arguments: `ip=dhcp initrd=<name>` |
| `KernelTokens.FreshAlpine` | app/services/menu_generator.py:1168-1176 | without arguments: `alpine_repo=<address> modloop=<address>` |
| `KernelTokens.FreshProxmox` | app/services/menu_generator.py:1230-1250 | without arguments: `ip=dhcp vga=791 video=vesafb:ywrap,mtrr ramdisk_size=<size> rw quiet splash=silent initrd=<name>` |
| `KernelBuild.BuildMenuArgs` | app/services/menu_generator.py:1142-1272 | the whole builder: Ubuntu in either mode, every other system, and a version without a boot entry |
| `KernelArgs.RulesAreSound` | app/services/menu_generator.py:1166-1250 | every rule adds what its own guard looks for |
| `KernelArgs.EnsuredTwice` | app/services/menu_generator.py:1166-1250 | sound rules applied to their own result change nothing |
| `KernelBuild.BuiltTwice` | app/services/menu_generator.py:1142-1272 | on every system but Proxmox and Ubuntu, building from built arguments changes nothing, for all arguments |
| `ProxmoxLaws.ProxmoxTwice` | app/services/menu_generator.py:1225-1250 | on Proxmox building from built arguments changes nothing, for all arguments, if and only if no initrd is appended or its name holds neither a `url=` nor loose white space |
| `ProxmoxLaws.LooseNameDiffers` | app/services/menu_generator.py:1225-1250 | an initrd named `a url=b` loses its second word at the second build |
| `KernelBuild.BuiltKeeps` | app/services/menu_generator.py:1166-1250 | the administrator's tokens stay in order and together (on Proxmox: those that stripping leaves) |
| `KernelBuild.MenuKeeps` | app/services/menu_generator.py:1142-1272 | on every system, Ubuntu included, what the system's patterns leave of the administrator's tokens stays in order and together |
| `StripTokens.StripArgsTokens` | app/services/menu_generator.py:927-931 | stripping keeps the remains of each token, in order, one space apart |
| `UbuntuModes.AppendHttpArgs` | app/services/menu_generator.py:1124-1139 | the order of the added bits: the address first, then RAM disk, size and image |
| `UbuntuModes.BuildUbuntuArgs` | app/services/menu_generator.py:1253-1270 | both modes |
| `KernelTokens.HttpTokens` | app/services/menu_generator.py:1124-1139 | over HTTP, for all arguments: the tokens without those of NFS, then `ip=dhcp`, `root=/dev/ram0`, `ramdisk_size=` and `url=`, each unless it is there |
| `KernelTokens.NfsTokens` | app/services/menu_generator.py:1253-1264 | over NFS, for all arguments: the tokens without those of HTTP; unless an NFS root is mentioned, then `ip=dhcp` if needed, `boot=casper netboot=nfs nfsroot=<export>` and the mount options if there are any and none are mentioned |
| `KernelTokens.SeedGoes` | app/services/menu_generator.py:917-931 | a seed address in either of its two forms goes from the arguments of an NFS build |
| `UbuntuModes.SwitchToNfs` | app/services/menu_generator.py:1253-1270 | NFS arguments built over HTTP ones are those built directly, if and only if no other token mentions an NFS root or an address is set |
| `UbuntuModes.SwitchToHttp` | app/services/menu_generator.py:1253-1270 | HTTP arguments built over NFS ones are those built directly |
| `SettlePatterns.NfsStripTwice` | app/services/menu_generator.py:911-931 | stripping the NFS arguments of a token again changes nothing, whatever the token |
| `NestedTokens.HttpStripTwice` | app/services/menu_generator.py:917-931 | stripping the HTTP arguments of a token again changes nothing if and only if the token does not hold `root=/dev/ram0` between `root=` and `/dev/ram0`, before anything a pattern cuts off |
| `UbuntuTwice.NfsTwice` | app/services/menu_generator.py:1253-1264 | building NFS arguments twice changes nothing if and only if no token of the arguments holds such a nested RAM disk token |
| `UbuntuTwice.HttpTwice` | app/services/menu_generator.py:1265-1270 | building HTTP arguments twice changes nothing, for all arguments |
| `UbuntuTwice.NestedBuildDiffers` | app/services/menu_generator.py:1253-1264 | on the shortest nested token the second NFS build differs from the first |
| `UbuntuTwice.UsualIsApart` | app/services/menu_generator.py:911-924 | values of the server without an equals sign, and the default mount options, hold no token of the other mode |
| `UbuntuTwice.UbuntuOwn` | app/services/menu_generator.py:1253-1270 | tokens of the administrator's that the other mode's patterns do not touch stay, together and in order, in both modes |
| `StubTokens.StubLeft` | app/services/menu_generator.py:917-931 | HTTP stripping never removes a `cloud-config-url=` token: it leaves `cloud-config-` of it, or the bare key when the patterns before `url=` leave nothing of the value |
| `StubTokens.DevNullLeft` | app/services/menu_generator.py:140-147 | the value the menus themselves write, `/dev/null`, leaves the stub |
| `StubTokens.BuiltStub` | app/services/menu_generator.py:1253-1264 | a build for NFS keeps that stub among the arguments, in the place of the token |
| `StubTokens.StubStays` | app/services/menu_generator.py:911-931 | no pattern of either mode touches the stub, so no later build removes it |
| `UbuntuModes.UsualIsRecognised` | app/services/menu_generator.py:911-924 | an export that starts with an address, a numeric size and an http URL are recognised by the patterns meant for them |
| `SlotPlan.NormalizeSpecs` | app/services/os_type_extract_plan.py:67-112 | both readings of the stored rows |
| `SlotPlan.FewerSpecs` | app/services/os_type_extract_plan.py:67-112 | the plan never has more entries than the form has terms, and as many if and only if every row means something to both |
| `SlotPlan.AlignedMeans` | app/services/os_type_extract_plan.py:67-112 | the rows that do not: a plain pattern without a file name in it |
| `SlotPlan.FormSlotsAligned` | app/routers/settings.py:59-81 | for every submission of the form, entries and terms have equal length and entry i looks for what term i shows |
| `SlotPlan.SameRows` | app/services/os_type_extract_plan.py:67-112 | every entry comes from the row of the term with its number if and only if every row means something to both readings or to neither |
| `SlotPlan.FormSameRow` | app/routers/settings.py:59-81 | for every submission of the form, entry i and term i come from the same row |
| `SlotPlan.SlashMisaligns` | app/services/os_type_extract_plan.py:67-112 | such a row shifts the entries against the terms |
| `SlotPlan.AssignFromPlan` | app/services/os_type_extract_plan.py:319-396 | the loop over the paired entries and terms: globs, blank names and names without a copied file are skipped, the others get their slot |
| `SlotPlan.AlignedPlanIsManual` | app/services/os_type_extract_plan.py:319-396 | for all stored rows that mean something to both readings or to neither, the plan fills every slot as a manual upload of the files it found would, if and only if it is not Proxmox with a second kernel in the second row |
| `SlotPlan.AssignFromUploads` | app/routers/isos.py:650-661 | the loop over the uploaded files |
| `SlotFills.ManualFills` | app/routers/isos.py:650-661 | uploaded by hand: the first file is the kernel, the second the initrd, on Alpine the first later one that asks for it the modloop, every other one an extra under its term, in order |
| `SlotFills.PlanFills` | app/services/os_type_extract_plan.py:319-396 | from the plan: the same, but a second kernel on Proxmox is the kernel when there is none and otherwise the first extra |
| `SlotFills.EntryFile` | app/services/os_type_extract_plan.py:350-354 | the file of an entry by name is the first copy under that name, below the version's directory, with forward slashes |
| `SlotFills.PathLine` | app/routers/settings.py:59-81 | a line of the form with a path and no wildcard asks for the last segment by name |
| `SlotFills.GlobLine` | app/routers/settings.py:59-81 | a line with a wildcard asks for the whole pattern |
| `SlotPlan.PlanIsManual` | app/routers/isos.py:650-661 | for every submission of the form and everything that was copied, the plan fills every slot and the ordered extras as a manual upload of the copied files under the form's own terms would, under the same condition |
| `SlotPlan.SecondKernelDiffers` | app/services/os_type_extract_plan.py:362-380 | a form with `linux26` in its second line: plan and upload differ on Proxmox |
| `SlotPlan.ShiftedPlan` | app/services/os_type_extract_plan.py:319-396 | with a stored row that only names a directory the plan boots the initrd as kernel |
| `Slugs.SlugifyGives` | app/services/slugify.py:4-13 | whatever the label, the slug holds lower-case letters, digits, dots and single dashes, none of these at either end |
| `SlugWords.SlugIsWords` | app/services/slugify.py:4-13 | the slug of every label is its words in lower case, one dash apart: letters, digits and dots make words, white space, underscores and dashes separate them, other characters are left out |
| `Slugs.SlugifyFixes` | app/services/slugify.py:4-13 | such texts are exactly the ones the function leaves alone, so applying it again changes nothing |
| `Reorder.OsTypes.Reorder` | app/routers/settings.py:459-476 | an order is taken exactly when it is a permutation of the types, and then each stands at its index |
| `Reorder.AcceptedMeans` | app/routers/settings.py:468-471 | equal sets and equal lengths mean a permutation |
| `Reorder.ShownIsOrder` | app/services/os_type_order.py:29-35 | after an accepted order the sort gives exactly that order, whatever the slugs are |
| `HttpsPatch.PatchHttpsSupport` | app/services/ipxe_compiler.py:155-210 | the substitutions in order, and what is reported |
| `HttpsLines.PatchedIs` | app/services/ipxe_compiler.py:155-210 | line by line: the first commented `#define` is replaced; without one an existing `#define` is enough; otherwise the new one stands directly after the first HTTP one; without that the patch fails |
| `HttpsLines.UndefGoes` | app/services/ipxe_compiler.py:155-210 | the `#undef` lines go and all others stay in order |
| `HttpsLines.LaidOutIsTaken` | app/services/ipxe_compiler.py:155-210 | the patterns take every line of blanks, the word, at least one blank and the name |
| `HttpsLines.TakenIsLaidOut` | app/services/ipxe_compiler.py:155-210 | and no other line |
| `HttpsPatch.PatchedDefines` | app/services/ipxe_compiler.py:155-210 | a patch that succeeds leaves HTTPS defined when the lines are read in order, whatever was defined before (`#define` and `#undef` as section 6.10.3.5 of ISO/IEC 9899:2011 has them) |
| `HttpsPatch.PatchedKeeps` | app/services/ipxe_compiler.py:155-210 | every other line stays, in order, and so do all commented `#define` lines but the first, in their places among them |
| `HttpsPatch.PatchedTwice` | app/services/ipxe_compiler.py:155-210 | a second patch changes nothing if and only if at most one `#define` was commented out |
| `HttpsPatch.TwoCommented` | app/services/ipxe_compiler.py:155-210 | a header of two such lines, which every patch changes again |

## Left out

- Non-ASCII case folding: `str.lower`, `casefold`, `re.I` and `\b` are modelled on ASCII letters.
- Percent escapes of bytes from 0x80 on, and `urlparse`'s own errors beyond unbalanced brackets in the host, its removal of tabs, and its double-slash rule for URLs without a host.
- KerneloptTwice.SmoothTwice: tokens with a `%` that lower-casing changes are left out, because decoding an escape can bring any character to light; the results on whole values, files and runs that build on it leave them out too.
- BootCfgLaws.RewritePreservesMeaning: the condition is sufficient; a continued line whose key is assigned again later can leave the meaning as it was.
- PublishLaws.PublishedTree: says nothing of the paths when a byte order mark hides the kernel, a module, the prefix or the kernel options, when a space follows such a mark in front of another key, or when a kept line ends in a backslash.
- RefreshMeans.RefreshedPrefix: the condition is sufficient; a prefix line joined to the one before can still be read when that line held nothing but the backslash.
- KernelTokens.EnterpriseTokens, KernelTokens.FedoraTokens and the other token lists: speak of server values of one word each.
- CommuteFile.ActivationCommutes: leaves out the empty file, for which `EmptyFileDiffers` gives the answer, and asks that `cdromBoot` occurs only as a whole token and that no slashed spelling of `runweasel` is normalised into it.
- UbuntuTwice.NfsTwice and UbuntuTwice.HttpTwice: ask that the server's own values are removed by the patterns meant for them and hold no token of the other mode, which usual values meet (`UsualIsRecognised`, `UsualIsApart`).
- UbuntuModes.SwitchToNfs and UbuntuModes.SwitchToHttp: speak of arguments without a token of either mode.
- KernelBuild.BuildKernelArgs: the URLs, the version segment and the initrd name derived from the boot entry are inputs.
- Publish.PublishImage: the mirror step is not modelled because every path of a lower-cased tree is its own mirror (`LowerTree.LoweredIsLower`); a directory of the image that has the name of one of the published files stops the publication in the model, where the program copies into it (`mboot.efi`, `crypto64.efi`) or fails.
- LowerTree.VersionDir.LowerCase: the replacement of the directory by the new one is a single step; empty directories, permissions and failing hard links are not modelled, and the order of the listing is any order instead of the sorted one.
- Resolve.ResolveFile: no symbolic links; other directories of the machine are a parameter.
- DiskGuard.GuardBound: only uploads write; the temporary copy the form parser makes of a request is another disk consumer, and the boot-file form and the master store, which poll differently or not at all, are not modelled.
- UbuntuLifecycle.UbuntuVersion.CreateConfig: labels, automatic numbering and the slug rules are inputs; another version with the same folder would share the bundles.
- EsxiRuns.RunIsCanonical: with refreshes in the run it asks for a steady file whose lines settle and for URLs of one word, without `cdromBoot`, that are not slashes alone and hold no `%` or are in lower case; `RunWithoutRefresh` asks for none of this.
- HttpsPatch.PatchedDefines: block comments, conditional sections and directives with space after `#` are not read.
- Reorder.ShownIsOrder: the sort is any stable or unstable sort by the key.
- Job queues, database migrations, external tools, menu templates, pages, authentication and logging.
- Slugs.SlugifyFixes: labels of ASCII letters; other letters, which `\w` keeps, are not modelled.
- Firmware progress and automatic configuration names: they would add only easy members.
