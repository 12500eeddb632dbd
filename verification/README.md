# Verified models of the Dagger toolchain modules

A Dafny model of six small engines in the `daggerverse` modules, and proofs of what they promise.
`dafny verify dfyconfig.toml` checks everything. Each engine is modelled from its Go source, with
the same branches, constants and error cases; the six are independent of each other.

**Publishing files** (`Publish.dfy`). Several modules carry `writeWorkdirFile`: make a directory
named by the digest of the content, create a temporary file in it, write, chmod, close, rename. The
model is a transition system of any number of callers over one file system of directory entries and
inodes, where every system call is a step, a write may take only part of the data and any call may
fail. The function itself is a method that walks those steps. The claim that nobody sees a partial
file holds exactly when no published name can be drawn as a temporary name in its own directory and
no two contents share a path. Both follow from a collision-free digest and names that open with no
dot, like the constant ones the crypto, envoy and grafana-stack modules use.

**Splicing TLS blocks into YAML** (`YamlTree.dfy`, `YamlHeap.dfy`, `YamlServed.dfy`). The edits are
modelled twice: as functions on trees, where their laws are proved, and as methods that change the
child lists of heap nodes in place, proved to compute those functions and to leave a tree without
sharing. A shape says which nodes form the tree, and a context is a shape with a hole, the part an
edit must leave alone. `ensureMapNode` hands back an existing scalar or null as it is, so a block
below it is out of a reader's sight: the splice secures its three paths exactly when the nodes that
are already there are mappings. `YamlServed` then says, key by key, what that reader finds. The
edits walk a sequence as if its elements were pairs, so a splice need not find again what it put
there; the exact condition for splicing twice to be splicing once is `TempoIdempotent`. The comment
on `documentMapping` says an empty document is given a mapping; decoding empty input leaves a node
that is no document at all, which the code returns unchanged, so the tree that is then encoded has
no server block (`ZeroDocumentStaysUnserved`).

**Quoting for the shell** (`ShellGrammar.dfy`, `ShellQuote.dfy`, `ShellPlain.dfy`,
`ShellPlainOnly.dfy`). `ShellGrammar` reads command strings by the Shell Command Language of IEEE
Std 1003.1-2017: quoting (section 2.2), token recognition (2.3), tilde prefixes (2.6.1), redirection
(2.7), lists (2.9.3) and what is a pattern (2.13). It gives no answer where meaning would depend on
an expansion or is left unspecified. What the flash module quotes parses as the commands meant, with
their exact arguments. One line is joined without quotes and handed to `sh -c`, that of the gdb
server behind an attach: it means the two commands exactly when every token is plain, a non-empty
word of ordinary characters with no tilde or hash in front and no pattern in it, which host, port,
bus id and probe selector are not checked for. A pattern (`*`, `?` or a closed bracket) is counted
as not meant because some directory makes it expand; a tilde or an open bracket inside a word is
handed on.

**Quoting for -ldflags** (`Ldflags.dfy`). The splitter is that of cmd/go: fields are separated by
whitespace, a quote counts only at the start of a field, nothing is escaped. It takes the set of
whitespace characters as a parameter that includes at least space, tab and newline, because cmd/go
also breaks at a carriage return, which `quoteLdflag` does not look for; the round trip is an
equivalence whose condition says which stamps that cuts. `quoteLdflag` refuses every token with both
quote characters as inexpressible. Those with neither whitespace nor a leading quote are expressible
(`RejectedYetRepresentable`).

**Bruno collections: scanner, linter, drift** (`BruParse.dfy`, `BruReferences.dfy`, `BruLint.dfy`,
`BruMeta.dfy`, `BruRoute.dfy`, `BruRouteReads.dfy`, `BruRouteParams.dfy`, `BruDrift.dfy`). The block
scanner is proved against a declarative segmentation that is shown to be unique, and its entries
against the text of their lines. The reference linter is proved against scope and reference alone,
without the tables it builds: a reference is a name between double braces at a position of a value.
The drift verdict, a comparison of two texts, is proved to compare the two sets of routes. Three
laws of `routePath` hold under a condition that is proved to be exact: reducing twice is reducing
once unless the url's last segment ends in whitespace, a query drops out unless whitespace stands in
front of it, and `{p}` is `:p` unless braces left open in front of the segment are closed behind it,
or the name ends in whitespace and the url with it.

**Bruno collections: builders** (`GoSlice.dfy`, `BruOptions.dfy`, `BruCollection.dfy`,
`BruStaging.dfy`, `BruCommand.dfy`). A Go slice is a backing array and a length; `append` writes in
place while the array has room. No builder has a `modifies` clause, so the verifier itself rejects
an append into an array that existed before the call. A run of calls on any earlier collections
leaves each of them as it was made, and keeps the lists that later code walks by one index equally
long. Of the client certificates, `validateTLS` refuses a host configured twice, because the second
would never be presented. Host patterns may be wildcards, so that check is needed and not enough:
the exact condition is that no pattern is covered by an earlier one (`NoneShadowed`). The builders
for a single field (environment, files, sandbox, flags) are in the model with the same contract as
those in the table.

**Envoy configuration** (`EnvoyConfig.dfy`, `EnvoyBuilds.dfy`, `EnvoyClosure.dfy`,
`EnvoyRender.dfy`, `EnvoyReads.dfy`, `EnvoyXds.dfy`, `EnvoyMounts.dfy`, with `Mounting.dfy`). A
document is the tree it decodes to, encoding and decoding being assumed inverse. Proved are what a
constructor accepts and what the proxy reads of it, closure of cluster references, agreement of the
static and the file-based form, and that every certificate and key file a document names is mounted
from the material of the component that names it. Names of clusters are not checked for duplicates,
and two secured clusters of one name do share their files (`SharedClusterName`); with distinct names
no mount overwrites another, and only then.

`Text.dfy` holds the few string operations of Go's standard library in use.

## Model

| member | source | states |
|---|---|---|
| `Publish.PublishSafe` | daggerverse/crypto/main.go:346-378 | with no clash of names and no conflict of contents, in every world of every interleaving of any number of callers, with partial writes and failures at any call, a final path is absent or holds the full content of every caller that publishes there, and once there it stays there; a caller that returned successfully finds its file complete |
| `Publish.ReaderSeesFullContent` | daggerverse/crypto/main.go:342-345 | with no clash and no conflict, a reader who opened a final path reads the full content from that inode at every later moment, whatever is renamed over the path in between |
| `Publish.PublishExactly` | daggerverse/crypto/main.go:342-378 | all runs are safe if and only if no caller publishes under a name another may draw for its temporary file in the same directory and no two contents meet at one path |
| `Publish.PlainNamesAreSafe` | daggerverse/go/workdir.go:21-53 | with names that open with no dot, and two contents the same whenever their digests are, the condition of `PublishExactly` holds |
| `Publish.DirsByDigest` | daggerverse/go/workdir.go:21-53 | two callers publish in one directory if and only if the digests of their contents are equal |
| `Publish.ClashBreaks` | daggerverse/crypto/main.go:354-359 | a final name that is another caller's temporary name gives a run in which a published path vanishes again |
| `Publish.ConflictBreaks` | daggerverse/crypto/main.go:347-348 | two different contents at one path give a run that shows the wrong content |
| `Publish.DottedNameBreaks` | daggerverse/crypto/main.go:354-359 | whatever the digest, the names x and .x-0 over one content break the claim |
| `Publish.CollisionBreaks` | daggerverse/crypto/main.go:347-348 | a digest that does not tell two contents apart breaks it for one name over the two |
| `Publish.NextKeeps` | daggerverse/crypto/main.go:346-378 | with no clash and no conflict, every step of every caller keeps the invariant: entries point at inodes, open temporary files belong to one caller each and hold a prefix of its content, published inodes belong to nobody |
| `Publish.RunInv` | daggerverse/crypto/main.go:346-378 | with no clash and no conflict, the invariant holds in every world of every run |
| `Publish.CreateKeeps` | daggerverse/crypto/main.go:354-358 | with no clash, drawing a temporary file keeps the invariant and every published path |
| `Publish.WriteKeeps` | daggerverse/crypto/main.go:359-363 | a write of any part of the content touches no published inode |
| `Publish.RenameKeeps` | daggerverse/crypto/main.go:374-377 | with no clash and no conflict, the rename replaces a complete file by a complete file of the same content, and leaves the old inode readable |
| `Publish.RemoveKeeps` | daggerverse/crypto/main.go:359-377 | with no clash, the clean-up on failure removes the caller's own temporary entry and no published path |
| `Publish.UnownedThroughout` | daggerverse/crypto/main.go:346-378 | with no clash and no conflict, an inode no caller holds is never written again in the rest of a run, nor handed out again |
| `Publish.WriteWorkdirFile` | daggerverse/go/workdir.go:21-53 | the function itself, with a failure at any system call, walks exactly the steps of the system; success means exactly one entry is new or replaced and points at the full content, failure leaves the entries as they were, and it succeeds exactly when no call fails, the name is usable and a temporary name is free |
| `Publish.FillAndRename` | daggerverse/envoy/main.go:1060-1092 | the part after the temporary file is there, for a failure in it or none |
| `Publish.CloseAndRename` | daggerverse/crypto/main.go:364-377 | mode, close and rename: the entries after it say whether it was published |
| `Publish.GiveUp` | daggerverse/crypto/main.go:359-377 | two steps that end in failure with only the temporary entry gone |
| `Publish.Disk.CreateTemp` | daggerverse/crypto/main.go:354-357 | a free number under the pattern gives a new empty inode under that name; an unusable pattern or no free number changes nothing |
| `Publish.Disk.WriteAll` | daggerverse/crypto/main.go:359-363 | all of the content is in the inode, or its beginning when the call fails |
| `Publish.Disk.RenameTo` | daggerverse/crypto/main.go:374-377 | the entry moves, replacing what was at the final path, or nothing changes |
| `YamlTree.TempoSecures` | daggerverse/grafana-stack/main.go:1112-1142 | in every tree with paired children in its mappings, lookup afterwards gives the server block at server.http_tls_config and the receiver block under both protocols if and only if every node that already exists on those paths is a mapping |
| `YamlTree.TempoFrame` | daggerverse/grafana-stack/main.go:1108-1142 | in every tree with paired children, secured or not: a path unrelated to the three keeps exactly the node it had; a path in front of one keeps its keys and their order and can only gain keys at the end |
| `YamlTree.TempoWellFormed` | daggerverse/grafana-stack/main.go:1112-1142 | a tree with paired children and unique keys stays one, where the existing nodes on the three paths are mappings |
| `YamlTree.TempoIdempotent` | daggerverse/grafana-stack/main.go:1112-1142 | splicing twice with the same directory and mTLS flag is splicing once, if and only if every node that already exists on the three paths has its children in pairs or has the key in one of its pairs |
| `YamlTree.ListSplicedTwice` | daggerverse/grafana-stack/main.go:1019-1031 | a well-formed file whose server settings are a list of one element: a second splice changes it again (`YamlTree.ListWellFormed`) |
| `YamlTree.PutIdempotent` | daggerverse/grafana-stack/main.go:1007-1031 | the same equivalence for one path and any value with children |
| `YamlTree.TempoIsThreePuts` | daggerverse/grafana-stack/main.go:1126-1135 | where the nodes on the way have paired children or the key, walking to the protocols once and editing below is the same as three independent edits from the root |
| `YamlTree.PutThenLookup` | daggerverse/grafana-stack/main.go:1007-1031 | in a tree with paired children in its mappings, after a chain of ensureMapNode calls closed by setMapKey, lookup at the path, or anywhere below it, gives the new value exactly when the existing nodes on the path are mappings |
| `YamlTree.PutFrame` | daggerverse/grafana-stack/main.go:1007-1031 | in a tree with paired children in its mappings, every path that is neither a prefix nor an extension keeps its node |
| `YamlTree.PutGrows` | daggerverse/grafana-stack/main.go:1005-1031 | in a tree with paired children in its mappings, a node on the way keeps its kind, tag, text, style and its keys in order; at most one key is added at the end |
| `YamlTree.PutWellFormed` | daggerverse/grafana-stack/main.go:1007-1031 | pairs and unique keys are kept, where the existing nodes on the path are mappings |
| `YamlTree.PutPut` | daggerverse/grafana-stack/main.go:1019-1031 | where the nodes on the way have paired children or the key, setting a key twice is setting it once, to the second value |
| `YamlTree.PutAgain` | daggerverse/grafana-stack/main.go:1019-1031 | setting a key to what it has changes nothing |
| `YamlTree.PutBelow` | daggerverse/grafana-stack/main.go:1007-1031 | an edit at a long path is an edit of the node found at a shorter one |
| `YamlTree.ServerBlockNamesMounts` | daggerverse/grafana-stack/main.go:1051-1067 | each file entry of the server block names the path where the certificate, key or client CA is mounted, and the client CA entry is there exactly with mTLS |
| `YamlTree.ReceiverBlockNamesMounts` | daggerverse/grafana-stack/main.go:1069-1083 | the same of the receiver block |
| `YamlTree.ZeroDocumentStaysUnserved` | daggerverse/grafana-stack/main.go:988-1003 | an empty document decodes to a node that is no document; in the tree left by the splice no server block is found. It speaks of that tree only, and says nothing of what encoding makes of a node of kind zero |
| `YamlServed.ServerFound` | daggerverse/grafana-stack/main.go:1089-1106 | in the spliced tree, where `server` and its settings are mappings or absent, lookup below server.http_tls_config gives the mounted certificate and key, with mTLS also the client CA and `RequireAndVerifyClientCert`, and nothing under any other key |
| `YamlServed.TempoFound` | daggerverse/grafana-stack/main.go:1108-1142 | the same of the server block and of both receiver blocks, which hold no client authentication type |
| `YamlServed.DocumentServed` | daggerverse/grafana-stack/main.go:988-1003 | a document that holds such a mapping, or nothing yet, ends up with one root in which every key of the three blocks is found as said |
| `YamlServed.PutCreates` | daggerverse/grafana-stack/main.go:1007-1031 | where the first key of a path is not there, a plain mapping under a plain string key is appended, and nothing else changes |
| `YamlHeap.RenderTempo` | daggerverse/grafana-stack/main.go:1112-1142 | the heap of nodes edited through pointers is left a tree without sharing, and it stands for exactly the tree `TempoTree` speaks of |
| `YamlHeap.RenderDskit` | daggerverse/grafana-stack/main.go:1089-1106 | the same of the server block alone |
| `YamlHeap.EnsureMapNode` | daggerverse/grafana-stack/main.go:1007-1018 | returns the first value node under the key, or a new empty mapping linked in at the end; nothing else in the heap tree changes and no node comes to be shared |
| `YamlHeap.NewMapNode` | daggerverse/grafana-stack/main.go:1013-1017 | the branch that appends a key node and an empty mapping |
| `YamlHeap.SetMapKey` | daggerverse/grafana-stack/main.go:1021-1031 | replaces the child pointer of the first pair with the key, or appends a pair; everything around and below keeps its value, and no node comes to be shared |
| `YamlHeap.ReplaceValue` | daggerverse/grafana-stack/main.go:1022-1026 | the branch that overwrites a child pointer |
| `YamlHeap.AppendPair` | daggerverse/grafana-stack/main.go:1028-1030 | the branch that appends a new key node and the value |
| `YamlHeap.EnsurePath` | daggerverse/grafana-stack/main.go:1128-1128 | nested ensureMapNode calls reach the node the path leads to, and a later change of that node is a change of the whole tree at that path |
| `YamlHeap.DocumentMapping` | daggerverse/grafana-stack/main.go:993-1003 | the root under a document node, made when the document has none, or the node itself |
| `YamlHeap.BlockNode` | daggerverse/grafana-stack/main.go:1036-1049 | a block becomes new nodes, shared with nothing |
| `YamlHeap.ServeTls` | daggerverse/grafana-stack/main.go:1099-1099 | the server block is put at server.http_tls_config |
| `YamlHeap.ReceiveBoth` | daggerverse/grafana-stack/main.go:1129-1135 | the loop over grpc and http puts the receiver block under both |
| `YamlHeap.FindPair` | daggerverse/grafana-stack/main.go:1008-1012 | the search both edits share returns the first pair with the key |
| `ShellQuote.ShArgsRoundTrip` | daggerverse/flash/flasher.go:197-212 | for every argv, empty tokens and tokens of quotes alone included, POSIX tokenising of the rendered line gives exactly the argv |
| `ShellQuote.ShArgsInjective` | daggerverse/flash/flasher.go:204-212 | two argument lists with one rendering are the same list |
| `ShellQuote.RenderShArgs` | daggerverse/flash/flasher.go:206-212 | the slice that is filled and joined is the quoted tokens in order, one blank between two |
| `ShellQuote.LexQuoted` | daggerverse/flash/flasher.go:200-202 | whatever follows, a quoted string adds exactly its own characters, all quoted, to the word being read |
| `ShellQuote.ProbeCommandLine` | daggerverse/flash/flasher.go:167-179 | the inner command parses as exactly one AND-list: the attach command, if any, then probe-rs with its exact argv, which alone has standard error merged |
| `ShellQuote.FirmwareCommandLine` | daggerverse/flash/flasher.go:65-69 | the same of the run and verify commands, the firmware path last after the probe and format options |
| `ShellQuote.BridgeCommandParses` | daggerverse/flash/main.go:48-54 | the bridge command parses as exactly two commands, the first in the background, each with its exact argv whatever the port and bus id hold |
| `ShellQuote.ParseAttachThenProbe` | daggerverse/flash/flasher.go:176-179 | two rendered lists around `&&` parse as two commands with those lists |
| `ShellPlain.GdbServerArgs` | daggerverse/flash/flasher.go:131-141 | probe-rs gdb, the probe options and the address 0.0.0.0 with the port as a decimal numeral; behind an attach these go to sh -c, joined by blanks after a semicolon and exec |
| `ShellPlain.PlainLineParses` | daggerverse/flash/flasher.go:136-138 | non-empty tokens of ordinary, non-pattern characters, joined without quotes, parse as two commands with those argvs, the attach and then exec of the server |
| `ShellPlainOnly.PlainLineExactly` | daggerverse/flash/flasher.go:136-138 | the unquoted line parses as the two commands meant if and only if every token is plain and the attach names a command; a token with `*`, `?` or a bracket pattern is not plain, because some directory makes it expand |
| `ShellPlainOnly.GdbServerLine` | daggerverse/flash/probers.go:86-119 | over USB/IP the unquoted line, written out with its words and the numeral of the port, means the attach and then exec of the server if and only if host, port, bus id and probe options are plain tokens |
| `ShellPlainOnly.SemicolonSplits` | daggerverse/flash/probers.go:104-119 | with the bus id `1-1;2` and plain probe options it means three commands: the attach with `1-1`, the command `2`, and the server |
| `ShellPlainOnly.SemicolonNotMeant` | daggerverse/flash/probers.go:104-119 | and so never the two commands meant, whatever the probe options |
| `ShellPlainOnly.TildeAndBracketKept` | daggerverse/flash/probers.go:104-119 | a tilde inside the host and a bracket that nothing closes in the bus id are handed on as they are |
| `Ldflags.LdflagsRoundTrip` | daggerverse/go/main.go:366-388 | splitting the rendered value gives -s and -w if asked, and then two fields a stamp, -X and the stamp itself, in order, if and only if no stamp is left unquoted around a character the splitter breaks at but the quoting does not look for |
| `Ldflags.OwnWhitespaceRoundTrip` | daggerverse/go/main.go:390-398 | with space, tab and newline as the splitter's whitespace every accepted list of stamps comes through exactly |
| `Ldflags.RenderLdflags` | daggerverse/go/main.go:366-388 | accepts exactly the stamps with a non-empty name before the first equals sign that do not hold both a single and a double quote; the text is empty exactly without stripping and stamps; the error is that of the first stamp refused, and true of it |
| `Ldflags.QuoteChosen` | daggerverse/go/main.go:390-406 | a token is quoted exactly when it holds a blank, tab, newline or quote, with single quotes unless it holds one |
| `Ldflags.IndexEquals` | daggerverse/go/main.go:374-380 | the first equals sign, or none |
| `Ldflags.RejectionNecessary` | daggerverse/go/main.go:395-406 | an accepted token can be the one field of some string; a refused one can exactly when it holds no whitespace and opens with no quote |
| `Ldflags.CarriageReturnCut` | daggerverse/go/main.go:390-398 | the stamp a=b, carriage return, c is accepted and left bare, and a splitter that breaks fields at a carriage return does not give it back |
| `Ldflags.RepresentableTokens` | daggerverse/go/main.go:390-394 | no string splits into a single field with both quote characters that also holds whitespace or opens with a quote; every other token is the single field of some string |
| `Ldflags.RejectedYetRepresentable` | daggerverse/go/main.go:405-405 | a stamp that is refused for holding both quotes and yet would have come through unquoted |
| `BruParse.ParseBru` | daggerverse/bruno/lint.go:245-267 | the nested loops over one index end with a segmentation of the lines: every block starts at a header line, its body is the longest run with no closer of its own bracket kind, every header outside the bodies starts a block; and each block reads, line by line, as its header and the entries its lines declare, each with its line number |
| `BruParse.SegmentationUnique` | daggerverse/bruno/lint.go:245-267 | a line sequence has only one segmentation |
| `BruParse.HeaderMatches` | daggerverse/bruno/lint.go:49-56 | the header test is the block-opener pattern: name, optional blanks, one bracket, and nothing else on the line |
| `BruParse.EntryExactly` | daggerverse/bruno/lint.go:273-294 | the entry of a line is what the line declares: `~` in front turns it off, in an array it is a name, in a dictionary the first colon parts key and value, all without the blanks around them |
| `BruParse.CloserExactly` | daggerverse/bruno/lint.go:252-257 | a line closes a block exactly when it is the bracket of its kind followed by blanks, tabs or carriage returns only |
| `BruParse.CloserIsNoHeader` | daggerverse/bruno/lint.go:252-266 | the line that ends a block opens none |
| `BruReferences.References` | daggerverse/bruno/lint.go:772-806 | the three nested loops keep each name once, with the line of the first entry that refers to it outside documentation, tests and scripts |
| `BruReferences.InterpolationsExactly` | daggerverse/bruno/lint.go:772-786 | what is found in a value are all its interpolations, `{{`, text without braces, `}}`, each at its own position, from left to right |
| `BruReferences.RefsExactly` | daggerverse/bruno/lint.go:772-806 | a name is kept with a line exactly when that is the line of the first entry that holds it between double braces, blanks around it aside, in a block that is read |
| `BruReferences.FirstRefsExactly` | daggerverse/bruno/lint.go:772-806 | what is kept are all the names, no two alike, each with its first occurrence |
| `BruLint.VarNamesExactly` | daggerverse/bruno/lint.go:320-354 | a file declares a name exactly when an entry of a vars block has it, disabled or not |
| `BruLint.DirExactly` | daggerverse/bruno/lint.go:716-724 | a file lies in the folder in front of its last slash, and in the root without one |
| `BruLint.StemExactly` | daggerverse/bruno/lint.go:697-702 | the environment a file is named for is its last path element without its extension |
| `BruLint.LintReferences` | daggerverse/bruno/lint.go:691-748 | whatever order the folder map is visited in, a finding is reported exactly when a request of its path refers to the variable, first on that line, and nothing in its scope declares it |
| `BruLint.ScopeExactly` | daggerverse/bruno/lint.go:691-748 | a name is in scope exactly when an override, the supplied file, the settings, a selected environment, a script, a folder above the request or the request itself declares it |
| `BruLint.ReportExactly` | daggerverse/bruno/lint.go:691-748 | a (file, line, variable) finding is reported exactly when a request of that path refers to the variable, first on that line, and nothing in its scope declares it |
| `BruLint.RequestFindingsExactly` | daggerverse/bruno/lint.go:730-748 | the findings of one request are exactly the variables it refers to and nothing declares, each once, with its path and the line of the first reference |
| `BruLint.UnresolvedUnderEveryEnvironment` | daggerverse/bruno/lint.go:685-700 | what is unresolved with no environment selected is unresolved under every named one |
| `BruMeta.LintMeta` | daggerverse/bruno/lint.go:604-638 | the nested table updated in the loop gives, for each request, that it has no meta block, or that the block has no name, or no seq, or which earlier request of the folder took its seq first; and nothing else |
| `BruMeta.LintMetaOf` | daggerverse/bruno/lint.go:607-637 | one turn of the loop: the findings of one request, and the table of every (folder, seq) place taken so far with who took it first |
| `BruMeta.ClashCount` | daggerverse/bruno/lint.go:604-638 | duplicate findings plus distinct (folder, seq) places are the requests that carry a seq; so there is no such finding exactly when no two requests of a folder share one |
| `BruMeta.MetaExactly` | daggerverse/bruno/lint.go:604-638 | the same of the report as a whole: a finding is in it exactly when it is true of a request, given the requests before it |
| `BruRoute.RoutePath` | daggerverse/bruno/drift.go:277-300 | the loop over the segments gives the path built from the segments that are left |
| `BruRouteReads.RoutePathExactly` | daggerverse/bruno/drift.go:277-300 | a path is the route of a url exactly when it is a slash and the non-empty pieces between slashes, joined by slashes and {p} spelled :p, of what is behind the interpolation or else the origin in front, in the trimmed url up to its first ? or # |
| `BruRouteReads.StripBaseExactly` | daggerverse/bruno/drift.go:35-45 | what comes off is a brace-free interpolation in front, or else a scheme, `://` and everything up to the next slash, or else nothing, whatever follows |
| `BruRoute.RoutePathIdempotent` | daggerverse/bruno/drift.go:277-300 | reducing a reduced path changes nothing if and only if the last non-empty segment of the url, read inside its braces if it is {p}, does not end in whitespace |
| `BruRoute.SpaceAtTheEnd` | daggerverse/bruno/drift.go:277-300 | the url `/a /` reduces to `/a` and a blank, which reduces further |
| `BruRoute.RoutePathIdempotentOnPlainUrls` | daggerverse/bruno/drift.go:277-300 | on every url without whitespace reducing twice is reducing once |
| `BruRoute.RouteIgnoresVariable` | daggerverse/bruno/drift.go:37-40 | an interpolation without ? or # in front of a slash-led path does not change the route |
| `BruRoute.RouteIgnoresOrigin` | daggerverse/bruno/drift.go:42-45 | a scheme and host without ? or # in front of a slash-led path do not change the route |
| `BruRoute.RouteIgnoresQuery` | daggerverse/bruno/drift.go:271-281 | a query or fragment behind a url that has neither does not change the route if and only if the url does not end in whitespace, or nothing is left of it behind its base |
| `BruRoute.SpaceBeforeQuery` | daggerverse/bruno/drift.go:277-281 | with a blank between the path and the query it does: `/a ?b` is not the route of `/a ` |
| `BruRoute.PathWithin` | daggerverse/bruno/drift.go:277-300 | a route holds only characters of its url, slashes and colons, and no question mark or hash |
| `BruRouteParams.ParamSpelling` | daggerverse/bruno/drift.go:47-51 | a whole segment spelled {p} or :p gives the same route if and only if it is not captured between braces opened in front of it and closed behind it, and no whitespace at the end of p is trimmed off as the url's own |
| `BruRouteParams.CapturedSegment` | daggerverse/bruno/drift.go:277-300 | `{{x/{id}/y}}` and `{{x/:id/y}}` are different routes |
| `BruRouteParams.TrimmedSegment` | daggerverse/bruno/drift.go:277-300 | `/pets/{id }` and `/pets/:id ` are different routes |
| `BruDrift.Drift` | daggerverse/bruno/drift.go:153-196 | two collections drift if and only if some method and path are asked for in one and not in the other, whatever the order and the repetitions of the requests; the count is that of the declared set |
| `BruDrift.RequestRouteExactly` | daggerverse/bruno/drift.go:256-269 | a file asks for a route exactly when its first block named for one of the eight methods has that method, and the first url of the block, or the empty text, is reduced to that path |
| `BruDrift.Compare` | daggerverse/bruno/drift.go:176-196 | the texts of the two listings are equal if and only if the two sets of routes are |
| `BruDrift.RequestSet` | daggerverse/bruno/drift.go:228-249 | exactly the routes some request asks for, each once, their paths in lexicographic order and the methods within one path |
| `BruDrift.LineInjective` | daggerverse/bruno/drift.go:216-218 | two routes with one printed line are the same route |
| `BruDrift.ListingInjective` | daggerverse/bruno/drift.go:201-208 | two lists of one-line routes with the same listing text are the same list |
| `BruDrift.SplitListing` | daggerverse/bruno/drift.go:201-208 | for one-line routes, cutting the listing at newlines gives the printed routes back |
| `BruDrift.WriteListing` | daggerverse/bruno/drift.go:201-208 | the builder loop writes each route on a line of its own |
| `BruDrift.SortedUnique` | daggerverse/bruno/drift.go:242-247 | two strictly sorted lists with the same members are the same list |
| `BruDrift.ScannedOneLine` | daggerverse/bruno/lint.go:245-294 | no value the scanner reads holds a newline |
| `BruDrift.Sort` | daggerverse/bruno/drift.go:242-247 | the same members, each once as given, in order |
| `EnvoyConfig.ValidateResources` | daggerverse/envoy/main.go:945-965 | accepts exactly when listener names are pairwise distinct and every declared reference names a cluster; a duplicate is reported before an unknown reference, and what is reported is really one |
| `EnvoyConfig.CollectHcmClusterRefs` | daggerverse/envoy/main.go:448-460 | the clusters of all routes of all hosts, each once, one before another exactly as they first occur |
| `EnvoyClosure.ReferencesClosed` | daggerverse/envoy/main.go:945-965 | for listeners as the constructors make them, and however the bodies of custom listeners are read: every cluster found in the rendered listeners is a rendered cluster if and only if validation finds no unknown reference and the custom listeners, whose bodies it does not look into, keep to the known clusters in that reading |
| `EnvoyClosure.BootstrapClosed` | daggerverse/envoy/main.go:971-1005 | the static bootstrap of typed listeners that validation accepts is closed, and its listeners bear the declared names, no two alike |
| `EnvoyClosure.DeclaredRefs` | daggerverse/envoy/main.go:316-376 | the references a typed listener declares are exactly those its rendered form names |
| `EnvoyClosure.RenderedRoutes` | daggerverse/envoy/main.go:418-447 | the routes of a rendered configuration name exactly its targets |
| `EnvoyClosure.BuiltUnnamed` | daggerverse/envoy/main.go:611-623 | no constructor leaves a name in a body, so keying the name in is not overridden |
| `EnvoyRender.BuildBootstrap` | daggerverse/envoy/main.go:971-1005 | the document filled in loops lists every component in the order it was added |
| `EnvoyRender.BuildListener` | daggerverse/envoy/main.go:1011-1023 | copying the body's keys in any order gives the same listener |
| `EnvoyRender.BuildCluster` | daggerverse/envoy/main.go:1025-1055 | entry i of the load assignment carries the host and port of endpoint i, as many as there are; there is no load assignment when there are none |
| `EnvoyRender.BuildVirtualHost` | daggerverse/envoy/main.go:430-446 | route i read back sends its prefix to its cluster, none more |
| `EnvoyRender.BuildRouteConfig` | daggerverse/envoy/main.go:418-428 | host i read back has its name and as many routes as it was given |
| `EnvoyRender.BuildHcm` | daggerverse/envoy/main.go:378-396 | the connection manager names exactly the configured targets |
| `EnvoyRender.BuildDiscovery` | daggerverse/envoy/xds.go:233-250 | every resource read back has its own keys unchanged, and the type where it has none of its own |
| `EnvoyReads.HttpListenerReads` | daggerverse/envoy/main.go:316-396 | the rendered listener has the name, address and port given, one chain with a TLS socket exactly when it is not plaintext, that presents its own certificate and key, requires a client certificate and names the trust file under mutual TLS and neither otherwise; and one connection manager with the hosts, domains and routes in order |
| `EnvoyReads.TcpListenerReads` | daggerverse/envoy/main.go:487-530 | the same socket, and one tcp proxy to the cluster given |
| `EnvoyReads.ClusterReads` | daggerverse/envoy/security.go:231-262 | the rendered cluster checks its servers against its trust file when it is not plaintext, and presents a certificate of its own exactly under mutual TLS |
| `EnvoyReads.BootstrapReads` | daggerverse/envoy/main.go:971-1005 | listeners, clusters and the admin address stand under the keys the proxy reads, every component in its place |
| `EnvoyBuilds.HttpListenerAccepts` | daggerverse/envoy/main.go:316-376 | accepted exactly with a plain name, an address, a port from 1 to 65535, a manager and the authorities its security needs; it then holds a certificate and key issued to its name, and an error is true of the arguments |
| `EnvoyBuilds.TcpListenerAccepts` | daggerverse/envoy/main.go:487-547 | the same of a tcp listener, which refers to its one cluster |
| `EnvoyBuilds.CustomListenerAccepts` | daggerverse/envoy/main.go:611-623 | accepted exactly with a plain name and a body without a name, kept as it is |
| `EnvoyBuilds.NewClusterAccepts` | daggerverse/envoy/main.go:120-159 | accepted exactly with a plain name, one of three types and the stores its security needs; it holds the trust, certificate and key from those stores |
| `EnvoyBuilds.ListenerFilesHold` | daggerverse/envoy/main.go:775-803 | under distinct secured names, the literal paths a listener's socket names hold the certificate and key issued to it and its clients' authority |
| `EnvoyBuilds.ClusterFilesHold` | daggerverse/envoy/main.go:775-803 | the same of a cluster: its servers' authority, and its own certificate and key |
| `EnvoyXds.Directory` | daggerverse/envoy/xds.go:173-207 | accepts exactly what static validation accepts with no TLS anywhere; lds.yaml and cds.yaml then hold each listener and each cluster as rendered, under its own type, and nothing else is written |
| `EnvoyXds.PortsAgree` | daggerverse/envoy/xds.go:314-340 | for listeners as the constructors make them, a listener's port, or the failure, read from the rendered lds document is the one resolved on a static proxy with the same listeners |
| `EnvoyXds.ListenerPorts` | daggerverse/envoy/xds.go:270-309 | a port is given exactly when a resource listens on it, fractions cut off, each once in order of first mention; a missing lds.yaml or cds.yaml is reported, lds first, and then a document whose resources are not mappings |
| `EnvoyXds.PortsOpened` | daggerverse/envoy/xds.go:270-309 | every port a resource listens on and no other, each once, in the order of the resources that mention it first |
| `EnvoyXds.ListenerPortsAgree` | daggerverse/envoy/xds.go:270-309 | for listeners as the constructors make them, the ports in the document are the ports of the static listeners in order |
| `EnvoyXds.StaticPort` | daggerverse/envoy/main.go:889-904 | the answer is that of the first registered listener of the name, and not present exactly when none has it |
| `EnvoyXds.DynamicPort` | daggerverse/envoy/xds.go:314-340 | the answer is that of the first resource of the name, and not present exactly when none has it; a document whose resources are not mappings is reported |
| `EnvoyXds.HttpPort` | daggerverse/envoy/main.go:316-376 | the port read back from an http listener is the one it was built with |
| `EnvoyXds.TcpPort` | daggerverse/envoy/main.go:487-547 | the same of a tcp listener |
| `EnvoyXds.SameStructure` | daggerverse/envoy/xds.go:233-250 | but for its type, each discovery resource is the static entry of the same component |
| `EnvoyMounts.ServiceMounts` | daggerverse/envoy/main.go:775-803 | the file system after the mounts of all listeners and then all clusters |
| `EnvoyMounts.MountsDistinct` | daggerverse/envoy/main.go:775-803 | no mount overwrites another if and only if the secured listeners have names of their own and so have the secured clusters |
| `EnvoyMounts.BootstrapListenerFiles` | daggerverse/envoy/main.go:775-803 | with distinct names among the secured listeners and among the secured clusters, every file a typed listener of the bootstrap names is mounted, and holds that listener's own certificate, key or client trust |
| `EnvoyMounts.BootstrapClusterFiles` | daggerverse/envoy/main.go:775-803 | under the same condition, the same of every cluster |
| `EnvoyMounts.TypedListenerFiles` | daggerverse/envoy/security.go:194-226 | a typed listener names exactly the files of its own name and mode |
| `EnvoyMounts.RenderedClusterFiles` | daggerverse/envoy/security.go:231-262 | a cluster names exactly the files of its own name and mode |
| `EnvoyMounts.PathInjective` | daggerverse/envoy/security.go:167-189 | the six path functions never give one path to two sides, roles or names |
| `EnvoyMounts.SharedClusterName` | daggerverse/envoy/main.go:945-965 | validation accepts two clusters of one name, and the second's trust is then mounted for both |
| `BruCollection.Run` | daggerverse/bruno/collection.go:180-253 | in any branching run of builder calls every collection, however early, ends up holding exactly the value it was made with: no append wrote into an array an earlier one can reach |
| `BruCollection.Replay` | daggerverse/bruno/collection.go:180-253 | reading every collection after such a run gives the persistent history of the calls |
| `BruCollection.Collection.Read` | daggerverse/bruno/collection.go:510-528 | what a run reads from the slices is the value the collection was made with |
| `BruCollection.Collection.Clone` | daggerverse/bruno/collection.go:385-401 | a struct of the same value whose every slice has an array of its own, shared with nothing that existed |
| `BruCollection.Collection.Extend` | daggerverse/bruno/collection.go:180-253 | an append to one field changes that list only |
| `BruCollection.Collection.WithVar` | daggerverse/bruno/collection.go:180-185 | a new collection with one more pair; nothing that existed is modified |
| `BruCollection.Collection.WithSecretVar` | daggerverse/bruno/collection.go:194-199 | a new collection with one more name and secret; nothing that existed is modified |
| `BruCollection.Collection.WithTags` | daggerverse/bruno/collection.go:230-234 | a new collection with the tags at the end, none when none are given; nothing that existed is modified |
| `BruCollection.Collection.WithoutTags` | daggerverse/bruno/collection.go:239-243 | the same of the excluded tags |
| `BruCollection.Collection.WithService` | daggerverse/bruno/collection.go:248-253 | a new collection with one more alias and service; nothing that existed is modified |
| `BruCollection.Collection.WithClientCert` | daggerverse/bruno/tls.go:121-140 | a new collection with one more entry in all four lists; nothing that existed is modified |
| `BruCollection.Collection.WithoutHeaders` | daggerverse/bruno/redact.go:45-52 | a new collection with the names at the end; nothing that existed is modified |
| `GoSlice.Append` | daggerverse/bruno/collection.go:180-185 | writes in place while the capacity allows and otherwise into a new array; the result is the old elements and then the new |
| `GoSlice.AppendTwice` | daggerverse/bruno/collection.go:385-401 | without the copy, the second of two appends to one slice rewrites the first one's element exactly when there is spare capacity |
| `BruOptions.OwnLineage` | daggerverse/bruno/collection.go:180-253 | in any branching run the lists walked by one index are as long as each other, and hold exactly the entries of the collection's own chain of calls, in order |
| `BruOptions.ApplyEntries` | daggerverse/bruno/collection.go:180-253 | a builder adds its own entry at the end of its own lists and to no others |
| `BruCommand.Validate` | daggerverse/bruno/collection.go:592-626 | accepts exactly the collections with filled names, no equals sign in a variable, a known sandbox, no negative delay, consistent TLS settings and no host twice; each complaint is true of the collection, and those looked for before it are not |
| `BruCommand.EnvVarArgs` | daggerverse/bruno/collection.go:548-550 | the indexed loop stays in range and gives, for variable i, --env-var and then its name, an equals sign and its value |
| `BruCommand.AssignmentsRoundTrip` | daggerverse/bruno/collection.go:596-601 | cutting each assignment at its first equals sign gives the names and values back if and only if no name holds one |
| `BruCommand.Container` | daggerverse/bruno/collection.go:510-528 | the indexed walks stay in range: service i under alias i, for each secret name the value given last, and the files in the order mounted; it fails exactly when a passphrase cannot be read |
| `BruCommand.ClientCertConfig` | daggerverse/bruno/tls.go:193-218 | one entry a host in order, with its pattern, the two numbered paths of its index and its own passphrase, if it has one; it fails exactly when a passphrase cannot be read |
| `BruCommand.ClientCertsMounted` | daggerverse/bruno/tls.go:167-218 | entry i of the document names the files that hold host i's certificate and key, and the document, the CA and the staged files are where they are looked for |
| `BruStaging.StageExactly` | daggerverse/bruno/collection.go:446-505 | the staged paths and the data flag are those of the extensions bru, json and csv in letters of any case, and any other extension is refused |
| `BruCommand.MountsDistinct` | daggerverse/bruno/tls.go:250-256 | whatever the collection, no mount overwrites another |
| `BruCommand.EntryPresented` | daggerverse/bruno/tls.go:121-124 | entry i is presented to a host if and only if its pattern matches the host and no earlier pattern does |
| `BruCommand.MatchesExactly` | daggerverse/bruno/tls.go:121-124 | a pattern that opens with `*.` matches exactly the hosts with something in front of the rest of it, and any other pattern the host it spells |
| `BruCommand.CoversExactly` | daggerverse/bruno/tls.go:121-124 | the test on two patterns, equal or a wildcard over the other's domain, holds if and only if the first matches every host the second does |
| `BruCommand.PresentedExactly` | daggerverse/bruno/tls.go:121-140 | some host is presented entry i if and only if no earlier pattern covers its pattern |
| `BruCommand.NoneShadowed` | daggerverse/bruno/tls.go:121-140 | every configured certificate is presented to some host if and only if no pattern is covered by an earlier one |
| `BruCommand.DistinctNeeded` | daggerverse/bruno/tls.go:232-245 | then no host is configured twice, which is what validation checks |
| `BruCommand.DistinctNotEnough` | daggerverse/bruno/tls.go:232-245 | but that does not suffice: validation accepts `*.internal` before `api.internal`, and the second is presented to no host |
| `BruCommand.PathsInjective` | daggerverse/bruno/tls.go:250-256 | no two indices share a certificate or a key path, and no certificate path is a key path |

## Left out

- File permissions, process crashes and a failing `os.Remove` in the publish protocol: the clean-up is taken to succeed.
- Dagger engine calls, container execution, readiness polling and exit codes: they run code this model does not see. Files, secrets and services are the ids the engine knows them by.
- Key generation, PKCS#12, PEM and hashing: library wrappers. The digest is any function from contents to strings.
- YAML and JSON text: a document is its tree, and encoding and decoding are assumed inverse, including `blockNode`'s round trip. A block's keys are listed in the sorted order the encoder writes them in. Comments in YAML are part of a node's style field.
- Alias nodes: a decoded tree without aliases shares no nodes, which the heap proofs start from.
- The outer wrapper that `runProbe` hands the inner command to as a positional parameter: it is constant text.
- `Flasher.Plan` joins tokens with plain spaces for a reader's eyes; no shell sees that text.
- ShellPlainOnly.PlainLineExactly: where the standard leaves the meaning unspecified, the reader gives no answer and the token counts as not plain: a `$` that starts no expansion, a tilde in front of an unknown login name, a bracket that opens with a circumflex or an empty range.
- The shell grammar leaves out compound commands, functions, here-documents, pipelines and a backslash-newline inside an operator, and answers nothing for words with expansions or patterns.
- The pattern that finds variables set by scripts: a file is given the names its scripts set. The other patterns are written as predicates.
- The other lint rules (manifest, environment, plaintext secrets, assertions), the order findings are printed in and message texts: single-branch facts.
- BruDrift.Sort: sorts by insertion on values, where the source calls the library's in-place sort; only the sorted result is used.
- BruDrift.Drift: the two trees are the texts of their request files; loading them and the patch text are left to the engine.
- BruRouteParams.ParamSpelling: the parameter name is one the source's pattern admits inside one segment: no brace, and no slash, question mark or hash, which would end the segment or the path.
- BruCollection.Collection.Clone: walks the slice fields in a loop over their names, where the source has one statement a field; the fields are a map from name to slice.
- BruCollection.Run: every slice starts at its array's first element, as no builder reslices.
- The rest of `args` (one option a field), `tlsArgs`, `redactArgs` and report paths: single-branch facts.
- BruCommand.AssignmentsRoundTrip: reads an assignment as cut at its first equals sign, as the source says of the flag; the runner's own parser is not part of this model.
- BruStaging.StageExactly: lowers ASCII letters, to which the extensions bru reads are confined; no other letter lowers to one of theirs.
- BruCommand.Container: a passphrase is read by a function from handles to text that may fail; the nonce variable is left out.
- Envoy's `With*` builders, virtual-host and filter constructors and their argument checks: a listener or cluster is given with its final lists.
- EnvoyConfig.ValidateResources: looks at declared references, as the source does; what custom listeners hold is in `EnvoyClosure.ReferencesClosed`.
- EnvoyMounts.TypedListenerFiles: custom listeners name what files they like, none of which the module mounts.
- EnvoyRender.BuildDiscovery: a body with a type key of its own would win over the stamp; typed listeners have none (`EnvoyClosure.DeclaredRefs`).
- EnvoyClosure.BootstrapClosed: reads a listener as `ListenerClusters` does, which suits typed listeners: filters named exactly `envoy.filters.network.http_connection_manager` or `envoy.filters.network.tcp_proxy`, and of a route its plain `cluster`. What else a custom body may name is any reading of the caller's in `ReferencesClosed`.
- EnvoyXds.ListenerPorts: a document is already a tree; text that is not YAML at all, which the source reports with the same error, is not modelled.
- YamlTree.ZeroDocumentStaysUnserved: what encoding makes of a node of kind zero is not part of this model.
- BruCommand.NoneShadowed: a pattern is a host, or `*.` and a domain, the two forms the source documents; a star elsewhere is taken as an ordinary character, and the runner's own matching is not part of this model.
- The dynamic proxy's bootstrap and its validation, the override file and the exposed ports of an override: constant text and guards.
- SBOM rendering, dgraph, certificate-management, golangci-lint and workspace-ci: field mapping, single guards or code without a hard property.
- The Grafana renderer and the datasources file of grafana-stack: constant maps.
