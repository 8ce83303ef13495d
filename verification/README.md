# git_summarize in Dafny

A model of the ingestion engine of git_summarize and of its MCP control
plane. The engine turns a checked-out repository of markdown research notes
into documents, crypto addresses, incidents and indicators of compromise
(IOCs). The model also covers the pure text and entity logic the engine runs
on.

The model has four parts, and each operation has a contract and lemmas about
it:
- **Change detection and run accounting:** the file scanner, the per-file
  processor, the pipeline orchestrator and its progress tracker.
- **MCP control plane:** repository keys, subdirectory lists, the ingest loop,
  the metadata registry, remove and update, and the lazily created database
  client. Health aggregation and the embedding fallback belong here too.
- **Extraction:** the crypto-address, IOC and incident extractors with their
  `seen` sets and UTF-8-safe context windows, plus the entity records.
- **Text transforms:** the markdown normalizer, the markdown event fold,
  front-matter framing, validators, header templates, search-result previews
  and configuration validation.

How the model represents the system:
- **Strings are bytes.** A Rust `String` is its UTF-8 bytes, one `char` per
  byte, so a length is a byte length, as `len()` is.
  - A character boundary is 0, the length, or any byte that is not a
    continuation byte (0x80 to 0xBF).
  - Lowercasing and trimming are the ASCII ones.
- **Collaborators are inputs.** Each of these is a value the caller supplies:
  - a regular expression is the list of matches it reports, as byte offsets;
  - the markdown tokenizer is the event sequence it yields;
  - the YAML loader is the document list it yields;
  - SHA-256, the embedding service and the file system are functions;
  - a clock is a number;
  - a database or git operation is its outcome.
- **Everything is sequential.** The parallel work loop and the locked server
  state become sequential loops and state transitions.
- **Objects whose fields change are classes.** This covers the progress
  tracker, the two entity extractors with their `seen` sets, the metadata
  store, the vector store and the server. Their methods state their new state
  exactly.
- **Pure code is datatypes and functions.** Each loop over a list is a method
  proved equal to a fold that a function defines. The lemmas state the
  source's promises about that fold.

Where the code and its own tests disagree, the model follows the code:
- **Skip patterns.** The scanner's test expects ".git/*" to skip
  ".git/config". The code only compares the literal suffix, so the path is
  kept (`Scanner.KeepsGitConfig`).
- **Document size.** A document test expects 15 bytes for "# Test Content",
  which has 14 (`DocumentModel.TestContentIsFourteenBytes`).
- **ETH test address.** The address in the crypto extractor's ETH tests has
  39 hexadecimal digits, so the extractor's own check rejects it
  (`CryptoExtractor.TestEthAddressRejected`).
- **Chain of the ETH test address.** The same 41-byte address appears in
  the chain tests of src/models/crypto_address.rs, which expect ETH.
  `from_address` asks for 42 bytes, so it gives OTHER and the record's
  chain is "OTHER" (`CryptoAddressModel.TestEthAddressIsOther`).

Other facts the model makes explicit:
- **Two private-IP tests.** `ioc::is_private_ip` parses four parts.
  `patterns::is_private_ip` tests prefixes. They disagree on "172.20.0.1" and
  "10.0.0" (`IocExtractor.PrivateIpDiffersFromPrefix`).
- **The recorded branch.** After an ingest, the registry records the
  requested reference as the branch, or "main" when none was given. The
  configured branch is never used.
- **The `force` argument.** The ingest tool only logs it.
- **Deletion by repository.** `insert_document` writes a null repository
  URL. The delete by repository URL that `remove_repository` issues
  therefore removes no row that an ingest wrote
  (`McpServer.DeleteSparesUntagged`).

## Model

| member | source | states |
|---|---|---|
| AppConfig.Validate | src/config.rs:102-116 | Validation passes exactly when the worker count and the batch size are both nonzero. A zero worker count fails first, with its own message; a zero batch size fails with its own message. |
| AppConfig.FromFile | src/config.rs:52-65 | A loaded configuration is returned only when it validates, and then unchanged. A load error is passed through, and a failing validation becomes that validation's error. |
| AppConfig.DefaultConfigIsValid | src/config.rs:67-100 | The default configuration validates and survives `from_file` unchanged. It enables all three extractors and the normalizer, with 4 workers and a batch size of 1000. |
| Classifier.ExtractAttribution | src/repository/classifier.rs:14-30 | The label is always one of the six labels. The campaign labels (underscore or hyphen spelling) take priority over the group labels, which are tried in the order lazarus, bluenoroff, apt38. "general" is returned exactly when no keyword occurs. |
| Classifier.AttributionPriority | src/repository/classifier.rs:14-30 | A path mentioning "hacks-and-thefts" is labelled "hacks_and_thefts", whatever group keywords surround it. |
| Classifier.FirstTopic | src/repository/classifier.rs:45-50 | None exactly when no keyword occurs in the text; otherwise the topic of the first keyword in table order that occurs. |
| Classifier.ExtractTopic | src/repository/classifier.rs:32-51 | The topic search runs on the lowercased path: None exactly when no keyword occurs, otherwise the first keyword in table order decides. |
| Classifier.IsSummaryFile | src/repository/classifier.rs:53-61 | True exactly when the path has a file name whose lowercased form contains "readme", "summary" or "index". A path without a file name is not a summary file. |
| DocumentModel.NewDocument | src/models/document.rs:23-46 | The content hash is the digest of the content, the size is its byte length, and the document starts unnormalized. The paths, content, modification time and parse time are stored as given. |
| DocumentModel.MarkNormalized | src/models/document.rs:54-56 | Sets the normalized flag and changes no other field. |
| DocumentModel.HashAndSizeFollowContent | src/models/document.rs:48-52 | Two documents with the same content have the same hash and size, whatever their paths, times or normalization. |
| DocumentModel.TestContentIsFourteenBytes | src/models/document.rs:64-76 | The test document's content "# Test Content" has size 14. |
| CryptoAddressModel.FromAddress | src/models/crypto_address.rs:19-32 | The first rule that fits decides, each direction stated: ETH exactly for a 42-byte "0x" text; BTC exactly for a "bc1", "1" or "3" prefix when ETH does not fit; TRX exactly for prefix "T" and 34 bytes when neither earlier rule fits; XMR exactly for prefix "4" and 95 or 106 bytes when no earlier rule fits; OTHER exactly when no rule fits. |
| CryptoAddressModel.ShapeNotContent | src/models/crypto_address.rs:20-24 | Only prefix and length are looked at: any 40 bytes after "0x" give ETH, and after "1" give BTC. |
| CryptoAddressModel.TestEthAddressIsOther | src/models/crypto_address.rs:85-107 | The 41-byte address of the ETH tests is classified OTHER, and a record built from it has chain "OTHER", where the tests expect ETH. |
| CryptoAddressModel.TestBtcAddress | src/models/crypto_address.rs:91-95 | The BTC test address is classified BTC. |
| CryptoAddressModel.ChainNameInjective | src/models/crypto_address.rs:34-42 | Two chains have the same name exactly when they are the same chain. |
| CryptoAddressModel.NewCryptoAddress | src/models/crypto_address.rs:57-73 | The chain is the name of the address's classification, and the document id is empty. The address, path, context and attribution are stored as given. |
| CryptoAddressModel.WithDocumentId | src/models/crypto_address.rs:75-78 | Sets the document id and changes no other field. |
| IocModel.IocTypeNameInjective | src/models/ioc.rs:18-26 | The five type names are distinct. |
| IocModel.NewIoc | src/models/ioc.rs:39-52 | Stores the type's name, the value and the context as given, with an empty document id. |
| IocModel.WithDocumentId | src/models/ioc.rs:54-57 | Sets the document id and changes no other field. |
| IncidentModel.PrecisionNameInjective | src/models/incident.rs:18-25 | The four precision names are distinct. |
| IncidentModel.NewIncident | src/models/incident.rs:43-70 | The date and the name of its precision come from the given pair, and the document id is empty. Every other field is stored as given. |
| IncidentModel.WithDocumentId | src/models/incident.rs:72-75 | Sets the document id and changes no other field. |
| IncidentModel.NewBuilder | src/models/incident.rs:90-101 | The builder starts with title, date, victim and amount unset, precision approximate, attack vector "unknown" and an empty description. |
| IncidentModel.Build | src/models/incident.rs:134-145 | An incident is built exactly when date, title and victim are all set. It is then the incident made from the builder's fields. |
| IncidentModel.BuilderChainBuilds | src/models/incident.rs:103-132 | Setting title, date, victim and attack vector builds an incident carrying those values, the name of the given precision, no amount, the source file and an empty document id. |
| IncidentModel.NoVictimNoIncident | src/models/incident.rs:134-145 | Without a victim nothing is built, even with a title, a date and an amount set. |
| SearchResultModel.NewSearchResult | src/models/search_result.rs:39-61 | All nine arguments are stored unchanged. |
| SearchResultModel.FormatSummary | src/models/search_result.rs:64-78 | The summary starts with "Score: " and contains the relative path and the repository URL. It ends with the preview and a newline: the content when it fits in `max` bytes, otherwise its first `max` bytes and "...". |
| Validation.ValidateFilePath | src/utils/validation.rs:11-27 | Passes exactly for a regular file. A missing path and a path of another kind fail with their own messages, each naming the path. |
| Validation.ValidateDirectory | src/utils/validation.rs:29-45 | Passes exactly for a directory. A missing path and a path of another kind fail with their own messages. |
| Validation.ValidateMarkdownExtension | src/utils/validation.rs:47-55 | Passes exactly when the extension is "md" or "markdown"; otherwise fails with a message naming the path. |
| Validation.ValidateContentNotEmpty | src/utils/validation.rs:57-62 | Passes exactly when some byte is not whitespace, that is, when the trimmed content is not empty. |
| Validation.ValidateUrl | src/utils/validation.rs:64-72 | Passes exactly when the URL starts with "http://" or "https://". |
| Validation.ValidatePort | src/utils/validation.rs:74-79 | Fails exactly for port 0. |
| Validation.ValidateBatchSize | src/utils/validation.rs:81-95 | Passes exactly for sizes 1 to 10000. Zero and too-large sizes fail with their own messages. |
| Validation.SanitizeFilePath | src/utils/validation.rs:97-102 | The result has no backslash and no whitespace at either end. |
| Validation.SanitizeKeepsClean | src/utils/validation.rs:97-102 | A path with no backslash, no "//" and no whitespace at either end is returned unchanged. |
| Validation.SanitizeBackslashes | src/utils/validation.rs:167-170 | "path\\to\\file" becomes "path/to/file". |
| Validation.SanitizeDoubleSlashes | src/utils/validation.rs:171-174 | "path//to//file" becomes "path/to/file". |
| Validation.SanitizeSurroundingSpaces | src/utils/validation.rs:175-178 | "  path/to/file  " becomes "path/to/file". |
| Validation.SanitizeSinglePass | src/utils/validation.rs:99 | "//" is replaced in one left-to-right pass, so "a///b" becomes "a//b", not "a/b". |
| Validation.TruncateText | src/utils/validation.rs:104-110 | A text within `max` bytes is returned unchanged. A longer text becomes a prefix of `max` bytes of the text followed by "...". |
| Validation.TruncateCanSplitCharacter | src/utils/validation.rs:104-110 | The precondition can fail: a one-byte limit cuts the two bytes of "é", where the slice panics. |
| Paths.FileName | src/repository/classifier.rs:53-57 | A file name, when there is one, is a non-empty '/'-free component other than "." and "..". |
| Paths.FileNameOfChild | src/repository/classifier.rs:53-57 | The name after the last '/' is the file name, whatever directory precedes it. |
| Paths.FileNameIgnoresTrailing | src/repository/classifier.rs:53-57 | A trailing "/" or "/." leaves the file name unchanged, so "foo.txt/." names "foo.txt". |
| Paths.ParentHasNoFileName | src/repository/classifier.rs:53-57 | A path ending in ".." has no file name. |
| Paths.Extension | src/repository/scanner.rs:50 | An extension has no '.', and the file name ends with '.' and the extension. |
| Paths.StripPrefix | src/repository/scanner.rs:73-77 | The relative path is the path itself or a suffix of it. |
| Paths.StripPrefixOfChild | src/repository/scanner.rs:73-77 | A path under the root loses the root and the '/' after it, leaving the relative path. |
| Paths.StripPrefixOfOthers | src/repository/scanner.rs:73-77 | The root itself becomes empty, and a path outside the root is kept whole. |
| ContextWindow.BoundaryBefore | src/extractor/ioc.rs:95-101 | A character boundary at or below the position clamped to the text. |
| ContextWindow.BoundaryBeforeIsLargest | src/extractor/ioc.rs:95-101 | No boundary lies between the result and the clamped position, so the result is the largest boundary at or below it. |
| ContextWindow.BoundaryAfter | src/extractor/ioc.rs:103-109 | A character boundary between the clamped position and the end of the text. |
| ContextWindow.BoundaryAfterIsSmallest | src/extractor/ioc.rs:103-109 | No boundary lies between the clamped position and the result, so the result is the smallest boundary at or above it. |
| ContextWindow.FindCharBoundaryBefore | src/extractor/crypto.rs:102-108 | The loop that steps down returns the largest boundary at or below the clamped position. |
| ContextWindow.FindCharBoundaryAfter | src/extractor/crypto.rs:110-116 | The loop that steps up returns the smallest boundary at or above the clamped position. |
| ContextWindow.ContextBounds | src/extractor/ioc.rs:80-88 | The slice bounds are character boundaries that enclose the match and stay within the text, so slicing cannot panic on multibyte text. |
| ContextWindow.ExtractContextSafe | src/extractor/ioc.rs:80-93 | The context is the window between those bounds, trimmed, with newlines replaced and double spaces halved. |
| ContextWindow.ContextHasNoNewline | src/extractor/ioc.rs:90-92 | A context window holds no newline. |
| MatchScan.Scan | src/extractor/ioc.rs:41-77 | One pass of an extractor loop over its matches. Every reported match lies in the text. |
| MatchScan.ScanStep | src/extractor/ioc.rs:42-49 | One more match is passed over when it fails the filter or was seen. Otherwise it is remembered, and reported unless its value is to be withheld. |
| MatchScan.ScanSeen | src/extractor/ioc.rs:41-48 | After a pass, the remembered values are the earlier ones plus exactly the matched values that pass the filter. |
| MatchScan.ScanFresh | src/extractor/ioc.rs:41-77 | A pass reports only values it had not remembered, each at most once, and remembers every value it reports. |
| MatchScan.ScanOrder | src/extractor/ioc.rs:41-77 | The reported matches are a subsequence of the matches in their order, each passing the filter and not withheld. |
| MatchScan.ScanExact | src/extractor/ioc.rs:41-77 | The reports are exactly the first occurrences of the values that pass both checks and were not remembered, in match order. |
| MatchScan.ScanComplete | src/extractor/ioc.rs:41-77 | Such a first occurrence is always reported. |
| MatchScan.ReportableStep | src/extractor/ioc.rs:41-49 | A match is a first occurrence of a fresh value passing both checks exactly when the loop, having taken the matches before it, reports it. |
| MatchScan.ScanSeenBefore | src/extractor/ioc.rs:41-48 | Running a pass again over values already remembered reports nothing and remembers nothing new. |
| MatchScan.DistinctConcat | src/extractor/ioc.rs:38-78 | Reports from successive passes stay distinct, because each pass reports only values not remembered before it. |
| Patterns.EthAddressShape | src/extractor/patterns.rs:71-73 | The pattern check with the length condition accepts exactly "0x" or "0X" followed by 40 hexadecimal digits. |
| Patterns.PrivatePrefixExamples | src/extractor/patterns.rs:75-80 | The prefixes "10.", "127." and "192.168." count as private, and of the 172 block only "172.16." does. "8.8.8.8" does not. |
| CryptoExtractor.ValidEthPassesPattern | src/extractor/crypto.rs:129-139 | An address the extractor accepts also passes the pattern module's ETH check. |
| CryptoExtractor.ValidEthIsEthChain | src/extractor/crypto.rs:32-38 | An address that passes the extractor's ETH check is classified ETH, so its record carries the chain "ETH". |
| CryptoExtractor.UppercasePrefixRejected | src/extractor/crypto.rs:129-139 | A "0X" address with 40 hexadecimal digits passes the case-insensitive pattern check but fails the extractor's check. |
| CryptoExtractor.TestEthAddressRejected | src/extractor/crypto.rs:165-172 | The 41-byte address of the ETH test fails both checks. |
| CryptoExtractor.GroupRule | src/extractor/crypto.rs:28-84 | The four passes keep the address's spelling and remember every match. Only the ETH pass withholds what fails its check. |
| CryptoExtractor.Report | src/extractor/crypto.rs:32-38 | A reported record has the matched address, that address's chain name, an empty document id, the given path and attribution, and the context around the match. |
| CryptoExtractor.ReportAddresses | src/extractor/crypto.rs:30 | The addresses of the records for a list of matches are the matched texts. |
| CryptoExtractor.ScanGroupFresh | src/extractor/crypto.rs:28-54 | A pass reports only addresses not seen before, each once. It remembers every address it matched, including an ETH match that fails the check. |
| CryptoExtractor.ScanGroupOrder | src/extractor/crypto.rs:28-84 | The records of a pass follow match order, each the record of its match. Every ETH record passes the ETH check. |
| CryptoExtractor.ScanGroupComplete | src/extractor/crypto.rs:28-84 | The first match of an address not remembered before is reported, unless it is an ETH match failing the check. |
| CryptoExtractor.GroupCarries | src/extractor/crypto.rs:33-38 | Every record of a pass carries the given file path and attribution. |
| CryptoExtractor.AllCarry | src/extractor/crypto.rs:20-85 | Every record of a call carries the given file path and attribution. |
| CryptoExtractor.DuplicateReportedOnce | src/extractor/crypto.rs:155-162 | An address matched twice in one pass is reported once. |
| CryptoExtractor.CryptoExtractor.constructor | src/extractor/crypto.rs:14-18 | A new extractor has seen nothing and reported nothing. |
| CryptoExtractor.CryptoExtractor.ScanGroup | src/extractor/crypto.rs:28-40 | One loop of `extract_from_text` yields the records, and the remembered set, of the pass's specification. It keeps the invariant that every address reported since the last reset was reported once and is remembered. |
| CryptoExtractor.CryptoExtractor.ExtractFromText | src/extractor/crypto.rs:20-85 | The records are the BTC, ETH, XMR and TRX passes in that order, run from the remembered set. The invariant is kept, so an address is reported at most once between resets, across calls. |
| CryptoExtractor.CryptoExtractor.Reset | src/extractor/crypto.rs:118-120 | Empties the remembered set. |
| IocExtractor.ParseU8 | src/extractor/ioc.rs:134 | `parse::<u8>` succeeds exactly for one or more decimal digits after an optional '+' with value at most 255, and yields that value. |
| IocExtractor.IsPrivateIp | src/extractor/ioc.rs:128-151 | A private address has four '.'-separated parts and a first part that reads as a byte. |
| IocExtractor.PrivateIpQuad | src/extractor/ioc.rs:128-151 | Four dot-free parts are private exactly when one of these holds: the first part reads as 10 or 127; it reads as 172 and the second as 16 to 31; it reads as 192 and the second part is spelled "168". |
| IocExtractor.NotQuadNotPrivate | src/extractor/ioc.rs:129-132 | Text that does not have four parts is never private. |
| IocExtractor.ParseU8Examples | src/extractor/ioc.rs:134 | Examples of how parts are read: "+8" reads as 8, and "256", "" and "+" are not bytes. |
| IocExtractor.PrivateIpExamples | src/extractor/ioc.rs:128-151 | 192.168.1.1, 10.0.0.1 and 127.0.0.1 are private, and 8.8.8.8 is not. |
| IocExtractor.Private172 | src/extractor/ioc.rs:136-142 | 172.20.0.1 is private. |
| IocExtractor.ThreePartsNotPrivate | src/extractor/ioc.rs:129-132 | The three-part "10.0.0" is not private. |
| IocExtractor.PrivateIpDiffersFromPrefix | src/extractor/patterns.rs:75-80 | The two private-address tests disagree: 172.20.0.1 is private by the parsing test only, and "10.0.0" by the prefix test only. |
| IocExtractor.GroupRule | src/extractor/ioc.rs:41-77 | Addresses keep their spelling, and every other pass lowercases. |
| IocExtractor.Report | src/extractor/ioc.rs:45-46 | A reported IOC has the group's type name, the (lowercased where the pass lowercases) matched value, an empty document id and the context around the match. |
| IocExtractor.ReportValues | src/extractor/ioc.rs:43 | The values of the reports for a list of matches are the matched values. |
| IocExtractor.ScanGroupFresh | src/extractor/ioc.rs:41-75 | A pass reports only values not seen before, each once. It remembers exactly the matched values that pass the filter: private addresses and common domains are not remembered, while common e-mail addresses are. |
| IocExtractor.ScanGroupOrder | src/extractor/ioc.rs:41-77 | The reports of a pass follow match order and carry the pass's type. None is a private address, a common domain or a common e-mail address. |
| IocExtractor.ScanGroupComplete | src/extractor/ioc.rs:41-77 | The first match of a value that is not remembered, not passed over and not withheld is reported. |
| IocExtractor.IocExtractor.constructor | src/extractor/ioc.rs:15-36 | A new extractor has seen nothing and reported nothing. |
| IocExtractor.IocExtractor.ScanGroup | src/extractor/ioc.rs:41-49 | One loop of `extract_from_text` yields the reports, and the remembered set, of the pass's specification, and keeps the extractor's invariant. |
| IocExtractor.IocExtractor.ExtractFromText | src/extractor/ioc.rs:38-78 | The reports are the address, domain, hash and e-mail passes in that order. The invariant is kept, so a value is reported at most once between resets, across calls. |
| IocExtractor.IocExtractor.Reset | src/extractor/ioc.rs:117-119 | Empties the remembered set. |
| Telemetry.HealthyCheck | src/utils/telemetry.rs:27-34 | A healthy check has no message and keeps the component and the response time. |
| Telemetry.DegradedCheck | src/utils/telemetry.rs:36-43 | A degraded check keeps its message, component and response time. |
| Telemetry.UnhealthyCheck | src/utils/telemetry.rs:45-52 | An unhealthy check keeps its message, component and response time. |
| Telemetry.NewReport | src/utils/telemetry.rs:65-85 | The report keeps its checks, version and time. It is unhealthy exactly when some check is unhealthy, and degraded exactly when none is unhealthy and some check is degraded. It is healthy exactly when every check is healthy. |
| Telemetry.Worse | src/utils/telemetry.rs:66-72 | The worse of two statuses is one of them and at least as severe as both. |
| Telemetry.OverallIsWorst | src/utils/telemetry.rs:66-72 | The overall status equals the most severe status among the checks, by a second definition that folds `Worse` over the list. An empty list is healthy. |
| Telemetry.OverallOfConcat | src/utils/telemetry.rs:66-72 | The status of two lists together is the worse of their two statuses. |
| Telemetry.OverallOrderIndependent | src/utils/telemetry.rs:66-72 | Any rearrangement of the same checks gives the same overall status. |
| Telemetry.ReportExample | src/utils/telemetry.rs:253-270 | A healthy and a degraded check give a degraded report, and a healthy check keeps its component and response time. |
| Embeddings.WrappingSum | src/database/embeddings.rs:100 | The 64-bit wrapping fold stays below 2^64. |
| Embeddings.WrappingSumIsTotalMod | src/database/embeddings.rs:100 | The wrapping fold equals the plain byte sum reduced modulo 2^64. |
| Embeddings.FallbackEmbedding | src/database/embeddings.rs:97-104 | The vector has the requested dimension, and every element lies between 0 and 0.999. |
| Embeddings.FallbackElement | src/database/embeddings.rs:101-103 | Element i is the byte sum plus i, each step reduced modulo 2^64, then modulo 1000, over 1000. |
| Embeddings.ByteTotalPermutation | src/database/embeddings.rs:100 | The byte sum does not depend on the order of the bytes. |
| Embeddings.FallbackOrderIndependent | src/database/embeddings.rs:97-104 | Two texts with the same bytes in any order get the same vector; the same text always gets the same vector. |
| Embeddings.FallbackPrefix | src/database/embeddings.rs:101-103 | The vector for a smaller dimension is a prefix of the vector for a larger one. |
| Template.Placeholder | src/utils/template.rs:35 | A placeholder starts with '{' and ends with '}'. |
| Template.NewTemplate | src/utils/template.rs:12-18 | The template is the three-line default header. |
| Template.WithCustomTemplate | src/utils/template.rs:20-22 | The template is the given text. |
| Template.GenerateDefault | src/utils/template.rs:24-29 | With values free of '{', generating from the default template yields exactly the three header lines with the values in place. |
| Template.GenerateWithMap | src/utils/template.rs:31-40 | Every key of the map is substituted exactly once, in an order that is a permutation of the keys. The result is the template with the placeholders replaced in that order. |
| Template.MapOrderMatters | src/utils/template.rs:34-37 | Two substitution orders of the same map can give different results ("{{x}}" with x to y and y to Z gives "Z" or "{y}"). |
| Template.ValidateHeader | src/utils/template.rs:64-74 | A valid header has at least three lines. |
| Template.ValidateHeaderNeedsEachKey | src/utils/template.rs:64-74 | A three-line text is accepted exactly when its first line starts with "// file:", its second with "// description:" and its third with "// reference:". |
| Template.OneLineRejected | src/utils/template.rs:67-69 | A text without a line break is rejected. |
| Template.HeaderEntry | src/utils/template.rs:52-57 | A line contributes an entry only when it starts with "// ". |
| Template.HeaderEntryIff | src/utils/template.rs:52-57 | A line holds an entry exactly when it starts with "// " and a ':' follows. The key has no leading whitespace and the value no trailing whitespace. |
| Template.AddEntry | src/utils/template.rs:51-59 | A line without an entry leaves the map alone; an entry sets its key to its value. |
| Template.HeaderFields | src/utils/template.rs:51-59 | The last line's entry, when it has one, is in the map, so a later line overrides an earlier one with the same key. |
| Template.HeaderFieldsEmptyIff | src/utils/template.rs:61 | The map is empty exactly when no line holds an entry. |
| Template.ReadEntries | src/utils/template.rs:49-59 | The loop builds the map of the lines' entries. |
| Template.ParseHeader | src/utils/template.rs:42-62 | Fewer than three lines give None. Otherwise the result is the entries of the first three lines, or None when there are none. |
| Template.GeneratedHeaderValidates | src/utils/template.rs:64-74 | A header generated from the default template, with values free of '{' and newlines, passes `validate_header`. |
| Template.GeneratedHeaderParses | src/utils/template.rs:42-62 | Such a header parses back to "file", "description" and "reference" mapped to the trimmed values, when the values also hold no '\r'. |
| Normalizer.LeadingCount | src/parser/normalizer.rs:33 | The count is the length of the longest run of the byte at the start. |
| Normalizer.HeadingLineKeepsLevelAndText | src/parser/normalizer.rs:29-44 | The heading rule changes only lines whose trim starts with '#', with 1 to 6 '#' and non-empty text. A changed line is in normal form with the same level and the same text. |
| Normalizer.HeadingLineChanged | src/parser/normalizer.rs:30-37 | A changed line becomes exactly `level` '#', a space and the trimmed text. |
| Normalizer.HeadingLineIdempotent | src/parser/normalizer.rs:29-44 | Applying the heading rule twice to a line gives the same result as applying it once. |
| Normalizer.ListLineKeepsIndentAndText | src/parser/normalizer.rs:53-66 | The list rule changes only lines with a "* ", "- " or "+ " marker after the indentation. Such a line keeps the width of its indentation (as spaces) and its item text, with "- " as the marker. |
| Normalizer.ListLineIdempotent | src/parser/normalizer.rs:53-66 | Applying the list rule twice to a line gives the same result as applying it once. |
| Normalizer.MapLines | src/parser/normalizer.rs:29-44 | One output line per input line. |
| Normalizer.MapEachLine | src/parser/normalizer.rs:29-44 | The loop's output lines are the input lines in order, each through the rule. |
| Normalizer.NormalizeHeadings | src/parser/normalizer.rs:25-47 | The result is the lines through the heading rule, joined by newlines. |
| Normalizer.NormalizeLists | src/parser/normalizer.rs:49-70 | The result is the lines through the list rule, joined by newlines. |
| Normalizer.NormalizeCodeBlocks | src/parser/normalizer.rs:81-94 | Every line is kept and the lines are rejoined; the fence flag changes nothing. |
| Normalizer.CodeBlocksPassKeepsContent | src/parser/normalizer.rs:81-94 | The code-block pass gives back any content that has no '\r' and does not end with a newline. |
| Normalizer.Normalize | src/parser/normalizer.rs:14-23 | Normalization always succeeds, with headings, lists, line breaks and code blocks applied in that order. |
| Normalizer.ThreeNewlinesBecomeTwo | src/parser/normalizer.rs:72-79 | Between two plain lines, three newlines become two. |
| Normalizer.FourNewlinesLeaveThree | src/parser/normalizer.rs:72-79 | The replacement makes one pass: four newlines between two lines leave three. |
| Normalizer.LineBreaksPassNotIdempotent | src/parser/normalizer.rs:72-79 | So the line-break pass is not idempotent: applied to its own output, it shortens a run of four newlines again. |
| FrontmatterParser.SplitOnce | src/parser/frontmatter.rs:26 | No split exactly when the pattern is absent. Otherwise the parts are the text before the first occurrence and the text after it. |
| FrontmatterParser.SplitN3 | src/parser/frontmatter.rs:26 | One to three parts that rejoin with the pattern to the text. There is one part exactly when the pattern is absent, and otherwise the first part ends at its first occurrence. |
| FrontmatterParser.LeadingDelimiterPart | src/parser/frontmatter.rs:22-26 | Content that starts with "---" splits into at least two parts, the first of them empty. |
| FrontmatterParser.FieldsOfKeys | src/parser/frontmatter.rs:47-55 | A key is a field exactly when some entry of the hash has it as a string key. |
| FrontmatterParser.FieldsOfValue | src/parser/frontmatter.rs:48-53 | Each string-keyed entry's value is stored under its key: a string value as it is, any other value as its rendering. |
| FrontmatterParser.ReadFields | src/parser/frontmatter.rs:47-55 | The loop over the hash entries builds the fields map. |
| FrontmatterParser.FromYaml | src/parser/frontmatter.rs:35-60 | A YAML error, and only a YAML error, becomes a parse error for "frontmatter". There is front matter exactly when YAML loads at least one document; its rest is the trimmed remainder. A first document that is not a hash gives no fields. |
| FrontmatterParser.ReadYaml | src/parser/frontmatter.rs:35-60 | Loading the YAML and reading its first document gives the result of `FromYaml`. |
| FrontmatterParser.Extract | src/parser/frontmatter.rs:21-61 | Content that does not start with "---", or has fewer than three parts, has no front matter. Otherwise the trimmed middle part is loaded as YAML and the trimmed last part is the rest. |
| FrontmatterParser.SplitFramed | src/parser/frontmatter.rs:26 | A delimiter, a text without the delimiter's first byte, the delimiter and a body split into the empty text, that text and the body. |
| FrontmatterParser.ExtractFramed | src/parser/frontmatter.rs:21-33 | "---", YAML without '-', "---" and a body split into exactly the YAML and the body. |
| FrontmatterParser.GetField | src/parser/frontmatter.rs:63-65 | The field when the key is present, and None otherwise. |
| Markdown.Parse | src/parser/markdown.rs:43-130 | Parsing never fails. The result is the final loop state over the events, with the plain text trimmed. |
| Markdown.RunSnoc | src/parser/markdown.rs:56-122 | The loop state after one more event is one step from the state before it. |
| Markdown.RunPlain | src/parser/markdown.rs:103-119 | The plain text is fixed by the text, break and code-block events alone. Each text outside a code block adds itself and a space; each soft or hard break adds a newline. |
| Markdown.RunHeadings | src/parser/markdown.rs:58-69 | The open heading is the last unclosed heading start, holding every text since it. One heading is recorded per heading end that closes an open heading. |
| Markdown.HeadingRecorded | src/parser/markdown.rs:61-69 | A closing heading end records the open heading's level, its trimmed text, and the plain-text length at that point as its position. |
| Markdown.RunWellFormed | src/parser/markdown.rs:56-122 | Heading positions lie within the plain text and never decrease, and levels are 1 to 6. A link title is absent rather than empty, and a link's text is one word. Code blocks have no language. |
| Markdown.SectionResult | src/parser/markdown.rs:166-170 | No section exactly when nothing was collected; otherwise the collected text, trimmed. |
| Markdown.ExtractSection | src/parser/markdown.rs:132-171 | The loop, with its `break` at the next heading, computes the section of its specification. |
| Markdown.ExtractTarget | src/parser/markdown.rs:141-160 | After a heading whose trimmed text equals the wanted one, ignoring ASCII case, the section is the body's text, each piece followed by a space, up to the next heading. |
| Markdown.ExtractOther | src/parser/markdown.rs:148-160 | A heading that is not the wanted one collects nothing. |
| Markdown.NoHeadingNoSection | src/parser/markdown.rs:132-171 | Without any heading there is no section. |
| IncidentExtractor.MonthToNumber | src/extractor/incident.rs:129-145 | A number is 1 to 12 and names that month; the only names without a number are those that are not English month names. |
| IncidentExtractor.MonthNamesNumbered | src/extractor/incident.rs:129-145 | Every month name maps to its position in the calendar. |
| IncidentExtractor.ExtractDate | src/extractor/incident.rs:103-127 | An ISO date decides alone: it gives an exact date when it is a real date and nothing otherwise. Without one, a "Month Year" date gives a result exactly when the month name is known and the first of that month is a real date, and the result is that day's timestamp with month precision. Without either there is no date. |
| IncidentExtractor.ExtractVictim | src/extractor/incident.rs:147-165 | The first capture of the victim patterns, trimmed, and None when there is none. |
| IncidentExtractor.FirstContained | src/extractor/incident.rs:198-204 | The index of the first candidate the text contains, and None when it contains none. |
| IncidentExtractor.ExtractAttackVector | src/extractor/incident.rs:187-205 | The first vector in list order that the lowercased text contains, and None when it contains none. |
| IncidentExtractor.ParseSection | src/extractor/incident.rs:66-101 | An incident exactly when there is a title, a date and a victim. It carries those, the amount, the attack vector or "unknown", the first 500 characters as description and the file path. |
| IncidentExtractor.ExtractFromMarkdown | src/extractor/incident.rs:17-64 | The loop, then the final section, yields the incidents of the fold specification. |
| IncidentExtractor.ExtractRunTracks | src/extractor/incident.rs:25-54 | The loop is inside a header after an H2 or H3 start until the next heading end. Its title is the last header text. Its section holds the text since the last H2 or H3 start, each piece followed by a newline. There is at most one incident per section heading. |
| IncidentExtractor.IncidentCountBound | src/extractor/incident.rs:17-64 | There are at most as many incidents as section headings plus one. |
| IncidentExtractor.IncidentsFromFile | src/extractor/incident.rs:17-101 | Every incident names the file it came from, has no document yet, and has a description of at most 500 characters. |
| Scanner.ShouldSkip | src/repository/scanner.rs:92-107 | The loop skips a path exactly when some pattern matches it. A pattern with '*' matches when the path ends in the pattern with "*." replaced by "."; any other pattern matches when the path contains it. |
| Scanner.GlobIsSuffix | src/repository/scanner.rs:96-100 | A glob "*.ext" matches exactly the paths ending in ".ext". |
| Scanner.DirectoryPatternIsLiteral | src/repository/scanner.rs:96-100 | A pattern "dir/*" has no "*." to replace, so it matches only paths ending in "dir/*", star included. |
| Scanner.SkipExamples | src/repository/scanner.rs:182-196 | With the test's patterns, "test.zip" is skipped and "test.md" is kept. So is ".git/config", although the test expects it to be skipped. |
| Scanner.SkipsZip | src/repository/scanner.rs:193 | "test.zip" is skipped by the test patterns. |
| Scanner.KeepsMd | src/repository/scanner.rs:195 | "test.md" is kept by the test patterns. |
| Scanner.KeepsGitConfig | src/repository/scanner.rs:194 | ".git/config" is kept by the test patterns, against the test's expectation. |
| Scanner.KeptByTestPatterns | src/repository/scanner.rs:92-107 | A path ending in neither ".zip" nor ".git/*" passes the test patterns. |
| Scanner.ToScanned | src/repository/scanner.rs:66-84 | A kept entry's record has its path, the path relative to the root, its size, and its modification time or 0. |
| Scanner.ScanDirectory | src/repository/scanner.rs:30-90 | The walk never fails. Its files are the kept entries in walk order: a readable regular file, not skipped, with extension "md", readable metadata and a size at most the limit. |
| Scanner.ScanMembers | src/repository/scanner.rs:34-86 | A file is found exactly when some walked entry that is kept yields it. |
| Scanner.ScanCount | src/repository/scanner.rs:34-86 | No more files are found than entries walked. |
| Scanner.SizeLimitInclusive | src/repository/scanner.rs:55-64 | A markdown file of exactly `max_file_size_mb` MiB is kept, and one byte more is not. |
| Scanner.KeepUnseen | src/repository/scanner.rs:118-121 | The kept files are an in-order subsequence of the files, holding exactly the files `should_include_by_hash` accepts. |
| Scanner.FilterByHash | src/repository/scanner.rs:109-122 | With `force_reprocess` every file is kept. Otherwise the kept files are an in-order subsequence of the files, holding exactly those that cannot be hashed or whose hash is not among the stored hashes. |
| Scanner.FailOpen | src/repository/scanner.rs:137-144 | A file that cannot be read is always kept. |
| Scanner.SameContentSameDecision | src/repository/scanner.rs:124-146 | Two files with the same content get the same decision. |
| Scanner.FilterByHashIdempotent | src/repository/scanner.rs:109-122 | Filtering again against the same hashes changes nothing. |
| Scanner.KeepUnseenIdempotent | src/repository/scanner.rs:118-121 | Keeping unseen files a second time changes nothing. |
| Progress.NewStats | src/pipeline/progress.rs:23-26 | Every counter and the duration are zero. |
| Progress.FilesPerSecond | src/pipeline/progress.rs:28-33 | Zero for a zero duration; otherwise the rate that, multiplied by the duration, gives the files processed. |
| Progress.BytesPerSecond | src/pipeline/progress.rs:35-40 | Zero for a zero duration; otherwise the rate that, multiplied by the duration, gives the bytes processed. |
| Progress.SuccessRate | src/pipeline/progress.rs:42-48 | Zero when no file was handled; otherwise the percentage of handled files that succeeded. |
| Progress.SuccessRateBounds | src/pipeline/progress.rs:42-48 | The rate lies between 0 and 100. It is 100 exactly when files were handled and none failed, and 0 exactly when none succeeded. |
| Progress.TotalEntitiesExtracted | src/pipeline/progress.rs:50-52 | The total is at least each of the three entity counts, and zero exactly when all three are zero. |
| Progress.TotalCountsEachEntity | src/pipeline/progress.rs:50-52 | Adding n to any one entity counter adds n to the total, and the other fields do not take part. |
| Progress.StatsExample | src/pipeline/progress.rs:217-228 | 100 processed and 10 failed files, 10 seconds and 1000 bytes give 10 files and 100 bytes per second and a success rate of 1000/11 percent. |
| Progress.ProgressTracker.constructor | src/pipeline/progress.rs:69-91 | Every counter starts at zero, the bar's length is the file count, and the start time is the clock reading. |
| Progress.ProgressTracker.IncFilesProcessed | src/pipeline/progress.rs:93-97 | Adds one to the processed count and advances the main bar. Every other counter is unchanged, so the bar keeps counting handled files. |
| Progress.ProgressTracker.IncFilesFailed | src/pipeline/progress.rs:99-103 | Adds one to the failed count and advances the main bar. Every other counter is unchanged. |
| Progress.ProgressTracker.AddDocument | src/pipeline/progress.rs:105-107 | Adds one to the document count and changes nothing else. |
| Progress.ProgressTracker.AddCryptoAddresses | src/pipeline/progress.rs:109-112 | Adds the count to the address total and changes nothing else. |
| Progress.ProgressTracker.AddIncidents | src/pipeline/progress.rs:114-117 | Adds the count to the incident total and changes nothing else. |
| Progress.ProgressTracker.AddIocs | src/pipeline/progress.rs:119-122 | Adds the count to the IOC total and changes nothing else. |
| Progress.ProgressTracker.AddBytesProcessed | src/pipeline/progress.rs:124-126 | Adds the bytes to the byte total and changes nothing else. |
| Progress.ProgressTracker.GetStats | src/pipeline/progress.rs:137-150 | The snapshot holds the counters as they stand and the whole seconds since the tracker was made. |
| Progress.TrackerExample | src/pipeline/progress.rs:247-274 | After one processed file, 5 addresses, 3 incidents, 10 IOCs and 1024 bytes, the snapshot shows those values. Two failures show as two failed files and none processed. |
| Persistence.Disk.constructor | src/mcp/persistence.rs:70-83 | The file system starts with the given files. |
| Persistence.MetadataStore.constructor | src/mcp/persistence.rs:30-47 | A store for a path starts empty. |
| Persistence.MetadataStore.Load | src/mcp/persistence.rs:49-68 | With no file at the path nothing changes. A file that does not decode gives a configuration error naming the cause and leaves the cache alone. Otherwise the cache becomes the decoded map. |
| Persistence.MetadataStore.Save | src/mcp/persistence.rs:70-83 | The file at the path now holds the encoded cache, and no other file changes. |
| Persistence.MetadataStore.Get | src/mcp/persistence.rs:93-95 | The entry for a key, and None exactly when the key is absent. |
| Persistence.MetadataStore.Len | src/mcp/persistence.rs:101-103 | The number of keys. |
| Persistence.MetadataStore.IsEmpty | src/mcp/persistence.rs:105-107 | Empty exactly when the length is zero, and exactly when every key reads as absent. |
| Persistence.MetadataStore.Insert | src/mcp/persistence.rs:85-87 | The key now reads as the metadata and every other key as before. The length grows by one only for a new key. |
| Persistence.MetadataStore.Remove | src/mcp/persistence.rs:89-91 | Returns the entry that was dropped, if any. The key reads as absent afterwards, every other key as before, and the length shrinks by one only when an entry was dropped. |
| Persistence.Open | src/mcp/persistence.rs:30-47 | A directory error is returned as is. Otherwise the new store holds nothing when there is no file, the decoded entries when the file decodes, and a parse error when it does not. |
| Persistence.SaveThenOpen | src/mcp/persistence.rs:70-83 | With a codec that reads back what it wrote, saving a store and opening its path again reproduces its entries, whatever the file held before. |
| Persistence.PersistenceExample | src/mcp/persistence.rs:116-144 | An entry inserted, saved and reopened reads back with its URL and file count, in a store of length one. |
| Insert.DefaultInsertStats | src/database/insert.rs:23-26 | Both counters start at zero. |
| Insert.NewBatchInserter | src/database/insert.rs:29-50 | The inserter writes the named table and has an embedding client exactly when an API key is configured. |
| Insert.GenerateEmbedding | src/database/insert.rs:186-214 | The vector always has the requested dimension. |
| Insert.EmbeddingChoice | src/database/insert.rs:186-214 | Without a client the fallback is used. A service answer of the right length is used as is. A wrong-length answer or a service error falls back. The vector is always the fallback or the service's answer. |
| Insert.RecordOf | src/database/insert.rs:53-98 | The row's id is the content hash. It carries the document, a 768-element embedding and a null repository URL. |
| Insert.VectorStore.constructor | src/database/client.rs:104 | The store starts with the given tables. |
| Insert.InsertDocument | src/database/insert.rs:53-98 | On success the result is the content hash, and the document's row is appended to the table, which is created if missing. A failure changes nothing and is reported as a table-creation error or an insertion error. |
| Insert.DeleteByRepository | src/database/client.rs:104 | On success the table keeps exactly its rows not tagged with the URL, and the result is always zero. A missing table is not an error. A failure changes nothing. |
| Insert.KeepOthers | src/database/client.rs:104 | The kept rows are exactly the rows whose repository URL is not the given one. |
| Insert.DeleteKeepsInsertedRows | src/database/insert.rs:53-98 | Rows written by `insert_document` carry no repository URL, so a delete by repository keeps every one of them. |
| Orchestrator.New | src/pipeline/orchestrator.rs:24-35 | A database client error is passed through. Otherwise the orchestrator has the configuration and its processor, and runs the configured worker count of concurrent tasks, at least one. |
| Orchestrator.TwoWorkersTwoTasks | src/pipeline/orchestrator.rs:309-314 | Two configured workers give two concurrent tasks. |
| Orchestrator.ScanFiles | src/pipeline/orchestrator.rs:86-104 | The scan of the local path, and unless forced only the files whose hash is not stored. A failure to read the stored hashes is the error. |
| Orchestrator.EachFileCountedOnce | src/pipeline/orchestrator.rs:133-149 | Every file of the work set counts as exactly one success or one failure. |
| Orchestrator.SuccessesComeFromFiles | src/pipeline/orchestrator.rs:153-157 | Each collected result is what processing some file of the work set produced. |
| Orchestrator.AllFailNoResults | src/pipeline/orchestrator.rs:133-157 | When every file fails there are no results and no processed bytes, and every file counts as failed. |
| Orchestrator.CountsStep | src/pipeline/orchestrator.rs:133-149 | One more file adds its result and its size on success, or one failure. |
| Orchestrator.ProcessTask | src/pipeline/orchestrator.rs:119-150 | One task processes its file. A success yields the result, adds one processed file and the file's size; a failure yields nothing and adds one failed file. No other counter moves. |
| Orchestrator.ProcessFiles | src/pipeline/orchestrator.rs:106-160 | The results are the successes in work-set order. The tracker gains one processed file per result, one failure per failed file, and the sizes of the processed files; its entity counters are untouched. |
| Orchestrator.FailureStopsInsertion | src/pipeline/orchestrator.rs:177-184 | Once an insertion has failed, later results are never handed to the inserter. |
| Orchestrator.InsertionPrefix | src/pipeline/orchestrator.rs:162-196 | Insertion succeeds exactly when every result inserts. A failure reports the error of the first failing result, after every earlier result was inserted. |
| Orchestrator.InsertResults | src/pipeline/orchestrator.rs:162-196 | The outcome fails exactly when the fold reports an error, with that error. The tracker's entity counters gain the inserted counts up to the failure, and its file counters are untouched. |
| Orchestrator.StatsOfCounters | src/pipeline/orchestrator.rs:73-83 | Counters gathered by processing and an insertion without error are the run's statistics. |
| Orchestrator.Run | src/pipeline/orchestrator.rs:37-84 | The run computes the statistics of its specification: sync when configured, choose the work set, stop at an empty set, then process, insert and read the tracker. |
| Orchestrator.ProcessAndInsert | src/pipeline/orchestrator.rs:67-83 | For a non-empty work set, the statistics or the insertion error of the specification. |
| Orchestrator.TrackAndProcess | src/pipeline/orchestrator.rs:67-73 | A fresh tracker that holds exactly the processing counts after every file is processed, with the entity counters at zero. |
| Orchestrator.WorkSetChoice | src/pipeline/orchestrator.rs:56-59 | With the effective force flag the work set is every scanned file. Otherwise it is, in scan order, exactly the scanned files not yet stored by hash. |
| Orchestrator.EmptyWorkSetZeroStats | src/pipeline/orchestrator.rs:62-65 | An empty work set ends the run with every statistic zero. |
| Orchestrator.RunCountsEveryFile | src/pipeline/orchestrator.rs:67-83 | In a successful run the processed and failed counts add up to the work set. The processed count is the number of results, the bytes are those of the processed files, and the duration is the clock difference. |
| Orchestrator.RunErrors | src/pipeline/orchestrator.rs:40-50 | A failed sync fails the run with its error. An insertion error is the inserter's error for one of the results. |
| Processor.NewProcessor | src/pipeline/processor.rs:29-41 | The processor holds a normalizer exactly when normalization is configured. |
| Processor.ReadFileContent | src/pipeline/processor.rs:115-120 | A read failure becomes a file-operation error naming the path; otherwise the content. |
| Processor.Process | src/pipeline/processor.rs:43-113 | The result is the processing specification for the file. |
| Processor.ExtractEntities | src/pipeline/processor.rs:81-97 | Each extractor runs only when enabled: addresses and IOCs from the plain text, incidents from the raw content. A disabled one yields nothing. |
| Processor.ReadFailureNamesPath | src/pipeline/processor.rs:46 | A file that cannot be read fails with an error naming its path. |
| Processor.SizeCeiling | src/pipeline/processor.rs:47-58 | A read file fails exactly when a nonzero limit is set and the content exceeds it, with "File too large" and the relative path. |
| Processor.ZeroCeilingDisables | src/pipeline/processor.rs:47-48 | With a limit of 0, content of any length is processed. |
| Processor.DocumentOfResult | src/pipeline/processor.rs:60-77 | The document holds the normalized content when a normalizer is present, and is marked normalized exactly then. It keeps the file's paths and modification time, and its hash and size are those of its content. |
| Processor.EntitiesOfResult | src/pipeline/processor.rs:66-97 | Addresses and IOCs come from the plain text of the parsed (normalized) content, and incidents from the raw content. Each list is empty when its extractor is off. |
| Processor.AddressesCarryPath | src/pipeline/processor.rs:122-125 | Every address a file yields carries that file's path and an empty attribution. |
| McpServer.GetRepoKey | src/mcp/server.rs:171-179 | The key holds no '/' and does not end in ".git". |
| McpServer.RepoKeyIsLastSegment | src/mcp/server.rs:981-994 | A URL's last path segment is its key, with or without a trailing ".git" or '/'. This covers the three keys of the module's test. |
| McpServer.LookupKey | src/mcp/server.rs:454-459 | An identifier containing "://" is reduced to its URL's key. Any other identifier is used as the key unchanged. |
| McpServer.ParseSubdirectories | src/mcp/server.rs:198-203 | Every parsed entry is non-empty, holds no ',' and has no whitespace at either end. |
| McpServer.SubdirectoriesRoundTrip | src/mcp/server.rs:552 | A well-formed list joined with ',', as `update_repository` stores it, parses back to the same list. |
| McpServer.ParseCommaSpace | src/mcp/server.rs:198-203 | "a, b" parses to the two names without the space. |
| McpServer.FilterBySubdirs | src/mcp/server.rs:256-262 | With no list every file stays. With a list, the kept files are, in order, exactly the files under some listed subdirectory. |
| McpServer.KeepUnder | src/mcp/server.rs:257-262 | The kept files are an in-order subsequence holding exactly the files selected by the list. |
| McpServer.SubdirMatchIsTextPrefix | src/mcp/server.rs:258-261 | The "subdir/" test adds nothing to the plain prefix test, so "docs" also selects "docs-old/a.md". |
| McpServer.EmptyListSelectsNothing | src/mcp/server.rs:198-203 | An empty subdirectory argument parses to no entries and then selects no file, unlike an absent one. |
| McpServer.Recorded | src/mcp/server.rs:297-340 | No more rows are written than files are considered. |
| McpServer.OversizeFails | src/mcp/server.rs:297-308 | A file above the byte limit is never written. With a limit of 0 no non-empty file is written. |
| McpServer.SubdirsOf | src/mcp/server.rs:198-203 | A list is present exactly when the argument is, and it is the argument's parse. |
| McpServer.IngestConfig | src/mcp/server.rs:223-230 | The configured URL becomes the requested one, and the branch becomes the reference when one is given. The local path and every other section stay as they were. |
| McpServer.UpdateParams | src/mcp/server.rs:551-562 | The re-ingest uses the stored URL, the new reference or else the stored branch, the stored subdirectories when present, and force on. |
| McpServer.UpdateKeepsSubdirs | src/mcp/server.rs:552-560 | Re-ingesting parses the stored subdirectory list back unchanged. |
| McpServer.BranchDisplay | src/mcp/server.rs:210 | The recorded branch is the reference when given and "main" otherwise. |
| McpServer.IngestFailure | src/mcp/server.rs:232-284 | An ingest fails, with an internal error, exactly when the sync fails, a needed connection fails or schema initialization fails. |
| McpServer.ForceIgnored | src/mcp/server.rs:212-214 | The force flag changes neither the files considered, nor the configuration, nor the recorded branch. |
| McpServer.RegistryUpsert | src/mcp/server.rs:343-357 | Storing metadata under its own URL's key keeps every entry under its URL's key, with a well-formed subdirectory list. |
| McpServer.RegistryDrop | src/mcp/server.rs:462-464 | Dropping an entry keeps the registry well formed. |
| McpServer.IngestRows | src/mcp/server.rs:290-297 | At most 100 rows are written, and no more than the files found. |
| McpServer.IngestRowsOf | src/mcp/server.rs:274-340 | The rows of an ingest are those the connected client's inserter writes for the first 100 candidate files, in order. |
| McpServer.ReportOfCounts | src/mcp/server.rs:364-389 | Counters that match the written rows and the considered files give the reported found, processed and failed counts. |
| McpServer.RecordedUntagged | src/mcp/server.rs:319-328 | No row written by an ingest carries a repository URL. |
| McpServer.IngestKeepsUntagged | src/mcp/server.rs:297-340 | Ingesting keeps a table free of repository URLs. |
| McpServer.AfterDelete | src/mcp/server.rs:487-501 | Only the named table can change. When the delete succeeds, that table keeps exactly the rows not tagged with the URL. When it fails, nothing changes. |
| McpServer.DeleteSparesUntagged | src/mcp/server.rs:476-501 | On a table whose rows carry no URL, removing a repository leaves every ingested row in place. |
| McpServer.GitSummarizeMcp.constructor | src/mcp/server.rs:99-106 | A new server has its configuration, no database client and an empty registry. |
| McpServer.GitSummarizeMcp.EnsureDbConnected | src/mcp/server.rs:156-168 | A client is created only when none exists, and an existing one is kept. A connection error leaves the slot empty. Success means a client is present. |
| McpServer.GitSummarizeMcp.IngestFiles | src/mcp/server.rs:286-340 | The processed and failed counts add up to the first 100 files. The processed count is the number of rows, and exactly those rows are appended to the table. |
| McpServer.GitSummarizeMcp.IngestRepository | src/mcp/server.rs:187-392 | The configuration is updated. A failure is an error that leaves the registry and the tables alone. A success reports the counts, stores the metadata under the URL's key and appends the ingested rows. |
| McpServer.GitSummarizeMcp.IngestConnected | src/mcp/server.rs:249-392 | With a connected client: the report of the specification, the metadata stored under the URL's key, and the rows appended. |
| McpServer.GitSummarizeMcp.RecordIngest | src/mcp/server.rs:343-357 | The entry under the URL's key becomes the metadata, and the registry stays well formed. |
| McpServer.GitSummarizeMcp.RemoveRepository | src/mcp/server.rs:447-516 | An unknown key is an invalid-params error that changes nothing. A known key is dropped from the registry even when the connection then fails. After connecting, the report gives the key, URL and file count, and the table is updated by the delete, whose failure is ignored. |
| McpServer.GitSummarizeMcp.PurgeDocuments | src/mcp/server.rs:476-501 | A failed connection is an error that leaves the tables alone. Otherwise the delete's effect is applied and any delete error is ignored. |
| McpServer.GitSummarizeMcp.UpdateRepository | src/mcp/server.rs:519-564 | An unknown key is an invalid-params error that changes nothing. A known key is re-ingested with the parameters `UpdateParams` builds: its stored URL, the new reference or else the stored branch, and the same subdirectories. The configuration, the client, the report and the table's new rows are those `IngestRepository` states for these parameters, and a failure leaves the tables alone. A success replaces only that key's entry, with the processed count. |

## Left out

- Concurrency: the server's read/write locks, its mutex and their 30-second timeouts, the orchestrator's semaphore, `buffer_unordered` and `spawn_blocking`, and the tracker's atomic orderings. Every operation is one sequential state transition, and results are kept in work-set order rather than completion order.
- The documented lock order (src/mcp/server.rs:73-76) is not modelled or claimed: the code takes the locks in other orders.
- Task panics and join errors in the work loop: a task either succeeds or fails through the processor's error.
- External systems are inputs: the regular expressions (as match lists), the markdown tokenizer (as an event list), the YAML loader (as its document list), SHA-256, the Groq HTTP embedding call, git synchronisation and commit lookup, directory walking and file reads, and every LanceDB operation (as its outcome).
- Arrow schemas and record batches: a row holds the document, its embedding and the repository URL. The title, description and language columns, always null, are not modelled.
- `insert_complete_batch`, the per-result insertion of the orchestrator, is an input that reports its counts or an error.
- The repository does not build as a whole. The server calls a five-argument `Document::new`; the model uses the four-argument one of src/models/document.rs, and the repository URL is not stored in the document.
- Floating point: success rates and throughputs are exact reals; embedding elements are exact reals k/1000; `score = 1/(1+distance)` is not modelled.
- `extract_amount` (src/extractor/incident.rs:167-185) depends on float multipliers, so the amount is an input to section parsing.
- Wall-clock time: `ingested_at`, `parsed_at`, `extracted_at`, durations and health-report timestamps are parameters. `PerformanceMetrics`, `OperationTimer` and the timing checks are not modelled.
- Presentation: progress bars, `set_message`, `finish`, logging, colored output, `HealthReport::format`, the CLI, the JSON exporter and the text formatting of the MCP tools. Only the counts an ingest reports and the fields a removal reports are modelled.
- The MCP tools `search_documents`, `get_stats`, `get_config`, `verify_database`, `health_check` and `list_repositories` only read state and format text, so they are not modelled. `count_rows`, `verify_schema` and the orchestrator's final statistics log are not modelled either.
- Integer widths: `u64` and `usize` counters are unbounded, except the 64-bit wrapping sum of the fallback embedding, which is modelled. Overflow of `max_file_size_mb * 1024 * 1024` is not modelled.
- Unicode: lowercasing, trimming and whitespace are the ASCII ones, and strings are byte sequences.
- HashMap iteration order: `Template.GenerateWithMap` returns the order it took as a ghost output, and `Template.MapOrderMatters` shows the result can depend on it.
- I/O failures of the metadata store: only a missing file, an undecodable file and a directory error are modelled. A failed write is not.
- Progress.TotalEntitiesExtracted: its own contract states bounds, and the sum is stated by `Progress.TotalCountsEachEntity`.
- Paths.FileName: the choice of component is stated by `Paths.FileNameOfChild`, `Paths.FileNameIgnoresTrailing` and `Paths.ParentHasNoFileName`. A leading "./" and prefixes of other platforms are not modelled.
- Paths.StripPrefix: which suffix is chosen is stated by `Paths.StripPrefixOfChild` and `Paths.StripPrefixOfOthers` for a root without a trailing '/'. "." components and runs of '/' inside the root are not normalised.
- Validation.TruncateText, SearchResultModel.FormatSummary: the requires exclude a cut inside a multi-byte character, where the source's slice panics (`Validation.TruncateCanSplitCharacter`). The search tool reaches this through `format_summary(200)` (src/mcp/server.rs:709), so a non-ASCII preview longer than 200 bytes can panic the server; the panic is not modelled.
