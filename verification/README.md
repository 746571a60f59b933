# protovalidate-go, modelled and proved in Dafny

protovalidate-go validates Protocol Buffers messages against rules written in their descriptors. This project models
the parts of it that carry their own logic and proves what they promise.

* **Text formats** (`cel/library.go`): the recursive-descent parsers behind `isURI`, `isURIRef`, `isIP`, `isIPPrefix`,
  `isHostname` and `isHostAndPort`. The parser objects are classes with the fields of the original; the grammars of
  RFC 3986 (Appendix A and section 3), RFC 4291 (section 2.2) and RFC 6874 (section 2) are data, with a derivation
  relation. Each greedy method with ordered choice and backtracking is proved to recognise its rule, and the numbers
  computed with shifts and masks are proved to be those the text denotes.
* **Evaluation** (`evaluator.go`, `message.go`, `field.go`, `value.go`, `repeated.go`, `map.go`, `program.go`, `cel.go`,
  `error_utils.go`): violations and errors are heap objects that are merged and extended in place. Every evaluator is
  proved to yield what a flat list of atomic outcomes amounts to, with and without fail-fast; the paths of the
  violations are proved to be the chains from the root; tautologies are proved to be safe to leave out.
* **Building** (`builder.go`): the in-place construction of linked evaluators in a cache, for any finite schema, cycles
  included, proved against a function of the message type. What a cache finds is proved to depend on the schema alone,
  and validation is proved to succeed exactly on the messages that keep the rules of the schema.
* **Loading** (`builder.go`): a model of concurrent `loadOrBuild` calls in which every access to shared state is a step,
  with an invariant over all steps and theorems over all runs, for the requests that the builder makes:
  safety, and that every call can be run to its end.
* **Maps** (`map_value.go`): lookup with keys of any numeric type, and equality.

How the files build on each other:

| part | files |
|---|---|
| grammars and texts | `Abnf`, `Utf8`, `Utf8Text`, `UriGrammar`, `Numerals`, `Bits`, `Options` |
| IP addresses | `Ipv4`, `Ipv6Text`, `Ipv6Scan`, `Ipv6Value`, `Ipv6Parser`, `Ipv6Language`, `Ipv6Meaning`, `Ipv6Rfc`, `Ipv6Suffixes`, `IpAddress`, `IpRoundTrip` |
| URIs, hosts and ports | `UriShapes`, `UriHost`, `UriScan`, `UriParser`, `UriTheorems`, `UriBrackets`, `UriEncoded`, `HostPort` |
| evaluation | `Outcomes`, `EvalTree`, `EvalLeaves`, `EvalHeap`, `EvalPaths`, `EvalChains`, `EvalElide` |
| building and lazy loading | `BuilderSpec`, `BuilderTheorems`, `BuilderGraph`, `Builder`, `BuilderLoad` |
| what the rules mean | `Conformance`, `ConformanceTheorems`, `BuilderListing` |
| concurrent loading | `LoadProtocol`, `LoadProgress`, `LoadSchema` |
| maps | `MapValue` |

`dafny verify dfyconfig.toml` checks everything. A Go string is a sequence of bytes; it is modelled as a Dafny string
with one character per byte.

Where the code and its documentation disagree, the model follows the code:

* `isHostname` counts a trailing dot in the limit of 253 characters (`cel/library.go:1023-1026`), its comment excludes
  it; `HostnameIffDocumented` says exactly when the two agree, `DocumentedOnly` gives a name on which they do not.
* `uri` leaves the index behind the `?` or `#` whose query or fragment fails (`cel/library.go:1132-1137`), so
  `uriReference` may go on in the middle of the text; `IsUriRefIffRfc` says exactly when that matters.
* `ipv6.addressPart` does not count a dotted tail as pieces (`cel/library.go:783-788`) and takes one colon in front of
  `%` or `/` (`cel/library.go:798-817`), and reads no zone behind a dotted tail. Against RFC 3986, RFC 4007 and RFC
  4291, `AcceptsIffRfc` says exactly what is accepted without a zone, `ZonedIffRfc` with one, and `PrefixIffRfc` as a
  prefix; `OverlongExample`, `LoneColonZoneExample`, `LoneColonPrefixExample` and `DottedZoneExample` are texts of each
  kind.
* With more than eight groups `ipv6.getBits` returns 0 (`cel/library.go:704-706`), so a strict prefix may have any
  length; `OverlongPrefix` states it.
* `processStandardRules` returns for every field of wrapper messages (`builder.go:459-466`), also for a repeated one,
  whose rules for the list as a whole, such as a minimal number of items, are then not checked; `WrapperListSkips` is such
  a message. `SameConforms` and `StandardRulesAreKept` say that this is so for exactly the fields of wrapper messages.
* In brackets a URI host has no embedded IPv4 form and a lower-case `v` only (`cel/library.go:1388`, `1434`), which is
  narrower than RFC 3986; `IsUriIffKnown` says exactly by how much, and for texts without `[` there is no difference.

## Model

| member | source | states |
|---|---|---|
| Ipv4.DecOctetRule | cel/library.go:611-638 | dec-octet of RFC 3986 derives exactly the canonical numerals up to 255 |
| Ipv4.Parser.DecOctet | cel/library.go:611-638 | succeeds iff the digits from the index on, to the last one, are a canonical numeral up to 255; appends its value and nothing else |
| Ipv4.Parser.AddressPart | cel/library.go:595-609 | succeeds iff the greedy reading does, with the four octets whose dotted text was consumed; restores the index otherwise |
| Ipv4.GreedyComplete | cel/library.go:595-638 | the greedy reading finds every IPv4address of the grammar that ends before a slash or at the end of the text |
| Ipv4.Parser.Address | cel/library.go:551-554 | accepts exactly the texts of IPv4address, and the octets read are those the text denotes |
| Ipv4.MatchesIffDotted | cel/library.go:595-609 | the texts of IPv4address are exactly the dotted canonical decimals of four octets |
| Ipv4.OneTextPerNumber | cel/library.go:527-554 | every 32-bit number is the getBits value of exactly one accepted text: getBits inverts printing |
| Ipv4.OneNumberPerText | cel/library.go:527-554 | the accepted texts are exactly those that denote a 32-bit number, one each |
| Ipv4.GetBitsIsNumber | cel/library.go:529-534 | the shifts and ors compute the big-endian number of the octets, without overflow |
| Ipv4.Parser.AddressPrefix | cel/library.go:556-593 | a prefix is accepted iff the greedy reading of address, slash and canonical numeral up to 32 ends at the end, and then it is that text |
| Ipv4.Parser.IsPrefixOnly | cel/library.go:536-549 | the mask test decides divisibility of the address by 2^(32-n) |
| Ipv4.PrefixOnlyIffDivisible | cel/library.go:539-549 | complement, shift and mask on 32-bit words refine divisibility by 2^(32-n) |
| Ipv6Parser.Parser.H16 | cel/library.go:865-899 | one to four hexadecimal digits become a 16-bit piece, five are an error, none is neither; the 16-bit conversion never overflows |
| Ipv6Parser.Parser.AddressPart | cel/library.go:779-823 | the loop over the mutable parser state computes the scan function, field by field |
| Ipv6Parser.Parser.Address | cel/library.go:736-739 | accepts iff the scan ends at the end of the text |
| Ipv6Parser.Parser.AddressPrefix | cel/library.go:741-777 | accepts iff the scan stops without a zone at a slash that a canonical numeral up to 128 follows to the end; PrefixLanguage says which texts these are |
| Ipv6Meaning.PrefixLanguage | cel/library.go:741-777 | for all strings: the accepted prefixes are the addresses without a zone, with at most one lone colon, a slash and a canonical number up to 128; each has one reading, and getBits returns the number of its groups |
| Ipv6Meaning.AddressMeaning | cel/library.go:689-823 | for all strings: a text is accepted iff it means a sequence of groups read off the text; the meaning is unique, and getBits is the big-endian number of its eight groups, or 0 when there are more than eight |
| Ipv6Scan.ScanSound | cel/library.go:780-823 | whatever state the scan reports describes the text it has read: groups, or groups on both sides of "::", and how it stopped |
| Ipv6Scan.ScanReaches | cel/library.go:780-823 | the scan of the whole text passes through every state that describes a beginning of it, so a text has one reading only |
| Ipv6Language.AddressLanguage | cel/library.go:736-823 | for all strings: the accepted texts are the eight-group and "::" forms, those with a dotted tail, and the first ones followed by a zone, a lone colon in front of it included |
| Ipv6Text.HexFormIffIpv6Address | cel/library.go:780-823 | the nine alternatives of IPv6address with a hexadecimal ls32 derive exactly eight groups, or at most seven around "::" |
| Ipv6Rfc.Ipv6AddressForms | cel/library.go:780-823 | what IPv6address of RFC 3986 derives, dotted tails included, in terms of groups |
| Ipv6Rfc.AcceptsIffRfc | cel/library.go:780-823 | without a zone: the parser accepts a text iff it is an IPv6address or has a dotted tail behind "::" with six or more groups, and the latter never is one |
| Ipv6Rfc.AcceptsIffRfcHex | cel/library.go:736-823 | on hexadecimal digits and colons the parser decides IPv6address, in the full grammar and without the IPv4 form of ls32 |
| Ipv6Suffixes.ZonedIffRfc | cel/library.go:779-817 | for every text with a percent sign: accepted iff it is a hexadecimal IPv6address, "%" and a zone, or has a lone colon in front of the "%"; the latter is never an address with a zone, and of the addresses with a zone exactly the dotted ones are rejected |
| Ipv6Suffixes.PrefixIffRfc | cel/library.go:741-777 | for all strings: accepted iff it is IPv6address "/" n with n canonical up to 128, or has a lone colon in front of the slash, or a dotted tail behind six or more groups; the three exclude each other |
| Ipv6Suffixes.HexIffNoDot | cel/library.go:783-788 | an IPv6address is one in hexadecimal iff it has no dot, for all strings |
| Ipv6Suffixes.LoneColonZoneExample | cel/library.go:798-816 | a text with a lone colon in front of its zone that is accepted and is no address with a zone |
| Ipv6Suffixes.LoneColonPrefixExample | cel/library.go:798-817 | a text with a lone colon in front of the slash that is accepted and is no address prefix |
| Ipv6Suffixes.DottedZoneExample | cel/library.go:783-788 | an address with a dotted tail and a zone that is rejected |
| IpRoundTrip.DottedBehindManyGroups | cel/library.go:783-788 | a dotted tail does not count as pieces: behind any six or more groups and "::" it is accepted although the RFC does not derive it |
| IpRoundTrip.OverlongExample | cel/library.go:783-788 | one such text |
| IpRoundTrip.OverlongPrefix | cel/library.go:689-706 | behind seven or more groups getBits returns 0, so that the text is a strict prefix of every length |
| IpRoundTrip.OverlongPrefixExample | cel/library.go:689-706 | one such prefix |
| Ipv6Parser.Parser.GetBits | cel/library.go:686-711 | inserting zeros one at a time and shifting the words together gives the two words of the scanned state, which AddressMeaning relates to the text |
| Ipv6Value.BitsAreDenoted | cel/library.go:689-711 | for every parser state with eight groups the two words are their big-endian value, "::" expanded to zeros; AddressMeaning shows that accepted texts have such states |
| Ipv6Parser.Parser.IsPrefixOnly | cel/library.go:713-734 | the loop over the two words decides divisibility of the 128-bit value by 2^(128-n) |
| Ipv6Value.PrefixOnlyIffDivisible | cel/library.go:716-734 | the two-word mask test refines divisibility of the 128-bit value by 2^(128-n), for every n up to 128 |
| Bits.MaskClears | cel/library.go:539-549 | masking with ones followed by m zeros clears exactly the low m bits |
| Bits.DivisibleSplit | cel/library.go:716-734 | a two-word number is a multiple of 2^m iff the words share the condition as the loop splits it |
| IpRoundTrip.RoundTrip | cel/library.go:689-823 | every written form of eight groups, with any run of zeros elided or none and the last two groups dotted or not, is accepted and getBits returns these groups |
| IpRoundTrip.EveryAddressIsWritten | cel/library.go:780-823 | any eight groups, any run of zeros among them or none, in either notation, with or without leading zeros and in any mix of upper and lower case, have such a written form |
| IpRoundTrip.OneValue | cel/library.go:892-896 | a group of hexadecimal digits is one of the printed forms of its value, and so has no other value |
| IpRoundTrip.PrefixRoundTrip | cel/library.go:741-777 | every such form with a slash and a canonical n up to 128 is a prefix; a strict one iff the value is divisible by 2^(128-n) |
| IpRoundTrip.PrefixRoundTrip4 | cel/library.go:556-593 | the same for IPv4 and 2^(32-n) |
| IpAddress.IsIp | cel/library.go:953-976 | isIP for version 4, 6, either, and any other number |
| IpAddress.IsIpPrefix6 | cel/library.go:999-1002 | accepts iff the text is an address and a prefix length, and in strict mode the value of the eight groups in the text is a multiple of 2^(128-n), or there are more than eight |
| IpAddress.IsIpPrefix4 | cel/library.go:1003-1006 | an IPv4 prefix; strict iff the number in front is a multiple of 2^(32-n) |
| IpAddress.IsIpPrefix | cel/library.go:978-1011 | isIPPrefix for every version and both modes |
| HostPort.IsHostname | cel/library.go:1013-1055 | accepts iff the text, of at most 253 characters with a trailing dot counted, is labels joined by dots, the last not all digits, with or without a trailing dot |
| HostPort.HostnameIffDocumented | cel/library.go:1013-1026 | for all strings: a host name iff it meets the documented rule, which leaves a trailing dot out of the 253 characters, and has at most 253 characters in all; the names that the code leaves out have 254, the last a dot |
| HostPort.DocumentedOnly | cel/library.go:1023-1026 | a name of 254 characters that meets the documented rule and is rejected |
| HostPort.OneLabel | cel/library.go:1036-1053 | a text without a dot is a host name iff it is 1 to 63 letters, digits and hyphens, no hyphen at either end, and not only digits |
| HostPort.HostnameIffSplit | cel/library.go:1026-1055 | a host name has one reading: its labels are what lies between its dots |
| HostPort.HostnameIsNotIpv4 | cel/library.go:1053-1054 | no text is both a host name and an IPv4 address |
| HostPort.IsPort | cel/library.go:1094-1115 | accepts exactly the canonical decimals of the numbers up to 65535 |
| HostPort.IsHostAndPort | cel/library.go:1057-1092 | accepts iff the text is a host and no port is required, or a host, a colon and a port |
| HostPort.PairUnique | cel/library.go:1070-1092 | the split into host and port is unique, and a text that has one is no host |
| UriParser.Parser.PctEncoded | cel/library.go:1655-1668 | a complete triplet or nothing; marks that one was found |
| UriParser.Parser.Scheme | cel/library.go:1209-1226 | recognises scheme up to a colon |
| UriParser.Parser.Userinfo | cel/library.go:1270-1292 | recognises userinfo up to "@", however much of it could also be a host |
| UriParser.Parser.RegName | cel/library.go:1452-1473 | recognises reg-name up to a port or the end of the authority |
| UriParser.Parser.ZoneID | cel/library.go:1414-1427 | consumes the longest run of unreserved characters and triplets, if there is one |
| UriParser.Parser.IpvFuture | cel/library.go:1429-1450 | consumes IPvFuture with a lower-case v, in the only way there is |
| UriParser.Parser.Ipv6addrz | cel/library.go:1398-1412 | consumes an address, "%25" and a zone, in the only way there is |
| UriParser.Parser.IpLiteral | cel/library.go:1360-1381 | with backtracking over its three alternatives: consumes the only IP-literal that starts here, if there is one |
| UriParser.Parser.CheckHostPctEncoded | cel/library.go:1294-1319 | decides whether the percent-decoded text is UTF-8, reading within it when every percent sign has two characters behind it |
| UriHost.HostTriplets | cel/library.go:1321-1341 | in every host the parser consumes each percent sign starts a complete triplet inside it, so the check reads within bounds |
| UriHost.PlainHost | cel/library.go:1329-1337 | when no triplet was found outside a zone prefix, the UTF-8 condition holds without the check |
| Utf8Text.DigitRead | cel/library.go:1296-1306 | the upper-case and the lower-case digit of every value below 16 are read as this value |
| Utf8Text.DecodeEncoded | cel/library.go:1307-1318 | percent-decoding inverts percent-encoding, whichever bytes are encoded and in whatever case |
| Utf8Text.ValidIffEncoded | cel/library.go:1319-1319 | a byte sequence is well-formed UTF-8 iff it is the encoding of a sequence of Unicode scalar values |
| UriParser.Parser.Host | cel/library.go:1321-1341 | recognises host with the UTF-8 condition on its percent-decoding |
| UriParser.Parser.Authority | cel/library.go:1228-1256 | recognises authority up to a slash, a question mark, a number sign or the end, backtracking over userinfo |
| UriParser.Parser.PathAbempty | cel/library.go:1483-1498 | recognises path-abempty up to the end of the path |
| UriParser.Parser.PathAbsolute | cel/library.go:1500-1519 | recognises path-absolute up to the end of the path |
| UriParser.Parser.PathNoscheme | cel/library.go:1521-1538 | recognises path-noscheme up to the end of the path |
| UriParser.Parser.PathRootless | cel/library.go:1540-1557 | recognises path-rootless up to the end of the path |
| UriParser.Parser.HierPart | cel/library.go:1152-1167 | recognises hier-part: ordered choice over four alternatives loses none of its texts |
| UriParser.Parser.RelativePart | cel/library.go:1192-1207 | recognises relative-part |
| UriParser.Parser.Query | cel/library.go:1617-1634 | recognises query up to a number sign or the end |
| UriParser.Parser.Fragment | cel/library.go:1636-1653 | recognises fragment up to the end |
| UriParser.Parser.Uri | cel/library.go:1123-1143 | decides URI from the index on; on failure the index is where it was, or behind the "?" or "#" whose query or fragment failed |
| UriParser.Parser.RelativeRef | cel/library.go:1169-1190 | decides relative-ref from the index on |
| UriParser.Parser.UriReference | cel/library.go:1145-1150 | decides URI-reference, and otherwise succeeds iff a relative-ref follows where uri has left the index |
| UriTheorems.IsUri | cel/library.go:1126-1143 | for all strings: isURI accepts exactly the texts of URI over the hosts the parser knows |
| UriTheorems.IsUriSound | cel/library.go:1126-1143 | for all strings: what isURI accepts is a URI of RFC 3986 with the zones of RFC 6874 and a UTF-8 host |
| UriTheorems.IsUriIffRfc | cel/library.go:1126-1143 | without an opening bracket isURI accepts exactly the URIs of RFC 3986 whose percent-decoded host is UTF-8, and likewise for the grammar of references |
| UriTheorems.IsUriRef | cel/library.go:488-500 | for all strings: isURIRef accepts the texts of URI-reference and those where relativeRef resumes behind a failed query or fragment |
| UriTheorems.IsUriRefIffRfc | cel/library.go:1126-1150 | without an opening bracket: isURIRef accepts a text iff it is a URI-reference or has a second fragment behind a URI, and the latter never is one |
| UriTheorems.IsUriRefOneHash | cel/library.go:1126-1150 | with at most one number sign and no opening bracket isURIRef decides URI-reference |
| UriTheorems.SecondFragmentExample | cel/library.go:1135-1137 | a text without brackets that isURIRef accepts and that is no URI-reference |
| UriBrackets.IsUriIffKnown | cel/library.go:1126-1150 | for all strings: isURI accepts exactly the URIs of RFC 3986 in which every IP-literal is one the parser knows, with a UTF-8 host; likewise for the grammar of references |
| UriEncoded.OnlyHostIff | cel/library.go:1321-1341 | a URI of a scheme and a host without delimiters is accepted iff the host has the characters of reg-name and decodes to UTF-8 |
| UriEncoded.EncodedHost | cel/library.go:1294-1319 | for all bytes, percent-encoded in any mix of cases or standing for themselves: the URI is accepted iff they are the UTF-8 encoding of some scalar values |
| UriBrackets.IsUriRefIffKnown | cel/library.go:1145-1150 | for all strings: isURIRef accepts such references and the texts in which relativeRef resumes |
| UriBrackets.RejectedUri | cel/library.go:1434-1434 | a URI of RFC 3986 with a bracketed host that isURI rejects |
| UriBrackets.ResumedQueryExample | cel/library.go:1132-1134 | a text with one question mark and a bracketed host that isURIRef accepts and that is no URI-reference |
| EvalHeap.MergeViolations | error_utils.go:34-56 | in place: the error object that results, its violations without loss or repetition, and whether evaluation goes on |
| EvalHeap.UpdateViolationPaths | error_utils.go:90-120 | every violation gets the element behind its field path and the prefix before its rule path; nothing else changes |
| EvalHeap.MarkViolationForKey | error_utils.go:169-181 | every violation is marked; nothing else changes |
| EvalHeap.FinalizeViolationPaths | error_utils.go:122-136 | every field path is turned round; nothing else changes |
| EvalHeap.EvalPrograms | program.go:36-70 | the loop with its early break and its error return yields what the list of program outcomes amounts to |
| EvalHeap.CelEvaluate | cel.go:29-43 | the same with the starting field path and the rule prefix set on every violation |
| EvalHeap.AnyEvaluate | any.go:61-106 | allow list, then block list, the second not looked at under fail-fast after a violation of the first |
| EvalHeap.EnumEvaluate | enum.go:45-61 | one violation for a value that is no defined number, with the field's element and the rule's path |
| EvalHeap.OneofEvaluate | oneof.go:35-53 | one violation iff the filter admits the oneof, one of its fields is required, and none is set |
| EvalHeap.MessageOneofEvaluate | message_oneof.go:46-78 | one violation iff the filter admits the message and two listed fields are set, or one is required and none is |
| EvalLeaves.MessageOneofFinds | message_oneof.go:46-78 | counting the set fields finds that two of them are set, or none where one is required |
| EvalLeaves.OneofFinds | oneof.go:35-53 | a required oneof is reported iff the filter admits it and no field of it is set |
| EvalLeaves.EnumFinds | enum.go:45-61 | a value is reported iff it is none of the defined numbers |
| EvalLeaves.AnyFinds | any.go:61-106 | the two violations of an Any, each iff its list and the type URL ask for it, with their rule paths |
| EvalLeaves.ProgramsFind | program.go:36-70 | one outcome for every program, in order: nothing, a violation with the program's own path and id, or its error |
| EvalHeap.RulesEvaluate | evaluator.go:56-65 | the merging loop yields what the list of all its evaluators amounts to |
| EvalHeap.PartsEvaluate | evaluator.go:84-93 | the same for the evaluators of a message |
| EvalHeap.EmbeddedEvaluate | message.go:110-114 | the result of the embedded message with the field's element behind every path |
| EvalHeap.ListEvaluate | repeated.go:50-69 | item by item with the index on the field's own element |
| EvalHeap.MapEvaluate | map.go:69-108 | entry by entry with the key on the field's own element |
| EvalHeap.PairEvaluate | map.go:110-121 | the key's violations, marked, and then the value's |
| EvalHeap.ValueEvaluate | value.go:46-66 | own rules and nested rules, or only the latter, or nothing for an ignored empty value |
| EvalHeap.FieldEvaluate | field.go:67-99 | the decision order: ignored, filtered, broken, required but unset, unset, value |
| EvalHeap.MessageEvaluate | message.go:41-56 | compilation error, own evaluators and nested evaluators under the filter |
| EvalHeap.Validate | validator.go:105-124 | for every tree, message, filter and mode: the result is what the flat list of atomic outcomes amounts to, with every field path turned round once |
| Outcomes.RunAppend | evaluator.go:56-65 | evaluating one list after another is merging the results, unless the first one stops |
| Outcomes.MergeStep | evaluator.go:56-65 | one turn of a merging loop agrees with merging all that is left |
| Outcomes.RunCollects | error_utils.go:34-56 | without fail-fast: the first error if there is one, otherwise all violations in order, none lost or repeated |
| Outcomes.RunStopsFirst | error_utils.go:44-55 | with fail-fast: the first outcome that is not a pass |
| Outcomes.RunSuccess | error_utils.go:34-56 | either mode reports success iff every check passed |
| Outcomes.RunModes | error_utils.go:34-56 | the two modes side by side: success in one iff in the other, the same error, or the first of the collected violations |
| EvalPaths.TopIsMessage | message.go:41-56 | paths collected leaf first and placed at the root are those of the listing from the root down |
| EvalPaths.TopIsItems | repeated.go:50-69 | the same below list items: the index sits on the list field's own element |
| EvalPaths.TopIsEntries | map.go:69-121 | the same below map keys and values: the key sits on the map field's own element, and only key violations are marked |
| EvalPaths.PathsFromRoot | error_utils.go:122-136 | what Validate reports is what the listing from the root down amounts to, in both modes |
| EvalChains.ReportedPathsLead | error_utils.go:90-136 | every reported path leads from the root message to its value: one element for every field on the way, the subscript picking from that very field, and below an embedded message on by an evaluator that the field's own rules refer to |
| EvalChains.SubscriptNamesKey | map.go:80-93 | the subscript of a map entry gives back its key, for boolean, signed, unsigned and string keys; so different keys have different subscripts |
| EvalElide.FieldFindsNothing | field.go:101-103 | a field evaluator that reports to be a tautology finds nothing in any message, under any filter |
| EvalElide.ValueFindsNothing | value.go:68-70 | so does a value evaluator, and with it those of lists and maps |
| EvalElide.AllTautologies | evaluator.go:67-74 | the loop over a list of evaluators decides whether all are tautologies |
| EvalElide.MessageElided | message.go:67-77 | a tree built with Append and AppendNested finds exactly what the tree with nothing dropped finds |
| Builder.Node.AppendNested | message.go:73-77 | appends unless the evaluator is a tautology |
| Builder.ValueNode.Append | value.go:72-76 | appends unless the evaluator is a tautology |
| Builder.Cache.Clone | builder.go:615-622 | a new cache with the same entries |
| Builder.Build | builder.go:112-123 | terminates on every finite, possibly cyclic schema; the cache keeps what it held, every type it holds besides is new and finished, and every evaluator in it has its final error, also those still in progress |
| Builder.BuildMessage | builder.go:125-146 | the evaluator that was put into the cache empty is the one of its type when it returns |
| Builder.ProcessMessageOneofRules | builder.go:171-211 | the rules before the first bad one, and that one's error, which replaces an earlier one |
| Builder.LookupFields | builder.go:186-204 | the descriptors in order, or the first error among duplicate and unknown names |
| Builder.ProcessFields | builder.go:231-247 | all fields in order, linked to objects of the cache, although the cache and other evaluators grow meanwhile |
| Builder.BuildField | builder.go:249-269 | one field with its presence, ignore and required rules, the ignore rule set for members of message oneofs |
| Builder.BuildValue | builder.go:271-304 | the nine steps in order up to the first error, on the value object |
| Builder.ProcessFieldExpressions | builder.go:321-383 | both compilations, their errors in order, and a rule path with its index for every program |
| Builder.ProcessEmbeddedMessage | builder.go:385-409 | links to the object that the cache holds, or fails with the final error of a type that may still be in progress |
| Builder.ProcessWrapperRules | builder.go:411-451 | the wrong kind of rules is an error, the right kind is built for the wrapped field and appended as one evaluator |
| Builder.ProcessMapRules | builder.go:531-567 | key rules, then value rules, each with its own error |
| Builder.ProcessRepeatedRules | builder.go:569-589 | item rules, built for the same field descriptor |
| BuilderTheorems.PartsCongruence | builder.go:231-247 | the evaluator of a type depends on nothing but the type and the links of the types it asks for |
| BuilderTheorems.MessageFits | builder.go:231-304 | every built evaluator has the elements and rule prefixes that the path theorems need |
| BuilderTheorems.MessageElides | builder.go:125-247 | the built evaluator is the full one without its tautologies |
| BuilderTheorems.ValidateMeansFullTree | validator.go:105-124 | for every schema, message, filter and mode: the result with the built evaluators is what the checks of the full trees, with their paths from the root, amount to |
| ConformanceTheorems.SuccessIffConforms | validator.go:105-124 | for every schema, message, filter and mode: the built evaluators report success iff the message conforms to its type, which is said of the schema and the message alone |
| ConformanceTheorems.MessageMeans | builder.go:125-146 | the evaluator of a type finds nothing in a message iff the message conforms to the type |
| ConformanceTheorems.MessageErrIff | builder.go:171-211 | a type has an error iff its expressions do not compile or a oneof rule of it is empty, names a field twice or names no field |
| ConformanceTheorems.ValueErrIff | builder.go:271-304 | building a value fails iff one of the compilations that its rules ask for does, those of items, keys, values, embedded types and wrapped scalars included |
| BuilderListing.MessagesAreListed | builder.go:385-409 | a message in a field, list item or map value that is not ignored is checked with its own type: all its outcomes are among those of the message around it, under the field's element and subscript |
| BuilderListing.ProgramsAreListed | builder.go:306-383 | every program that the rules of a field, item, key or value are compiled to is run on it: its outcome is among those of the message, with the path to the value and the path of the rule |
| BuilderListing.OneofMembersAreChecked | builder.go:255-258 | a field that a oneof rule names is checked with all its rules when it is set |
| BuilderListing.RequiredIsListed | field.go:76-83 | a required field that is not set is reported at the field |
| BuilderListing.MessageTypesAreRequested | builder.go:391-401 | the type of every message that a field has checked is requested when the field's type is built |
| BuilderListing.SameConforms | builder.go:459-466 | the standard rules of a field of wrapper messages, singular or repeated, make no difference to which messages conform |
| BuilderListing.StandardRulesAreKept | builder.go:468-486 | the standard rules of every other field are kept by its value whenever the message conforms |
| BuilderListing.WrapperListSkips | builder.go:459-466 | a list of wrapper messages that breaks a rule for the list as a whole, and conforms |
| BuilderGraph.SameMessageSpec | builder.go:385-409 | the linked evaluator is the one by type names up to object identity, and all its references are to requested types |
| BuilderGraph.GraphFindsSame | builder.go:112-146 | evaluators linked among themselves find what their type names stand for, whichever objects they are |
| BuilderLoad.Loader.constructor | builder.go:54-81 | all seeds are finished in the first published cache |
| BuilderLoad.Loader.Load | builder.go:83-91 | a returned evaluator is finished and linked within the published cache; none is returned only for a type that this cache does not hold |
| BuilderLoad.Loader.LoadOrBuild | builder.go:93-110 | returns the object that the published cache holds for the type; all of that cache is finished, the entries so far stay, and a hit publishes nothing |
| BuilderLoad.ReferencesStayInCache | builder.go:385-409 | every reference in a finished evaluator is to the object that the same cache holds for that type |
| BuilderLoad.CacheFindsSame | builder.go:75-110 | what a finished cache finds depends on the schema alone, not on what was requested before, lazily or as seeds |
| BuilderLoad.LoadedMeansFullTree | builder.go:75-110 | the outcomes that a finished cache's evaluator finds amount to the root-down listing of the full trees, for every cache and request order |
| BuilderLoad.Validate | validator.go:105-124 | loading or building the evaluator and then validating: the error object is what the checks of the full trees, with their paths from the root, amount to, or the error that there is no evaluator; it is nil iff the message conforms to its type |
| LoadProtocol.StepKeeps | builder.go:96-123 | every step of every thread keeps the invariant |
| LoadProtocol.RunGrows | builder.go:96-110 | in every interleaving published caches never change, what is published only grows, and a published type stays mapped to the same object |
| LoadProtocol.BuiltOnce | builder.go:96-123 | no two evaluator objects are ever made for one type |
| LoadProtocol.SameForAll | builder.go:96-110 | all calls for one type return the same object |
| LoadProtocol.NeverUnfinished | builder.go:96-123 | a returned object and everything its links lead to are finished when it is returned, and never change afterwards |
| LoadSchema.RequestsAreUses | builder.go:231-247 | the sequence of types that the concurrent loader asks for when it builds a type has exactly the types that the builder's specification requests, with links of any kind |
| LoadSchema.ReturnedFindsSame | builder.go:96-123 | in every interleaving: the object that a call returns finds what its type alone determines, when the published objects hold the evaluators of their types |
| LoadSchema.ReturnedIsLinked | builder.go:385-409 | in every interleaving: a returned object is linked to the objects of all types that the evaluator of its type refers to |
| LoadProtocol.BuildDescends | builder.go:112-123 | every step of a build leaves less to do, however the types mention each other |
| LoadProgress.SomeoneGoesOn | builder.go:96-110 | while a call is outstanding, the caller or the thread that holds the lock it waits for can take a step that changes the state |
| LoadProgress.StepLowers | builder.go:96-123 | every step inside a call that changes the state, locking, loading, publishing and unlocking included, lowers a well-founded measure over all outstanding calls |
| LoadProgress.OutstandingCallReturns | builder.go:96-110 | from every state that any run reaches, an outstanding call returns in some continuation of the run |
| LoadProgress.EveryCallReturns | builder.go:96-110 | from every reachable state, every thread can call for every type of the schema and have the call return |
| LoadProgress.FirstCall | builder.go:54-110 | for any number of threads and no seeds there is a first state, and from it any thread can get any type |
| MapValue.DoubleToInt64Lossless | map_value.go:327-330 | the integer of equal value, or none, for doubles of magnitude below 2^63 |
| MapValue.DoubleToUint64Lossless | map_value.go:332-338 | the non-negative integer of equal value, or none, for doubles of magnitude below 2^63 |
| MapValue.NativeOfCel | map_value.go:218-267 | toNativeKey inverts toCelKey for every key kind, and the meaning of the key is kept |
| MapValue.FindIffSameMeaning | map_value.go:178-216 | Find succeeds iff the map has a key of the same value, whatever the numeric types, and returns that key's entry |
| MapValue.Equal | map_value.go:102-128 | the loop over one map: true iff the sizes agree and every entry is found in the other with an equal value; otherwise the verdict on the first entry that is not |
| MapValue.EqualIffSameMap | map_value.go:102-128 | although one side is iterated, true iff the two are equal as maps from numbers, booleans or strings, by the pigeonhole principle |
| MapValue.EqualIsSymmetric | map_value.go:102-128 | symmetric when comparing values is, also across integer key kinds |
| MapValue.KeyIterator.Next | map_value.go:314-321 | the keys in order, each once, and then nil |
| MapValue.IteratedKeysAreFound | map_value.go:157-168 | every key that the iterator yields is found, as the entry of the key it stands for |

## Left out

- CEL compilation, evaluation and residual reduction, environments, the registry and the rule cache: a compiled program is a function from a value to pass, violation or error; compiling is a function of the descriptor and the rules.
- Protobuf reflection, extension resolution and reparsing of rules: descriptors are a finite schema, messages are finite trees with one slot per field, in which `Range` visits map entries in a fixed order. Values are booleans, integers, strings, enum numbers, messages, lists and maps; bytes and floating-point fields are not distinguished.
- Error texts, rule values, field descriptors attached to violations, and `FieldPathString`: data that nothing modelled here looks at.
- `isEmail`, `isURI`'s callers in CEL, and the other library functions that are one call into another library.
- `utf8.Valid`, `strconv` and `strings`: their specifications are used (RFC 3629 for UTF-8).
- Options, pooling of CEL bindings, `unique`, the conformance executor and generated code.
- Evaluators of `any.go`, `enum.go`, `oneof.go` and `message_oneof.go` are leaves: their outcomes are modelled, not their constructors.
- The branch of `kvPairs.Evaluate` for key kinds that no map has: descriptors do not allow them.
- Ipv6Parser.Parser.GetBits: does not model that inserting into `pieces` may write to its backing array, because `isPrefixOnly` calls it once and nothing reads `pieces` afterwards; the result of that call is what is stated.
- MapValue.FindIffSameMeaning: does not cover doubles of magnitude 2^63 and more, infinities and NaN, where Go's conversion to an integer depends on the machine; a finite double is the real number it stands for.
- MapValue.Equal: does not model other implementations of a CEL map on the right-hand side; a value that is no map is included.
- Builder.ProcessWrapperRules: does not model a wrapper type whose `value` field is itself a message, because the wrapper types are the well-known ones.
- BuilderLoad.Loader.LoadOrBuild: does not model the lock and the atomic pointer; LoadProtocol does, with the construction of an evaluator reduced to its links and its completion.
- LoadProtocol.StepKeeps: does not model a panic inside a build, and assumes sequentially consistent loads and stores of the published pointer, which Go's atomics provide.
- LoadProgress.OutstandingCallReturns: does not model a scheduler, so that it states that a call can return and that steps run out, not that a given scheduler lets it.
