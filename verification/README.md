# Verified models of ecclesia machine management

Dafny models of the parts of the library that decide something: how Redfish resources become a tree of
physical nodes with devpaths, which endpoint a stub arbiter uses, what a thread pool runs, in which order
part names sort, which addresses a masked address stands for, and what five parsers and walkers read out of
bytes and text. Each module states its component's operation as a function on values, proves the operation
in its own form (queue loops, in-place passes, classes with mutable fields, steps of a protocol) against
that function, and then proves what the component is for.

| file | models |
|---|---|
| `RedfishGraph.dfy` | a Redfish service as a finite, possibly cyclic graph; the downstream search |
| `TopologyV2.dfy` | the version 2 topology builder |
| `TopologyV2Nodes.dfy`, `TopologyV2Links.dfy`, `TopologyV2Attachments.dfy` | which resources become nodes, which a run reaches, and what each hangs on |
| `Devpaths.dfy` | the devpath lookups on the topologies it builds |
| `TopologyV1.dfy` | the multi-pass devpath assignment of the version 1 topology |
| `StubArbiter.dfy` | the failover arbiter: one call, and any interleaving of calls |
| `ThreadPool.dfy` | the queue, the workers and the shutdown signals |
| `NaturalSort.dfy`, `Decimal.dfy` | the natural order of strings; decimal numerals and `SimpleAtoi` |
| `Bits.dfy`, `MaskedAddress.dfy` | words of any width; masked addresses, their iterator, address ranges |
| `Smbios.dfy` | SMBIOS structure tables (DMTF DSP0134, sections 6.1.2 and 6.1.3) |
| `JsonPtr.dfy`, `Rfc6901.dfy` | `HandleJsonPtr`; RFC 6901, sections 3 and 4, and where the two agree |
| `SixBitAscii.dfy` | 6-bit packed ASCII (IPMI FRU Information Storage Definition v1.0 rev 1.2, section 13) |
| `Paths.dfy` | joining and splitting file paths |
| `PciCapabilities.dfy` | the PCI capability list walk |
| `Wrappers.dfy` | options, results, and counting in sequences |

Where the code does less than it is meant to, the code is kept and the exact condition is proved:

* A devpath of the version 2 topology leads to its first URI and back exactly when that URI is no seed (the
  root chassis or the Google service root), or the devpath is the one the seed takes first. That is `/phys`
  for the root chassis. For the Google service root it is `/phys` when it has no part location, and
  otherwise the devpath it gets as a child of the root node, because it is queued right behind the root
  chassis. Seeds are never marked visited, so a link back to one places it a second time:
  `Devpaths.LinkBackToRootBreaksRoundTrip` and `Devpaths.LinkBackToGoogleRootBreaksRoundTrip` build the
  failing topologies.
* `NaturalSortCmp` converts a difference of lengths to `int`. It agrees with the intended comparison exactly
  when no two digit runs of equal value, behind a common front, differ in length by more than an `int`
  holds; two runs of zeros whose lengths differ by 2^32 compare equal.
* The comments on `HandleJsonPtr` say that it implements RFC 6901. It reads array indices with `SimpleAtoi`
  into an `int`, so an element from index 2^31 on cannot be reached, and it accepts what the RFC does not:
  indices with leading zeros, a sign or white space, text before the first slash, and a stray tilde in a
  token that has some valid escape. `Rfc6901` has a lemma for each of these, and
  `Rfc6901.TreatedAsRfcIffConforming` says exactly which pointers the code treats as the RFC does, in every
  JSON value: a well-formed pointer of which no token is an index beyond an `int`, or passes for an index to
  `SimpleAtoi` alone; or a malformed one that has no slash, or behind its first slash a token with a tilde and
  no valid escape.
* `StubArbiter::Manual` asked for the label kUnknown can leave a stub active under the label kUnknown.

## Model

| member | source | states |
|---|---|---|
| RedfishGraph.FindAllDownstreamsUris | ecclesia/lib/redfish/topology_v2.cc:131-214 | the recursive search with its shared visited set ends on every graph and returns the objects and marks of the specification function, in order |
| RedfishGraph.Service.FindMarksWhatIsReachable | ecclesia/lib/redfish/topology_v2.cc:194-212 | the search marks exactly the URIs that some walk along skip links reaches without touching a URI marked before the call |
| RedfishGraph.Service.FindReturnsDirectObjects | ecclesia/lib/redfish/topology_v2.cc:146-212 | an object is returned exactly when a configured property of the resource, or of a skipped resource the call marked, leads to it: an element or member of an array attribute or array link, a member of a collection, a singular attribute or link that is not null |
| RedfishGraph.Service.DirectMeaning | ecclesia/lib/redfish/topology_v2.cc:146-192 | which objects the five classes of configured properties lead to, attributes and links told apart |
| RedfishGraph.Service.SkippedMeaning | ecclesia/lib/redfish/topology_v2.cc:194-196 | which objects are skipped: those iterated over at the configured skip links |
| RedfishGraph.Service.FindInOrder | ecclesia/lib/redfish/topology_v2.cc:146-212 | the objects come class by class, name by name and in the order of each property, and then those behind the skip links |
| RedfishGraph.Service.FindThroughSplits | ecclesia/lib/redfish/topology_v2.cc:196-212 | what lies behind earlier skip links comes before what lies behind later ones |
| TopologyV2.CreateTopologyFromRedfishV2 | ecclesia/lib/redfish/topology_v2.cc:396-626 | the queue loop ends on every service, cycles included, and leaves the maps and nodes the step-by-step specification reaches |
| TopologyV2.PlaceResource | ecclesia/lib/redfish/topology_v2.cc:448-595 | one resource becomes the root, a URI of its parent's node, a new child, or nothing, and nothing else changes |
| TopologyV2.MakeChild | ecclesia/lib/redfish/topology_v2.cc:497-582 | a located resource gets a node exactly when it is present, named, of a known location type and labelled unless embedded; the node's name, model, type, devpath and replaceability are as the resource's fields have them |
| TopologyV2Nodes.BuildDepictsResources | ecclesia/lib/redfish/topology_v2.cc:448-595 | every node of a topology shows the resource of its first URI: the root chassis at /phys, or a located resource below its parent, with the name, model, type, devpath and replaceability of its fields; the URIs behind the first are of resources without a location |
| TopologyV2Nodes.BuildPlacesResources | ecclesia/lib/redfish/topology_v2.cc:488-582 | a resource taken from the queue has a node made from it exactly when its fields call for one, and is associated with a node exactly when it has no location; an absent or unusable located one is in no node |
| TopologyV2Nodes.BuildListsResources | ecclesia/lib/redfish/topology_v2.cc:448-595 | how often each resource is listed: as often as it was taken from the queue, or never for an unusable located one but the root chassis |
| TopologyV2Attachments.BuildFollowsLinks | ecclesia/lib/redfish/topology_v2.cc:597-622 | a node hangs on one listing a resource that leads to its own, directly, through skipped resources or by a cable, or on the root for the Google service root; a resource without a location is listed behind one that leads to it |
| TopologyV2Attachments.ExpandInOrder | ecclesia/lib/redfish/topology_v2.cc:597-622 | a placed resource queues below its node what the search returned and then its cables, in their order, each unvisited resource once |
| TopologyV2.NodeTopology.Push | ecclesia/lib/redfish/topology_v2.cc:589-594 | a new node is appended and indexed under its URI and devpath |
| TopologyV2.NodeTopology.Attach | ecclesia/lib/redfish/topology_v2.cc:589-594 | a new child is entered in both the parent and the child map |
| TopologyV2.NodeTopology.AssociateWith | ecclesia/lib/redfish/topology_v2.cc:489-495 | a resource without a location is listed in its parent's node and the node under its URI |
| TopologyV2.EnqueueDownstream | ecclesia/lib/redfish/topology_v2.cc:597-622 | downstream objects, then cables, are queued once each and marked visited |
| TopologyV2.StepDecreases | ecclesia/lib/redfish/topology_v2.cc:396-402 | each turn lowers: unvisited resources plus queue length plus parentless items |
| TopologyV2.StepKeepsInvariant | ecclesia/lib/redfish/topology_v2.cc:400-623 | each turn keeps the tree shape, the inverse child map, both indices with their multiplicities, and the balance of marks, queue entries and dequeues of each resource |
| TopologyV2.BuildIsIndexedTree | ecclesia/lib/redfish/topology_v2.cc:396-625 | every topology built is a single-parent tree rooted at the first node: parents created first, child devpaths strictly extending their parent's, embedded devices never replaceable, child map the exact inverse, each devpath mapped to the newest node that has it, the URI index exact |
| TopologyV2.BuildDequeuesOnce | ecclesia/lib/redfish/topology_v2.cc:477-487 | how often each resource is dequeued, exactly: once for being marked visited, unless a search went through it, and once for each way it is a seed; so every other resource at most once, and the loop takes at most two more turns than there are resources |
| TopologyV2Links.BuildVisitsWhatIsFollowed | ecclesia/lib/redfish/topology_v2.cc:597-622 | a resource is marked visited exactly when a link, attribute or cable of a placed resource, or a link or attribute of one a search went through, leads to it |
| TopologyV2Links.BuildIsComplete | ecclesia/lib/redfish/topology_v2.cc:597-608 | links and attributes of the root chassis, and of every visited resource with no location or a usable one, lead only to visited resources |
| TopologyV2Links.BuildPlacesVisited | ecclesia/lib/redfish/topology_v2.cc:488-594 | such a resource belongs to some node, unless a search went through it |
| TopologyV2Links.BuildVisitsOnlyReachable | ecclesia/lib/redfish/topology_v2.cc:400-623 | everything visited is in every set that holds the seeds and is closed under links, attributes and cables |
| Devpaths.GetReplaceableDevpathForDevpathAndNodeTopology | ecclesia/lib/redfish/devpath.cc:236-269 | the upward search, which has no visited set, ends on such trees and answers exactly the mapped devpaths, with the nearest replaceable ancestor-or-self |
| Devpaths.ReplaceableForBuilt | ecclesia/lib/redfish/devpath.cc:247-268 | so on every topology built from any graph it succeeds for every devpath in the map, with a prefix of it |
| Devpaths.RootDevpathLeadsToChassis | ecclesia/lib/redfish/devpath.cc:62-71 | /phys leads to the URI of the root chassis |
| Devpaths.DevpathLeadsToItsPart | ecclesia/lib/redfish/devpath.cc:62-71 | a devpath leads somewhere exactly when a node has it; any but /phys to the located resource the newest such node was made from |
| Devpaths.UriLeadsToItsNode | ecclesia/lib/redfish/devpath.cc:45-60 | a URI leads somewhere exactly when a node lists it, and then to the devpath of such a node |
| Devpaths.SeedLeadsTo | ecclesia/lib/redfish/topology_v2.cc:472-487 | a seed that is in the topology leads to the devpath it takes first: /phys for the root chassis, and for the Google service root /phys or its devpath as a child of the root node |
| Devpaths.RoundTripExactly | ecclesia/lib/redfish/devpath.cc:45-71 | a mapped devpath leads to its first URI and back exactly when that URI is no seed, or the devpath is the one that seed takes first |
| Devpaths.NoLinkBackRoundTrips | ecclesia/lib/redfish/devpath.cc:45-71 | when no resource of the service leads to a seed by link, attribute or cable, and the seeds differ, every mapped devpath leads to its first URI and back |
| Devpaths.LinkBackToRootBreaksRoundTrip | ecclesia/lib/redfish/topology_v2.cc:472-476 | a root chassis with a link to itself gives a devpath that does not lead back |
| Devpaths.LinkBackToGoogleRootBreaksRoundTrip | ecclesia/lib/redfish/topology_v2.cc:477-487 | so does a located Google service root that a board links to once more |
| TopologyV1.GenerateDevpaths | ecclesia/lib/redfish/topology.cc:206-277 | the passes end; what they processed is the least set with all roots that is closed under attachment; each component of a processed assembly has the path its chain spells as sequence, and as devpath that path with the suffix of its type and its name; all else is untouched |
| TopologyV1.Pass | ecclesia/lib/redfish/topology.cc:252-275 | a pass over the list that processes nothing leaves nothing to process |
| TopologyV1.UpstreamSequence | ecclesia/lib/redfish/topology.cc:255-266 | an assembly is ready exactly when it is a root or its first upstream id is mapped, and the sequence read is the one along its chain |
| TopologyV1.GenerateDevpathsForComponents | ecclesia/lib/redfish/topology.cc:206-229 | every component keeps name, id and type and gets the sequence, and as devpath the sequence, with :connector: or :device: and its name behind it for those types |
| TopologyV1.DevpathReadsBack | ecclesia/lib/redfish/topology.cc:213-227 | path, kind of suffix and name can be read back from a devpath whose path has no colon |
| TopologyV1.PathSpellsChain | ecclesia/lib/redfish/topology.cc:254-266 | a path is /phys and one more name behind a slash for each attachment, the last that of the component the assembly hangs on |
| TopologyV1.OnlyFirstIdCounts | ecclesia/lib/redfish/topology.cc:255-266 | upstream ids behind the first change nothing |
| TopologyV1.AssignedIsThePath | ecclesia/lib/redfish/topology.cc:255-271 | with unique ids the path assigned is the one and only path of the attachment chain |
| TopologyV1.PathIsUnique | ecclesia/lib/redfish/topology.cc:255-266 | with unique ids an attachment chain spells one path |
| TopologyV1.MembersHavePaths | ecclesia/lib/redfish/topology.cc:246-277 | an assembly is in the least closed set exactly when some attachment chain of it reaches a root |
| TopologyV1.RootlessGetNoPath | ecclesia/lib/redfish/topology.cc:256-262 | assemblies on or below an attachment cycle are not processed and have no path |
| TopologyV1.LeftOutIsRootless | ecclesia/lib/redfish/topology.cc:243-246 | what is left unprocessed is the greatest such set |
| TopologyV1.OrderDoesNotMatter | ecclesia/lib/redfish/topology.cc:247-252 | which assemblies are processed does not depend on the order of the list |
| TopologyV1.PathInAnyOrder | ecclesia/lib/redfish/topology.cc:255-266 | the paths an attachment chain spells do not depend on the order of the list |
| TopologyV1.ResultInAnyOrder | ecclesia/lib/redfish/topology.cc:234-277 | with unique ids, processing a list in two orders leaves the same assemblies with the same paths in those orders |
| StubArbiter.EveryInterleaving | ecclesia/lib/stubarbiter/arbiter.h:234-308 | in every run at mutex granularity: the stub is null exactly when its label is unknown; every stub is installed at most once, by the constructor or after func returned on it OK or a code that does not fail over, and every such stub is; a stub found failing on the sticky path is never active after that call's compare-and-clear |
| StubArbiter.EveryEntry | ecclesia/lib/stubarbiter/arbiter.h:234-247 | in every run, a call starts on the stub installed last exactly when that is still active and the clock reads before its installation time plus refresh, or it is the primary one; otherwise it starts with its initial label |
| StubArbiter.EveryCall | ecclesia/lib/stubarbiter/arbiter.h:202-312 | in every run, each call runs func at most once per label, a sticky stub first and then in label order from the initial one, and goes on only behind a failover code; its overall status is that of the last endpoint touched, a failover code there means every label from the initial one was tried, and a secondary stub ran sticky only inside its refresh window |
| StubArbiter.ClearSparesNewerStubs | ecclesia/lib/stubarbiter/arbiter.h:262-269 | the compare-and-clear never removes a stub installed after the one the call ran on |
| StubArbiter.StepKeepsCall | ecclesia/lib/stubarbiter/arbiter.h:248-310 | each step of a call, under any interference, keeps what is known of its attempts |
| StubArbiter.NextKeepsInvariant | ecclesia/lib/stubarbiter/arbiter.h:234-308 | every step of every interleaving keeps the whole invariant |
| StubArbiter.Arbiter.Failover | ecclesia/lib/stubarbiter/arbiter.h:202-312 | the method on the object's fields starts on the active stub exactly when that is primary or fresh; its record is what factory, func and clock did, in label order; it leaves a new stub that settled the call installed, a failing sticky stub dropped, and all else as it was |
| StubArbiter.Arbiter.TryEndpoint | ecclesia/lib/stubarbiter/arbiter.h:281-309 | one turn of the label loop |
| StubArbiter.Arbiter.constructor | ecclesia/lib/stubarbiter/arbiter.h:153-160 | the primary stub is installed if the factory makes it, otherwise none is |
| StubArbiter.Arbiter.ManualAcquire | ecclesia/lib/stubarbiter/arbiter.h:170-189 | Manual switches the active stub to the asked label, or leaves none and returns the factory's error |
| StubArbiter.ManualKeepsNullIffUnknown | ecclesia/lib/stubarbiter/arbiter.h:172-186 | exactly when Manual keeps the stub null iff its label is unknown |
| ThreadPool.EveryRun | ecclesia/lib/thread/thread_pool.h:47-92 | in every run, popped then queued is the push history; each popped work item has run or is running exactly once; after shutdown queued signals plus exited workers are one per worker; once all have exited, everything pushed before the shutdown has run exactly once |
| ThreadPool.AllTasksRanOnce | ecclesia/lib/thread/thread_pool.h:47-57 | when the joins return, everything enqueued before the destructor's critical section has run exactly once |
| ThreadPool.SignalsConserved | ecclesia/lib/thread/thread_pool.h:50-52 | queued shutdown signals plus exited workers equal the number of workers |
| ThreadPool.NextKeepsInvariant | ecclesia/lib/thread/thread_pool.h:67-92 | every critical section keeps the invariant |
| ThreadPool.StepUsesWork | ecclesia/lib/thread/thread_pool.h:78-92 | after shutdown every worker step uses up the remaining work, and nothing enqueued behind the signals adds to it |
| ThreadPool.NeverStuck | ecclesia/lib/thread/thread_pool.h:82-83 | until all workers have exited one of them can take a step |
| ThreadPool.ShutdownIsBounded | ecclesia/lib/thread/thread_pool.h:54-56 | in every run the workers take a bounded number of steps after shutdown |
| NaturalSort.NaturalSortCmp | ecclesia/lib/strings/natural_sort.cc:29-79 | the loops compute the comparison defined on suffixes, and fail the CHECK where it does |
| NaturalSort.CompareIsTotalOrder | ecclesia/lib/strings/natural_sort.cc:29-79 | a total order on strings whose digit runs and length fit an int: zero only for identical strings, swapping flips the sign, less-than is transitive |
| NaturalSort.NumbersDecide | ecclesia/lib/strings/natural_sort.cc:32-59 | behind any common front, the first differing number decides what is returned: by value and then by leading zeros, whatever follows |
| NaturalSort.CharsDecide | ecclesia/lib/strings/natural_sort.cc:60-63 | behind any common front, characters of which one is no digit decide by their codes |
| NaturalSort.FrontComesFirst | ecclesia/lib/strings/natural_sort.cc:70-78 | a string comes before those that continue it |
| NaturalSort.HugeRunFails | ecclesia/lib/strings/natural_sort.cc:42-48 | two runs that meet fail the CHECK when one of them is beyond an int |
| NaturalSort.IdealZeroIffEqual | ecclesia/lib/strings/natural_sort.cc:50-59 | without the conversion to int, zero is returned only for identical strings of any length |
| NaturalSort.IdealFlips | ecclesia/lib/strings/natural_sort.cc:50-66 | without it, swapping the strings negates the result |
| NaturalSort.IdealTransitive | ecclesia/lib/strings/natural_sort.cc:31-78 | without it, less-than is transitive across runs, leading zeros and mixed positions |
| NaturalSort.CompareIsIdealIffItFits | ecclesia/lib/strings/natural_sort.cc:52-55 | the conversion is harmless exactly when the result fits an int; zero is returned exactly for multiples of 2^32 |
| NaturalSort.CompareIsIdealIffNoClash | ecclesia/lib/strings/natural_sort.cc:50-55 | the conversion is harmless exactly when no two runs of equal value, behind a common front, differ in length by more than an int holds |
| NaturalSort.LongZerosCompareEqual | ecclesia/lib/strings/natural_sort.cc:52-55 | two different strings that compare equal |
| Decimal.NumberInjective | ecclesia/lib/strings/natural_sort.cc:50-59 | equal value and equal length make digit runs equal |
| Decimal.AtoiReadsNumerals | ecclesia/lib/redfish/json_ptr.cc:56 | white space, an optional sign, digits and white space are read as the integer they stand for, if an int holds it |
| Decimal.AtoiReadsOnlyNumerals | ecclesia/lib/redfish/json_ptr.cc:56 | nothing else is read |
| MaskedAddresses.Enumerate | ecclesia/lib/codec/bits.h:115-149 | iterating from begin to end gives every matching address exactly once, increasing, from first to last, two to the number of zero mask bits of them |
| MaskedAddresses.Iterator.Increment | ecclesia/lib/codec/bits.cc:25-34 | the increment keeps the masked bits, adds one to the number the free bits spell, and ends on wrap-around |
| MaskedAddresses.NextCountsUp | ecclesia/lib/codec/bits.cc:26-29 | the carry-propagation expression counts up in the free bits, at any width |
| MaskedAddresses.RankOrder | ecclesia/lib/codec/bits.h:115-116 | among addresses that match, numeric order is the order of the free bits |
| MaskedAddresses.FirstAndLastBound | ecclesia/lib/codec/bits.h:146-147 | first and last are the least and the greatest matching address |
| MaskedAddresses.ContiguousIsInterval | ecclesia/lib/codec/bits.h:138-140 | a contiguous masked address stands for every address from first to last |
| MaskedAddresses.ContiguousMeaning | ecclesia/lib/codec/bits.h:138-140 | true exactly when the free bits are the low bits, fewer than all |
| MaskedAddresses.ContiguousIffInterval | ecclesia/lib/codec/bits.h:138-140 | for a mask that is not zero, true exactly when every address from first to last matches |
| MaskedAddresses.CoversMaskMeaning | ecclesia/lib/codec/bits.cc:70-72 | CoversMask iff all matching addresses lie in the range |
| MaskedAddresses.OverlapsMask | ecclesia/lib/codec/bits.cc:74-97 | true iff some matching address lies in the range, through every shortcut and the enumeration |
| MaskedAddresses.AnyInRange | ecclesia/lib/codec/bits.cc:94-96 | the slow enumeration finds an address in the range iff there is one |
| Bits.ExtractBitsMeaning | ecclesia/lib/codec/bits.h:66-101 | bit i of the extract is bit lo + i of the value inside the range and the word, zero otherwise |
| Bits.BitwiseMeaning | ecclesia/lib/codec/bits.h:140-147 | the word operators act on each bit |
| Smbios.BuildEntries | ecclesia/lib/smbios/reader.cc:118-139 | the loop ends on arbitrary bytes and returns the parse of each structure in turn |
| Smbios.ExtractSmbiosStructure | ecclesia/lib/smbios/reader.cc:90-116 | a structure reaches to the first double NUL behind its formatted area, if there is one |
| Smbios.MakeEntry | ecclesia/lib/smbios/internal.h:46-57 | given only the bytes of the structure the string scan never leaves them, and finds the formatted area and the strings |
| Smbios.StructuresTile | ecclesia/lib/smbios/reader.cc:124-138 | the structures tile a prefix of the table without gap or overlap, up to where extraction fails |
| Smbios.StringsTileFront | ecclesia/lib/smbios/internal.h:46-57 | on any structure the strings found, each with its NUL, are the front of its unformed section, up to a NUL in place of a string |
| Smbios.EntriesFromStructures | ecclesia/lib/smbios/reader.cc:128-137 | entry i is the parse of structure i |
| Smbios.SerializeRoundTrip | ecclesia/lib/smbios/reader.cc:118-139 | reading the bytes of any list of well-formed structures returns exactly that list |
| Smbios.StringNumbersRoundTrip | ecclesia/lib/smbios/internal.h:76-83 | number k finds the k-th string, every other number an empty one |
| JsonPtr.HandleJsonPtr | ecclesia/lib/redfish/json_ptr.cc:32-83 | the token loop computes the walk down from the value |
| JsonPtr.PointerSelects | ecclesia/lib/redfish/json_ptr.cc:32-83 | printing a valid path and resolving it returns the selected sub-value exactly when every index fits an int, the error value otherwise |
| JsonPtr.ReplaceInvertsEscape | ecclesia/lib/redfish/json_ptr.cc:45-50 | the single-pass replacement inverts the escaping of section 3 of RFC 6901 |
| JsonPtr.SplitPointer | ecclesia/lib/redfish/json_ptr.cc:36-38 | splitting a printed pointer gives its tokens behind one empty text |
| JsonPtr.LargeIndexIsLost | ecclesia/lib/redfish/json_ptr.cc:55-61 | an array element at index 2^31 is not found |
| Rfc6901.TreatedAsRfcIffConforming | ecclesia/lib/redfish/json_ptr.cc:31-83 | in every JSON value the pointer is treated as sections 3 and 4 of RFC 6901 say, if and only if a check of the pointer alone holds |
| Rfc6901.RfcSelects | ecclesia/lib/redfish/json_ptr.h:25-28 | by the RFC, the pointer printed for a valid path names what the path selects, whatever its indices |
| Rfc6901.DecodeIsReplace | ecclesia/lib/redfish/json_ptr.cc:47 | replacing both escapes in one pass is replacing ~1 and then ~0, as section 4 has it, for every text |
| Rfc6901.LeadingZeroIsTaken | ecclesia/lib/redfish/json_ptr.cc:56-57 | an index with a leading zero is taken, where the RFC has an error |
| Rfc6901.SignIsTaken | ecclesia/lib/redfish/json_ptr.cc:56-57 | so is one with a plus sign |
| Rfc6901.WhiteSpaceIsTaken | ecclesia/lib/redfish/json_ptr.cc:56-57 | and one with white space around it |
| Rfc6901.FrontTextIsSkipped | ecclesia/lib/redfish/json_ptr.cc:37-43 | text before the first slash is skipped, where the RFC has an error |
| Rfc6901.StrayTildeIsKept | ecclesia/lib/redfish/json_ptr.cc:45-50 | a tilde that starts no escape is kept in a token with some valid escape, where the RFC has an error |
| Rfc6901.LargeIndexIsNotFound | ecclesia/lib/redfish/json_ptr.cc:55-61 | an element at any index beyond an int is not found, where the RFC finds it |
| SixBitAscii.ParseSixBitAscii | ecclesia/lib/codec/text.cc:59-85 | n bytes give floor(4n/3) characters, the i-th being 0x20 plus bits 6i to 6i+5 of the little-endian bit stream |
| SixBitAscii.RoundTrip | ecclesia/lib/codec/text.cc:59-85 | parsing a packed text returns it, with one trailing space when its length is 3 modulo 4 |
| Paths.JoinFilePaths | ecclesia/lib/file/path.cc:65-107 | the result is the normal form of the paths walked in turn: no double slash, no trailing slash but the root's |
| Paths.SqueezeInPlace | ecclesia/lib/file/path.cc:91-101 | the in-place pass leaves one slash for each run of slashes |
| Paths.RenderIsTrimmedSqueeze | ecclesia/lib/file/path.cc:91-106 | squeezing and trimming a string writes out the names it means |
| Paths.NestedJoinsFlatten | ecclesia/lib/file/path.cc:65-107 | joining a joined list in the middle of a list is joining the whole list |
| Paths.JoinOfTwo | ecclesia/lib/file/path.cc:65-107 | two paths in normal form, the second relative, are joined by one slash |
| Paths.AbsoluteOverrides | ecclesia/lib/file/path.cc:66-73 | an absolute path overrides every path before it |
| Paths.EmptyAddsNothing | ecclesia/lib/file/path.cc:75-88 | empty paths add nothing |
| Paths.NormalIsKept | ecclesia/lib/file/path.cc:91-106 | a path in normal form is left alone |
| Paths.DirnameBasenameMeaning | ecclesia/lib/file/path.cc:28-63 | the base name is the last name of a path; the directory is the front of it with all other names, absolute where the path is, without a trailing slash but the root's |
| Paths.DirnameBasenameRejoin | ecclesia/lib/file/path.cc:28-63 | joining directory and base name of any string gives the string in normal form |
| Paths.GetBasename | ecclesia/lib/file/path.cc:28-41 | the text behind the last slash once trailing slashes are gone; it has no slash |
| Paths.GetDirname | ecclesia/lib/file/path.cc:43-63 | the text up to the last slash, trimmed |
| PciCapabilities.OffsetBits | ecclesia/lib/io/pci/config.cc:40 | the offset is the pointer byte with its two low bits cleared |
| PciCapabilities.ForEachCapability | ecclesia/lib/io/pci/config.cc:229-266 | the walk ends on any bytes; the callback sees a duplicate-free prefix of the chain of at most 48 nodes; which error is returned when |
| PciCapabilities.SucceedsExactlyForFiniteLists | ecclesia/lib/io/pci/config.cc:229-266 | OK iff the masked chain from 0x34 ends after at most 48 readable, accepted capabilities, and then the callback saw exactly that chain |
| PciCapabilities.WalkReadsLayout | ecclesia/lib/io/pci/config.cc:229-266 | the walk succeeds exactly on a list of at most 48 capabilities laid out from byte 0x34 through the second byte of each to a null pointer, and calls back on that list in order |
| PciCapabilities.ListBehindHeaderIsRead | ecclesia/lib/io/pci/config.cc:246-251 | a list laid out from 0x40 on has at most 48 capabilities and is never found too long or circular |
| PciCapabilities.WalkResultUnique | ecclesia/lib/io/pci/config.cc:240-263 | the bytes and the callback determine status and calls |

## Left out

- Files, mmap, sockets, sysfs and the loading of embedded configuration: wrappers around the kernel; the
  models take bytes, texts and graphs as parameters.
- `FindRootChassisUri` and the construction of the cable map: the root chassis and the map from a URI to its
  cables are parameters of a service. The upstream loop ends only if the upstream relation has no cycle.
- Redfish transport, caching and expansion: a service always reads the same, and an object found through a
  link is the resource of its URI.
- Node attributes that decide nothing: supplemental location information, and how a name is converted
  (the converted name is a field of the resource).
- Devpath lookups with a resolver of the caller's own, and the sensor, slot and manager variants: they add
  fallbacks around the same two maps.
- TopologyV1.GenerateDevpaths: components are values inside an array of assemblies, and the id map names them
  by position; two pointers to one component are not modelled. Building the node topology from the
  assemblies afterwards is not part of this model.
- Nodes of the version 2 topology are named by creation index instead of by address.
- The arbiter's start and end times, the exporter and its path strings; the factory returns stubs no other
  call has seen.
- ThreadPool: modelled on values, as a transition system at mutex granularity; construction of the threads, move-only
  functions and memory order are not part of this model.
- NaturalSort: characters compare by code, where C++ may compare plain `char` as signed.
- Smbios: what the message format demands of each structure type beyond its length is a parameter, a predicate on
  the formatted area. Entry points and checksums are not part of this model.
- JsonPtr: strings are sequences of characters without UTF-8 encoding; scalars keep no number type.
- Paths.JoinFilePaths: requires a non-empty list, because the source reads past the end of an empty one.
- Constant tables, name conversions, BCD plus, PCIe speeds and the other register decoders: finite or easy.
