# Node Feature Discovery: a verified model of its core

This project models four parts of Node Feature Discovery (NFD) in Dafny and
proves what they are for.

1. **The protobuf codec of the feature messages** (`Words`, `Wire`, `Messages`,
   `RoundTrip`, `Unmarshal`, `Marshal`, `Merge`). Encoding is done backwards
   into a byte array with sorted keys; decoding walks over arbitrary bytes with
   64-bit index arithmetic that can wrap. The functions `Enc…` and `Dec…` of
   `Messages` say what bytes and values mean; the methods of `Marshal` and
   `Unmarshal` are the loops of the generated code and are proved to compute
   them.
2. **The node reconciler and the update scheduler** (`Names`, `OwnAnnotations`,
   `Patches`, `NodeApi`, `Reconciler`, `NodeRuns`, `ResourceRuns`; `Scheduler`,
   `UpdaterPool`; `NodeFeatures`, `DefaultNs`). An update compares the node with what is
   desired and with the names it recorded in its own annotations, and sends two
   JSON patch lists. The API server is an object that applies a list as a whole,
   as sections 4.1 to 4.3 of RFC 6902 say (with the pointers of section 3 of
   RFC 6901), or fails and changes nothing. Requests reach the updates through
   channels, a batching handler, a work queue and a pool of workers, which are a
   state machine over their steps; the queue follows client-go's contract.
3. **NUMA resource accounting** (`NumaRows`, `NumaDevices`, `NumaCpus`,
   `Aggregator`, `NumaAccounting`, `NumaFigures`, `MemoryAccounting`): rows of allocatable, capacity and available
   figures per NUMA node, decremented in place by what the containers use.
4. **The rule engine and its feedback** (`Expressions`, `Templates`, `Rules`,
   `RuleOrders`, `Feedback`): a boolean language over flags, attributes and instances, and
   the loop that feeds the output of each rule back through a Go map that it
   shares with the first rule's output.

`Basics` and `Ordering` hold the shared vocabulary. Wherever Go iterates over a
map, the order is a nondeterministic choice, and the results are proved for
every order.

## What does not hold, and exactly when it does

The proofs turned up places where the code does less than one may expect. For
each there is a lemma at a concrete case and a lemma with the exact condition.

- *Empty values.* A JSON patch drops an empty value (`omitempty`), and a server
  that follows RFC 6902 to the letter then refuses an add or a replace. For such
  a server an update without faults succeeds if and only if no label or
  annotation with an empty value has to be written
  (`NodeRuns.UpdateSucceedsExactly`, `Patches.PatchListApplies`; the case is
  `NodeRuns.EmptyLabelRefused`). The json-patch library vendored here is more
  lenient: it takes a missing value for null.
- *Extended resources left behind.* They are patched before their names are
  recorded. After an update the record is exact if and only if
  `ResourceRuns.LeavesExact` holds of the update and the state it finds
  (`ResourceRuns.ResourceRecordExact`), and throughout a run if and only if no
  update stops between its two patches while the set of resources changes
  (`ResourceRuns.RecordExactThroughout`). Otherwise a resource can be left
  without a record, by a failing call (`ResourceRuns.ResourceLeftBehind`) or,
  with no failing call at all, by a desired label with an empty value
  (`ResourceRuns.EmptyLabelLeavesResource`), and then stays in the capacity
  through every later run that does not desire it
  (`ResourceRuns.UnrecordedStays`).
- *Updating twice.* The second status patch is empty if and only if every
  resource value is a canonical decimal (`NodeRuns.SecondUpdateIsEmpty`); a
  value of `1k` is written over and over (`NodeRuns.NonCanonicalWrittenAgain`).
- *Pointers.* The JSON pointer formed for a key designates that key if and only
  if the key is not empty, `.` or `..` and has no tilde
  (`Patches.PointerExact`); the key `~1` is taken for a slash
  (`Patches.TildeKeyElsewhere`). Validated keys qualify
  (`Patches.ValidatedPointer`).
- *Concatenation.* Decoding two encodings in a row is `MergeInto` for attribute,
  flag and instance sets, but for whole `Features` only if no set that both
  have loses an element (`Merge.ConcatFeaturesIsMerge`,
  `Merge.ConcatFeaturesLosesElements`).
- *Default namespaces.* `addNsToMapKeys` depends on the map order if and only if
  the keys `""` and `"."` are both there with different values and the bare
  namespace is not (`DefaultNs.OrderMattersExactly`,
  `DefaultNs.OrderMattersExample`). The merged spec of a node depends on it if
  and only if no later object settles the bare namespace
  (`NodeFeatures.MapOrderMattersExactly`).
- *Excluded resources.* The aggregation dereferences a missing row if and only
  if a container uses a known device of an excluded resource
  (`NumaAccounting.ProcessAccounts`, `NumaAccounting.ExcludedDeviceEnds`).
- *Evaluation errors.* The outcome of an expression set depends on the map order
  if and only if one expression fails and another is false
  (`Expressions.OrderMattersExactly`, `Expressions.OrderMattersExample`). A rule
  ends like one of two runs, with failing or with false expressions coming up
  first in every map, and both can happen (`RuleOrders.PossibleExactly`).

## Assumptions

- Messages and buffers have fewer than 2^63 bytes; in messages a nil map and an
  empty one are the same value.
- Keys have passed validation: `IsQualifiedName` is taken to mean its pattern,
  without the length limits. The node's metadata maps are present, every
  resource with a capacity is also allocatable, and a resource added to the
  capacity by a status patch shows up as allocatable.
- For the CPU results NUMA node IDs are positions in the topology list, no
  logical processor is listed twice, allocatable CPU IDs are distinct, and
  no device or memory block is named `cpu` besides the CPUs themselves. Sizes
  fit in 64 bits.
- NodeFeature objects have distinct (namespace, name) pairs.
- The features handed to the rules do not share the map of `rule.matched` with
  another feature.
- `strconv`, `regexp`, `text/template`, `strings.ToLower`, number formatting and
  `resource.Quantity` are function parameters; what is required of them is
  stated where it is used.

## Model

| member | source | states |
|---|---|---|
| Words.OrAdds | pkg/apis/nfd/v1alpha1/generated.pb.go:865-865 | Putting a group of seven bits into a word with a shift and an or, where the word is still empty, adds the group at its weight to the number the word stands for. |
| Words.RoomAbove | pkg/apis/nfd/v1alpha1/generated.pb.go:856-869 | The word stays empty above the group that was put in, so that the next one can follow. |
| Words.Word7Value | pkg/apis/nfd/v1alpha1/generated.pb.go:865-865 | The word of a group stands for the number in its seven bits. |
| Words.ValBound | pkg/apis/nfd/v1alpha1/generated.pb.go:856-869 | A word that is empty from some group on is less than the weight of that group. |
| Wire.PutIsSum | pkg/apis/nfd/v1alpha1/generated.pb.go:865-865 | At each of the ten shifts the or is an addition modulo 2^64, at the last one because all but one bit is lost. |
| Wire.SovIsEncodedLength | pkg/apis/nfd/v1alpha1/generated.pb.go:710-712 | `sovGenerated` is exactly the number of bytes that the varint of any 64-bit value takes. |
| Wire.DecodeVarint | pkg/apis/nfd/v1alpha1/generated.pb.go:856-869 | The shift loop, which puts groups into a 64-bit word with a bitwise or and exits on overflow and end of input, computes the little-endian base-128 value modulo 2^64 and stops right behind it, on every byte sequence. |
| Wire.VarintInverse | pkg/apis/nfd/v1alpha1/generated.pb.go:587-596 | Reading what `encodeVarintGenerated` writes gives back every 64-bit value and the index behind it. |
| Wire.DecodeSpan | pkg/apis/nfd/v1alpha1/generated.pb.go:883-907 | A length prefix is accepted only if the payload it announces lies inside the buffer, although the sum of index and length may wrap around. |
| Wire.SpanInverse | pkg/apis/nfd/v1alpha1/generated.pb.go:883-907 | A length-delimited payload is found again at exactly its bytes. |
| Wire.SkipFrom | pkg/apis/nfd/v1alpha1/generated.pb.go:1954-2031 | Skipping always advances and the index it returns is positive and fits in an int. |
| Wire.SkipField | pkg/apis/nfd/v1alpha1/generated.pb.go:1954-2031 | The skip loop terminates on every input, with the group depth and all error exits, and computes the recursive meaning of skipping one field. |
| Wire.SkipsField | pkg/apis/nfd/v1alpha1/generated.pb.go:1954-2031 | Skipping passes over exactly one well-formed field of any wire type, with groups nested to any depth. |
| Messages.NextField | pkg/apis/nfd/v1alpha1/generated.pb.go:854-907 | One outer iteration of a decoder ends in an error, in a known field whose payload lies inside the buffer, or strictly further on. |
| Messages.SkipWithin | pkg/apis/nfd/v1alpha1/generated.pb.go:1006-1019 | An unknown field is passed over only if it ends within the limit, and then the index strictly advances. |
| Messages.EntryInverse | pkg/apis/nfd/v1alpha1/generated.pb.go:911-1005 | The map entry loop returns the key and value that were encoded, whatever they contain and whatever the loop variables held before. |
| Messages.MapPrefix | pkg/apis/nfd/v1alpha1/generated.pb.go:853-1020 | Decoding a run of encoded entries continues behind it with those entries laid over the map so far, the last one winning. |
| RoundTrip.AttributesInvert | pkg/apis/nfd/v1alpha1/generated.pb.go:850-1026 | Decoding the encoding of any attribute set returns it. |
| RoundTrip.FlagsInvert | pkg/apis/nfd/v1alpha1/generated.pb.go:1464-1642 | Decoding the encoding of any flag set returns it, through the nested empty message. |
| RoundTrip.InstanceInverts | pkg/apis/nfd/v1alpha1/generated.pb.go:1643-1819 | Decoding the encoding of any instance returns it. |
| RoundTrip.InstancesInvert | pkg/apis/nfd/v1alpha1/generated.pb.go:1820-1903 | Decoding the encoding of any instance set returns the instances in order. |
| RoundTrip.FeaturesOnto | pkg/apis/nfd/v1alpha1/generated.pb.go:1027-1463 | Decoding encoded features inside a longer buffer replaces the sets of the receiver that they contain and continues behind them. |
| RoundTrip.FeaturesRoundTrip | pkg/apis/nfd/v1alpha1/generated.pb.go:318-426 | Unmarshalling the marshalled bytes of any features value gives the same flags, attributes and instances back, through all three levels of nesting. |
| RoundTrip.EncodingInjective | pkg/apis/nfd/v1alpha1/generated.pb.go:333-426 | No two features values share an encoding. |
| RoundTrip.UnknownField | pkg/apis/nfd/v1alpha1/generated.pb.go:1006-1019 | A field with a number beyond those of the message is passed over exactly, whatever its wire type. |
| RoundTrip.UnknownFieldIgnored | pkg/apis/nfd/v1alpha1/generated.pb.go:1443-1456 | An unknown field between known ones changes nothing in the decoded features. |
| RoundTrip.UnknownFieldIgnoredInMap | pkg/apis/nfd/v1alpha1/generated.pb.go:1006-1019 | The same for the map-valued messages. |
| RoundTrip.VarintBytes | pkg/apis/nfd/v1alpha1/generated.pb.go:587-596 | Bytes of small and larger numbers, lowest group first. |
| RoundTrip.FeatureSetBytes | pkg/apis/nfd/v1alpha1/generated.pb.go:333-426 | Flag, attribute and instance sets are fields 1, 2 and 3 of Features, each entry with its key as field 1 and its set as field 2. |
| RoundTrip.ElementBytes | pkg/apis/nfd/v1alpha1/generated.pb.go:286-316 | The elements of a set are its field 1, a flag having an empty message as its value. |
| RoundTrip.KindsInOrder | pkg/apis/nfd/v1alpha1/generated.pb.go:333-426 | Flags are written first, then attributes, then instances. |
| RoundTrip.LeastKeyFirst | pkg/apis/nfd/v1alpha1/generated.pb.go:290-296 | The entry with the least key comes first, for every map. |
| RoundTrip.VarintRefused | pkg/apis/nfd/v1alpha1/generated.pb.go:856-869 | A number is refused if and only if it goes on for ten bytes or up to the end of the data, each with its own error. |
| RoundTrip.TagsRefused | pkg/apis/nfd/v1alpha1/generated.pb.go:870-882 | An end of a group, field number 0, a known field that is no message and an unknown wire type are refused, each with its own error. |
| RoundTrip.LengthsRefused | pkg/apis/nfd/v1alpha1/generated.pb.go:898-907 | A length is refused if and only if it is negative as an int, makes the index wrap around, or runs past the end. |
| Merge.MergeSetsInto | pkg/apis/nfd/v1alpha1/feature.go:113-144 | The merge loop gives, in every iteration order, each set of the source merged into the one of the target, and leaves the others alone. |
| Merge.MergeFeaturesInto | pkg/apis/nfd/v1alpha1/feature.go:113-144 | All three kinds of feature sets are merged. |
| Merge.FeatureSets.MergeOne | pkg/apis/nfd/v1alpha1/feature.go:118-122 | One key of a merge in place: an existing set is updated, a missing one is made anew. |
| Merge.FeatureSets.MergeFrom | pkg/apis/nfd/v1alpha1/feature.go:113-144 | Merging in place gives the merged sets, leaves the source as it was, and source and target share nothing afterwards. |
| Merge.ConcatAttributes | pkg/apis/nfd/v1alpha1/feature.go:157-164 | Decoding the concatenation of two encoded attribute sets is merging the second into the first. |
| Merge.ConcatFlags | pkg/apis/nfd/v1alpha1/feature.go:147-154 | The same for flag sets. |
| Merge.ConcatInstances | pkg/apis/nfd/v1alpha1/feature.go:167-176 | The same for instance sets, where merging appends. |
| Merge.ConcatFeatures | pkg/apis/nfd/v1alpha1/generated.pb.go:1027-1463 | For whole features a set of the second value replaces the one of the first. |
| Merge.ConcatFeaturesIsMerge | pkg/apis/nfd/v1alpha1/feature.go:113-144 | That equals merging if and only if every set that both have is contained in the second one, and has no instances in the first. |
| Merge.ConcatFeaturesLosesElements | pkg/apis/nfd/v1alpha1/generated.pb.go:1027-1463 | A concrete pair of features values whose concatenation is decoded without a flag that merging keeps. |
| Unmarshal.SkipAt | pkg/apis/nfd/v1alpha1/generated.pb.go:1006-1019 | The default branch of a decoder, with its wrap-around and limit checks. |
| Unmarshal.FindField | pkg/apis/nfd/v1alpha1/generated.pb.go:854-907 | The head of a decoder's outer loop, with the checks of tag and wire type. |
| Unmarshal.UnmarshalEntry | pkg/apis/nfd/v1alpha1/generated.pb.go:911-1005 | The inner loop terminates on all bytes and never reads outside the buffer, although its index may run past the end of the entry. |
| Unmarshal.MapMessage.Unmarshal | pkg/apis/nfd/v1alpha1/generated.pb.go:850-1026 | The decoder of the map-valued messages terminates on all bytes, stays inside the buffer and computes their meaning on top of the receiver; each outer iteration advances even if the entry loop overran. On an error the receiver keeps the entries before it. |
| Unmarshal.InstancesMessage.Unmarshal | pkg/apis/nfd/v1alpha1/generated.pb.go:1820-1903 | The same for instance sets; on an error the failing instance stays in the receiver as far as it was decoded. |
| Unmarshal.UnmarshalNil | pkg/apis/nfd/v1alpha1/generated.pb.go:1904-1953 | The same for the empty message. |
| Unmarshal.FeaturesMessage.Unmarshal | pkg/apis/nfd/v1alpha1/generated.pb.go:1027-1463 | The same for features, onto any receiver, which keeps the sets before an error. |
| Unmarshal.ErrorKeepsPrefix | pkg/apis/nfd/v1alpha1/generated.pb.go:850-1026 | An encoded map with undecodable bytes behind it fails and leaves the whole map, laid over what was there, in the receiver. |
| Marshal.PutVarint | pkg/apis/nfd/v1alpha1/generated.pb.go:587-596 | Writes the varint directly in front of the offset and changes no other byte. |
| Marshal.PutEntryHeader | pkg/apis/nfd/v1alpha1/generated.pb.go:296-313 | Writes value length, key, lengths and tags of a map entry in front of its value, backwards, and changes no other byte. |
| Marshal.MarshalStrings | pkg/apis/nfd/v1alpha1/generated.pb.go:286-316 | Fills exactly the bytes of the encoded map before the end and leaves the rest of the buffer alone. |
| Marshal.MarshalAttributes | pkg/apis/nfd/v1alpha1/generated.pb.go:286-316 | The same for an attribute set. |
| Marshal.MarshalFlags | pkg/apis/nfd/v1alpha1/generated.pb.go:443-478 | The same for a flag set. |
| Marshal.MarshalInstance | pkg/apis/nfd/v1alpha1/generated.pb.go:495-525 | The same for an instance. |
| Marshal.MarshalInstances | pkg/apis/nfd/v1alpha1/generated.pb.go:542-562 | The same for an instance set, last instance first. |
| Marshal.MarshalFlagSets | pkg/apis/nfd/v1alpha1/generated.pb.go:396-424 | The same for the flags of features. |
| Marshal.MarshalAttributeSets | pkg/apis/nfd/v1alpha1/generated.pb.go:367-395 | The same for the attributes of features. |
| Marshal.MarshalInstanceSets | pkg/apis/nfd/v1alpha1/generated.pb.go:338-366 | The same for the instances of features. |
| Marshal.MarshalFeatures | pkg/apis/nfd/v1alpha1/generated.pb.go:333-426 | Fills exactly the last bytes before the end with the encoding, for any buffer that is large enough, and never goes below index 0. |
| Marshal.StringsSize | pkg/apis/nfd/v1alpha1/generated.pb.go:598-613 | The sum over the entries in map order is the length of the encoding over sorted keys. |
| Marshal.FlagsSize | pkg/apis/nfd/v1alpha1/generated.pb.go:651-667 | The same for a flag set. |
| Marshal.InstancesSize | pkg/apis/nfd/v1alpha1/generated.pb.go:686-699 | The same for an instance set. |
| Marshal.FeaturesSize | pkg/apis/nfd/v1alpha1/generated.pb.go:615-649 | The same for features. |
| Marshal.MarshalWhole | pkg/apis/nfd/v1alpha1/generated.pb.go:318-326 | A buffer of the computed size is filled without a gap. |
| Names.SplitNs | pkg/apis/nfd/validate/validate.go:249-255 | The namespace is what precedes the first slash, and empty without one. |
| Names.ValidatedKeysTrackable | pkg/apis/nfd/validate/validate.go:96-122 | Keys accepted for labels, annotations and extended resources have the shape that tracking relies on. |
| Names.AcceptedKeys | pkg/apis/nfd/validate/validate.go:96-122 | A prefixed key is accepted if and only if its namespace is not Kubernetes' own, or lies below the feature or, for labels, the profile namespace; unprefixed keys are refused. |
| Names.TrackedNameInverse | pkg/nfd-master/nfd-master.go:1282-1287 | Adding the default namespace undoes stripping it, and no tracked name is empty or holds a comma. |
| Names.TrackedNameIsShort | pkg/nfd-master/nfd-master.go:1041-1041 | A key in the default namespace is recorded by the part behind the slash, any other as it is. |
| Names.TrackedList | pkg/nfd-master/nfd-master.go:1037-1045 | The annotation is the comma-separated list of exactly those names, in ascending order. |
| Names.StringsCompared | pkg/nfd-master/nfd-master.go:1043-1043 | Strings are ordered by their first different character, a proper prefix coming first. |
| Names.TrackingFaithful | pkg/nfd-master/nfd-master.go:1301-1311 | Reading a tracking annotation returns exactly the recorded set of validated keys, each once; it is empty only for the empty set. |
| Names.TrackingInjective | pkg/nfd-master/nfd-master.go:1037-1045 | Two key sets with the same annotation are equal. |
| Names.TrackingValue | pkg/nfd-master/nfd-master.go:1037-1045 | The loop over the map, the sorting and the joining give the annotation in every iteration order. |
| OwnAnnotations.OwnNsReserved | pkg/nfd-master/nfd-master.go:1329-1334 | The namespace of an instance's own annotations is a Kubernetes one and no feature namespace, for every valid instance name. |
| OwnAnnotations.OwnNamesDistinct | pkg/nfd-master/nfd-master.go:1075-1081 | The five fixed annotation names are distinct, and no key accepted for a feature annotation is one of them. |
| OwnAnnotations.OwnNamesSpelled | pkg/nfd-master/nfd-master.go:1075-1081 | The five names as they are spelled on a node, with and without an instance name. |
| Patches.PointerExact | pkg/utils/jsonpatch.go:32-34 | The pointer designates the key if and only if the key is not empty or dots and has no tilde. |
| Patches.TildeKeyElsewhere | pkg/utils/jsonpatch.go:32-34 | The pointer formed for the key `~1` designates the key `/`. |
| Patches.ValidatedPointer | pkg/utils/jsonpatch.go:32-34 | It does so for validated keys. |
| Patches.PathsSpelled | pkg/utils/jsonpatch.go:32-34 | The paths of labels, annotations, capacity and allocatable, with the slash of the key escaped. |
| Patches.CreatePatches | pkg/nfd-master/nfd-master.go:1114-1138 | The two loops give the removals of tracked keys that are present and unwanted, then one write for each changed item, in some order. |
| Patches.PatchListApplies | pkg/nfd-master/nfd-master.go:1114-1138 | In every order the list applies if and only if no key is removed twice and no empty value is written, and then yields the old items without the removed keys, overlaid with the new. |
| Patches.PatchListEmpty | pkg/nfd-master/nfd-master.go:1114-1138 | The list is empty if and only if nothing is to be removed or written. |
| NodeApi.JsonFaithful | pkg/utils/jsonpatch.go:32-34 | For validated keys, applying the JSON form by its pointers is applying the operations to the sections they are meant for. |
| NodeApi.SectionWise | pkg/nfd-master/nfd-master.go:1071-1082 | A patch list succeeds if and only if its operations on each section do, and the result is that of each section. |
| NodeApi.ApiServer.Patch | pkg/nfd-master/nfd-master.go:1416-1425 | A patch list is applied as a whole or the node stays as it is. |
| Reconciler.CreateExtendedResourcePatches | pkg/nfd-master/nfd-master.go:1142-1175 | Tracked resources that are present and unwanted are removed from capacity and allocatable; missing ones are added to the capacity, and those whose integer is written differently are replaced in both. |
| Reconciler.ResourcesToRemove | pkg/nfd-master/nfd-master.go:1148-1157 | The first loop: tracked resources that are present and unwanted are removed from both sections. |
| Reconciler.StatusListApplies | pkg/nfd-master/nfd-master.go:1142-1175 | The status patch list always applies and yields the resources without the removed ones, overlaid with the changed. |
| Reconciler.AnnotationRemovalsDistinct | pkg/nfd-master/nfd-master.go:1073-1081 | Tracked annotation names and the five fixed names together contain no name twice. |
| Reconciler.NodeListApplies | pkg/nfd-master/nfd-master.go:1071-1082 | The combined label and annotation list applies if and only if no empty value is written, and yields (old without tracked) overlaid with desired for both. |
| Reconciler.BuildAnnotations | pkg/nfd-master/nfd-master.go:1034-1069 | The annotations to write are the feature annotations and one record for each non-empty kind. |
| Reconciler.PatchNode | pkg/nfd-master/nfd-master.go:1416-1429 | An empty list makes no call; otherwise the node changes only if the call succeeds. |
| Reconciler.StatusChanges | pkg/nfd-master/nfd-master.go:1085-1086 | The status list is empty if and only if no resource is to be changed, and it applies. |
| Reconciler.NodeChanges | pkg/nfd-master/nfd-master.go:1071-1082 | The node list is empty if and only if no label or annotation is to be changed, and it has the same effect on the node as it is after the status patch. |
| Reconciler.UpdateNodeObject | pkg/nfd-master/nfd-master.go:1027-1102 | The node and the outcome after an update are the specified ones, for every combination of failing calls. |
| NodeRuns.UpdateAtomic | pkg/nfd-master/nfd-master.go:1084-1095 | An update that fails leaves all labels and annotations as they were. |
| NodeRuns.RunKeeps | pkg/nfd-master/nfd-master.go:1027-1102 | Over every run of updates, failures and foreign label writes, the records on the node name what the last success wrote. |
| NodeRuns.TrackedLabelsExact | pkg/nfd-master/nfd-master.go:1071-1074 | After any run on a fresh node the tracking annotation lists exactly the labels of the last successful update, each once; those nobody else wrote since are there with their values; and a label that only NFD writes is on the node if and only if it is listed. |
| NodeRuns.UnrecordedLabelsGone | pkg/nfd-master/nfd-master.go:1114-1138 | Over every run a label that only NFD writes is on the node only as long as it is recorded. |
| NodeRuns.TrackedAnnotationsExact | pkg/nfd-master/nfd-master.go:1059-1081 | The same for feature annotations: listed exactly, on the node with their values, and no other feature key that was not there before is. |
| NodeRuns.RecordsSpelled | pkg/nfd-master/nfd-master.go:1037-1068 | After any run on a fresh node each of the three records, under its spelled name, lists the short names of its keys in ascending order. |
| NodeRuns.UnrecordedAnnotationsGone | pkg/nfd-master/nfd-master.go:1114-1138 | Over every run a feature annotation of NFD is on the node only as long as it is recorded. |
| NodeRuns.DroppedLabelsGone | pkg/nfd-master/nfd-master.go:1114-1138 | After a success every label dropped from the desired set is gone, every desired one is there, and all others keep their value. |
| NodeRuns.AnnotationsAfterUpdate | pkg/nfd-master/nfd-master.go:1073-1082 | After a success desired annotations are there, recorded ones that are not desired and the version annotations are gone, and all others keep their value. |
| NodeRuns.UpdateSucceedsExactly | pkg/utils/jsonpatch.go:24-29 | Without faults an update succeeds if and only if no empty label or annotation value has to be written. |
| NodeRuns.EmptyLabelRefused | pkg/utils/jsonpatch.go:24-29 | A desired label with an empty value that is not on the node makes an update fail although no call does. |
| NodeRuns.NeverDesiredUntouched | pkg/nfd-master/nfd-master.go:1114-1138 | A label that no update of a run desires looks at the end as if NFD had not been there. |
| NodeRuns.SecondUpdateIsEmpty | pkg/nfd-master/nfd-master.go:1097-1102 | The same update a second time has nothing to patch in labels and annotations, and nothing in the status if and only if all resource values are canonical decimals. |
| NodeRuns.NonCanonicalWrittenAgain | pkg/nfd-master/nfd-master.go:1164-1168 | A resource of `1k` is written by an update and is due again right after it. |
| ResourceRuns.ResourceRecordExact | pkg/nfd-master/nfd-master.go:1084-1095 | After an update the extended-resources annotation names exactly what NFD has put on the node and not removed, if and only if a condition on the update and the state before it holds, with one case each for ending early, stopping between the patches, and completing. |
| ResourceRuns.OutcomeExactly | pkg/nfd-master/nfd-master.go:1084-1095 | An update ends early if and only if the read or a needed status patch fails, and between its patches if and only if a needed node patch fails or an empty value would have to be written. |
| ResourceRuns.RecordExactThroughout | pkg/nfd-master/nfd-master.go:1084-1095 | On a fresh node the annotation is exact throughout a run if and only if no update of it stops between its two patches while the set of resources changes. |
| ResourceRuns.ResourceRecordInRuns | pkg/nfd-master/nfd-master.go:1048-1056 | After any run on a fresh node the annotation names the resources of the last successful update, each once, and all that NFD has put on the node is in its capacity. |
| ResourceRuns.ResourcesAfterUpdate | pkg/nfd-master/nfd-master.go:1142-1175 | Once the status patch has been applied, desired resources are in the capacity, recorded ones that are not desired are gone, and all others are as before. |
| ResourceRuns.AllocatableAfterUpdate | pkg/nfd-master/nfd-master.go:1142-1175 | Allocatable follows the capacity: gone with it, rewritten with it, present for every desired resource, and otherwise as before. |
| ResourceRuns.LiveOnNode | pkg/nfd-master/nfd-master.go:1084-1089 | Over every run, what NFD put on the node and has not removed is in the capacity. |
| ResourceRuns.UnrecordedStays | pkg/nfd-master/nfd-master.go:1142-1158 | A resource that no record names keeps its place and value through every run that does not desire it. |
| ResourceRuns.ResourceLeftBehind | pkg/nfd-master/nfd-master.go:1084-1095 | A run of two updates after which a resource is in the capacity and no record names it. |
| ResourceRuns.EmptyLabelLeavesResource | pkg/nfd-master/nfd-master.go:1084-1095 | The same happens with no failing call at all, if a desired label has an empty value. |
| Scheduler.StepKeeps | pkg/nfd-master/node-updater-pool.go:43-70 | Every step of senders, handler, queue and workers keeps the scheduling invariant. |
| Scheduler.RunKeeps | pkg/nfd-master/nfd-master.go:424-455 | Every run keeps the scheduling invariant. |
| Scheduler.NoRequestLost | pkg/nfd-master/nfd-master.go:424-455 | In every run a request is in the one-slot channel, pending in the handler, in its batch, queued, in progress or waiting to be retried until it is processed, given up, or absent from a node listing. |
| Scheduler.OneWorkerPerNode | pkg/nfd-master/node-updater-pool.go:43-70 | In every run two busy workers hold different nodes. |
| Scheduler.AtMostFifteenRequeues | pkg/nfd-master/node-updater-pool.go:52-66 | In every run no node has been requeued more than fifteen times since it was last forgotten. |
| Scheduler.GivenUpStep | pkg/nfd-master/node-updater-pool.go:52-62 | A request is given up only by a failed update of its node at a count of exactly 15. |
| Scheduler.GivenUpAfterFifteen | pkg/nfd-master/node-updater-pool.go:52-62 | The same in every run from the start of a pool. |
| Scheduler.Advance | pkg/nfd-master/node-updater-pool.go:43-70 | A pending request always has an enabled step that brings it closer to its end. |
| Scheduler.CanBeResolved | pkg/nfd-master/nfd-master.go:424-455 | From every state that satisfies the invariant there is a run, without failures, that resolves a pending request. |
| Scheduler.EveryRunCanResolve | pkg/nfd-master/nfd-api-controller.go:129-154 | The same after every run from the start of a pool with at least one worker. |
| UpdaterPool.ProcessNodeUpdateRequest | pkg/nfd-master/node-updater-pool.go:43-64 | One pass of a worker, taken by itself, is exactly the run take, update, decide, requeue or forget, done. A failed pass below 15 requeues leaves the node waiting with its count one higher; a failed one at 15 and a successful one leave the count at 0. |
| UpdaterPool.RateLimit | pkg/nfd-master/nfd-master.go:436-453 | The rate limit branch is a legal run that empties the pending sets, except that a failed listing leaves an update of all nodes pending. |
| UpdaterPool.AddAll | pkg/nfd-master/nfd-master.go:704-717 | Adding the listed nodes one by one hands the whole batch to the queue. |
| UpdaterPool.PassInterleaved | pkg/nfd-master/node-updater-pool.go:43-64 | In every run, whatever other workers, the handler and senders do in between, the steps of a busy worker are those of its pass, in order. |
| UpdaterPool.OthersLeaveWorker | pkg/nfd-master/node-updater-pool.go:43-64 | A step of anybody else leaves a busy worker and the requeue count of its node alone. |
| UpdaterPool.BatchInterleaved | pkg/nfd-master/nfd-master.go:436-453 | In every run, whatever workers do in between, the handler adds its whole batch and then starts afresh. |
| NodeFeatures.ComparatorTotal | pkg/nfd-master/nfd-master.go:731-745 | The comparator is a strict total order on (namespace, name) pairs. |
| NodeFeatures.SortObjects | pkg/nfd-master/nfd-master.go:731-745 | The objects are the same and in ascending order. |
| NodeFeatures.OneOrder | pkg/nfd-master/nfd-master.go:731-745 | Two lists of the same objects sort to the same list. |
| NodeFeatures.MergeObjects | pkg/nfd-master/nfd-master.go:753-770 | Copying the first object and merging the others is merging the sorted list, with the labels of each object as some map order gives them. |
| NodeFeatures.ListerOrderIrrelevant | pkg/nfd-master/nfd-master.go:731-770 | Every order in which the lister returns the objects gives the same sorted list, and the same merged spec unless the bare namespace is left open. |
| NodeFeatures.MergedTwice | pkg/nfd-master/nfd-master.go:753-770 | Two merges of the same objects agree on all features and on all labels but the bare namespace. |
| NodeFeatures.MapOrderMattersExactly | pkg/nfd-master/nfd-master.go:753-770 | Two map orders can give different specs if and only if default namespaces are on, some object has clashing labels, and no later object has the bare namespace. |
| NodeFeatures.LabelOfLast | pkg/apis/nfd/v1alpha1/feature.go:100-108 | A contested label takes the value of the last object that has it. |
| NodeFeatures.AttributeOfLast | pkg/apis/nfd/v1alpha1/feature.go:157-164 | A contested attribute takes the value of the last object that has it. |
| NodeFeatures.PlaceByIdentity | pkg/nfd-master/nfd-master.go:731-745 | An object comes after exactly those inside NFD's namespace if it is outside, else those with a lesser name, else a lesser namespace. |
| NodeFeatures.LabelOfWinner | pkg/nfd-master/nfd-master.go:731-770 | A contested label takes the value of the object that beats all others with that label in this sense. |
| NodeFeatures.AttributeOfWinner | pkg/nfd-master/nfd-master.go:731-770 | The same for a contested attribute. |
| NodeFeatures.InstancesKept | pkg/apis/nfd/v1alpha1/feature.go:167-176 | Instances of all objects are kept, in the order of the objects. |
| DefaultNs.AddNsToMapKeys | pkg/nfd-master/nfd-master.go:1266-1280 | The loop gives the result of visiting the keys in some order, each once. |
| DefaultNs.InOrderContents | pkg/nfd-master/nfd-master.go:1262-1280 | The result has exactly the full names of the keys that are kept, each with the value of such a key; a prefixed key takes precedence. |
| DefaultNs.OrderMattersExactly | pkg/nfd-master/nfd-master.go:1266-1280 | Two orders can give different results if and only if the empty key and the dot clash. |
| DefaultNs.OrderMattersExample | pkg/nfd-master/nfd-master.go:1266-1280 | A map with two iteration orders and two results. |
| DefaultNs.NamedTwice | pkg/nfd-master/nfd-master.go:1266-1280 | Two results for one map have the same keys and differ at most in the value of the bare namespace. |
| DefaultNs.NamesSpelled | pkg/nfd-master/nfd-master.go:1266-1280 | A plain key gets the namespace and a slash in front, a prefixed one stays. |
| DefaultNs.NamedContents | pkg/nfd-master/nfd-master.go:1266-1280 | The result has exactly the full names of the used keys, each with the value of such a key. |
| DefaultNs.NamedValue | pkg/nfd-master/nfd-master.go:1266-1280 | Every used key keeps its value under its full name, unless that is ambiguous. |
| NumaRows.DrainFrame | pkg/resourcemonitor/noderesourcesaggregator.go:427-461 | Draining changes only available figures of the one resource, downwards and never below zero. |
| NumaRows.DrainComposes | pkg/resourcemonitor/noderesourcesaggregator.go:427-461 | Two requests on one node list leave the same availability as one request of the summed size, whatever the list contains. |
| NumaRows.DrainAmount | pkg/resourcemonitor/noderesourcesaggregator.go:427-465 | Exactly the minimum of the request and of the total on the distinct reachable nodes is taken, from those nodes only. |
| NumaRows.DrainInOrder | pkg/resourcemonitor/noderesourcesaggregator.go:427-461 | Nodes are emptied in list order: a node is drawn on only if those before it are left with nothing. |
| NumaDevices.MakeNodeAllocatable | pkg/resourcemonitor/noderesourcesaggregator.go:271-312 | The table has exactly the pairs of node and resource that devices or memory blocks mention, each with the sum of their shares. |
| NumaDevices.MakeResourceMap | pkg/resourcemonitor/noderesourcesaggregator.go:328-345 | A device is mapped to the last node of the last entry that lists it. |
| NumaDevices.IdsWithinAllocatable | pkg/resourcemonitor/noderesourcesaggregator.go:271-285 | A node has no more distinct device IDs than its allocatable amount says, even for devices listed on several nodes. |
| NumaDevices.MappedIds | pkg/resourcemonitor/noderesourcesaggregator.go:328-345 | A known device is among the IDs of the node it is mapped to, and that node has the resource. |
| NumaCpus.MakeCoreMap | pkg/resourcemonitor/noderesourcesaggregator.go:314-324 | The three nested loops map each logical processor to the last node that lists it. |
| NumaCpus.CoreMapExact | pkg/resourcemonitor/noderesourcesaggregator.go:314-324 | If no processor is listed twice, a CPU is mapped to a node if and only if that node has it. |
| NumaCpus.GroupCpus | pkg/resourcemonitor/noderesourcesaggregator.go:211-222 | Allocatable CPUs are grouped by node, in order, and unknown ones are dropped. |
| NumaCpus.AllocatableDevices | pkg/resourcemonitor/noderesourcesaggregator.go:205-237 | The devices are followed by one CPU device for each node with allocatable CPUs, in some order. |
| NumaCpus.GetCPUs | pkg/resourcemonitor/noderesourcesaggregator.go:396-406 | The IDs of all CPU devices are collected, each with the first node of the last device that lists it; the loop panics if and only if a CPU device lists IDs but no NUMA node. |
| NumaCpus.MakeReservedCPUMap | pkg/resourcemonitor/noderesourcesaggregator.go:373-393 | The reserved CPUs of a node ID are the processors of all topology nodes with that ID that no CPU device names; it panics with the above. |
| NumaCpus.ProcsAt | pkg/resourcemonitor/noderesourcesaggregator.go:373-393 | If IDs are list positions, those are the processors of the one node at that position. |
| NumaCpus.CpusConserved | pkg/resourcemonitor/noderesourcesaggregator.go:205-237 | Allocatable and reserved CPUs of a node together are as many as its logical processors. |
| Aggregator.NewData | pkg/resourcemonitor/noderesourcesaggregator.go:93-103 | All tables are derived from one and the same device list; it panics if and only if a given CPU device lists IDs but no NUMA node. |
| Aggregator.InitialRow | pkg/resourcemonitor/noderesourcesaggregator.go:108-156 | A node gets a full row for each allocatable resource that is not excluded, with its capacity by kind, and a cpu row of reserved CPUs if nothing is allocatable on it, in every map order. |
| Aggregator.Zones.constructor | pkg/resourcemonitor/noderesourcesaggregator.go:107-157 | The table starts with such rows for every node of the topology. |
| Aggregator.Zones.UpdateMemoryAvailable | pkg/resourcemonitor/noderesourcesaggregator.go:410-466 | The loop with all its early exits drains the request from the listed nodes, as MemoryAccounting.MemoryUseTakes describes. |
| Aggregator.Zones.UpdateAvailable | pkg/resourcemonitor/noderesourcesaggregator.go:241-261 | Each known device in use takes one from the row of its node; a missing row ends the run. |
| Aggregator.Aggregate | pkg/resourcemonitor/noderesourcesaggregator.go:106-169 | The three nested loops process all uses of all containers of all pods in order; NumaFigures.RowsExactly, NumaAccounting.DevicesAccounted and MemoryAccounting.MemoryBalance say what the table then holds. |
| NumaAccounting.DeviceRows | pkg/resourcemonitor/noderesourcesaggregator.go:108-156 | A known device has a row on its node if and only if its resource is not excluded. |
| NumaAccounting.ProcessAccounts | pkg/resourcemonitor/noderesourcesaggregator.go:241-261 | The aggregation dereferences a missing row if and only if a known device of an excluded resource is used; otherwise each device row has lost one per use and no allocatable amount or capacity has changed. |
| NumaAccounting.ExcludedDeviceEnds | pkg/resourcemonitor/noderesourcesaggregator.go:241-261 | One use of one excluded device ends the aggregation; the tables are those built from a list with that device. |
| NumaAccounting.DevicesAccounted | pkg/resourcemonitor/noderesourcesaggregator.go:106-169 | If no known device is used twice and none is excluded, the run completes, and available is allocatable less the IDs in use on that node, between 0 and allocatable. |
| NumaAccounting.CpuCapacity | pkg/resourcemonitor/noderesourcesaggregator.go:117-155 | Every reported cpu row has the number of logical processors of its node as capacity, in both branches and after all uses. |
| NumaAccounting.MemoryStaysInRange | pkg/resourcemonitor/noderesourcesaggregator.go:410-466 | Available memory stays between 0 and allocatable for all requests that are not negative. |
| MemoryAccounting.ReachableExactly | pkg/resourcemonitor/noderesourcesaggregator.go:427-440 | A node is drawn on only if it is listed, has the resource, and no known node before it lacks it. |
| MemoryAccounting.MemoryUseTakes | pkg/resourcemonitor/noderesourcesaggregator.go:410-466 | One use of memory takes the minimum of its request and of what the reachable listed nodes have, from them in list order, and leaves all other figures alone. |
| MemoryAccounting.MemoryUseIgnored | pkg/resourcemonitor/noderesourcesaggregator.go:411-425 | A use without nodes or without one readable size changes nothing. |
| MemoryAccounting.MemoryBalance | pkg/resourcemonitor/noderesourcesaggregator.go:106-169 | Over a whole aggregation the available memory of all nodes together is the allocatable total less what the requests took. |
| NumaFigures.RowsExactly | pkg/resourcemonitor/noderesourcesaggregator.go:108-157 | Exactly the listed resources that are not excluded have rows, or cpu alone where nothing is listed; allocatable is what devices and blocks add up to, and capacity adds reserved CPUs or is the known memory of the node. |
| NumaFigures.CpuAllocatable | pkg/resourcemonitor/noderesourcesaggregator.go:205-237 | The allocatable amount of cpu is the number of allocatable CPUs among the processors of the node. |
| NumaFigures.UsesExactly | pkg/resourcemonitor/noderesourcesaggregator.go:158-168 | The uses that count are those of known devices by any container, except of memory. |
| NumaFigures.LastEntryWins | pkg/resourcemonitor/noderesourcesaggregator.go:328-345 | A device is on the last node of the last entry that lists it. |
| NumaFigures.NeverPlaced | pkg/resourcemonitor/noderesourcesaggregator.go:328-345 | A device that no entry with nodes lists is unknown. |
| Expressions.AcceptedErrors | source/custom/api/expression.go:50-96 | An accepted expression fails if and only if its operator compares numbers and the input exists and is not an integer. |
| Expressions.ValidateExact | pkg/apis/nfd/v1alpha1/nodefeaturerule/expression.go:47-160 | Validation accepts exactly the expressions that evaluate on an integer input, on any one of them; OperatorMeanings says with what verdict. |
| Expressions.AcceptedOnMissing | pkg/apis/nfd/v1alpha1/nodefeaturerule/expression.go:52-68 | On a missing input an accepted expression never fails, and only the always-true operator and DoesNotExist hold. |
| Expressions.OperatorMeanings | pkg/apis/nfd/v1alpha1/nodefeaturerule/expression.go:70-157 | Which existing inputs satisfy an accepted expression, for each operator. |
| Expressions.OperatorLaws | pkg/apis/nfd/v1alpha1/nodefeaturerule/expression.go:70-157 | NotIn is the negation of In, a range is two comparisons, and the truth operators are equality with a text. |
| Expressions.RefusedExpressions | source/custom/api/expression.go:50-96 | What validation refuses for each operator, and evaluation on an existing input with it. |
| Expressions.KeyMeanings | pkg/apis/nfd/v1alpha1/nodefeaturerule/expression.go:163-186 | On a flag the three existence operators mean what they mean on an attribute, and all others fail. |
| Expressions.EvaluateMatchExpression | pkg/apis/nfd/v1alpha1/nodefeaturerule/expression.go:47-160 | The function as written, with its loops over the values, computes the verdict. |
| Expressions.MatchAll | pkg/apis/nfd/v1alpha1/nodefeaturerule/expression.go:299-342 | The loop ends as its walk along some order of the names does: at the first expression that fails or is false, or with the sorted elements of all. |
| Expressions.OutcomeExactly | pkg/apis/nfd/v1alpha1/nodefeaturerule/expression.go:299-342 | A match is possible if and only if all expressions hold, a mismatch if and only if one is false, an error if and only if one fails: each is reached by some order. |
| Expressions.OrderMattersExactly | pkg/apis/nfd/v1alpha1/nodefeaturerule/expression.go:299-342 | Two orders give different outcomes if and only if one expression fails and another is false. |
| Expressions.OrderMattersExample | pkg/apis/nfd/v1alpha1/nodefeaturerule/expression.go:326-342 | A set of two expressions of which one order ends in an error and the other in a mismatch. |
| Expressions.MatchGetKeys | pkg/apis/nfd/v1alpha1/nodefeaturerule/expression.go:299-315 | The possible outcomes for flags, of which only existence can be asked. |
| Expressions.MatchGetValues | pkg/apis/nfd/v1alpha1/nodefeaturerule/expression.go:326-342 | The possible outcomes for attributes, from the verdicts that OperatorMeanings describes. |
| Expressions.OrderIndependent | pkg/apis/nfd/v1alpha1/nodefeaturerule/expression.go:299-342 | Without evaluation errors the outcome does not depend on the order of the map. |
| Expressions.MatchSome | pkg/apis/nfd/v1alpha1/nodefeaturerule/expression.go:206-270 | Matching names gives, in every order, the sorted elements whose name matches, and an error if and only if one name fails. |
| Expressions.MatchKeyNames | pkg/apis/nfd/v1alpha1/nodefeaturerule/expression.go:206-239 | This for flags. |
| Expressions.MatchValueNames | pkg/apis/nfd/v1alpha1/nodefeaturerule/expression.go:242-270 | This for attributes. |
| Expressions.MatchGetInstances | pkg/apis/nfd/v1alpha1/nodefeaturerule/expression.go:356-367 | The instances that satisfy the whole set, in order, if each can be evaluated without error in some order; an error only if one can fail. |
| Expressions.MatchInstanceAttributeNames | pkg/apis/nfd/v1alpha1/nodefeaturerule/expression.go:274-285 | The instances with a matching attribute name, in order; an error if and only if a name fails. |
| Templates.Cut | pkg/apis/nfd/v1alpha1/nodefeaturerule/rule.go:260-264 | Splits at the first separator, and only if there is one. |
| Templates.ExpandMap | pkg/apis/nfd/v1alpha1/nodefeaturerule/rule.go:249-268 | The loop over the lines reads the pairs, skips blank lines and stops at the first line without a value. |
| Templates.ExpandRefuses | pkg/apis/nfd/v1alpha1/nodefeaturerule/rule.go:257-266 | The expansion is refused if and only if some line is neither blank nor a pair. |
| Templates.ExpandRoundTrip | pkg/apis/nfd/v1alpha1/nodefeaturerule/rule.go:249-268 | Pairs written one to a line are read back, the last of each key. |
| Templates.TrimExactly | pkg/apis/nfd/v1alpha1/nodefeaturerule/rule.go:259-259 | Trimming takes away blanks at both ends, and all of them. |
| Templates.BlanksIgnored | pkg/apis/nfd/v1alpha1/nodefeaturerule/rule.go:257-265 | A written pair with blanks around it is read as the same pair, and a line of blanks as none. |
| Rules.AcceptedTermPasses | pkg/apis/nfd/v1alpha1/nodefeaturerule/expression.go:163-204 | A term of accepted expressions that compare no numbers, and on flags ask only for existence, never fails in any order. |
| Rules.EvalSet | pkg/apis/nfd/v1alpha1/nodefeaturerule/rule.go:182-204 | The expression set of a term matches if and only if it holds as declared, unless it fails; it fails only if some order brings up an error, and does not only if some order avoids one. |
| Rules.EvalName | pkg/apis/nfd/v1alpha1/nodefeaturerule/rule.go:186-211 | The name expression of a term fails, matches with its elements or mismatches as declared, in every order. |
| Rules.EvalTerm | pkg/apis/nfd/v1alpha1/nodefeaturerule/rule.go:179-221 | A term matches if and only if it holds, with the declared elements, unless it fails; failing and not failing each have the condition under which some order brings them about. |
| Rules.EvalMatcher | pkg/apis/nfd/v1alpha1/nodefeaturerule/rule.go:159-224 | The same for all terms of a matcher up to the first that does not hold, with the elements filed by domain and name. |
| Rules.EvalAny | pkg/apis/nfd/v1alpha1/nodefeaturerule/rule.go:49-78 | The same for the matchAny elements that are evaluated, which without templates are those up to the first match; the expansions are those of all elements that hold. |
| Rules.NothingExpanded | pkg/apis/nfd/v1alpha1/nodefeaturerule/rule.go:59-64 | Without templates the elements after the first match would add nothing. |
| Rules.ExecuteTemplate | pkg/apis/nfd/v1alpha1/nodefeaturerule/rule.go:111-151 | The expansion is laid over the output so far; an empty template adds nothing. |
| Rules.Execute | pkg/apis/nfd/v1alpha1/nodefeaturerule/rule.go:45-109 | The outcome is one of the possible ones: the declared output if the rule holds, nothing if it does not, an error; each under its exact condition on the evaluations that the rule comes to. |
| Rules.FirstMatch | pkg/apis/nfd/v1alpha1/nodefeaturerule/rule.go:59-64 | Without templates nothing behind the first match is evaluated or would add anything. |
| Rules.ExecuteTemplates | pkg/apis/nfd/v1alpha1/nodefeaturerule/rule.go:66-71 | Both templates are laid over the output so far, and fail if and only if an expansion does. |
| Rules.Determined | pkg/apis/nfd/v1alpha1/nodefeaturerule/rule.go:45-109 | If no evaluation that the rule comes to has an error, the outcome is determined: some matchAny element and all matchFeatures terms hold, for every map order. |
| Rules.OutputExactly | pkg/apis/nfd/v1alpha1/nodefeaturerule/rule.go:97-106 | Fixed labels and variables override expanded ones, the expansion of matchFeatures overrides those of matchAny, and annotations, resources and taints are those of the rule. |
| Rules.AnyOfLast | pkg/apis/nfd/v1alpha1/nodefeaturerule/rule.go:52-73 | Of several matchAny elements that hold, the last one that expands a name decides. |
| Rules.TermsAddUp | pkg/apis/nfd/v1alpha1/nodefeaturerule/rule.go:173-215 | A template sees the elements of all terms on one feature, one after the other. |
| Rules.PlaceSpelled | pkg/apis/nfd/v1alpha1/nodefeaturerule/rule.go:167-174 | A feature is filed by what is in front of and behind its first dot. |
| Rules.ElementFields | pkg/apis/nfd/v1alpha1/nodefeaturerule/expression.go:206-252 | An element carries its name, and its value if it is an attribute. |
| Rules.KindPrecedence | pkg/apis/nfd/v1alpha1/nodefeaturerule/rule.go:182-214 | Among sets of one name flags hide attributes, and attributes hide instances. |
| Rules.RuleLaws | pkg/apis/nfd/v1alpha1/nodefeaturerule/rule.go:45-95 | matchAny is a disjunction, matchFeatures a conjunction, and a rule needs both. |
| Rules.SetLaws | pkg/apis/nfd/v1alpha1/nodefeaturerule/expression.go:299-367 | An expression set needs each of its expressions; of instances one that satisfies all of them is enough. |
| Rules.NameLaws | pkg/apis/nfd/v1alpha1/nodefeaturerule/expression.go:206-285 | A name expression needs one name that satisfies it. |
| Rules.TermLaws | pkg/apis/nfd/v1alpha1/nodefeaturerule/rule.go:179-215 | A term is the conjunction of its two parts, and the elements of its expressions come first. |
| RuleOrders.InstancesExactly | pkg/apis/nfd/v1alpha1/nodefeaturerule/expression.go:356-367 | With errors or with mismatches first, instance matching fails if and only if some instance fails in that order, and else gives the instances that satisfy the set. |
| RuleOrders.TermExactly | pkg/apis/nfd/v1alpha1/nodefeaturerule/rule.go:179-221 | The same for a term. |
| RuleOrders.MatcherExactly | pkg/apis/nfd/v1alpha1/nodefeaturerule/rule.go:159-224 | The same for a matcher. |
| RuleOrders.RuleExactly | pkg/apis/nfd/v1alpha1/nodefeaturerule/rule.go:45-109 | The same for a rule. |
| RuleOrders.PossibleExactly | pkg/apis/nfd/v1alpha1/nodefeaturerule/rule.go:45-109 | An outcome of a rule is possible if and only if the run with errors first or the run with mismatches first ends with it. |
| RuleOrders.RuleOrderMattersExactly | pkg/apis/nfd/v1alpha1/nodefeaturerule/rule.go:45-109 | Two outcomes are possible if and only if the first of these runs fails and the second does not. |
| Feedback.Features.InsertAttributeFeatures | pkg/apis/nfd/v1alpha1/feature.go:70-81 | The values are laid over the feature; a new feature is the caller's own map, not a copy, and no other feature changes unless it shares that map. It panics if and only if the feature is there with a nil map and the values are not empty. |
| Feedback.ExecuteRule | pkg/apis/nfd/v1alpha1/nodefeaturerule/rule.go:97-108 | The labels and variables of a matching rule are new, distinct maps; of another they are nil. |
| Feedback.FeedBack | pkg/nfd-master/nfd-master.go:1012-1014 | The fed back feature becomes what it was, overlaid with the labels and then the variables, although the first labels map is the feature itself from then on; it panics if and only if its map is nil and one of the two is not empty. |
| Feedback.Contribution | pkg/nfd-master/nfd-master.go:998-1010 | What a rule contributes is its output proper, with default namespaces if configured, kind by kind as Feedback.PublishedFrom and Feedback.PublishedAll describe. |
| Feedback.RunRules | pkg/nfd-master/nfd-master.go:983-1015 | Every rule runs on the original features with exactly the labels and then the variables of the earlier error-free rules fed back; the result is the overlay of their contributions, in maps that no feature shares. It panics if and only if `rule.matched` comes with a nil map, at the first rule with something to feed back. |
| Feedback.PublishedFromLabels | source/custom/custom.go:95-108 | Every published label was a label output of a matching rule, under its full name and with its value. |
| Feedback.PublishedFrom | pkg/nfd-master/nfd-master.go:1000-1010 | Every published label, annotation and extended resource was an output of the same kind of the last rule that gives the name; no variable is published. |
| Feedback.PublishedAll | pkg/nfd-master/nfd-master.go:1000-1010 | Every used output of the last rule that gives its name is published with its value, for all three kinds. |
| Feedback.PublishedTaints | pkg/nfd-master/nfd-master.go:998-998 | The taints are those of all matching rules, one after the other. |
| Feedback.FedValue | pkg/nfd-master/nfd-master.go:1012-1014 | A later rule sees the variable of the last rule that has the name, or else its label. |
| Feedback.FedOtherwise | pkg/nfd-master/nfd-master.go:1012-1014 | What no rule feeds back is as it was at the start. |
| Feedback.FedWhere | pkg/apis/nfd/v1alpha1/feature.go:70-81 | It is seen as the attributes of `rule.matched`, and all other features are as they were. |

## Left out

- text/template, regexp, resource.Quantity parsing, strconv: parameters of the model, of which only the stated properties are used.
- Marshal.MarshalFeatures: the deprecated `String`, `XXX_` and `MarshalTo` wrappers are not modelled.
- Reconciler.UpdateNodeObject: ends before the taints, whose meaning lies in a package outside the repository; the node does not change between being read and being patched.
- NodeRuns.TrackedLabelsExact: others may write labels between updates, but not annotations.
- Patches.ValidatedPointer: the `ExtraLabelNs` setting lets labels through that failed other validation; they are outside the statement.
- UpdaterPool.ProcessNodeUpdateRequest: the method runs by itself; that other steps in between change nothing is stated by UpdaterPool.PassInterleaved about runs.
- UpdaterPool.RateLimit: likewise, with UpdaterPool.BatchInterleaved.
- UpdaterPool.AddAll: likewise, with UpdaterPool.BatchInterleaved.
- Scheduler.NoRequestLost: one lifetime of the pool; a configuration reload, which stops the pool while the handler runs, is not modelled.
- Feedback.RunRules: takes the rules of all NodeFeatureRule objects as one list, in the order of the object names; metrics and logging are not modelled.
- Aggregator.Aggregate: the table is returned as it is; zone names, costs and the conversion to quantities are not modelled, and negative memory requests and 64-bit overflow of sizes are outside the range results.
- Expressions.MatchAll: which of several errors is reported is not captured, and expressions are never nil.
- Filtering of labels, annotations and extended resources by denied namespaces, dynamic values, and pruning: easy next to the reconciler.
- gRPC and TLS servers, leader election, metrics, configuration files, generated clients and listers: I/O around libraries.
- Hardware sources and the local source: reads of files and system calls.
