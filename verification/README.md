# A verified model of the kubedns controllers and zone model

kubedns serves DNS zones described by Kubernetes objects: `HostedZone` objects form trees through
parent references, `CoreDNSEntry` objects place records in zones. This project models the parts of
it that carry state or string surgery and proves what they promise. Where the code departs from its
evident intent, the code is modelled as written; the exact condition under which it still does what
is meant is proved, and, where a property needs it, the intent is modelled beside it.

## The zone model of the REST server

`ZoneModel.dfy` holds the classes `Zone` and `Model` with the loops of `AddZone`, `RemoveZone`,
`ResolveFQDN` and `ResolveIP`. Every method is proved against functions on the state as a value
(`ZoneGraph.dfy`, `ZoneLookup.dfy`), and the properties are proved about those:

* `ZoneGraph.dfy`: a state is a table of known zones and one column per field of the zone objects.
  Parent pointers are coherent in every state (`AddKeeps`, `RemoveKeeps`).
* `ZoneFiling.dfy`: a child is filed with its parent under the parent's own name (model.go:127), and
  a removed zone stays linked (model.go:83-89). With the child's name and the unlinking put in
  (`Filing.Corrected`) the child maps are exact; as written they are exact after a call exactly when
  the call files nothing under a foreign name, and exactly when the removed zone was not filed.
* `ZoneSerials.dfy`: the loop over the ancestors ends exactly when `SafeToAdd` holds before the call,
  which is why `AddZone` requires it; which serial numbers change is then determined. Two zones that
  name each other are the counterexample to termination.
* `ZoneHistory.dfy`: whole runs. The tree depends on the last objects only, not on the order.
* `ZoneInversion.dfy`, `ZoneWalks.dfy`: the descent neither loses nor doubles labels, stays in bounds
  and ends; reverse and forward lookup undo each other.
* `ZoneForest.dfy`: exactly when the recursion of the reverse lookup is bounded, and exactly when it
  reports no zone twice; both hold with exact child maps, and then it reaches every zone it should. As
  written two zones can become children of each other, and a zone can be listed twice.
* `ZoneExamples.dfy`: short runs from the empty model in which the code as written departs from its
  intent.
* `ZoneIndex.dfy`: the index both lookups query, from the stored entries, and which references collide.
* `DomainNames.dfy`, `DomainLabels.dfy`: the string algebra under all of it. `Words`, the non-empty
  labels in lower case, is the abstraction.
* `ZoneSteps.dfy`: the single rounds of the loops in `AddZone` add up to the state functions.
* `Tables.dfy`, `FiniteSets.dfy`: where the elements of concatenated rows stand, and sizes of sets.

## The controllers

* `ParentChain.dfy`, `NameProducts.dfy`, `StatusNames.dfy`: the three walks over parent references
  against one notion of chain, the names multiplied up along it, and that these are the names the
  reverse lookup of the zone model reports.
* `Replication.dfy`: the replication of objects between clusters as a state machine of single
  accesses to the API servers, interleaved with everybody else's changes.
* `DirectZone.dfy`, `ZoneCleanup.dfy`, `Conditions.dfy`: the finalizer of the direct controller, the
  deletion of what it has deployed, and the status of nested zones.
* `Notifications.dfy`: who is told about a change of responsibility.
* `HashFixpoint.dfy`: the passes of `apply_hashes`.

## Assumptions

* The DNS library: `Fqdn`, `IsSubDomain` and `SplitDomainName` are defined here for names without
  backslash escapes, comparing ASCII letters without regard to case (section 2.3.3 of RFC 1035). A
  final dot belongs to the last label, as the library has it.
* Every public method of the zone model holds its lock and is one step. `AddZone` is called with the
  key of the object it is given and the cluster of that key (server/hostedzone/request.go:25,61), and
  a zone is looked up in the cluster of its key.
* References stay in the namespace of the object that holds them.
* Reads see the current state of the API server. Requests for one object are not handled
  concurrently. A deleting object takes no new finalizers and vanishes with the last one.
* `AggregateProblem` is nil exactly when all its parts are. Condition lists have one condition of a
  type.
* Replication: generated names are different for different objects; others create nothing under
  them in the target, leave the controller's finalizer alone and do not change the mark of replicas;
  the name of the source cluster, the value of that mark, is not empty.
* The manifests rendered for deletion are those that were applied, and nobody but the controller
  creates resources under their names.
* `apply_hashes`: what is marshalled is not empty and can be parsed back; an empty file has no
  annotations; annotation values are strings.

## Model

| member | source | states |
|---|---|---|
| DomainNames.RdnStrips | internal/controller/server/zonemodel/util.go:23-28 | a relative name is the name without its trailing dots: what is cut off is dots only |
| DomainNames.RdnUnique | internal/controller/server/zonemodel/util.go:23-28 | no other result meets that description |
| DomainNames.StripDots | internal/controller/server/zonemodel/util.go:23-28 | the loop computes that result |
| DomainNames.FqdnOfRdn | internal/controller/server/zonemodel/model.go:133-137 | qualifying the stored relative name gives the qualified name exactly if the name has at most one trailing dot |
| DomainNames.Join | internal/controller/server/zonemodel/util.go:11-21 | the loop drops trailing empty labels; it never indexes in front of the first label as long as some label is not empty |
| DomainNames.JoinTwo | internal/controller/server/zonemodel/util.go:11-21 | joining a label or relative name with a zone name places it under that name |
| DomainNames.CutKeepsWords | internal/controller/server/zonemodel/model.go:211 | cutting off a matched zone name keeps all other labels, in order |
| DomainNames.CutExact | internal/controller/server/zonemodel/model.go:211 | without empty labels what is cut and what is kept make up the name exactly |
| DomainNames.TailsNest | internal/controller/server/zonemodel/model.go:178-182 | of two zone names that match a query the longer one lies below the shorter one |
| DomainNames.SubDomainIff | internal/controller/server/zonemodel/model.go:178 | a name lies below a zone name exactly if that is "." or the end of the name, from its beginning or behind a dot, up to letters whose codes are 32 apart |
| DomainNames.SubDomainAnyCase | internal/controller/server/zonemodel/model.go:178 | the case of letters matters on neither side |
| DomainLabels.SubDomainByLabels | internal/controller/server/zonemodel/model.go:178 | a name matches a zone name exactly when its labels end with those of the zone, letter case aside |
| ZoneGraph.AddKeeps | internal/controller/server/zonemodel/model.go:90-144 | after adding, a zone whose parent name designates a known zone points to that very object, and no pointer leads elsewhere |
| ZoneGraph.RemoveKeeps | internal/controller/server/zonemodel/model.go:83-89 | removing keeps that |
| ZoneFiling.AddIntendedKeeps | internal/controller/server/zonemodel/model.go:94-128 | filed under the child's own name, the children of every known zone are exactly the known zones whose parent it is, each once |
| ZoneFiling.RemoveIntendedKeeps | internal/controller/server/zonemodel/model.go:83-89 | unlinking the removed zone keeps that |
| ZoneFiling.AddAsWrittenIff | internal/controller/server/zonemodel/model.go:121-130 | as written the child maps stay exact exactly when there is no known parent of another name to file under |
| ZoneFiling.SiblingsCollide | internal/controller/server/zonemodel/model.go:127 | the second of two siblings displaces the first from the children of their parent |
| ZoneFiling.RemoveAsWrittenIff | internal/controller/server/zonemodel/model.go:83-89 | as written the child maps stay exact after a removal exactly when the zone was not known or had no other known parent |
| ZoneSerials.WalkEndsIff | internal/controller/server/zonemodel/model.go:139-142 | the loop over the ancestors ends exactly when the zone named as parent leads to a top without meeting the zone itself or a zone about to be adopted |
| ZoneSerials.AcyclicKept | internal/controller/server/zonemodel/model.go:90-144 | such a call leaves the pointers of all objects, known or removed, without a cycle |
| ZoneSerials.SerialsAfterAdd | internal/controller/server/zonemodel/model.go:108-142 | the zone and all zones on its new parent chain carry the new serial number, every other zone its old one |
| ZoneSerials.AddedZone | internal/controller/server/zonemodel/model.go:119-137 | the zone is known under its key with the names and the parent of the object; all other zones keep theirs |
| ZoneSerials.AddedObject | internal/controller/server/zonemodel/model.go:108-137 | in terms of the object added: its version as serial number, its parent, its names qualified at the top and relative below |
| ZoneGraph.SerialOfVersion | internal/controller/server/zonemodel/model.go:108-112 | a decimal resource version of up to 64 bits, zeros in front or not, becomes the serial number modulo 2^32, a larger one the fallback |
| ZoneGraph.SerialIsVersion | internal/controller/server/zonemodel/model.go:108-112 | no other string becomes anything but the fallback |
| ZoneSerials.OutdatedReferenceCycle | internal/controller/server/zonemodel/model.go:99-142 | two zones naming each other, added one after the other: the second call never ends |
| ZoneHistory.Run | internal/controller/server/zonemodel/model.go:66-144 | every reachable state is coherent, and with the intended filing its child maps are exact |
| ZoneHistory.RunAcyclic | internal/controller/server/zonemodel/model.go:83-144 | if no call of a run went round for ever, the pointers of all objects have no cycle after it |
| ZoneHistory.ParentsFollowRun | internal/controller/server/zonemodel/model.go:83-144 | after any run as written, the known zones, their names and parents are those of the last objects |
| ZoneHistory.TreeFollowsSpecs | internal/controller/server/zonemodel/model.go:83-144 | with the intended filing the whole tree is the one the last objects describe |
| ZoneHistory.HistoryDoesNotMatter | internal/controller/server/zonemodel/model.go:83-144 | two runs that leave the same objects leave the same tree |
| ZoneHistory.OrderDoesNotMatter | internal/controller/server/zonemodel/model.go:83-144 | adding the same zones in any order yields the same tree |
| ZoneHistory.RootNameIff | internal/controller/server/zonemodel/model.go:133-137 | a zone gets the name "." exactly as a root zone with a domain name that is empty or "." |
| ZoneHistory.RunRootless | internal/controller/server/zonemodel/model.go:90-144 | without such objects no zone of that name is nested in any reachable state |
| ZoneModel.Model.RemoveZone | internal/controller/server/zonemodel/model.go:83-89 | the new state is the one of the state function, every object included |
| ZoneModel.Model.Adopt | internal/controller/server/zonemodel/model.go:99-106 | the loop, in any order, turns exactly the parent pointers of the zones waiting for the new one and lists exactly those as its children |
| ZoneModel.Model.Relink | internal/controller/server/zonemodel/model.go:108-137 | leaving the old parent, joining the new one and taking over the data |
| ZoneModel.Model.HandUp | internal/controller/server/zonemodel/model.go:139-142 | the loop ends and hands the serial number to the zones met |
| ZoneModel.Model.AddZone | internal/controller/server/zonemodel/model.go:90-144 | the new state is the one of the state function; a new object is created exactly if the key was not known |
| ZoneModel.Zone.Matches | internal/controller/server/zonemodel/model.go:175-186 | the loop finds the first of the longest matching names |
| ZoneLookup.Longest | internal/controller/server/zonemodel/model.go:175-186 | the result matches and no longer name does, or nothing matches |
| ZoneLookup.LongestIsFirst | internal/controller/server/zonemodel/model.go:180-182 | of several longest names the first is taken |
| ZoneLookup.LongestAnyCase | internal/controller/server/zonemodel/model.go:175-186 | queries that differ in the case of letters only are matched alike |
| ZoneModel.Zone.Nested | internal/controller/server/zonemodel/model.go:214-221 | a nested zone that matches, if there is one, whatever the order of the map |
| ZoneModel.Zone.Descend | internal/controller/server/zonemodel/model.go:200-224 | the loop follows nested zones as deep as they match and ends, all slices in bounds |
| ZoneInversion.DescentAnyCase | internal/controller/server/zonemodel/model.go:206-224 | such queries are led to the same zones under the same names |
| ZoneWalks.InBoundsIff | internal/controller/server/zonemodel/model.go:206-224 | all slices of a lookup are in bounds, in any order of the maps, exactly when nowhere below the query leaves nothing in front of a nested zone called "." |
| ZoneWalks.RootlessInBounds | internal/controller/server/zonemodel/model.go:206-224 | so they are where no nested zone is called "." |
| ZoneWalks.RoundFits | internal/controller/server/zonemodel/model.go:211 | then what is left gets shorter with every round |
| ZoneWalks.RoundArrives | internal/controller/server/zonemodel/model.go:211-212 | joining never meets empty labels only; the zone name grows by the matched name |
| ZoneInversion.DescentKeepsLabels | internal/controller/server/zonemodel/model.go:206-224 | what is left and the zone name together have exactly the labels of the query |
| ZoneInversion.DescentExactIff | internal/controller/server/zonemodel/model.go:206-224 | putting back what is left gives the query, letter case aside, exactly when no match of the descent stood behind an empty label |
| ZoneInversion.DescentExact | internal/controller/server/zonemodel/model.go:206-224 | so it does for a query without empty labels, which can be told from the query alone |
| ZoneInversion.EmptyLabelLost | internal/controller/server/zonemodel/model.go:211 | a descent that does not: two dots in a row in front of the zone name |
| ZoneInversion.PathOf | internal/controller/server/zonemodel/model.go:206-224 | the zone name a descent has built is in the name product of the chain it walked |
| ZoneWalks.ScanLabel | internal/controller/server/zonemodel/model.go:231-234 | one more label turns the relative name into the suffix that starts there and the current name into that suffix under the zone |
| ZoneModel.Zone.LookUp | internal/controller/server/zonemodel/model.go:231-248 | one label: a failed lookup, a delegation or neither |
| ZoneModel.Zone.Answer | internal/controller/server/zonemodel/model.go:226-256 | the first failed lookup or delegation from the zone downwards, else the entries for the whole relative name |
| ZoneLookup.AnswerUnique | internal/controller/server/zonemodel/model.go:226-256 | zone, relative name and index leave one answer only |
| ZoneLookup.DelegationIff | internal/controller/server/zonemodel/model.go:231-248 | an answer delegates exactly if an entry with nameservers is listed for the name or one of its suffixes below the zone |
| ZoneLookup.DelegationReported | internal/controller/server/zonemodel/model.go:239-248 | it is the shortest such suffix that counts, and its first entry with nameservers that is answered, under that suffix and the zone name |
| ZoneModel.Zone.ResolveFQDN | internal/controller/server/zonemodel/model.go:196-257 | nil exactly if the zone does not match; else the answer at the end of a descent that could not go deeper |
| ZoneModel.Zone.ResolveBelow | internal/controller/server/zonemodel/model.go:266-295 | the recursion, in any order of the children, ends: with one information for every path to a zone with entries, none behind one further down, if every lookup is answered, else with the error of one that is not |
| ZoneModel.Zone.ResolveIP | internal/controller/server/zonemodel/model.go:259-264 | the same from the top |
| ZoneModel.Zone.ExpandInto | internal/controller/server/zonemodel/model.go:297-304 | the nested loops append the product |
| ZoneLookup.ExpandHas | internal/controller/server/zonemodel/model.go:297-304 | every pairing is in the product |
| ZoneLookup.ExpandFrom | internal/controller/server/zonemodel/model.go:297-304 | the product holds nothing else |
| ZoneLookup.ExpandLength | internal/controller/server/zonemodel/model.go:297-304 | its length |
| ZoneLookup.ExpandAt | internal/controller/server/zonemodel/model.go:297-304 | name by name, each below all zone names in their order |
| ZoneLookup.ReportedInOrder | internal/controller/server/zonemodel/model.go:273-285 | the names reported with a zone are those of its entries, entry by entry and name by name, each below every name of the zone, and no others |
| ZoneForest.LookupBoundedIff | internal/controller/server/zonemodel/model.go:266-295 | the paths the recursion of the reverse lookup takes are bounded exactly when it comes to no zone again from a child of it without passing a zone in which the lookup fails |
| ZoneForest.RankedIff | internal/controller/server/zonemodel/model.go:286-292 | the same, failing lookups aside: there is a rank, and paths are bounded, exactly when no zone below is reachable from one of its own children |
| ZoneForest.KnownZonesRanked | internal/controller/server/zonemodel/model.go:286-292 | with exact child maps and no cycle of parents there is a rank |
| ZoneForest.SafeRunBounded | internal/controller/server/zonemodel/model.go:83-144 | with the intended filing the recursion is bounded after every run in which no call went round for ever |
| ZoneForest.OnePath | internal/controller/server/zonemodel/model.go:286-292 | with exact child maps one path leads from a known zone to a zone below |
| ZoneForest.ReportedOnceIff | internal/controller/server/zonemodel/model.go:266-295 | whatever the child maps, the reverse lookup reports no zone twice exactly when no zone in or below which something is found is listed twice |
| ZoneForest.ReachesIff | internal/controller/server/zonemodel/model.go:286-292 | with exact child maps the recursion below a known zone reaches exactly the known zones whose parents, all known, lead to it |
| ZoneForest.EveryZoneOnce | internal/controller/server/zonemodel/model.go:266-295 | so with exact child maps the reverse lookup reports each known zone below that has entries once, and no other |
| ZoneForest.ChildCycle | internal/controller/server/zonemodel/model.go:114-128 | as written: three calls, all of which end, on references that are never cyclic, and two zones are children of each other |
| ZoneForest.NoRankInCycle | internal/controller/server/zonemodel/model.go:286-292 | then the recursion is not bounded |
| ZoneForest.ListedTwice | internal/controller/server/zonemodel/model.go:99-128 | as written: a child adopted under its own name and added again is listed twice |
| ZoneForest.ReportedTwice | internal/controller/server/zonemodel/model.go:286-292 | a zone listed twice, with two zones or under two names, is reported twice, and so is every zone below it that has entries |
| ZoneForest.RemovedStays | internal/controller/server/zonemodel/model.go:83-89 | as written: a removed zone stays a child of its parent |
| ZoneExamples.ChildCycleHappens | internal/controller/server/zonemodel/model.go:114-128 | such a run of four calls on two zones, after which the reverse lookup is not bounded |
| ZoneExamples.SiblingsCollideHappens | internal/controller/server/zonemodel/model.go:127 | a run of three calls in which the second child displaces the first |
| ZoneExamples.EndlessWalkHappens | internal/controller/server/zonemodel/model.go:139-142 | a first call after which adding one more zone never ends |
| ZoneExamples.ListedTwiceHappens | internal/controller/server/zonemodel/model.go:99-128 | a run of three calls, child, parent, child again, after which the reverse lookup reports the child twice |
| ZoneExamples.RemovedStaysHappens | internal/controller/server/zonemodel/model.go:83-89 | a run of three calls after which a removed zone is still a child |
| ZoneExamples.EmptyLabelHappens | internal/controller/server/zonemodel/model.go:211 | a call after which the descent of a query with two dots in a row forgets one |
| ZoneExamples.OutOfBoundsHappens | internal/controller/server/zonemodel/model.go:211 | a run of three calls after which a lookup comes to a slice out of bounds |
| ZoneInversion.NameResolvesIff | internal/controller/server/zonemodel/model.go:196-304 | a name made of a name of an entry and a name of its zone resolves to that entry in that zone exactly when the index lists it, no nested zone serves it and no suffix is delegated; names must not overlap along the path |
| ZoneInversion.ReportedIsMade | internal/controller/server/zonemodel/model.go:277-304 | every name the reverse lookup reports is made that way |
| ZoneInversion.LookupsInvert | internal/controller/server/zonemodel/model.go:196-304 | so the forward lookup of a reported name comes back to the entry and the zone it was reported for, under exactly that condition on that one name |
| ZoneInversion.ReverseMatches | internal/controller/server/zonemodel/model.go:196-304 | such a name is matched at all |
| ZoneInversion.ForwardThenReverse | internal/controller/server/zonemodel/model.go:196-304 | an entry listed for an address in the zone where a descent ends is found by that address, in that zone and under a name with the labels of the query |
| ZoneIndex.AnsweredIsFound | internal/controller/server/servercomp/indexer.go:22-86 | so, with the index of the stored entries, an entry the forward lookup answers with is found again by each of its addresses |
| ZoneIndex.CollideIff | internal/controller/server/servercomp/component.go:58-60 | two zone references of a namespace share an index key for some items exactly when one goes on with a slash where the other ends |
| ZoneIndex.KeyTells | internal/controller/server/servercomp/component.go:58-60 | so an index key tells zone and item apart for all others |
| ZoneIndex.PlainNames | internal/controller/server/servercomp/component.go:58-60 | among them all references without a slash |
| ZoneIndex.NameKeyIff | internal/controller/server/servercomp/indexer.go:22-50 | an entry is listed under a key of a zone exactly when it is indexed, refers to the zone and has that relative name, if its reference cannot be confused with the zone |
| ZoneIndex.IPKeyIff | internal/controller/server/servercomp/indexer.go:55-85 | the same for addresses |
| ZoneIndex.NamesIndexed | internal/controller/server/servercomp/indexer.go:22-50 | under a name the index holds exactly the stored entries of the zone that have it, each once; for a slave only those whose server condition is there and not False |
| ZoneIndex.IPsIndexed | internal/controller/server/servercomp/indexer.go:55-85 | the same for addresses |
| ZoneIndex.StoredResolvesIff | internal/controller/server/servercomp/indexer.go:22-50 | a stored entry of a zone is answered for each of its names below each name of the zone, exactly unless a nested zone or a delegation takes the name over or it is the zone's own |
| ZoneIndex.StoredIsReported | internal/controller/server/servercomp/indexer.go:55-85 | and reported for each of its addresses by the reverse lookup from a zone above |
| ZoneIndex.NameFollowsIP | internal/controller/server/servercomp/indexer.go:22-86 | an entry listed under an address is listed under each of its relative names |
| ZoneIndex.IPFollowsName | internal/controller/server/servercomp/indexer.go:22-86 | and the other way round; the name is one of its own |
| ZoneIndex.ReachableByName | internal/controller/server/servercomp/indexer.go:22-86 | so an entry found by an address is reachable by a name of its own exactly when no nested zone and no delegation takes the name over |
| NameProducts.AggregateNames | internal/controller/common/responsibility.go:127-139 | the nested loops compute the product with the names of one zone |
| NameProducts.AggregateAt | internal/controller/common/responsibility.go:127-139 | the place of every combination in the product |
| NameProducts.UpLength | internal/controller/common/responsibility.go:92-139 | the number of names is the product over the entry and all zones of the chain |
| NameProducts.DownIsUp | internal/controller/server/zonemodel/model.go:273-304 | multiplying down from the root gives what multiplying up from the stored names gives, in the same order |
| NameProducts.BothEndsAgree | internal/controller/common/responsibility.go:127-139 | both directions agree exactly when there are no names at all or no nested name has more than one trailing dot |
| StatusNames.ChainIsPath | internal/controller/common/responsibility.go:92-125 | the parent chain of an object is a path of the zone model that knows its zones, if each is listed with the next; that of their own names, if the child maps are exact |
| StatusNames.ExactLinks | internal/controller/server/zonemodel/model.go:121-130 | with exact child maps each is |
| StatusNames.EffectiveNamesIff | internal/controller/server/entry/request.go:46-80 | the effective names of an entry are the names the reverse lookup reports for it along such a path, under exactly that condition |
| ParentChain.GetRootInfoForEntry | internal/controller/common/responsibility.go:50-83 | the loop ends on every store; its result is the verdict on the walk: where and why it stops, or the root and the first zone |
| ParentChain.GetRootInfo | internal/controller/common/responsibility.go:92-125 | the same from a given object, with the names multiplied up on the way |
| ParentChain.ResponsibleForEntry | internal/controller/direct/entry/request.go:111-144 | the same for the walk that does not ask for deletion |
| ParentChain.StopsOnce | internal/controller/common/responsibility.go:50-125 | from a given zone a walk stops in one way only |
| ParentChain.OneVerdict | internal/controller/common/responsibility.go:50-125 | so there is one verdict on a walk |
| ParentChain.VerdictIff | internal/controller/common/responsibility.go:50-125 | told by the chain alone: an information exactly if the chain has a root, with runtime and class of that root and the zone so many steps up; what a temporary problem, a missing and a deleted zone mean |
| ParentChain.LoopsAgree | internal/controller/common/responsibility.go:50-125 | with no deletion on the way the three loops report the same root, runtime and class, or the same problem |
| ParentChain.CycleIff | internal/controller/common/responsibility.go:60-62 | a cycle is reported exactly when the chain never ends |
| ParentChain.RootIff | internal/controller/common/responsibility.go:76-82 | a root is reported exactly when the chain has one, and it is that one |
| ParentChain.WalksAgreeIff | internal/controller/direct/entry/request.go:111-144 | the walks agree exactly when no zone on the way is being deleted |
| ParentChain.GivenIsStored | internal/controller/common/responsibility.go:92-125 | given the stored object of a zone not being deleted, GetRootInfo walks the store itself |
| Replication.StepKeeps | internal/controller/replicate/common/generic/logic.go:26-159 | every single access keeps the invariant, whatever others do in between |
| Replication.ReplicasAreOwned | internal/controller/replicate/common/generic/logic.go:26-159 | at every moment of every run the original of a replica exists, carries the finalizer and is no replica itself |
| Replication.DrainKeeps | internal/controller/replicate/common/generic/logic.go:35-44 | while no request takes the object into possession, because it is being deleted or the controller is not responsible (any more), no step of anybody raises what is left of replica and finalizer |
| Replication.DrainRuns | internal/controller/replicate/common/generic/logic.go:35-44 | so it is over whole runs |
| Replication.DeletionDrains | internal/controller/replicate/common/generic/logic.go:120-159 | an object being deleted meets that condition until it is gone, and after, short of a new object of its name |
| Replication.ReleasedOnlyWithoutReplica | internal/controller/replicate/common/generic/logic.go:126-140 | the finalizer goes only by a release, and only while there is no replica |
| Replication.RequestProgresses | internal/controller/replicate/common/generic/logic.go:120-159 | an undisturbed request for an object being deleted, or for a live one the controller is not responsible for, lowers what is left, unless only others hold the replica |
| Replication.LettingGoProgresses | internal/controller/replicate/common/generic/logic.go:152-158 | and when they let go, that does |
| Replication.DrainEnds | internal/controller/replicate/common/generic/logic.go:120-159 | undisturbed, two requests at most and the others letting go once leave neither replica nor finalizer |
| Replication.RequestReplicates | internal/controller/replicate/common/generic/logic.go:52-116 | an undisturbed request for a live unmarked object the controller is responsible for leaves it with the finalizer and with a live marked replica, unless one being deleted is in the way; which finalizers that has, and that nothing else changes |
| Replication.OvertakenWrite | internal/controller/replicate/common/generic/logic.go:82-117 | what a write does to a live replica that others created or changed since it was read |
| Replication.DropDeletes | internal/controller/replicate/common/generic/logic.go:141-157 | the finalizer is never found on a replica, so that the patch of line 144, which goes to the source cluster, never happens; a replica that is to go is deleted |
| Replication.OthersAct | internal/controller/replicate/common/generic/logic.go:26-159 | what others may do in between, and what it does |
| DirectZone.NeverStrips | internal/controller/direct/hostedzone/request.go:79-107 | the branch that removes the finalizer of a nested zone is never entered; such a zone is cleaned up |
| DirectZone.DecideIff | internal/controller/direct/hostedzone/request.go:79-107 | when a live zone is cleaned up, taken or served right away |
| DirectZone.StepKeeps | internal/controller/direct/hostedzone/request.go:54-154 | every step keeps the invariant, whatever others do and wherever a request breaks off |
| DirectZone.ResourcesAreOwned | internal/controller/direct/hostedzone/request.go:54-154 | at every moment of every run a standard resource that is not being deleted has a zone that carries the finalizer |
| DirectZone.ReleasedOnlyAfterCleanup | internal/controller/direct/hostedzone/request.go:121-154 | only the end of a cleanup without problems gives the finalizer back |
| DirectZone.AppliedOnlyWhileHeld | internal/controller/direct/hostedzone/request.go:100-111 | resources are applied only while the finalizer is held |
| DirectZone.RequestServes | internal/controller/direct/hostedzone/request.go:79-111 | an undisturbed request for a live top-level zone of unchanged responsibility leaves it with the finalizer and every resource it applies in place |
| ZoneCleanup.RequestReleases | internal/controller/direct/hostedzone/request.go:79-147 | an undisturbed request for a zone with the finalizer that is being deleted or has changed responsibility gives the finalizer back exactly if no resource is still being deleted and none named twice is held by others |
| ZoneCleanup.VanishedCleans | internal/controller/direct/hostedzone/request.go:48-52 | the resources of a zone that has vanished are deleted, too |
| DirectZone.OthersActOnZone | internal/controller/direct/hostedzone/request.go:54-154 | what others may do with the zone in between, and what it does |
| ZoneCleanup.DeletedAllAt | internal/controller/direct/hostedzone/delete.go:50-58 | a loop over the manifests treats each as if it came first and touches nothing else, even if some name the same resource |
| ZoneCleanup.TroubleIff | internal/controller/direct/hostedzone/delete.go:50-58 | a loop has a problem exactly when at its beginning a resource is in trouble, or held by others and named twice |
| ZoneCleanup.SecondLoopIff | internal/controller/direct/hostedzone/delete.go:33-58 | a second loop over the same manifests succeeds exactly when the first left nothing behind |
| ZoneCleanup.CleanupIff | internal/controller/direct/hostedzone/delete.go:33-58 | when the four loops have no problem, in terms of the state before |
| ZoneCleanup.ClearIff | internal/controller/direct/hostedzone/delete.go:33-58 | that condition spelled out, resource by resource |
| ZoneCleanup.ExternalResources.DeleteManifest | internal/controller/direct/hostedzone/request.go:517-550 | a missing resource is fine; one still being deleted, not readable or not deletable is a problem; any other is asked to go |
| ZoneCleanup.ExternalResources.DeleteExternalResources | internal/controller/direct/hostedzone/delete.go:33-59 | exactly when the cleanup has no problem; then all standard resources are gone or going, and nothing else, DNS resources included, is ever touched |
| Conditions.ZoneStatus.TransferConditions | internal/controller/direct/hostedzone/conditions.go:20-42 | runtime and nameserver conditions become those of the root, validation stays only if the root has one, all others stay; types stay unique; the summary is Ready exactly when the four conditions are True |
| Conditions.ZoneStatus.Summary | internal/controller/direct/hostedzone/conditions.go:44-81 | state and message for every combination of conditions |
| Conditions.TransferredNext | internal/controller/direct/hostedzone/conditions.go:22-32 | one more condition of the root changes the transferred one of its type only |
| Conditions.TypesAfterSet | internal/controller/direct/hostedzone/conditions.go:22-32 | setting a condition keeps the types unique and adds nothing else |
| Conditions.TypesAfterRemove | internal/controller/direct/hostedzone/conditions.go:33-40 | removing one removes exactly those of its type |
| Notifications.Handler.Handle | internal/controller/replicate/hostedzone/logic.go:102-118 | the map holds the last verdict since the last deletion, and the dependents of that moment are enqueued exactly for news |
| Notifications.Handler.Delete | internal/controller/replicate/hostedzone/logic.go:61-66 | the verdict is forgotten and the dependents are enqueued |
| Notifications.LastVerdictIff | internal/controller/replicate/hostedzone/logic.go:102-118 | the last verdict is the one of the latest call for the zone, if that was no deletion |
| Notifications.NoNewsIff | internal/controller/replicate/hostedzone/logic.go:102-118 | a verdict is no news exactly when the latest call for the zone was the same verdict |
| HashFixpoint.RewrittenSameIff | pkg/render/spiff.go:96-113 | annotations are left alone exactly when every hash names a manifest with content and is its hash |
| HashFixpoint.HashAnnotationIff | pkg/render/spiff.go:97-98 | which annotations are hashes, and of what |
| HashFixpoint.SettledIff | pkg/render/spiff.go:96-113 | what it means that every hash of a manifest is right |
| HashFixpoint.Manifests.Refresh | pkg/render/spiff.go:96-113 | the loop over the annotations, in any order, and its flag |
| HashFixpoint.Manifests.Pass | pkg/render/spiff.go:84-124 | a pass changes nothing exactly when all hashes are right already, cycles or not; a pass settles the next rank of manifests |
| HashFixpoint.RankedIff | pkg/render/spiff.go:96-113 | the manifests can be ranked, each above those whose hash it holds, exactly when none depends on itself |
| HashFixpoint.Manifests.ApplyHashes | pkg/render/spiff.go:81-126 | if no manifest depends on itself the passes end with every hash right; an error means a manifest that cannot be read |
| HashFixpoint.VisitSettles | pkg/render/spiff.go:86-123 | a manifest that does not refer to itself is right after its visit |
| HashFixpoint.StaysSettled | pkg/render/spiff.go:86-123 | visits of manifests it does not refer to keep it right |
| HashFixpoint.SameResult | pkg/render/spiff.go:81-126 | for canonical files of that kind the result does not depend on the order of the visits |

## Left out

- ZoneModel.Model.AddZone: requires that the loop over the ancestors ends; `ZoneSerials.WalkEndsIff` shows that nothing weaker would do.
- ZoneModel.Zone.ResolveFQDN: requires that the slices of line 211 stay in bounds; `ZoneWalks.InBoundsIff` says exactly when, `ZoneExamples.OutOfBoundsHappens` shows a run after which they do not.
- ZoneModel.Zone.Descend: the same.
- ZoneInversion.DescentKeepsLabels: no nested zone is called "."; such a zone takes a character off what is left. `ZoneHistory.RunRootless` says when there is none.
- ZoneModel.Zone.ResolveIP: requires that the recursion is bounded; `ZoneForest.LookupBoundedIff` says exactly when. As written it may not be (`ZoneExamples.ChildCycleHappens`).
- ZoneModel.Zone.ResolveBelow: takes a rank as witness of the same.
- ZoneInversion.NameResolvesIff: asks that names along the path do not lie below other names of the same zone or of a sibling; with overlapping names a longer match may lead elsewhere.
- Replication.Next: the reconcilers are modelled as transitions on values, one per access to an API server, because their interleaving is the point; the local variables of a request are its phase.
- Replication.Written: the content of a replica beside finalizers, deletion and the mark, its namespace, owner and status.
- DirectZone.Next: the same for the direct controller; what `Validate`, the deployment mode and the DNS handler decide is left open, every outcome is allowed.
- ZoneCleanup.ExternalResources.DeleteExternalResources: which resources cannot be read or deleted does not change during a cleanup; rendering errors, a failing DNS handler and the cleanup of the deployment mode, which come before and after the loops.
- HashFixpoint.Manifests.ApplyHashes: termination when a manifest depends on itself, which depends on the hash function; the error result is dropped by `Render` (pkg/render/spiff.go:77).
- ParentChain.GetRootInfoForEntry: the empty name, which its caller excludes and the source does not survive.
- Conditions.ZoneStatus.TransferConditions: transition times of conditions.
- Backslash escapes in domain names.
- `Responsibility.Check` (common/responsibility.go:32-48) ends with false, so that it accepts only when neither side has a class; responsibility is an open choice in the state machines.
- The test of delegation in zonemodel/model_test.go:243-253 expects the zone of the delegation; model.go:244 leaves it nil, and the model follows the code.
- In the mode that is no slave the indexers log that they omit entries in a bad state but list them (servercomp/indexer.go:38-42); the model follows the code.
- The status reconcilers of entries and zones beyond the names they aggregate (server/entry, server/hostedzone, direct/entry): flat assignments.
- HTTP endpoints, flags, logging, events, queues, caches, the Kubernetes client and the utility library behind it.
- Spiff templates, YAML, SHA-256, DNS handler modes, deployment readiness, validation of names and records, generated code.
