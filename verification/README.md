# WantasticCore: models and proofs

Dafny models of the state-keeping cores of WantasticCore, and proofs of what they promise.
`dafny verify dfyconfig.toml` checks the project.

**Access control.** A rule is kept in three forms at once: as written, pre-parsed with a port
bitmap, and in an index by protocol and port. `AclRules` gives the two matching functions and
proves them equal, `AclSpellings` exactly when they agree for addresses in any spelling;
`AclSort` the in-place exchange sort; `AclIndex` the index, the two-bucket lookup and exactly
when it agrees with a plain first-match scan; `AclMeaning` what a decision is in terms of the rules
as written; `AclRuleList` what every sequence of additions and
removals leads to; `AclRefusal` what refused deletes leave behind; `AclTenants` exactly which
tenants' rules are kept apart. `CacheShard` and `Cache` are the sharded cache with its linked
list as the source maintains it, `AclKey` the cache key and which queries may share one.
`AclManager`, with its `AclLedger`, puts them together: cached checks equal uncached ones in every
sequential history. `AclInterleaving` is the same with loading, evaluation, storing, clearing and
rule changes interleaved.

**Password reset and login limits.** `SlidingWindow` holds the pruned timestamp logs,
`PasswordReset` the token/code/verify/consume protocol as a state machine over its critical
sections with an invariant, `ResetTrace` for whom a password is changed and that the right code in
time leads to it, `ResetLimits` the hourly bounds that follow from protocol and limiter
together, in terms of the delay between the two sections of a request, `ResetAttained` runs that
reach them, `LoginLimiter` the login limiter with checks and records interleaved, `TenantPortal`
the portal, whose methods take the steps of both machines and so keep the bounds.

**Address blocks.** The allocator of /27 blocks (prefix notation as in section 3.1 of RFC 4632):
`IpamRecords` what it records of blocks and tenants, `IpamStacks` its stacks of free blocks with
and without a database, `IpamTurns` how the pools take turns, `IpamDatabase` the table in the
database and the cores that share it, `Ipam` the allocator itself with rollback and with any
failures of the database. `Accounts` is the account manager on top of it with every store call
allowed to fail, `AccountRestart` what a restart of the server makes of both, `PeerAddresses` the
addresses a peer may use, however they are spelled, `AllocatorCases` small allocators that show
the exceptions.

**Admin bot.** `BotConversation` is the conversation machine with its bounded back-stack,
`BotForms` where the fields of created tenants and peers come from, `AdminBot` the table of
conversations; `BotMemory` what can happen to one chatter's memory, `MemoryStore` the table of
memories with its critical sections.

**Web proxy.** `WebProxyStream` is the loop that streams a response body in chunks.

`Text`, `Spellings`, `Strings` and `Durations` hold decimal numerals, addresses and their
spellings, trimming, letter case and units of time.

State that the source changes in place is a class whose methods are proved against functions;
the functions carry the lemmas. Clock readings, random values, hash functions, map iteration
order and the answers of stores and services are parameters or arbitrary choices.

Where the code does not do what a reader would expect, the code is followed and the exact
condition is proved:

- an any-port rule of higher priority loses to a rule that names the port (`AclIndex.PortAgreesWithScan`);
- the two paths of a check differ on addresses in other spellings (`AclSpellings.PathsAgreeExactly`);
- a refused delete of the only rule lets everything through; any other leaves the rule in force for tcp and udp, and sometimes for other protocols (`AclRefusal.StaleAgrees`);
- queries with colons in their fields, such as IPv6 addresses, may share a cache key (`AclKey.KeyUnambiguous`);
- generated rule identifiers repeat once a rule was removed (`AclManager.GeneratedIsNew`);
- accounts without a registered network may name other tenants' addresses (`AclTenants.TenantIsolation`);
- live cache entries drop off the list when its head is removed (`CacheShard.Shard.Unlink`);
- a resize reports success without the blocks (`Accounts.AccountManager.SetMaxPeers`);
- overlapping pools queue a block twice (`IpamStacks.SplitIsPartition`);
- with a database the stacks, and the statistics read from them, are right only until a block is given out (`Ipam.GlobalIpam.StacksExactly`);
- with a database one pool must serve a request alone (`Ipam.GlobalIpam.AllocateBlocks`);
- a restart counts restored blocks twice, keeps blocks taken that their account has given up, and gives blocks out again if it could not read the table (`Accounts.AccountManager.RestoreIPAM`);
- a server's address is refused in its plain spelling only (`PeerAddresses.ValidatePeerIP`);
- more wrong codes are let through the longer tokens are issued after the limiter's check (`ResetLimits.WrongCodesPerHour`);
- turns can be missing from both the window and the summary (`BotMemory.NothingIsLost`);
- a response loses bytes that arrive with a read error (`WebProxyStream.StreamBody`).

Before a tenant's network is registered the code accepts every address beginning with 10 or
100, although its error text speaks of 100.0.0.0/16; the code is followed.

## Model

| member | source | states |
|---|---|---|
| `AclRules.ParseIPs` | internal/acl/acl.go:667-692 | pre-parsing keeps exactly the parsed form of each listed address, in order, and notices "any" |
| `AclRules.BuildBitmap` | internal/acl/acl.go:694-705 | the byte array built in place is the bitmap of the port list |
| `AclRules.OptimizeRule` | internal/acl/acl.go:667-705 | optimising yields the hot form of the rule, with a bitmap from ten ports on |
| `AclRules.BitmapBits` | internal/acl/acl.go:615-639 | a bit is set exactly for the ports listed, for every list and every port |
| `AclRules.AddressesAgree` | internal/acl/acl.go:585-613 | matching parsed addresses equals matching address texts, for validated lists |
| `AclSpellings.TextsAgreeExactly` | internal/acl/acl.go:585-654 | for every reader of addresses, comparing texts and comparing what is read agree on all packets, however spelled, if and only if the list is empty, says "any", or consists of addresses and lists each in every spelling |
| `AclSpellings.PathsAgreeExactly` | internal/acl/acl.go:585-654 | they agree on every packet with plain IPv4 texts if and only if the list is empty, says "any", or names some address and lists the plain text of every IPv4 address it names |
| `AclSpellings.OtherSpelling` | internal/acl/acl.go:667-692 | they differ on a list of one mapped address |
| `AclSpellings.OnlyV6` | internal/acl/acl.go:585-613 | on a list of other IPv6 addresses no plain packet matches on either path |
| `AclRules.FastMatchMeaning` | internal/acl/acl.go:585-639 | what the hot path tests, for every protocol and port, on either side of the bitmap threshold |
| `AclRules.FastEqualsSlow` | internal/acl/acl.go:558-582 | hot and plain matching agree for every rule applicable to a tcp or udp packet |
| `AclTenants.TenantIsolation` | internal/acl/acl.go:426-524 | no rule accepted for one account names an address of another's network if and only if the first is registered and the networks lie apart, or it is not registered and the other's network holds no address beginning with 10 or 100 |
| `AclTenants.CanNameExactly` | internal/acl/acl.go:469-524 | the addresses the rules of an account may name: exactly those of its registered network, or those beginning with 10 or 100 if it has none |
| `AclTenants.UnregisteredIsNotIsolated` | internal/acl/acl.go:487-496 | an accepted rule of an unregistered account for an address in the registered network of another |
| `AclTenants.ApartMeansDisjoint` | internal/acl/acl.go:497-521 | two networks share no address if and only if neither contains the other's base |
| `AclSort.SortRules` | internal/acl/acl.go:755-765 | the in-place double loop leaves the exchange sort of the list |
| `AclSort.ExchangeSortSorts` | internal/acl/acl.go:755-765 | the exchange sort gives an ordered permutation |
| `AclSort.SortedUnique` | internal/acl/acl.go:755-765 | with distinct priorities there is only one ordered permutation |
| `AclIndex.AddToIndex` | internal/acl/acl.go:732-752 | indexing one rule adds exactly its slots |
| `AclIndex.RebuildIndex` | internal/acl/acl.go:708-729 | the rebuilt index is that of the whole list |
| `AclIndex.IndexHoldsBuckets` | internal/acl/acl.go:708-752 | each bucket holds the slots of every rule in list order, for every protocol and port |
| `AclIndex.BucketFirst` | internal/acl/acl.go:386-407 | the first match in a bucket is the first rule of the list that matches and is indexed there |
| `AclIndex.ScanFast` | internal/acl/acl.go:386-407 | a bucket scan finds the first hot match |
| `AclIndex.CheckAccessUncached` | internal/acl/acl.go:367-423 | the check gives the decision of index lookup, fallback scan and defaults, which `AclMeaning.DecisionExactly` spells out |
| `AclMeaning.FitsIsMatch` | internal/acl/acl.go:558-582 | the plain match tests protocol, addresses and, for tcp and udp only, listed ports |
| `AclMeaning.DecidedBy` | internal/acl/acl.go:367-423 | the deciding rule (the first preferred one, else the first that fits) gives the answer: allowed exactly if its action is "allow", and its id |
| `AclMeaning.DecisionExactly` | internal/acl/acl.go:367-423 | the whole decision over kept rules: default-allow without rules, default-deny if none fits, else the answer of the deciding rule |
| `AclMeaning.PortsAreTested` | internal/acl/acl.go:574-579 | a rule that decides a tcp or udp packet lists its port or none |
| `AclMeaning.PortsAreIgnored` | internal/acl/acl.go:738-752 | for every other protocol a rule alone decides by protocol and addresses, whatever ports it lists |
| `AclMeaning.AcceptedExactly` | internal/acl/acl.go:425-463 | a rule is accepted exactly with an account, an action that allows or denies, one of five protocols, and addresses each of which is "any" or one the tenant may name |
| `AclIndex.PortDecision` | internal/acl/acl.go:367-423 | tcp and udp on a real port: the first matching rule naming the port, else the first matching any-port rule, else deny (allow without rules); the fallback scan never contributes |
| `AclIndex.PortAgreesWithScan` | internal/acl/acl.go:376-419 | lookup and first-match scan agree if and only if no matching any-port rule precedes the first matching rule naming the port |
| `AclIndex.ZeroPortAgreesWithScan` | internal/acl/acl.go:376-419 | on port 0 they always agree |
| `AclIndex.OtherDecision` | internal/acl/acl.go:376-419 | other protocols: the hot test, which tests ports, then the plain scan, which does not |
| `AclIndex.OtherAgreesWithScan` | internal/acl/acl.go:376-419 | they agree if and only if no rule passes the hot test or the scan's first match passes it |
| `AclIndex.IcmpAgreesWithScan` | internal/acl/acl.go:732-752 | always for icmp when no rule indexed under icmp lists ports |
| `AclIndex.UnindexedAgreesWithScan` | internal/acl/acl.go:412-419 | always for a protocol under which nothing is indexed |
| `AclIndex.PortRuleOvertakes` | internal/acl/acl.go:386-407 | whenever a matching any-port rule stands before a matching rule naming the port, scan and lookup differ |
| `AclIndex.SshOvertakesDenial` | internal/acl/acl.go:386-407 | a concrete such list |
| `AclIndex.AnyProtocolRuleIsInert` | internal/acl/acl.go:435-560 | a rule for protocol "any" decides no tcp, udp or icmp packet |
| `AclRuleList.RunKept` | internal/acl/acl.go:197-316 | every sequence of additions and removals keeps the list optimised, parsed and ordered |
| `AclRuleList.DecisionAfterChanges` | internal/acl/acl.go:367-423 | after every such sequence the decision is that of a matching rule of lowest priority number naming the port, else of lowest priority number naming none, else the default |
| `AclRuleList.OrderOfAdditions` | internal/acl/acl.go:197-245 | with distinct priorities every order of additions leads to the same list, hence to the same decisions and reported rules |
| `AclRuleList.RemoveUndoesAdd` | internal/acl/acl.go:276-316 | removing a rule just added restores the list |
| `AclRuleList.IndexMissesNothing` | internal/acl/acl.go:376-419 | what the index does not decide for tcp or udp, no rule matches |
| `AclRefusal.StaleDecision` | internal/acl/acl.go:287-302 | the decision after any number of refused deletes: allowed if the list is empty; else for tcp and udp the decision before the first of them, for others that of the hot test on the old list, then of the scan of the rest |
| `AclRefusal.StaleAgrees` | internal/acl/acl.go:287-302 | with telling identifiers, for every protocol: the decision is the old one if and only if there never was a rule, or a rule is left and the packet is tcp or udp, some rule passes the hot test, the scan finds none, or what it finds is still listed |
| `AclRefusal.RefusedDeleteExactly` | internal/acl/acl.go:287-302 | the same for one refused delete and any identifiers: when the only rule goes, when another does |
| `AclRefusal.RefusedDeleteOfOnlyRule` | internal/acl/acl.go:371-374 | a refused delete of the only rule, which denies, allows what it denied |
| `AclRefusal.RefusedDeleteOfIcmpRule` | internal/acl/acl.go:287-302 | an icmp list on which the refused delete does take effect |
| `AclRefusal.AnswersAfterRefusals` | internal/acl/acl.go:287-302 | what may be answered for tcp and udp, cached or not: exactly the decision before the refusals and, if and only if a list became empty, the default that allows |
| `AclKey.KeyInjective` | internal/cache/integration.go:33-35 | two colon-free packets share a key only if account and packet are equal |
| `AclKey.KeyUnambiguous` | internal/cache/integration.go:33-35 | a query without colons in account or packet shares its key with no other query, whatever that contains |
| `AclKey.KeyCollision` | internal/cache/integration.go:33-35 | with colons in the fields different queries share a key |
| `AclKey.AddressCollision` | internal/cache/integration.go:33-35 | so do two packets of one account between IPv6 addresses |
| `CacheShard.Shard.Remove` | internal/cache/algorithms.go:83-106 | links stay symmetric, among live entries, towards older ones; the size drops by the entry's |
| `CacheShard.Shard.Unlink` | internal/cache/algorithms.go:83-103 | the relinking keeps links and ends; if all live entries were on the list, the others stay on it if and only if the entry was not the head, or was alone |
| `CacheShard.OlderEntryDropsOff` | internal/cache/algorithms.go:98-103 | a live entry no walk from the head meets |
| `CacheShard.Shard.InsertLRU` | internal/cache/algorithms.go:109-121 | a newer entry joins the list with links and ends intact |
| `CacheShard.Shard.EvictOldestIf` | internal/cache/algorithms.go:153-161 | exactly the entry at the tail goes |
| `CacheShard.Shard.EvictIfNecessary` | internal/cache/algorithms.go:140-150 | which keys go: over a limit that of the tail, and over the size limit the one before it too if even so there are too many entries |
| `CacheShard.Shard.Set` | internal/cache/cache.go:362-406 | the entry is stored, at most two others lost, for a new key exactly the victims, every shard invariant kept |
| `CacheShard.Shard.Get` | internal/cache/cache.go:409-451 | a live value is found, an expired entry dropped and missed |
| `CacheShard.Shard.Delete` | internal/cache/cache.go:455-470 | exactly the key goes |
| `CacheShard.Shard.Clear` | internal/cache/cache.go:473-493 | nothing is left, the counters are zero and no old entry is linked |
| `CacheShard.Shard.Cleanup` | internal/cache/cache.go:564-585 | exactly the expired entries go, in whatever order keys are visited |
| `CacheShard.Shard.EvictWhile` | internal/cache/cache.go:288-305 | every round removes one live entry, only while too little is freed; bytes counted as freed are the bytes the shard shrank by |
| `Cache.Cache.constructor` | internal/cache/cache.go:200-231 | an empty valid cache; a non-positive shard count means sixteen |
| `Cache.Cache.SetWithTTL` | internal/cache/cache.go:362-406 | the cache is a lossy map: the key holds the new item, at most two other keys lose theirs, for a new key exactly the victims its shard names |
| `Cache.Cache.Get` | internal/cache/cache.go:409-451 | an answer is the stored, unexpired value; no other key changes |
| `Cache.Cache.Delete` | internal/cache/cache.go:455-470 | only the key goes, and only on an open cache |
| `Cache.Cache.Clear` | internal/cache/cache.go:473-493 | no key is found afterwards |
| `Cache.Cache.Cleanup` | internal/cache/cache.go:564-585 | exactly the expired items of all shards go |
| `Cache.Cache.GetTotalSize` | internal/cache/cache.go:277-285 | the sum of the shard counters, which is the sum of the sizes of all live entries |
| `Cache.Cache.EvictUnderPressure` | internal/cache/cache.go:288-305 | it stops; freed bytes equal the drop of the total size; enough is freed or every list is empty; without the last item dropped too little had been freed |
| `AclManager.Manager.constructor` | internal/acl/acl.go:71-93 | an empty manager is coherent |
| `AclManager.Manager.EnsureLoaded` | internal/acl/acl.go:110-178 | loading gives the sorted saved list, whatever rows were saved, without making any cached decision wrong |
| `AclManager.Manager.AddRule` | internal/acl/acl.go:197-245 | success exactly for a valid, saved rule; the new list holds the rule as given, with an id if it had none; a cleared cache, all other accounts untouched |
| `AclManager.GeneratedIsNew` | internal/acl/acl.go:209-215 | an identifier generated while none was removed is new |
| `AclManager.GeneratedTwice` | internal/acl/acl.go:209-215 | three rules without identifiers of which the first is removed before the third is added: the last two share one |
| `AclManager.Manager.RemoveRule` | internal/acl/acl.go:276-316 | success exactly when present and deleted; after a refusal the list has changed, the lists since the index was built have grown by it, and no cached decision has changed |
| `AclManager.Manager.CheckAccess` | internal/acl/acl.go:333-364 | a live cached decision is answered, and is right for a query with the same key by a list its account has had since its index was built; otherwise the current decision; an unambiguous query is answered for itself whatever else was asked, and with no delete refused since then by the current decision |
| `AclManager.Manager.InvalidateCache` | internal/acl/acl.go:769-788 | afterwards no cached decision can be wrong |
| `AclManager.Manager.Maintain` | internal/cache/cache.go:247-305 | background clean-up and eviction keep the cache coherent: they only lose decisions, and every one that has expired |
| `AclManager.Manager.SetSubnet` | internal/acl/acl.go:528-555 | changing a tenant's network changes no rule and no cached decision |
| `AclInterleaving.RunKeepsInvariant` | internal/acl/acl.go:333-364 | every interleaving of loads, evaluations, stores, drops, clears, changes and refused deletes keeps the invariant |
| `AclInterleaving.CachedAnswers` | internal/acl/acl.go:337-361 | an answer from the cache outside a change is up to date, or its evaluation was overtaken by a change; it was stored at most five minutes ago |
| `AclInterleaving.DirectAnswers` | internal/acl/acl.go:351-361 | an evaluating call's own answer is up to date unless a change came in between |
| `AclInterleaving.QuietRunsStayCoherent` | internal/acl/acl.go:206-243 | if no change begins with an evaluation in flight, every answer is up to date, and current where no delete was refused |
| `AclInterleaving.OvertakenAnswer` | internal/acl/acl.go:337-361 | the exception is real, for any number of shards and any two rule lists that differ on the packet |
| `SlidingWindow.FilterRecent` | internal/core/tenant_service.go:1662-1669 | the filter loop keeps exactly the recent timestamps, in order |
| `SlidingWindow.PruningIsInvisible` | internal/core/tenant_service.go:1653-1678 | in every chronological history dropping old timestamps never changes what a later check counts |
| `SlidingWindow.WindowBound` | internal/core/tenant_service.go:1653-1678 | if each entry was admitted below the maximum, every window anywhere holds at most the maximum |
| `PasswordReset.RunKeeps` | internal/core/tenant_service.go:1346-1614 | the protocol invariant holds after every interleaving of critical sections: requests admitted, tokens stored, codes verified, tokens used up |
| `ResetTrace.ConsumptionTrace` | internal/core/tenant_service.go:1577-1627 | each password change traces to one admitted request, whose token was issued at most an hour before: it is for the tenant the registry gave when the token was issued, and the code sent out then was presented within five minutes of that |
| `ResetTrace.RunTraced` | internal/core/tenant_service.go:1346-1614 | over every run: pending resets are for the tenant and code of their request, accepted codes are the ones sent out and wrong ones are not, and a first token stays until its code is presented, five wrong ones are, or five minutes pass |
| `ResetTrace.CodeIsJudged` | internal/core/tenant_service.go:1487-1546 | a code is accepted only if it is the one sent out, within five minutes and after fewer than five wrong ones, and counted as wrong only if it is not |
| `ResetTrace.RightCodeAccepted` | internal/core/tenant_service.go:1465-1546 | in every run the right code, presented with the first token within five minutes and after fewer than five wrong ones, is accepted |
| `ResetTrace.RightCodeResets` | internal/core/tenant_service.go:1465-1627 | and then, whatever other calls come between, the new token changes the password of that tenant within the hour, once |
| `PasswordReset.RequestBounds` | internal/core/tenant_service.go:1487-1546 | a request yields at most one password change and at most five evaluated wrong codes |
| `PasswordReset.FirstTokenDies` | internal/core/tenant_service.go:1523-1546 | once a request is verified its first token is unknown to every later call |
| `ResetLimits.RunKeepsLimiter` | internal/core/tenant_service.go:1653-1678 | in every history the pruned log sees what the full list of admissions says |
| `ResetLimits.AdmissionsPerHour` | internal/core/tenant_service.go:1353-1364 | at most three admitted requests per email in any hour |
| `ResetLimits.AdmittedExactly` | internal/core/tenant_service.go:1346-1364 | in every run a request is admitted if and only if it names an email with fewer than three admissions in the last hour |
| `ResetLimits.GuessesPerRequest` | internal/core/tenant_service.go:1487-1521 | wrong codes in a window are at most five for each request whose token can be live in it |
| `ResetLimits.WrongCodesPerHour` | internal/core/tenant_service.go:1327-1432 | at most thirty wrong codes evaluated per email in any hour, and fifteen more for every hour that may pass between the admission of a request and its token |
| `ResetAttained.BoundAttained` | internal/core/tenant_service.go:1353-1521 | for every number of hours some run reaches that bound |
| `LoginLimiter.FailuresPerWindow` | internal/core/tenant_service.go:520-595 | with at most k logins in flight, every interleaving records at most 4+k failures in any hour and 9+k in any day between successes |
| `LoginLimiter.EnteredExactly` | internal/core/tenant_service.go:1682-1731 | in every run a login is let through if and only if fewer than five logins for its email failed within the last hour and fewer than ten within the last day, since one last succeeded |
| `LoginLimiter.SuccessClears` | internal/core/tenant_service.go:1724-1729 | after a success, with no failure since, the next login passes |
| `LoginLimiter.HourlyBoundAttained` | internal/core/tenant_service.go:1682-1729 | for every k some interleaving reaches 4+k in an hour |
| `LoginLimiter.DailyBoundAttained` | internal/core/tenant_service.go:1682-1729 | for every k some interleaving reaches 9+k in a day |
| `TenantPortal.Portal.CheckResetRateLimit` | internal/core/tenant_service.go:1653-1672 | the check prunes the log and admits exactly below three recent entries |
| `TenantPortal.Portal.CheckNotFoundRateLimit` | internal/core/tenant_service.go:1733-1752 | the check prunes the log and admits exactly below five entries of the last day |
| `TenantPortal.Portal.ResetBounds` | internal/core/tenant_service.go:1346-1649 | of every portal, after any calls of its methods: the protocol invariant, at most three requests an hour per email, the bound on wrong codes for every delay, five wrong codes and one password change per request |
| `TenantPortal.Portal.LoginBounds` | internal/core/tenant_service.go:520-731 | likewise at most 4+k failures an hour and 9+k a day with at most k logins in flight |
| `TenantPortal.Portal.BeginReset` | internal/core/tenant_service.go:1346-1364 | the in-place update is the admitting step, so the portal stays in a run of the protocol; admitted exactly for an email with fewer than three admissions in the last hour |
| `TenantPortal.Portal.FinishReset` | internal/core/tenant_service.go:1373-1432 | the in-place update is the step that stores the token, or counts an unknown email |
| `TenantPortal.Portal.VerifyResetCode` | internal/core/tenant_service.go:1465-1546 | the in-place update is the verification step; codes are judged by the one that was sent out |
| `TenantPortal.Portal.ResetPassword` | internal/core/tenant_service.go:1561-1627 | the in-place update is the consumption step; the password to be changed has at least eight characters and is that of the tenant the registry gave for the request |
| `TenantPortal.Portal.CheckLoginRateLimit` | internal/core/tenant_service.go:1682-1715 | the pass over the log is the entering step: the login is let through exactly with fewer than five failures in the last hour and ten in the last day since the last success |
| `Ipam.GlobalIpam.constructor` | internal/state/ipam.go:139-200 | splitting the pools over the blocks read from the table, if they could be read: what every record, stack and row then is; a valid allocator exactly if no block was taken and there is a database or no block is in two pools |
| `Ipam.GlobalIpam.Split` | internal/state/ipam.go:237-321 | one pool's blocks are recorded for it and keep their tenants, new ones are written to the table, and those not taken are queued in order |
| `IpamStacks.SplitIsPartition` | internal/state/ipam.go:237-321 | every free block is on exactly one stack, its own, if and only if none is in two pools, whatever was taken before |
| `Ipam.GlobalIpam.PopFreeBlock` | internal/state/ipam.go:448-475 | the last block of the pool's stack is taken, or there is none; with a database always none |
| `Ipam.GlobalIpam.ReleaseBlock` | internal/state/ipam.go:478-512 | the block is free again on its own pool's stack, whether or not its row could be written |
| `Ipam.GlobalIpam.QueryBlocks` | internal/store/postgres/ipam_repository.go:73-114 | any free rows of the pool, all that were asked for or none |
| `Ipam.GlobalIpam.AllocatePopped` | internal/state/ipam.go:373-445 | without a database: success exactly when enough blocks are free, for any order of pools; distinct free blocks in hand, or every record restored; block i from the pool whose turn it is, as long as every pool can give its share |
| `IpamTurns.TurnHasBlock` | internal/state/ipam.go:377-396 | while the pools are rich enough, the one whose turn it is has a block |
| `IpamTurns.FairNext` | internal/state/ipam.go:396-443 | with every turn each pool has given its share |
| `Ipam.GlobalIpam.AllocateStored` | internal/state/ipam.go:395-420 | with one: success exactly when some pool's query is answered and finds enough free rows; rows and records marked alike, no stack touched |
| `Ipam.GlobalIpam.AllocateBlocks` | internal/state/ipam.go:373-445 | success exactly when the request can be met, in either mode; distinct blocks that were free in memory, nothing else claimed in the table |
| `Ipam.GlobalIpam.AllocateTenant` | internal/state/ipam.go:333-370 | success exactly for a new tenant whose request can be met; each taken block stays in exactly one record, the counter exact, every held block held in the table |
| `Ipam.GlobalIpam.ExpandTenant` | internal/state/ipam.go:515-545 | success exactly for a known tenant whose request can be met; earlier blocks first, then new ones |
| `Ipam.GlobalIpam.ReleaseTenant` | internal/state/ipam.go:579-604 | all blocks of the tenant are free in memory again, nobody else's, and no other tenant's rows change, whatever the database takes part in; its own rows are free if the database releases them or writes them one by one |
| `IpamRecords.TenantsAreDisjoint` | internal/state/ipam.go:373-445 | no block is held by two tenants, with or without a database |
| `IpamStacks.HeldIsNotFree` | internal/state/ipam.go:373-512 | a held block is on no stack, as long as the stacks hold the free blocks |
| `Ipam.GlobalIpam.StacksExactly` | internal/state/ipam.go:395-512 | of every allocator: the stacks hold exactly the free blocks if and only if there is no database, or they did at the start and no block was given out since |
| `IpamStacks.DriftExactly` | internal/state/ipam.go:395-512 | the same from what is kept of the stacks when nothing is popped |
| `Ipam.GlobalIpam.FreeCounts` | internal/state/ipam.go:687-715 | the blocks reported as allocated are right if and only if none was counted twice; the free blocks reported for a pool, with stacks in order at the start, if and only if there is no database or no block of the pool was given out since |
| `Ipam.GlobalIpam.RestoreAllocation` | internal/state/ipam.go:607-663 | the tenant has the given blocks exactly if all are known, and they are off the stacks; the counter grows by all of them, also by those taken already |
| `IpamDatabase.CoresAreDisjoint` | internal/store/postgres/ipam_repository.go:73-114 | two cores over one table hold no block in common, except for the same tenant |
| `IpamDatabase.ClaimsKeepBacked` | internal/store/postgres/ipam_repository.go:82-95 | what one core claims leaves every core's holdings in the table |
| `IpamDatabase.ReleasesKeepBacked` | internal/store/postgres/ipam_repository.go:116-128 | what one core releases leaves another's holdings in the table if and only if it frees no row of a block the other holds for that tenant |
| `IpamRecords.FreedMarked` | internal/state/ipam.go:387-393 | giving blocks and taking them back restores every record |
| `Accounts.BlocksForPeers` | internal/account/manager.go:89-99 | enough blocks with 29 addresses each for the peers, at least one, and one fewer would not do |
| `Accounts.NewBlocks` | internal/account/manager.go:203-217 | the blocks of an allocation the account lacks, in order, each with its gateway |
| `Accounts.ExtendedOk` | internal/account/manager.go:199-219 | after an expansion the account holds exactly what its tenant holds, earlier blocks first, gateways matched |
| `Accounts.AccountManager.CreateAccount` | internal/account/manager.go:104-171 | success exactly for a new id, a request that can be met and a willing store; the cap is the positive argument or else 30, and there are as many blocks of 29 addresses as it takes and no more; a failure anywhere leaves the allocator's records as they were, and only rows open to the drawn id changed |
| `Accounts.AccountManager.SetMaxPeers` | internal/account/manager.go:180-226 | the cap stored is the positive argument or else 30; the addresses cover it if and only if the blocks that are short can be granted; blocks are added only if they are needed |
| `Accounts.AccountManager.AddBlockToAccount` | internal/account/manager.go:260-315 | success exactly when a block can be granted and the store agrees; the account then holds all its tenant holds |
| `Accounts.AccountManager.RemoveBlockFromAccount` | internal/account/manager.go:319-368 | success exactly for a listed block that is not the last; block and gateway go, the allocator is unchanged |
| `Accounts.AccountManager.DeleteAccount` | internal/account/manager.go:229-252 | the account is gone and every block of its tenant free, or nothing changed |
| `Accounts.StoredBlocksDisjoint` | internal/account/manager.go:104-368 | whatever failed, with or without a database, no two stored accounts share a block and no stored block is free; it is on no stack as long as the stacks hold the free blocks |
| `Accounts.AccountManager.RestoreIPAM` | internal/account/manager.go:58-85 | every account's tenant has its blocks back, whatever was recorded of them; the manager is valid if and only if every other block is free and, with a database, the table holds every block for its account; by how much the counter is then too high |
| `AccountRestart.Restart` | internal/account/manager.go:31-85 | a server stopped after any calls and started over the table it left: all accounts have their blocks, and it is valid if and only if no row is taken that no account lists |
| `AccountRestart.StoredAreBacked` | internal/account/manager.go:104-368 | what a valid manager leaves: accounts without common blocks, and the table holding each block for its account |
| `AccountRestart.GivenUpIsOrphan` | internal/account/manager.go:319-368 | a block its account has given up is a taken row that no account lists |
| `Accounts.CidrInjective` | internal/account/manager.go:333-342 | networks are told apart by their text |
| `PeerAddresses.ValidatePeerIP` | internal/account/manager.go:383-449 | for every reader of addresses that knows dotted quads and mapped ones: a text is accepted if and only if it is read as an address a peer may have under that spelling; a server's address is refused if and only if it is written as the plain dotted quad, with or without /32 |
| `PeerAddresses.MappedGatewayAccepted` | internal/account/manager.go:422-427 | every server's address is accepted in its mapped spelling |
| `PeerAddresses.AcceptedCount` | internal/account/manager.go:383-449 | for each block exactly 29 addresses are accepted when written plainly, and 30 over all spellings |
| `PeerAddresses.AcceptedSomehow` | internal/account/manager.go:383-449 | the addresses counted are exactly those with an accepted plain text, and with an accepted text at all |
| `PeerAddresses.EveryStoredAccount` | internal/account/manager.go:104-449 | in every state an account accepts 29 addresses per block plainly and 30 in all, and shares none with another account |
| `AllocatorCases.ResizeFallsShort` | internal/account/manager.go:196-219 | a manager whose resize to 30 peers succeeded with 29 addresses |
| `AllocatorCases.StacksDrift` | internal/state/ipam.go:395-507 | with a database: a block on its stack while it is held, and twice once it came back |
| `AllocatorCases.OnePoolMustServe` | internal/state/ipam.go:395-420 | two blocks in two pools serve a request for two without a database and not with one |
| `AllocatorCases.UnreadTable` | internal/state/ipam.go:158-298 | a start that could not read the table but write to it: the account's only block is given to another tenant |
| `BotConversation.RunKeeps` | internal/adminbot/bot.go:586-903 | for every sequence of messages: a tenant is created only with a non-empty name, email, phone and password that the chatter gave; the add-peer flow creates a peer only with a given name and for a tenant that was looked up; what a question to the model creates is for tenants its tools looked up, under some name; the stack stays ordered |
| `BotForms.RunSourced` | internal/adminbot/bot.go:704-903 | over every run, going back included: the fields of an open form are what the last messages taken at their steps said |
| `BotForms.CreatedAsSaid` | internal/adminbot/bot.go:807-903 | in every run a tenant is created by a confirmation, with name, email, phone, tier and password as the last messages taken at their steps gave them; a peer for the tenant last found, under the name last given |
| `BotForms.FormFilledIn` | internal/adminbot/bot.go:854-903 | the opening word, five answers in time and a confirmation create the tenant of exactly these answers; any other last word creates none |
| `BotForms.PeerAsked` | internal/adminbot/bot.go:807-850 | likewise for a peer |
| `BotForms.WordsOpen` | internal/adminbot/bot.go:1324-1340 | which words open which flow |
| `BotForms.IdleForgotten` | internal/adminbot/bot.go:1460-1473 | a session idle for more than twenty minutes might as well not be there |
| `BotForms.FiftyEntries` | internal/adminbot/bot.go:676-684 | fifty messages to a session are taken, the next one ends it |
| `BotForms.AnalyticsInThree` | internal/adminbot/bot.go:753-781 | the analytics flow takes two answers and ends with the third, whatever they are |
| `BotForms.DetailsShown` | internal/adminbot/bot.go:783-805 | the detail flow finds a tenant or ends, then ends on a word for card or activity and otherwise stays |
| `BotForms.ToolCreates` | internal/adminbot/claude_tools.go:331-381 | the model's tool creates a peer exactly for a selector that finds a tenant, for that tenant, under the given name or one made from the time |
| `BotForms.ToolLimits` | internal/adminbot/claude_tools.go:295-329 | it sets a limit exactly for a selector that finds a tenant with an account and a limit that is not negative |
| `BotConversation.OnlyQuestionsUseTools` | internal/adminbot/bot.go:730-732 | write tools are called only outside a flow, for a message that is no menu choice, and the conversation is closed after it |
| `BotConversation.QuestionCreatesPeer` | internal/adminbot/claude_tools.go:331-378 | a question that creates a peer under a generated name |
| `BotConversation.StepKeeps` | internal/adminbot/bot.go:632-697 | saved steps never decrease along the stack nor exceed the current step; only the oldest checkpoint can be the menu; at most ten are kept and fifty entries counted |
| `BotConversation.ThereAndBack` | internal/adminbot/bot.go:948-974 | n kept messages then n backs restore flow and step and the unlost part of the stack for n up to ten, and drop the session for every larger n |
| `BotConversation.ElevenIsTooMany` | internal/adminbot/bot.go:955-957 | such longer sequences exist |
| `AdminBot.Bot.TouchState` | internal/adminbot/bot.go:1444-1458 | the conversation exists and is fresh |
| `AdminBot.Bot.ActiveState` | internal/adminbot/bot.go:1460-1473 | an idle conversation is forgotten; active means inside a flow |
| `AdminBot.Bot.PushHistory` | internal/adminbot/bot.go:948-959 | the checkpoint is pushed, a full stack losing its oldest |
| `AdminBot.Bot.PopHistory` | internal/adminbot/bot.go:962-974 | the last checkpoint is popped and restored |
| `AdminBot.Bot.HandleBack` | internal/adminbot/bot.go:660-673 | going back restores the checkpoint or closes the conversation |
| `AdminBot.Bot.AdvanceConversation` | internal/adminbot/bot.go:704-751 | the method takes the advancing step of the conversation, a direct question included |
| `AdminBot.Bot.HandleIncomingMessage` | internal/adminbot/bot.go:586-697 | the sender's conversation takes its step and no other conversation changes |
| `BotMemory.TrimTurn` | internal/adminbot/memory.go:254-260 | at most 4000 characters, untouched but for outer space when it fits |
| `BotMemory.TurnCut` | internal/adminbot/memory.go:254-260 | a longer text is cut after 4000 characters and trimmed again |
| `BotMemory.TrimSummary` | internal/adminbot/memory.go:262-272 | at most 1800 characters, untouched but for outer space when it fits |
| `BotMemory.SummaryCut` | internal/adminbot/memory.go:262-272 | a longer summary is cut after 1800 characters, or before the last newline among them if that is in the second half |
| `BotMemory.ExchangedExactly` | internal/adminbot/memory.go:150-165 | after an exchange everything is kept, or beyond 24000 characters the last four turns only |
| `BotMemory.SummarizedExactly` | internal/adminbot/memory.go:222-239 | after a summary the last six turns are kept with it, or from 64 turns or beyond 12000 characters the last four only |
| `BotMemory.TotalContextChars` | internal/adminbot/memory.go:274-280 | the loop adds up summary and turns |
| `BotMemory.RolledOk` | internal/adminbot/memory.go:282-292 | a rolled memory is within bounds whatever it was before |
| `BotMemory.EveryStory` | internal/adminbot/memory.go:146-231 | after every sequence of exchanges and summaries: at most 24000 characters, whole question and answer pairs, the window is the end of all that was said and holds at least the last two exchanges |
| `BotMemory.LastExchangeRemembered` | internal/adminbot/memory.go:147-160 | what was just said is remembered, in its trimmed form |
| `BotMemory.NothingIsLost` | internal/adminbot/memory.go:146-231 | in every story of exchanges, rolls and overlapping calls: the current summary was made, directly or through earlier summaries, from all turns before the window, if and only if no exchange rolled the window and the answer stored last found all turns in a short window, or belongs to a call begun when nothing was missing and since which nothing was said, without a roll then or since |
| `BotMemory.ExchangeLoses` | internal/adminbot/memory.go:147-160 | which turns are missing after an exchange: those before it, or on a roll all but the last four |
| `BotMemory.SummaryLoses` | internal/adminbot/memory.go:217-230 | which turns are missing after a summary is stored: those missing when its call was begun, and those between what the call was given and the new window |
| `BotMemory.SlowSummaryLoses` | internal/adminbot/memory.go:184-226 | if none was missing then: as many as were said since, right behind those handed over |
| `BotMemory.LateAnswerLoses` | internal/adminbot/memory.go:184-226 | an answer to a call since whose beginning something was said always leaves turns missing, whatever other calls were begun or answered |
| `BotMemory.UpToDateAnswerRestores` | internal/adminbot/memory.go:217-230 | an answer to an up-to-date call leaves none missing, whatever was missing before, if and only if the window is not rolled over |
| `BotMemory.TurnsGoMissing` | internal/adminbot/memory.go:177-231 | five exchanges and two overlapping calls answered in the wrong order: two turns are nowhere |
| `BotMemory.TurnsComeBack` | internal/adminbot/memory.go:177-231 | answered in order, the same turns are nowhere after the first answer and back after the second |
| `BotMemory.MessagesAlternate` | internal/adminbot/claude.go:104-132 | the messages sent to the model alternate, from user to user |
| `MemoryStore.Store.constructor` | internal/adminbot/memory.go:74-83 | an empty store; without a time to live it is two hours |
| `MemoryStore.Store.EvictStale` | internal/adminbot/memory.go:101-110 | exactly the senders idle beyond the limit go |
| `MemoryStore.Store.EvictOldest` | internal/adminbot/memory.go:114-126 | a sender idle longest goes, whatever the order of the map |
| `MemoryStore.Store.Touch` | internal/adminbot/memory.go:130-144 | the sender has a memory; at most 500 named senders stay |
| `MemoryStore.Store.Append` | internal/adminbot/memory.go:149-160 | the exchange is added to the memory in hand, also when it was evicted meanwhile; it counts as touched only if it rolls over |
| `MemoryStore.Store.NeedsSummarization` | internal/adminbot/memory.go:164-172 | true exactly from sixteen turns or above 12000 characters |
| `MemoryStore.Store.BeginSummary` | internal/adminbot/memory.go:177-189 | all but the last six turns and the summary so far are handed over to a new call, and no memory changes |
| `MemoryStore.Store.ApplySummary` | internal/adminbot/memory.go:217-230 | the sender's memory, if still there, has lived through the answer to one call; no other memory changes |
| `MemoryStore.Store.Snapshot` | internal/adminbot/memory.go:235-245 | a copy of at most 24000 characters in whole exchanges |
| `MemoryStore.Store.Reset` | internal/adminbot/memory.go:248-252 | exactly the sender's memory goes |
| `MemoryStore.ConversationKey` | internal/adminbot/bot.go:1440-1442 | a conversation key is never empty |
| `MemoryStore.KeysApart` | internal/adminbot/bot.go:1440-1442 | chats whose names have no bar share no key |
| `WebProxyStream.StreamBody` | internal/core/webproxy_service.go:323-363 | frame i carries number i as a signed 32-bit number, headers on the first only, final on the last of a complete stream only; a complete stream delivers every byte read, an interrupted one the reads before the failure, which is every byte read if and only if none came with the failure |
| `WebProxyStream.BytesLost` | internal/core/webproxy_service.go:323-363 | a read whose byte is lost |

## Left out

- AclManager.Manager.CheckAccess: ports are in 0..65535, as a packet's are.
- AclManager.Manager.AddRule: the manager and its index read addresses as dotted quads only, so rules with mapped or other spellings, which the code accepts if they lie in the tenant's network, are rejected; what the two paths make of such rules is in `AclSpellings`. A rejected rule is a result; building its error text, which cuts account ids to eight characters, is not modelled.
- Ipam.GlobalIpam.constructor: pools are split one after another before the first allocation, while the source splits them in the background; the table holds blocks of the configured pools only.
- Ipam.GlobalIpam.QueryBlocks: a query that reports an error has changed nothing, and blocks that are in the table but not in memory do not occur.
- Accounts.AccountManager.RestoreIPAM: the accounts are such as a valid manager stores, and all their blocks are in the configured pools; an account with an unknown block is covered by `Ipam.GlobalIpam.RestoreAllocation` alone.
- MemoryStore.Store.EvictOldest: says which sender goes only if no sender id is empty, since the search uses the empty id for "none yet"; conversation keys never are.
- PeerAddresses.ValidatePeerIP: the account's networks are aligned /27 blocks with their gateways, as every stored account's are.
- PasswordReset.RunKeeps: each critical section is one step with one clock reading, time does not go back, and generated tokens are new under the truncated hash.
- BotConversation.RunKeeps: messages of one conversation are handled one after another; the peers and limits a question sets through the model's tools are bounded only by what those tools check.
- Unicode white space and Unicode letter case.
- Email normalisation, password hashing, sending of codes and the tenant registry behind the reset protocol.
- Recency order and capacity bounds of the cache: not kept by the code, which clears the head on removal of the head entry.
- The Bloom filter, the ARC and TinyLFU lists and statistics of the cache: written but never consulted.
- Clearing of entry values for the garbage collector, and sharing of rule objects between callers and the manager.
- The parsing of pool prefixes and of stored networks.
- Error texts, message rendering, analytics forms and filters, and what the WhatsApp and Claude services answer.
- The rest of the web proxy: header rewriting, CORS and WebSocket frames.
- Billing, backups, RouterOS, SSH, WireGuard, configuration and generated stubs: easy members or foreign services.
