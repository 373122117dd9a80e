# Verified model of flare-im-core

This project models the parts of the flare-im server whose correctness depends on whole runs
rather than on single calls, and proves what those runs keep:

- **Conversation sequence allocation** (`Integers`, `SequenceRanges`, `LeaseScript`, `LeaseSystem`, `LeaseOrder`,
  `LeaseRecovery`, `LeasedAllocator`, `SequenceAllocator`). Owner nodes hand out message numbers from
  local segments under a Redis lease `node:token`. `LeaseSystem` is a step system with any number of
  nodes, one Redis, real time, lost commands and replies, restarts, and plain, batch and floor
  allocation on the same counter. The script works on the strings and integer arrays that Redis
  handles. `LeasedAllocator` is the object one node runs, proved to make the same steps.
- **Migration tool** (`SqlSplitter`, `SqlProperties`, `SqlTokens`, `MigrationLedger`, `MigrationRuns`,
  `MigrationExact`). The two SQL lexers as loops against a definition of where tokens end, and the transactional run over the
  checksum ledger, with migration SQL as an arbitrary function of the database.
- **Signed Push records and plugin cards** (`Bytes`, `Decimal`, `PushProvenance`, `PushWire`,
  `PushRecords`, `PushExact`, `PluginCard`). Length-prefixed frames down to the byte, signing, verification, and the
  key ring over all its changes.
- **Three small machines** (`RotatingLog`, `SlidingWindow`, `AttestedBatch`).

`dafny verify dfyconfig.toml` checks the whole project.

Where the code does not meet a statement one would expect, the model keeps the code and proves the
exact condition:

- Numbers rise across a lease hand-over iff there is at most one node, or no node's segment, delay
  included, outlasts the lease time of any node that can write its lease's expiry (`OrderIff`). Only
  calls that issue are bound in time; a refused call may come back at any moment. For node ids without `:` this says that
  every call issues within the safety margin of its clock read, or, with segments of one number,
  before its own lease time is over (`OutlastIsMargin`). An id with a `:` lets the node named by
  the part before it write the expiry of the longer id's lease.
- The lease string reads back as written iff the node id has no `:` (`LeaseValueParses`); such a node
  can acquire a lease but is never granted a renewal (`GrantOnLiveLease`).
- A range repeats its last number iff it ends at the top of u64 (`NeverRepeatsIffBelowTop`).
- The floor script is `max + 1` below a bound iff the bound is at most 2^53 (`ScriptExactIff`).
- Two tenants share a counter key iff one id is the other or continues it after a `:` (`TenantIsolation`).
- Repeating a successful migration run succeeds iff every reviewed schema shape has a profile for the
  environment (`RepeatExecutesNothing`): a run on an empty database reads only the latest profile, the
  repeat reads all of them, and `RepeatCanBeRefused` gives a server on which the repeat is refused. The
  profiles in `tools/flare-migrate/schema` cover all nine shapes for both environments, so with them
  the condition holds.
- The rate limiter bounds intervals of a given length, over every run of a clock that may step back in
  lock order, iff length and step together fit in the window; under a limit of one iff the length
  fits in the window, whatever the clock does (`WindowBoundIff`).

## Model

| member | source | states |
|---|---|---|
| `SequenceRanges.DrainBelowTop` | crates/flare-im-seq/src/sequence_allocator.rs:67-75 | k calls of `take_next` on a range ending below the top of u64 give next, next+1, …, end once each and then nothing, for every k |
| `SequenceRanges.NeverRepeatsIffBelowTop` | crates/flare-im-seq/src/sequence_allocator.rs:67-75 | no number of calls ever repeats a number iff the end is below the top of u64, where `saturating_add` would stick |
| `LeaseScript.LeaseValueParses` | crates/flare-im-seq/src/leased_allocator.rs:226-243 | the lease string parses back to exactly the owner and token written iff the node id has no ':', otherwise to another owner and no token |
| `LeaseScript.GrantOnLiveLease` | crates/flare-im-seq/src/leased_allocator.rs:226-238 | on a present lease the decoded reply is a grant iff the caller wrote the lease, its id has no ':', and it expects no token or the current one |
| `LeaseScript.RunOnPlainLease` | crates/flare-im-seq/src/leased_allocator.rs:226-238 | on a present lease of an id without ':', a run by its writer with no token or the current one renews the lease for a full lease time and grants the numbers above the counter; every other run is refused and leaves lease, fence and counter exactly as they were |
| `LeaseScript.RunOnSplitLease` | crates/flare-im-seq/src/leased_allocator.rs:226-238 | on a lease of an id with a ':', nobody is granted; the expiry and the counter move only for the id before the ':' when it expects no token |
| `LeaseScript.MovesUngrantedIff` | crates/flare-im-seq/src/leased_allocator.rs:226-238 | the keys move without a grant exactly in that one case |
| `LeaseScript.GrantNeverRepeats` | crates/flare-im-seq/src/leased_allocator.rs:285-304 | every segment decoded from a reply of signed 64-bit integers is one from which no number is ever repeated |
| `LeasedCore.Configure` | crates/flare-im-seq/src/leased_allocator.rs:121-140 | the clamps always give a usable configuration (margin strictly below the lease time), leave a usable one alone, and otherwise move each value to the nearest usable one |
| `LeasedCore.SettleExact` | crates/flare-im-seq/src/leased_allocator.rs:176-213 | a grant answers its first number and keeps the rest, its token and its validity less the margin; a refusal or an empty segment clears the entry |
| `LeaseSafety.ExecuteEffect` | crates/flare-im-seq/src/leased_allocator.rs:220-245 | what one atomic script run does to lease, fence and counter: a grant is the numbers right above the old counter, under the current fence, with a full lease time; an absent lease is always granted; a refusal on the lease of an id without ':' changes nothing |
| `LeaseSafety.InvStep` | crates/flare-im-seq/src/leased_allocator.rs:150-245 | every step of every kind keeps the uniqueness and fencing invariants |
| `LeaseSafety.UniqueInEveryRun` | crates/flare-im-seq/src/leased_allocator.rs:150-214 | in every interleaving of nodes, expiries, lost replies, restarts and plain, batch or floor allocations, no number is issued twice, none is above the counter, and a number in a live segment or reply is unissued and held in one place only |
| `LeaseSafety.AbandonedForever` | crates/flare-im-seq/src/leased_allocator.rs:150-214 | a number at or below the counter that is neither issued nor held stays so in every continuation, so each number has one fate |
| `LeaseSafety.FencedInEveryRun` | crates/flare-im-seq/src/leased_allocator.rs:226-243 | in every reachable state a present lease is the string of the latest acquisition with the current fence value, every token in use belongs to its holder, and the owner of a token never changes later |
| `LeaseSafety.OwnersOnlyGrow` | crates/flare-im-seq/src/leased_allocator.rs:239-243 | acquisitions are only ever appended, one token each, so tokens strictly increase |
| `LeaseSafety.NoGrantToOthers` | crates/flare-im-seq/src/leased_allocator.rs:226-238 | while a lease is present no script run by another node is granted, and a renewal keeps the token |
| `LeaseSafety.SlowPathFenced` | crates/flare-im-seq/src/leased_allocator.rs:163-235 | the script sent from the slow path is granted on a present lease iff the node wrote that lease, its id has no ':', and its local entry, if any, carries the current token |
| `LeaseOrder.ReadingGap` | crates/flare-im-seq/src/leased_allocator.rs:150-162 | whole-millisecond readings never stretch the local validity: a read that passes the check is less than ttl - margin after the read of the grant's call |
| `LeaseOrder.IssuerOwnsLease` | crates/flare-im-seq/src/leased_allocator.rs:150-206 | whoever issues in time is the latest acquirer of a present lease at that moment, and its number exceeds all issued before, so a former owner issues nothing after a new grant |
| `LeaseOrder.ExpiryAfterRefill` | crates/flare-im-seq/src/leased_allocator.rs:226-238 | a script run leaves the expiry of a present lease alone or sets it a full lease time ahead, and only the writer or the id before its first ':' can do the latter |
| `LeaseOrder.OrderAcrossHandover` | crates/flare-im-seq/src/leased_allocator.rs:11-17 | with leased allocation only, in every run in which every issuing call issues in time, refused calls coming back whenever they do, the numbers issued by all nodes together are strictly increasing in issue order, if no segment outlasts a lease time that can be written over it; for every segment size |
| `LeaseOrder.OrderWithinMargin` | crates/flare-im-seq/src/leased_allocator.rs:129-130 | for ids without ':' or one common lease time, issuing within the clamped margin of the clock read is enough for that order |
| `LeaseOrder.LateIssueInverts` | crates/flare-im-seq/src/leased_allocator.rs:150-162 | a run with a smaller number issued after a larger one, for every configuration whose segment can outlast its lease: from the entry, or for one-number segments by a late delivery |
| `LeaseOrder.OrderIff` | crates/flare-im-seq/src/leased_allocator.rs:129-214 | for every segment size and number of nodes, the order holds in every timely run iff there is at most one node, or no segment, delay included, outlasts the lease time of a node that can write its lease's expiry |
| `LeaseOrder.OutlastIsMargin` | crates/flare-im-seq/src/leased_allocator.rs:129-130 | for ids without ':' that condition is exactly: no delay exceeds the node's own margin, or reaches its own lease time where segments are single numbers |
| `LeaseOrder.OneNodeOrdered` | crates/flare-im-seq/src/leased_allocator.rs:150-214 | a single node's numbers rise in every run, whatever its delays, restarts and lost replies |
| `LeaseRecovery.RefusalClears` | crates/flare-im-seq/src/leased_allocator.rs:208-212 | a delivered refusal issues nothing and leaves the node without its stale token |
| `LeaseRecovery.FreshIsGranted` | crates/flare-im-seq/src/leased_allocator.rs:226-243 | a script sent without a token is granted the numbers above the counter whenever no other node claims the lease |
| `LeaseRecovery.OtherIsRefused` | crates/flare-im-seq/src/leased_allocator.rs:226-235 | another node's script on the lease of a readable id is refused and changes no key |
| `LeaseRecovery.RefusedAtMostOnce` | crates/flare-im-seq/src/leased_allocator.rs:163-212 | after one refusal, whatever expires, fails or is lost and whatever other nodes' scripts try, the next reply that reaches the node grants it a number, as long as no other node takes the lease |
| `LeasedAllocator.RedisBackend.AcquireAndRefill` | crates/flare-im-seq/src/leased_allocator.rs:272-307 | one script run against the keys: outcome and new keys for an answered, a lost and an unreachable command |
| `LeasedAllocator.LeasedSegmentAllocator.Settled` | crates/flare-im-seq/src/leased_allocator.rs:176-213 | what a backend outcome does to the entry and answers, other conversations untouched |
| `LeasedAllocator.LeasedSegmentAllocator.Allocate` | crates/flare-im-seq/src/leased_allocator.rs:150-214 | `allocate` on the object's map and the Redis keys is exactly one modelled call, no other conversation changes on either side, and the number of scripts sent is known |
| `LeasedAllocator.UnansweredKeepsEntry` | crates/flare-im-seq/src/leased_allocator.rs:164-174 | a call whose answer never arrives leaves the node's entry as it was, and the keys too if it never reached Redis |
| `LeasedAllocator.FastRefinesPlain` | crates/flare-im-seq/src/leased_allocator.rs:154-206 | k allocations of a sole owner return exactly what k plain INCRs would iff the segment is locally valid whenever it is used, and then they send ceil(k / segment size) scripts |
| `LeasedAllocator.SegmentsIsCeil` | crates/flare-im-seq/src/leased_allocator.rs:11-17 | the script count is k over the segment size rounded up |
| `LeaseCallSteps.StepsMakeCall` | crates/flare-im-seq/src/leased_allocator.rs:150-214 | the object's call and the step system agree, whenever the clock was read and however long command and answer take: Fast alone; or Send, Execute, Deliver when answered; Send, Execute, Fail when the reply is lost; Send, Vanish, Fail when unreachable |
| `LeaseCallSteps.PlainIsIncr` | crates/flare-im-seq/src/sequence_allocator.rs:206-210 | the plain step of the system is INCR |
| `LeaseCallSteps.FloorIsScript` | crates/flare-im-seq/src/sequence_allocator.rs:230-284 | the floor step of the system is the floor-guarded allocation, in Lua's arithmetic |
| `LeaseCallSteps.BatchIsIncrBy` | crates/flare-im-seq/src/sequence_allocator.rs:330-367 | the batch step of the system hands out exactly the batch allocation's numbers and leaves its counter |
| `SequenceAllocator.ScriptExactIff` | crates/flare-im-seq/src/sequence_allocator.rs:49-54 | the floor script in Lua's double arithmetic is max + 1 on all values below a bound iff the bound is at most 2^53 |
| `SequenceAllocator.ScriptRepeatsAtLimit` | crates/flare-im-seq/src/sequence_allocator.rs:49-54 | at 2^53 the script returns the counter's own value again |
| `SequenceAllocator.NextSeqIsSeqAfterFloor` | crates/flare-im-seq/src/sequence_allocator.rs:157-159 | the floor = 0 shortcut and the script path both equal the reference `seq_after_floor` below 2^53 |
| `SequenceAllocator.Allocator.AllocateSeq` | crates/flare-im-seq/src/sequence_allocator.rs:206-210 | plain INCR: one above the old counter, only that key changes |
| `SequenceAllocator.Allocator.AllocateSeqWithFloor` | crates/flare-im-seq/src/sequence_allocator.rs:230-284 | the least number above both counter and floor where Lua is exact; only that key changes |
| `SequenceAllocator.Allocator.AllocateBatch` | crates/flare-im-seq/src/sequence_allocator.rs:330-367 | exactly the batch of numbers right above the old counter, in order, and the counter at the last of them |
| `SequenceAllocator.SelfHealing` | crates/flare-im-seq/src/sequence_allocator.rs:230-284 | over any run of floor-guarded allocations and counter resets the results strictly increase iff the first floor after each reset covers every number issued before; later floors may be stale |
| `SequenceAllocator.TenantIsolation` | crates/flare-im-seq/src/sequence_allocator.rs:383-385 | exactly when two tenants can reach the same counter key |
| `SqlSplitter.Statements` | tools/flare-migrate/flare_migrate.py:53-102 | the cursor loop over token, depth and quotes yields exactly the pieces of the token-level definition, raises exactly when a token is never closed, and has by then yielded the pieces before that token |
| `SqlSplitter.InsideToken` | tools/flare-migrate/flare_migrate.py:60-81 | one turn inside a comment, quoted text or dollar body makes progress and leaves what is still to come unchanged |
| `SqlProperties.RejoinSplit` | tools/flare-migrate/flare_migrate.py:53-102 | joining the pieces with ';' gives back exactly the input |
| `SqlProperties.YieldedBeforeRaise` | tools/flare-migrate/flare_migrate.py:94-102 | when splitting raises, the pieces yielded by then, joined and cut by ';', are a prefix of the input |
| `SqlProperties.PiecesSplitToThemselves` | tools/flare-migrate/flare_migrate.py:53-102 | every piece, split on its own, is one piece: itself |
| `SqlProperties.SplitAtCuts` | tools/flare-migrate/flare_migrate.py:94-97 | the pieces are the text between the cuts |
| `SqlProperties.CutsAreTopLevelSemicolons` | tools/flare-migrate/flare_migrate.py:94-97 | a position is a cut iff it is a semicolon the lexer meets between tokens |
| `SqlProperties.NoCutInsideToken` | tools/flare-migrate/flare_migrate.py:60-93 | no position the lexer is at between tokens lies strictly inside a comment, quoted text or dollar body |
| `SqlProperties.QuotedTextIsOnePiece` | tools/flare-migrate/flare_migrate.py:73-90 | any text, with its single or double quotes doubled, is a single literal in which nothing is cut or read as a comment |
| `SqlProperties.DollarBodyIsOnePiece` | tools/flare-migrate/flare_migrate.py:73-93 | a dollar body whose tag occurs again only at its end is a single token, whatever it holds |
| `SqlProperties.CommentIsOnePiece` | tools/flare-migrate/flare_migrate.py:64-87 | a block comment whose text nests comments properly is a single token, whatever it holds |
| `SqlTokens.TagIff` | tools/flare-migrate/flare_migrate.py:91-93 | what is read as a dollar tag is exactly `$$` or an ASCII identifier between dollar signs, and wherever one stands it is read |
| `SqlTokens.TaggedBodyIsOnePiece` | tools/flare-migrate/flare_migrate.py:73-93 | a dollar body under any such tag is a single token |
| `SqlTokens.LineCommentIsOnePiece` | tools/flare-migrate/flare_migrate.py:60-63 | a line comment is a single token up to its line break |
| `SqlTokens.PlainTextIsCutAtSemicolons` | tools/flare-migrate/flare_migrate.py:94-99 | text without quotes, dollar signs and comment marks is cut at every one of its semicolons and nowhere else |
| `SqlProperties.ExecutableHead` | tools/flare-migrate/flare_migrate.py:105-130 | the second lexer's loops return the suffix at the modelled head position, and raise exactly when a leading comment never ends |
| `SqlProperties.LexersAgree` | tools/flare-migrate/flare_migrate.py:105-130 | on everything the splitter accepts the head lexer does not raise, stops where neither white space nor a comment begins, and there the splitter is between tokens with the same pieces to come |
| `SqlTokens.HeadIff` | tools/flare-migrate/flare_migrate.py:105-130 | the head is found at a position iff only white space and comments come before it and neither begins there |
| `SqlProperties.ValidationNeverMissesCommentEnd` | tools/flare-migrate/flare_migrate.py:133-149 | on every piece of an accepted file neither of the two head calls of `validate_sql` can raise, the second being on what follows the leading keyword |
| `MigrationRuns.Database.CheckLedger` | tools/flare-migrate/flare_migrate.py:419-439 | the loop accepts exactly the contiguous, checksum-matching, audited prefixes of the migration list |
| `MigrationRuns.Database.ExecutePending` | tools/flare-migrate/flare_migrate.py:490-492 | the loop applies and records the pending list one by one, or fails |
| `MigrationRuns.Database.Finish` | tools/flare-migrate/flare_migrate.py:483-497 | commit exactly when all SQL ran, the seeds are as expected and the schema is the latest; otherwise the committed state is unchanged |
| `MigrationRuns.Database.Run` | tools/flare-migrate/flare_migrate.py:448-498 | the whole run as one transaction: its result and the committed state, and a failed run changes nothing |
| `MigrationExact.RunSucceedsIff` | tools/flare-migrate/flare_migrate.py:448-498 | a run succeeds iff writers are trusted, the lock is free, the ledger matches, it is a first run without admission, an adoption (reviewed schema, no ambiguous status, valid and current admission) or a continuation (reviewed schema, no admission), and the pending SQL runs, keeps the seeds and lands on the latest schema; it then leaves exactly the replay of that SQL |
| `MigrationExact.StartReasons` | tools/flare-migrate/flare_migrate.py:448-482 | which refusal a run gets before it executes anything: that of the first check it fails |
| `MigrationExact.LedgerAcceptedIff` | tools/flare-migrate/flare_migrate.py:419-439 | a ledger is accepted iff numbered from 1, no longer than the list, equal in every checksum and audited |
| `MigrationExact.AdmissionValidIff` | tools/flare-migrate/flare_migrate.py:352-381 | an admission is valid iff it names a reviewer, a reference and a zoned date, carries a 64-digit hex digest and reviews each seed as it was found |
| `MigrationExact.ReviewedIff` | tools/flare-migrate/flare_migrate.py:320-325 | a schema is reviewed iff all nine shapes have a profile for its environment and it equals one of them |
| `MigrationExact.SpaceIff` | tools/flare-migrate/flare_migrate.py:105-110 | the white space of both lexers is exactly the listed code points |
| `MigrationRuns.ExecuteAllEffects` | tools/flare-migrate/flare_migrate.py:490-492 | executing the list gives the database of replaying its SQL in order, appends exactly its effects and exactly one plain ledger row each |
| `MigrationRuns.SuccessfulRun` | tools/flare-migrate/flare_migrate.py:448-498 | a successful run records the full list and leaves the latest schema |
| `MigrationRuns.LedgerOverHistory` | tools/flare-migrate/flare_migrate.py:419-498 | over every sequence of successful and failed runs with an append-only list, and any application work in between, the ledger is a contiguous checksum-matching prefix and the SQL in effect is that prefix less an adopted version 1 |
| `MigrationRuns.EffectsAtMostOnce` | tools/flare-migrate/flare_migrate.py:448-498 | in such a state no version's SQL is in effect twice, and an adopted version 1 never is |
| `MigrationRuns.OnceOverHistory` | tools/flare-migrate/flare_migrate.py:419-498 | from a database without a ledger, over every history, the ledger is a matching prefix and each version's SQL took effect at most once |
| `MigrationRuns.RepeatExecutesNothing` | tools/flare-migrate/flare_migrate.py:320-325 | repeating a successful run changes nothing, and succeeds iff every reviewed shape has a profile for the environment |
| `MigrationRuns.RepeatCanBeRefused` | tools/flare-migrate/flare_migrate.py:475-480 | a server with only a latest profile on which the first run over an empty database succeeds and the repeat is refused |
| `MigrationRuns.SeedsOverHistory` | tools/flare-migrate/flare_migrate.py:478-494 | over every sequence of successful and failed runs on a database that is not empty, the seeds stay what they were, but for the bootstrap RTC grant, which is gone exactly once the ledger has passed version 19 |
| `Bytes.FieldsInjective` | crates/flare-im-service-kit/src/push_provenance.rs:518-540 | equal concatenations of equally many length-prefixed fields have equal fields and equal remainders |
| `Bytes.Utf8Injective` | crates/flare-im-service-kit/src/plugin_platform.rs:155-158 | different strings have different UTF-8 bytes |
| `PushProvenance.SigningFrame` | crates/flare-im-service-kit/src/push_provenance.rs:518-540 | the buffer filled part by part is the frame whose injectivity is proved |
| `PushExact.FrameLayout` | crates/flare-im-service-kit/src/push_provenance.rs:518-540 | the frame written out: domain, version, the nine fields in order behind their lengths, both times and the payload length |
| `PushExact.DomainSpells` | crates/flare-im-service-kit/src/push_provenance.rs:518-540 | the domain is the ASCII of its name and a NUL |
| `PushProvenance.FrameInjective` | crates/flare-im-service-kit/src/push_provenance.rs:518-540 | records with equal frames agree on version, all eight identifiers, digest, both times and payload length |
| `PushProvenance.AcceptableFits` | crates/flare-im-service-kit/src/push_provenance.rs:477-516 | every record that passes the field checks has lengths that fit their prefixes |
| `PushExact.SoundIff` | crates/flare-im-service-kit/src/push_provenance.rs:477-516 | a record passes the field checks iff version, the eight names, both times, payload, digest and signature length are each as required |
| `PushExact.NameReasons` | crates/flare-im-service-kit/src/push_provenance.rs:466-500 | the first bad name in order gets its own complaint |
| `PushWire.EncodingUnderCap` | crates/flare-im-service-kit/src/push_provenance.rs:327-336 | the field limits keep every acceptable record's proto3 encoding under the wire cap, whatever its field numbers |
| `PushExact.SignedCarriesInput` | crates/flare-im-service-kit/src/push_provenance.rs:186-226 | a signed record carries the caller's topic, key, tenant, event, source event, schema and payload, the signer's names, the digest and times, and the signature over its own frame |
| `PushExact.SignSucceedsIff` | crates/flare-im-service-kit/src/push_provenance.rs:186-226 | signing succeeds iff the signer's checks pass, every name and the payload are good and the time is positive; the signer's checks refuse first |
| `PushExact.SignerReasons` | crates/flare-im-service-kit/src/push_provenance.rs:186-205 | which of topic, key window, lifetime and verification end refuses: the first that fails |
| `PushExact.VerifyAcceptsIff` | crates/flare-im-service-kit/src/push_provenance.rs:319-384 | bytes are accepted as a record iff canonical and under the cap, sound, for this topic, key and schema, of a lifetime of at most a day, in time, under a policy that permits the topic and covers the times, with digest and signature right |
| `PushExact.EnvelopeReasons` | crates/flare-im-service-kit/src/push_provenance.rs:338-372 | which refusal a sound record gets: that of the first check it fails |
| `PushExact.VerifyReasons` | crates/flare-im-service-kit/src/push_provenance.rs:319-384 | which refusal any bytes get |
| `PushRecords.SignVerifyAgree` | crates/flare-im-service-kit/src/push_provenance.rs:186-384 | a record `sign_at` produced, whose signature verifies and whose encoding decodes, is accepted by a verifier with the same policy, topic, key and schema exactly when issued_at - 30000 <= now < expires_at, and otherwise gets the exact error |
| `PushRecords.AcceptedWasSigned` | crates/flare-im-service-kit/src/push_provenance.rs:373-384 | an accepted record is field for field one that was signed with the key registered for its producer and key id |
| `PushRecords.SignedLogDecides` | crates/flare-im-service-kit/src/push_provenance.rs:186-384 | under one ideal signature: a signed record is accepted exactly inside its interval, and whatever is accepted at any time is a record of the signed log |
| `PushRecords.AssumptionsMeet` | crates/flare-im-service-kit/src/push_provenance.rs:373-384 | for every acceptable record there are foreign functions and a signed log that meet all the assumptions of these results together |
| `PushRecords.CheckTopics` | crates/flare-im-service-kit/src/push_provenance.rs:449-464 | the loop returns the set of the topics, or the first topic's complaint, or refuses an empty list |
| `PushRecords.PushRecordVerifier.AddKey` | crates/flare-im-service-kit/src/push_provenance.rs:248-279 | every refusal with its reason and the ring unchanged; success adds exactly one identity |
| `PushExact.AddSucceedsIff` | crates/flare-im-service-kit/src/push_provenance.rs:248-279 | an add succeeds iff its names and topics are good, the identity is free, and no other producer holds the key |
| `PushExact.AddReasons` | crates/flare-im-service-kit/src/push_provenance.rs:248-279 | which refusal an add gets: that of the first check it fails |
| `PushExact.AddPuts` | crates/flare-im-service-kit/src/push_provenance.rs:270-279 | a successful add puts exactly the given key, topics and window under the identity and touches no other |
| `PushExact.PolicyStays` | crates/flare-im-service-kit/src/push_provenance.rs:248-298 | over all runs, a registered policy is never overwritten: until its identity is revoked it stays what it was |
| `PushRecords.PushRecordVerifier.RevokeKey` | crates/flare-im-service-kit/src/push_provenance.rs:294-298 | removes exactly the identity and says whether it was there |
| `PushRecords.OneProducerAlways` | crates/flare-im-service-kit/src/push_provenance.rs:248-279 | over all runs of adds and revokes no public key is registered under two producers |
| `PushRecords.OthersDoNotMatter` | crates/flare-im-service-kit/src/push_provenance.rs:360-372 | no run of changes to other identities changes the verdict on a record naming this one |
| `PushRecords.RevokedRejects` | crates/flare-im-service-kit/src/push_provenance.rs:294-298 | after a revocation every record naming the key is refused until an add of it succeeds |
| `PluginCard.CardPostRequestId` | crates/flare-im-service-kit/src/plugin_platform.rs:165-189 | the hasher is fed exactly the twelve length-prefixed fields, in order, and the id is the prefixed hex digest |
| `PluginCard.HashedInjective` | crates/flare-im-service-kit/src/plugin_platform.rs:155-189 | equal hashed bytes mean equal twelve fields |
| `PluginCard.NamesInjective` | crates/flare-im-service-kit/src/plugin_platform.rs:165-189 | equal encoded fields mean equal strings and, through decimal printing, equal conversation type |
| `PluginCard.OneContextOneCard` | crates/flare-im-service-kit/src/plugin_platform.rs:196-242 | two messages accepted under the same claims are equal on every field the check names |
| `PluginCard.AcceptedIffPosted` | crates/flare-im-service-kit/src/plugin_platform.rs:196-242 | a message is accepted iff it is, field by field, the one Capability posts for the context it signed: its key, a user actor who is the sender, the one role, no credential, the request id of this very post, and every other named field fixed or empty |
| `PluginCard.RefusalReasons` | crates/flare-im-service-kit/src/plugin_platform.rs:200-236 | which refusal a message gets for its identity or shape: that of the first check it fails |
| `PluginCard.OtherContextRefused` | crates/flare-im-service-kit/src/plugin_platform.rs:237-240 | a message of the right shape is refused for its context iff the request id is not its own |
| `PluginCard.NamesInOrder` | crates/flare-im-service-kit/src/plugin_platform.rs:169-181 | the eleven hashed names, each in its place |
| `RotatingLog.Log.constructor` | scripts/lib/rotating_service.py:25-37 | opening cuts every oversized file to its last bytes, creates the log if missing, and otherwise changes, adds or removes no file |
| `RotatingLog.Log.Rotate` | scripts/lib/rotating_service.py:41-53 | the renames move every file up one slot, gaps included, and start an empty log |
| `RotatingLog.Log.Write` | scripts/lib/rotating_service.py:39-57 | writing appends all of the data to what was written and keeps the log's invariant |
| `RotatingLog.RotationKeepsSuffix` | scripts/lib/rotating_service.py:41-53 | a rotation drops only the oldest bytes of what the files read oldest to newest spell |
| `RotatingLog.KeptLength` | scripts/lib/rotating_service.py:39-57 | at least min(written, backups * limit) bytes are kept |
| `RotatingLog.TotalBound` | scripts/lib/rotating_service.py:39-57 | all files together hold at most (backups + 1) * limit bytes |
| `RotatingLog.Log.Holds` | scripts/lib/rotating_service.py:25-57 | for any pre-existing files and any writes: every file within the limit, the files read oldest to newest are exactly the end of the last bytes of each pre-existing file, in order, plus everything written, and the last min(written, backups * limit) bytes are there contiguously |
| `SlidingWindow.Limiter.Allow` | examples/hook_rate_limit.rs:93-103 | the decision and the new per-key list after any history, no other key's list touched |
| `SlidingWindow.DecidesLikeFullHistory` | examples/hook_rate_limit.rs:93-103 | the pruned list decides exactly as a count over all admitted calls ever would |
| `SlidingWindow.WindowBound` | examples/hook_rate_limit.rs:93-103 | at most the configured number of admitted calls in every interval of the window's length, or shorter by what the clock may step back |
| `SlidingWindow.SingleBound` | examples/hook_rate_limit.rs:93-103 | under a limit of one, every interval up to the window holds at most one admitted call, whatever the clock does |
| `SlidingWindow.WindowBoundIff` | examples/hook_rate_limit.rs:93-103 | for every limit, exactly which interval lengths are bounded in every run of a clock with a given slack: the rest are exceeded by some run |
| `SlidingWindow.OtherKeysDoNotMatter` | examples/hook_rate_limit.rs:93-103 | a key's list and admissions depend on that key's own calls only |
| `AttestedBatch.Collect` | crates/flare-im-service-kit/src/push_delivery.rs:269-277 | the first loop gathers exactly the attestable records, attested and in order, and their positions |
| `AttestedBatch.HandleBatch` | crates/flare-im-service-kit/src/push_delivery.rs:265-290 | the inner handler sees exactly the attestable records in order, its results go back to their positions, every other position is the dead letter, and a wrong count is an error |
| `AttestedBatch.BatchAnswers` | crates/flare-im-service-kit/src/push_delivery.rs:265-290 | case by case: all dead letters when nothing is attestable, the inner error, an error on a wrong count, and otherwise each attestable record's own answer at its own position |
| `AttestedBatch.BatchRefinesSingle` | crates/flare-im-service-kit/src/push_delivery.rs:258-290 | for an inner handler whose batch form is pointwise its single form, the batch succeeds iff every single call does, and then with the same list |

## Left out

- Redis, PostgreSQL, NATS and gRPC clients, tracing and metrics: only the atomic script, the node lock and the database transaction are kept.
- LeaseSafety.UniqueInEveryRun: the counter stays within 2^53 and the fence within 14 digits, where Lua's numbers and their printing are exact, so INCRBY's overflow error is not modelled; Redis is not flushed inside this step system (flushes are in `SequenceAllocator.SelfHealing`).
- LeaseSafety.UniqueInEveryRun: a plain, batch or floor reply is delivered or lost at the moment the command runs; the lease path keeps the two apart.
- LeaseOrder.OrderIff: node ids are distinct and all clocks run at the same rate; the converse asks for room for a hand-over below 2^53. A lease may go at the very moment of its expiry, while Redis drops a key only once its clock is past it, so the strict bound for one-number segments is exact for the model and by that moment stronger than the server needs.
- LeaseRecovery.RefusedAtMostOnce: for ids without ':'; `GrantOnLiveLease` shows why a renewal under any other id is refused.
- Node clocks: the modelled reading is whole milliseconds since process start; drift and clock errors are not modelled.
- MigrationRuns.LedgerOverHistory: migration SQL does not write the ledger table, and the ledger's own catalog check is not modelled; JSON documents are compared as values rather than through their canonical text.
- `validate_sql`: the backslash, keyword and CONCURRENTLY refusals; only its use of the two lexers is modelled.
- `load_migrations`, `read_admission`: file names, symbolic links and sizes; the loaded list is taken as numbered from 1 without a gap.
- SHA-256, Ed25519 and protobuf decoding are parameters; each lemma names what it assumes of them (decoding inverts encoding, a signature verifies only frames that were signed, no digest collision between the payloads at hand).
- PushRecords.SignVerifyAgree: the encoder is any proto3 encoder of the fourteen fields; the actual field numbers are not fixed.
- `PushKeyWindow::new`, the signer's constructor and PEM parsing: one-branch checks.
- PluginCard.OneContextOneCard: fields of the wire types that the check does not name are one opaque part and may differ.
- RotatingLog.Log.Write: raw writes are complete; file locks, symbolic links, signals and the child process are not modelled.
- SlidingWindow.Limiter.Allow: the mutex is the order of the calls in the history.
- AttestedBatch.HandleBatch: attestation is a function of the record, so a fresh request id per call is not modelled, and the inner handler is a function of its input.
- scripts/repair_seq_highwater.py, the circuit breaker, configuration, gateways and client examples: outside this model or only easy members.
