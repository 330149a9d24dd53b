# Pertisk: verified model

Pertisk is an immutable Kubernetes node operating system. This project models the parts of it that
hold real algorithms or protocols, and proves what they are for:

- `Text`: line splitting, trimming and search on ASCII text, as the Rust string methods do them.
- `YamlRepair`, `YamlTree`, `YamlList`, `YamlDedup`: the line editor that drops earlier duplicates of a
  YAML key, ordered key/value trees and lists of them with a block-style printer as its meaning, and
  the repair loop.
- `ConfigMerge`: the deep merge of partial machine configs.
- `AddressRewrite`: replacing an IP address in stored files.
- `InitialCluster`: printing and parsing etcd member lists, and who heals.
- `EtcdManifest`, `EtcdForced`: the manifest rewrites of a forced new cluster, one by one and as a whole,
  and what the next heal reads.
- `EtcdJoin`: control-plane joins and heals as an interleaved step protocol around an etcd server.
- `LogTail`, `LokiPush`: incremental log tailing and the batch pusher.
- `ChunkedBody`: chunked HTTP/1.1 bodies (section 7.1 of RFC 9112) and responses.
- `Kubeconfig`: rendering, renaming and rewriting kubeconfig texts.
- `ResetTokens`, `ClusterRefresh`: check-then-act protocols of the management plane.
- `DiskLayout`: partition planning, writing and growth.

Loops and updates of the source are methods here, each proved equal to a specification function;
the main results are lemmas about those functions, or about all runs of a step function.

## What the proofs turned up

Where a property the code is written for fails, the code is modelled as it is, and a lemma gives the
exact condition or the failing family.

- Dropping a duplicate whose value is a list at the key's own indent leaves the list items behind;
  repair is "last wins" exactly when no dropped duplicate is of that kind (`YamlTree.RepairIsLastWins`).
  Such items become the value of an empty entry right before them: the text stays a well-formed
  mapping that says something else (`YamlTree.StrayItemsAreAdopted`).
- In a list of mappings the first entry of an element, on the line of the dash, is not seen as a
  duplicate, and in the elements too repair is "last wins" exactly up to these two kinds
  (`YamlList.RepairInList`).
- For a key that starts with `#` the editor takes the next duplicates for comments and can delete
  the last one too (`YamlDedup.CommentKeysLoseTheLast`). This is about the editor alone: in that text
  the key lines are comments for a YAML parser as well, so none reports the key.
- The 64 rounds of the repair loop are tight on flat mappings (`YamlDedup.CapIsTight`); without
  the cap the loop would end by itself (`YamlDedup.LoopEndsByItself`).
- Two partial applies are one apply of the merged patch exactly unless the middle patch puts a
  non-mapping between two mappings of which the later does not cover the earlier
  (`ConfigMerge.MergeIsAssociative`).
- `replace_ip_token` forgets the digit before an occurrence right behind one it left alone, and a
  dot bounds an address for it. So it replaces whole tokens exactly on the texts in which its scan
  hits no other run of digits and dots, among them all whose runs have at most three dots
  (`AddressRewrite.RewriteIsPerToken`, `AddressRewrite.SparseIsPerToken`).
- From ten control planes on a second node besides `-cp-1` takes itself for the healer, because
  `-cp-10=` sorts before `-cp-1=` (`InitialCluster.OneHealerUpToNine`).
- A manifest line that holds `--initial-cluster=` together with a flag that is rewritten earlier
  loses its member list, and a healed `-cp-1` node then forces a new cluster again at every heal
  (`EtcdManifest.HealingConverges`, `EtcdManifest.SharedLineLosesTheList`).
- A node whose name ends like the cluster-state flag loses its member list to the finalize rewrite,
  and one whose name ends like the listen flag loses it to the listen rewrite when that has something
  to do; all other clean names keep it (`EtcdManifest.NamesThatKeepTheList`).
- Widening the listen address drops the list marker of its line, which then is no item of the command
  any more (`EtcdForced.ListenLosesTheMarker`).
- The join protocol is safe exactly when host names are distinct (`EtcdJoin.JoinsKeepQuorum`): on a
  node that shares its host name with a member listed before it, a heal fails to update the wrong
  member and goes on to force a new cluster while there is a leader (`EtcdJoin.SharedHostNameForces`).
  The failing start is one that the theorem allows, not one that joins are shown to reach: though the
  default host name is the same on all nodes, a joiner of that name would list one name with two
  URLs, and etcd does not start with such a list.
- A log file replaced by one at least as long is not read like a new one, and once the kernel ring
  buffer drops a line, nothing new of it is pushed (`LogTail.ReplacementNoticed`,
  `LogTail.RingLosesLines`).
- A follower of the kernel log is sent the last 20 lines when the log no longer extends what it saw;
  nothing is missing exactly if at most 20 lines are new (`LogTail.RotationSendsTheEnd`).
- An extra Loki label called `service` overrides the label that tells the services apart
  (`LokiPush.BodyTellsServices`).
- A chunked response that ends between two chunks reads as complete
  (`ChunkedBody.LostChunksUnnoticed`); a chunk size near the word size overflows
  (`ChunkedBody.ChunkAt`).
- Overlapping creations, or one whose first statement fails (its outcome is ignored), leave two
  usable reset tokens (`ResetTokens.OverlapLeavesTwo`).
- Rounding the last partition up to whole MiB runs into the backup partition table exactly if the
  disk is less than 33 sectors more than whole MiB, and not whole MiB (`DiskLayout.RoundingSparesBackup`).

## Model

| member | source | states |
|---|---|---|
| YamlRepair.KeyBlockEnd | crates/pertisk-config/src/lib.rs:809-833 | the nested loops compute the block end of the specification |
| YamlRepair.BlockEndIsTheBlock | crates/pertisk-config/src/lib.rs:809-833 | that end is the only one such that all in the block is noise or deeper, the block does not end in noise, and what follows past noise is not deeper |
| YamlRepair.SameMappingParent | crates/pertisk-config/src/lib.rs:794-807 | true iff no content line between the two, in either order, is less indented |
| YamlRepair.CollectOccurrences | crates/pertisk-config/src/lib.rs:747-756 | the loop collects exactly the key lines of the hint's mapping |
| YamlRepair.NearestIsNearest | crates/pertisk-config/src/lib.rs:738-745 | the indent is taken from a key line nearest to the hint, the earlier one of two equally near |
| YamlRepair.RemoveEarlierKeyOccurrence | crates/pertisk-config/src/lib.rs:723-792 | the whole edit, with hint clamping, the two early exits and the final newline, is the specified edit |
| YamlTree.EditedLinesVsKeepLast | crates/pertisk-config/src/lib.rs:762-785 | what the editor leaves is the print of keep-last unless a dropped duplicate holds a same-indent list, and then it is strictly longer |
| YamlTree.RemoveInMapping | crates/pertisk-config/src/lib.rs:723-792 | in any surroundings, editing a printed mapping keeps everything around it and leaves exactly the edited lines; with one entry it does nothing |
| YamlTree.RepairIsLastWins | crates/pertisk-config/src/lib.rs:723-833 | for every well-formed tree, nested mapping and hint on a duplicate: the edited print is the print of the tree with only the last duplicate kept, iff no dropped one holds a same-indent list |
| YamlTree.StrayItemsAreAdopted | crates/pertisk-config/src/lib.rs:762-785 | when an entry without a value stands before a dropped duplicate with a same-indent list, the result is that of editing the well-formed mapping in which this entry holds the list, and its print if no other list is dropped |
| YamlList.RepairInList | crates/pertisk-config/src/lib.rs:723-833 | for every list of mappings anywhere in a document, element, nested mapping and hint on a duplicate that is not on a dash line: the edited print is the print with only the last duplicate kept, iff no dropped one is the first entry of the element or holds a same-indent list |
| YamlDedup.RemoveShrinks | crates/pertisk-config/src/lib.rs:764-785 | every successful edit gives a strictly shorter, order-preserving subsequence of the lines |
| YamlDedup.DroppedBlocksAreDisjoint | crates/pertisk-config/src/lib.rs:762-772 | the dropped block of an occurrence ends at or before the next occurrence, for keys that do not start a comment |
| YamlDedup.DroppedLinesAreNested | crates/pertisk-config/src/lib.rs:809-833 | each dropped line is the key line, noise, or deeper than the key |
| YamlDedup.OpenTextOfEdit | crates/pertisk-config/src/lib.rs:787-791 | a text without a final newline has none after the edit |
| YamlDedup.HintIsClamped | crates/pertisk-config/src/lib.rs:734-736 | line number 0 stands for the first line, and one behind the last line for that |
| YamlDedup.CommentKeysLoseTheLast | crates/pertisk-config/src/lib.rs:809-833 | for every key that starts with a number sign there is a text from which the editor, called with that key, deletes the last duplicate too |
| YamlDedup.DedupBlockYamlKeys | crates/pertisk-config/src/lib.rs:676-697 | the loop, with all its early returns, is 64 rounds of the edit for any parser; on the print of a tree without dropped lists, with a truthful parser, it returns the print of the normal form if at most 64 keys are duplicated, and on a flat mapping with more exactly 64 of them are gone |
| YamlDedup.RemoveTextShrinks | crates/pertisk-config/src/lib.rs:686-690 | an edit that changes the text makes it shorter, which is the loop's measure |
| YamlDedup.LoopEndsByItself | crates/pertisk-config/src/lib.rs:676-697 | once the rounds exceed the length of the text, more rounds change nothing |
| YamlDedup.RepairedTextIsNormal | crates/pertisk-config/src/lib.rs:676-697 | with a parser that is truthful in each round, at most 64 duplicates, and no duplicate that holds a same-indent list among those to be dropped: the loop's result is the print of the tree in which every mapping keeps the last entry of each key |
| YamlDedup.CapIsTight | crates/pertisk-config/src/lib.rs:676-697 | under the same premises on parser and lists, on a flat mapping the loop reaches that normal form iff there are no more duplicates than rounds, and else leaves exactly the excess |
| YamlDedup.DuplicatesShow | crates/pertisk-config/src/lib.rs:681-686 | some line of the printed tree is a duplicate that a parser can report iff some key is duplicated in some mapping |
| YamlDedup.TruthfulParserExists | crates/pertisk-config/src/lib.rs:676-697 | for every well-formed tree and number of rounds there is a parser that is truthful in each of them; the two results on such parsers still need their premise on lists |
| ConfigMerge.DeepMerge | crates/pertisk-config/src/lib.rs:634-650 | the recursive loop over the patch, in any order of its entries, computes the merge |
| ConfigMerge.LeavesOfMerge | crates/pertisk-config/src/lib.rs:632-650 | the leaves of a merge are the leaves of the patch and the base leaves on paths the patch does not decide, and no others |
| ConfigMerge.MergeIsIdempotent | crates/pertisk-config/src/lib.rs:634-650 | applying a patch twice is applying it once |
| ConfigMerge.CoveredBaseVanishes | crates/pertisk-config/src/lib.rs:634-650 | merging onto a base gives the patch alone iff the patch has a say wherever the base has one |
| ConfigMerge.MergeIsAssociative | crates/pertisk-config/src/lib.rs:634-650 | merging is associative for three values iff a clash of the middle one is covered by the last |
| ConfigMerge.NoClashComposes | crates/pertisk-config/src/lib.rs:634-650 | in particular whenever the middle patch has no non-mapping between two mappings |
| ConfigMerge.ClashLosesTheBase | crates/pertisk-config/src/lib.rs:634-650 | a concrete clash for which it fails |
| AddressRewrite.ReplaceIpTokenLoop | crates/pertisk-bootstrap/src/lib.rs:599-623 | the scanning loop computes the specified scan |
| AddressRewrite.RewriteIsPerToken | crates/pertisk-bootstrap/src/lib.rs:599-623 | for a dotted quad, any replacement and every text: exactly the maximal digit/dot runs equal to the old address are replaced, iff the two are equal or the scan, run on each other run alone, finds no occurrence that its digit guard lets through |
| AddressRewrite.SparseIsPerToken | crates/pertisk-bootstrap/src/lib.rs:599-623 | no other run is hit when no run has more than three dots |
| AddressRewrite.RewriteAndBack | crates/pertisk-bootstrap/src/lib.rs:599-623 | when no run has more than three dots, moving from a to b and back restores the text iff a is b or b was no run in it |
| AddressRewrite.CrowdedRunIsRewritten | crates/pertisk-bootstrap/src/lib.rs:599-623 | a failing text for every address: written twice in a row it is one run of six dots, and its second copy is replaced |
| InitialCluster.ParseEtcdInitialCluster | crates/pertisk-bootstrap/src/etcd_backup.rs:555-582 | the loop over the parts collects the specified peers |
| InitialCluster.InitialClusterFromMembers | crates/pertisk-bootstrap/src/join.rs:441-470 | the loop with its four cases, the added joiner, sorting and deduplication is the specified list |
| InitialCluster.SortDedup | crates/pertisk-bootstrap/src/join.rs:466-469 | sorting and deduplicating keeps the set of parts and makes it strictly increasing in byte order |
| InitialCluster.ParseEntry | crates/pertisk-bootstrap/src/etcd_backup.rs:557-580 | an entry printed from a clean name and an IPv4, name or bracketed IPv6 endpoint is read back as name and host |
| InitialCluster.UnreadableParts | crates/pertisk-bootstrap/src/etcd_backup.rs:557-580 | parts without an equals sign, without a name or without a host are dropped |
| InitialCluster.MemberListRoundTrip | crates/pertisk-bootstrap/src/join.rs:441-470 | parsing a printed list gives exactly the names and hosts of the members and the joiner's own entry, even while it has no name |
| InitialCluster.MemberIsListed | crates/pertisk-bootstrap/src/join.rs:441-465 | each member is read under its own name, while unnamed under the joiner's if it is at the joiner's address, and else under its number |
| InitialCluster.UniqueHealer | crates/pertisk-bootstrap/src/etcd_backup.rs:584-592 | among up to nine nodes named as the generator names them, on any list that holds the first one, exactly the first is the healer |
| InitialCluster.SecondHealer | crates/pertisk-bootstrap/src/join.rs:454-469 | with ten or more nodes some other node takes itself for the healer too |
| InitialCluster.OneHealerUpToNine | crates/pertisk-bootstrap/src/gen.rs:284-290 | a complete cluster has exactly one healer iff it has at most nine nodes |
| InitialCluster.FullListIsRead | crates/pertisk-bootstrap/src/etcd_backup.rs:555-582 | the list of a complete cluster of one to nine nodes is read as as many members, with the address of the printing node |
| EtcdManifest.ReplaceCommandFlag | crates/pertisk-bootstrap/src/etcd_backup.rs:671-693 | the loop rewrites exactly the lines that hold the flag |
| EtcdManifest.EnsureForceNewClusterFlag | crates/pertisk-bootstrap/src/etcd_backup.rs:695-720 | the loop with its inserted flag is the specified insertion |
| EtcdManifest.StripForceNewClusterFlag | crates/pertisk-bootstrap/src/etcd_backup.rs:722-738 | the loop drops exactly the lines that are the bare flag |
| EtcdManifest.EtcdFlagValue | crates/pertisk-bootstrap/src/etcd_backup.rs:645-659 | the loop returns the first non-empty value |
| EtcdManifest.EnsureEtcdListenAll | crates/pertisk-bootstrap/src/lib.rs:646-671 | the line loop, skipped when all is well, is the specified listen rewrite |
| EtcdManifest.ListenAllIsIdempotent | crates/pertisk-bootstrap/src/lib.rs:657-665 | widening the listen address twice is widening it once |
| EtcdManifest.PassesActOnce | crates/pertisk-bootstrap/src/etcd_backup.rs:740-756 | the five rewrites of the patch act on each line once, by the first flag it holds in their order |
| EtcdManifest.StripUndoesEnsure | crates/pertisk-bootstrap/src/etcd_backup.rs:695-738 | stripping undoes inserting iff no line was the bare flag |
| EtcdManifest.PatchIsIdempotent | crates/pertisk-bootstrap/src/etcd_backup.rs:740-756 | patching a patched manifest changes nothing |
| EtcdManifest.PatchForcesOnce | crates/pertisk-bootstrap/src/etcd_backup.rs:740-756 | a manifest that does not mention the force flag gets it exactly once |
| EtcdManifest.OtherLinesSurvive | crates/pertisk-bootstrap/src/etcd_backup.rs:671-763 | every line without one of the rewritten flags keeps its text and order through patch, listen rewrite and finalize, for any name and address |
| EtcdManifest.ClusterAfterPatch | crates/pertisk-bootstrap/src/etcd_backup.rs:740-756 | a patched manifest holds a member list iff some line held one and no flag that is rewritten earlier |
| EtcdManifest.FinalizedCluster | crates/pertisk-bootstrap/src/etcd_backup.rs:758-763 | finalizing leaves the one-member list on exactly the lines that held a list |
| EtcdManifest.ClusterParses | crates/pertisk-bootstrap/src/etcd_backup.rs:555-582 | the one-member list reads as this member at this address |
| EtcdManifest.HealingConverges | crates/pertisk-bootstrap/src/etcd_backup.rs:346-441 | for clean names that do not end like the state flag: after a forced new cluster the manifest reads as exactly this member and no heal at this address forces again, if its member list survived the patch and the listen rewrite; else it reads as none, and each heal of a first node forces again |
| EtcdManifest.SharedLineLosesTheList | crates/pertisk-bootstrap/src/etcd_backup.rs:740-756 | every one-line manifest with a name flag before the list is of the second kind |
| EtcdManifest.FlagInNameLosesTheList | crates/pertisk-bootstrap/src/etcd_backup.rs:740-763 | forcing a new cluster on a node whose name ends like the cluster-state flag leaves every manifest without members |
| EtcdManifest.NamesThatKeepTheList | crates/pertisk-bootstrap/src/etcd_backup.rs:740-763 | a clean name keeps the member list of every manifest that holds one on a line of its own, iff it ends neither like the state flag nor like the listen flag |
| EtcdForced.ForcedIsOnePass | crates/pertisk-bootstrap/src/etcd_backup.rs:671-763 | for a good name, patch, flag insertion, listen rewrite, strip and finalize together drop the bare force flags and rewrite every other line once |
| EtcdForced.ForcedManifestSays | crates/pertisk-bootstrap/src/etcd_backup.rs:740-763 | after a forced new cluster the name, the client and peer URLs, the member list and the state `existing` are read exactly if a line set them, and nothing else is read for them |
| EtcdForced.ForceFlagIsGone | crates/pertisk-bootstrap/src/etcd_backup.rs:722-763 | whatever the manifest, name and address, no line of the result is the bare force flag |
| EtcdForced.ForceIsNotMentioned | crates/pertisk-bootstrap/src/etcd_backup.rs:722-763 | for a good name no line even mentions the flag, iff every line that did and is not rewritten was the bare flag |
| EtcdForced.GeneratedManifestIsSettled | crates/pertisk-bootstrap/src/static_pods.rs:130-145 | a command as it is generated, with any old values and indent, line by line before and after |
| EtcdForced.GeneratedManifestIsPatched | crates/pertisk-bootstrap/src/etcd_backup.rs:695-756 | the same command right after the patch, with the force flag as an item behind the data directory |
| EtcdForced.QuotedValueIsRead | crates/pertisk-bootstrap/src/etcd_backup.rs:645-659 | a quoted value with a comma is read as what is in the quotes |
| EtcdForced.ListenLosesTheMarker | crates/pertisk-bootstrap/src/lib.rs:657-665 | a widened listen line never starts with a list marker, so it keeps its prefix iff it had none |
| EtcdForced.OnlyTheFirstOfThreeForces | crates/pertisk-bootstrap/src/etcd_backup.rs:404-439 | with the complete list of one to nine nodes and its own address in it, a node forces iff its etcd is up, it is the first and there are at least three; with a changed address without that bound |
| EtcdJoin.PromotionKeeps | crates/pertisk-bootstrap/src/join.rs:571-604 | an allowed promotion keeps one learner, distinct members and the majority, and makes its member a voter |
| EtcdJoin.AdditionKeeps | crates/pertisk-bootstrap/src/join.rs:397-409 | an allowed learner add keeps them too |
| EtcdJoin.SelfPromotionKeeps | crates/pertisk-bootstrap/src/join.rs:551-604 | promoting from a stale list, with lost answers, ends in success only as a voter |
| EtcdJoin.HealFindsLeader | crates/pertisk-bootstrap/src/etcd_backup.rs:467-535 | with distinct host names, a heal of a bootstrapped node in any reachable state finds the leader through a voter, its own etcd or a listed one, even while it is itself a learner, and its URL in place |
| EtcdJoin.JoinsKeepQuorum | crates/pertisk-bootstrap/src/join.rs:199-335 | from every healthy start, all runs of any number of joins and heals keep one learner at most, no URL twice, a majority of voters up, no heal that gets to force, and success only for voters, iff no two nodes share a host name; that no heal gets to force has this exact condition by itself |
| EtcdJoin.HealsChangeNothing | crates/pertisk-bootstrap/src/etcd_backup.rs:346-413 | every heal of all these runs leaves the state as it is iff no two nodes share a host name |
| EtcdJoin.JoinsCanSucceed | crates/pertisk-bootstrap/src/join.rs:379-439 | from a lone healthy voter there is a run in which a second node joins and both vote |
| EtcdJoin.HelpListsTheLearners | crates/pertisk-bootstrap/src/join.rs:531-549 | the members a join sets out to promote are exactly the learners of the list it reads |
| EtcdJoin.EveryNodeCanJoin | crates/pertisk-bootstrap/src/join.rs:379-439 | from every state that runs reach, if all other learners run, a node that is not bootstrapped has a run to a successful join; as a new member it makes a learner left behind a voter too, and as a member already there it gets to vote itself |
| EtcdJoin.LearnersAreLeftBehind | crates/pertisk-bootstrap/src/join.rs:276-301 | there is a run that leaves a running learner whose join has failed |
| EtcdJoin.GivesUpAfterNinety | crates/pertisk-bootstrap/src/join.rs:381-438 | a join that cannot connect fails after 90 attempts and not before |
| EtcdJoin.RefusalsCostAttempts | crates/pertisk-bootstrap/src/join.rs:381-438 | a failed list before the add costs no attempt, a refusal does, and the ninetieth is the last |
| EtcdJoin.FailuresAreSurvived | crates/pertisk-bootstrap/src/join.rs:381-438 | in every state that runs reach, after a failed list or a refused add with attempts left, the join still has a run to success if all learners run |
| EtcdJoin.LostAnswersAreSurvived | crates/pertisk-bootstrap/src/join.rs:413-424 | so has a join whose add the server took without an answer that arrives |
| EtcdJoin.HealMovesItsMember | crates/pertisk-bootstrap/src/etcd_backup.rs:467-535 | a heal that reaches a leader gives the first member of its name the node's address, is refused if another member is there, and changes nothing else; one that reaches none only notes it |
| EtcdJoin.ForceNeedsThreeOrAMove | crates/pertisk-bootstrap/src/etcd_backup.rs:394-441 | a node without leader may force iff its list has at least three members or lacks its address, and then is the only member |
| EtcdJoin.VotingAddNeedsASpareVoter | crates/pertisk-bootstrap/src/join.rs:199-200 | adding the joiner as a voter keeps the leader iff the majority has a voter to spare, never with one voter |
| EtcdJoin.SharedHostNameForces | crates/pertisk-bootstrap/src/etcd_backup.rs:511-535 | for any two nodes with one host name: a healthy cluster of three running voters in which a single heal enables a forced new cluster |
| LogTail.FileTail.DrainLines | crates/pertisk-api/src/loki.rs:269-281 | the inner loop cuts the complete lines off, one CR removed, empty ones dropped or kept |
| LogTail.FileTail.NewLines | crates/pertisk-api/src/loki.rs:249-281 | one poll, with truncation, unreadable file and empty read, is the specified poll |
| LogTail.SplitInSteps | crates/pertisk-api/src/logs.rs:137-146 | splitting the kept rest together with new text continues the split of the whole, wherever it was cut |
| LogTail.TailIsBatch | crates/pertisk-api/src/logs.rs:108-160 | for every append-only file and every way to cut it into polls, the emitted lines are the complete lines of all that was appended and the kept text is the rest |
| LogTail.TruncationRestarts | crates/pertisk-api/src/logs.rs:120-135 | whatever came before, an observed truncation makes the rest of the run the batch split of the new file |
| LogTail.ShrunkFileGivesNothing | crates/pertisk-api/src/logs.rs:120-135 | a file that shrinks between the two looks at it gives nothing and loses nothing |
| LogTail.ReplacementNoticed | crates/pertisk-api/src/logs.rs:120-135 | a replaced file of some length is read like a new one, whatever it holds, iff it is shorter than the position or nothing was read yet; else its text before the position never matters |
| LogTail.GrowthIsPushed | crates/pertisk-api/src/loki.rs:193-210 | while kernel snapshots only grow, exactly their growth is pushed |
| LogTail.GrowthIsFollowed | crates/pertisk-api/src/logs.rs:162-218 | a follower of a growing kernel log is sent all of it, each line once |
| LogTail.RotationSendsTheEnd | crates/pertisk-api/src/logs.rs:193-211 | after a rotation a follower is sent the last 20 lines, or all if fewer, and no new line is missing iff at most 20 are new |
| LogTail.RingLosesLines | crates/pertisk-api/src/loki.rs:198-208 | after the ring drops its oldest line something is pushed iff all kept lines and the first new one repeat it and more follow |
| LokiPush.EnqueueLines | crates/pertisk-api/src/loki.rs:185-192 | the push loop appends the lines, each cut after 8192 characters, to the queue of the service and to no other |
| LokiPush.Pusher.constructor | crates/pertisk-api/src/loki.rs:156-182 | a pusher starts with empty queues at the end of every file |
| LokiPush.Pusher.Turn | crates/pertisk-api/src/loki.rs:184-231 | one turn of the loop: collect, decide, post, clear or back off, gives the specified state and body |
| LokiPush.BodyTellsServices | crates/pertisk-api/src/loki.rs:296-320 | a body read by its service labels gives back every queue iff no extra label is called service |
| LokiPush.Conservation | crates/pertisk-api/src/loki.rs:184-231 | over all rounds of accepted and failed posts, the delivered values and then the queue of a service are the lines enqueued so far, each once and in order |
| LokiPush.PostsWhenDue | crates/pertisk-api/src/loki.rs:212-229 | a round delivers iff lines wait, the interval is over or at least 200 wait, and the post is accepted; then it delivers every queue and empties it, else it keeps them; and what becomes of the wait |
| LokiPush.BodyIsLabelled | crates/pertisk-api/src/loki.rs:296-320 | every stream of a body holds the waiting lines of one service under its job, service, host name and cluster, over which extra labels win |
| LokiPush.FileReachesLoki | crates/pertisk-api/src/loki.rs:184-281 | end to end: delivered plus queued are the non-empty complete lines appended to the file since the start, in order, each as it is up to 8192 characters and its first 8192 otherwise |
| LokiPush.KernelReachesLoki | crates/pertisk-api/src/loki.rs:193-240 | the same for a growing kernel log after its first snapshot |
| LokiPush.BackoffFollowsFailures | crates/pertisk-api/src/loki.rs:214-229 | the wait is 5 seconds doubled per failure in a row, at most 60, and starts over after a success |
| ChunkedBody.DecodeChunkedBody | crates/pertisk-bootstrap/src/api.rs:187-233 | the index loop, with its four exits and the overflow, is the specified decoding |
| ChunkedBody.HexOfIsGood | crates/pertisk-bootstrap/src/api.rs:210-213 | the shortest hexadecimal form of every number reads back as it |
| ChunkedBody.ChunkAt | crates/pertisk-bootstrap/src/api.rs:191-228 | what one size line with extensions and the text after it decode to: size too large, end, overflow, shortfall with need and have, or its data |
| ChunkedBody.DecodeEncoded | crates/pertisk-bootstrap/src/api.rs:187-233 | decoding undoes encoding for all non-empty chunks, written sizes, extensions and trailers |
| ChunkedBody.DecodeCut | crates/pertisk-bootstrap/src/api.rs:187-233 | a body cut anywhere is an error, or the whole chunks before the cut, exactly as the position tells |
| ChunkedBody.LostChunksUnnoticed | crates/pertisk-bootstrap/src/api.rs:157-233 | the bytes of a chunked response up to the end of any of its chunks parse as a complete response with the data so far, whatever chunks were to follow |
| ChunkedBody.ResponseRoundTrip | crates/pertisk-bootstrap/src/api.rs:157-184 | a head without blank line that declares chunked encoding, and an encoded body, read as status and data |
| ChunkedBody.CutResponse | crates/pertisk-bootstrap/src/api.rs:157-184 | the same response cut in its body is an error or the whole chunks that arrived |
| ChunkedBody.StatusLineReads | crates/pertisk-bootstrap/src/api.rs:166-172 | any head with version, number and reason has that number as its status |
| ChunkedBody.SignedNumbers | crates/pertisk-bootstrap/src/api.rs:210-213 | a plus sign before the digits changes nothing, and a number needs a digit |
| ChunkedBody.IncompleteWithoutBlankLine | crates/pertisk-bootstrap/src/api.rs:157-161 | a response is incomplete iff it has no blank line of either kind |
| ChunkedBody.PlainResponse | crates/pertisk-bootstrap/src/api.rs:163-184 | a body that is not declared as chunked is returned as it came |
| ChunkedBody.ExtraBlankLinesGo | crates/pertisk-bootstrap/src/api.rs:163-165 | further blank lines before the body are dropped |
| ChunkedBody.ChunkedFields | crates/pertisk-bootstrap/src/api.rs:174-177 | the field that declares chunked encoding is found in any case of letters |
| Kubeconfig.RenameKubeconfigContext | crates/pertisk-bootstrap/src/kubeconfig.rs:129-192 | the line loop with its section flags is the specified renaming |
| Kubeconfig.SanitizedIs | crates/pertisk-bootstrap/src/kubeconfig.rs:41-57 | letters, digits, dashes, underscores and dots of a trimmed name stay, all else becomes a dash, nothing becomes the default, and a second time changes nothing |
| Kubeconfig.RewriteKubeconfigServer | crates/pertisk-bootstrap/src/kubeconfig.rs:78-94 | the line loop rewrites exactly the server lines |
| Kubeconfig.LastRenameWins | crates/pertisk-bootstrap/src/kubeconfig.rs:129-192 | on every text, renaming twice is the second renaming iff each line that a rename leaves alone, by the section flags it is reached with, does not end in CR after the line break is gone |
| Kubeconfig.LastRewriteWins | crates/pertisk-bootstrap/src/kubeconfig.rs:78-94 | on every text, rewriting the server twice is the second rewrite iff no line but server lines ends in CR after the line break is gone |
| Kubeconfig.RenameRewriteCommute | crates/pertisk-bootstrap/src/kubeconfig.rs:78-192 | on every text, renaming and rewriting commute |
| Kubeconfig.RenameOfRendered | crates/pertisk-bootstrap/src/kubeconfig.rs:5-38 | renaming printed text is printing with the new name, iff neither server nor user ends in CR |
| Kubeconfig.RenderedText | crates/pertisk-bootstrap/src/kubeconfig.rs:17-38 | the rendered lines in full: which field follows which key |
| Kubeconfig.RewriteOfRendered | crates/pertisk-bootstrap/src/kubeconfig.rs:5-38 | rewriting printed text is printing with the new trimmed server, iff the user does not end in CR |
| Kubeconfig.KubeconfigServerHost | crates/pertisk-bootstrap/src/kubeconfig.rs:107-126 | the loop returns the first host of a server line |
| Kubeconfig.RewriteThenHost | crates/pertisk-bootstrap/src/kubeconfig.rs:78-126 | the host read after a rewrite is the host of the new URL, on every text with a server line |
| Kubeconfig.HostOfUrl | crates/pertisk-bootstrap/src/kubeconfig.rs:114-123 | the host of a server URL is read as it is iff it is bracketed or has no colon |
| Kubeconfig.RewrittenHostIsRead | crates/pertisk-bootstrap/src/kubeconfig.rs:78-126 | after a rewrite to such a URL its host is read from every text with a server line |
| ResetTokens.TokenTable.Create | crates/pertisk-mgmt/src/auth.rs:385-413 | an uninterrupted creation: the new table, and one unused token per user if its first statement worked |
| ResetTokens.TokenTable.Consume | crates/pertisk-mgmt/src/auth.rs:415-447 | an uninterrupted consumption succeeds iff the token is known, unused and not expired, and marks only it |
| ResetTokens.TokensAreSingleUse | crates/pertisk-mgmt/src/auth.rs:415-447 | over all interleavings of split requests: no token is consumed twice, none that a creation revoked, each by its own user before expiry |
| ResetTokens.UsedStaysUsed | crates/pertisk-mgmt/src/auth.rs:434-446 | once used or revoked, no later consumption of a token succeeds |
| ResetTokens.GoodTokensAreConsumed | crates/pertisk-mgmt/src/auth.rs:415-447 | in every state a consumer whose statements run back to back gets the token's user and marks the token iff it is unused and not expired, and else changes nothing |
| ResetTokens.CheckedWinsIfUnused | crates/pertisk-mgmt/src/auth.rs:434-446 | a consumer that has checked its copy succeeds iff the row is still unused |
| ResetTokens.OneUnusedStep | crates/pertisk-mgmt/src/auth.rs:385-413 | a step leaves one unused token per user iff it does not insert one for a user who has one |
| ResetTokens.CleanRunsLeaveOne | crates/pertisk-mgmt/src/auth.rs:385-413 | if creations do not overlap for a user and their first statement works, each user has one unused token at most |
| ResetTokens.AtomicCreationLeavesOne | crates/pertisk-mgmt/src/auth.rs:385-413 | a creation without interruption leaves the user its own token only, good for 3600 seconds |
| ResetTokens.OverlapLeavesTwo | crates/pertisk-mgmt/src/auth.rs:385-413 | two runs that leave two usable tokens |
| ClusterRefresh.OneRefreshPerCluster | crates/pertisk-mgmt/src/cluster_resources.rs:94-134 | over all interleavings, a cluster is in flight iff exactly one of its tasks is unfinished, for refreshes and for probes |
| ClusterRefresh.AnswersAreRight | crates/pertisk-mgmt/src/cluster_resources.rs:150-202 | every returned summary has the cluster and status of the row its poll read, and an availability that fits the status |
| ClusterRefresh.ReachedMeansOnline | crates/pertisk-mgmt/src/cluster_resources.rs:107-202 | after a task of a ready row has stored its result, and until another is stored, polls of the same status answer online iff the cluster was reached and else offline, for 20 seconds, and then start a refresh |
| ClusterRefresh.LastProbeIsTheAnswer | crates/pertisk-mgmt/src/cluster_availability.rs:42-57 | a whole poll that finds no summary answers with the last stored probe result if the row is ready and it is at most 120 seconds old, and else with unknown |
| ClusterRefresh.UnprobedIsUnknown | crates/pertisk-mgmt/src/cluster_availability.rs:51-57 | without any stored probe result it answers with unknown |
| ClusterRefresh.OldSummaryMeanwhile | crates/pertisk-mgmt/src/cluster_resources.rs:161-171 | a summary that is too old is still the answer while its status is that of the row, and a refresh is under way then |
| ClusterRefresh.ProbesWhenStale | crates/pertisk-mgmt/src/cluster_availability.rs:59-82 | after any run a probe starts iff the row is ready, none is unfinished for the cluster and the last result is more than 15 seconds old |
| ClusterRefresh.StartsUnlessRunning | crates/pertisk-mgmt/src/cluster_resources.rs:114-123 | a poll starts a refresh iff none is unfinished for its cluster |
| ClusterRefresh.FinishedRefreshAllowsTheNext | crates/pertisk-mgmt/src/cluster_resources.rs:124-134 | while a task runs a poll starts none, and once it has finished it does |
| ClusterRefresh.OvertakenRefreshIsRepaired | crates/pertisk-mgmt/src/cluster_resources.rs:150-202 | after a task stored an outdated status, the next poll answers with the current one, with the last probe result if it applies, and starts a refresh |
| DiskLayout.PlanDisk | crates/pertisk-disk/src/plan.rs:40-107 | below 3362 MiB the disk is too small; else the plan is the six roles with their sizes, the last one all but 3106 MiB |
| DiskLayout.PlanUsesTheDisk | crates/pertisk-disk/src/plan.rs:74-107 | planned sizes sum to the disk less 2 MiB, with at least 256 MiB for the last partition |
| DiskLayout.WriteGpt | crates/pertisk-disk/src/install.rs:172-204 | the loop writes each partition in the fewest whole MiB that hold it, from the first MiB on and one right after the other, or fails on a missing size |
| DiskLayout.PlanFitsTheDisk | crates/pertisk-disk/src/install.rs:178-184 | the written partitions are large enough, in order, disjoint, behind the first MiB and within the disk |
| DiskLayout.RoundingSparesBackup | crates/pertisk-disk/src/install.rs:183-184 | they leave room for the backup table iff the disk is whole MiB or at least 33 sectors more |
| DiskLayout.DecisionIs | crates/pertisk-disk/src/ephemeral.rs:199-210 | the decision in plain numbers: overflow, more than 4096 free sectors, or neither |
| DiskLayout.GrowEphemeral | crates/pertisk-disk/src/ephemeral.rs:186-240 | a grow keeps the start, strictly enlarges, happens iff more than 4096 sectors are free, and a second run keeps everything |
| DiskLayout.GrowAfterInstall | crates/pertisk-disk/src/ephemeral.rs:199-210 | a freshly written disk is not grown, and after enlarging it is iff the new size is more than 2 MiB behind the layout |

## Left out

- Text is ASCII: multi-byte characters, their boundaries (`stamp_line` could cut inside one) and invalid UTF-8 are not modelled.
- The YAML parser is a function from text to an outcome; its error text and the reading of key and line number from it are not modelled.
- ConfigMerge.Merge: does not model the order of mapping entries, which the YAML library does not compare either.
- ConfigMerge.DeepMerge: returns the merged value instead of updating the base through a reference, and its mappings have no entry order: where the source puts a new or replaced entry among the others is not stated.
- Flow-style YAML, anchors and multi-document texts: the trees and printers cover block mappings, nested, and lists of mappings; block scalars and other lists are opaque lines of a value.
- EtcdManifest: a manifest is its sequence of lines; a trailing CR or a missing final newline is not modelled there.
- EtcdManifest.HealingConverges: names are clean host names (no comma, equals sign, slash or blank, no quote in front), and addresses have no dash; the state flag at the end of a name is covered by `EtcdManifest.FlagInNameLosesTheList`.
- EtcdManifest.PatchIsIdempotent: names that end like one of the flags are left out, as they are from `EtcdManifest.PatchForcesOnce`.
- YamlDedup.RepairedTextIsNormal: elements of lists are opaque lines in the tree of the loop; the repair inside them is `YamlList.RepairInList`, for one edit. A hint on the line of a dash is not covered there.
- EtcdManifest.OtherLinesSurvive: what `ensure_etcd_listen_all` does to the list marker of its own line is not claimed.
- EtcdJoin: crashes, partitions and the retry of an already bootstrapped node; runs start with a majority up and etcds only start. Calls of joins may fail or lose answers, calls of heals to an etcd that is up may not.
- EtcdJoin: the whole of one heal attempt is one step, and whether the node is the healer is left open, so the result holds for every node.
- EtcdJoin: host names and peer URLs are numbers, and lists are unordered; the text of the lists is in `InitialCluster`.
- Waiting times, sleeps and deadlines: a wait may end at any step.
- LokiPush: time stamps, JSON text and the case that the server stored a batch but its answer was lost, which would deliver it twice.
- LogTail: the file is read in one piece per poll; send errors, which end the loop, are not modelled.
- ChunkedBody: bodies without chunked encoding are returned as they are after trimming; nothing is claimed about them.
- Kubeconfig: base64 encoding is not modelled, and rendered certificates are arbitrary base64 text; `sanitize_kubeconfig` is left out.
- ResetTokens: a row's id and its token hash are one number; passwords, hashing and mail are left out.
- ClusterRefresh: a panic in a task, which would leave its cluster in flight, and poisoned locks; metrics are reduced to the availability.
- DiskLayout: `sgdisk` itself; it is taken to place partitions in the first free aligned space, as on an empty disk.
- `pick_rebase_ip`, the file handling of an address rebase, and `bump_registry_k8s_image_tags`: easy next to the rewriters modelled.
- gRPC, TLS and certificate minting, container and file system calls, the UI and the add-on catalog.
