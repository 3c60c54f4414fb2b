# Verified model of ircd-micro

ircd-micro is an IRC server in C. This project models the parts of it that hold real algorithms and
state machines, in the imperative form the C has, and proves them against plain specifications: a
finite map, a byte sequence, a list of lines, a fresh recomputation, a relation on strings.

| file | what it models | the specification it is proved against |
|---|---|---|
| `AaTree.dfy`, `AaNodes.dfy`, `TreeMap.dfy`, `MapEach.dfy`, `MapRuns.dfy` | the AA-tree map of `src/map.c`, with its in-place rotations, its key-swapping delete, its two iterators and the deletions they postpone | the sorted in-order walk; the AA rules; a finite map over whole runs |
| `Hostmask.dfy`, `ModeSpec.dfy`, `Numerals.dfy`, `ModeMeaning.dfy`, `ModeOutcome.dfy`, `ModeDelta.dfy`, `ModeReplay.dfy`, `ModeLimits.dfy`, `ModeEngine.dfy`, `ModeWire.dfy` | the mode engine of `src/mode.c` with the channel callbacks of `src/chan.c` and the stacker of `modules/core/mode.c` | what each mode does to the fields of the channel, the last change of anything deciding; the printed change, read back by the other server, is the change |
| `Glob.dfy` | the wildcard matcher of `src/util.c` | the recursive meaning of `*` and `?` |
| `Base64.dfy`, `Base64Number.dfy` | the resumable encoder and the decoder of `src/util.c` (section 4 of RFC 4648) | the encoding of the whole input; the inverse; the number the bytes write, in base 64 |
| `Bitmask.dfy` | the bit allocator of `src/util.c` | the lowest free bit |
| `SendQueue.dfy`, `SendQueueRuns.dfy` | the send queues of `src/sendq.c` over their shared free list | a byte queue; conservation of bytes over runs |
| `LineFraming.dfy`, `LineMeaning.dfy` | the input buffer of `src/link.c` (section 2.3 of RFC 1459) and its way through a live upgrade | the parts of the stream between CRs and LFs that hold a command |
| `Cookies.dfy`, `MuteCache.dfy`, `MuteRuns.dfy`, `SendTo.dfy` | the comparable stamps of `src/cookie.c`, the cached mute decision of `src/chan.c`, the delivery of `src/sendto.c` | the lexicographic order; a fresh evaluation, by the last mode change or join; exactly one line a link |
| `Membership.dfy`, `MembershipRuns.dfy` | members and invites of `src/chan.c` and `src/user.c` | a plain relation of who is where, over whole runs |
| `WordWrap.dfy`, `WrapOptimal.dfy` | wrapping and splitting of `src/strop.c` | nothing lost; no packing is shorter |
| `Commands.dfy`, `CommandRuns.dfy` | the command registry of `src/msg.c` | per name a list of handlers with disjoint sources, over whole runs |
| `UserIds.dfy` | the id counter of `src/user.c` | counting modulo 36^6 |
| `Common.dfy` | what several of these use | |

Classes hold the fields the C structures hold; their methods change them step by step and are proved
against functions of the old state. Ghost fields carry the abstract value.

Where the code does not do what its purpose suggests, the model follows the code, a lemma or method
gives an input that shows it, and the exact condition is proved:

- `u_map_del` of a key that is already put down for deletion lowers the size once more
  (`MapRuns.DeleteTwice`); in every run the size is right if and only if that has not happened
  (`MapRuns.SizeExact`, `TreeMap.UMap.SizeIsCount`).
- Completing a host mask once more, cut to some room or not, leaves it as it is if and only if there is
  no stray `@` in that room: an `@` before the first `!` and another just behind it, so that the ident
  begins with one (`Hostmask.AgainExact`, `Hostmask.FixAgain`, `Hostmask.KeptAgain`; the input is
  `x@y!@w`, `Hostmask.StrayAtGrows`).
- A removed list entry is removed on the other server if and only if its mask has no stray `@` in 511
  characters (`ModeDelta.RemovedExact`). An added one, of any length, is added there as it is here if and
  only if there is no stray `@` in the 255 characters that are stored and those, being a complete mask,
  are not in the list already (`ModeDelta.AddedExact`). Over a whole mode string the servers stay in step
  if and only if every mask meets its condition (`ModeDelta.InStepExact`); in the end they agree if and
  only if the printed list changes make of the old lists what they are here, everything else always
  arriving (`ModeReplay.EndExact`; `ModeReplay.MadeUp` is a mask that is made up for). The part about the
  list is there because masks are compared whole and stored short (`ModeDelta.LongMaskDoubled`);
  `ModeDelta.LongMaskAt` and `ModeDelta.LongStrayAt` are long masks that fail in the one way and in the
  other.
- TMODE is processed with an uninitialized flags word (`modules/core/mode.c:233-262`). If it turns the
  checks on, every printed change does on the other server what it did here if and only if, besides the
  masks, no mode is barred there and no forward refused (`ModeReplay.EchoExact`);
  `ModeReplay.ForwardRefused` is one that is.
- The delta of a 256-character mode string can have 257 characters and is then refused whole
  (`ModeLimits.TooLongDelta`); it is faithful if and only if it is not that long or nothing changed
  (`ModeDelta.FaithfulDelta`).
- Three keys in one mode string can overrun the stacker's 512-byte data buffers
  (`ModeEngine.ThreeKeysOverrun`), and long nicks the one for local users alone
  (`ModeEngine.NicksOverrun`); both hold out if and only if the whole data fit, with the uids and with
  the nicks (`ModeEngine.AllFitExact`).
- At most 509 characters of a line leave the server (`src/link.c:306`), so a 500-character key arrives
  with 475 (`ModeWire.LongKeyAt`, `ModeWire.LongKeyCut`), and a key that begins with a colon arrives
  without it (`ModeWire.ColonKey`). What leaves the server parses into what was put on the line if and
  only if no parameter is empty, begins with a colon or holds white space, there are at most twelve, and
  the line has at most 509 characters (`ModeWire.LineArgs`).
- `u_cookie_cmp` narrows a difference to 32 bits: two stamps compare rightly if and only if their gap
  modulo 2^32 is in range (`Cookies.CmpExact`). From 2^31 seconds on a mute can be missed
  (`MuteCache.Year2038`).
- After an upgrade the global delivery stamp starts from zero while the links keep theirs. Over any run
  of broadcasts in the second of the restart every link gets the lines it is due except that broadcast
  k, counted from 0, is lost on a link if and only if the link still carries that broadcast's own stamp,
  (second, k), from before the upgrade, and reaches an excluded link if and only if that still carries a
  later stamp of that second (`SendTo.FirstSecond`); from the next second on nothing is lost and nothing
  leaks (`SendTo.AfterUpgrade`). `SendTo.SecondLineLost` and `SendTo.ExcludedGets` are the two failures.
- A link whose undispatched input is longer than 2043 bytes does not survive an upgrade, though the
  buffer holds 2048 (`LineFraming.Upgrade`).
- `u_cmd_unreg` leaves the mark that `reg_one` checks, so a command cannot be registered again
  (`Commands.Registry.RegAgain`).
- `u_bitmask_alloc` on a full set gives out the top bit a second time (`Bitmask.BitmaskSet.Alloc`).

Verify everything with `dafny verify dfyconfig.toml`.

## Model

| member | source | states |
|---|---|---|
| AaNodes.Skew | src/map.c:181-197 | the in-place right rotation leaves in the heap the tree that the functional rotation gives, over the same nodes, and nothing else changes |
| AaNodes.Split | src/map.c:199-216 | the same for the left rotation with its level increment |
| AaNodes.Insert | src/map.c:250-264 | linking a new leaf into the heap tree, with the skew and split on the way up, gives the functional insertion over the old nodes and the new one |
| AaNodes.Fetch | src/map.c:168-179 | the search loop returns the node of the key, or NULL exactly when no node on the search path has it |
| AaNodes.FindInOrder | src/map.c:168-179 | in a search tree the search answers for the in-order walk: a key is found if and only if the walk has it |
| AaNodes.Fixup | src/map.c:226-248 | decrease_level and the five rotations on the heap are the functional repair |
| AaNodes.OverwriteFirst | src/map.c:24-37 | overwriting the key of the in-order neighbour renames the first vertex of the subtree and keeps every node where it is |
| AaNodes.Delete | src/map.c:266-305 | the recursive delete with its key swaps leaves in the heap the functional deletion, over the old nodes; from a search tree exactly one node leaves if the key was there, and none otherwise |
| AaNodes.PutData | src/map.c:313-329 | writing a node's data changes the data of that key and nothing else of the tree |
| AaTree.SkewKeepsOrder | src/map.c:181-197 | a skew does not change the in-order walk |
| AaTree.SplitKeepsOrder | src/map.c:199-216 | a split does not change the in-order walk |
| AaTree.InsertWalk | src/map.c:250-264 | insertion puts exactly the new entry into the walk, at its sorted place, whatever the levels are |
| AaTree.InsertedSorted | src/map.c:250-264 | the walk stays sorted and gains just that entry |
| AaTree.InsertBalanced | src/map.c:250-264 | insertion takes a tree obeying the AA level rules to one obeying them |
| AaTree.LevelBounds | src/map.c:250-264 | under the rules the level bounds the height and the size bounds the level |
| AaTree.InsertOnlyHeight | src/map.c:250-264 | any run of n insertions gives a balanced tree of height at most 2*log2(n+1) |
| AaTree.FixupKeepsOrder | src/map.c:226-248 | the repair after a deletion does not change the in-order walk, whatever the levels |
| AaTree.RenamedFirst | src/map.c:266-305 | moving the doomed key into the neighbour keeps a search tree whose deletion of that key takes out the neighbour's entry |
| AaTree.RenamedLast | src/map.c:266-305 | the same on the other side |
| AaTree.DeleteWalk | src/map.c:266-305 | on every search tree deletion terminates and removes exactly the entry of the key from the walk; every other key keeps its data |
| AaTree.RemovedSorted | src/map.c:266-305 | what is left is sorted, without the key and with everything else |
| TreeMap.UMap.SizeIsCount | src/map.c:331-359 | size is the number of keys if and only if no key was deleted twice within an iteration |
| TreeMap.UMap.Get | src/map.c:307-311 | the tree answers what the plain map answers, NULL for a key deleted during an iteration |
| TreeMap.UMap.Set | src/map.c:313-329 | the call aborts if and only if an iteration is open, before anything changes; otherwise the map becomes the plain map with the key updated |
| TreeMap.UMap.Del | src/map.c:331-359 | the plain map loses the key at once and its data are returned, though the node may stay in the tree until the iterations end |
| TreeMap.UMap.BeginEach | src/map.c:421-431 | an iteration opens without changing what the map answers |
| TreeMap.UMap.EndEach | src/map.c:125-135 | when the outermost iteration ends the tree holds exactly the keys of the plain map; before that nothing moves |
| MapEach.EachN | src/map.c:143-150 | the recursive walk calls back for every key of the subtree once and in order, even if the callback deletes keys, and hands over the data the map then has for it |
| MapEach.Each | src/map.c:152-163 | the callback sees every key held at the start once, in order, with its data or with NULL if an earlier visit deleted it, and afterwards the tree holds exactly what the deletions left |
| MapEach.HandedAt | src/map.c:143-150 | what is handed over with a key is its data at the start, and NULL exactly when an earlier visit deleted it or there were none |
| MapEach.HandedAlive | src/map.c:143-150 | if no visit deletes a key whose turn is yet to come, every key is handed over with its data at the start |
| MapEach.EachState.Next | src/map.c:433-451 | the queue iterator yields each node held at the start once, with its present data, and closes the iteration at the end |
| MapEach.ForEach | src/map.c:421-451 | a whole iteration with a deleting body delivers every key once, with the data it still has, and leaves the plain map without the deleted keys |
| MapRuns.Run | src/map.c:307-359 | in every run of sets outside iterations, gets, deletes, repeated or not, and nested iterations every reply is that of a plain finite map, the size its count less the repeated deletions, and after the last iteration the tree holds exactly its keys |
| MapRuns.SizeExact | src/map.c:331-359 | in every such run a reported size is the number of keys if and only if no key has been deleted twice in an iteration until then |
| MapRuns.DeleteTwice | src/map.c:331-359 | deleting one key twice in one iteration always makes the size wrong |
| Hostmask.KeptAgain | src/mode.c:21-60 | what a 255-character entry keeps of a completed mask, of any length, survives completion and storage again if and only if no stray @ is in it |
| Hostmask.AgainExact | src/mode.c:21-60 | the same for every room the completed mask is cut to |
| Hostmask.CompleteExact | src/mode.c:21-60 | the masks that are completed to themselves are exactly those with all three parts and the extended bans |
| Hostmask.FixAgain | src/mode.c:21-60 | fix_hostmask is idempotent on a mask, of any length, if and only if no stray @ is within its buffer |
| Hostmask.StrayAtGrows | src/mode.c:21-60 | the counterexample x@y!@w |
| Hostmask.FixNick | src/mode.c:21-60 | a mask without separators becomes nick!*@* |
| Hostmask.FixUserHost | src/mode.c:21-60 | ident@host becomes *!ident@host, the first @ ending the ident |
| Hostmask.FixNickUser | src/mode.c:21-60 | nick!ident becomes nick!ident@* |
| Hostmask.FixWhole | src/mode.c:21-60 | nick!ident@host stays, with a star for each part that is empty, cut to 511 characters |
| Hostmask.FixCrossed | src/mode.c:21-60 | nick@host!ident becomes nick!ident@host |
| Hostmask.FixExtended | src/mode.c:21-60 | a mask that begins with $ is only cut |
| ModeSpec.AtoiOfDecimal | src/chan.c:201-228 | a limit that is printed reads back as itself |
| Numerals.AtoiReads | src/chan.c:217-222 | a limit parameter of blanks, a sign, digits and anything behind them is read as the number the digits write; from 2^31 on what is left in 32 bits, and where atoi saturates -1 or 0 |
| Numerals.DecimalWrites | src/chan.c:224-226 | a printed limit is digits that write the number, with no zero in front |
| ModeMeaning.StatusMode | src/mode.c:62-95 | a status mode that the setter may use, on a member: + gives him all of its bits and - takes all of them; no other bit, member or field changes |
| ModeMeaning.FlagMode | src/mode.c:97-124 | + sets the flag and - clears it, and no other flag or field changes |
| ModeMeaning.ListMode | src/mode.c:126-184 | + puts the completed mask, cut to 255 characters, at the end of the list of its character unless it is there or there are fifty; - takes its first occurrence out; no other list or field changes |
| ModeMeaning.ForwardMode | src/chan.c:132-172 | + sets the forward to the parameter if that names a channel on which the setter is an operator, or no user or a forcing server sets it; - clears it; nothing else changes |
| ModeMeaning.KeyAndLimit | src/chan.c:174-228 | + sets the key to the parameter, and the limit to the number read from it if that is positive; - clears them; nothing else changes |
| ModeMeaning.CharMeans | src/mode.c:213-299 | any character of any mode string changes any part of the channel to what mode and sign say if the setter may and the parameter is there and is good, and leaves it otherwise |
| ModeOutcome.Reached | src/mode.c:213-299 | whatever the channel is, a character stands under the last sign before it and gets the first parameter that the characters before it have not taken |
| ModeOutcome.LastDecides | src/mode.c:213-299 | after any mode string every part of the channel, be it a member's bits, a flag, the key, the forward, the limit or a list entry, is what the last character that changes it makes it |
| ModeOutcome.NoneStays | src/mode.c:213-299 | what no character changes is as it was, and an over-long mode string changes nothing |
| ModeOutcome.MembersStay | src/mode.c:62-95 | no mode string adds or removes a member |
| ModeOutcome.CharReports | src/mode.c:230-290 | each complaint has its one cause, and exactly the characters without a mode or without a handler are collected as unknown |
| ModeOutcome.ErrorsAre | src/mode.c:213-299 | an error is reported in the end if and only if some character of the mode string caused it |
| ModeEngine.StackBuf.Put | modules/core/mode.c:64-79 | appending a change that has room keeps the two buffers the text of all changes printed so far, a sign only where it differs |
| ModeEngine.Stacker.Put | modules/core/mode.c:104-134 | every change goes to the copy for servers and, with the nick of the member in place of the uid, to the copy for local users |
| ModeEngine.Modes.DoStatus | src/mode.c:62-95 | one status mode has exactly the effect on channel, printed changes and errors that ModeSpec gives; on the fields that is ModeMeaning.StatusMode |
| ModeEngine.Modes.DoFlag | src/mode.c:97-124 | the same for a flag |
| ModeEngine.Modes.DoList | src/mode.c:126-184 | the same for a list mode, with its limit of 50 entries and 255 stored characters |
| ModeEngine.Modes.CbForward | src/chan.c:132-172 | the same for the forward channel |
| ModeEngine.Modes.CbKey | src/chan.c:174-199 | the same for the key |
| ModeEngine.Modes.CbLimit | src/chan.c:201-228 | the same for the limit, the number read as atoi reads it |
| ModeEngine.Modes.Process | src/mode.c:213-299 | the loop over the mode string leaves the channel, the errors, the unknown characters and the four output buffers that the specification gives, within their bounds whenever the data fit with the uids and with the nicks; an over-long string changes nothing |
| ModeEngine.DataGrows | modules/core/mode.c:64-79 | what is printed early is part of what is printed in the end, so only the final length needs to fit |
| ModeEngine.AllFitExact | modules/core/mode.c:64-134 | every snprintf into either data buffer has room if and only if the data of the whole mode string have fewer than 512 characters both with the uids and with the nicks |
| ModeEngine.ThreeKeysOverrun | modules/core/mode.c:64-79 | three keys of 509 characters together overrun the data buffers, and shorter ones do not |
| ModeEngine.NicksOverrun | modules/core/mode.c:111-117 | two keys and two members whose uids fit and whose nicks do not |
| ModeDelta.PrintedIsOut | src/mode.c:213-299 | what is printed does not depend on what was printed before |
| ModeDelta.SilentStep | src/mode.c:62-184 | a mode that prints nothing changes nothing |
| ModeDelta.LoudStep | src/mode.c:62-184 | a printed change that the other server accepts, and whose mask repeats if it has one, has the same effect there from the same channel, prints itself and takes its parameter if and only if it has one |
| ModeDelta.Replays | src/mode.c:213-299 | by induction over the mode string the other server stays in step, in channel, sign and parameters |
| ModeDelta.FaithfulDelta | src/mode.c:213-299 | when the masks it prints repeat, the printed delta, processed from the same channel with every check off, or with checks on and nothing refused, gives the same channel, uses its parameters up and prints itself; it is faithful if and only if it is not over-long or nothing changed |
| ModeDelta.DeltaLength | src/mode.c:213-299 | the delta is at most one character longer than the mode string, and not longer if that starts with a sign |
| ModeDelta.ShortEnough | src/mode.c:213-299 | so every shorter mode string has a delta that is not refused |
| ModeDelta.AddedExact | src/mode.c:126-184 | an added mask of any length is repeated on the other server if and only if no stray @ is in what is stored of it and that, completed, is not in the list already |
| ModeDelta.RemovedExact | src/mode.c:126-184 | a removal is repeated on the other server if and only if no stray @ is within the 511 characters of the mask |
| ModeDelta.InStepExact | src/mode.c:213-299 | over every mode string, the other server that does each change as it is printed has the same channel after every character if and only if every mask meets its condition, which is what FaithfulDelta asks for |
| ModeDelta.PlainMaskRepeats | src/mode.c:126-184 | a mask of at most 255 characters without a stray @ meets the conditions of both, whatever the list holds |
| ModeDelta.ShortKept | src/mode.c:126-184 | no mode leaves an entry of more than 255 characters |
| ModeDelta.StrayMaskLost | src/mode.c:126-184 | a stray @ in a mask makes the two servers store different bans |
| ModeDelta.LongMaskDoubled | src/mode.c:126-184 | a mask of more than 255 characters whose short form is complete and in the list is stored beside it, and the other server does not follow |
| ModeDelta.LongMaskAt | src/mode.c:126-184 | a 304-character mask that is doubled here and not on the other server |
| ModeDelta.LongStrayAt | src/mode.c:126-184 | a 305-character mask of which the two servers store different bans |
| ModeReplay.EchoExact | src/mode.c:213-299 | with checks on or off, every printed change of a mode string does on the other server what it did here and is printed there again, if and only if none is refused and every mask meets its condition |
| ModeReplay.EndExact | src/mode.c:213-299 | for every mask, all but the lists of the channel is the same on the other server in the end, its lists are what the printed changes make of the old ones, and the channels are equal if and only if that is what they are here |
| ModeReplay.LiftLists | src/mode.c:62-124 | no mode but a list mode looks at the lists |
| ModeReplay.MadeUp | src/mode.c:126-184 | a mask that does not repeat and is removed again: the servers differ in between and agree in the end |
| ModeReplay.ForwardRefused | src/chan.c:132-172 | with checks on, a forward to a channel the other server does not know is refused there |
| ModeLimits.TooLongDelta | src/mode.c:213-299 | a 256-character string whose 257-character delta the other server refuses whole |
| ModeWire.ArgsOfSpaced | src/msg.c:25-58 | plain words behind spaces read back as the arguments, cut at fifteen |
| ModeWire.ReadBackExact | src/msg.c:25-58 | words behind spaces read back as they were if and only if all are plain and not too many |
| ModeWire.ParseSize | src/msg.c:25-58 | a message is never longer than the line it was parsed from |
| ModeWire.DataIsSpaced | modules/core/mode.c:64-79 | the data buffer is the parameters, each behind a space |
| ModeWire.LineArgs | src/link.c:280-314 | what a link takes of the TMODE line parses into source, command, time stamp, channel, mode characters and parameters if and only if every parameter is plain, there are at most twelve, and the line has at most 509 characters |
| ModeWire.Delivered | modules/core/mode.c:88-102 | end to end, what leaves the server of a line of plain parameters that is not too long does to the channel on the other server what the mode string did here, up to the lists, and to the lists exactly when the printed changes make them so; the other server may check what it is told and refuse nothing, or check nothing |
| ModeWire.ColonKey | src/msg.c:51-54 | the key :p set here is the key p on the other server |
| ModeWire.LongKeyCut | src/link.c:306 | a plain key that takes the line past 509 characters is set here whole and arrives cut there |
| ModeWire.LongKeyAt | src/link.c:306 | a 500-character key arrives with 475 |
| Glob.StarMatchesAnyPrefix | src/util.c:171-205 | a star stands for a prefix of every length |
| Glob.PassStar | src/util.c:171-205 | once the segment before a star has matched at its first place, forgetting the earlier stars loses no match |
| Glob.DeadAttempt | src/util.c:171-205 | a mismatch loses this start only, or everything when there is no star |
| Glob.RanOut | src/util.c:171-205 | when the string ends inside a segment no start can succeed |
| Glob.MatchMap | src/util.c:171-205 | the loop that remembers only the last star terminates and returns 1 exactly when the mask matches, for every mask, string and case map |
| Glob.StarFree | src/util.c:171-205 | a mask without stars matches exactly the strings of its length with the same characters up to the case map, ? standing for any |
| Glob.FirstStar | src/util.c:171-205 | a mask with a star matches exactly the strings that begin with what is before its first star and end in something that the rest matches |
| Base64.Encode | src/util.c:498-575 | called on one more piece, the encoder turns the encoding of what came before into the encoding of everything, and writes nothing beyond it |
| Base64.LoadState | src/util.c:498-575 | the state read back from the padding is the one in which the bytes left over are still to be written |
| Base64.Resume | src/util.c:498-575 | the buffer ends in = exactly when bytes were left over, and its last quartet decodes to just those |
| Base64.Decode | src/util.c:596-629 | the loop writes the decoded bytes and never more than three a quartet |
| Base64.RoundTrip | src/util.c:498-629 | decoding inverts encoding for every byte sequence |
| Base64.EncodedInjective | src/util.c:498-575 | different inputs have different encodings |
| Base64.EncodedLength | src/util.c:498-575 | the length is four characters for each three bytes begun |
| Base64.EncodedFits | src/util.c:498-575 | a buffer of base64_inflate_size is enough for every part of the input |
| Base64.DecodedBlocks | src/util.c:596-629 | text cut at a multiple of four characters decodes block by block |
| Base64.GetB64RoundTrip | src/util.c:651-665 | a stored byte string comes back whole or is refused, decided by its length alone |
| Base64Number.AlphabetPlaces | src/util.c:496-594 | encoding looks a value up in the 64-character alphabet, decoding finds the place of a character there, and takes any other for zero |
| Base64Number.EncodedNumber | src/util.c:498-575 | an encoding is the number the bytes write in base 256, with two or four zero bits behind it, written in base 64 with the alphabet for digits, and = to the end of the quartet |
| Base64Number.DecodedNumber | src/util.c:596-629 | whole quartets without padding decode to three bytes each, which write in base 256 the number the characters write in base 64 |
| Base64.LinkBufferLimit | src/link.c:621-625 | for the 2048-byte buffer the limit is 2043 bytes |
| Bitmask.PickIsLowest | src/util.c:122-135 | the two exclusive-ors leave the lowest free bit, and the top bit of a full set |
| Bitmask.LowestUnique | src/util.c:122-135 | there is one lowest free bit |
| Bitmask.BitmaskSet.Alloc | src/util.c:122-135 | the lowest free bit is taken; from a full set the top bit is given out again |
| SendQueue.Pool.ChunkNew | src/sendq.c:29-46 | a chunk comes from the head of the free list or is new, empty and owned by its queue; the free list stays well formed |
| SendQueue.Pool.ChunkFree | src/sendq.c:48-63 | a chunk goes to the head of the free list unless 400 are there; a second free changes nothing |
| SendQueue.SendQ.GetBuffer | src/sendq.c:118-133 | the tail has room for what was asked, and the contents are as before; more than 4000 bytes are refused |
| SendQueue.SendQ.EndBuffer | src/sendq.c:135-153 | exactly the committed bytes of the buffer join the queue, never more than the chunk holds |
| SendQueue.SendQ.Gather | src/sendq.c:157-172 | the vector is what the first 32 chunks hold |
| SendQueue.SendQ.Drop | src/sendq.c:174-194 | across whole and partial chunks exactly the first bytes leave |
| SendQueue.SendQ.Write | src/sendq.c:157-194 | what went out followed by what is left is what was queued, the amount limited by the first 32 chunks, and something goes out whenever anything is queued and writev takes anything; an error changes nothing |
| SendQueue.SendQ.Clear | src/sendq.c:73-83 | the queue is empty and its chunks are free or gone |
| SendQueue.SendQ.ToJson | src/sendq.c:199-228 | the text is the encoding of the whole contents, whatever the chunk boundaries |
| SendQueue.SendQ.RestoreBlock | src/sendq.c:246-261 | a block of 5328 characters fits a fresh chunk and adds exactly its bytes |
| SendQueue.SendQ.FromJson | src/sendq.c:230-264 | the decoded text is added; a length not divisible by four is refused |
| SendQueueRuns.OnePlace | src/sendq.c:20-63 | no chunk is both free and queued, or in two queues |
| SendQueueRuns.Do | src/sendq.c:73-194 | an operation on one queue changes no other queue's contents and keeps all of them and the pool well formed |
| SendQueueRuns.Run | src/sendq.c:73-194 | over any run on any queues, bytes sent followed by bytes queued are the bytes queued at the start followed by all bytes committed since |
| SendQueueRuns.Upgrade | src/sendq.c:199-264 | a queue serialized and restored into an empty one has the same bytes and size |
| LineFraming.LinesAppend | src/link.c:196-221 | after a line end the rest of a stream is cut on its own |
| LineFraming.LinesAreSplit | src/link.c:196-221 | the lines are the nonblank parts of the stream split on runs of CR and LF |
| LineFraming.CStrWhole | src/link.c:230-234 | a line is handed on whole if and only if it holds no NUL |
| LineMeaning.CStrEnds | src/link.c:230-234 | a line with a NUL is handed on up to the first one |
| LineMeaning.StreamLines | src/link.c:176-240 | of any stream exactly the parts between CRs and LFs come out, in order, that have a first word not beginning with a colon or a second word behind a source; what follows the last line end waits |
| LineMeaning.StreamOf | src/link.c:176-240 | and every stream is made of such parts |
| LineMeaning.ParseTakes | src/msg.c:25-37 | those are the lines that u_msg_parse accepts |
| LineFraming.Link.Closest | src/link.c:199-211 | the nearer of the two searches is the first line end |
| LineFraming.Link.Erase | src/link.c:213-216 | exactly the run of line ends becomes NUL |
| LineFraming.Link.Invoke | src/link.c:223-234 | whenever a command is invoked, ibufskip to ibuflen is exactly the part of what was read that is not dispatched |
| LineFraming.Link.One | src/link.c:196-234 | a turn of the loop moves one line from the buffer to what is dispatched |
| LineFraming.Link.DispatchLines | src/link.c:176-240 | unless the link waits, all lines of everything read so far have been dispatched in order and the buffer holds the unterminated tail |
| LineFraming.Link.DataReady | src/link.c:80-99 | a read takes what fits and dispatches; a full buffer is a flood |
| LineFraming.Link.ClearWait | src/link.c:114-129 | when a wait ends everything held back is dispatched |
| LineFraming.Link.Session | src/link.c:80-240 | for every stream, every division into reads and every pattern of waits the dispatched lines are the lines of what was read |
| LineFraming.Upgrade | src/link.c:586-625 | an upgrade inside a command restores the link with just the undispatched bytes, if and only if they are at most 2043 |
| LineFraming.UpgradeAndFlush | src/link.c:242-244 | and once flushed no line is lost or repeated |
| Cookies.CmpExact | src/cookie.c:30-42 | a comparison is right exactly when the gap modulo 2^32 is in range |
| Cookies.CmpNear | src/cookie.c:30-42 | stamps less than 2^31 apart compare in their order |
| Cookies.IncLater | src/cookie.c:14-23 | with a clock that does not go back an increment gives a later stamp of the present |
| MuteCache.IsInList | src/chan.c:696-708 | the loop finds an entry if and only if one hits |
| MuteCache.IsMuted | src/chan.c:759-780 | when the stamps compare, whoever is neither op nor voice is muted if and only if the channel is moderated or some entry of its quiet list hits him; the answer is the fresh one exactly when the stamps compare or the stale answer happens to be right, and the cache is right afterwards |
| MuteCache.Year2038 | src/chan.c:759-780 | a muted member who is answered unmuted because the stamps are too far apart |
| MuteCache.Server.Mode | src/chan.c:73-77 | after a whole mode change and its sync no cached answer can be used that the change made stale |
| MuteCache.Server.Ask | src/chan.c:759-780 | in every reachable state a query gives the plain evaluation |
| MuteCache.Server.Run | src/chan.c:759-780 | over any run of creations, joins, mode changes, clock ticks and queries every answer is that of a server without cache |
| MuteRuns.ModeDecides | src/chan.c:759-780 | in any run from nothing, after a mode change of his channel a member is answered muted if and only if the last one left him neither op nor voice and the channel moderated or with a quiet that hits him |
| MuteRuns.JoinDecides | src/chan.c:759-780 | if the last mode change was before he joined, the join decides what he is and that mode change the rest |
| MuteRuns.NeverMuted | src/chan.c:759-780 | and where the modes were never changed nobody is answered muted |
| MuteRuns.WhoAsked | src/chan.c:759-780 | whoever is asked about has joined before, so one of the three is the case |
| SendTo.Sender.Skip | src/sendto.c:21-28 | the excluded link is stamped if its stamp compares as earlier |
| SendTo.Sender.Ln | src/sendto.c:52-78 | every link gets the message in the form for its kind, though each form is made once |
| SendTo.Sender.Walk | src/sendto.c:178-197 | a walk serves each wanted link that does not look served, once, however often it is met |
| SendTo.Sender.WalkAll | src/sendto.c:218-247 | walking channel after channel serves the union once |
| SendTo.Sender.SendChan | src/sendto.c:91-101 | whatever the stamps, a link gets at most one line, and exactly when a member is on it, it is of a kind the send type is for, and it does not look served |
| SendTo.Sender.SendVisible | src/sendto.c:103-113 | the same for the union of a user's channels |
| SendTo.StartsAbove | src/sendto.c:14-19 | after the start the global stamp is strictly above every link's |
| SendTo.SilentExact | src/sendto.c:21-28 | whatever the order of the two stamps, a link looks served exactly when they are equal, an excluded one exactly when its own is not later |
| SendTo.ExactlyOnce | src/sendto.c:21-28 | then only the excluded link looks served |
| SendTo.Broadcast | src/sendto.c:91-113 | the stamp and the lines one broadcast leaves on every link, whatever the stamps |
| SendTo.Deliver | src/sendto.c:91-113 | each broadcast gives every link exactly the line it is due and keeps the stamps in order |
| SendTo.DueCases | src/sendto.c:30-78 | what a link is due, by cases: a line for users goes to user links and unregistered ones, a line for servers to server links, one for all to every link, each in its form, and nothing to the excluded link |
| SendTo.Run | src/sendto.c:91-113 | over any run every link gets exactly the lines it is due, each once, if at its start no link has a later stamp of that second than the global one |
| SendTo.FirstSecond | src/sendto.c:278-283 | over any broadcasts in the second of a restart every link gets exactly the lines it is due but for the lost and the leaked ones |
| SendTo.AfterUpgrade | src/link.c:634-639 | with restored stamps of any kind each link gets that in the first second, and exactly the lines it is due over any run from the next second on |
| SendTo.RestoredExact | src/sendto.c:278-283 | broadcast k of the second of a restart goes wrong for a link if and only if it is the first to meet the link and the stamp the link came back with is its own and the line is due, or a later one of that second and the link is excluded |
| SendTo.SecondLineLost | src/sendto.c:80-87 | a link restored with the stamp of the second broadcast of the second loses that broadcast |
| SendTo.ExcludedGets | src/sendto.c:80-87 | and gets the first though it is excluded |
| Membership.Network.ChanUserAdd | src/chan.c:576-590 | both sides get the same new record and stay symmetric |
| Membership.Network.ChanUserDel | src/chan.c:592-606 | both sides lose the record; the channel leaves the table, with all its invites, exactly when nobody is left |
| Membership.Network.AddInvite | src/chan.c:539-544 | an invite is on both sides |
| Membership.Network.DelInvite | src/chan.c:546-550 | and leaves both |
| Membership.Network.ClrInvitesChan | src/chan.c:557-564 | the walk over the invites held at its start, each visit deleting from them, leaves no user an invite to the channel and takes no other |
| Membership.Network.ClrInvitesUser | src/chan.c:566-573 | the same for the invites of a user |
| Membership.Network.ChanDrop | src/chan.c:318-333 | an empty channel leaves the table and no reference to it stays |
| Membership.Network.PartAll | src/user.c:145-157 | in any order of the channels held at the start, every visit is handed the record the map held then, which is still the live one though earlier visits deleted from the map and dropped channels; in the end the user is off every channel and those he was alone on are dropped |
| Membership.Network.UserDestroy | src/user.c:150-167 | afterwards nothing refers to the user, the channels he was alone on are gone with their invites, and nothing else has changed |
| MembershipRuns.DoPart | src/chan.c:592-606 | the membership leaves the relation, and the channel goes with its invites exactly when nobody is left on it |
| MembershipRuns.DoDestroy | src/user.c:150-167 | the user leaves the relation with all his memberships and invites, and exactly the channels only he was on go with theirs |
| MembershipRuns.Run | src/chan.c:576-606 | over any run from nothing of creating, joining, parting, inviting and destroying, the maps on both sides hold exactly the plain relation of what was done |
| WordWrap.Wrapper.Word | src/strop.c:42-73 | an offer takes the word or gives a line and leaves less to be wrapped; with a width of zero it makes no progress |
| WordWrap.WrapWords | src/strop.c:42-73 | the caller's loop terminates with exactly the lines of the specification |
| WordWrap.LinesFit | src/strop.c:42-73 | no line is empty or longer than the width |
| WordWrap.NothingLost | src/strop.c:42-73 | without spaces the lines together are the words together, for any words |
| WordWrap.LongWord | src/strop.c:42-73 | a word that fits no line is cut into lines of exactly the width, nothing added, and what is left is shorter than a line |
| WordWrap.TokensCut | src/strop.c:15-30 | a string with a delimiter has the tokens before it and then those behind it; without one it is its own token, unless it is empty |
| WordWrap.Splitter.Next | src/strop.c:15-30 | the next token is the first of the string's tokens, and what is left has the others |
| WrapOptimal.WrapIsGroups | src/strop.c:42-73 | when every word fits, the lines are groups of consecutive words joined by spaces |
| WrapOptimal.GroupsMaximal | src/strop.c:42-73 | the groups are all the words in order, and the word after a closed group would not have fitted it |
| WrapOptimal.WrapSplits | src/strop.c:15-73 | splitting the lines at spaces gives the words back |
| WrapOptimal.StaysAhead | src/strop.c:42-73 | full groups are no more than the lines of any packing that holds at least their words |
| WrapOptimal.WrapOptimal | src/strop.c:42-73 | no packing of the words in order takes fewer lines |
| Commands.Registry.Reg | src/msg.c:100-136 | a command becomes the head of its chain exactly when it was never registered and overlaps no command of its name; otherwise nothing changes |
| Commands.Registry.Unreg | src/msg.c:151-165 | exactly that command leaves its chain, wherever it is, and the table and links stay well formed |
| Commands.Registry.Find | src/msg.c:376-398 | a command of the name that answers to the source is found if and only if there is one; otherwise the bits of all of them are reported; all words of three digits are one name |
| Commands.OneAnswer | src/msg.c:376-398 | for a single source bit the answer is unique and does not depend on the order of registration |
| Commands.OverlapIs | src/msg.c:100-136 | two sources overlap if and only if they have a bit in common, whatever other bits they have |
| Commands.Registry.RegAgain | src/msg.c:118-122 | a command that was unregistered cannot be registered again |
| CommandRuns.Run | src/msg.c:100-165 | over any run of registering and unregistering, each registration is answered as a plain account of lists per name answers it, and the chains hold those lists |
| CommandRuns.TakenOnce | src/msg.c:118-122 | over any run a command is taken at most once, whatever is unregistered in between |
| UserIds.IncCounts | src/user.c:17-30 | the odometer counts modulo 36^6 |
| UserIds.Counter.IdNext | src/user.c:17-30 | the id is that of the present digits, and the carry loop advances them by one |
| UserIds.Counter.SetIdNext | src/user.c:32-47 | every character is looked up before a digit changes; an unknown one changes nothing |
| UserIds.SetThenNext | src/user.c:32-47 | setting the counter to an id makes that id the next |
| UserIds.IdsDiffer | src/user.c:17-30 | any two of 36^6 ids in a row differ, wherever the counter starts |
| UserIds.Draw | src/user.c:17-30 | a run of ids has no repetition |
| UserIds.Upgrade | src/user.c:482-502 | the next process goes on with the ids that the last one had not handed out |
| UserIds.Life | src/user.c:482-502 | over any run of new users and upgrades no id is given out twice up to 36^6 users |

## Left out

- Sockets, the event loop, DNS, configuration, modules, logging and crypt: writev takes any amount up to
  the first 32 chunks, a read gives any bytes that fit, the clock and the effects of commands on wait
  flags are parameters.
- The mowgli libraries: tries are finite maps, JSON strings are byte sequences.
- AaTree.InsertBalanced: balance is proved for insertions only, because decrease_level takes the level
  of the only child when the other is missing and leaves trees outside the AA rules.
- Pointer keys of maps, whose difference is narrowed to int (src/map.c:44): keys are integers, compared
  as such; nested U_MAP_EACH loops on one map and string keys that alias a node's own key.
- ModeEngine.Modes.Process: nicks that change while a mode string is processed; the setter and time of
  list entries, which the delta does not carry; what happens once output does not fit the data buffer,
  when the snprintf return value has taken the write position past the end; pointers into the mode
  string, which are indexes.
- ModeDelta.FaithfulDelta: mode strings of which some mask does not repeat: exactly those on which the
  servers fall out of step (ModeDelta.InStepExact); what they do in the end is ModeReplay.EndExact.
- ModeWire.Delivered: the look-up of the channel and the comparison of time stamps before a TMODE line is
  processed; which of the two settings of the checks the uninitialized flags word has; a full send queue.
- SJOIN merging, which announces cleared flags without clearing them (modules/core/sjoin.c:238-242), so
  that channels do not converge.
- SendQueue.SendQ.Store: the 4000 bytes lie inside the chunk, so they are a sequence field rather than an
  array of their own; writing through a pointer is the update of that field.
- SendQueueRuns.Run: queues that are cleared in the run, whose bytes are dropped.
- LineFraming.Link.Invoke: a command that closes its own link, and flood handling beyond refusing to
  read.
- MuteCache.Server.Run: changes of nick, host, account and of the channels extended bans look at, BMASK
  and merging, which change the inputs without a sync.
- SendTo.Run: the cut of a line to what a link takes, which is in ModeWire.dfy; sends that happen inside
  a send through a full queue; u_sendto_servers, u_sendto_list and u_sendto_map, which are walks over
  links that are all wanted.
- Membership.Network.PartAll: the map that is walked is a finite map with some order of walking; that
  u_map_each hands over what the map then has for each key of the start is MapEach.Each.
- Commands.Registry.Unreg: commands that are not registered, and unloading a module while its commands
  are walked.
- UserIds.Counter.SetIdNext: strings that end before their sixth character.
- The rate limiter, the cut helper, WHO, WHOIS, STATS, HELP, MOTD and the numerics: easy members.
