# Verification of libsrsirc

This project models the core of libsrsirc, an IRC client library in C, and proves that it does
what it is for: it turns the bytes of a connection into messages, and keeps from those messages
a consistent picture of who is in which channel.

`dafny verify dfyconfig.toml` checks everything.

## What is modelled

**The tracking base** (`Tracking`, `TrackingLemmas`, `Handlers`, `Guards`, `HandlerLemmas`, `Runs`,
`Roster`, `Grades`, `Effects`, `NameLists`; in place: `UcBase`, `Track`). The C code stores "who is where" several times over: a map
of users, a map of channels, a map of members in each channel, and in each user record a
hand-kept count `nchans` that decides when the record is freed. `State` keeps all of these, with
user records behind explicit pointers, so that a record freed too early, freed twice or never
freed is something the model can express. The handlers of JOIN, PART, QUIT, KICK, NICK, MODE, 353,
366 and 324 form one total transition function, `Handlers.Step`; on messages where the C code runs
over the end of a string its outcome is `Undefined`. The invariant `Inv` says that every copy
agrees and no record counts fewer channels than hold it; `Exact` says that the counts are exact and
nobody is tracked without a channel. `Roster` gives a second, redundancy-free reading of the same
messages (channel to members), and proves that the base always shows that reading. `Effects`,
`NameLists` and `ModeEffects` say command by command, with the command written out, what a message
does to the members and modes of the channels; they do so without the transition function's parts.

**The map under it** (`CaseMap`, `Table`; in place: `Bucklist`, `Skmap`). Keys are compared and
hashed by a canonical prefix: case-folded and cut at the first `!`, `@` or NUL. A table of buckets
refines a finite map keyed by canonical prefixes; linked lists, lazily made buckets, the cached
count and the resumable iterator are proved against it.

**The wire format** (`Framing`, `Tokenizer`, `EndToEnd`; in place: `InPlace`, `Io`, `Printer`, `Relay`). The
receive buffer with its two moving pointers, the tokenizer that cuts a line where it stands, and the
printer. `Framing.Lines` says what a byte stream means however it is cut into chunks.

**Modes** (`Modes`, `ModeText`, `ModeEffects`, `Prefixes`, `Umodes`, `Slots`): dissecting MODE and 324 by mode class, the ordered prefix
string of a member, the growable array of channel modes, the two lists of a PREFIX token, and the
client's own user modes.

**Capabilities, tags, base64** (`V3`, `V3Tags`, `Base64`).

Strings stand for the characters in front of the terminating NUL; where a buffer is modelled, it is
an `array<char>` with its NULs, and a pointer into it is an offset. The token positions
`(*msg)[0]`, `(*msg)[1]`, `(*msg)[2]` ... appear as `prefix`, `cmd`, `args[0]` ....

## Where the code has conditions

These hold of the code as it is; each is a lemma with the exact condition or a concrete run.

- A JOIN of somebody who is already a member counts the channel twice. The record then outlives its
  last channel, and `lsi_ucb_clear`, which walks the channels, leaves it in the user map
  (`RepeatedJoinOutlives`, `ClearEmptiesIff`). Without repeated members counts are exact
  (`StepKeepsIff`, `RunKeeps`).
- `add_user` cuts a nick to 63 characters, `get_user` looks for all of it. A longer nick that joins
  twice leaks a record (`LongNickIsLost`, `EnrollLeaks`, `NickKeepsKey`).
- A NICK to a name in use takes the other user's place; that record leaks (`TakenNickIsLost`,
  `RenameClobbers`). `RenameKeepsIff` has the exact condition for a rename to keep the base consistent.
- The fold tables treat `^` and `~` as equal under strict-rfc1459 and as different under rfc1459;
  `lsi_ut_tolower` does the reverse, as section 3.1 of draft-brocklesby-irc-isupport-03 asks. The model
  follows the code on both sides; `FoldsAgreeOnChars` says that this pair is the only disagreement.
- The cursor of the 353 handler runs over the terminator of a list that is empty or ends in a blank
  (`NamesOverrun`, `ListOkPlainly`). Should the announced symbols hold a blank, every second blank in
  a row is taken for one, and the number of blanks at the end decides (`ListOkIff`).
- A prefix letter that the server also lists in mode class C or D may come without an argument; the MODE
  handler then reads the name behind the end of its two-character entry (`ModeOverrun`); `ChanModeDefinedIff` says for which texts it does,
  `PrefixArgsIff` and `SoundListsSuffice` for which lists it never can.
- A message printed without the trailing colon is misread when its last argument is empty or starts
  with a colon (`ReadBackIff`).
- A CAP request longer than its 118 characters is cut, and then at least one wanted cap is never enabled
  (`AckEnablesAllIff`). Cap names of 128 characters or more can be listed twice (`WantKeepsUniqueIff`).

## Assumptions

Memory allocation succeeds. Case mapping, mode classes, prefix and channel-type lists do not change
while channels are tracked; they are a `Config` parameter. The peer of a connection is an arbitrary list of
events (bytes, timeout, end, failure).

## Model

| member | source | states |
|---|---|---|
| CaseMap.CanonShape | libsrsirc/cmap.c:16-122 | a key is the longest prefix without terminator, folded character by character |
| CaseMap.CanonIdempotent | libsrsirc/cmap.c:16-122 | a key is its own key, so maps keyed by keys or by spellings agree |
| CaseMap.PfxEq | libsrsirc/bucklist.c:291-304 | the loop with its bitwise test holds exactly for equal canonical prefixes |
| CaseMap.BitAndSelf | libsrsirc/bucklist.c:291-304 | why the bitwise `&` of two equal folded characters tests for the terminator |
| CaseMap.StrHashSmall | libsrsirc/skmap.c:347-358 | the hash depends on the canonical prefix alone, so equal prefixes share a bucket |
| CaseMap.StrHashMid | libsrsirc/skmap.c:360-372 | likewise for the wide hash |
| CaseMap.CutKeepsKey | libsrsirc/cmap.c:13-14 | cutting an identity at a terminator does not change its key |
| CaseMap.NickKeepsKey | libsrsirc/util.c:33-48 | the nick cut out of an identity has the identity's key exactly if the nick fits the buffer |
| CaseMap.IStrCmp | libsrsirc/util.c:86-120 | 0 exactly for strings equal under `lsi_ut_tolower` |
| CaseMap.FoldsAgreeOnChars | libsrsirc/util.c:122-141 | the fold tables and `lsi_ut_tolower` equate the same characters except for `^` with `~` outside ascii |
| CaseMap.LowerPairs | libsrsirc/util.c:122-141 | two characters are taken for the same exactly if they are, or are each other's case: A to Z under ascii, up to `]` under strict-rfc1459, up to `^` under rfc1459 |
| CaseMap.FoldPairs | libsrsirc/cmap.c:16-122 | the same for the fold tables, up to `^` under strict-rfc1459 and up to `]` under rfc1459; exactly `!`, `@` and NUL end a key |
| CaseMap.IEqIsKeyEq | libsrsirc/util.c:86-120 | for strings without `!`, `@`, NUL (and `^`, `~` outside ascii) equality under `lsi_ut_istrcmp` is equality of keys |
| CaseMap.OtherCaseIsEqual | libsrsirc/util.c:86-141 | letters in the other case are equal under every mapping and have the same key |
| CaseMap.XorTwice | libsrsirc/skmap.c:347-372 | the bitwise `^` of the hashes is its own inverse |
| CaseMap.HashOfA | libsrsirc/skmap.c:347-372 | both hashes of a one-letter key, worked out by hand, and the three shifts |
| Table.GetRefines | libsrsirc/skmap.c:160-173 | a lookup is a lookup in the map from canonical prefixes to values |
| Table.PutRefines | libsrsirc/skmap.c:117-158 | a put is a map update and keeps every entry in its bucket, without equivalent keys |
| Table.DelRefines | libsrsirc/skmap.c:175-196 | a delete is a map removal, and emptied buckets stay harmless |
| Table.PutKeepsSpelling | libsrsirc/bucklist.c:142-158 | a replacement keeps the stored key and leaves all other entries alone |
| Table.FlatCounts | libsrsirc/skmap.c:198-205 | the buckets together hold as many entries as the map has keys |
| Table.PutCount | libsrsirc/skmap.c:117-158 | the count grows by one exactly for a new key |
| Table.DelCount | libsrsirc/skmap.c:175-196 | the count shrinks by one exactly for a stored key |
| Table.FlatOverEmpty | libsrsirc/skmap.c:207-254 | skipping empty or missing buckets skips no entry |
| Table.TraversalIsModel | libsrsirc/skmap.c:207-254 | a full traversal yields each key of the map once, with its value, and nothing else |
| Bucklist.Bucklist.Insert | libsrsirc/bucklist.c:102-139 | the list gains one entry at the i-th place or at its end |
| Bucklist.Bucklist.Find | libsrsirc/bucklist.c:208-222 | finds the value of the first entry with an equivalent key, or nothing |
| Bucklist.Bucklist.Replace | libsrsirc/bucklist.c:142-158 | replaces that value in place, or reports that there is none |
| Bucklist.Bucklist.Remove | libsrsirc/bucklist.c:160-184 | unlinks exactly that entry and returns its value |
| Bucklist.Bucklist.First | libsrsirc/bucklist.c:224-237 | the iterator starts at the first entry |
| Bucklist.Bucklist.Next | libsrsirc/bucklist.c:239-252 | the iterator moves on by one entry and stops behind the last |
| Skmap.Skmap.Get | libsrsirc/skmap.c:160-173 | lookup in the linked structure equals lookup in the table |
| Skmap.Skmap.Put | libsrsirc/skmap.c:117-158 | the linked structure becomes the table after a put, the count included |
| Skmap.Skmap.Del | libsrsirc/skmap.c:175-196 | the linked structure becomes the table after a delete, the count included |
| Skmap.Skmap.Clear | libsrsirc/skmap.c:79-102 | every bucket is emptied |
| Skmap.Skmap.First | libsrsirc/skmap.c:207-228 | starts the iteration at the first entry in bucket order |
| Skmap.Skmap.Next | libsrsirc/skmap.c:230-254 | moves on to the entry that follows in bucket order, over missing and empty buckets |
| Skmap.Skmap.Traverse | libsrsirc/skmap.c:207-254 | first and next until false visit the entries in bucket order, each once, as many as the count says |
| TrackingLemmas.EnrollKeeps | libsrsirc/ucbase.c:163-175 | adding a member, and the user where needed, keeps the base consistent; counts stay exact exactly if the user was no member yet |
| TrackingLemmas.EnrollLeaks | libsrsirc/ucbase.c:411-447 | without the condition on the nick the record filed under its short form is in the user map no more, and not freed |
| TrackingLemmas.EvictKeeps | libsrsirc/ucbase.c:98-117 | taking each of some records out of one channel, and freeing those whose count reaches zero, keeps all copies in agreement |
| TrackingLemmas.DropChanKeeps | libsrsirc/ucbase.c:90-131 | dropping a channel frees nobody who is still referred to and keeps exact counts exact, and inexact ones inexact |
| TrackingLemmas.ClearMembKeeps | libsrsirc/ucbase.c:202-228 | the same for emptying a channel |
| TrackingLemmas.DropMembKeeps | libsrsirc/ucbase.c:177-200 | the same for dropping one member |
| TrackingLemmas.DropUserKeeps | libsrsirc/ucbase.c:449-476 | dropping a user takes the record out of every channel before it is freed |
| TrackingLemmas.RenameCaseOnly | libsrsirc/ucbase.c:603-655 | a rename the two foldings take for a change of case keeps the base consistent exactly if the keys agree as well |
| TrackingLemmas.RenameClobbers | libsrsirc/ucbase.c:618-652 | a rename onto a nick in use: the other record is in the user map no more, and not freed |
| TrackingLemmas.RenameKeepsIff | libsrsirc/ucbase.c:603-655 | exactly when a rename keeps the base consistent, and that it then keeps exact counts |
| HandlerLemmas.JoinKeeps | libsrsirc/irc_track.c:88-129 | JOIN keeps the invariant exactly under its guard |
| HandlerLemmas.LeaveKeeps | libsrsirc/irc_track.c:294-359 | PART and KICK keep the invariant and exact counts |
| HandlerLemmas.QuitKeeps | libsrsirc/irc_track.c:321-334 | QUIT keeps the invariant and exact counts |
| HandlerLemmas.NickKeeps | libsrsirc/irc_track.c:360-377 | NICK keeps the invariant exactly under the guard on renames |
| HandlerLemmas.NamesKeep | libsrsirc/irc_track.c:219-274 | a 353 line keeps the invariant; the cursor stays inside exactly the lists that end in a name; exact counts stay exact exactly if nobody listed is a member already |
| HandlerLemmas.ChanModeKeeps | libsrsirc/irc_track.c:404-450 | MODE never touches who is where, and is defined exactly if every prefix letter in its text takes an argument and has a symbol |
| HandlerLemmas.ModeIsKeeps | libsrsirc/irc_track.c:497-533 | nor does 324 |
| HandlerLemmas.StepKeepsIff | libsrsirc/irc_track.c:88-533 | for every message: the invariant is kept and the code is defined if and only if a guard on the state and the text of the message holds; exact counts are kept if and only if nobody is added twice |
| HandlerLemmas.RunKeeps | libsrsirc/irc_track.c:88-533 | over every run of such messages the copies agree and no record counts too few channels; with nobody added twice all counts are exact |
| Guards.ListOkIff | libsrsirc/irc_track.c:219-274 | for every set of symbols: the cursor of 353 stays inside a list if and only if its end blanks leave it a name |
| Guards.ListOkPlainly | libsrsirc/irc_track.c:219-274 | with symbols that hold no blank: if and only if the list is not empty and does not end in a blank |
| Guards.NamesDefinedIff | libsrsirc/irc_track.c:219-274 | the same for the outcome of the handler |
| Guards.PrefixArgsByText | libsrsirc/util.c:278-379 | the parser hands out an argument with every prefix letter exactly if each takes one under the sign in front of it |
| Guards.ChanModeDefinedIff | libsrsirc/irc_track.c:404-450 | MODE on a tracked channel is defined if and only if its text is so |
| Guards.SoundListsSuffice | libsrsirc/irc_track.c:404-450 | it always is with as many symbols as letters and no prefix letter classed C or D |
| Runs.NamesOverrun | libsrsirc/irc_track.c:238-242 | after our JOIN, a 353 with an empty list, and one with a blank at its end, leave the list |
| Runs.ModeOverrun | libsrsirc/irc_track.c:425-440 | after our JOIN, a MODE that takes away a prefix letter classed C or D reads behind the end of its entry |
| Runs.RepeatedJoinOutlives | libsrsirc/irc_track.c:88-129 | four messages, all admissible, after which clearing leaves a user behind |
| Runs.LongNickIsLost | libsrsirc/ucbase.c:411-447 | three messages: a nick of 64 characters or more that joins twice leaves a record nothing leads to and clearing does not free |
| Runs.TakenNickIsLost | libsrsirc/ucbase.c:603-655 | four messages: a NICK onto the nick of another member leaves that record so |
| HandlerLemmas.ExactUsers | libsrsirc/ucbase.c:90-228 | with exact counts the user map holds exactly the members of the channels |
| HandlerLemmas.InitialExact | libsrsirc/irc_track.c:49-77 | the base starts out exact |
| HandlerLemmas.ClearEmptiesIff | libsrsirc/ucbase.c:488-525 | `lsi_ucb_clear` with its early returns empties both maps exactly if there is a channel or no user; always, with exact counts |
| HandlerLemmas.ReaddedUserOutlives | libsrsirc/ucbase.c:163-175 | a user added twice to the only channel outlives it and the clearing |
| Roster.StepView | libsrsirc/irc_track.c:88-533 | one message changes what the redundant base shows as the simple reading of the message says, if and only if a user it makes a member is filed under the key of the identity |
| Roster.RunView | libsrsirc/irc_track.c:88-533 | over every run of such messages the base shows the simple reading of all of them; with exact counts it is determined by it |
| Roster.AdmissibleRuns | libsrsirc/irc_track.c:88-533 | messages whose nicks, names, lists and modes are sound make such a run; only that no nick in use is taken depends on the base |
| Roster.ExactIsDetermined | libsrsirc/ucbase.c:90-228 | users and counts follow from the rooms alone |
| Roster.NamesRunReplaces | libsrsirc/irc_track.c:219-274 | a run of 353 lines begun with the flag set leaves exactly the listed nicks, each with its symbol; users left without a channel are gone |
| Grades.StepGraded | libsrsirc/ucbase.c:247-301 | every message keeps every member's prefix ordered strongest first, without repetition, of at most 7 symbols, and every mode array compact |
| Grades.RunGraded | libsrsirc/ucbase.c:247-382 | so in every reachable state |
| Grades.RenameMoves | libsrsirc/ucbase.c:603-655 | a proper rename moves the same record from old key to new key in the user map and in exactly the channels that held it, prefixes and counts unchanged |
| Grades.MovedCounts | libsrsirc/ucbase.c:633-650 | no channel gains or loses a member by a rename |
| Grades.RenameCaseOnlyKey | libsrsirc/ucbase.c:612-617 | a rename to the same key changes the spelling in the record and no map |
| UcBase.Base.Release | libsrsirc/ucbase.c:98-113 | the count goes down, at zero the record leaves the user map and is freed |
| UcBase.Base.DropChan | libsrsirc/ucbase.c:90-131 | the pass over the members has the effect of releasing all of them at once |
| UcBase.Base.ClearMemb | libsrsirc/ucbase.c:202-228 | the same for emptying a channel |
| UcBase.Base.DropMemb | libsrsirc/ucbase.c:177-200 | one member dropped, with or without purging its record |
| UcBase.Base.DropUser | libsrsirc/ucbase.c:449-476 | the pass over all channels takes the user out of each before the record is freed |
| UcBase.Base.RenameUser | libsrsirc/ucbase.c:603-655 | the pass over all channels re-keys the member in exactly those that have it |
| UcBase.Base.Clear | libsrsirc/ucbase.c:488-525 | the two passes with their early returns |
| UcBase.Base.UpdateModepfx | libsrsirc/ucbase.c:247-287 | one member's prefix updated, nothing else changed |
| Track.HandleJoin | libsrsirc/irc_track.c:88-129 | the handler does what the transition function says |
| Track.HandlePart | libsrsirc/irc_track.c:294-319 | likewise |
| Track.HandleKick | libsrsirc/irc_track.c:336-358 | likewise |
| Track.HandleQuit | libsrsirc/irc_track.c:321-334 | likewise |
| Track.HandleNick | libsrsirc/irc_track.c:360-377 | likewise, our own nick included |
| Track.HandleNames | libsrsirc/irc_track.c:219-274 | the cursor loop reads exactly the entries of the list |
| Track.HandleMode | libsrsirc/irc_track.c:404-465 | the parsed changes are applied in order, to members or to the mode array |
| Track.Handle324 | libsrsirc/irc_track.c:497-533 | the mode array is rebuilt from the reply |
| Track.Handle | libsrsirc/msg.c:134-160 | every message is handled as the transition function says, and the guard decides whether the next one may come |
| Effects.KickTakesOut | libsrsirc/irc_track.c:336-358 | KICK of somebody else takes that member out of that room, and nobody out of any other |
| Effects.KickOfUs | libsrsirc/irc_track.c:336-358 | KICK of us removes that room and no other |
| Effects.PartTakesOut | libsrsirc/irc_track.c:294-319 | PART takes the sender out of that room, or removes it if the sender is us |
| Effects.QuitTakesOut | libsrsirc/irc_track.c:321-334 | QUIT takes the sender out of every room and out of the user map |
| Effects.JoinEnters | libsrsirc/irc_track.c:88-129 | JOIN of somebody else: a member without a prefix in that room, counted once more, a new user under the nick as spelled; nothing where we are not in the room |
| Effects.WeEnter | libsrsirc/irc_track.c:88-105 | JOIN of ours: an empty room with 16 free mode slots, its name cut to 255 characters, unless it is known |
| Effects.NickOfOtherCase | libsrsirc/ucbase.c:603-617 | NICK to the same nick in another case keeps the user, every membership and every count, and stores the new spelling |
| Effects.NickOfSameKey | libsrsirc/ucbase.c:603-617 | so does any other spelling with the same key, for nicks the two case mappings agree on |
| Effects.NickMoves | libsrsirc/ucbase.c:603-655 | NICK to a free nick moves the one record to the new key in the user map and in exactly the rooms that had it, with the prefix it had in each |
| Effects.NickOfUnknown | libsrsirc/ucbase.c:612-614 | NICK of a user nobody knows changes at most our own nick |
| Effects.OurNickFollows | libsrsirc/irc_msghnd.c:228-243 | our own nick follows a NICK of ours and is cut to 63 characters |
| Effects.NickOf | libsrsirc/util.c:33-48 | what is taken for the nick of `nick!user@host`, and its key, where the nick fits the buffer |
| Effects.EndOfNamesSetsFlag | libsrsirc/irc_track.c:276-292 | 366 sets the flag and nothing else |
| Effects.ModeReplyIsLocal | libsrsirc/irc_track.c:497-533 | 324 changes the modes of that one channel and nothing else |
| Effects.OthersChangeNothing | libsrsirc/irc_track.c:49-77 | a message no tracking handler is registered for leaves the base alone |
| Effects.RefusedIff | libsrsirc/irc_track.c:88-533 | a tracked message is refused exactly if it has no sender or too few arguments, and then changes nothing |
| NameLists.ListIsRead | libsrsirc/irc_track.c:237-270 | whatever nicks and symbols a list is printed from are read from it |
| NameLists.NamesEnter | libsrsirc/irc_track.c:219-274 | a 353 line makes everybody listed a member, with the symbol of the last mention; the members there were stay unless a new list begins, and no other room changes |
| ModeEffects.ModeIsAdded | libsrsirc/irc_track.c:434-437 | `+c` appends the letter and its argument to the modes of the channel |
| ModeEffects.ModeIsTaken | libsrsirc/irc_track.c:438-439 | `-c` takes away the first entry that the text names, by the whole text for list modes and by the letter otherwise, if there is one; the last entry takes its place and all others stay |
| ModeEffects.PrefixIsChanged | libsrsirc/irc_track.c:429-433 | a prefix letter gives its symbol to the member named, or takes it away: the prefix is then the symbol list without what the member does not hold; 7 symbols are the limit |
| ModeEffects.ModeElsewhere | libsrsirc/irc_track.c:452-464 | a MODE that is not about a known channel leaves the base alone |
| ModeEffects.ModeIsOneByOne | libsrsirc/irc_track.c:425-440 | several changes in one MODE do what one MODE for each would do, in the order of the text |
| ModeEffects.ModeReplyReplaces | libsrsirc/irc_track.c:497-533 | a 324 that lists modes leaves exactly those, in order and with their arguments, whatever was known before |
| Modes.ChangesByPosition | libsrsirc/util.c:278-379 | the p-th mode character yields the change with the latest sign and the argument that stands at the number of arguments used before it |
| Modes.ChangesCount | libsrsirc/util.c:278-379 | one change per known mode character |
| Modes.ParseMode | libsrsirc/util.c:278-379 | the loops over the two cursors compute exactly those changes, the write index stays inside the array and ends at its length |
| Modes.PrefixArgsIff | libsrsirc/util.c:278-379 | prefix modes get an argument in every MODE exactly if no prefix letter is classed C or D |
| ModeText.FirstLetter | libsrsirc/util.c:319-347 | for every letter behind a sign: the first of the four lists that holds it decides whether it takes an argument, a prefix letter in none of them always does, any other is skipped; a missing argument is `*` |
| ModeText.SignHolds | libsrsirc/util.c:311-318 | a sign stands for all letters up to the next one |
| ModeText.TextIsRead | libsrsirc/util.c:278-379 | whatever changes are put into a mode string are read from it, with signs and arguments, in order |
| Modes.StrCchr | libsrsirc/common.c:34-42 | counts the occurrences of a character |
| Modes.UpdatePfxIsSetUpdate | libsrsirc/ucbase.c:247-287 | a successful enable or disable is exactly set insert or remove, a refused one changes nothing, and the order is kept |
| Modes.RemovingIsSetRemove | libsrsirc/ucbase.c:259-264 | taking a symbol out keeps the order |
| Modes.InsertingKeepsOrder | libsrsirc/ucbase.c:265-278 | the insertion point keeps the order |
| Modes.OrderedIsCanonical | libsrsirc/ucbase.c:247-301 | an ordered prefix is determined by its set of symbols |
| Modes.HeadIsStrongest | libsrsirc/ucbase.c:289-301 | the first symbol is the strongest one |
| Prefixes.OrderedIsKept | libsrsirc/ucbase.c:289-301 | an ordered prefix has its symbols in the order of the symbol list, none twice: it is that list with some symbols left out |
| Prefixes.UpdateKeeps | libsrsirc/ucbase.c:247-287 | an update makes the prefix the list of all symbols held from then on |
| Prefixes.ReachablePrefix | libsrsirc/ucbase.c:247-301 | so it is for every member in every reachable state, with at most 7 symbols |
| Modes.RemoveSymbol | libsrsirc/ucbase.c:259-264 | the shift in place removes exactly one symbol |
| Modes.InsertSymbol | libsrsirc/ucbase.c:265-278 | the shift in place inserts exactly one symbol |
| Modes.UpdateModepfx | libsrsirc/ucbase.c:247-287 | the buffer holds the updated prefix, and the result says whether it was refused |
| Modes.AddModeAppends | libsrsirc/ucbase.c:311-338 | adding appends one string and doubles the array exactly when it was full |
| Modes.DropModeRemovesOne | libsrsirc/ucbase.c:340-382 | dropping takes out exactly one matching string, or nothing where none matches |
| Modes.ClearChanmodes | libsrsirc/ucbase.c:303-309 | all slots are NULL, none is lost |
| Modes.AddChanmode | libsrsirc/ucbase.c:311-338 | the search, growing and storing computes the array after an addition |
| Modes.DropChanmode | libsrsirc/ucbase.c:340-382 | the two searches compute the array after a removal |
| Modes.ParsePrefixPairs | libsrsirc/irc_msghnd.c:302-324 | accepted lists are equally long, so the position of a letter is one of a symbol; two lists that fit are taken exactly if they are |
| Umodes.ToggleIsSetUpdate | libsrsirc/irc_msghnd.c:263-279 | one letter is inserted or removed, refused only where 63 characters are used up |
| Umodes.TogglesAreAsked | libsrsirc/irc_msghnd.c:246-283 | after any mode string the letters are distinct, none is set that was not asked for, and while there is room for all exactly those are whose last sign says so |
| Umodes.SetUnlessFull | libsrsirc/irc_msghnd.c:246-283 | a letter is set in the end exactly if its last occurrence sets it and does not find the buffer used up by others |
| Umodes.LastSignDecides | libsrsirc/irc_msghnd.c:253-279 | on the text: the last sign in front of the last mention of a letter decides, `+` where there is none |
| Umodes.OneModeOfOurs | libsrsirc/irc_msghnd.c:246-283 | a MODE is about us exactly if it names our nick; then `+c` and `-c` set and clear that letter and no other |
| Umodes.RemoveAt | libsrsirc/irc_msghnd.c:270-276 | the shift in place takes out exactly one letter |
| Umodes.Handle | libsrsirc/irc_msghnd.c:246-283 | the buffer holds the modes after the message, untouched where it is not about us |
| Framing.ReadMoreReads | libsrsirc/io.c:129-170 | a receive moves bytes from the stream into the buffer and loses none, across the move to the front |
| Framing.ScanReads | libsrsirc/io.c:64-85 | the loops return the next line of the stream, or why there is none |
| Framing.ReadLineReads | libsrsirc/io.c:43-85 | one read from any buffer returns the next line, a timeout, the end, or a line of 4095 bytes or more, and leaves what follows |
| Framing.RunIsLines | libsrsirc/io.c:43-170 | however the bytes are cut and timed, reading them gives exactly their lines, in order, and how they end |
| Framing.ChunksDoNotMatter | libsrsirc/io.c:43-170 | two connections with the same bytes yield the same lines |
| Framing.LinesLoseNothing | libsrsirc/io.c:43-85 | the lines put together are the stream without its delimiters, up to what is unfinished or too long; each is non-empty and delimiter-free |
| Io.Socket.Read | libsrsirc/io.c:184-190 | one receive of at most the room there is |
| Io.CodesAre | libsrsirc/io.c:160-170 | a read of an empty buffer returns 0, -2 or -1 for a timeout, the end or a failure |
| Io.LineIsRead | libsrsirc/io.c:43-99 | and 1 for a line |
| Io.FullBufferFails | libsrsirc/io.c:134-141 | 4095 bytes without a delimiter are too long, and the code is -1 |
| Io.ReadCtx.FindDelim | libsrsirc/io.c:117-125 | the first delimiter of the pending bytes, the bytes unchanged |
| Io.ReadCtx.MoveToFront | libsrsirc/io.c:143-149 | the pending bytes are moved to the front unchanged |
| Io.ReadCtx.ReadMore | libsrsirc/io.c:129-170 | the buffer after a receive, and the code returned |
| Io.ReadCtx.ReadLine | libsrsirc/io.c:43-85 | the pointers move as the reader on values does, and the line stands in the buffer with its NUL |
| Io.ParseLine | libsrsirc/io.c:83-99 | the line in the buffer is cut into tags and tokens as its text says |
| Io.ReadCtx.Read | libsrsirc/io.c:43-99 | one call delivers the next line of the stream as tags and tokens, all in front of the bytes still pending, which are untouched |
| Tokenizer.AcceptedIsWellFormed | libsrsirc/util.c:450-483 | an accepted line yields a well-formed message: at most 16 arguments, only the last with spaces, empty or with a colon |
| Tokenizer.ReadBackIff | libsrsirc/util.c:221-242 | a printed message is read back if and only if it is well-formed and, without the colon, its last argument is not mistaken |
| Tokenizer.AcceptedReadBack | libsrsirc/util.c:450-483 | tokenize, print, tokenize gives the same message for every accepted line |
| Tokenizer.ServerLine | libsrsirc/util.c:450-483 | a line as servers write it, with up to 15 words and a last argument behind a colon, falls into these |
| Tokenizer.SixteenthTakesRest | libsrsirc/util.c:450-483 | the 16th argument takes the rest of the line, blanks and all |
| Tokenizer.PrintedLine | libsrsirc/util.c:221-242 | the printed line: the last argument has a colon where it is asked for or holds a blank |
| InPlace.NextTok | libsrsirc/common.c:229-245 | the token is terminated where it stands, the next one found, and nothing outside the text touched |
| InPlace.Tokenize | libsrsirc/util.c:450-483 | the 18 pointers lead to exactly the strings of the message, the rest are NULL, and the buffer outside the line is unchanged |
| InPlace.ReadMsg | libsrsirc/util.c:450-483 | reading the strings behind the pointers gives the message back |
| InPlace.ExtractTags | libsrsirc/util.c:485-504 | the first tags are pointed to, up to the room for them, and the line goes on behind the first space |
| Printer.StrNcat | platform/base_string.c:26-47 | what fits is appended, the string stays terminated, nothing behind the buffer is written |
| Printer.TruncTwice | platform/base_string.c:26-47 | cutting off after each piece is cutting off at the end |
| Printer.SnrcMsg | libsrsirc/util.c:221-242 | the buffer holds the printed line, or its longest prefix that fits |
| EndToEnd.WireLines | libsrsirc/util.c:221-242 | printed messages one after the other are one line each |
| EndToEnd.LineLimit | libsrsirc/io.c:129-141 | a line of up to 4094 bytes is read, one of 4095 or more is too long |
| EndToEnd.SentIsRead | libsrsirc/io.c:43-99 | messages printed, put on the wire and delivered in any chunks are read as the same messages in the same order |
| EndToEnd.SentIsTracked | libsrsirc/irc_track.c:88-533 | and what is tracked from them is the simple reading of what was sent |
| Relay.SendAll | libsrsirc/util.c:221-242 | messages printed one after the other through a buffer put exactly their wire form on the wire |
| Relay.ReceiveAll | libsrsirc/io.c:43-99 | successive reads through the buffer with its two pointers yield the messages of all lines up to a refused one, and the code of how it ended |
| Relay.Converse | libsrsirc/io.c:43-99 | what was sent is what successive reads return, whatever chunks and timeouts |
| V3.WantKeepsUniqueIff | libsrsirc/v3.c:218-242 | a wanted cap is added once; names stay unique exactly if the name is short or its cut is new; a full list refuses |
| V3.WantSets | libsrsirc/v3.c:218-242 | where it is accepted, one slot holds the cap as wanted, neither offered nor enabled; no other changes |
| V3.ClearTakesOne | libsrsirc/v3.c:251-271 | exactly the named cap is taken out |
| V3.PiecesOfJoin | libsrsirc/v3.c:302-331 | a list joined with blanks falls into the same pieces again |
| V3.MarkWithData | libsrsirc/v3.c:302-331 | a cap named with data is marked and its data kept, cut to 127 characters |
| V3.LineMarksNamed | libsrsirc/v3.c:302-331 | a line of names marks exactly the caps it names, as offered in an LS and as enabled in an ACK |
| V3.AsksIfOffered | libsrsirc/v3.c:59-77 | there is a request exactly if a wanted cap was offered |
| V3.AckIsForRequest | libsrsirc/v3.c:102-121 | an ACK counts exactly if it is the list asked for, with nothing but blanks behind it |
| V3.AckEnablesOffered | libsrsirc/v3.c:102-121 | a request that fits, acknowledged with any blanks behind it, enables exactly the offered caps and changes nothing else |
| V3.AckEnablesAllIff | libsrsirc/v3.c:170-181 | all requested caps are enabled if and only if their names fit the request |
| V3.CutListLacksOne | libsrsirc/v3.c:60-77 | a list cut off anywhere lacks one of its names |
| V3.Caps.Want | libsrsirc/v3.c:218-242 | the slots stay compact and hold the list after the addition |
| V3.Caps.Clear | libsrsirc/v3.c:251-271 | the slots stay compact and hold the list after the removal |
| V3.Caps.Check | libsrsirc/v3.c:40-57 | the scan that stops at the first NULL finds out whether any must-have cap in any slot is not offered, or not enabled |
| V3.Caps.MakeCapReq | libsrsirc/v3.c:59-77 | the buffer holds the offered names, as far as they fit |
| V3.Caps.Update | libsrsirc/v3.c:302-331 | the caps after a list was read piece by piece from its copy |
| V3Tags.EscapeIsUndone | libsrsirc/v3.c:473-504 | decoding undoes the escaping of the Message Tags specification |
| V3Tags.BackslashIsDropped | libsrsirc/v3.c:473-504 | what each of the escapes stands for; malformed ones lose their backslash, also one at the end |
| V3Tags.EscapedIsSafe | libsrsirc/v3.c:473-504 | an escaped value holds nothing a line or a tag ends at |
| V3Tags.TagIsDecoded | libsrsirc/v3.c:506-517 | a tag made from a key and a value that fit is decoded as these |
| V3Tags.BareTag | libsrsirc/v3.c:506-517 | a tag without `=` has no value |
| V3Tags.TagsTravel | libsrsirc/io.c:83-99 | tags in front of a message arrive with it, and each is decoded as it was made |
| V3Tags.DecodeV3Tag | libsrsirc/v3.c:473-504 | the result is the decoded value or its longest prefix that fits, always terminated, and the count returned |
| Base64.ValueOfAlpha | libsrsirc/common.c:184-185 | the alphabet of section 4 of RFC 4648: 64 different symbols, none of them the padding |
| Base64.QuadComesBack | libsrsirc/common.c:187-209 | one to three octets are recovered from their four characters |
| Base64.EncodingComesBack | libsrsirc/common.c:211-225 | a decoder recovers every input, and n octets make 4 * ceil(n / 3) characters |
| Base64.TestVectors | libsrsirc/common.c:187-209 | three test vectors of section 10 of RFC 4648 |
| Base64.Core | libsrsirc/common.c:187-209 | exactly four characters are written |
| Base64.Base64 | libsrsirc/common.c:211-225 | the encoded input is written if it fits with a terminator to spare, otherwise nothing is |

## Left out

- Sockets, SSL, select, DNS, timers and the time left of a timeout; the peer is a list of events.
- UcBase.Base: the three kinds of maps are Dafny maps keyed by canonical prefixes, not `Skmap` objects; `Skmap` is proved to behave as such a map, and a pass over a map takes its keys in any order.
- UcBase.Base: user records live in a map from pointers to values, not in objects of their own, so that freeing one can be stated; members and channels are values in their maps.
- V3.Caps: cap records are values in their slots; each is referred to by one slot only.
- Printer.SnrcMsg: snprintf is taken to write what fits and a terminator.
- Modes.AddChanmode: the mode array is a sequence that is replaced, because the source replaces the array as well when it grows; realloc'd storage is not shared with anybody.
- Memory that cannot be allocated, and the half-done rename that then results.
- Topics, user names, hosts, real names, user tags, WHO and WHOIS replies: no effect on who is where.
- 005 apart from PREFIX: CHANMODES, CHANTYPES and CASEMAPPING are given as a `Config`.
- `lsi_skmap_del_iter` and `lsi_bucklist_del_iter`, which nothing modelled here calls and which do not update the count.
- `lsi_v3_update_cap`, and the rest of capability negotiation around LS, NAK, STARTTLS and SASL.
- The caching of decoded tags between calls of `irc_v3tag`.
- Proxy handshakes, connecting and logging on, host and proxy specifications, nick mutation.
- Logging, dumps and statistics; the applications built on the library.
- Channel names that start with `!`: the fold tables cut them to the empty key, so all of them are one channel to the code; the model has the same single key for them and states nothing further.
